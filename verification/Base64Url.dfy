/** Canonical unpadded base64url (RFC 4648, sections 3.5 and 5): one accepted text for every byte string. */
module Base64Url {
  import opened Common

  type Sextet = x: int | 0 <= x < 64

  function CharOf(d: Sextet): char {
    if d < 26 then 'A' + d as char
    else if d < 52 then 'a' + (d - 26) as char
    else if d < 62 then '0' + (d - 52) as char
    else if d == 62 then '-'
    else '_'
  }

  /** The decode table: -1 outside the alphabet. */
  function DigitOf(c: char): (d: int)
    ensures -1 <= d < 64
  {
    if 'A' <= c <= 'Z' then c as int - 'A' as int
    else if 'a' <= c <= 'z' then c as int - 'a' as int + 26
    else if '0' <= c <= '9' then c as int - '0' as int + 52
    else if c == '-' then 62
    else if c == '_' then 63
    else -1
  }

  // ---- The code, position by position -------------------------------------

  function ByteAt(b: seq<byte>, i: nat): int {
    if i < |b| then b[i] as int else 0
  }

  function EncodedLength(n: nat): nat {
    (4 * n + 2) / 3
  }

  /** The 6 bits of the input that stand behind character `k`. */
  function EncodedDigit(b: seq<byte>, k: nat): Sextet {
    var q := 3 * (k / 4);
    match k % 4
    case 0 => ByteAt(b, q) / 4
    case 1 => ByteAt(b, q) % 4 * 16 + ByteAt(b, q + 1) / 16
    case 2 => ByteAt(b, q + 1) % 16 * 4 + ByteAt(b, q + 2) / 64
    case _ => ByteAt(b, q + 2) % 64
  }

  function Encoded(b: seq<byte>): string {
    seq(EncodedLength(|b|), k requires 0 <= k => CharOf(EncodedDigit(b, k)))
  }

  predicate InAlphabet(s: string) {
    forall i | 0 <= i < |s| :: DigitOf(s[i]) >= 0
  }

  function DecodedLength(n: nat): nat {
    3 * n / 4
  }

  /** The 8 bits of the digits that make up byte `k`. */
  function DecodedByte(s: string, k: nat): byte
    requires InAlphabet(s) && k < DecodedLength(|s|)
  {
    var q := 4 * (k / 3);
    match k % 3
    case 0 => (DigitOf(s[q]) * 4 + DigitOf(s[q + 1]) / 16) as byte
    case 1 => (DigitOf(s[q + 1]) % 16 * 16 + DigitOf(s[q + 2]) / 4) as byte
    case _ => (DigitOf(s[q + 2]) % 4 * 64 + DigitOf(s[q + 3])) as byte
  }

  /** `2^bits`, where `bits` of the last digit belong to no byte. */
  function Spare(n: nat): nat {
    if n % 4 == 2 then 16 else if n % 4 == 3 then 4 else 1
  }

  predicate Canonical(s: string) {
    |s| % 4 != 1 && InAlphabet(s) && (s != "" ==> DigitOf(s[|s| - 1]) % Spare(|s|) == 0)
  }

  function Decoded(s: string): Option<seq<byte>> {
    if Canonical(s) then
      Some(seq(DecodedLength(|s|), k requires 0 <= k < DecodedLength(|s|) && InAlphabet(s) => DecodedByte(s, k)))
    else None
  }

  // ---- Division facts -----------------------------------------------------

  lemma Multiple(b: int, k: int)
    requires b > 0
    ensures k >= 1 ==> b * k >= b
    ensures k <= -1 ==> b * k <= -b
  {
  }

  lemma DivMod(a: int, b: int, q: int, r: int)
    requires b > 0 && a == b * q + r && 0 <= r < b
    ensures a / b == q && a % b == r
  {
    var k := q - a / b;
    assert b * k == a % b - r by {
      assert b * k == b * q - b * (a / b);
    }
    Multiple(b, k);
  }

  /** `(n >> (18 - 6 * j)) & 63`. */
  function SextetOf(n: nat, j: nat): Sextet
    requires j < 4
  {
    n / (if j == 0 then 262144 else if j == 1 then 4096 else if j == 2 then 64 else 1) % 64
  }

  lemma GroupSextets(x: nat, y: nat, z: nat)
    requires x < 256 && y < 256 && z < 256
    ensures var n := x * 65536 + y * 256 + z;
      && SextetOf(n, 0) == x / 4 && SextetOf(n, 1) == x % 4 * 16 + y / 16
      && SextetOf(n, 2) == y % 16 * 4 + z / 64 && SextetOf(n, 3) == z % 64
  {
    var n := x * 65536 + y * 256 + z;
    DivMod(n, 262144, x / 4, x % 4 * 65536 + y * 256 + z);
    DivMod(n, 4096, x * 16 + y / 16, y % 16 * 256 + z);
    DivMod(x * 16 + y / 16, 64, x / 4, x % 4 * 16 + y / 16);
    DivMod(n, 64, x * 1024 + y * 4 + z / 64, z % 64);
    DivMod(x * 1024 + y * 4 + z / 64, 64, x * 16 + y / 16, y % 16 * 4 + z / 64);
  }

  /** `((buffer << 6) | digit) & 0xffff`. */
  function Shifted(buffer: nat, digit: Sextet): (r: nat) {
    (buffer * 64 + digit) % 65536
  }

  lemma ShiftedBits(buffer: nat, digit: Sextet)
    ensures var r := Shifted(buffer, digit);
      && r < 65536 && r % 64 == digit && r % 16 == digit % 16 && r % 4 == digit % 4
      && r / 16 % 256 == buffer % 64 * 4 + digit / 16
      && r / 4 % 256 == buffer % 16 * 16 + digit / 4
      && r % 256 == buffer % 4 * 64 + digit
  {
    var low := buffer % 1024;
    DivMod(buffer * 64 + digit, 65536, buffer / 1024, low * 64 + digit);
    LowBits(buffer);
    DivMod(low * 64 + digit, 64, low, digit);
    DivMod(low * 64 + digit, 16, low * 4 + digit / 16, digit % 16);
    DivMod(low * 64 + digit, 4, low * 16 + digit / 4, digit % 4);
    DivMod(low * 4 + digit / 16, 256, low / 64, low % 64 * 4 + digit / 16);
    DivMod(low * 16 + digit / 4, 256, low / 16, low % 16 * 16 + digit / 4);
    DivMod(low * 64 + digit, 256, low / 4, low % 4 * 64 + digit);
  }

  lemma LowBits(buffer: nat)
    ensures buffer % 1024 % 64 == buffer % 64 && buffer % 1024 % 16 == buffer % 16 && buffer % 1024 % 4 == buffer % 4
  {
    var high, low := buffer / 1024, buffer % 1024;
    DivMod(buffer, 64, high * 16 + low / 64, low % 64);
    DivMod(buffer, 16, high * 64 + low / 16, low % 16);
    DivMod(buffer, 4, high * 256 + low / 4, low % 4);
  }

  // ---- The streaming implementations --------------------------------------

  /** Three bytes at a time, most significant first; a missing byte reads as zero. */
  method Encode(b: seq<byte>) returns (out: string)
    ensures out == Encoded(b)
  {
    hide EncodedDigit, SextetOf;
    out := "";
    var i := 0;
    ghost var q := 0;
    while i < |b|
      invariant i == 3 * q
      invariant |out| == if i <= |b| then 4 * q else EncodedLength(|b|)
      invariant i > |b| ==> i < |b| + 3
      invariant forall k | 0 <= k < |out| :: out[k] == CharOf(EncodedDigit(b, k))
      decreases |b| - i
    {
      var n := ByteAt(b, i) * 65536 + ByteAt(b, i + 1) * 256 + ByteAt(b, i + 2);
      var left := |b| - i;
      var chars := if 4 * left >= 12 then 4 else (4 * left + 2) / 3;
      for j := 0 to chars
        invariant |out| == 4 * q + j
        invariant forall k | 0 <= k < |out| :: out[k] == CharOf(EncodedDigit(b, k))
      {
        GroupDigit(b, i, q, n, j);
        out := out + [CharOf(SextetOf(n, j))];
      }
      i, q := i + 3, q + 1;
    }
    assert |out| == EncodedLength(|b|);
  }

  lemma DigitsOfGroup(b: seq<byte>, q: nat)
    ensures EncodedDigit(b, 4 * q) == ByteAt(b, 3 * q) / 4
    ensures EncodedDigit(b, 4 * q + 1) == ByteAt(b, 3 * q) % 4 * 16 + ByteAt(b, 3 * q + 1) / 16
    ensures EncodedDigit(b, 4 * q + 2) == ByteAt(b, 3 * q + 1) % 16 * 4 + ByteAt(b, 3 * q + 2) / 64
    ensures EncodedDigit(b, 4 * q + 3) == ByteAt(b, 3 * q + 2) % 64
  {
    DivMod(4 * q, 4, q, 0);
    DivMod(4 * q + 1, 4, q, 1);
    DivMod(4 * q + 2, 4, q, 2);
    DivMod(4 * q + 3, 4, q, 3);
  }

  lemma GroupDigit(b: seq<byte>, i: nat, q: nat, n: nat, j: nat)
    requires i == 3 * q && j < 4 && n == ByteAt(b, i) * 65536 + ByteAt(b, i + 1) * 256 + ByteAt(b, i + 2)
    ensures EncodedDigit(b, 4 * q + j) == SextetOf(n, j)
  {
    hide EncodedDigit, SextetOf;
    DigitsOfGroup(b, q);
    GroupSextets(ByteAt(b, i), ByteAt(b, i + 1), ByteAt(b, i + 2));
    if j == 0 {
      assert 4 * q + j == 4 * q;
    } else if j == 1 {
      assert 4 * q + j == 4 * q + 1;
    } else if j == 2 {
      assert 4 * q + j == 4 * q + 2;
    } else {
      assert 4 * q + j == 4 * q + 3;
    }
  }

  lemma BytesOfGroup(s: string, q: nat)
    requires InAlphabet(s)
    ensures 3 * q < DecodedLength(|s|) ==>
              4 * q + 1 < |s| && DecodedByte(s, 3 * q) as int == DigitOf(s[4 * q]) * 4 + DigitOf(s[4 * q + 1]) / 16
    ensures 3 * q + 1 < DecodedLength(|s|) ==>
              4 * q + 2 < |s| && DecodedByte(s, 3 * q + 1) as int == DigitOf(s[4 * q + 1]) % 16 * 16
                  + DigitOf(s[4 * q + 2]) / 4
    ensures 3 * q + 2 < DecodedLength(|s|) ==>
              4 * q + 3 < |s| && DecodedByte(s, 3 * q + 2) as int == DigitOf(s[4 * q + 2]) % 4 * 64
                  + DigitOf(s[4 * q + 3])
  {
    DivMod(3 * q, 3, q, 0);
    DivMod(3 * q + 1, 3, q, 1);
    DivMod(3 * q + 2, 3, q, 2);
  }

  /** The pending bits of a prefix: 0, 6, 4, 2 in turn, as the power of two they fill. */
  function Pending(i: nat): (power: nat)
    ensures power > 0
  {
    if i % 4 == 0 then 1 else if i % 4 == 1 then 64 else if i % 4 == 2 then 16 else 4
  }

  /** How many bits those are. */
  function PendingBits(i: nat): (bits: nat)
    ensures bits < 8
  {
    if i % 4 == 0 then 0 else if i % 4 == 1 then 6 else if i % 4 == 2 then 4 else 2
  }

  function PowerOf(bits: nat): (power: nat)
    ensures power > 0
  {
    if bits == 0 then 1 else 2 * PowerOf(bits - 1)
  }

  /** One digit at a time through a 16-bit buffer, emitting a byte whenever eight bits are pending. */
  method DecodeCanonical(s: string) returns (r: Option<seq<byte>>)
    ensures r == Decoded(s)
  {
    hide DecodedByte, DigitOf, Shifted, PowerOf, DecodedLength, Pending, PendingBits;
    if |s| % 4 == 1 {
      return None;
    }
    var bytes := new byte[DecodedLength(|s|)];
    var buffer: nat, bits: nat, offset: nat := 0, 0, 0;
    StepCounts(0);
    LengthsGrow(0, |s|);
    for i := 0 to |s|
      invariant InAlphabet(s[..i])
      invariant bits == PendingBits(i) && offset == DecodedLength(i) <= bytes.Length && Holds(s, i, buffer)
      invariant forall k | 0 <= k < offset :: bytes[k] == DecodedByte(s[..i], k)
    {
      var digit := DigitOf(s[i]);
      if digit < 0 {
        assert !InAlphabet(s);
        return None;
      }
      PrefixInAlphabet(s, i);
      PrefixBytes(s, i);
      StepCounts(i);
      StepCounts(i + 1);
      LengthsGrow(i + 1, |s|);
      StepKeepsPending(s, i, buffer);
      if i % 4 != 0 {
        StepEmits(s, i, buffer);
      }
      buffer := Shifted(buffer, digit);
      bits := bits + 6;
      if bits >= 8 {
        bits := bits - 8;
        bytes[offset] := (buffer / PowerOf(bits) % 256) as byte;
        offset := offset + 1;
      }
    }
    assert s[..|s|] == s;
    StepCounts(|s|);
    SpareIsPending(s, buffer);
    if buffer % PowerOf(bits) != 0 {
      return None;
    }
    assert bytes[..] == Decoded(s).value;
    r := Some(bytes[..]);
  }

  /** Every digit adds six bits; eight of them leave as a byte, after every digit but the first of a group. */
  lemma StepCounts(i: nat)
    ensures PowerOf(PendingBits(i)) == Pending(i)
    ensures i % 4 == 0 ==> PendingBits(i + 1) == PendingBits(i) + 6 < 8 && DecodedLength(i + 1) == DecodedLength(i)
    ensures i % 4 != 0 ==> PendingBits(i + 1) == PendingBits(i) + 6 - 8 && DecodedLength(i + 1) == DecodedLength(i) + 1
    ensures PendingBits(0) == 0 && DecodedLength(0) == 0
  {
    assert PowerOf(2) == 4 && PowerOf(4) == 16 && PowerOf(6) == 64;
    if i % 4 == 0 {
      DecodedLengthAt(i / 4, 0);
      DecodedLengthAt(i / 4, 1);
    } else {
      LengthsInGroup(i / 4, i % 4);
    }
  }

  lemma LengthsGrow(i: nat, n: nat)
    requires i <= n
    ensures DecodedLength(i) <= DecodedLength(n)
  {
  }

  lemma SpareIsPending(s: string, buffer: nat)
    requires |s| % 4 != 1 && InAlphabet(s) && Holds(s, |s|, buffer) && (s == "" ==> buffer == 0)
    ensures Canonical(s) <==> buffer % Pending(|s|) == 0
  {
  }

  /** The low end of the buffer is exactly the pending bits of the last digit. */
  ghost predicate Holds(s: string, i: nat, buffer: nat)
    requires i <= |s|
  {
    buffer < 65536 && (i == 0 ==> buffer == 0) && (i > 0 ==> buffer % Pending(i) == DigitOf(s[i - 1]) % Pending(i))
  }

  lemma PrefixInAlphabet(s: string, i: nat)
    requires i < |s| && InAlphabet(s[..i]) && DigitOf(s[i]) >= 0
    ensures InAlphabet(s[..i + 1])
  {
  }

  lemma PrefixBytes(s: string, i: nat)
    requires i < |s| && InAlphabet(s[..i]) && InAlphabet(s[..i + 1])
    ensures forall k | 0 <= k < DecodedLength(i) :: DecodedByte(s[..i + 1], k) == DecodedByte(s[..i], k)
  {
  }

  lemma StepKeepsPending(s: string, i: nat, buffer: nat)
    requires i < |s| && DigitOf(s[i]) >= 0
    ensures Holds(s, i + 1, Shifted(buffer, DigitOf(s[i])))
  {
    ShiftedBits(buffer, DigitOf(s[i]));
  }

  /** No pending bit is lost: the byte emitted is the one the digits spell. */
  lemma StepEmits(s: string, i: nat, buffer: nat)
    requires i < |s| && i % 4 != 0 && InAlphabet(s[..i + 1]) && Holds(s, i, buffer)
    ensures DecodedLength(i + 1) == DecodedLength(i) + 1
    ensures DecodedByte(s[..i + 1], DecodedLength(i)) as int == Shifted(buffer, DigitOf(s[i])) / Pending(i + 1) % 256
  {
    hide DecodedByte, DigitOf, Shifted, InAlphabet, Pending, DecodedLength;
    var q := i / 4;
    var prefix := s[..i + 1];
    assert prefix[i] == s[i] && prefix[i - 1] == s[i - 1];
    AllDigits(prefix);
    BytesOfGroup(prefix, q);
    assert i == 4 * q + i % 4;
    EmittedBits(q, i % 4, buffer, DigitOf(s[i - 1]), DigitOf(s[i]));
    LengthsInGroup(q, i % 4);
    assert i == 4 * q + 1 || i == 4 * q + 2 || i == 4 * q + 3;
  }

  lemma PendingInGroup(q: nat, r: nat)
    requires 1 <= r < 4
    ensures Pending(4 * q + r) == if r == 1 then 64 else if r == 2 then 16 else 4
    ensures Pending(4 * q + r + 1) == if r == 1 then 16 else if r == 2 then 4 else 1
  {
  }

  lemma EmittedBits(q: nat, r: nat, buffer: nat, last: Sextet, digit: Sextet)
    requires 1 <= r < 4 && buffer % Pending(4 * q + r) == last % Pending(4 * q + r)
    ensures Shifted(buffer, digit) / Pending(4 * q + r + 1) % 256
         == if r == 1 then last * 4 + digit / 16 else if r == 2 then last % 16 * 16 + digit / 4
             else last % 4 * 64 + digit
  {
    hide Shifted, Pending;
    PendingInGroup(q, r);
    ShiftedBits(buffer, digit);
  }

  lemma LengthsInGroup(q: nat, r: nat)
    requires 1 <= r < 4
    ensures DecodedLength(4 * q + r) == 3 * q + r - 1 && DecodedLength(4 * q + r + 1) == 3 * q + r
  {
  }

  lemma AllDigits(s: string)
    requires InAlphabet(s)
    ensures forall i | 0 <= i < |s| :: 0 <= DigitOf(s[i]) < 64
  {
  }

  // ---- Round trips --------------------------------------------------------

  lemma CharRoundTrip(c: char, d: Sextet)
    ensures DigitOf(CharOf(d)) == d
    ensures DigitOf(c) >= 0 ==> CharOf(DigitOf(c)) == c
  {
  }

  lemma EncodedDigits(b: seq<byte>)
    ensures InAlphabet(Encoded(b))
    ensures forall k | 0 <= k < |Encoded(b)| :: DigitOf(Encoded(b)[k]) == EncodedDigit(b, k)
  {
  }

  lemma EncodedLengthAt(q: nat, r: nat)
    requires r < 3
    ensures EncodedLength(3 * q + r) == 4 * q + (if r == 0 then 0 else r + 1)
  {
  }

  lemma DecodedLengthAt(q: nat, r: nat)
    requires r < 4
    ensures DecodedLength(4 * q + r) == 3 * q + (if r == 0 then 0 else r - 1)
  {
  }

  lemma Lengths(n: nat)
    ensures EncodedLength(n) % 4 != 1 && DecodedLength(EncodedLength(n)) == n
    ensures n % 4 != 1 ==> EncodedLength(DecodedLength(n)) == n
  {
    hide EncodedLength, DecodedLength;
    EncodedLengthAt(n / 3, n % 3);
    DecodedLengthAt(n / 3, if n % 3 == 0 then 0 else n % 3 + 1);
    DecodedLengthAt(n / 4, n % 4);
    if n % 4 != 1 {
      EncodedLengthAt(n / 4, if n % 4 == 0 then 0 else n % 4 - 1);
    }
  }

  lemma LastDigitIsCanonical(b: seq<byte>)
    ensures b != [] ==> EncodedDigit(b, EncodedLength(|b|) - 1) % Spare(EncodedLength(|b|)) == 0
  {
    hide EncodedDigit;
    var q := |b| / 3;
    DigitsOfGroup(b, q);
    if |b| % 3 == 1 {
      assert EncodedLength(|b|) == 4 * q + 2;
    } else if |b| % 3 == 2 {
      assert EncodedLength(|b|) == 4 * q + 3;
    } else {
      assert EncodedLength(|b|) == 4 * q;
    }
  }

  lemma EncodedIsCanonical(b: seq<byte>)
    ensures Canonical(Encoded(b))
  {
    var s := Encoded(b);
    Lengths(|b|);
    EncodedDigits(b);
    LastDigitIsCanonical(b);
    hide EncodedDigit, DigitOf, Spare;
    if s != "" {
      assert DigitOf(s[|s| - 1]) == EncodedDigit(b, |s| - 1);
    }
  }

  /** Decoding undoes encoding, for every byte string. */
  lemma DecodeUndoesEncode(b: seq<byte>)
    ensures Decoded(Encoded(b)) == Some(b)
  {
    var s := Encoded(b);
    Lengths(|b|);
    EncodedDigits(b);
    EncodedIsCanonical(b);
    hide DecodedByte, DigitOf, EncodedDigit, Canonical;
    forall k | 0 <= k < |b|
      ensures DecodedByte(s, k) == b[k]
    {
      ByteRoundTrip(b, k);
    }
    assert Decoded(s).value == b;
  }

  lemma BitsRejoin(x: nat, y: nat, z: nat)
    requires x < 256 && y < 256 && z < 256
    ensures x / 4 * 4 + (x % 4 * 16 + y / 16) / 16 == x
    ensures (x % 4 * 16 + y / 16) % 16 * 16 + (y % 16 * 4 + z / 64) / 4 == y
    ensures (y % 16 * 4 + z / 64) % 4 * 64 + z % 64 == z
  {
  }

  lemma ByteRoundTrip(b: seq<byte>, k: nat)
    requires k < |b| && DecodedLength(|Encoded(b)|) == |b| && InAlphabet(Encoded(b))
    requires forall i | 0 <= i < |Encoded(b)| :: DigitOf(Encoded(b)[i]) == EncodedDigit(b, i)
    ensures DecodedByte(Encoded(b), k) == b[k]
  {
    hide DecodedByte, DigitOf, EncodedDigit, Encoded, InAlphabet;
    var q := k / 3;
    BytesOfGroup(Encoded(b), q);
    DigitsOfGroup(b, q);
    BitsRejoin(ByteAt(b, 3 * q), ByteAt(b, 3 * q + 1), ByteAt(b, 3 * q + 2));
    assert k == 3 * q || k == 3 * q + 1 || k == 3 * q + 2;
  }

  /** A text that decodes is the encoding of what it decodes to: no byte string has a second accepted text. */
  lemma EncodeUndoesDecode(s: string)
    requires Decoded(s).Some?
    ensures Encoded(Decoded(s).value) == s
  {
    var b := Decoded(s).value;
    Lengths(|s|);
    forall k | 0 <= k < |s|
      ensures CharOf(EncodedDigit(b, k)) == s[k]
    {
      DigitRoundTrip(s, k);
      CharRoundTrip(s[k], 0);
    }
  }

  lemma BitsResplit(d0: Sextet, d1: Sextet, d2: Sextet, d3: Sextet)
    ensures var x, y, z := d0 * 4 + d1 / 16, d1 % 16 * 16 + d2 / 4, d2 % 4 * 64 + d3;
      && x / 4 == d0 && x % 4 * 16 + y / 16 == d1 && y % 16 * 4 + z / 64 == d2 && z % 64 == d3
  {
  }

  /** The digit at `i`, or zero past the end: a canonical text has no bits there. */
  function DigitAt(s: string, i: nat): Sextet
    requires InAlphabet(s)
  {
    if i < |s| then DigitOf(s[i]) else 0
  }

  lemma DecodedAt(s: string, k: nat)
    requires Canonical(s)
    ensures |Decoded(s).value| == DecodedLength(|s|)
    ensures k < DecodedLength(|s|) ==> Decoded(s).value[k] == DecodedByte(s, k)
  {
  }

  /** A canonical text ends on a group of two, three or four digits, and wastes no bits. */
  lemma LastGroup(s: string, q: nat)
    requires Canonical(s) && 4 * q < |s|
    ensures 4 * q + 1 < |s|
    ensures |s| == 4 * q + 2 ==> DecodedLength(|s|) == 3 * q + 1 && DigitOf(s[4 * q + 1]) % 16 == 0
    ensures |s| == 4 * q + 3 ==> DecodedLength(|s|) == 3 * q + 2 && DigitOf(s[4 * q + 2]) % 4 == 0
    ensures |s| >= 4 * q + 4 ==> DecodedLength(|s|) >= 3 * q + 3
  {
  }

  lemma GroupBytes(s: string, q: nat)
    requires Canonical(s) && 4 * q < |s|
    ensures var b := Decoded(s).value;
      && ByteAt(b, 3 * q) == DigitAt(s, 4 * q) * 4 + DigitAt(s, 4 * q + 1) / 16
      && (4 * q + 1 < |s| ==> ByteAt(b, 3 * q + 1) == DigitAt(s, 4 * q + 1) % 16 * 16 + DigitAt(s, 4 * q + 2) / 4)
      && (4 * q + 2 < |s| ==> ByteAt(b, 3 * q + 2) == DigitAt(s, 4 * q + 2) % 4 * 64 + DigitAt(s, 4 * q + 3))
  {
    hide DecodedByte, DigitOf, Canonical, Decoded, DecodedLength, InAlphabet;
    CanonicalIsInAlphabet(s);
    LastGroup(s, q);
    DecodedAt(s, 3 * q);
    DecodedAt(s, 3 * q + 1);
    DecodedAt(s, 3 * q + 2);
    BytesOfGroup(s, q);
  }

  lemma DigitRoundTrip(s: string, k: nat)
    requires Canonical(s) && k < |s|
    ensures EncodedDigit(Decoded(s).value, k) == DigitOf(s[k])
  {
    hide EncodedDigit, DigitOf, Canonical, Decoded;
    var q := k / 4;
    CanonicalIsInAlphabet(s);
    DigitsOfGroup(Decoded(s).value, q);
    GroupBytes(s, q);
    BitsResplit(DigitAt(s, 4 * q), DigitAt(s, 4 * q + 1), DigitAt(s, 4 * q + 2), DigitAt(s, 4 * q + 3));
    assert k == 4 * q || k == 4 * q + 1 || k == 4 * q + 2 || k == 4 * q + 3;
  }

  lemma CanonicalIsInAlphabet(s: string)
    requires Canonical(s)
    ensures InAlphabet(s) && Decoded(s).Some?
  {
  }

  lemma AcceptedTextIsUnique(s: string, t: string)
    requires Decoded(s).Some? && Decoded(s) == Decoded(t)
    ensures s == t
  {
    EncodeUndoesDecode(s);
    EncodeUndoesDecode(t);
  }
}
