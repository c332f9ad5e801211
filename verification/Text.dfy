/** Splitting, joining and decimal rendering of the strings that cursors and Agent URLs are made of. */
module Text {
  import opened Common

  /** `str::split(separator)`: always at least one part. */
  function Split(s: string, separator: char): (parts: seq<string>)
    ensures |parts| >= 1
  {
    if s == "" then [""]
    else
      var rest := Split(s[1..], separator);
      if s[0] == separator then [""] + rest
      else [[s[0]] + rest[0]] + rest[1..]
  }

  function Join(parts: seq<string>, separator: char): string
    requires |parts| >= 1
  {
    if |parts| == 1 then parts[0]
    else parts[0] + [separator] + Join(parts[1..], separator)
  }

  ghost predicate SeparatorFree(parts: seq<string>, separator: char) {
    forall i | 0 <= i < |parts| :: separator !in parts[i]
  }

  lemma {:induction false} SplitParts(s: string, separator: char)
    ensures SeparatorFree(Split(s, separator), separator)
    ensures Join(Split(s, separator), separator) == s
  {
    if s != "" {
      var rest := Split(s[1..], separator);
      SplitParts(s[1..], separator);
      if s[0] == separator {
        assert ([""] + rest)[1..] == rest;
      } else {
        var first := [s[0]] + rest[0];
        assert ([first] + rest[1..])[1..] == rest[1..];
        if |rest| > 1 {
          assert first + [separator] + Join(rest[1..], separator)
              == [s[0]] + (rest[0] + [separator] + Join(rest[1..], separator));
        }
      }
    }
  }

  lemma {:induction false} SplitWhole(part: string, separator: char)
    requires separator !in part
    ensures Split(part, separator) == [part]
  {
    if part != "" {
      SplitWhole(part[1..], separator);
      assert [part[0]] + part[1..] == part;
    }
  }

  lemma {:induction false} SplitFirst(part: string, rest: string, separator: char)
    requires separator !in part
    ensures Split(part + [separator] + rest, separator) == [part] + Split(rest, separator)
  {
    var s := part + [separator] + rest;
    if part == "" {
      assert s[1..] == rest;
    } else {
      assert s[1..] == part[1..] + [separator] + rest;
      SplitFirst(part[1..], rest, separator);
      assert [part[0]] + part[1..] == part;
    }
  }

  lemma {:induction false} SplitJoin(parts: seq<string>, separator: char)
    requires |parts| >= 1 && SeparatorFree(parts, separator)
    ensures Split(Join(parts, separator), separator) == parts
  {
    if |parts| == 1 {
      SplitWhole(parts[0], separator);
    } else {
      SplitFirst(parts[0], Join(parts[1..], separator), separator);
      SplitJoin(parts[1..], separator);
      assert [parts[0]] + parts[1..] == parts;
    }
  }

  predicate IsDigit(c: char) {
    '0' <= c <= '9'
  }

  predicate AllDigits(s: string) {
    forall i | 0 <= i < |s| :: IsDigit(s[i])
  }

  function DigitChar(d: nat): (c: char)
    requires d < 10
  {
    '0' + d as char
  }

  /** `to_string` of an integer. */
  function Decimal(n: int): string
    decreases n < 0, if n < 0 then -n else n
  {
    if n < 0 then "-" + Decimal(-n)
    else if n < 10 then [DigitChar(n)]
    else Decimal(n / 10) + [DigitChar(n % 10)]
  }

  /** `parse::<u64>()` on a non-empty run of at most 16 digits, which never overflows. */
  function ParseDecimal(s: string): nat
    requires AllDigits(s)
  {
    if s == "" then 0
    else 10 * ParseDecimal(s[..|s| - 1]) + (s[|s| - 1] as int - '0' as int)
  }

  function Pow10(k: nat): nat {
    if k == 0 then 1 else 10 * Pow10(k - 1)
  }

  lemma {:induction false} DecimalRoundTrip(n: nat, width: nat)
    requires 1 <= width && n < Pow10(width)
    ensures AllDigits(Decimal(n)) && 1 <= |Decimal(n)| <= width
    ensures ParseDecimal(Decimal(n)) == n
  {
    if n >= 10 {
      assert width > 1;
      DecimalRoundTrip(n / 10, width - 1);
      var head := Decimal(n / 10);
      assert Decimal(n)[..|Decimal(n)| - 1] == head;
    } else {
      assert Decimal(n) == [DigitChar(n)];
      assert ParseDecimal(Decimal(n)[..0]) == 0;
    }
  }

  lemma SafeIntegersFitSixteenDigits()
    ensures MAX_SAFE < Pow10(16)
  {
    assert Pow10(8) == 100000000 && Pow10(12) == 10000 * Pow10(8) && Pow10(16) == 10000 * Pow10(12);
  }

  /** No sign and no leading zero: the text `to_string` gives a natural number. */
  predicate CanonicalDecimal(s: string) {
    s != "" && AllDigits(s) && (s[0] == '0' ==> s == "0")
  }

  lemma {:induction false} DecimalIsCanonical(n: nat)
    ensures CanonicalDecimal(Decimal(n)) && ParseDecimal(Decimal(n)) == n
    ensures n > 0 ==> Decimal(n)[0] != '0'
  {
    if n >= 10 {
      DecimalIsCanonical(n / 10);
      assert Decimal(n)[..|Decimal(n)| - 1] == Decimal(n / 10);
    } else {
      assert Decimal(n) == [DigitChar(n)];
      assert ParseDecimal(Decimal(n)[..0]) == 0;
    }
  }
}
