/** Length-prefixed, zero-padded frames: the plaintext shape that hides a message's exact size. */
module MailFraming {
  import opened Common

  const MAX_FRAME: nat := 1048576

  datatype Error = InvalidLength | NonminimalLength | NonzeroPadding

  /** The least multiple of 1024 that holds a length prefix and `n` bytes. */
  function FrameSize(n: nat): nat {
    1024 * ((4 + n + 1023) / 1024)
  }

  function BigEndian(n: nat): (prefix: seq<byte>)
    requires n < 0x1_0000_0000
    ensures |prefix| == 4
  {
    [(n / 256 / 256 / 256) as byte, (n / 256 / 256 % 256) as byte, (n / 256 % 256) as byte, (n % 256) as byte]
  }

  function FromBigEndian(b: seq<byte>): nat
    requires |b| == 4
  {
    ((b[0] as int * 256 + b[1] as int) * 256 + b[2] as int) * 256 + b[3] as int
  }

  function Zeros(n: nat): seq<byte> {
    seq(n, _ => 0 as byte)
  }

  /** What a frame is, for any content short enough for a 32-bit length. */
  ghost predicate IsFrameOf(frame: seq<byte>, content: seq<byte>)
    requires |content| < 0x1_0000_0000
  {
    frame == BigEndian(|content|) + content + Zeros(FrameSize(|content|) - 4 - |content|)
  }

  method FrameBytes(content: seq<byte>) returns (r: Result<seq<byte>, Error>)
    ensures r.Ok? <==> 1 <= |content| <= 1048576
    ensures r.Ok? ==> IsFrameOf(r.value, content)
  {
    if !(0 < |content| <= MAX_FRAME) {
      return Err(InvalidLength);
    }
    var n := |content|;
    var frame := new byte[FrameSize(n)](_ => 0);
    var prefix := BigEndian(n);
    for i := 0 to 4
      invariant forall j | 0 <= j < i :: frame[j] == prefix[j]
      invariant forall j | i <= j < frame.Length :: frame[j] == 0
    {
      frame[i] := prefix[i];
    }
    for i := 0 to n
      invariant forall j | 0 <= j < 4 :: frame[j] == prefix[j]
      invariant forall j | 0 <= j < i :: frame[4 + j] == content[j]
      invariant forall j | 4 + i <= j < frame.Length :: frame[j] == 0
    {
      frame[4 + i] := content[i];
    }
    r := Ok(frame[..]);
  }

  /** The byte-level part of opening a frame; decoding the content as a message comes after. */
  method UnframeBytes(frame: seq<byte>) returns (r: Result<seq<byte>, Error>)
    ensures r == Unframed(frame)
  {
    if !(1024 <= |frame| <= MAX_FRAME && |frame| % 1024 == 0) {
      return Err(InvalidLength);
    }
    var n := FromBigEndian(frame[..4]);
    if !(0 < n <= |frame| - 4 && |frame| == FrameSize(n)) {
      return Err(NonminimalLength);
    }
    for i := 4 + n to |frame|
      invariant forall j | 4 + n <= j < i :: frame[j] == 0
    {
      if frame[i] != 0 {
        return Err(NonzeroPadding);
      }
    }
    r := Ok(frame[4..4 + n]);
  }

  function Unframed(frame: seq<byte>): Result<seq<byte>, Error> {
    if !(1024 <= |frame| <= MAX_FRAME && |frame| % 1024 == 0) then Err(InvalidLength)
    else
      var n := FromBigEndian(frame[..4]);
      if !(0 < n <= |frame| - 4 && |frame| == FrameSize(n)) then Err(NonminimalLength)
      else if exists j | 4 + n <= j < |frame| :: frame[j] != 0 then Err(NonzeroPadding)
      else Ok(frame[4..4 + n])
  }

  lemma LengthRoundTrip(n: nat)
    requires n < 0x1_0000_0000
    ensures FromBigEndian(BigEndian(n)) == n
  {
  }

  lemma PrefixRoundTrip(b: seq<byte>)
    requires |b| == 4
    ensures FromBigEndian(b) < 0x1_0000_0000 && BigEndian(FromBigEndian(b)) == b
  {
    var high := b[0] as int * 256 + b[1] as int;
    var upper := high * 256 + b[2] as int;
    assert FromBigEndian(b) / 256 == upper && upper / 256 == high && high / 256 == b[0] as int;
  }

  lemma SizeBounds(n: nat)
    ensures FrameSize(n) % 1024 == 0 && 4 + n <= FrameSize(n) < 4 + n + 1024
    ensures 1 <= n ==> 1024 <= FrameSize(n)
    ensures FrameSize(n) <= MAX_FRAME <==> n <= MAX_FRAME - 4
  {
  }

  /**
   * Framing accepts up to 1048576 bytes, but a frame of more than 1048572 is itself too long to be opened. Within
   * that bound opening undoes framing, and beyond it never does.
   */
  lemma UnframeUndoesFrameIff(content: seq<byte>, frame: seq<byte>)
    requires 1 <= |content| <= 1048576 && IsFrameOf(frame, content)
    ensures Unframed(frame) == Ok(content) <==> |content| <= 1048572
    ensures |content| > 1048572 ==> Unframed(frame) == Err(InvalidLength)
  {
    var n := |content|;
    SizeBounds(n);
    LengthRoundTrip(n);
    assert frame[..4] == BigEndian(n);
    assert frame[4..4 + n] == content;
  }

  lemma FrameHolds(frame: seq<byte>, content: seq<byte>)
    requires |content| <= MAX_FRAME && IsFrameOf(frame, content)
    ensures 4 + |content| <= |frame|
    ensures FromBigEndian(frame[..4]) == |content| && frame[4..4 + |content|] == content
  {
  }

  /** Every frame that opens is the frame of what it opens to, and of nothing else. */
  lemma OpenedFrameIsTheFrame(frame: seq<byte>)
    requires Unframed(frame).Ok?
    ensures var content := Unframed(frame).value;
      && 1 <= |content| <= MAX_FRAME - 4
      && IsFrameOf(frame, content)
      && forall other | 1 <= |other| <= MAX_FRAME && IsFrameOf(frame, other) :: other == content
  {
    hide BigEndian, FromBigEndian, FrameSize;
    var content := Unframed(frame).value;
    var n := |content|;
    SizeBounds(n);
    PrefixRoundTrip(frame[..4]);
    assert frame == frame[..4] + frame[4..4 + n] + frame[4 + n..];
    assert frame[4 + n..] == Zeros(FrameSize(n) - 4 - n);
    forall other | 1 <= |other| <= MAX_FRAME && IsFrameOf(frame, other)
      ensures other == content
    {
      FrameHolds(frame, other);
    }
  }
}
