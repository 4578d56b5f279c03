/** CliHelpers.GenerateSessionId: random bytes written as lower-case hexadecimal, two digits a
    byte. The random source is outside the model; the bytes are a parameter. */
module Session {
  import opened Common

  type Byte = b: int | 0 <= b < 256

  /** A lower-case hexadecimal digit. */
  predicate IsHexDigit(c: char)
  {
    ('0' <= c <= '9') || ('a' <= c <= 'f')
  }

  function HexDigit(d: nat): (c: char)
    requires d < 16
    ensures IsHexDigit(c)
  {
    if d < 10 then ('0' as int + d) as char else ('a' as int + d - 10) as char
  }

  /** `b.ToString("x2")`. */
  function Hex2(b: Byte): (r: string)
    ensures |r| == 2 && IsHexDigit(r[0]) && IsHexDigit(r[1])
  {
    [HexDigit(b / 16), HexDigit(b % 16)]
  }

  /** The hexadecimal text of a byte sequence. */
  function HexOf(bytes: seq<Byte>): (r: string)
    ensures |r| == 2 * |bytes|
    ensures forall i :: 0 <= i < |r| ==> IsHexDigit(r[i])
  {
    if bytes == [] then [] else HexOf(bytes[..|bytes| - 1]) + Hex2(bytes[|bytes| - 1])
  }

  function HexValue(c: char): (d: nat)
    requires IsHexDigit(c)
    ensures d < 16 && HexDigit(d) == c
  {
    if '0' <= c <= '9' then c as int - '0' as int else c as int - 'a' as int + 10
  }

  lemma DigitValue(d: nat)
    requires d < 16
    ensures HexValue(HexDigit(d)) == d
  {
  }

  /** Reads hexadecimal text back into bytes, two digits at a time from the end: `None` for
      an odd length or a character that is not a lower-case hex digit. */
  function ParseHex(s: string): (r: Option<seq<Byte>>)
    ensures r.Some? ==> 2 * |r.value| == |s|
  {
    if s == [] then Some([])
    else if |s| == 1 then None
    else
      var n := |s| - 2;
      if !IsHexDigit(s[n]) || !IsHexDigit(s[n + 1]) then None
      else match ParseHex(s[..n])
        case None => None
        case Some(front) => Some(front + [16 * HexValue(s[n]) + HexValue(s[n + 1])])
  }

  /** Every byte sequence comes back from its hexadecimal text. */
  lemma {:induction false} HexRoundTrip(bytes: seq<Byte>)
    ensures ParseHex(HexOf(bytes)) == Some(bytes)
  {
    if bytes != [] {
      var front, b := SplitLast(bytes);
      HexRoundTrip(front);
      HexRoundTripStep(front, b);
    }
  }

  /** A non-empty sequence is all but its last byte, then that byte. */
  lemma SplitLast(bytes: seq<Byte>) returns (front: seq<Byte>, b: Byte)
    requires bytes != []
    ensures front == bytes[..|bytes| - 1] && bytes == front + [b]
  {
    front, b := bytes[..|bytes| - 1], bytes[|bytes| - 1];
  }

  /** A byte more at the end reads back as that byte more. */
  lemma HexRoundTripStep(front: seq<Byte>, b: Byte)
    requires ParseHex(HexOf(front)) == Some(front)
    ensures ParseHex(HexOf(front + [b])) == Some(front + [b])
  {
    var bytes := front + [b];
    assert bytes[..|bytes| - 1] == front;
    assert HexOf(bytes) == HexOf(front) + Hex2(b);
    ParseHexAppend(HexOf(front), Hex2(b));
    DigitValue(b / 16);
    DigitValue(b % 16);
    assert 16 * HexValue(Hex2(b)[0]) + HexValue(Hex2(b)[1]) == b;
  }

  /** Two more hexadecimal digits at the end read back as one byte more. */
  lemma ParseHexAppend(s: string, d: string)
    requires |d| == 2 && IsHexDigit(d[0]) && IsHexDigit(d[1])
    ensures ParseHex(s + d) == match ParseHex(s)
                                case None => None
                                case Some(f) => Some(f + [16 * HexValue(d[0]) + HexValue(d[1])])
  {
    var t := s + d;
    var n := |t| - 2;
    assert |t| > 1 && n == |s|;
    assert t[..n] == s;
    assert t[n] == d[0] && t[n + 1] == d[1];
  }

  /** Distinct byte sequences give distinct session ids. */
  lemma HexInjective(a: seq<Byte>, b: seq<Byte>)
    requires HexOf(a) == HexOf(b)
    ensures a == b
  {
    HexRoundTrip(a);
    HexRoundTrip(b);
  }

  /** The builder loop of `GenerateSessionId`. */
  method GenerateSessionId(buffer: seq<Byte>) returns (id: string)
    ensures id == HexOf(buffer)
  {
    id := "";
    for i := 0 to |buffer|
      invariant id == HexOf(buffer[..i])
    {
      assert buffer[..i + 1][..i] == buffer[..i];
      id := id + Hex2(buffer[i]);
    }
    assert buffer[..|buffer|] == buffer;
  }

  /** Sixteen bytes give the 32-character id the watcher sends. */
  lemma SessionIdLength(buffer: seq<Byte>)
    requires |buffer| == 16
    ensures |HexOf(buffer)| == 32
  {
  }
}
