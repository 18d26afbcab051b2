/** Lower-case hexadecimal encoding of byte strings, as Go's
    `hex.EncodeToString` produces it, with its inverse. */
module Hex {
  import opened Results

  /** One byte, the unsigned 8-bit value Go's `byte` holds. */
  type byte = b: int | 0 <= b < 256

  predicate IsLowerHexDigit(c: char) {
    '0' <= c <= '9' || 'a' <= c <= 'f'
  }

  /** The digit the encoder writes for the nibble `d`. */
  function HexDigit(d: int): (c: char)
    requires 0 <= d < 16
    ensures IsLowerHexDigit(c)
    ensures DigitValue(c) == d
  {
    if d < 10 then ('0' as int + d) as char else ('a' as int + d - 10) as char
  }

  /** The nibble a lower-case hex digit stands for. */
  function DigitValue(c: char): (d: int)
    requires IsLowerHexDigit(c)
    ensures 0 <= d < 16
  {
    if c <= '9' then c as int - '0' as int else c as int - 'a' as int + 10
  }

  lemma DigitRoundTrip(c: char)
    requires IsLowerHexDigit(c)
    ensures HexDigit(DigitValue(c)) == c
  {
  }

  /** Each byte becomes two digits, high nibble first. */
  function EncodeToString(bs: seq<byte>): (s: string)
    ensures |s| == 2 * |bs|
    ensures forall k :: 0 <= k < |s| ==> IsLowerHexDigit(s[k])
    ensures forall i :: 0 <= i < |bs| ==>
              s[2 * i] == HexDigit(bs[i] / 16) && s[2 * i + 1] == HexDigit(bs[i] % 16)
  {
    if |bs| == 0 then ""
    else [HexDigit(bs[0] / 16), HexDigit(bs[0] % 16)] + EncodeToString(bs[1..])
  }

  /** Reads back a string of lower-case hex digit pairs; `None` for odd
      length or a character that is not a lower-case hex digit. */
  function DecodeLower(s: string): (r: Option<seq<byte>>)
    ensures r.Some? ==> |s| == 2 * |r.value|
  {
    if |s| == 0 then Some([])
    else if |s| == 1 || !IsLowerHexDigit(s[0]) || !IsLowerHexDigit(s[1]) then None
    else
      match DecodeLower(s[2..])
      case None => None
      case Some(rest) =>
        var b: byte := 16 * DigitValue(s[0]) + DigitValue(s[1]);
        Some([b] + rest)
  }

  lemma {:induction false} DecodeEncode(bs: seq<byte>)
    ensures DecodeLower(EncodeToString(bs)) == Some(bs)
  {
    if |bs| > 0 {
      var s := EncodeToString(bs);
      assert s[2..] == EncodeToString(bs[1..]);
      DecodeEncode(bs[1..]);
      assert 16 * (bs[0] / 16) + bs[0] % 16 == bs[0];
      assert [bs[0]] + bs[1..] == bs;
    }
  }

  lemma {:induction false} EncodeDecode(s: string)
    requires DecodeLower(s).Some?
    ensures EncodeToString(DecodeLower(s).value) == s
  {
    if |s| > 0 {
      var bs := DecodeLower(s).value;
      EncodeDecode(s[2..]);
      var hi, lo := DigitValue(s[0]), DigitValue(s[1]);
      assert bs[0] == 16 * hi + lo;
      assert bs[0] / 16 == hi && bs[0] % 16 == lo;
      DigitRoundTrip(s[0]);
      DigitRoundTrip(s[1]);
      assert bs[1..] == DecodeLower(s[2..]).value;
      assert s == [s[0], s[1]] + s[2..];
    }
  }
}
