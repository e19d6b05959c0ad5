/** Bytes, hexadecimal text and case-insensitive comparison. */
module Bytes {
  import opened Common

  newtype byte = x: int | 0 <= x < 256

  type Data = seq<byte>

  /** A 32-byte SHA-256 value. */
  type Hash = h: Data | |h| == 32 witness seq(32, _ => 0)

  function ZeroHash(): Hash {
    seq(32, _ => 0)
  }

  const NEWLINE: byte := 10

  /** One entry of a tar archive. */
  datatype TarItem = TarItem(name: string, isDir: bool, data: Data)

  function HexDigit(d: int): char
    requires 0 <= d < 16
  {
    if d < 10 then (d + 48) as char else (d - 10 + 97) as char
  }

  /** hex.EncodeToString. */
  function HexEncode(b: Data): (s: string)
    ensures |s| == 2 * |b|
  {
    if b == [] then ""
    else [HexDigit(b[0] as int / 16), HexDigit(b[0] as int % 16)] + HexEncode(b[1..])
  }

  function DigitValue(c: char): Option<int> {
    if '0' <= c <= '9' then Some(c as int - 48)
    else if 'a' <= c <= 'f' then Some(c as int - 97 + 10)
    else if 'A' <= c <= 'F' then Some(c as int - 65 + 10)
    else None
  }

  /** hex.DecodeString: pairs of digits of either case, and nothing else. */
  function HexDecode(s: string): (r: Option<Data>)
    ensures r.Some? ==> |s| == 2 * |r.value|
  {
    if s == "" then Some([])
    else if |s| == 1 then None
    else match (DigitValue(s[0]), DigitValue(s[1]))
      case (Some(a), Some(b)) =>
        (match HexDecode(s[2..])
         case None => None
         case Some(rest) => Some([(a * 16 + b) as byte] + rest))
      case _ => None
  }

  lemma DigitRoundTrip(d: int)
    requires 0 <= d < 16
    ensures DigitValue(HexDigit(d)) == Some(d)
  {
  }

  lemma {:induction false} HexRoundTrip(b: Data)
    ensures HexDecode(HexEncode(b)) == Some(b)
  {
    if b != [] {
      HexRoundTrip(b[1..]);
      var hi, lo := b[0] as int / 16, b[0] as int % 16;
      DigitRoundTrip(hi);
      DigitRoundTrip(lo);
      var s := HexEncode(b);
      assert s[0] == HexDigit(hi) && s[1] == HexDigit(lo) && s[2..] == HexEncode(b[1..]);
      assert hi * 16 + lo == b[0] as int;
      assert [b[0]] + b[1..] == b;
    }
  }

  function Fold(s: string): (r: string)
    ensures |r| == |s|
  {
    seq(|s|, i requires 0 <= i < |s| => FoldChar(s[i]))
  }

  /** strings.EqualFold where one side is hexadecimal text, whose letters have no other case partners
      than the ASCII ones. */
  predicate EqualFold(a: string, b: string) {
    Fold(a) == Fold(b)
  }
}
