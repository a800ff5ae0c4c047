/** Go strings are byte sequences; this module fixes the byte type and the
    text type used for every string of the model. */
module Bytes {

  newtype byte = b: int | 0 <= b < 256

  /** A Go `string` (or `[]byte`): a sequence of bytes, compared byte by byte. */
  type Text = seq<byte>

  /** The separator `strings.Split(input, " ")` uses in main.go. */
  const Space: byte := 32

  /** The bytes of an ASCII string literal, as Go stores it. */
  function Ascii(s: string): (t: Text)
    requires forall i | 0 <= i < |s| :: s[i] as int < 128
    ensures |t| == |s|
    ensures forall i | 0 <= i < |s| :: t[i] as int == s[i] as int
  {
    seq(|s|, i requires 0 <= i < |s| => s[i] as int as byte)
  }
}
