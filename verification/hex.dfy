/** Lowercase hexadecimal text: `strconv.FormatInt(n, 16)` for nonces and
    `fmt.Sprintf("%x", digest)` for block hashes, each with the decoder
    that undoes it. */
module Hex {
  import opened Bytes
  import opened Options

  /** '0'..'9' and 'a'..'f', the only bytes Go's base-16 formatting emits. */
  predicate IsHexDigit(c: byte) {
    48 <= c <= 57 || 97 <= c <= 102
  }

  function HexDigit(d: nat): (c: byte)
    requires d < 16
    ensures IsHexDigit(c)
  {
    if d < 10 then (48 + d) as byte else (87 + d) as byte
  }

  function DigitValue(c: byte): (d: nat)
    requires IsHexDigit(c)
    ensures d < 16 && HexDigit(d) == c
  {
    if c <= 57 then c as nat - 48 else c as nat - 87
  }

  /** `strconv.FormatInt(n, 16)` for a non-negative n: base-16 digits,
      most significant first. */
  function IntToHex(n: nat): (r: Text)
    ensures 1 <= |r|
    ensures forall i | 0 <= i < |r| :: IsHexDigit(r[i])
    ensures n == 0 ==> r == [HexDigit(0)]
    ensures n >= 1 ==> r[0] != HexDigit(0)
    ensures ParseHex(r) == n
  {
    if n < 16 then [HexDigit(n)]
    else
      var r := IntToHex(n / 16) + [HexDigit(n % 16)];
      assert r[..|r| - 1] == IntToHex(n / 16);
      r
  }

  /** Reads a string of lowercase hex digits as a number, as
      `strconv.ParseInt(s, 16, 64)` would for the strings `IntToHex` makes. */
  function ParseHex(s: Text): (n: nat)
    requires forall i | 0 <= i < |s| :: IsHexDigit(s[i])
  {
    if |s| == 0 then 0
    else ParseHex(s[..|s| - 1]) * 16 + DigitValue(s[|s| - 1])
  }

  /** Two nonces give the same text only if they are the same nonce. */
  lemma IntToHexInjective(a: nat, b: nat)
    requires IntToHex(a) == IntToHex(b)
    ensures a == b
  {
    assert ParseHex(IntToHex(a)) == a;
  }

  /** `fmt.Sprintf("%x", bs)`: two lowercase digits per byte, high nibble
      first; a nil slice formats as the empty string. */
  function HexEncode(bs: seq<byte>): (r: Text)
    ensures |r| == 2 * |bs|
    ensures forall i | 0 <= i < |r| :: IsHexDigit(r[i])
  {
    if |bs| == 0 then []
    else [HexDigit(bs[0] as nat / 16), HexDigit(bs[0] as nat % 16)] + HexEncode(bs[1..])
  }

  /** The decoder of `HexEncode`: pairs of lowercase digits back to bytes;
      `None` for an odd length or a byte outside the alphabet. */
  function HexDecode(s: Text): (r: Option<seq<byte>>)
    ensures r.Some? ==> 2 * |r.value| == |s|
    decreases |s|
  {
    if |s| == 0 then Some([])
    else if |s| == 1 || !IsHexDigit(s[0]) || !IsHexDigit(s[1]) then None
    else
      match HexDecode(s[2..])
      case None => None
      case Some(rest) => Some([(DigitValue(s[0]) * 16 + DigitValue(s[1])) as byte] + rest)
  }

  lemma {:induction false} HexDecodeEncode(bs: seq<byte>)
    ensures HexDecode(HexEncode(bs)) == Some(bs)
    decreases |bs|
  {
    if |bs| > 0 {
      var s := HexEncode(bs);
      assert s[2..] == HexEncode(bs[1..]);
      HexDecodeEncode(bs[1..]);
      assert [bs[0]] + bs[1..] == bs;
    }
  }

  lemma {:induction false} HexEncodeDecode(s: Text)
    requires HexDecode(s).Some?
    ensures HexEncode(HexDecode(s).value) == s
    decreases |s|
  {
    if |s| > 0 {
      HexEncodeDecode(s[2..]);
      var bs := HexDecode(s).value;
      assert bs[1..] == HexDecode(s[2..]).value;
      assert s == [s[0], s[1]] + s[2..];
    }
  }
}
