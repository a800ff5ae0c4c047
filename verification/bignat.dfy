/** Unbounded naturals standing in for Go's `big.Int`: powers of two (the
    target of `Lsh`) and the big-endian reading of a byte string
    (`SetBytes`). */
module BigNat {
  import opened Bytes

  function Pow2(k: nat): (r: nat)
    ensures r >= 1
  {
    if k == 0 then 1 else 2 * Pow2(k - 1)
  }

  lemma {:induction false} Pow2Add(a: nat, b: nat)
    ensures Pow2(a + b) == Pow2(a) * Pow2(b)
    decreases a
  {
    if a > 0 {
      Pow2Add(a - 1, b);
      assert Pow2(a + b) == 2 * Pow2(a - 1 + b);
    }
  }

  lemma {:induction false} Pow2StrictlyIncreasing(a: nat, b: nat)
    requires a < b
    ensures Pow2(a) < Pow2(b)
    decreases b
  {
    if a + 1 < b {
      Pow2StrictlyIncreasing(a, b - 1);
    }
  }

  lemma Pow2Of8()
    ensures Pow2(8) == 256
  {
    assert Pow2(4) == 16;
  }

  /** `new(big.Int).SetBytes(bs)`: the unsigned big-endian value of `bs`;
      a string of k bytes reads as a number below 2^(8k). */
  function BigEndian(bs: seq<byte>): (r: nat)
    ensures r < Pow2(8 * |bs|)
  {
    if |bs| == 0 then 0
    else
      var k := |bs| - 1;
      var high := BigEndian(bs[..k]);
      Pow2Add(8 * k, 8);
      Pow2Of8();
      ShiftBound(high, Pow2(8 * k), bs[k] as nat);
      high * 256 + bs[k] as nat
  }

  lemma ShiftBound(high: nat, p: nat, low: nat)
    requires high < p && low < 256
    ensures high * 256 + low < p * 256
  {
  }

  lemma BigEndianLast(bs: seq<byte>)
    requires |bs| > 0
    ensures BigEndian(bs) == BigEndian(bs[..|bs| - 1]) * 256 + bs[|bs| - 1] as nat
  {
  }

  /** Splitting a byte string anywhere splits its value: the front part
      weighs 2^(8·|back|). */
  lemma {:induction false} BigEndianAppend(front: seq<byte>, back: seq<byte>)
    ensures BigEndian(front + back) == BigEndian(front) * Pow2(8 * |back|) + BigEndian(back)
    decreases |back|
  {
    if |back| == 0 {
      assert front + back == front;
    } else {
      var k := |back| - 1;
      var s := front + back;
      assert s[..|s| - 1] == front + back[..k];
      assert s[|s| - 1] == back[k];
      BigEndianLast(s);
      BigEndianLast(back);
      BigEndianAppend(front, back[..k]);
      Pow2Add(8 * k, 8);
      Pow2Of8();
      Regroup(BigEndian(front), Pow2(8 * k), BigEndian(back[..k]), back[k] as nat);
    }
  }

  lemma Regroup(f: nat, p: nat, b: nat, c: nat)
    ensures (f * p + b) * 256 + c == f * (p * 256) + (b * 256 + c)
  {
  }

  /** A byte string reads as zero exactly when every byte is zero. */
  lemma {:induction false} BigEndianZero(bs: seq<byte>)
    ensures BigEndian(bs) == 0 <==> forall i | 0 <= i < |bs| :: bs[i] == 0
    decreases |bs|
  {
    if |bs| > 0 {
      var k := |bs| - 1;
      BigEndianZero(bs[..k]);
      assert forall i | 0 <= i < k :: bs[..k][i] == bs[i];
    }
  }

  /** A string of n bytes is below 2^(8(n-m)) exactly when its first m
      bytes are zero: the leading-zero reading of a target. */
  lemma LeadingZeroBytes(bs: seq<byte>, m: nat)
    requires m <= |bs|
    ensures BigEndian(bs) < Pow2(8 * (|bs| - m)) <==> forall i | 0 <= i < m :: bs[i] == 0
  {
    var front, back := bs[..m], bs[m..];
    assert bs == front + back;
    BigEndianAppend(front, back);
    BigEndianZero(front);
    BelowIffHighZero(BigEndian(front), Pow2(8 * |back|), BigEndian(back));
    assert forall i | 0 <= i < m :: front[i] == bs[i];
  }

  /** With c < p, the number f·p + c is below p exactly when f is zero. */
  lemma BelowIffHighZero(f: nat, p: nat, c: nat)
    requires c < p
    ensures f * p + c < p <==> f == 0
  {
    if f != 0 {
      MulAtLeast(f, p);
    }
  }

  lemma MulAtLeast(x: nat, p: nat)
    requires x >= 1
    ensures x * p >= p
  {
  }
}
