/** The proof-of-work engine of proofOfWork.go: the target derived from a
    difficulty, the pre-image of a nonce, the bounded nonce search and the
    stateless recheck.

    SHA-256 is a parameter `h` of every operation: nothing below depends on
    what the hash computes, only that it yields 32 bytes. The wall-clock
    abort of the search is an oracle `abort`: `abort(k)` holds when the
    one-second timer has fired by the time k nonces have been tried. */
module ProofOfWork {
  import opened Bytes
  import opened BigNat
  import opened Hex
  import opened Blocks

  /** The attempt cap of the search. */
  const MaxNonce: nat := 1000000

  type Digest = d: Text | |d| == 32 witness seq(32, _ => 0)

  /** `sha256.Sum256`, left uninterpreted. */
  type Hasher = Text -> Digest

  type AbortOracle = nat -> bool

  /** 2^256: the number of distinct 32-byte digests. */
  const DigestSpace: nat := Pow2(256)

  /** `1 << (256 - difficulty)`: the unique number that, scaled by
      2^difficulty, is 2^256, so each unit of difficulty halves it. */
  function Target(difficulty: nat): (t: nat)
    requires difficulty <= 256
    ensures t * Pow2(difficulty) == DigestSpace
  {
    Pow2Add(256 - difficulty, difficulty);
    Pow2(256 - difficulty)
  }

  /** A larger difficulty gives a strictly smaller target. */
  lemma TargetStrictlyDecreasing(d1: nat, d2: nat)
    requires d1 < d2 <= 256
    ensures Target(d2) < Target(d1)
  {
    Pow2StrictlyIncreasing(256 - d2, 256 - d1);
  }

  /** The records of a block laid end to end, in order. */
  function Concat(parts: seq<Text>): (r: Text)
  {
    if |parts| == 0 then []
    else Concat(parts[..|parts| - 1]) + parts[|parts| - 1]
  }

  /** What `prepareData(nonce)` hashes: the previous hash, every record in
      order, then the nonce in lowercase hex. */
  function PreImage(b: Block, nonce: nat): (r: Text)
  {
    b.prevBlockHash + Concat(b.data) + IntToHex(nonce)
  }

  /** `prepareData` as the Go loop computes it: a fresh buffer that starts
      with the previous hash and grows by one record per iteration. */
  method PrepareData(b: Block, nonce: nat) returns (data: Text)
    ensures data == PreImage(b, nonce)
  {
    data := b.prevBlockHash;
    var i := 0;
    while i < |b.data|
      invariant 0 <= i <= |b.data|
      invariant data == b.prevBlockHash + Concat(b.data[..i])
    {
      assert b.data[..i + 1][..i] == b.data[..i];
      data := data + b.data[i];
      i := i + 1;
    }
    assert b.data[..|b.data|] == b.data;
    data := data + IntToHex(nonce);
  }

  /** Different nonces never give the same pre-image of one block. */
  lemma PreImageInjective(b: Block, n1: nat, n2: nat)
    requires PreImage(b, n1) == PreImage(b, n2)
    ensures n1 == n2
  {
    var k := |b.prevBlockHash + Concat(b.data)|;
    assert PreImage(b, n1)[k..] == IntToHex(n1);
    assert PreImage(b, n2)[k..] == IntToHex(n2);
    IntToHexInjective(n1, n2);
  }

  /** The digest of the block's content with `nonce`, read big-endian, is
      strictly below `target`. */
  predicate Hits(h: Hasher, b: Block, target: nat, nonce: nat) {
    BigEndian(h(PreImage(b, nonce))) < target
  }

  /** Every nonce in (lo, hi] misses the target. */
  predicate MissAll(h: Hasher, b: Block, target: nat, lo: nat, hi: nat) {
    forall k | lo < k <= hi :: !Hits(h, b, target, k)
  }

  /** The timer has not fired at any check k with lo <= k < hi. */
  predicate NoAbort(abort: AbortOracle, lo: nat, hi: nat) {
    forall k | lo <= k < hi :: !abort(k)
  }

  /** What `Run` returns: the nonce and the digest it sealed with. */
  datatype Seal = Seal(nonce: nat, digest: Text)

  /** The failure value `(0, nil)`. */
  const Unsealed := Seal(0, [])

  /** The timer fires at some check k in [lo, MaxNonce) before any nonce
      up to k hits. */
  predicate AbortsFirst(h: Hasher, b: Block, target: nat, abort: AbortOracle, lo: nat) {
    exists k | lo <= k < MaxNonce :: abort(k) && MissAll(h, b, target, lo, k)
  }

  /** The loop of `Run` once `tried` nonces have been tried: check the
      timer, try the next nonce, stop at the first hit or at the cap. The
      result is the first hit after `tried` when the timer stays quiet up
      to it; otherwise `Unsealed`, and then the timer fired before any
      hit or every nonce up to the cap missed. */
  function Search(h: Hasher, b: Block, target: nat, abort: AbortOracle, tried: nat): (s: Seal)
    requires tried <= MaxNonce
    ensures s == Unsealed || (
      && tried < s.nonce <= MaxNonce
      && s.digest == h(PreImage(b, s.nonce))
      && Hits(h, b, target, s.nonce)
      && MissAll(h, b, target, tried, s.nonce - 1)
      && NoAbort(abort, tried, s.nonce))
    ensures s == Unsealed <==>
      MissAll(h, b, target, tried, MaxNonce) || AbortsFirst(h, b, target, abort, tried)
    decreases MaxNonce - tried
  {
    if tried == MaxNonce then Unsealed
    else if abort(tried) then
      assert MissAll(h, b, target, tried, tried);
      Unsealed
    else
      var nonce := tried + 1;
      var digest := h(PreImage(b, nonce));
      if BigEndian(digest) < target then
        assert Hits(h, b, target, nonce);
        NoHitBeforeFirst(h, b, target, abort, tried);
        Seal(nonce, digest)
      else
        var s := Search(h, b, target, abort, nonce);
        MissStep(h, b, target, abort, tried);
        s
  }

  /** After a quiet timer check and a miss at `lo + 1`, the failure
      conditions from `lo` are those from `lo + 1`. */
  lemma MissStep(h: Hasher, b: Block, target: nat, abort: AbortOracle, lo: nat)
    requires lo < MaxNonce && !abort(lo) && !Hits(h, b, target, lo + 1)
    ensures forall k | lo + 1 <= k :: MissAll(h, b, target, lo + 1, k) == MissAll(h, b, target, lo, k)
    ensures AbortsFirst(h, b, target, abort, lo) == AbortsFirst(h, b, target, abort, lo + 1)
  {
    if AbortsFirst(h, b, target, abort, lo) {
      var k :| lo <= k < MaxNonce && abort(k) && MissAll(h, b, target, lo, k);
      assert k != lo;
      assert MissAll(h, b, target, lo + 1, k);
    }
  }

  /** A hit at `lo + 1` after a quiet check rules out an earlier abort. */
  lemma NoHitBeforeFirst(h: Hasher, b: Block, target: nat, abort: AbortOracle, lo: nat)
    requires lo < MaxNonce && !abort(lo) && Hits(h, b, target, lo + 1)
    ensures !AbortsFirst(h, b, target, abort, lo)
  {
    forall k | lo < k < MaxNonce
      ensures !MissAll(h, b, target, lo, k)
    {
      assert Hits(h, b, target, lo + 1);
    }
  }

  /** `Run`: the search from nonce 1 against the block's target. */
  function Run(h: Hasher, b: Block, difficulty: nat, abort: AbortOracle): (s: Seal)
    requires difficulty <= 256
    ensures s == Unsealed || (1 <= s.nonce <= MaxNonce && |s.digest| == 32)
  {
    Search(h, b, Target(difficulty), abort, 0)
  }

  /** `Validate`: the stored nonce hits the target of `difficulty`, that is,
      the top `difficulty` bits of its 256-bit digest are zero (shifting
      the digest left by `difficulty` bits stays below 2^256). */
  function Validate(h: Hasher, b: Block, difficulty: nat): (v: bool)
    requires difficulty <= 256
    ensures v <==> BigEndian(h(PreImage(b, b.nonce))) * Pow2(difficulty) < DigestSpace
  {
    var x := BigEndian(h(PreImage(b, b.nonce)));
    ScaleBelow(x, Target(difficulty), Pow2(difficulty));
    Hits(h, b, Target(difficulty), b.nonce)
  }

  /** Scaling both sides by a positive factor keeps a strict comparison. */
  lemma ScaleBelow(x: nat, t: nat, p: nat)
    requires p >= 1
    ensures x < t <==> x * p < t * p
  {
    if x < t {
      var d := t - x;
      Distribute(x, d, p);
      MulAtLeast(d, p);
    } else {
      var e := x - t;
      Distribute(t, e, p);
    }
  }

  lemma Distribute(a: nat, d: nat, p: nat)
    ensures (a + d) * p == a * p + d * p
  {
  }

  /** A successful search always passes the recheck once its nonce is
      stored in the block, whatever the block's `hash` field holds. */
  lemma RunThenValidate(h: Hasher, b: Block, difficulty: nat, abort: AbortOracle)
    requires difficulty <= 256
    requires Run(h, b, difficulty, abort) != Unsealed
    ensures Validate(h, b.(nonce := Run(h, b, difficulty, abort).nonce), difficulty)
  {
  }

  /** The search returns the first hit: every smaller nonce misses, so any
      nonce that passes the recheck is at least the one found. */
  lemma RunFindsFirstHit(h: Hasher, b: Block, difficulty: nat, abort: AbortOracle, n: nat)
    requires difficulty <= 256
    requires Run(h, b, difficulty, abort) != Unsealed
    requires 1 <= n && Validate(h, b.(nonce := n), difficulty)
    ensures Run(h, b, difficulty, abort).nonce <= n
  {
    assert PreImage(b.(nonce := n), n) == PreImage(b, n);
    assert Hits(h, b, Target(difficulty), n);
  }

  /** Every nonce below the one found fails the recheck, for any block with
      the same previous hash and records, whatever its `hash` field. */
  lemma RunMissesBeforeNonce(h: Hasher, b: Block, difficulty: nat, abort: AbortOracle, b': Block)
    requires difficulty <= 256
    requires b'.prevBlockHash == b.prevBlockHash && b'.data == b.data
    ensures var s := Run(h, b, difficulty, abort);
      s != Unsealed ==> forall n | 1 <= n < s.nonce :: !Validate(h, b'.(nonce := n), difficulty)
  {
    var s := Run(h, b, difficulty, abort);
    if s != Unsealed {
      forall n | 1 <= n < s.nonce
        ensures !Validate(h, b'.(nonce := n), difficulty)
      {
        assert PreImage(b'.(nonce := n), n) == PreImage(b, n);
        assert !Hits(h, b, Target(difficulty), n);
      }
    }
  }

  /** The recheck reads only the previous hash, the records and the nonce. */
  lemma ValidateReadsContentOnly(h: Hasher, b1: Block, b2: Block, difficulty: nat)
    requires difficulty <= 256
    requires b1.prevBlockHash == b2.prevBlockHash && b1.data == b2.data && b1.nonce == b2.nonce
    ensures Validate(h, b1, difficulty) == Validate(h, b2, difficulty)
  {
  }

  /** A nonce that passes at some difficulty passes at every smaller one. */
  lemma ValidateAtLowerDifficulty(h: Hasher, b: Block, d1: nat, d2: nat)
    requires d1 <= d2 <= 256
    requires Validate(h, b, d2)
    ensures Validate(h, b, d1)
  {
    if d1 < d2 {
      TargetStrictlyDecreasing(d1, d2);
    }
  }

  /** At difficulty 8m the recheck passes exactly when the digest starts
      with m zero bytes. */
  lemma ValidateMeansLeadingZeroBytes(h: Hasher, b: Block, m: nat)
    requires 8 * m <= 256
    ensures Validate(h, b, 8 * m) <==> forall i | 0 <= i < m :: h(PreImage(b, b.nonce))[i] == 0
  {
    LeadingZeroBytes(h(PreImage(b, b.nonce)), m);
  }

  /** At difficulty 0 the target 2^256 exceeds every digest, so the search
      stops at nonce 1 unless the timer fires first. */
  lemma RunAtDifficultyZero(h: Hasher, b: Block, abort: AbortOracle)
    requires !abort(0)
    ensures Run(h, b, 0, abort) == Seal(1, h(PreImage(b, 1)))
  {
    assert Target(0) == Pow2(256);
    assert BigEndian(h(PreImage(b, 1))) < Pow2(256);
  }
}
