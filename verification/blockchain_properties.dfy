/** Properties of the ledger that relate several operations: staging then
    mining, the scenario of a fresh ledger, and the installed failure
    sentinel. */
module BlockchainProperties {
  import opened Bytes
  import opened BigNat
  import opened Hex
  import opened Blocks
  import opened ProofOfWork
  import opened Blockchain

  /** `AddData` applied to each record of `records`, in order. */
  function StageAll(l: Ledger, records: seq<Text>): (r: Ledger)
    ensures r.blocks == l.blocks && r.difficulty == l.difficulty
    ensures r.pendingData == l.pendingData + records
    decreases |records|
  {
    if |records| == 0 then l
    else
      var r := StageAll(AddData(l, records[0]), records[1..]);
      assert l.pendingData + records == l.pendingData + [records[0]] + records[1..];
      r
  }

  /** Records staged one by one and then mined land in one new block, in
      staging order and with none lost or repeated, and the buffer ends
      empty. */
  lemma StagedRecordsAreMinedInOrder(h: Hasher, abort: AbortOracle, l: Ledger, records: seq<Text>)
    requires Wf(l) && l.pendingData == []
    ensures var r := MinePendingData(h, abort, StageAll(l, records));
      && |r.blocks| == |l.blocks| + 1
      && r.blocks[..|l.blocks|] == l.blocks
      && GetLastBlock(r).data == records
      && GetLastBlock(r).prevBlockHash == GetLastBlock(l).hash
      && r.pendingData == []
  {
    assert [] + records == records;
  }

  /** A fresh ledger at difficulty 4, two records staged, then mined: the
      new block holds both records in order, chains to the genesis block,
      and, when sealed, its hash decodes to a digest below 2^252. */
  lemma FreshLedgerScenario(h: Hasher, abort0: AbortOracle, abort1: AbortOracle, x: Text, y: Text)
    ensures var l := MinePendingData(h, abort1, AddData(AddData(NewBlockchain(h, abort0, 4), x), y));
      && |l.blocks| == 2
      && l.blocks[1].data == [x, y]
      && l.blocks[1].prevBlockHash == l.blocks[0].hash
      && l.pendingData == []
      && (l.blocks[1].nonce != 0 ==>
            HexDecode(l.blocks[1].hash).Some? && BigEndian(HexDecode(l.blocks[1].hash).value) < Pow2(252))
  {
    var l0 := NewBlockchain(h, abort0, 4);
    var l2 := AddData(AddData(l0, x), y);
    assert l2.pendingData == [x, y] && l2.blocks == l0.blocks;
    var l := MinePendingData(h, abort1, l2);
    assert l.blocks[0] == l0.blocks[0];
    var b := l.blocks[1];
    assert b == GetLastBlock(l);
    if b.nonce != 0 {
      assert Target(4) == Pow2(252);
      assert Sealed(h, b, 4);
      HexDecodeEncode(h(PreImage(b, b.nonce)));
    }
  }

  /** At difficulty 0 every digest is below the target, so unless the timer
      fires at once the appended block is sealed by nonce 1 and passes the
      recheck. */
  lemma AddBlockAtDifficultyZero(h: Hasher, abort: AbortOracle, l: Ledger, data: seq<Text>)
    requires Wf(l) && l.difficulty == 0 && !abort(0)
    ensures var b := GetLastBlock(AddBlock(h, abort, l, data));
      && b.nonce == 1
      && Validate(h, b, 0)
      && b.hash == HexEncode(h(PreImage(b, 1)))
  {
    var content := Block(data, GetLastBlock(l).hash, [], 0);
    RunAtDifficultyZero(h, content, abort);
    var b := GetLastBlock(AddBlock(h, abort, l, data));
    assert PreImage(b, 1) == PreImage(content, 1);
  }

  /** A digest of 32 bytes 0xff: the largest value a digest can take. */
  const AllOnes: Digest := seq(32, _ => 255)

  /** At difficulty 256 (target 1) under a hash whose every digest is
      0xff…ff, every nonce misses, so even with a timer that never fires
      the search fails. The sentinel is then installed as the seal of the
      genesis block and of every appended block: the chain stays linked
      (through empty hashes) but the appended block fails `Validate`. */
  lemma FailedSealIsInstalled(data: seq<Text>)
    ensures var h: Hasher := _ => AllOnes;
      var never: AbortOracle := _ => false;
      var l := AddBlock(h, never, NewBlockchain(h, never, 256), data);
      && |l.blocks| == 2
      && l.blocks[1].nonce == 0 && l.blocks[1].hash == []
      && l.blocks[1].prevBlockHash == []
      && ChainLinked(l.blocks)
      && !Validate(h, l.blocks[1], 256)
  {
    var h: Hasher := _ => AllOnes;
    var never: AbortOracle := _ => false;
    assert BigEndian(AllOnes) >= 1 by {
      assert AllOnes[31] == 255;
    }
    assert Target(256) == 1;
    forall b: Block
      ensures Run(h, b, 256, never) == Unsealed
    {
      assert MissAll(h, b, 1, 0, MaxNonce);
    }
  }
}
