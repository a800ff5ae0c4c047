/** The ledger of blockchain.go: an append-only sequence of blocks, the
    difficulty they are mined at, and the records staged for the next
    block. Every operation is one atomic, sequential transition; the mutex
    that serialises them in Go is not modelled. */
module Blockchain {
  import opened Bytes
  import opened Hex
  import opened Options
  import opened Blocks
  import opened ProofOfWork

  datatype Ledger = Ledger(blocks: seq<Block>, difficulty: nat, pendingData: seq<Text>)

  /** The single record of the genesis block. */
  const GenesisData: Text := Ascii("Genesis Block")

  /** What every operation needs to run at all: a last block to chain to
      and a difficulty the target shift accepts. */
  predicate Wf(l: Ledger) {
    |l.blocks| >= 1 && l.difficulty <= 256
  }

  /** Hash-chain continuity: each block names the hash of the one before. */
  predicate ChainLinked(blocks: seq<Block>) {
    forall i | 0 < i < |blocks| :: blocks[i].prevBlockHash == blocks[i - 1].hash
  }

  /** How `NewBlock` leaves a block: either sealed by a nonce in
      [1, MaxNonce] that passes `Validate`, with `hash` the hex of its
      digest, or carrying the failure sentinel (nonce 0, empty hash). */
  predicate Sealed(h: Hasher, b: Block, difficulty: nat)
    requires difficulty <= 256
  {
    || (b.nonce == 0 && b.hash == [])
    || (&& 1 <= b.nonce <= MaxNonce
        && Validate(h, b, difficulty)
        && b.hash == HexEncode(h(PreImage(b, b.nonce))))
  }

  /** The invariant every reachable ledger keeps: the genesis block heads
      the chain, the chain is linked, every block is sealed as `NewBlock`
      seals. */
  predicate Valid(h: Hasher, l: Ledger) {
    && Wf(l)
    && l.blocks[0].data == [GenesisData]
    && l.blocks[0].prevBlockHash == []
    && ChainLinked(l.blocks)
    && forall i | 0 <= i < |l.blocks| :: Sealed(h, l.blocks[i], l.difficulty)
  }

  /** `NewBlock`: mine `data` on top of `prev` and store the outcome. On
      success the nonce passes the recheck and `hash` is the 64-character
      hex of the digest; on failure the sentinel is stored all the same. */
  function NewBlock(h: Hasher, abort: AbortOracle, data: seq<Text>, prev: Text, difficulty: nat): (b: Block)
    requires difficulty <= 256
    ensures b.data == data && b.prevBlockHash == prev
    ensures Sealed(h, b, difficulty)
    ensures b.nonce == 0 <==> b.hash == []
    ensures b.nonce != 0 ==> |b.hash| == 64 && HexDecode(b.hash) == Some(h(PreImage(b, b.nonce)))
    ensures forall i | 0 <= i < |b.hash| :: IsHexDigit(b.hash[i])
    ensures var seal := Run(h, Block(data, prev, [], 0), difficulty, abort);
      b.nonce == seal.nonce && b.hash == HexEncode(seal.digest)
    ensures b.nonce != 0 ==> forall n | 1 <= n < b.nonce :: !Validate(h, b.(nonce := n), difficulty)
  {
    var content := Block(data, prev, [], 0);
    var seal := Run(h, content, difficulty, abort);
    var b := content.(hash := HexEncode(seal.digest), nonce := seal.nonce);
    assert PreImage(b, seal.nonce) == PreImage(content, seal.nonce);
    HexDecodeEncode(seal.digest);
    RunMissesBeforeNonce(h, content, difficulty, abort, b);
    b
  }

  /** `NewBlockchain`: a ledger holding only the genesis block. */
  function NewBlockchain(h: Hasher, abort: AbortOracle, difficulty: nat): (l: Ledger)
    requires difficulty <= 256
    ensures |l.blocks| == 1 && l.difficulty == difficulty && l.pendingData == []
    ensures l.blocks[0].data == [GenesisData] && l.blocks[0].prevBlockHash == []
    ensures l.blocks[0] == NewBlock(h, abort, [GenesisData], [], difficulty)
    ensures Valid(h, l)
  {
    Ledger([NewBlock(h, abort, [GenesisData], [], difficulty)], difficulty, [])
  }

  /** `GetLastBlock`: the most recently appended block. It is defined on
      every well-formed ledger, since the genesis block is never removed. */
  function GetLastBlock(l: Ledger): (b: Block)
    requires Wf(l)
    ensures b in l.blocks
  {
    l.blocks[|l.blocks| - 1]
  }

  /** The last block is the tip of the chain: a block that names its hash
      extends a linked chain to a linked chain. */
  lemma LastBlockIsChainTip(l: Ledger, next: Block)
    requires Wf(l) && ChainLinked(l.blocks)
    requires next.prevBlockHash == GetLastBlock(l).hash
    ensures ChainLinked(l.blocks + [next])
  {
    var s := l.blocks + [next];
    forall i | 0 < i < |s|
      ensures s[i].prevBlockHash == s[i - 1].hash
    {
      if i < |l.blocks| {
        assert s[i] == l.blocks[i] && s[i - 1] == l.blocks[i - 1];
      }
    }
  }

  /** `AddBlock(data)`: mine `data` on top of the last block and append
      it. Nothing else changes, and the ledger invariant is kept even when
      the sentinel is installed. */
  function AddBlock(h: Hasher, abort: AbortOracle, l: Ledger, data: seq<Text>): (r: Ledger)
    requires Wf(l)
    ensures Wf(r)
    ensures |r.blocks| == |l.blocks| + 1 && r.blocks[..|l.blocks|] == l.blocks
    ensures GetLastBlock(r).data == data
    ensures GetLastBlock(r).prevBlockHash == GetLastBlock(l).hash
    ensures Sealed(h, GetLastBlock(r), l.difficulty)
    ensures GetLastBlock(r) == NewBlock(h, abort, data, GetLastBlock(l).hash, l.difficulty)
    ensures r.difficulty == l.difficulty && r.pendingData == l.pendingData
    ensures ChainLinked(l.blocks) ==> ChainLinked(r.blocks)
    ensures Valid(h, l) ==> Valid(h, r)
  {
    var prevBlock := GetLastBlock(l);
    var newBlock := NewBlock(h, abort, data, prevBlock.hash, l.difficulty);
    AppendKeepsValid(h, l, newBlock);
    l.(blocks := l.blocks + [newBlock])
  }

  /** Appending a sealed block that names the last block's hash keeps the
      chain linked and the ledger invariant. */
  lemma AppendKeepsValid(h: Hasher, l: Ledger, next: Block)
    requires Wf(l)
    requires next.prevBlockHash == GetLastBlock(l).hash
    requires Sealed(h, next, l.difficulty)
    ensures var r := l.(blocks := l.blocks + [next]);
      && r.blocks[..|l.blocks|] == l.blocks
      && (ChainLinked(l.blocks) ==> ChainLinked(r.blocks))
      && (Valid(h, l) ==> Valid(h, r))
  {
    var s := l.blocks + [next];
    assert s[..|l.blocks|] == l.blocks;
    if ChainLinked(l.blocks) {
      LastBlockIsChainTip(l, next);
    }
    if Valid(h, l) {
      forall i | 0 <= i < |s|
        ensures Sealed(h, s[i], l.difficulty)
      {
        if i < |l.blocks| {
          assert s[i] == l.blocks[i];
        }
      }
    }
  }

  /** `AddData(s)`: stage one record; the blocks are untouched. */
  function AddData(l: Ledger, s: Text): (r: Ledger)
    ensures r.pendingData == l.pendingData + [s]
    ensures r.blocks == l.blocks && r.difficulty == l.difficulty
    ensures Wf(l) ==> Wf(r)
    ensures forall h: Hasher :: Valid(h, l) ==> Valid(h, r)
  {
    l.(pendingData := l.pendingData + [s])
  }

  /** `MinePendingData`: take the staged records, empty the buffer, and
      mine them into one new block (even when there are none). */
  function MinePendingData(h: Hasher, abort: AbortOracle, l: Ledger): (r: Ledger)
    requires Wf(l)
    ensures Wf(r)
    ensures |r.blocks| == |l.blocks| + 1 && r.blocks[..|l.blocks|] == l.blocks
    ensures GetLastBlock(r).data == l.pendingData
    ensures GetLastBlock(r).prevBlockHash == GetLastBlock(l).hash
    ensures GetLastBlock(r) == NewBlock(h, abort, l.pendingData, GetLastBlock(l).hash, l.difficulty)
    ensures Sealed(h, GetLastBlock(r), l.difficulty)
    ensures r.pendingData == [] && r.difficulty == l.difficulty
    ensures Valid(h, l) ==> Valid(h, r)
  {
    var data := l.pendingData;
    var cleared := l.(pendingData := []);
    AddBlock(h, abort, cleared, data)
  }
}
