/** One node as main.go wires it: a ledger created at start-up, then
    changed one event at a time by inbound connections and by input
    lines. Events are applied in the order given; the interleaving of the
    goroutines that produce them is not modelled. */
module Node {
  import opened Bytes
  import opened ProofOfWork
  import opened Blockchain
  import Peer
  import Console

  /** The difficulty the node's ledger is created with. */
  const StartupDifficulty: nat := 1

  /** The ledger the node starts with: the genesis block alone, at
      difficulty 1. */
  function StartLedger(h: Hasher, abort: AbortOracle): (l: Ledger)
    ensures Valid(h, l) && |l.blocks| == 1 && l.pendingData == []
    ensures l.difficulty == StartupDifficulty
  {
    NewBlockchain(h, abort, StartupDifficulty)
  }

  /** Difficulty 1 means target 2^255: half of all digests pass. */
  lemma StartupTarget()
    ensures Target(StartupDifficulty) * 2 == DigestSpace
  {
  }

  /** Something that changes the ledger; each carries the timer of the
      search it may start. */
  datatype Event =
    | Inbound(delivery: Peer.Delivery, abort: AbortOracle)
    | Typed(line: Text, abort: AbortOracle)

  function Step(h: Hasher, l: Ledger, e: Event): (r: Ledger)
    requires Wf(l)
    ensures Wf(r) && r.difficulty == l.difficulty
    ensures |l.blocks| <= |r.blocks| && r.blocks[..|l.blocks|] == l.blocks
    ensures Valid(h, l) ==> Valid(h, r)
  {
    match e
    case Inbound(d, abort) => Peer.HandleConnection(h, abort, l, d)
    case Typed(line, abort) => Console.ExecuteLine(h, abort, l, line)
  }

  /** The events applied one after the other. */
  function Replay(h: Hasher, l: Ledger, events: seq<Event>): (r: Ledger)
    requires Wf(l)
    ensures Wf(r)
    decreases |events|
  {
    if |events| == 0 then l
    else Replay(h, Step(h, l, events[0]), events[1..])
  }

  /** Whatever arrives, in whatever order: the ledger invariant holds, the
      difficulty never changes, and the blocks only grow, so the genesis
      block and every block already appended stay where they are. */
  lemma {:induction false} ReplayKeepsValid(h: Hasher, l: Ledger, events: seq<Event>)
    requires Valid(h, l)
    ensures var r := Replay(h, l, events);
      && Valid(h, r)
      && r.difficulty == l.difficulty
      && |l.blocks| <= |r.blocks| && r.blocks[..|l.blocks|] == l.blocks
    decreases |events|
  {
    if |events| > 0 {
      var m := Step(h, l, events[0]);
      ReplayKeepsValid(h, m, events[1..]);
      var r := Replay(h, m, events[1..]);
      assert r.blocks[..|l.blocks|] == r.blocks[..|m.blocks|][..|l.blocks|];
    }
  }

  /** From start-up onward every block of the node's ledger is linked to
      the one before and is either sealed by a valid proof of work or
      carries the failure sentinel. */
  lemma NodeLedgerAlwaysValid(h: Hasher, abort: AbortOracle, events: seq<Event>)
    ensures var r := Replay(h, StartLedger(h, abort), events);
      && ChainLinked(r.blocks)
      && r.difficulty == StartupDifficulty
      && r.blocks[0] == StartLedger(h, abort).blocks[0]
      && forall i | 0 <= i < |r.blocks| :: Sealed(h, r.blocks[i], StartupDifficulty)
  {
    ReplayKeepsValid(h, StartLedger(h, abort), events);
  }
}
