/** The message switch of peer.go's `handleConnection`: one inbound
    connection becomes one ledger transition, or none. Listening,
    accepting, reading and JSON decoding are not modelled; their outcome
    is the `Delivery` handed in. */
module Peer {
  import opened Bytes
  import opened ProofOfWork
  import opened Blockchain

  /** The JSON envelope `{Type, Data}`. */
  datatype Message = Message(kind: Text, data: Text)

  /** What reading and decoding one connection produced. */
  datatype Delivery = Delivered(msg: Message) | ReadFailed | DecodeFailed

  const AddBlockKind: Text := Ascii("AddBlock")
  const AddDataKind: Text := Ascii("AddData")
  const MineBlockKind: Text := Ascii("MineBlock")

  /** The greeting main.go sends to the peer it connects to at start-up. */
  const NewPeerKind: Text := Ascii("NewPeer")

  /** The ledger after one inbound connection. A peer's `AddBlock` carries
      a record, not a block: it is mined locally at once, and no block
      from outside is ever appended. */
  function HandleConnection(h: Hasher, abort: AbortOracle, l: Ledger, d: Delivery): (r: Ledger)
    requires Wf(l)
    ensures Wf(r)
    ensures !d.Delivered? ==> r == l
    ensures d.Delivered? && d.msg.kind == AddBlockKind ==>
      && |r.blocks| == |l.blocks| + 1 && r.blocks[..|l.blocks|] == l.blocks
      && GetLastBlock(r).data == [d.msg.data]
      && GetLastBlock(r).prevBlockHash == GetLastBlock(l).hash
      && r.pendingData == l.pendingData
      && r == AddBlock(h, abort, l, [d.msg.data])
    ensures d.Delivered? && d.msg.kind == AddDataKind ==>
      r.blocks == l.blocks && r.pendingData == l.pendingData + [d.msg.data]
    ensures d.Delivered? && d.msg.kind == MineBlockKind ==>
      && |r.blocks| == |l.blocks| + 1 && r.blocks[..|l.blocks|] == l.blocks
      && GetLastBlock(r).data == l.pendingData
      && r.pendingData == []
    ensures d.Delivered? && d.msg.kind !in {AddBlockKind, AddDataKind, MineBlockKind} ==> r == l
    ensures r.difficulty == l.difficulty
    ensures Valid(h, l) ==> Valid(h, r)
  {
    match d
    case ReadFailed => l
    case DecodeFailed => l
    case Delivered(msg) =>
      if msg.kind == AddBlockKind then AddBlock(h, abort, l, [msg.data])
      else if msg.kind == AddDataKind then AddData(l, msg.data)
      else if msg.kind == MineBlockKind then MinePendingData(h, abort, l)
      else l
  }

  /** A `MineBlock` message does exactly what `MinePendingData` does,
      whatever its payload. */
  lemma MineBlockIgnoresPayload(h: Hasher, abort: AbortOracle, l: Ledger, p: Text, q: Text)
    requires Wf(l)
    ensures HandleConnection(h, abort, l, Delivered(Message(MineBlockKind, p)))
         == HandleConnection(h, abort, l, Delivered(Message(MineBlockKind, q)))
         == MinePendingData(h, abort, l)
  {
  }

  /** The start-up greeting is not a ledger command: it changes nothing. */
  lemma NewPeerGreetingIsIgnored(h: Hasher, abort: AbortOracle, l: Ledger, p: Text)
    requires Wf(l)
    ensures HandleConnection(h, abort, l, Delivered(Message(NewPeerKind, p))) == l
  {
    assert NewPeerKind[0] != AddDataKind[0];
  }
}
