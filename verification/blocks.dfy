/** The record the ledger stores (blockchain.go's `Block`). The creation
    timestamp is informational and never read back, so it is not kept. */
module Blocks {
  import opened Bytes

  datatype Block = Block(
    data: seq<Text>,      // the records committed in this block, in order
    prevBlockHash: Text,  // `Hash` of the block before; empty for the genesis block
    hash: Text,           // lowercase hex of the sealing digest; empty when sealing failed
    nonce: nat            // the nonce that seals the block; 0 when sealing failed
  )
}
