# Proof-of-work ledger: a Dafny model

This project models the core of a small Go blockchain node: the
proof-of-work engine (`proofOfWork.go`), the ledger it seals blocks for
(`blockchain.go`), and the two dispatchers that turn inputs into ledger
transitions — the message switch of a peer connection (`peer.go`) and the
per-line command loop of the console (`main.go`).

- **Proof of work.** The target for difficulty `d` is `2^(256-d)`. The
  pre-image of nonce `n` is the previous block's hash, the block's records
  in order, then `n` in lowercase hex. `Run` tries nonces 1, 2, … up to
  1,000,000 and returns the first whose SHA-256 digest, read big-endian,
  is below the target; it returns `(0, nil)` on exhaustion or when its
  one-second timer fires. `Validate` recomputes the digest for the stored
  nonce and compares.
- **Ledger.** An append-only sequence of blocks headed by a genesis block
  (`["Genesis Block"]`, empty previous hash), a fixed difficulty, and a
  buffer of staged records. `AddBlock` mines records onto the last block's
  hash; `AddData` stages one record; `MinePendingData` empties the buffer
  into one new block; `GetLastBlock` returns the newest block.
- **Dispatch.** A peer message `AddBlock P` mines `[P]` at once, `AddData P`
  stages `P`, `MineBlock` mines the buffer, anything else (and a failed
  read or decode) changes nothing. A console line `add <text>` stages the
  text after the first space, `mine` mines the buffer, anything else
  (including a bare `add`) changes nothing. The node starts at difficulty 1.

SHA-256 is a parameter `h: Hasher` (any function from byte strings to
32-byte digests), so every property holds whatever the hash computes. The
wall-clock abort of the search is a parameter `abort: AbortOracle`, where
`abort(k)` means the timer has fired after `k` attempts. Go strings are
byte sequences (`Bytes.Text`). All operations are pure functions on
immutable values, applied one at a time.

The invariant every reachable ledger keeps (`Blockchain.Valid`) is: the
genesis block heads the chain, each block's `PrevBlockHash` is the previous
block's `Hash`, and each block is either validly sealed or carries the
failure sentinel (`Nonce 0`, `Hash ""`). The sentinel is installed exactly
as the code installs it: continuity survives it (the next block chains to
the empty hash), proof-of-work validity does not
(`BlockchainProperties.FailedSealIsInstalled`).

Three behaviours of the code are worth knowing:

- No received block is ever appended. A peer's `AddBlock` message carries
  a record, and the receiving node mines that record itself.
- A failed search is not reported. `NewBlock` stores the sentinel as the
  block's seal (`BlockchainProperties.FailedSealIsInstalled`).
- The timer in `Run` is a fresh `time.After(time.Second)` created on every
  iteration of a `select` that has a `default` branch. That channel is
  never ready when the `select` runs, so the abort branch does not fire in
  practice. The realistic oracle is therefore `_ => false`, but the model
  keeps the oracle general.

Modules, one per file: `Bytes`, `BigNat` (powers of two, big-endian
reading), `Hex` (`strconv.FormatInt(n, 16)` and `%x`, with decoders),
`Strings` (`strings.Split`/`strings.Join` on one byte), `Blocks`,
`ProofOfWork`, `Blockchain`, `BlockchainProperties`, `Peer`, `Console`,
`Node` (start-up and arbitrary event sequences), and `Options`.

## Model

| member | source | states |
|---|---|---|
| ProofOfWork.Target | proofOfWork.go:18-22 | the target is the number that, multiplied by 2^difficulty, gives 2^256, for 0 <= difficulty <= 256 |
| ProofOfWork.TargetStrictlyDecreasing | proofOfWork.go:18-22 | a larger difficulty gives a strictly smaller target |
| ProofOfWork.PrepareData | proofOfWork.go:60-67 | the loop builds previous hash ++ every record in order ++ hex(nonce) in a fresh buffer, leaving the block unchanged |
| ProofOfWork.PreImageInjective | proofOfWork.go:60-71 | two different nonces never give the same pre-image for one block |
| Hex.IntToHex | proofOfWork.go:69-71 | the nonce text is non-empty lowercase hex, "0" for 0, has no leading zero for n >= 1, and parses back to n |
| Hex.IntToHexInjective | proofOfWork.go:69-71 | distinct nonces format to distinct texts |
| BigNat.BigEndian | proofOfWork.go:39 | the big-endian value of k bytes is below 2^(8k), so a digest reads below 2^256 |
| BigNat.LeadingZeroBytes | proofOfWork.go:39-41 | a k-byte value is below 2^(8(k-m)) exactly when its first m bytes are zero |
| ProofOfWork.Search | proofOfWork.go:28-47 | the search returns either (0, nil) or a nonce in (tried, 1000000] whose digest is below the target, with every earlier nonce missing and no timer firing before it; it returns (0, nil) exactly when every nonce to the cap misses or the timer fires before the first hit |
| ProofOfWork.Run | proofOfWork.go:25-48 | the result is (0, nil) or a nonce in [1, 1000000] with a 32-byte digest |
| ProofOfWork.Validate | proofOfWork.go:51-57 | the recheck holds exactly when the digest of the stored nonce, shifted left by difficulty bits, stays below 2^256, i.e. its top difficulty bits are zero |
| ProofOfWork.RunMissesBeforeNonce | proofOfWork.go:30-43 | every nonce from 1 up to (not including) the one found fails the recheck, for any block with the same previous hash and records |
| ProofOfWork.RunThenValidate | proofOfWork.go:25-57 | a block carrying the nonce a successful run found passes Validate |
| ProofOfWork.RunFindsFirstHit | proofOfWork.go:30-43 | the nonce found is at most any nonce >= 1 that passes Validate: the first hit wins |
| ProofOfWork.ValidateReadsContentOnly | proofOfWork.go:51-57 | Validate depends only on the previous hash, the records and the nonce, not on the stored hash |
| ProofOfWork.ValidateAtLowerDifficulty | proofOfWork.go:18-22 | a nonce valid at one difficulty is valid at every smaller one |
| ProofOfWork.ValidateMeansLeadingZeroBytes | proofOfWork.go:51-57 | at difficulty 8m, Validate holds exactly when the digest starts with m zero bytes |
| ProofOfWork.RunAtDifficultyZero | proofOfWork.go:19-20 | at difficulty 0 the target 2^256 exceeds every digest, so the search stops at nonce 1 unless the timer fires first |
| Hex.HexEncode | blockchain.go:32 | the %x text of a byte string has two lowercase hex digits per byte |
| Hex.HexDecodeEncode | blockchain.go:32 | the %x text of a digest decodes back to the digest |
| Hex.HexEncodeDecode | blockchain.go:32 | any text that decodes is exactly the %x text of what it decodes to |
| Blockchain.NewBlock | blockchain.go:27-36 | the block keeps its records and previous hash and stores the nonce Run returns and the %x of Run's digest; so it is either sealed by the first nonce in [1, 1000000] that passes Validate, with a 64-character lowercase hash decoding to the digest, or carries nonce 0 and an empty hash |
| Blockchain.NewBlockchain | blockchain.go:50-57 | a new ledger holds exactly the genesis block NewBlock mines from ["Genesis Block"] on the empty hash, the given difficulty and no staged records, and satisfies the ledger invariant |
| Blockchain.AddBlock | blockchain.go:39-47 | the appended block is exactly what NewBlock mines from the given records on the old last block's hash at the ledger's difficulty; earlier blocks, staged records and difficulty are unchanged; continuity and the ledger invariant are kept, even when the sentinel is installed |
| Blockchain.AppendKeepsValid | blockchain.go:43-46 | appending a sealed block that names the last hash keeps the chain linked and the invariant |
| Blockchain.AddData | blockchain.go:60-65 | the record is added at the end of the staged records; blocks and difficulty are unchanged; the invariant is kept |
| Blockchain.MinePendingData | blockchain.go:68-75 | the appended block is exactly what NewBlock mines from the staged records on the last block's hash, so it holds those records in order and is sealed or carries the sentinel; the buffer ends empty and the invariant is kept |
| Blockchain.GetLastBlock | blockchain.go:78-83 | the result is a block of the ledger, defined whenever the ledger has its genesis block |
| Blockchain.LastBlockIsChainTip | blockchain.go:78-83 | a block naming the last block's hash extends a linked chain to a linked chain |
| BlockchainProperties.StagedRecordsAreMinedInOrder | blockchain.go:60-75 | records staged one by one and then mined form the new block's records in staging order, none lost or repeated, and the buffer ends empty |
| BlockchainProperties.FreshLedgerScenario | blockchain.go:50-75 | on a fresh ledger at difficulty 4, staging x and y then mining gives a block [x, y] chained to the genesis hash whose hash, when sealed, decodes to a digest below 2^252 |
| BlockchainProperties.AddBlockAtDifficultyZero | blockchain.go:39-47 | at difficulty 0, unless the timer fires at once, the appended block is sealed by nonce 1, passes Validate, and its hash is the %x of that digest |
| BlockchainProperties.FailedSealIsInstalled | blockchain.go:27-47 | for a hash whose digests are all 0xff…ff at difficulty 256, the search fails, the sentinel is installed, the chain stays linked through the empty hash, and the new block fails Validate |
| Peer.HandleConnection | peer.go:55-78 | AddBlock P is exactly AddBlock of [P], appending one mined block [P] onto the last hash and leaving staged records alone; AddData P stages P leaving blocks alone; MineBlock mines the buffer; any other type, a failed read or a failed decode changes nothing; the invariant is kept |
| Peer.MineBlockIgnoresPayload | peer.go:74-75 | a MineBlock message acts as MinePendingData whatever its payload |
| Peer.NewPeerGreetingIsIgnored | peer.go:76-77 | the NewPeer greeting leaves the ledger unchanged |
| Strings.Split | main.go:34 | the split has at least one field and no field contains the separator |
| Strings.Join | main.go:42 | joining nothing gives the empty text; the first field is a prefix of the result, followed by the separator when there are more fields |
| Strings.FirstIndexOf | main.go:34 | the result is the first position of the separator, or the length when there is none |
| Strings.JoinSplit | main.go:34-42 | joining the split fields with the same separator gives the line back |
| Strings.SplitJoin | main.go:34-42 | separator-free fields joined and split come back unchanged, so the split is the unique such decomposition |
| Strings.SplitTailJoin | main.go:34-42 | the fields after the first, joined, are exactly the text after the first space |
| Console.ExecuteLine | main.go:33-50 | with cmd the text before the first space: add followed by a space stages the rest of the line, a bare add changes nothing, mine mines the buffer, any other word changes nothing; the invariant is kept and blocks only grow |
| Node.StartLedger | main.go:16 | the node starts with only the genesis block, no staged records, at difficulty 1, satisfying the ledger invariant |
| Node.StartupTarget | main.go:16 | at the start-up difficulty the target is half of 2^256, that is 2^255 |
| Node.ReplayKeepsValid | main.go:32-50 | after any sequence of peer messages and console lines the invariant holds, the difficulty is unchanged and earlier blocks stay in place |
| Node.NodeLedgerAlwaysValid | main.go:16-50 | from start-up on, the chain is linked, the genesis block stays first, and every block is validly sealed or carries the sentinel |

## Left out

- The block timestamp (`time.Now().Unix()`): it is informational and never read.
- SHA-256 internals: the hash is a parameter, so the properties hold for any hash function with 32-byte output.
- The wall clock: the one-second abort of `Run` is the oracle parameter `abort`.
- The mutex, goroutines and the unlocked gap between the snapshot and the append in `MinePendingData`: every operation is one atomic step, applied in sequence.
- Networking and I/O in peer.go (`StartListening`, `ConnectToPeer`, `NewPeer`, reading and JSON decoding): their outcome is the `Peer.Delivery` value handed to the dispatcher.
- Process set-up in main.go (flag parsing, the stdin scanner, printed replies, the outbound greeting): only the per-line dispatch and the start-up difficulty are modelled.
- Difficulties outside [0, 256]: above 256 the shift count `uint(256 - difficulty)` wraps; negative difficulties (a target above 2^256, so every digest passes) are excluded by the `nat` type; main.go uses only 1. Every operation that mines or reads the ledger requires `Wf`, which includes `difficulty <= 256`; `AddData` and the pure helpers need no such requirement.
- Negative nonces: `IntToHex` is modelled for non-negative values, the only ones the search produces.
- Hex.IntToHex: does not model Go's 64-bit `int64` range, because nonces never exceed 1,000,000.
