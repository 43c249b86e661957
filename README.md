# A verified model of a minimal proof-of-stake ledger core

This project models three small parts of a Go proof-of-stake ledger in Dafny and proves what each one does:

- **Proposer selection** (`ProofOfStake`, blockchain/consensus.go). The stakes are summed. A draw `r` is taken in `[0, total)`. Then the validators are visited while each stake is subtracted from `r`, and the first validator at which the remainder is `<= 0` is returned.
- **Block construction** (`NewBlock`, `calculateHash`, blockchain/block.go). A block stores its transactions, the previous block's hash and the proposer's key. Its hash is SHA-256 over the previous hash, then every transaction hash in order, then the timestamp's text.
- **Transaction construction** (`NewTransactions`, `hashTransaction`, blockchain/transaction.go). A transfer gets one input and one output. Its ID is SHA-256 over the input key, the output key and the amount's `string(int)` bytes. The ID is then signed with ECDSA.

Modules: `Wrappers` holds Option and Result. `Bytes` holds bytes, 32-byte digests and Go's `bytes.Join`. `Utf8` holds Go's `string(int)` conversion. The other three modules follow the three source files: `Transactions`, `Blocks` and `Consensus`.

Modelling choices:

- The Go map of validators is a Dafny `map` plus an `order`, which is any sequence that visits every key exactly once. Every property holds for every such order. `TotalStakeIndependentOfOrder` shows that the total, and with it whether `rand.Intn` panics, does not depend on the order.
- The random draw is the parameter `r`. When the total stake is positive, `r` must lie in `[0, total)`, which is what `rand.Intn` returns. When the total is not positive, `rand.Intn` panics. The model returns `Panicked(IntnInvalidArgument)` in that case.
- SHA-256, the per-transaction `tx.Hash()`, `time.Time.String()` and `ecdsa.Sign` are function parameters. Only their types are fixed. A digest is exactly 32 bytes. A signer may fail.
- Go panics (`log.Panic`, `rand.Intn`) become explicit failure values: `Panicked(...)` for selection and `Err(SigningFailed)` for transactions.
- blockchain/transaction.go does not compile as written. Lines 40 and 41 (`TxInput :TxInput{}`, `TxOut :TxOutput{...}`) are modelled as declarations of the locals `txIn` and `TxOut`. Line 52 (`log.(Panic(err))`) is modelled as `log.Panic(err)`. blockchain/consensus.go line 30 (`random = rand.InTn(totalStake)`) is modelled as declaring `random := rand.Intn(totalStake)`. The missing imports are assumed.
- Go value semantics are kept literally. The signature is written to the local `txIn` after its copy was placed in the input slice, so the returned input keeps an empty signature and an empty public key.

The model follows the code where it departs from the behaviour a stake-weighted ledger is usually expected to have:

- Selection uses `random <= 0`, not `random < 0`, so the draws a validator wins are not exactly its stake's worth.
- Validators are visited in Go's map order, not in a fixed (for example sorted) order.
- The ID covers only the first input's key and the first output, not every input and output.
- The amount is encoded with `string(int)`, not as a fixed-width number, so distinct amounts can share an ID.

The first and third findings below show what the first and last of these choices cost.

## Model

| member | source | states |
|---|---|---|
| `Consensus.ProofOfStake` | blockchain/consensus.go:22-41 | Panics in `rand.Intn` exactly when the total stake is not positive. Never reaches the "Unable to find a validator" panic, even with negative stakes. Otherwise returns the `PublicKey` field (not the map key) of a validator in the map, and that validator is the first in visiting order whose running stake total is at least `r`. The map is only read. |
| `Consensus.TotalStakeIndependentOfOrder` | blockchain/consensus.go:23-26 | `totalStake`, the sum of every validator's stake, is the same for every order in which `range` may visit the map. |
| `Consensus.SumIndependentOfOrder` | blockchain/consensus.go:23-26 | Summing the stakes over any two duplicate-free key sequences with the same keys gives the same result. |
| `Consensus.WinnerInterval` | blockchain/consensus.go:33-37 | With non-negative stakes, a draw selects validator `i` exactly when it lies in the half-open interval `[Cut(i), Cut(i+1))` bounded by the clipped running totals. |
| `Consensus.DrawCount` | blockchain/consensus.go:33-37 | With non-negative stakes, the number of draws in `[0, total)` that select validator `i` is `Cut(i+1) - Cut(i)`. |
| `Consensus.DrawCountPositive` | blockchain/consensus.go:35 | Because the test is `<= 0`, with positive stakes the first validator wins `stake + 1` draws, the last one wins `stake - 1`, and every other one wins exactly `stake`. A single validator wins all `stake` draws. |
| `Consensus.EqualStakesNeverChooseSecond` | blockchain/consensus.go:35 | Two validators with stake 1 each: no draw selects the second one. With `< 0`, exactly one draw does. |
| `Consensus.ProofOfStakeFair` | blockchain/consensus.go:22-41 | The selection with `random < 0`. Its panics and its totality are the same as `ProofOfStake`'s. The winner is the first validator whose running total exceeds `r`. |
| `Consensus.FairDrawCount` | blockchain/consensus.go:35 | With `< 0` and non-negative stakes, every validator wins exactly `stake` of the `total` draws. |
| `Blocks.TxHashes` | blockchain/block.go:48-51 | The aggregate of transaction hashes is `32 × n` bytes long, and empty for a block without transactions. |
| `Blocks.TxHashesAt` | blockchain/block.go:48-51 | The `i`-th 32-byte slice of the aggregate is the `i`-th transaction's hash, so hashes are concatenated in transaction order. |
| `Blocks.TxHashesDetermineHashes` | blockchain/block.go:48-51 | Equal aggregates mean the same number of transactions with the same hash at every position. |
| `Blocks.TxHashesDetectReordering` | blockchain/block.go:48-51 | For a reordering of transactions with pairwise distinct hashes, the aggregate is unchanged exactly when the order is unchanged. |
| `Blocks.BlockPreimage` | blockchain/block.go:54-58 | The bytes hashed by `calculateHash` are `PrevBlockHash ++ txHashes ++ timestamp-text`, with an empty separator. |
| `Blocks.PreimageIgnoresValidatorNonceHash` | blockchain/block.go:46-61 | Changing `Validator`, `Nonce` or `Hash` leaves the preimage, and so the hash, unchanged. |
| `Blocks.PreimageDeterminesTxHashes` | blockchain/block.go:54-58 | For blocks with the same predecessor and timestamp, the preimages agree exactly when the transaction hash aggregates agree. |
| `Blocks.ReorderingChangesPreimage` | blockchain/block.go:46-61 | Reordering a block's transactions (pairwise distinct hashes) changes what is hashed whenever the order changes, so the block hash changes unless SHA-256 collides. |
| `Blocks.CalculateHash` | blockchain/block.go:46-61 | The append loop builds the in-order aggregate. The result is the 32-byte SHA-256 digest of the block preimage. |
| `Blocks.NewBlock` | blockchain/block.go:28-38 | Stores the transactions, the previous hash, the validator and the timestamp unchanged, and leaves `Nonce` at 0. `Hash` is the digest of the block's own fields. |
| `Utf8.EncodeRune` | blockchain/transaction.go:66 | `string(Value)` has the bit pattern of one UTF-8 sequence, in the shortest form: 1 byte below 0x80, 2 below 0x800, 3 below 0x10000, 4 above, and 3 (U+FFFD) for every value that is not a valid code point. With `DecodeEncodeRune` this fixes every byte. |
| `Utf8.DecodeEncodeRune` | blockchain/transaction.go:66 | Decoding the amount bytes gives back the value when it is a valid code point, and U+FFFD otherwise. |
| `Utf8.EncodeRuneInjective` | blockchain/transaction.go:66 | Distinct valid code points give distinct amount bytes. |
| `Utf8.InvalidRuneIsReplacement` | blockchain/transaction.go:66 | Negative values, surrogates and values above 0x10FFFF are encoded as U+FFFD (`EF BF BD`). |
| `Transactions.HashTransaction` | blockchain/transaction.go:61-70 | The ID is SHA-256 of `Input[0].PublicKey ++ Output[0].PublicKey ++ string(Value)`; nothing else of the transaction is hashed. It needs at least one input and one output, as the `[0]` indexing does. |
| `Transactions.IdPreimageLayout` | blockchain/transaction.go:63-67 | The ID preimage is `Input[0].PublicKey ++ Output[0].PublicKey ++ string(Value)` with an empty separator. It needs at least one input and one output. |
| `Transactions.IdIgnoresSignaturesAndExtras` | blockchain/transaction.go:63-67 | Signatures, the stored ID and any further inputs or outputs never affect the preimage. |
| `Transactions.IdPreimageInjective` | blockchain/transaction.go:63-67 | With fixed key lengths and amounts that are valid code points, the preimage determines both keys and the amount. |
| `Transactions.InvalidAmountsShareId` | blockchain/transaction.go:61-69 | Two transactions that differ only in an amount that is not a valid code point have the same ID. |
| `Transactions.NewTransactions` | blockchain/transaction.go:39-58 | A signing error aborts construction, and no transaction is returned. Otherwise the result has exactly one input and one output. The output carries the amount and the recipient unchanged. The ID is computed before signing from the unsigned record, and it is the ID that is signed. As written, the input keeps an empty signature and an empty public key. |
| `Transactions.NewTransactionsSigned` | blockchain/transaction.go:39-58 | The intended construction. The input carries the sender's public key and the signature `r ++ s` over the ID. Recomputing the ID from the signed transaction gives the stored ID. |
| `Transactions.AmountRoundTrip` | blockchain/transaction.go:66 | The fixed-width 8-byte big-endian amount encoding decodes back to every 64-bit value. |
| `Transactions.FixedWidthIdPreimageInjective` | blockchain/transaction.go:63-67 | With the fixed-width amount and fixed key lengths, the ID preimage determines both keys and every 64-bit amount. |

## Left out

- Gob `Serialize`, `DeserializeBlock` and `DeserializeTransaction` (blockchain/block.go:63-102, blockchain/transaction.go:72-94) are not modelled. They are thin wrappers over an encoding library that is not part of this model, and they panic on any error.
- SHA-256 internals are not modelled. The hash is a parameter whose result is 32 bytes. Collision resistance is never assumed; lemmas that concern the hash speak about its preimage.
- ECDSA signing, `crypto/rand` and `big.Int.Bytes()` are not modelled. Signing is a parameter that may fail and returns the two byte strings `r` and `s`.
- `math/rand` seeded from the clock (blockchain/consensus.go:29-30) is not modelled. The draw is the parameter `r`. Its uniformity is not modelled; the fairness lemmas count draw values instead.
- `time.Now()` and `time.Time.String()` (blockchain/block.go:30, 57) are not modelled. The timestamp is a parameter, and its text is an opaque function.
- `tx.Hash()` (blockchain/block.go:50) is defined outside the files of this model. It is an abstract 32-byte hash per transaction.
- Go map iteration order is not modelled as a fixed order. It is the `order` parameter, and every property holds for every order.
- Pointers and aliasing are not modelled. `[]*Transaction`, `*Block`, `*Transaction` and `map[string]*POSValidaor` are treated as values, which also rules out nil pointers: a nil `*POSValidaor` in the map panics at blockchain/consensus.go:25, and a nil `*Transaction` in a block panics at blockchain/block.go:50; the model has no such inputs. Later mutation through a shared pointer is outside the model.
- Log output from `log.Panic` is not modelled. Only the abort it causes is.
- The timestamp is modelled by its instant alone. Go's `Time.String()` also prints the time zone and, for `time.Now()` values, the monotonic clock reading (`m=±…`), so two Go times at the same instant can render differently; the model gives them one text. Gob encoding drops the monotonic reading, so in Go a decoded block's recomputed hash can differ from its stored `Hash`; the model does not capture this.
- Transaction verification, block linkage checks and fork choice are not modelled, because they do not exist in the code.
- `Consensus.ProofOfStake`: stakes and `totalStake` are unbounded integers, so Go's 64-bit wrap-around when the sum overflows is not modelled.
- `Consensus.ProofOfStakeFair`: stakes and `totalStake` are unbounded integers, as for `ProofOfStake`.
- `Transactions.NewTransactions`: the amount is an unbounded integer. Go's `int` is 64 bits wide, and every value outside the code-point range is encoded as U+FFFD either way.

## Findings

| source | as written | input that shows it | evidently intended | confidence | as-written member | corrected member |
|---|---|---|---|---|---|---|
| blockchain/consensus.go:35 | `random <= 0` stops at the first validator whose running total reaches `r`. The first validator in the visiting order wins one draw value more than its stake, and the last one wins one fewer. Go picks a new map order for each `range`, so the bias falls on whichever validator comes first or last in that call; under a fixed order it always falls on the same ones. | Stakes {A: 1, B: 1} visited A then B: draw 0 gives 0 − 1 = −1 and draw 1 gives 1 − 1 = 0, so both draws choose A and B is never chosen in that order. | `random < 0`, so that each validator wins exactly its stake's worth of draws (proved in `Consensus.FairDrawCount`). | not executed; high | `Consensus.EqualStakesNeverChooseSecond` | `Consensus.ProofOfStakeFair` |
| blockchain/transaction.go:40-56 | The signature is written to the local `txIn` after a copy of it was placed in `tx.Input`, and the input's public key is never set. | Any call whose signing succeeds: the returned `Input[0]` has an empty signature and an empty public key, and the ID ignores the sender. | Store the sender's public key and the signature in `tx.Input[0]`. | not executed; high | `Transactions.NewTransactions` | `Transactions.NewTransactionsSigned` |
| blockchain/transaction.go:66 | `string(Value)` turns the amount into one UTF-8 character, and every value that is not a code point becomes U+FFFD. | Amounts 0x110000 and 0x110001 (otherwise equal transactions) get the same ID. | An amount encoding that differs for every amount, such as the fixed-width big-endian form (proved injective in `Transactions.FixedWidthIdPreimageInjective`). | not executed; medium | `Transactions.InvalidAmountsShareId` | `Transactions.FixedWidthIdPreimageInjective` |
