# Chain manager and closure gas accounting, modelled in Dafny

This project models two parts of an early Ethereum client written in Go.

**The chain manager** (`chain/chain_manager.go`) keeps the head of the canonical chain:
- the head block (`CurrentBlock`), its hash (`LastBlockHash`), a block counter (`LastBlockNumber`) and the last known total difficulty (`TD`);
- a key-value store holding each block under its hash, the head under `"LastBlock"`, the total difficulty under `"LTD"` and a per-block Info record under `hash ++ "Info"`.

It retargets difficulty, adds up the difficulty a block contributes, and looks blocks up by hash. A lookup tries the store first, then the candidate chain currently being validated. It walks back from the head along parent links. It extends the chain in two phases:
- `TestChain` runs every block of a candidate chain through the block executor without writing anything. It accepts the chain only when its final total difficulty is strictly greater than the current one.
- `InsertChain` commits the links in order and posts an event for each.

**The VM closure** (`vm/closure.go`) holds two gas counters that `UseGas` and `ReturnGas` move gas between. It also reads contract code with bounds checks (`GetByte`, `GetBytes`, `Gets`, `Get`).

How the model is built:
- **Block hash.** The hash is an injective function: `HashOf(b)` carries the block it was computed from. So a lookup by hash can only ever return that block, and walks along parent links end.
- **Store.** The store is a `map` from the four key forms to structured values; nothing is encoded to bytes.
- **Block executor.** `ProcessWithParent` is a function value fixed when the manager is created.
- **Ghost specifications.** Every walk, the validation and the commit are specified by functions in `chain_lookup.dfy` and `chain_protocol.dfy`. The methods of `ChainManager` are proved to compute exactly those functions, and lemmas prove what the functions promise.

Files:
- `wrappers.dfy`: `Option` and `Result`.
- `chain_types.dfy`: blocks, hashes, Info records, store keys and values, links, errors and events.
- `chain_difficulty.dfy`: difficulty retargeting and the difficulty a block adds.
- `chain_lookup.dfy`: lookup by hash and the walks back along parent links.
- `chain_protocol.dfy`: validation and commit as functions of their inputs.
- `chain_manager.dfy`: the `BlockChain` and `ChainManager` classes.
- `closure.dfy`: the `Closure` class.

## Model

| member | source | states |
|---|---|---|
| Difficulty.CalcDifficulty | chain/chain_manager.go:75-86 | A block at least 5 time units after its parent gets exactly D - D/1024 (rounded down), where D is the parent's difficulty; an earlier one gets exactly D + D/1024. So the result is never negative, falls or rises as the gap is long or short, and moves by at most 1/1024 of D. |
| Difficulty.ShiftRightTen | chain/chain_manager.go:78 | Shifting right by 10 bits is integer division by 1024. |
| Difficulty.UncleSumCountsEach | chain/chain_manager.go:119-128 | Every uncle's difficulty is counted exactly once: the sum is that uncle's difficulty plus the sum over the other uncles. |
| Difficulty.UncleSumAppend | chain/chain_manager.go:119-128 | The uncle sum of two lists joined is the sum of their sums. |
| ChainLookup.FindInBatch | chain/chain_manager.go:236-241 | Scanning the candidate chain for a hash finds that hash's own block exactly when the block is in the chain. |
| ChainLookup.Resolve | chain/chain_manager.go:232-248 | A lookup returns only the block the hash was computed from. A hash in the store gives the stored block. With no candidate chain, it finds exactly the hashes the store has. A block of the candidate chain is always found. |
| ChainLookup.ResolveFromBatch | chain/chain_manager.go:232-248 | A hash the store lacks is found if and only if some block of the candidate chain has it. |
| ChainLookup.BackIsAncestor | chain/chain_manager.go:265-273 | The block reached after n successful parent lookups is the head's n-th ancestor, exactly n generations lower. |
| ChainLookup.FindNumberOnWalk | chain/chain_manager.go:250-263 | The search by number returns the nearest block on the walk back with that number: every block before it on the walk has another number. It returns nothing only when no block on the walk has the number. |
| ChainLookup.PrevHashOnWalkIff | chain/chain_manager.go:108-117 | The parent-hash search answers true if and only if some block reached on the walk back has that parent hash. |
| ChainLookup.HashesFromShape | chain/chain_manager.go:134-153 | The hash walk yields between 1 and max hashes. The first is the start block's hash, each next one is the parent hash of the block before it, and a walk shorter than max ended at a block numbered 0. No hash before the last belongs to a block numbered 0, so the walk stops at the first such block and only there. |
| ChainLookup.HashesFromStopsAtGenesis | chain/chain_manager.go:141-150 | Every hash of the walk except the last is the hash of a block whose number is not 0. |
| ChainProtocol.FirstFailure | chain/chain_manager.go:348-375 | It returns the index of the first link whose parent is missing or whose execution fails; every link before it validates. |
| ChainProtocol.TestOutcomeMeaning | chain/chain_manager.go:344-384 | Validation succeeds only when every link validates and the last td is strictly greater than the current TD, so ties lose. Otherwise the error names the first missing parent, the first executor failure, or the losing td. |
| ChainProtocol.TestOutcomeAtFailure | chain/chain_manager.go:358-371 | When links before i validate and link i does not, link i decides the error: "chain broken" for a missing parent, the executor's failure otherwise. |
| ChainProtocol.TestOutcomeAllValid | chain/chain_manager.go:377-384 | When every link validates, the verdict is the last td against the current TD: TDError at or below it, success above it. |
| ChainProtocol.FilledLinksStep | chain/chain_manager.go:373-374 | Validating one more link fills in its td and messages and leaves every other link unchanged. |
| ChainProtocol.ParentInBatchResolves | chain/chain_manager.go:232-248 | During validation, a block whose parent is an earlier block of the candidate chain finds it, whether or not the store has it. |
| ChainProtocol.AnnouncementsInOrder | chain/chain_manager.go:333-334 | Each committed link posts a new-block event and then its messages, in chain order. |
| ChainProtocol.CommitLinkKeepsStoreOk | chain/chain_manager.go:199-210 | Adding a block keeps the store well formed: every block is under its own hash, and the head is also under its hash. |
| ChainProtocol.CommitAllKeepsStoreOk | chain/chain_manager.go:327-335 | Committing a whole chain keeps the store well formed. |
| ChainProtocol.CommitAllStoresChain | chain/chain_manager.go:327-335 | After a commit every block of the chain is stored under its hash, the last one is under "LastBlock", and "LTD" holds the last link's td. |
| ChainProtocol.CommitAllLeavesOthers | chain/chain_manager.go:327-335 | A commit leaves the block and Info entries of every other hash as they were. |
| ChainProtocol.CommitLinkInfo | chain/chain_manager.go:292-298 | Adding a block writes that block's Info record and no other. |
| ChainProtocol.CommitAllLedger | chain/chain_manager.go:292-298 | For link j of a chain without repeated blocks, the Info record holds the counter value n0+j+1, the block's hash and parent hash, and the TD in force before link j. |
| ChainProtocol.CommitAllLedgerAt | chain/chain_manager.go:292-298 | The same for one link j: its Info record holds n0+j+1, its hash, its parent hash and the td of link j-1 (td0 for the first link). |
| ChainProtocol.LedgerLagsHead | chain/chain_manager.go:327-335 | Committing one block with td t over a TD td0 different from t leaves "LTD" at t but the block's Info TD at td0. |
| ChainProtocol.RecordedLedgerMatchesHead | chain/chain_manager.go:327-335 | With the total difficulty recorded before the block is added, each Info record holds its own block's td, and the head's record agrees with "LTD". |
| Chain.BlockChain.constructor | chain/chain_manager.go:316-324 | NewChain makes one unvalidated link per block, in the given order. |
| Chain.ChainManager.constructor | chain/chain_manager.go:31-39 | When the store has a "LastBlock" entry, a new manager restores that head, its number as the counter, and the TD persisted under "LTD", and leaves the store as it is. Otherwise it bootstraps the genesis block into the store, which gives counter 1 and TD 0. |
| Chain.ChainManager.SetLastBlock | chain/chain_manager.go:173-191 | The head comes from "LastBlock", the counter is the head's number and TD is "LTD"; without "LastBlock" it resets. |
| Chain.ChainManager.Reset | chain/chain_manager.go:88-100 | Genesis is committed as the head with total difficulty 0. Its Info record gets the incremented counter and the TD from before the reset. |
| Chain.ChainManager.SetTotalDifficulty | chain/chain_manager.go:193-196 | "LTD" and TD both become td and nothing else changes. |
| Chain.ChainManager.Add | chain/chain_manager.go:199-210 | It writes the block's Info record, stores the block under its hash and under "LastBlock", makes it the head and advances the counter, and keeps the store well formed. |
| Chain.ChainManager.WriteBlockInfo | chain/chain_manager.go:292-298 | The counter advances by one and the Info record gets the new counter, the hash, the parent hash and the current TD. |
| Chain.ChainManager.BlockInfoByHash | chain/chain_manager.go:275-281 | It returns the stored Info record for the hash (whose hash field is that hash), or the empty record when none is stored. |
| Chain.ChainManager.HasBlock | chain/chain_manager.go:102-105 | True exactly when a store-only lookup finds the block, which is then the hash's own block. |
| Chain.ChainManager.NewBlock | chain/chain_manager.go:45-73 | With no head, the template has the zero parent hash, number 0 and difficulty 2^32. Otherwise it points at the head, is numbered one past it, gets the retargeted difficulty, and is one generation above the head. |
| Chain.ChainManager.GetBlock | chain/chain_manager.go:232-248 | It computes the lookup: the stored block when the store has the hash, otherwise a matching block of the candidate chain when one is in flight, otherwise nothing. It changes no state. |
| Chain.ChainManager.HasBlockWithPrevHash | chain/chain_manager.go:108-117 | True if and only if some block on the walk back from the head has that parent hash. |
| Chain.ChainManager.GetBlockByNumber | chain/chain_manager.go:250-263 | The result is the nearest block with that number on the walk back from the head (every block before it has another number), or nothing when no block on the walk has the number. |
| Chain.ChainManager.GetBlockBack | chain/chain_manager.go:265-273 | The result is the block n parent steps back from the head, which is its n-th ancestor, or nothing when the walk breaks. |
| Chain.ChainManager.GetChainHashesFromHash | chain/chain_manager.go:134-153 | Unknown start or max 0 gives nothing. Otherwise it returns at most max hashes, starting with the given hash, each next one the parent hash of the previous block. It ends early only at a block numbered 0, and no hash before the last is of a block numbered 0. |
| Chain.ChainManager.CollectHashes | chain/chain_manager.go:141-150 | The loop of GetChainHashesFromHash collects exactly the hashes of the walk. |
| Chain.ChainManager.CalculateBlockTD | chain/chain_manager.go:119-128 | The result is the sum of the uncles' difficulties plus the block's own. |
| Chain.ChainManager.CalcTotalDiff | chain/chain_manager.go:212-230 | An unknown parent is an error. Otherwise the result minus the parent's Info TD is exactly what CalculateBlockTD gives. |
| Chain.ChainManager.TestChain | chain/chain_manager.go:344-385 | It returns the validation verdict and fills td and messages into exactly the links before the first failure. On success every link is filled and the last td is the result. No candidate chain is left in flight, and the store, TD, head and counter are unchanged. |
| Chain.ChainManager.ValidateLinks | chain/chain_manager.go:348-375 | The walk over the links fills exactly the links before the first failure. A failure it reports is the validation verdict; with no failure every link is filled and the returned td is the last link's. |
| Chain.ChainManager.InsertChain | chain/chain_manager.go:327-342 | The store becomes the commit of every link in order. The head, its hash and TD become the last link's, the counter grows by the chain length, and each link's events are posted. |
| Chain.ChainManager.InsertLink | chain/chain_manager.go:328-334 | Committing one link adds its block with the current TD in its Info record, then sets TD and "LTD" to the link's td, makes the block the head, advances the counter and posts the link's two events. |
| Chain.ChainManager.InsertChainRecordingTd | chain/chain_manager.go:327-335 | With the td set before each add, the store is the corrected commit. As in InsertChain, the head, its hash and TD become the last link's, the counter grows by the chain length and each link's events are posted; in addition the head's Info TD equals TD. |
| Chain.ChainManager.InsertLinkRecordingTd | chain/chain_manager.go:328-334 | With the td set before the add, the block's Info record holds the link's own td, which is also TD and "LTD". The block becomes the head, the counter advances and the link's two events are posted. |
| Chain.ChainManager.Reopen | chain/chain_manager.go:173-191 | A manager opened over the same store restores the same head, head hash and TD. Its counter is the head's number. |
| Vm.Int64 | vm/closure.go:83-87 | It gives the low 64 bits as a signed value: equal to the input inside the int64 range and congruent to it modulo 2^64. |
| Vm.Closure.constructor | vm/closure.go:34-46 | A new closure has the given code, gas and price, and no gas used. |
| Vm.Closure.UseGas | vm/closure.go:115-125 | It succeeds if and only if enough gas is left. On success it moves gas from Gas to UsedGas and leaves Gas non-negative; on refusal nothing changes. Gas + UsedGas is preserved. |
| Vm.Closure.ReturnGas | vm/closure.go:128-132 | It moves gas from UsedGas back to Gas and preserves Gas + UsedGas. |
| Vm.RefundRestoresGas | vm/closure.go:115-132 | ReturnGas after a successful UseGas of the same amount restores both counters. |
| Vm.Closure.GetByte | vm/closure.go:66-72 | The code byte at x, and 0 past the end of the code. |
| Vm.Closure.GetBytes | vm/closure.go:74-80 | Nothing exactly when x or y is not below the code length; otherwise y bytes, byte i being GetByte(x+i). |
| Vm.Closure.Gets | vm/closure.go:82-90 | The number 0 when either offset, taken as an int64, is not below the code length; otherwise the same bytes GetBytes gives. |
| Vm.Closure.Get | vm/closure.go:58-60 | It is Gets(x, 1). On code of two or more bytes it reads the byte at x; on code of at most one byte it always gives 0. |
| Vm.Closure.ReadCode | vm/closure.go:74-80 | The corrected read: y bytes from x whenever x+y is within the code, and nothing otherwise. |
| Vm.Closure.GetBytesAgreesWithReadCode | vm/closure.go:74-80 | Wherever GetBytes answers, it agrees with the corrected read. |
| Vm.Closure.GuardRejectsWholeCode | vm/closure.go:82-90 | On one-byte code, Get(0) gives 0 and GetBytes(0, 1) gives nothing, although the corrected read returns the whole code. |

## Left out

- Hashing (`crypto/crypto.go`): it is replaced by the injective `HashOf`. Collisions and hash byte formats are not modelled.
- RLP encoding and decoding: the store holds structured values.
- Database-level details: `Db.LastKnownTD` is taken to read "LTD", giving 0 when it is absent. A missing Info record decodes to the empty record. The database layer is not part of this model.
- `AddTestNetFunds` and the genesis trie sync: they act on account state, which is not part of this model.
- `NewBlock`: only the parent hash, number and difficulty are modelled. The state root, coinbase, minimum gas price and gas limit (`CalcGasLimit`) are left out, and `CreateBlock` gives number 0.
- The block executor `ProcessWithParent`: it is a pure function fixed per manager. Its internal state changes are not modelled.
- Event delivery: the posts are recorded in a ghost sequence. Subscribers are not modelled.
- Logging and `Stop`.
- `Chain.ChainManager.TestChain`: the td that the Go code also returns next to an error is dropped; only the error is kept. It requires a non-empty chain, because the Go code compares a nil td otherwise. It requires that no other candidate chain is in flight.
- `Chain.ChainManager.TestChain`: the filled-in links are written back to the chain once, when the walk ends, rather than link by link. Lookups during the walk read only the blocks, which do not change, so the final state is the same.
- `Chain.ChainManager.GetChainHashesFromHash`: it requires that every parent the walk must step to is found, because the Go code dereferences a missing parent.
- `Chain.ChainManager.GetBlockByNumber`: the guard at chain/chain_manager.go:258 is kept, but it can never fire; the loop only stops at a missing block or a block with the number.
- `Chain.ChainManager.constructor`: bootstrapping an empty store gives counter 1, because `writeBlockInfo` increments it.
- `Chain.ChainManager.InsertChain`: `LastBlockNumber` is a `uint64` in the source; its wrap-around is not modelled.
- `Chain.ChainManager.SetLastBlock`: the head number goes through `Uint64` in the source; its truncation is not modelled.
- `Chain.ChainManager.GetBlockByNumber`: the source compares `block.Number.Uint64()` with the number (chain/chain_manager.go:253 and 258); the model compares the unbounded number, so the truncation of numbers of 2^64 and above is not modelled.
- `Chain.ChainManager.Reopen`: a reopened manager takes the head's number as its counter, as `setLastBlock` does. This is the source's behaviour and the counter is not restored: a live manager's counter is its opening counter plus the blocks added since, which differs from the head's number after a bootstrap (counter 1 for the genesis block numbered 0).
- `Vm.Closure.GetByte`: the offset is a natural number; a negative offset panics in the source.
- `Vm.Closure.GetBytes`: it requires that an accepted read does not run past the end of the code. In Go a slice expression is bounded by the capacity, not the length: a read past `len(Code)` but within `cap(Code)` returns bytes beyond the end of the code, and only a read past `cap(Code)` panics. The model has no capacity, so it leaves those reads out. Nil-versus-empty is collapsed into `Option`.
- `Vm.Closure.Gets`: it requires that an accepted read has non-negative `Int64` offsets and does not run past the end of the code. In Go a negative offset panics, and a read past the length returns bytes beyond the code up to the capacity or panics beyond it; neither is modelled.
- `Vm.Closure.Get`: it requires a non-negative `Int64` offset whenever the guard accepts the read, for the same reason as `Gets`; one-byte reads past the end are excluded by the guard itself.
- `Vm.Closure.constructor`: the source keeps the caller's gas `*big.Int` itself rather than a copy, so the caller's counter moves with the closure's; integers here are values, so that aliasing is not modelled. The message, caller, object and arguments are left out.
- `Closure.Call`, `Closure.Return`, storage access, `Address`, `Object`, `Caller` and `SetExecution`: they delegate to the VM and the state objects, which are not part of this model.

## Findings

| source | as written | input that shows it | evidently intended | confidence | as-written member | corrected member |
|---|---|---|---|---|---|---|
| chain/chain_manager.go:327-335 | `add` runs before `SetTotalDifficulty`, so `writeBlockInfo` stores the TD from before the block. `CalcTotalDiff` (line 218) reads that record as the parent's own total difficulty. | A head with TD td0 and one inserted block b with td t != td0: "LTD" becomes t but Info(b).TD is td0, so a child of b starts from td0. | Each Info record holds its own block's total difficulty. | medium, not executed | ChainProtocol.LedgerLagsHead | ChainProtocol.RecordedLedgerMatchesHead |
| vm/closure.go:74-90 | The guard compares the length y with len(Code) instead of checking x+y <= len(Code). | Code of one byte: Get(0) = Gets(0, 1) returns 0 and GetBytes(0, 1) returns nil, although byte 0 exists. Conversely x+y > len(Code) with x, y < len(Code) passes the guard: the slice then returns bytes past the end of the code when the capacity allows, and panics only past the capacity. | Return the y bytes from x exactly when x+y <= len(Code). | high, not executed | Vm.Closure.GuardRejectsWholeCode | Vm.Closure.ReadCode |
