# fuel-vm core, modelled in Dafny

This project models seven parts of the Fuel virtual machine and its
libraries and proves properties of each:

- **Binary Merkle tree** (`merkle_tree.dfy`, module `BinaryMerkle`): the
  Merkle Mountain Range behind `fuel-merkle`'s `MerkleTree`. It covers the
  peak stack that merges equal heights as leaves are pushed, the node
  storage keyed by in-order index, `root_node`/`root`, `load`, `prove` and
  `reset`, and the position arithmetic `root_position` and `peak_positions`.
  Hashes are free terms (`EmptySum`, `LeafSum`, `NodeSum`). The tree built by
  pushes is proved equal to a reference binary Merkle root: the split at the
  largest power of two below the leaf count, as in section 2.1 of RFC 6962.
  `MerkleTree` is a class whose methods are proved against pure
  specification functions (`PushSpec`, `FoldPeaks`, `LoadSpec`,
  `ProveSpec`). `merkle_vectors.dfy` (module `MerkleVectors`) derives the
  roots and proof sets of the `prove` tests from the general results.
- **Client storage** (`storage.dfy`, module `ClientStorage`): the three-layer
  `MemoryStorage` (working `memory`, `transacted`, `persisted`). It covers
  `commit`, `revert`, `rollback` and `persist`, the CRUD operations of the
  four tables, and the per-contract roots over entries in ascending key
  order.
- **Crypto instructions** (`crypto.dfy`, module `CryptoOps`): `ecrecover`,
  `keccak256` and `sha256` of the older interpreter. This covers their
  bounds checks, the ownership-checked memory write, the error flag and the
  pc increment.
- **Metadata instructions** (`metadata.dfy`, module `Metadata`): `GM` and
  `GTF` of the newer interpreter, covering:
  - the context checks;
  - the saturating offset arithmetic;
  - the error of each selector;
  - the single register write followed by `inc_pc`.
- **State diff helpers** (`diff.dfy`, module `Diff`):
  - `capture_vec_state_inner`, `capture_map_state_inner`, `invert_vec` and
    `invert_map`;
  - the proof that inverting every captured difference restores the desired
    state.
- **Contract code** (`contract.dfy`, module `ContractCode`):
  - the code root input (8-byte, zero-padded words) and the id preimage
    (`SEED ‖ salt ‖ root`);
  - the `Vec<u8>` conversions and `TryFrom<&Transaction>`;
  - the interpreter's contract and balance lookups.
- **Output validation** (`output.dfy`, module `OutputValidation`): the rule
  that a `Contract` output must name an existing contract input.

Shared modules:
- `wrappers.dfy` (`Option`, `Result`);
- `byte_order.dfy` (big-endian words);
- `fuel_types.dfy` (the older API's words, 32-byte identifiers, their
  byte-wise ordering and `ExecuteError`).

The newer API's `PanicReason` lives in `Metadata`. The two APIs' types are
kept apart, as the repository keeps them.

## Model

| member | source | states |
|---|---|---|
| BinaryMerkle.NextPowerOfTwo | fuel-merkle/src/binary/merkle_tree.rs:329-337 | `next_power_of_two(x)` is a power of two with `x <= r < 2x` |
| BinaryMerkle.NextPowerOfTwoLeast | fuel-merkle/src/binary/merkle_tree.rs:329-337 | it is the least power of two at or above `x`: every power of two at or above `x` is at least `r` |
| BinaryMerkle.RootPosition | fuel-merkle/src/binary/merkle_tree.rs:329-337 | `root_position(n)` is `None` exactly when `n + 1` overflows a u64; otherwise it is the in-order index of the root of the smallest balanced tree with room for `n + 1` leaves, so its height is that tree's height |
| BinaryMerkle.PeakPositionsNone | fuel-merkle/src/binary/merkle_tree.rs:341-355 | `peak_positions(n)` is `None` exactly when leaf `n` has no u64 position (`n >= 2^63`) |
| BinaryMerkle.PeakPositionsSides | fuel-merkle/src/binary/merkle_tree.rs:341-355 | below 2^63, `peak_positions(n)` is the side positions of the path from `root_position(n)` to leaf `n` in a tree of `n + 1` leaves, the root left out |
| BinaryMerkle.PeakPositionsArePeaks | fuel-merkle/src/binary/merkle_tree.rs:341-355 | those positions are exactly the keys of the peaks of the tree of `n` leaves, in stack order |
| BinaryMerkle.PushSpec | fuel-merkle/src/binary/merkle_tree.rs:303-324 | a leaf whose position overflows is refused with `TooLarge` and nothing changes; otherwise the leaf count grows by exactly one, even when the merge then reports `TooLarge` |
| BinaryMerkle.PushRepresents | fuel-merkle/src/binary/merkle_tree.rs:303-324 | pushing onto the tree of `leaves` (fewer than 2^63) succeeds and gives the tree of `leaves + [data]`; leaf `i` is stored under key `2i`, and every node written is the head of a balanced subtree stored under its own in-order index |
| BinaryMerkle.PushAllRepresents | fuel-merkle/src/binary/merkle_tree.rs:393-451 | pushing a list of data in turn onto the tree of `leaves` gives the tree of `leaves + ds`: its count, its peak stack and the peaks in storage |
| BinaryMerkle.MerkleTree.Push | fuel-merkle/src/binary/merkle_tree.rs:303-324 | the new state and outcome are `PushSpec` of the old state; the merge loop keeps the spec of the remaining merges invariant |
| BinaryMerkle.MerkleTree.constructor | fuel-merkle/src/binary/merkle_tree.rs:132-139 | `new` keeps the given storage, with an empty stack and no leaves |
| BinaryMerkle.MerkleTree.LeavesCount | fuel-merkle/src/binary/merkle_tree.rs:79-81 | reports the leaf count of the state |
| BinaryMerkle.EmptyTreeRoot | fuel-merkle/src/binary/merkle_tree.rs:479-520 | the empty tree is the tree of no leaves; loading 0 leaves gives it back over any storage; its root node is `None` and its root is `empty_sum` |
| BinaryMerkle.RootRepresents | fuel-merkle/src/binary/merkle_tree.rs:68-77 | the root of any tree built by pushes never fails and is the reference Merkle root of its leaves |
| BinaryMerkle.MerkleRootSplit | fuel-merkle/src/binary/merkle_tree.rs:539-580 | the reference root of two or more leaves is `node_sum` of the roots of the first `k` leaves and of the rest, where `k` is the largest power of two below the count |
| BinaryMerkle.ConcreteRoots | fuel-merkle/src/binary/merkle_tree.rs:522-580 | one leaf has root `leaf_sum(data)`; seven leaves have root `node_sum(node_3, node_sum(node_9, leaf_6))` |
| BinaryMerkle.PushAllRoot | fuel-merkle/src/binary/merkle_tree.rs:539-580 | pushing data onto an empty tree gives the reference root of that data |
| BinaryMerkle.FoldPeaksErr | fuel-merkle/src/binary/merkle_tree.rs:105-123 | the only error `root_node` can return is `TooLarge` |
| BinaryMerkle.MerkleTree.RootNode | fuel-merkle/src/binary/merkle_tree.rs:101-124 | the loop from the top of the stack down computes `FoldPeaks`: each lower peak becomes the left child of the new head, and each head is put in scratch storage |
| BinaryMerkle.MerkleTree.Root | fuel-merkle/src/binary/merkle_tree.rs:68-77 | `root` is `empty_sum` for an empty stack and otherwise the hash of the folded head |
| BinaryMerkle.LoadRoundTrip | fuel-merkle/src/binary/merkle_tree.rs:454-477 | loading the storage of a tree built by `n` pushes with count `n` gives back the same tree, hence the same root |
| BinaryMerkle.LoadTooLarge | fuel-merkle/src/binary/merkle_tree.rs:874-885 | `load` with a count of 2^63 or more (`u64::MAX` included) fails with `TooLarge` |
| BinaryMerkle.LoadMissingPeak | fuel-merkle/src/binary/merkle_tree.rs:494-511 | `load` fails with `LoadError(key)` for the first peak position missing from storage |
| BinaryMerkle.LookupNodesCases | fuel-merkle/src/binary/merkle_tree.rs:225-234 | the lookup succeeds iff every key is stored, then returns the stored nodes in key order; otherwise the error names the first missing key |
| BinaryMerkle.MerkleTree.ReadPeaks | fuel-merkle/src/binary/merkle_tree.rs:224-234 | the peak-reading loop computes `LoadSpec` |
| BinaryMerkle.MerkleTree.Load | fuel-merkle/src/binary/merkle_tree.rs:220-242 | `load` fails exactly when `LoadSpec` does, with the same error; otherwise it returns a new tree whose state is `LoadSpec`'s |
| BinaryMerkle.ProofKeysLeafToRoot | fuel-merkle/src/binary/merkle_tree.rs:256-260 | the proof positions are the side positions of the path to the leaf, ordered from the leaf up, with the root dropped |
| BinaryMerkle.SidesEmpty | fuel-merkle/src/binary/merkle_tree.rs:610-628 | the path to a leaf has a side node exactly when the tree has more than one leaf |
| BinaryMerkle.ProveResult | fuel-merkle/src/binary/merkle_tree.rs:244-287 | `prove(i)` gives `InvalidProofIndex(i)` exactly when `i >= leaves_count`; on success its root is `root()`'s, and entry `k` is the hash at the `k`-th proof position, taken from scratch storage before storage |
| BinaryMerkle.ProveRepresents | fuel-merkle/src/binary/merkle_tree.rs:610-680 | on a tree built by pushes, an index below the count passes every check; `prove` succeeds iff every proof position is stored, its root is the reference root, and a one-leaf tree gives `(leaf_sum(data), [])` |
| BinaryMerkle.PushStored | fuel-merkle/src/binary/merkle_tree.rs:303-324 | one push keeps every node of every balanced subtree under the peaks in storage: the leaf and each merged parent are written at their own positions |
| BinaryMerkle.PushAllStored | fuel-merkle/src/binary/merkle_tree.rs:303-324 | so does pushing a whole list of data in turn |
| BinaryMerkle.SidesResolve | fuel-merkle/src/binary/merkle_tree.rs:256-283 | in a map holding the subtree frame, every side position of the path to a leaf is present, and its node's hash is the reference root of that side subtree (a partly filled side subtree stands for its leaves) |
| BinaryMerkle.FrameStoredFromPeaks | fuel-merkle/src/binary/merkle_tree.rs:101-124 | the storage overlaid with `root_node`'s scratch storage holds that frame for the whole tree: full subtrees come from storage, the partly filled ones from the heads the fold writes |
| BinaryMerkle.ProveComplete | fuel-merkle/src/binary/merkle_tree.rs:244-287 | on a tree built by pushes, `prove(i)` for `i` below the count always succeeds; it returns the reference root and, from the leaf up, the reference roots of the side subtrees of leaf `i` |
| BinaryMerkle.PushAllProve | fuel-merkle/src/binary/merkle_tree.rs:610-836 | the same for the tree built by pushing a list of data onto an empty tree over any storage |
| MerkleVectors.ProveOneLeaf | fuel-merkle/src/binary/merkle_tree.rs:610-627 | one pushed leaf: `prove(0)` is `(leaf_0, [])` |
| MerkleVectors.ProveFourLeaves | fuel-merkle/src/binary/merkle_tree.rs:629-680 | four pushed leaves: the root `node_3` and each index's proof set as in the 4-leaf test |
| MerkleVectors.ProveFiveLeaves | fuel-merkle/src/binary/merkle_tree.rs:682-747 | five pushed leaves: the root `node_7` and each index's proof set as in the 5-leaf test |
| MerkleVectors.ProveSevenLeaves | fuel-merkle/src/binary/merkle_tree.rs:749-836 | seven pushed leaves: the root `node_7` and each index's proof set as in the 7-leaf test |
| BinaryMerkle.MerkleTree.ReadNodes | fuel-merkle/src/binary/merkle_tree.rs:274-283 | the proof-set loop computes `LookupNodes` over scratch storage layered over storage |
| BinaryMerkle.MerkleTree.Prove | fuel-merkle/src/binary/merkle_tree.rs:244-287 | the result is `ProveSpec` of the state |
| BinaryMerkle.ResetAsWrittenKeepsCount | fuel-merkle/src/binary/merkle_tree.rs:289-291 | after `reset` as written the root is `empty_sum`, yet `leaves_count` still reports the old count: no leaf list at all is represented by that state, `prove(0)` passes the index check with an empty stack, and the next leaf is stored at `2n` |
| BinaryMerkle.MerkleTree.ResetAsWritten | fuel-merkle/src/binary/merkle_tree.rs:289-291 | clears only the node stack |
| BinaryMerkle.ResetRepresentsEmpty | fuel-merkle/src/binary/merkle_tree.rs:839-872 | the corrected `reset` leaves the empty tree over the same storage, whose root is `empty_sum` |
| BinaryMerkle.ResetThenPush | fuel-merkle/src/binary/merkle_tree.rs:839-872 | after the corrected `reset`, pushing data gives the reference root of that data, the same root a fresh tree over the same data has |
| BinaryMerkle.MerkleTree.Reset | fuel-merkle/src/binary/merkle_tree.rs:289-291 | the corrected `reset`: empty stack and zero leaves, with storage kept |
| ClientStorage.MemoryStorage.constructor | src/client/storage.rs:32-40 | `new` starts with all three layers empty |
| ClientStorage.MemoryStorage.Default | src/client/storage.rs:69-76 | `default` has block height 1 and as coinbase the hash of the bytes of "coinbase" |
| ClientStorage.MemoryStorage.Commit | src/client/storage.rs:50-52 | the working layer is copied into `transacted`; nothing else changes |
| ClientStorage.MemoryStorage.Revert | src/client/storage.rs:54-56 | the working layer goes back to `transacted` |
| ClientStorage.MemoryStorage.Rollback | src/client/storage.rs:58-61 | the working layer and `transacted` go back to `persisted` |
| ClientStorage.MemoryStorage.Persist | src/client/storage.rs:63-66 | the working layer and `persisted` both become `transacted` |
| ClientStorage.LayerLaws | src/client/storage.rs:50-66 | the laws of the layers:<br>• commit keeps the working and persisted layers<br>• revert right after commit is a no-op<br>• revert discards writes since the last commit<br>• persist drops uncommitted writes<br>• rollback after commit equals rollback<br>• each operation is idempotent |
| ClientStorage.MemoryStorage.GetContract | src/client/storage.rs:89-91 | reads the working layer's contract under the key |
| ClientStorage.MemoryStorage.ContainsContract | src/client/storage.rs:93-95 | true exactly when `get` finds the contract |
| ClientStorage.MemoryStorage.InsertContract | src/client/storage.rs:81-83 | returns the previous value; a later `get` returns the new one; only the working contracts table changes |
| ClientStorage.MemoryStorage.RemoveContract | src/client/storage.rs:85-87 | returns the removed value; a later `contains_key` is false; only the working contracts table changes |
| ClientStorage.MemoryStorage.GetCodeRoot | src/client/storage.rs:109-111 | reads the working layer's (salt, root) under the key |
| ClientStorage.MemoryStorage.ContainsCodeRoot | src/client/storage.rs:113-115 | true exactly when `get` finds an entry |
| ClientStorage.MemoryStorage.InsertCodeRoot | src/client/storage.rs:101-103 | returns the previous value; a later `get` returns the new one; only the working code-root table changes |
| ClientStorage.MemoryStorage.RemoveCodeRoot | src/client/storage.rs:105-107 | returns the removed value; a later `contains_key` is false; only the working code-root table changes |
| ClientStorage.MemoryStorage.GetBalance | src/client/storage.rs:125-127 | finds the (contract, color) entry of the working layer; an absent one is what `balance` reads as 0 |
| ClientStorage.MemoryStorage.ContainsBalance | src/client/storage.rs:133-135 | true exactly when `get` finds the entry |
| ClientStorage.MemoryStorage.InsertBalance | src/client/storage.rs:121-123 | returns the previous balance; a later `get` returns the new one; only that (contract, color) entry of the working layer changes |
| ClientStorage.MemoryStorage.RemoveBalance | src/client/storage.rs:129-131 | returns the removed balance; a later `contains_key` is false; only that entry of the working layer changes |
| ClientStorage.MemoryStorage.GetState | src/client/storage.rs:158-160 | finds the (contract, key) slot of the working layer |
| ClientStorage.MemoryStorage.ContainsState | src/client/storage.rs:166-168 | true exactly when `get` finds the slot |
| ClientStorage.MemoryStorage.InsertState | src/client/storage.rs:154-156 | returns the previous value; a later `get` returns the new one; only that slot of the working layer changes |
| ClientStorage.MemoryStorage.RemoveState | src/client/storage.rs:162-164 | returns the removed value; a later `contains_key` is false; only that slot of the working layer changes |
| ClientStorage.MemoryStorage.ContractState | src/client/storage.rs:42-48 | an absent slot reads as the all-zero `Bytes32`, a present one as its value |
| ClientStorage.KeysOf | src/client/storage.rs:170-180 | the filter keeps exactly the keys stored under the given contract |
| ClientStorage.EntriesOfUnique | src/client/storage.rs:170-180 | any strictly ascending listing of a contract's entries is the one the root is computed over, so the root depends only on the table's contents and not on insertion order |
| ClientStorage.EntriesOfIsolated | src/client/storage.rs:170-180 | writing or removing a slot of another contract leaves a contract's root input unchanged |
| ClientStorage.BalanceLeaves | src/client/storage.rs:137-148 | the balances root input has one 8-byte big-endian leaf per balance of the contract, in ascending color order |
| ClientStorage.BalanceLeavesIsolated | src/client/storage.rs:137-148 | writing or removing another contract's balance leaves a contract's balances root input unchanged |
| FuelTypes.SortedKeys | src/client/storage.rs:143 | `sorted_by_key` lists a key set exactly once each, in strictly ascending byte order |
| FuelTypes.SortedUnique | src/client/storage.rs:143 | a key set has exactly one strictly ascending listing |
| FuelTypes.WordRoundTrip | src/client/storage.rs:145 | `to_be_bytes` loses nothing: the eight bytes read back as the word |
| FuelTypes.Zeroed32 | src/client/storage.rs:43 | `Bytes32::zeroed()` is 32 zero bytes |
| CryptoOps.EcrecoverOverflows | src/interpreter/crypto.rs:11-16 | the check refuses exactly the operands for which `a..a+64`, `b..b+64` or `c..c+32` would leave `VM_MAX_RAM` |
| CryptoOps.HashOverflows | src/interpreter/crypto.rs:46-48 | the check refuses exactly the operands for which `a..a+32` leaves memory, `c` exceeds `MEM_MAX_ACCESS_SIZE` or `b..b+c` leaves memory |
| CryptoOps.MemWrite | src/interpreter/crypto.rs:28 | the write happens iff the context owns the whole range; it changes only those bytes, otherwise `MemoryOwnership` with nothing changed |
| CryptoOps.EcrecoverCases | src/interpreter/crypto.rs:10-41 | covers the whole handler:<br>• operands out of bounds give `MemoryOverflow` before any read, write or pc change<br>• on success the recovered key is written at `a`, or 64 zero bytes when recovery fails<br>• the error flag is cleared or set accordingly and pc advances once<br>• no other byte changes<br>• a failed write changes nothing |
| CryptoOps.HashCases | src/interpreter/crypto.rs:43-77 | operands out of bounds give `MemoryOverflow` with nothing changed; on success the digest of `memory[b..b+c]` is written at `a`, no other byte or the flag changes, and pc advances once |
| CryptoOps.HandlersAdvancePcOnlyOnSuccess | src/interpreter/crypto.rs:38-74 | each handler advances pc exactly when it succeeds, and otherwise leaves it |
| CryptoOps.Interpreter.TryMemWrite | src/interpreter/crypto.rs:28 | the write into the memory array is `MemWrite` |
| CryptoOps.Interpreter.Ecrecover | src/interpreter/crypto.rs:10-41 | the handler's result and new state are `EcrecoverSpec` |
| CryptoOps.Interpreter.Keccak256 | src/interpreter/crypto.rs:43-62 | the handler's result and new state are `HashSpec` with Keccak-256 |
| CryptoOps.Interpreter.Sha256 | src/interpreter/crypto.rs:64-77 | the handler's result and new state are `HashSpec` with SHA-256 |
| Metadata.SatAdd | fuel-vm/src/interpreter/metadata.rs:176-178 | `saturating_add` is the sum when it fits and the largest value otherwise, never less than either operand |
| Metadata.Parent | fuel-vm/src/interpreter/metadata.rs:116-119 | the parent FP exists exactly in internal context with a call frame, and is the last frame's saved FP |
| Metadata.GmValue | fuel-vm/src/interpreter/metadata.rs:106-149 | each `GM` selector gives:<br>• `GetVerifyingPredicate`: the predicate index, else `TransactionValidity`<br>• `GetChainId`, `BaseAssetId`, `TxStart`: chain id, constant offset, `tx_offset`<br>• `GetCaller`: the parent FP; `ExpectedNestedCaller` when it is 0; `ExpectedInternalContext` without a parent<br>• `IsCallerExternal`: 1 iff the parent FP is 0<br>• `GetGasPrice`: refused in both predicate contexts<br>• an unknown immediate: `InvalidMetadataIdentifier` |
| Metadata.GtfInvalidIdentifier | fuel-vm/src/interpreter/metadata.rs:346-348 | `GTF` reports `InvalidMetadataIdentifier` exactly when the immediate is no selector, `b` does not fit a u16 for `InputContractOutputIndex`, or a type-specific selector meets another transaction type |
| Metadata.GtfAddressNotBelowStart | fuel-vm/src/interpreter/metadata.rs:220-233 | every address `GTF` reports is at least `tx_offset`: the offsets saturate and never wrap |
| Metadata.GtfFieldErrors | fuel-vm/src/interpreter/metadata.rs:236-521 | input selectors fail only with `InputNotFound` (or the u16 check); output selectors fail with `OutputNotFound`, except `OutputContractInputIndex`, which reports `InputNotFound` |
| Metadata.WitnessDataAfterLength | fuel-vm/src/interpreter/metadata.rs:529-533 | `WitnessData` exists iff witness `b` does; it is the witness address plus `WORD_SIZE`, saturating (exactly `tx_offset + offset + 8` when that fits); otherwise `WitnessNotFound` |
| Metadata.GtfCountAliases | fuel-vm/src/interpreter/metadata.rs:209-214 | the `Script`, `Create` and `Tx` spellings of the input and output counts agree and give the list lengths |
| Metadata.GtfInputAtIndex | fuel-vm/src/interpreter/metadata.rs:218-221 | the three spellings of the input address agree; it is `InputNotFound` iff there is no input `b`, and otherwise `tx_offset` plus the input's offset, saturating |
| Metadata.GtfPolicies | fuel-vm/src/interpreter/metadata.rs:184-208 | a policy selector gives the policy's value, or `PolicyIsNotSet` when the policy is absent; `ScriptGasLimit` gives the script's gas limit, or 0 for another type |
| Metadata.IncPc | fuel-vm/src/interpreter/metadata.rs:147 | `inc_pc` moves pc by 4, and is `MemoryOverflow` when that would overflow a word |
| Metadata.WriteAndAdvance | fuel-vm/src/interpreter/metadata.rs:59-102 | the effect of both instructions on the registers:<br>• a system register is refused before any lookup<br>• a failed lookup changes no register<br>• otherwise `ra` is written, then pc advances by 4<br>• no other register changes<br>• the write stays when advancing pc overflows |
| Metadata.TxSize | fuel-vm/src/interpreter/metadata.rs:84-90 | the transaction length is the big-endian word in the eight bytes just below `tx_offset` |
| Metadata.Interpreter.Metadata | fuel-vm/src/interpreter/metadata.rs:59-75 | `GM ra imm` changes the registers as `WriteAndAdvance` of `GmValue` |
| Metadata.Interpreter.GetTransactionField | fuel-vm/src/interpreter/metadata.rs:77-102 | `GTF ra b imm` changes the registers as `WriteAndAdvance` of `GtfValue`, with the length read from memory below the transaction |
| Diff.CaptureVecFrom | fuel-vm/src/interpreter/diff/tests.rs:151-165 | every reported entry is a position below the longer length where the vectors differ, with each side's value (`None` past its end); entries are in strictly ascending order |
| Diff.CaptureVecComplete | fuel-vm/src/interpreter/diff/tests.rs:151-165 | every position where the vectors differ is reported |
| Diff.CaptureVecCounts | fuel-vm/src/interpreter/diff/tests.rs:151-165 | equal vectors give no entries; vectors that differ at every position give one entry per position, up to the longer length |
| Diff.CaptureMap | fuel-vm/src/interpreter/diff/tests.rs:167-187 | a key is reported iff it is in either map and its entries differ, with `None` on the side lacking it |
| Diff.CaptureMapIdentity | fuel-vm/src/interpreter/diff/tests.rs:167 | a map compared with itself gives no entries |
| Diff.InvertedVec | fuel-vm/src/interpreter/diff/tests.rs:189-206 | `invert_vec` behaves as follows:<br>• a value below the length overwrites only that element<br>• a value at or past the length extends the vector, filling every new slot up to the index with the value<br>• `None` truncates to `min(index, len)` |
| Diff.InvertVecTable | fuel-vm/src/interpreter/diff/tests.rs:189-200 | all twelve rows of the `invert_vec` test table, each input with its expected vector |
| Diff.InvertedMap | fuel-vm/src/interpreter/diff/tests.rs:208-226 | `invert_map` gives the key the recorded value (removing it for `None`) and no other key changes |
| Diff.RestoreCapturedVec | fuel-vm/src/interpreter/diff/tests.rs:109-149 | inverting, in order, every difference captured between desired and latest turns latest back into desired |
| Diff.RestoreCapturedMap | fuel-vm/src/interpreter/diff/tests.rs:228-282 | inverting every captured map difference, in any order, turns latest back into desired |
| Diff.StateVec.Invert | fuel-vm/src/interpreter/diff/tests.rs:202-206 | the in-place `invert_vec` leaves `InvertedVec` of the old vector |
| Diff.StateVec.Restore | fuel-vm/src/interpreter/diff/tests.rs:109-149 | inverting the differences in turn, in place, leaves `RestoreVec` of the old vector |
| Diff.StateMap.Invert | fuel-vm/src/interpreter/diff/tests.rs:220-226 | the in-place `invert_map` leaves `InvertedMap` of the old map |
| Diff.StateMap.Restore | fuel-vm/src/interpreter/diff/tests.rs:228-282 | inverting the changes in turn, in place, leaves `RestoreMap` of the old map |
| ContractCode.PadWord | src/interpreter/contract.rs:17-28 | a chunk is copied to the front of an 8-byte word whose remaining bytes are zero |
| ContractCode.CodeWords | src/interpreter/contract.rs:17-28 | the root input has `ceil(len / 8)` words of 8 bytes; byte `j` of word `i` is code byte `8i + j`, or 0 past the end |
| ContractCode.CodeWordsFlatten | src/interpreter/contract.rs:18-25 | the joined words are a multiple of 8 long and start with the code, followed by fewer than 8 zero bytes |
| ContractCode.TrailingZeroSharesRoot | src/interpreter/contract.rs:17-28 | a zero byte appended inside the last partial word changes neither the words nor the root |
| ContractCode.IdPreimage | src/interpreter/contract.rs:30-38 | the id hashes 68 bytes: `SEED`, then the salt, then the root |
| ContractCode.IdPreimageInjective | src/interpreter/contract.rs:30-38 | distinct (salt, root) pairs give distinct preimages |
| ContractCode.ConversionRoundTrip | src/interpreter/contract.rs:41-63 | `Vec` to `Contract` to `Vec` is the identity, and so is the reverse |
| ContractCode.TryFromTransaction | src/interpreter/contract.rs:77-94 | a `Create` gives the witness at `bytecode_witness_index`, or `TransactionCreateBytecodeWitnessIndex` when that is out of range; any other kind gives `TransactionScriptOutputContractCreated { index: 0 }` |
| ContractCode.ContractOf | src/interpreter/contract.rs:100-102 | finds the stored contract under the id, if any |
| ContractCode.ContractExists | src/interpreter/contract.rs:104-109 | true exactly when the contract lookup finds one |
| ContractCode.Balance | src/interpreter/contract.rs:111-113 | an absent balance reads as 0, a present one as its value |
| OutputValidation.Validate | fuel-tx/tests/valid_cases/output.rs:15-95 | an output is valid iff it is not a `Contract` output, or its `input_index` names an existing contract input; otherwise the error is `OutputContractInputIndex` with the output's own index |
| OutputValidation.ValidateCases | fuel-tx/tests/valid_cases/output.rs:5-135 | the validation tests: non-contract outputs are valid with no inputs; a contract output pointing at a contract input is valid; one pointing at a coin input or past the end fails with its own index |

## Left out

- Hash and signature primitives are function parameters and are not modelled. This covers `leaf_sum`, `node_sum`, `empty_sum`, Keccak-256, SHA-256, the `Hasher`, secp256k1 recovery and `ephemeral_merkle_root`.
- The memory-ownership predicate behind `try_mem_write`/`try_zeroize` is a parameter. Its definition sits with the call frames, which are not part of this model. `try_mem_write` is not part of this model either, so the error it returns for a range the context does not own is inferred: the model uses `MemoryOwnership`.
- `MerkleRootCalculator` and `Position::path` are not part of this model. Their behaviour is inferred:
  - the stack merges equal heights;
  - a path level whose right half holds no leaf has no side node;
  - a partly filled side subtree stands for its left part.
  - `Position::parent` of a lower peak is the node `2^height` keys to its right, that is, every lower peak in the stack is a left child. This holds for every stack built by `push` or loaded from storage that pushes wrote. `FoldPeaks` and `Merged` (the merge in `PushSpec`) take `key + Pow2(height)` as the parent key.
  With these, `ProveOneLeaf`, `ProveFourLeaves`, `ProveFiveLeaves` and `ProveSevenLeaves` derive the roots and proof sets of the 1-, 4-, 5- and 7-leaf tests of `prove`.
- The Merkle tree's `StorageError` is absent, because the storage is a map that cannot fail. Storage errors from `push`'s callback are therefore not modelled.
- BinaryMerkle.ProveSpec: requires `ProvableAt`. This is the condition under which the three `expect`s in `prove` (fuel-merkle/src/binary/merkle_tree.rs:253, 255 and 268) do not panic. A tree built by pushes always meets it (`ProveRepresents`, `ProveComplete`).
- BinaryMerkle.MerkleTree.Root: requires `RootNodeSpec(nodes).Ok?`. This is the `expect` in `root` (fuel-merkle/src/binary/merkle_tree.rs:72). A tree built by pushes always meets it (`RootRepresents`).
- BinaryMerkle.RootPosition: for counts from 2^63 to 2^64 - 2, `next_power_of_two` of the count plus one overflows in Rust. Debug builds panic. Release builds return 0, and subtracting 1 wraps to `u64::MAX`. The model's unbounded `Pow2(64) - 1` equals that wrapped value, and it does not model the debug panic. Trees built by pushes never reach these counts.
- It is not proved that a proof set verifies against the root, because the verifier is not part of this model. `ProveResult` and `ProveComplete` state what the set is made of: the reference roots of the side subtrees, from the leaf up.
- `block_hash` (src/client/storage.rs:190-192) is not modelled. It is the hash of the height's bytes, and the hash is a parameter.
- `Cow`, `Infallible` and the storage trait plumbing are not modelled.
- ClientStorage.MemoryStorage.BalanceRoot: carries no contract of its own. It is the Merkle-root parameter applied to `BalanceLeaves`, whose contract and isolation lemmas state the property.
- ClientStorage.MemoryStorage.StateRoot: likewise, over `EntriesOf` (`EntriesOfUnique`, `EntriesOfIsolated`).
- ClientStorage.MemoryStorage.BlockHeight and `Coinbase` return the stored fields and carry no contract.
- ContractCode.Root and `ContractCode.Id` carry no contract of their own. They apply the hash parameters to `CodeWords` and `IdPreimage`, whose contracts state what is hashed and in which order.
- CryptoOps.IncPc: the older `inc_pc` is not part of this model. It is modelled as wrapping at 2^64 and has no error path.
- Metadata.IncPc: the newer `inc_pc` is checked, and it reports an overflowing pc as `MemoryOverflow`.
- The following constants come from files that are not part of this model:
  - `VM_MAX_RAM` = 64 MiB and `MEM_MAX_ACCESS_SIZE` = `VM_MAX_RAM`;
  - `VM_MEMORY_BASE_ASSET_ID_OFFSET` = 0;
  - 16 system registers, with pc at index 3;
  - `SEED` = "FUEL";
  - `is_internal` meaning a contract call.
- Metadata.GtfValue: the `to_usize` conversion of `b` (fuel-vm/src/interpreter/metadata.rs:170) never fails on a 64-bit `usize`, so that error path is not modelled.
- The serialized offsets of transaction fields come from fuel-tx, which is not part of this model. The transaction is modelled by those offsets and field values.
- Decoding the `Immediate12`/`Immediate18` into `GTFArgs`/`GMArgs` is modelled as an `Option`, where `None` means an unknown selector.
- Metadata.Interpreter.GetTransactionField: requires `8 <= tx_offset <= |memory|`. This is the source's `expect("Tx offset is not valid")` and `expect("Tx length not in memory")`.
- Whole-`Interpreter` equality and `reset_vm_state` are not modelled. The restore lemmas cover one vector and one map at a time.
- The end-to-end scripts of fuel-vm/src/tests/crypto.rs and fuel-vm/src/tests/outputs.rs are not modelled, and neither is the module list of fuel-vm/src/lib.rs.

## Findings

| source | as written | input that shows it | evidently intended | confidence | as-written member | corrected member |
|---|---|---|---|---|---|---|
| fuel-merkle/src/binary/merkle_tree.rs:289-291 | `reset` clears the node stack but keeps `leaves_count` | Push 4 leaves, then `reset`. `root()` is `empty_sum` but `leaves_count()` is still 4. `prove(0)` passes the index check and reaches the `expect` on an empty root node. The next push stores leaf 4 at key 8 instead of leaf 0 at key 0. | Revert to the empty tree, with no nodes and `leaves_count` 0, as the test `reset_reverts_tree_to_empty_state` names it | medium, not executed | BinaryMerkle.ResetAsWrittenKeepsCount | BinaryMerkle.ResetThenPush |
