# luna-vdb index engine, modelled in Dafny

luna-vdb is a small vector store compiled to WebAssembly. Its engine keeps
two structures side by side:

- a kd-tree of 1024-dimensional points. Each point is tagged with the 64-bit
  hash of an identifier.
- a hash map from that 64-bit key back to the identifier.

The engine offers these operations:

- `index`: bulk build.
- `search`: k nearest neighbours, translated back to identifiers.
- `add`: single insert that refuses duplicates.
- `remove`: all-or-nothing removal.
- `size`: the map length, after an assertion that the tree has as many items.
- `clear`.
- `dump` and `load`: serialisation.

The `LunaVDB` handle owns one index. It forwards these calls to the engine,
and applies a batch `add` item by item.

The model has these parts:

- `wrappers.dfy`: `Option` and `Outcome`. `Outcome` is Rust's
  `Result<(), E>`.
- `types.dfy`: the constants, the error type and the `Index` class (its
  `tree` and `hash` are updated in place). It also defines the invariants:
  - `Consistent` is the count equality that `size` asserts (the tree has as
    many items as the map has entries), strengthened by "every tree key is a
    map key".
  - `Coherent` is the inductive strengthening: tree keys are unique and equal
    the map's key set.
  - `MapSound` says every map entry is stored under its own identifier's hash.
- `engine_spec.dfy`: a pure function for each engine operation (`Built`,
  `Added`, `Removed`, `Cleared`, `SizeOf`, `SearchResult`) and the lemmas
  about them.
- `engine.dfy`: the engine operations as methods on an `Index`, with the
  source's loops. Each method is proved to compute its function.
- `luna_vdb.dfy`: the `LunaVDB` class, the batch function `AddAll` and its
  lemmas.

Modelling choices:

- The tree is the multiset of its `(point, key)` items.
- A coordinate is the 32-bit pattern of an `f32`. The engine only copies
  coordinates and pads with `0.0`, it never computes on them.
- A point is a coordinate sequence of length exactly 1024 (`[f32; 1024]`).
- The identifier hash (`super::hash`) is a function parameter `h` of the
  engine operations. A `LunaVDB` handle fixes it once, in its constant field
  `h`, and every method uses that field.
- The library's `nearest_n` is a function parameter `nearest`. Its assumed
  contract is: at most `k` items, all drawn from the tree.
  `NearestCount` optionally adds that exactly `min(k, size)` items come back.
- A panic (`unwrap` on an engine error, the `assert_eq!` in `size`) is a
  `Fail` or `None` result. The index keeps the state it had reached when the
  panic occurred.

The invariant is strengthened because `Consistent` alone is not kept by
`remove`. Take a tree with two items under key `k1` and a map holding `k1`
and `k2`, which is `Consistent`. Removing two ids, one hashing to
`k1` and one to an absent `k3`, collects the two `k1` items. The counts
match, so the removal succeeds. It leaves an empty tree and a map still
holding `k2`. `Coherent` implies `Consistent` (`CoherentIsConsistent`).
It holds after `new(None)` and `clear` (`NewEmpty`, `ClearedEmpty`), and
after `new` or `index` on a batch whose ids hash to pairwise distinct keys
(`BuiltFromCoherentIff`). It is kept by every `add`, of a single item or of
a batch, whether it succeeds or stops at a duplicate (`AddedPreservesCoherent`,
`AddAllPreservesCoherent`). It is also kept by every `remove`
(`RemovedPreservesCoherent`). A batch with two ids that hash alike, given to
`new` or `index`, reaches a state outside it (`RepeatedIdBreaksSize`).

Two behaviours of the code that a caller may not expect, which the model keeps
as written:

- Duplicate identifiers in a bulk `index`. The evident intent is "last write
  wins": one entry per identifier, and a size that counts them. In the code,
  `index` inserts every pair into the tree but overwrites the map entry, so
  the tree ends up with more items than the map, and `size` then aborts in
  its `assert_eq!` (`RepeatedIdBreaksSize`, `BuiltFromCoherentIff`).
- Removing an id listed twice. The code hashes every listed id. In an index
  that keeps the invariant (`Coherent`) the tree holds one item per key, so
  the counts differ and removal fails with "not found" even though the id is
  present (`RemoveRepeatedIdFails`). Outside the invariant the same call can
  succeed. After `index` on two pairs with one id, the tree holds two items
  under that key, so removing the id listed twice collects two items for two
  hashes and empties the index (`RepeatedIdRemoveTwice`).

## Model

| member | source | states |
|---|---|---|
| Types.NewError | src/engine/types.rs:31-35 | the error carries exactly the message it was built with |
| Types.Display | src/engine/types.rs:37-41 | the displayed text is the message |
| EngineSpec.Resize | src/engine/engine.rs:16-18 | `Vec::resize`: the result has length `n`, keeps the first `min(n, len)` values and pads the rest with the fill value |
| EngineSpec.NormaliseSpec | src/engine/engine.rs:16-22 | a normalised embedding has 1024 coordinates, agrees with the input on the first `min(1024, len)` positions and is 0.0 after the input's end |
| EngineSpec.NormaliseExact | src/engine/engine.rs:16-18 | an embedding of exactly 1024 values is stored unchanged, so skipping the resize is correct |
| EngineSpec.NormalisePadding | src/engine/engine.rs:66-70 | padding an input with zeros does not change the stored point |
| EngineSpec.HashIds | src/engine/engine.rs:81 | `hash_ids` has one key per id, position by position |
| EngineSpec.DistinctCard | src/engine/engine.rs:81-90 | the number of distinct hashed keys is at most the number of ids, with equality exactly when no two ids hash alike |
| EngineSpec.KeepKeys | src/engine/engine.rs:83-88 | the scan collects, with multiplicity, exactly the tree items whose key is among the hashed ids |
| EngineSpec.KeepKeysFacts | src/engine/engine.rs:83-88 | the collected items are part of the tree, their keys are the tree keys that were asked for, and no item left behind has such a key |
| EngineSpec.UniqueKeysCard | src/engine/engine.rs:102-105 | with unique keys the tree has as many items as distinct keys |
| EngineSpec.CoherentIsConsistent | src/engine/engine.rs:102-105 | the invariant implies the counts `size` compares are equal, so `size` returns the tree's item count |
| EngineSpec.Entries | src/engine/engine.rs:12-24 | position `i` contributes the item (normalised `data[i]`, `hash(ids[i])`) |
| EngineSpec.BuiltTree | src/engine/engine.rs:8-29 | the built tree holds exactly one item per input position |
| EngineSpec.BuiltKeys | src/engine/engine.rs:20-25 | the built map's keys are the hashes of the ids used |
| EngineSpec.BuiltAgrees | src/engine/engine.rs:20-25 | the built map is keyed by exactly the tree's keys, and each entry sits under its own id's hash |
| EngineSpec.BuiltLastWins | src/engine/engine.rs:25 | for a key, the map keeps the id of the last position with that hash |
| EngineSpec.BuiltCoherentIff | src/engine/engine.rs:8-29 | a built index satisfies the invariant, and equally `Consistent`, exactly when the ids' hashes are pairwise distinct |
| EngineSpec.BuiltUnique | src/engine/engine.rs:8-29 | with distinct hashes the built tree has unique keys |
| EngineSpec.AddedFresh | src/engine/engine.rs:55-76 | a fresh key succeeds, gains one map entry and one tree item (the normalised point), and both counts grow by one |
| EngineSpec.AddedPreservesConsistent | src/engine/engine.rs:55-76 | add keeps `Consistent` |
| EngineSpec.AddedPreservesCoherent | src/engine/engine.rs:55-76 | add keeps the invariant and the map's soundness |
| EngineSpec.RemovedSuccess | src/engine/engine.rs:78-100 | after a successful removal the tree shrank by the number of ids, no remaining item has a removed key, and the collected keys are gone from the map; every surviving map entry is an old one with its old value, and every old entry whose key is not among the hashed ids survives with its value |
| EngineSpec.RemoveSucceedsIff | src/engine/engine.rs:81-92 | under the invariant removal succeeds exactly when the hashed ids are pairwise distinct and every one is a key |
| EngineSpec.CollectedCount | src/engine/engine.rs:83-90 | under the invariant the scan collects as many items as asked-for keys present in the map |
| EngineSpec.RemoveRepeatedIdFails | src/engine/engine.rs:81-92 | under the invariant (`Coherent`), an id listed twice makes removal fail with the "not found" error and change nothing |
| EngineSpec.RemovedPreservesCoherent | src/engine/engine.rs:94-97 | remove keeps the invariant and the map's soundness; on success the map shrank by the number of ids |
| EngineSpec.RemovedKeysAgree | src/engine/engine.rs:94-97 | under the invariant (`Coherent`), deleting a part of the tree and that part's keys from the map leaves the map keyed by exactly the remaining tree keys |
| EngineSpec.ClearedEmpty | src/engine/engine.rs:107-110 | clear leaves the empty index, the same state as `new(None)`; it satisfies the invariant and has size 0 |
| EngineSpec.TranslateBounds | src/engine/engine.rs:42-52 | the result is no longer than the neighbour list and holds only ids from the map |
| EngineSpec.TranslateAllMapped | src/engine/engine.rs:44-50 | the result has one id per neighbour exactly when every neighbour's key is mapped, and then position `i` is the id of neighbour `i` |
| EngineSpec.SearchResultFacts | src/engine/engine.rs:31-53 | search returns at most `k` ids, all from the map; when every tree key is mapped it returns the ids of the neighbours, one per neighbour and in order |
| EngineSpec.SearchResultHashes | src/engine/engine.rs:44-50 | when every tree key is mapped and each entry sits under its own id's hash, the `i`-th returned id hashes to the `i`-th neighbour's key |
| EngineSpec.SearchExactCount | src/engine/engine.rs:40-52 | under the invariant, and if the library returns `min(k, size)` neighbours, search returns `min(k, size)` ids |
| EngineSpec.Normalise | src/engine/engine.rs:16-18 | the point stored for an embedding: resized to 1024 coordinates with 0.0 padding (also engine.rs:34-36 and 66-70; its meaning is `NormaliseSpec`) |
| EngineSpec.Built | src/engine/engine.rs:8-29 | the state `index` builds: each position inserted in order into an empty tree and map (its properties are `BuiltTree` to `BuiltUnique`) |
| EngineSpec.Inserted | src/engine/engine.rs:24-25 | `tree.add` of the item and `insert` of the map entry, overwriting an entry with the same key |
| EngineSpec.Added | src/engine/engine.rs:55-76 | the outcome and state of `add`: the duplicate error and no change when the key is present, otherwise one insertion (its properties are `AddedFresh` and the two preservation lemmas) |
| EngineSpec.DuplicateError | src/engine/engine.rs:63 | the message `Id <id> already exists` |
| EngineSpec.Removed | src/engine/engine.rs:78-100 | the outcome and state of `remove`: failure with no change unless the scan collects exactly as many items as ids, otherwise the collected items and their keys deleted (its properties are `RemovedSuccess`, `RemoveSucceedsIff` and `RemovedPreservesCoherent`) |
| EngineSpec.NotFoundError | src/engine/engine.rs:91 | the message `The ids <ids joined by ","> not found` |
| EngineSpec.Join | src/engine/engine.rs:91 | `ids.join(sep)`: the parts with the separator between consecutive ones |
| EngineSpec.Cleared | src/engine/engine.rs:107-110 | the empty tree and map (its properties are `ClearedEmpty`) |
| EngineSpec.SizeOf | src/engine/engine.rs:102-105 | the map length when the tree has as many items, `None` when the assertion would abort (its properties are `CoherentIsConsistent`) |
| EngineSpec.Translate | src/engine/engine.rs:44-50 | the neighbours' keys resolved through the map in order, unmapped ones dropped (its properties are `TranslateBounds` and `TranslateAllMapped`) |
| EngineSpec.SearchResult | src/engine/engine.rs:31-52 | `Translate` over the library's neighbours of the normalised query (its properties are `SearchResultFacts`, `SearchResultHashes` and `SearchExactCount`) |
| LunaVdb.BuiltFrom | src/wasm/luna_vdb.rs:23-29 | the index `engine::index` builds from the unzipped batch (its properties are `BuiltFromCoherentIff`) |
| LunaVdb.AddAll | src/wasm/luna_vdb.rs:48-52 | `engine::add` on each item in order, stopping at the first failure with the state reached so far (its properties are the `AddAll` lemmas) |
| LunaVdb.LunaVDB.FromIndex | src/wasm/luna_vdb.rs:73 | a handle wrapping the given index, with the given hash |
| Types.Index.constructor | src/engine/types.rs:20-24 | an `Index` holding exactly the given tree and map |
| Engine.BuildIndex | src/engine/engine.rs:8-29 | the loop builds a fresh index whose state is `Built(data, ids)` |
| Engine.Search | src/engine/engine.rs:31-53 | the loop computes `SearchResult`: at most `k` ids, all from the map, and one per neighbour when every tree key is mapped |
| Engine.Add | src/engine/engine.rs:55-76 | the new state and outcome are `Added`; it fails exactly when the key is present, and then with the duplicate message and no change |
| Engine.Remove | src/engine/engine.rs:78-100 | the scan loop and the delete loop compute `Removed`: fail with the "not found" message and no change, or delete exactly the collected items and keys |
| Engine.Size | src/engine/engine.rs:102-105 | the map length when the two counts agree, `None` (the assertion aborts) exactly when they differ |
| Engine.Clear | src/engine/engine.rs:107-110 | the index becomes empty |
| Engine.Dump | src/engine/engine.rs:112-117 | the result is the codec's encoding of the current state |
| Engine.Load | src/engine/engine.rs:119-125 | a fresh index holding the decoded state, or `None` exactly when decoding fails |
| LunaVdb.Unzip | src/wasm/luna_vdb.rs:23-27 | two aligned sequences of the same length holding each pair's embedding and id |
| LunaVdb.AddAllSticky | src/wasm/luna_vdb.rs:48-52 | once an item has failed, the rest of the batch is not applied |
| LunaVdb.AddAllStopsAtDuplicate | src/wasm/luna_vdb.rs:48-52 | at the first item whose hash is already a key, the batch aborts with its duplicate error; earlier items stay inserted, later ones are not |
| LunaVdb.AddAllFreshKeys | src/wasm/luna_vdb.rs:48-52 | a batch of pairwise distinct, absent hashes goes through and adds exactly those keys |
| LunaVdb.AddAllFresh | src/wasm/luna_vdb.rs:48-52 | such a batch keeps the invariant and the map's soundness, and the map grows by the batch length |
| LunaVdb.AddAllPreservesCoherent | src/wasm/luna_vdb.rs:48-52 | any batch, whether it goes through or stops at a duplicate, keeps the invariant and the map's soundness |
| LunaVdb.NewEmpty | src/wasm/luna_vdb.rs:18-29 | `new(None)` is the empty index, of size 0 |
| LunaVdb.BuiltFromCoherentIff | src/wasm/luna_vdb.rs:23-29 | building from a batch gives a sound map, and the invariant and size equal to the batch length exactly when the hashes are distinct |
| LunaVdb.RepeatedIdBreaksSize | src/engine/engine.rs:20-25 | two pairs with one id give two tree items, one map entry, and a size check that aborts |
| LunaVdb.RepeatedIdRemoveTwice | src/engine/engine.rs:78-100 | from the index built from two pairs with one id, removing that id listed twice succeeds and leaves the index empty |
| LunaVdb.AddToNew | src/wasm/luna_vdb.rs:48-52 | adding one pair to a new handle succeeds and stores exactly its normalised point and its map entry |
| LunaVdb.RemoveOnlyItem | src/engine/engine.rs:78-100 | removing the only id of an index succeeds and leaves it empty |
| LunaVdb.RemoveFromEmpty | src/engine/engine.rs:90-92 | removing ids from an empty index fails with the "not found" error listing them, and changes nothing |
| LunaVdb.AddThenRemove | tests/web.rs:166-184 | on a new handle, adding `"3"` gives size 1, removing `["3"]` succeeds with size 0, and removing it again fails with nothing changed |
| LunaVdb.LunaVDB.constructor | src/wasm/luna_vdb.rs:15-31 | the handle keeps the given hash and a fresh index built from the given batch, or from an empty one when none is given |
| LunaVdb.LunaVDB.Reindex | src/wasm/luna_vdb.rs:33-42 | the owned index is replaced by a fresh one built from the batch |
| LunaVdb.LunaVDB.Search | src/wasm/luna_vdb.rs:44-46 | the engine's search result: at most `k` ids, all from the map |
| LunaVdb.LunaVDB.Add | src/wasm/luna_vdb.rs:48-52 | the loop computes `AddAll`; the outcome and the state it leaves are those of the items up to the first failure |
| LunaVdb.LunaVDB.Remove | src/wasm/luna_vdb.rs:54-56 | the engine's removal; a failure leaves the index unchanged |
| LunaVdb.LunaVDB.Clear | src/wasm/luna_vdb.rs:58-60 | the index becomes empty |
| LunaVdb.LunaVDB.Size | src/wasm/luna_vdb.rs:62-64 | the engine's size, `None` when its assertion aborts |
| LunaVdb.LunaVDB.Serialize | src/wasm/luna_vdb.rs:66-68 | the codec's encoding of the current state |
| LunaVdb.LunaVDB.Deserialize | src/wasm/luna_vdb.rs:70-74 | a fresh handle, with the given hash, over a fresh index holding the decoded state, or `None` exactly when decoding fails |

## Left out

- The kd-tree library's layout and distance ordering are not modelled. The tree is the multiset of its items. `nearest_n` is a parameter, and the model relies only on its assumed contract (at most `k` items drawn from the tree), so the ranking by squared Euclidean distance is not modelled.
- Failure modes inside the kd-tree library are not modelled, because its code is not part of this model. Two examples: its `remove` compares points with floating-point `==`, so a point with a NaN coordinate would stay in the tree while its key leaves the map, after which `size` aborts; and it panics when more points than the bucket size share one value on a split axis, which zero-padded short embeddings make likely.
- The tree's iteration order is unspecified: the `remove` scan picks items in an arbitrary order. The collected items are proved equal as a multiset, not as a sequence.
- Tree removal is modelled as deleting one matching item per collected item. Every copy of an item is collected, so the end state is the same as deleting all copies at once.
- The identifier hash is a parameter. Its concrete algorithm lives outside the core files, and collisions are allowed.
- The codec (bincode serialisation inside a gzip stream) is a pair of parameters. Its byte format is not modelled, and no round-trip `load(dump(x)) == x` is stated, because it depends on the library.
- Floating-point values are only copied and padded, so they are modelled as 32-bit patterns. No arithmetic on them is modelled.
- `usize` and `u64` counts are unbounded integers. Sizes near 2^64 are not modelled.
- The WebAssembly bindings are not modelled: `set_panic_hook`, the JavaScript conversions of `TopK`, `SearchResult` and `SerializedIndex`, and the release scripts.
- Panics are `Fail` or `None` results, not process aborts. A panicking handle method returns them instead of unwinding.
- Engine.BuildIndex: requires at least as many ids as embeddings. The source indexes `ids[i]` for every `i < data.len()` and would panic otherwise, and the handle always passes two sequences of equal length.
- The tests' `assert!(luna_vdb.remove(ids))` at tests/web.rs:182 expects a boolean from `remove`, which returns unit. `AddThenRemove` states the intended success instead.
- The handle's `add` passes `res.id` by value where the engine expects a reference. The model passes the identifier.
