/**
 * The `LunaVDB` handle: it owns one engine `Index` in a field, rebuilds it
 * on `index`, and forwards every other call to the engine, applying a batch
 * of additions item by item and aborting at the first failure.
 *
 * A panic of the source (an `unwrap` of an engine error, the size
 * assertion) is modelled as a `Fail` or `None` result; the index keeps the
 * state it had reached when the panic occurred.
 */
module LunaVdb {
  import opened Wrappers
  import opened Types
  import opened EngineSpec
  import Engine

  /** One (identifier, embedding) pair handed to the handle. */
  datatype EmbeddedResource = EmbeddedResource(id: Id, embeddings: Embedding)

  /** A batch of pairs. */
  datatype Resource = Resource(embeddings: seq<EmbeddedResource>)

  /** `.map(|res| (res.embeddings, res.id)).unzip()`: two aligned sequences, position by position. */
  function Unzip(items: seq<EmbeddedResource>): (r: (seq<Embedding>, seq<Id>))
    ensures |r.0| == |items| && |r.1| == |items|
    ensures forall i | 0 <= i < |items| :: r.0[i] == items[i].embeddings && r.1[i] == items[i].id
    decreases |items|
  {
    if items == [] then ([], [])
    else
      var rest := Unzip(items[1..]);
      ([items[0].embeddings] + rest.0, [items[0].id] + rest.1)
  }

  /** The index `engine::index` builds from a batch. */
  function BuiltFrom(items: seq<EmbeddedResource>, h: Id -> Key): IndexState
  {
    var pair := Unzip(items);
    Built(pair.0, pair.1, h)
  }

  /** `LunaVDB::add`: `engine::add` on each item in order, stopping at the first failure. */
  function AddAll(s: IndexState, items: seq<EmbeddedResource>, h: Id -> Key): (Outcome<EngineError>, IndexState)
    decreases |items|
  {
    if items == [] then (Pass, s)
    else
      var n := |items| - 1;
      var prefix := AddAll(s, items[..n], h);
      if prefix.0.Fail? then prefix
      else Added(prefix.1, items[n].id, items[n].embeddings, h)
  }

  /** Once a prefix of the batch has failed, the rest of the batch is not applied. */
  lemma {:induction false} AddAllSticky(s: IndexState, items: seq<EmbeddedResource>, j: nat, h: Id -> Key)
    requires j <= |items|
    requires AddAll(s, items[..j], h).0.Fail?
    ensures AddAll(s, items, h) == AddAll(s, items[..j], h)
    decreases |items|
  {
    if j < |items| {
      var n := |items| - 1;
      assert items[..n][..j] == items[..j];
      AddAllSticky(s, items[..n], j, h);
    } else {
      assert items[..j] == items;
    }
  }

  /**
   * At the first item whose hash is already a key, the batch aborts: the
   * items before it stay inserted, it and the later ones are not.
   */
  lemma AddAllStopsAtDuplicate(s: IndexState, items: seq<EmbeddedResource>, j: nat, h: Id -> Key)
    requires j < |items|
    requires AddAll(s, items[..j], h).0.Pass?
    requires h(items[j].id) in AddAll(s, items[..j], h).1.hash
    ensures AddAll(s, items, h) == (Fail(DuplicateError(items[j].id)), AddAll(s, items[..j], h).1)
  {
    assert items[..j + 1][..j] == items[..j];
    AddAllSticky(s, items, j + 1, h);
  }

  /** The hashes of a batch's ids. */
  ghost function BatchKeys(items: seq<EmbeddedResource>, h: Id -> Key): set<Key>
  {
    set i | 0 <= i < |items| :: h(items[i].id)
  }

  /** No two ids of the batch hash alike. */
  ghost predicate BatchDistinct(items: seq<EmbeddedResource>, h: Id -> Key)
  {
    forall i, j | 0 <= i < j < |items| :: h(items[i].id) != h(items[j].id)
  }

  /** Splitting the last item off a batch of distinct hashes. */
  lemma BatchSplit(items: seq<EmbeddedResource>, h: Id -> Key)
    requires items != [] && BatchDistinct(items, h)
    ensures BatchDistinct(items[..|items| - 1], h)
    ensures BatchKeys(items, h) == BatchKeys(items[..|items| - 1], h) + {h(items[|items| - 1].id)}
    ensures h(items[|items| - 1].id) !in BatchKeys(items[..|items| - 1], h)
  {
    var n := |items| - 1;
    var prefix := items[..n];
    forall k | k in BatchKeys(items, h)
      ensures k in BatchKeys(prefix, h) + {h(items[n].id)}
    {
      var i :| 0 <= i < |items| && h(items[i].id) == k;
      if i < n {
        assert prefix[i] == items[i];
      }
    }
    forall k | k in BatchKeys(prefix, h)
      ensures k in BatchKeys(items, h)
    {
      var i :| 0 <= i < n && h(prefix[i].id) == k;
      assert prefix[i] == items[i];
    }
    forall i | 0 <= i < n
      ensures h(prefix[i].id) != h(items[n].id)
    {
      assert prefix[i] == items[i];
    }
    forall i, j | 0 <= i < j < n
      ensures h(prefix[i].id) != h(prefix[j].id)
    {
      assert prefix[i] == items[i] && prefix[j] == items[j];
    }
  }

  /**
   * A batch whose hashes are distinct and not yet keys is added in full, and
   * the map gains exactly the batch's hashes as keys.
   */
  lemma {:induction false} AddAllFreshKeys(s: IndexState, items: seq<EmbeddedResource>, h: Id -> Key)
    requires BatchDistinct(items, h)
    requires forall k | k in BatchKeys(items, h) :: k !in s.hash
    ensures AddAll(s, items, h).0 == Pass
    ensures AddAll(s, items, h).1.hash.Keys == s.hash.Keys + BatchKeys(items, h)
    decreases |items|
  {
    if items != [] {
      var n := |items| - 1;
      BatchSplit(items, h);
      AddAllFreshKeys(s, items[..n], h);
      assert h(items[n].id) in BatchKeys(items, h);
      AddAllFreshStep(s, items, h);
    }
  }

  /** One more item with a fresh hash goes through and adds its hash to the keys. */
  lemma AddAllFreshStep(s: IndexState, items: seq<EmbeddedResource>, h: Id -> Key)
    requires items != []
    requires AddAll(s, items[..|items| - 1], h).0 == Pass
    requires h(items[|items| - 1].id) !in AddAll(s, items[..|items| - 1], h).1.hash
    ensures AddAll(s, items, h).0 == Pass
    ensures AddAll(s, items, h).1.hash.Keys
         == AddAll(s, items[..|items| - 1], h).1.hash.Keys + {h(items[|items| - 1].id)}
  {
    var n := |items| - 1;
    var t := AddAll(s, items[..n], h).1;
    AddedFresh(t, items[n].id, items[n].embeddings, h);
  }

  /**
   * A batch whose hashes are distinct and not yet keys keeps the invariant,
   * and the map grows by the batch length (so does the size, by
   * EngineSpec.CoherentIsConsistent).
   */
  lemma {:induction false} AddAllFresh(s: IndexState, items: seq<EmbeddedResource>, h: Id -> Key)
    requires Coherent(s) && MapSound(s, h)
    requires BatchDistinct(items, h)
    requires forall k | k in BatchKeys(items, h) :: k !in s.hash
    ensures AddAll(s, items, h).0 == Pass
    ensures Coherent(AddAll(s, items, h).1) && MapSound(AddAll(s, items, h).1, h)
    ensures |AddAll(s, items, h).1.hash| == |s.hash| + |items|
    decreases |items|
  {
    if items != [] {
      var n := |items| - 1;
      BatchSplit(items, h);
      AddAllFresh(s, items[..n], h);
      AddAllFreshKeys(s, items[..n], h);
      var t := AddAll(s, items[..n], h).1;
      var key := h(items[n].id);
      assert key in BatchKeys(items, h);
      assert key !in t.hash;
      assert AddAll(s, items, h) == Added(t, items[n].id, items[n].embeddings, h);
      AddedFresh(t, items[n].id, items[n].embeddings, h);
      AddedPreservesCoherent(t, items[n].id, items[n].embeddings, h);
    }
  }

  /** A batch, whether it goes through or stops at a duplicate, keeps the invariant and the map's soundness. */
  lemma {:induction false} AddAllPreservesCoherent(s: IndexState, items: seq<EmbeddedResource>, h: Id -> Key)
    requires Coherent(s) && MapSound(s, h)
    ensures Coherent(AddAll(s, items, h).1) && MapSound(AddAll(s, items, h).1, h)
    decreases |items|
  {
    if items != [] {
      var n := |items| - 1;
      AddAllPreservesCoherent(s, items[..n], h);
      var t := AddAll(s, items[..n], h).1;
      AddedPreservesCoherent(t, items[n].id, items[n].embeddings, h);
    }
  }

  /** `new(None)` builds from an empty batch: an empty index of size 0. */
  lemma NewEmpty(h: Id -> Key)
    ensures BuiltFrom([], h) == Empty()
    ensures SizeOf(BuiltFrom([], h)) == Some(0)
  {
  }

  /**
   * Building from a batch gives an index with the invariant, of size equal to
   * the batch length, exactly when the ids' hashes are pairwise distinct.
   */
  lemma BuiltFromCoherentIff(items: seq<EmbeddedResource>, h: Id -> Key)
    ensures Coherent(BuiltFrom(items, h)) <==> Distinct(HashIds(Unzip(items).1, h))
    ensures SizeOf(BuiltFrom(items, h)) == Some(|items|) <==> Distinct(HashIds(Unzip(items).1, h))
    ensures MapSound(BuiltFrom(items, h), h)
  {
    var pair := Unzip(items);
    assert pair.1[..|pair.0|] == pair.1;
    BuiltCoherentIff(pair.0, pair.1, h);
    BuiltTree(pair.0, pair.1, h);
    BuiltAgrees(pair.0, pair.1, h);
    if Coherent(BuiltFrom(items, h)) {
      CoherentIsConsistent(BuiltFrom(items, h));
    }
  }

  /**
   * Building from two items with the same id keeps both tree items but one
   * map entry, so the size check aborts.
   */
  lemma RepeatedIdBreaksSize(id: Id, e1: Embedding, e2: Embedding, h: Id -> Key)
    ensures |BuiltFrom([EmbeddedResource(id, e1), EmbeddedResource(id, e2)], h).tree| == 2
    ensures |BuiltFrom([EmbeddedResource(id, e1), EmbeddedResource(id, e2)], h).hash| == 1
    ensures SizeOf(BuiltFrom([EmbeddedResource(id, e1), EmbeddedResource(id, e2)], h)) == None
  {
    var items := [EmbeddedResource(id, e1), EmbeddedResource(id, e2)];
    var pair := Unzip(items);
    BuiltTree(pair.0, pair.1, h);
    BuiltKeys(pair.0, pair.1, h);
    assert pair.1[..2] == [id, id];
    assert KeySet(HashIds([id, id], h)) == {h(id)};
  }

  /**
   * From that index, removing the id listed twice succeeds: the scan
   * collects both items, as many as the two hashes asked for.
   */
  lemma RepeatedIdRemoveTwice(id: Id, e1: Embedding, e2: Embedding, h: Id -> Key)
    ensures Removed(BuiltFrom([EmbeddedResource(id, e1), EmbeddedResource(id, e2)], h), [id, id], h) == (Pass, Empty())
  {
    var items := [EmbeddedResource(id, e1), EmbeddedResource(id, e2)];
    var pair := Unzip(items);
    var s := BuiltFrom(items, h);
    BuiltTree(pair.0, pair.1, h);
    BuiltKeys(pair.0, pair.1, h);
    assert pair.1[..2] == [id, id];
    var keys := HashIds([id, id], h);
    assert keys[0] == h(id);
    assert KeySet(keys) == {h(id)};
    var es := Entries(pair.0, pair.1, h);
    assert s.tree == multiset(es);
    assert es[0].key == h(id) && es[1].key == h(id);
    assert es == [es[0], es[1]];
    forall x
      ensures KeepKeys(s.tree, keys)[x] == s.tree[x]
    {
      if x in s.tree {
        assert x in es;
        assert x.key in keys;
      }
    }
    assert KeepKeys(s.tree, keys) == s.tree;
    assert TreeKeys(s.tree) == {h(id)};
    assert s.hash.Keys == {h(id)};
  }

  /** Adding one item to a new handle stores exactly that item and its map entry. */
  lemma AddToNew(id: Id, e: Embedding, h: Id -> Key)
    ensures AddAll(BuiltFrom([], h), [EmbeddedResource(id, e)], h)
         == (Pass, IndexState(multiset{Entry(Normalise(e), h(id))}, map[h(id) := id]))
  {
    var items := [EmbeddedResource(id, e)];
    NewEmpty(h);
    assert items[..0] == [];
    assert AddAll(BuiltFrom([], h), items[..0], h) == (Pass, Empty());
    assert AddAll(BuiltFrom([], h), items, h) == Added(Empty(), id, e, h);
    assert multiset{} + multiset{Entry(Normalise(e), h(id))} == multiset{Entry(Normalise(e), h(id))};
  }

  /** Removing the only identifier of an index empties it. */
  lemma RemoveOnlyItem(p: Point, id: Id, h: Id -> Key)
    ensures Removed(IndexState(multiset{Entry(p, h(id))}, map[h(id) := id]), [id], h) == (Pass, Empty())
  {
    var t := multiset{Entry(p, h(id))};
    var keys := HashIds([id], h);
    assert keys[0] == h(id);
    forall x
      ensures KeepKeys(t, keys)[x] == t[x]
    {
      if x in t {
        assert x.key in keys;
      }
    }
    assert KeepKeys(t, keys) == t;
    assert TreeKeys(t) == {h(id)};
  }

  /** Removing any identifiers from an empty index fails with the "not found" error. */
  lemma RemoveFromEmpty(ids: seq<Id>, h: Id -> Key)
    requires ids != []
    ensures Removed(Empty(), ids, h) == (Fail(NotFoundError(ids)), Empty())
  {
    assert KeepKeys(Empty().tree, HashIds(ids, h)) == multiset{};
  }

  /**
   * Adding `"3"` to a new handle gives size 1; removing `["3"]` then
   * succeeds with size 0; removing it again fails with nothing changed.
   */
  lemma AddThenRemove(e: Embedding, h: Id -> Key)
    ensures var s1 := AddAll(BuiltFrom([], h), [EmbeddedResource("3", e)], h);
            && s1.0 == Pass && SizeOf(s1.1) == Some(1)
            && var s2 := Removed(s1.1, ["3"], h);
            && s2.0 == Pass && SizeOf(s2.1) == Some(0)
            && Removed(s2.1, ["3"], h) == (Fail(NotFoundError(["3"])), s2.1)
  {
    AddToNew("3", e, h);
    RemoveOnlyItem(Normalise(e), "3", h);
    RemoveFromEmpty(["3"], h);
  }

  /**
   * `struct LunaVDB`: the handle owning one engine index. The identifier
   * hash is fixed when the handle is made and used by every call.
   */
  class LunaVDB {
    const h: Id -> Key
    var index: Index

    /** `LunaVDB::new`: build from the given batch, or from an empty one. */
    constructor (resource: Option<Resource>, h: Id -> Key)
      ensures this.h == h && fresh(index)
      ensures index.State() == BuiltFrom(if resource.Some? then resource.value.embeddings else [], h)
    {
      this.h := h;
      var res := match resource
        case Some(r) => r
        case None => Resource([]);
      var pair := Unzip(res.embeddings);
      var built := Engine.BuildIndex(pair.0, pair.1, h);
      index := built;
    }

    /** Wraps an index already built, for `deserialize`. */
    constructor FromIndex(index: Index, h: Id -> Key)
      ensures this.h == h && this.index == index
    {
      this.h := h;
      this.index := index;
    }

    /** `LunaVDB::index`: discard the current index and replace it by one built from the batch. */
    method Reindex(resource: Resource)
      modifies this
      ensures fresh(index)
      ensures index.State() == BuiltFrom(resource.embeddings, h)
    {
      var pair := Unzip(resource.embeddings);
      var built := Engine.BuildIndex(pair.0, pair.1, h);
      index := built;
    }

    /** `LunaVDB::search`: the engine's search on the owned index. */
    method Search(query: Embedding, k: nat, nearest: (Tree, Point, nat) -> seq<Entry>) returns (result: seq<Id>)
      requires NearestContract(nearest)
      ensures result == SearchResult(index.State(), query, k, nearest)
      ensures |result| <= k
      ensures forall i | 0 <= i < |result| :: result[i] in index.hash.Values
    {
      result := Engine.Search(index, query, k, nearest);
    }

    /** `LunaVDB::add`: add the batch item by item; the first duplicate aborts the rest. */
    method Add(resource: Resource) returns (outcome: Outcome<EngineError>)
      modifies index
      ensures (outcome, index.State()) == AddAll(old(index.State()), resource.embeddings, h)
    {
      var items := resource.embeddings;
      for i := 0 to |items|
        invariant AddAll(old(index.State()), items[..i], h) == (Pass, index.State())
      {
        assert items[..i + 1][..i] == items[..i];
        var res := items[i];
        var r := Engine.Add(index, res.id, res.embeddings, h);
        if r.Fail? {
          AddAllSticky(old(index.State()), items, i + 1, h);
          return r;
        }
      }
      assert items[..|items|] == items;
      outcome := Pass;
    }

    /** `LunaVDB::remove`: the engine's all-or-nothing removal; a failure aborts with the index unchanged. */
    method Remove(ids: seq<Id>) returns (outcome: Outcome<EngineError>)
      modifies index
      ensures (outcome, index.State()) == Removed(old(index.State()), ids, h)
      ensures outcome.Fail? ==> index.State() == old(index.State())
    {
      outcome := Engine.Remove(index, ids, h);
    }

    /** `LunaVDB::clear`. */
    method Clear()
      modifies index
      ensures index.State() == Cleared()
    {
      Engine.Clear(index);
    }

    /** `LunaVDB::size`. */
    method Size() returns (r: Option<nat>)
      ensures r == SizeOf(index.State())
    {
      r := Engine.Size(index);
    }

    /** `LunaVDB::serialize`: the dumped bytes (`None` when the `unwrap` of the encoder's result aborts). */
    method Serialize(encode: IndexState -> Option<seq<u8>>) returns (r: Option<seq<u8>>)
      ensures r == encode(index.State())
    {
      r := Engine.Dump(index, encode);
    }

    /** `LunaVDB::deserialize`: a new handle over the loaded index (`None` when loading aborts). */
    static method Deserialize(data: seq<u8>, decode: seq<u8> -> Option<IndexState>, h: Id -> Key) returns (r: Option<LunaVDB>)
      ensures r.Some? <==> decode(data).Some?
      ensures r.Some? ==> fresh(r.value) && fresh(r.value.index) && r.value.h == h
      ensures r.Some? ==> r.value.index.State() == decode(data).value
    {
      var loaded := Engine.Load(data, decode);
      if loaded.None? {
        return None;
      }
      var handle := new LunaVDB.FromIndex(loaded.value, h);
      r := Some(handle);
    }
  }
}
