/**
 * The engine entry points. Each method works on an `Index` object the way
 * the engine does (a loop filling a tree and a map, in-place updates of the
 * two fields) and is proved to compute the matching function of
 * `EngineSpec`, whose properties are proved there.
 */
module Engine {
  import opened Wrappers
  import opened Types
  import opened EngineSpec

  /**
   * `engine::index`: build a new index from position-aligned embeddings and
   * ids, normalising each embedding; a later id with the same hash
   * overwrites the map entry of an earlier one.
   */
  method BuildIndex(data: seq<Embedding>, ids: seq<Id>, h: Id -> Key) returns (index: Index)
    requires |data| <= |ids|
    ensures fresh(index)
    ensures index.State() == Built(data, ids, h)
  {
    var tree: Tree := multiset{};
    var doc: map<Key, Id> := map[];
    for i := 0 to |data|
      invariant IndexState(tree, doc) == Built(data[..i], ids, h)
    {
      var embedding := data[i];
      var id := ids[i];
      if |embedding| != EMBEDDING_DIMENSION {
        embedding := Resize(embedding, EMBEDDING_DIMENSION, ZERO);
      } else {
        NormaliseExact(embedding);
      }
      var key := h(id);
      var point: Point := embedding;
      tree := tree + multiset{Entry(point, key)};
      doc := doc[key := id];
      assert data[..i + 1][..i] == data[..i];
    }
    assert data[..|data|] == data;
    index := new Index(tree, doc);
  }

  /**
   * `engine::search`: ask the tree for the `k` nearest items to the
   * normalised query and translate their keys to ids, in order, dropping
   * keys the map does not hold.
   */
  method Search(index: Index, query: Embedding, k: nat, nearest: (Tree, Point, nat) -> seq<Entry>)
    returns (result: seq<Id>)
    requires NearestContract(nearest)
    ensures result == SearchResult(index.State(), query, k, nearest)
    ensures |result| <= k
    ensures forall i | 0 <= i < |result| :: result[i] in index.hash.Values
    ensures (forall e | e in index.tree :: e.key in index.hash) ==>
              |result| == |nearest(index.tree, Normalise(query), k)|
  {
    var q := query;
    if |q| != EMBEDDING_DIMENSION {
      q := Resize(q, EMBEDDING_DIMENSION, ZERO);
    } else {
      NormaliseExact(q);
    }
    var point: Point := q;
    var neighbors := nearest(index.tree, point, k);
    result := [];
    for i := 0 to |neighbors|
      invariant result == Translate(neighbors[..i], index.hash)
    {
      var neighbor := neighbors[i];
      assert neighbors[..i + 1][..i] == neighbors[..i];
      if neighbor.key in index.hash {
        result := result + [index.hash[neighbor.key]];
      }
    }
    assert neighbors[..|neighbors|] == neighbors;
    SearchResultFacts(index.State(), query, k, nearest);
  }

  /**
   * `engine::add`: fail, before touching anything, when the id's hash is
   * already a map key; otherwise insert the map entry and the normalised point.
   */
  method Add(index: Index, id: Id, query: Embedding, h: Id -> Key) returns (r: Outcome<EngineError>)
    modifies index
    ensures (r, index.State()) == Added(old(index.State()), id, query, h)
    ensures r.Fail? <==> h(id) in old(index.hash)
    ensures r.Fail? ==> r.error == DuplicateError(id) && index.State() == old(index.State())
  {
    var key := h(id);
    if key in index.hash {
      return Fail(NewError("Id " + id + " already exists"));
    }
    var q := Resize(query, EMBEDDING_DIMENSION, ZERO);
    var point: Point := q;
    index.hash := index.hash[key := id];
    index.tree := index.tree + multiset{Entry(point, key)};
    r := Pass;
  }

  /**
   * `engine::remove`: collect every tree item whose key is one of the hashed
   * ids; if their number differs from the number of ids, fail with nothing
   * changed; otherwise delete each collected key from the map and each
   * collected item from the tree.
   */
  method Remove(index: Index, ids: seq<Id>, h: Id -> Key) returns (r: Outcome<EngineError>)
    modifies index
    ensures (r, index.State()) == Removed(old(index.State()), ids, h)
  {
    var embeddings: seq<Entry> := [];
    var hashIds := HashIds(ids, h);
    var rest := index.tree;
    while rest != multiset{}
      invariant unchanged(index)
      invariant rest <= index.tree
      invariant multiset(embeddings) == KeepKeys(index.tree - rest, hashIds)
      decreases |rest|
    {
      var e :| e in rest;
      CollectStep(index.tree, rest, e, embeddings, hashIds);
      if e.key in hashIds {
        embeddings := embeddings + [e];
      }
      rest := rest - multiset{e};
    }
    assert index.tree - rest == index.tree;
    if |hashIds| != |embeddings| {
      return Fail(NewError("The ids " + Join(ids, ",") + " not found"));
    }
    ghost var tree0, hash0 := index.tree, index.hash;
    for j := 0 to |embeddings|
      invariant index.tree == tree0 - multiset(embeddings[..j])
      invariant index.hash == hash0 - TreeKeys(multiset(embeddings[..j]))
    {
      var vectorHash, vector := embeddings[j].key, embeddings[j].point;
      DeleteStep(tree0, hash0, embeddings, j);
      index.hash := index.hash - {vectorHash};
      index.tree := index.tree - multiset{Entry(vector, vectorHash)};
    }
    assert embeddings[..|embeddings|] == embeddings;
    r := Pass;
  }

  /** `engine::size`: the map length, after the `assert_eq!` that the tree has as many items (`None` if it aborts). */
  method Size(index: Index) returns (r: Option<nat>)
    ensures r == SizeOf(index.State())
    ensures r.Some? <==> |index.tree| == |index.hash|
    ensures r.Some? ==> r.value == |index.hash|
  {
    if |index.tree| != |index.hash| {
      return None;
    }
    r := Some(|index.hash|);
  }

  /** `engine::clear`: replace both fields by empty ones. */
  method Clear(index: Index)
    modifies index
    ensures index.State() == Cleared()
  {
    index.tree := multiset{};
    index.hash := map[];
  }

  /**
   * `engine::dump`: the bytes of the serialising and compressing codec for
   * the current state (`None` when the encoder reports an error).
   */
  method Dump(index: Index, encode: IndexState -> Option<seq<u8>>) returns (r: Option<seq<u8>>)
    ensures r == encode(index.State())
  {
    r := encode(index.State());
  }

  /**
   * `engine::load`: a new index holding the state the codec decodes from the
   * bytes (`None` when decoding fails and the `unwrap` aborts).
   */
  method Load(data: seq<u8>, decode: seq<u8> -> Option<IndexState>) returns (r: Option<Index>)
    ensures r.Some? <==> decode(data).Some?
    ensures r.Some? ==> fresh(r.value) && r.value.State() == decode(data).value
  {
    var decoded := decode(data);
    if decoded.None? {
      return None;
    }
    var index := new Index(decoded.value.tree, decoded.value.hash);
    r := Some(index);
  }
}
