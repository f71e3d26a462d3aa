/**
 * The data model of the index engine: the embedding dimension, the kd-tree
 * of (point, key) items, the key-to-identifier map, the error type, and the
 * `Index` record that owns one tree and one map.
 */
module Types {

  /** Number of coordinates of every stored point. */
  const EMBEDDING_DIMENSION: nat := 1024

  /** Bucket capacity of the kd-tree; only the library uses it. */
  const BUCKET_SIZE: nat := 32

  /**
   * One embedding coordinate, as the bit pattern of an IEEE-754 single.
   * The engine only copies and pads coordinates, it never computes on them.
   */
  type Coord = bv32

  /** The bit pattern of the single-precision value 0.0. */
  const ZERO: Coord := 0

  /** A caller-supplied embedding, of any length. */
  type Embedding = seq<Coord>

  /** A tree point: exactly `EMBEDDING_DIMENSION` coordinates (`[f32; 1024]`). */
  type Point = p: seq<Coord> | |p| == EMBEDDING_DIMENSION
    witness seq(EMBEDDING_DIMENSION, _ => ZERO)

  newtype u64 = x: int | 0 <= x < 0x1_0000_0000_0000_0000

  newtype u8 = x: int | 0 <= x < 0x100

  /** The 64-bit digest of an identifier: the tree's item and the map's key. */
  type Key = u64

  type Id = string

  /** One item of the tree: a point tagged with the key of its identifier. */
  datatype Entry = Entry(point: Point, key: Key)

  /**
   * The kd-tree, seen as the multiset of its items. Bucketing, splitting
   * and the iteration order of the library tree are not part of the model.
   */
  type Tree = multiset<Entry>

  /** The error value the engine returns; it carries a message and nothing else. */
  datatype EngineError = EngineError(message: string)

  /** `EngineError::new`: keeps the message as given. */
  function NewError(message: string): (e: EngineError)
    ensures e.message == message
  {
    EngineError(message)
  }

  /** `Display for EngineError`: the text written is the message itself. */
  function Display(e: EngineError): (text: string)
    ensures text == e.message
  {
    e.message
  }

  /** The value of an `Index`: its tree together with its map. */
  datatype IndexState = IndexState(tree: Tree, hash: map<Key, Id>)

  /** The keys that occur in a tree. */
  ghost function TreeKeys(t: Tree): set<Key>
  {
    set e | e in t :: e.key
  }

  /**
   * What the engine's size check asserts, with the key condition that lets
   * every search result be resolved: the tree holds as many items as the
   * map has entries, and every tree key is a map key.
   */
  ghost predicate Consistent(s: IndexState)
  {
    && |s.tree| == |s.hash|
    && forall e | e in s.tree :: e.key in s.hash
  }

  /** No key tags two items of the tree, and no item occurs twice. */
  ghost predicate UniqueKeys(t: Tree)
  {
    && (forall e | e in t :: t[e] == 1)
    && (forall e1, e2 | e1 in t && e2 in t && e1.key == e2.key :: e1 == e2)
  }

  /**
   * The invariant the mutating operations keep: tree keys are unique and
   * the map is keyed by exactly the tree's keys. It implies `Consistent`
   * (see EngineSpec.CoherentIsConsistent).
   */
  ghost predicate Coherent(s: IndexState)
  {
    UniqueKeys(s.tree) && s.hash.Keys == TreeKeys(s.tree)
  }

  /** Every map entry is stored under the hash of its own identifier. */
  ghost predicate MapSound(s: IndexState, h: Id -> Key)
  {
    forall k | k in s.hash :: h(s.hash[k]) == k
  }

  /** `struct Index`: the tree and the map, both updated in place by the engine. */
  class Index {
    var tree: Tree
    var hash: map<Key, Id>

    constructor (tree: Tree, hash: map<Key, Id>)
      ensures this.tree == tree && this.hash == hash
    {
      this.tree := tree;
      this.hash := hash;
    }

    function State(): IndexState
      reads this
    {
      IndexState(tree, hash)
    }
  }
}
