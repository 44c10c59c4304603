/**
 What the blob cache holds and how each locked section and file operation of
 internal/blob/cache.go changes it. Both the class and the interleaved system use
 these steps, and every step keeps the cache sound.
 */
module CacheView {
  import opened Common
  import opened BlobStore
  import opened CacheList

  /** The recency list, its index, the accounted bytes and the files under the objects directory. */
  datatype View = View(lru: seq<Entry>, items: map<string, Entry>, size: int, files: map<string, Bytes>)

  /**
   List and index agree, the size is the sum, the bound holds unless one entry is left, and every
   file hashes to its name.
   */
  ghost predicate Sound(v: View, hash: Hash, max: int) {
    && Indexes(v.items, v.lru) && v.size == Total(v.lru) && (v.size <= max || |v.lru| <= 1)
    && Honest(hash, v.files)
  }

  /** Every indexed entry has its file, of the recorded size. */
  ghost predicate Full(v: View) {
    forall d :: d in v.items ==> d in v.files && |v.files[d]| == v.items[d].size
  }

  /** Every file has its entry, so that the size counts all that is stored. */
  ghost predicate Accounted(v: View) { v.files.Keys <= v.items.Keys }

  /** The files left when a list shrinks from `before` to `after`. */
  function Unlinked(files: map<string, Bytes>, before: seq<Entry>, after: seq<Entry>): map<string, Bytes> {
    map d | d in files && (d in Digests(after) || d !in Digests(before)) :: files[d]
  }

  /** An entry becomes the most recently used. */
  function Moved(v: View, d: string): View
    requires d in v.items
  {
    v.(lru := [v.items[d]] + Without(v.lru, d))
  }

  /** Eviction from the back. */
  function Shrunk(v: View, max: int): View {
    var lru := Evicted(v.lru, max);
    View(lru, EvictedIndex(v.items, v.lru, max), Total(lru), Unlinked(v.files, v.lru, lru))
  }

  /** A new entry at the front. */
  function Pushed(v: View, d: string, n: nat): View {
    View([Entry(d, n)] + v.lru, v.items[d := Entry(d, n)], v.size + n, v.files)
  }

  /** The locked section of an insertion. */
  function Entered(v: View, d: string, n: nat, max: int): View {
    if d in v.items then Moved(v, d) else Shrunk(Pushed(v, d, n), max)
  }

  /** A verified file is moved into place. */
  function Placed(v: View, d: string, b: Bytes): View {
    v.(files := v.files[d := b])
  }

  /** A whole insertion. */
  function Inserted(v: View, d: string, b: Bytes, max: int): View {
    Entered(Placed(v, d, b), d, |b|, max)
  }

  function Forgotten(v: View, d: string): View {
    if d in v.items then View(Without(v.lru, d), v.items - {d}, v.size - v.items[d].size, v.files) else v
  }

  function Removed(v: View, d: string): View {
    v.(files := v.files - {d})
  }

  // ---------------------------------------------------------------- soundness

  lemma MovedSound(v: View, hash: Hash, max: int, d: string)
    requires Sound(v, hash, max) && d in v.items
    ensures Sound(Moved(v, d), hash, max)
  {
    IndexMoved(v.items, v.lru, d);
  }

  lemma ForgottenSound(v: View, hash: Hash, max: int, d: string)
    requires Sound(v, hash, max)
    ensures Sound(Forgotten(v, d), hash, max)
  {
    IndexRemoved(v.items, v.lru, d);
    WithoutEntries(v.lru, d);
  }

  /** Eviction restores the bound. */
  lemma ShrunkSound(v: View, hash: Hash, max: int)
    requires Indexes(v.items, v.lru) && v.size == Total(v.lru) && Honest(hash, v.files)
    ensures Sound(Shrunk(v, max), hash, max)
  {
    IndexEvicted(v.items, v.lru, max);
    EvictedFits(v.lru, max);
  }

  lemma EnteredSound(v: View, hash: Hash, max: int, d: string, n: nat)
    requires Sound(v, hash, max)
    ensures Sound(Entered(v, d, n, max), hash, max)
  {
    if d in v.items {
      MovedSound(v, hash, max, d);
    } else {
      IndexFront(v.items, v.lru, Entry(d, n));
      ShrunkSound(Pushed(v, d, n), hash, max);
    }
  }

  lemma InsertedSound(v: View, hash: Hash, max: int, b: Bytes)
    requires Sound(v, hash, max)
    ensures Sound(Inserted(v, hash(b), b, max), hash, max)
  {
    EnteredSound(Placed(v, hash(b), b), hash, max, hash(b), |b|);
  }

  /**
   An insertion leaves exactly the longest non-empty prefix of the recency order that
   fits, and the entry just inserted is its first.
   */
  lemma InsertedLongest(v: View, hash: Hash, max: int, b: Bytes)
    requires Sound(v, hash, max) && hash(b) !in v.items
    ensures var e := Entry(hash(b), |b|);
            var w := Inserted(v, hash(b), b, max);
            && LongestFitting([e] + v.lru, max, w.lru) && w.lru[0] == e
            && w.items.Keys == Digests(w.lru)
            && hash(b) in w.items && w.items[hash(b)] == e && hash(b) in w.files && w.files[hash(b)] == b
  {
    var e := Entry(hash(b), |b|);
    EvictedFits([e] + v.lru, max);
    EvictedKeepsFront([e] + v.lru, max);
    InsertedSound(v, hash, max, b);
    var w := Inserted(v, hash(b), b, max);
    assert w.lru[0] in w.lru && hash(b) in Digests(w.lru);
  }

  // ---------------------------------------------------------------- fullness

  lemma ForgottenFull(v: View, d: string)
    requires Full(v)
    ensures Full(Removed(Forgotten(v, d), d))
  {
  }

  /** No file of an entry that stays is unlinked. */
  lemma ShrunkFull(v: View, max: int)
    requires Full(v)
    ensures Full(Shrunk(v, max))
  {
  }

  /** What is evicted leaves no file behind. */
  lemma InsertedAccounted(v: View, d: string, b: Bytes, max: int)
    requires Accounted(v) && Indexes(v.items, v.lru)
    ensures Accounted(Inserted(v, d, b, max))
  {
    if d !in v.items {
      IndexFront(v.items, v.lru, Entry(d, |b|));
      ShrunkAccounted(Pushed(Placed(v, d, b), d, |b|), max);
    }
  }

  lemma ShrunkAccounted(v: View, max: int)
    requires Accounted(v) && Indexes(v.items, v.lru)
    ensures Accounted(Shrunk(v, max))
  {
    assert forall d :: d in v.items ==> d in Digests(v.lru);
  }

  lemma InsertedFull(v: View, d: string, b: Bytes, max: int)
    requires Full(v) && (d in v.items ==> v.items[d].size == |b|)
    ensures Full(Inserted(v, d, b, max))
    ensures Inserted(v, d, b, max).files.Keys <= v.files.Keys + {d}
  {
    if d !in v.items {
      ShrunkFull(Pushed(Placed(v, d, b), d, |b|), max);
    }
  }
}
