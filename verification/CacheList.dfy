/**
 The recency list of the blob cache (internal/blob/cache.go): entries, most recently
 used first, with the eviction of the least recently used ones.
 */
module CacheList {

  datatype Entry = Entry(digest: string, size: nat)

  /** The bytes of the entries. */
  function Total(lru: seq<Entry>): nat {
    if lru == [] then 0 else Total(lru[..|lru| - 1]) + lru[|lru| - 1].size
  }

  ghost predicate NoRepeats(lru: seq<Entry>) {
    forall i, j :: 0 <= i < j < |lru| ==> lru[i].digest != lru[j].digest
  }

  /** The list without the entry of a digest. */
  function Without(lru: seq<Entry>, d: string): seq<Entry> {
    if lru == [] then []
    else
      var rest, last := lru[..|lru| - 1], lru[|lru| - 1];
      if last.digest == d then Without(rest, d) else Without(rest, d) + [last]
  }

  /** The index of a list: each digest with its entry, and nothing else. */
  ghost predicate Indexes(items: map<string, Entry>, lru: seq<Entry>) {
    && NoRepeats(lru)
    && (forall e :: e in lru ==> e.digest in items && items[e.digest] == e)
    && (forall d :: d in items ==> items[d].digest == d && items[d] in lru)
  }

  /** What is left after dropping entries from the back until the rest fits, but never the last one. */
  function Evicted(lru: seq<Entry>, max: int): seq<Entry> {
    if Total(lru) > max && |lru| > 1 then Evicted(lru[..|lru| - 1], max) else lru
  }

  /** `kept` is the longest non-empty prefix that fits. */
  ghost predicate LongestFitting(lru: seq<Entry>, max: int, kept: seq<Entry>) {
    && |kept| <= |lru| && kept == lru[..|kept|] && (lru != [] ==> kept != [])
    && (|kept| > 1 ==> Total(kept) <= max)
    && (forall n :: |kept| < n <= |lru| ==> Total(lru[..n]) > max)
  }

  lemma {:induction false} EvictedFits(lru: seq<Entry>, max: int)
    ensures LongestFitting(lru, max, Evicted(lru, max))
    ensures Total(Evicted(lru, max)) <= max || |Evicted(lru, max)| <= 1
  {
    if Total(lru) > max && |lru| > 1 {
      var rest := lru[..|lru| - 1];
      EvictedFits(rest, max);
      var kept := Evicted(rest, max);
      assert kept == lru[..|kept|];
      forall n | |kept| < n <= |lru|
        ensures Total(lru[..n]) > max
      {
        if n < |lru| {
          assert lru[..n] == rest[..n];
        } else {
          assert lru[..n] == lru;
        }
      }
    } else {
      assert lru == lru[..|lru|];
    }
  }

  /** Nothing else is a longest fitting prefix. */
  lemma LongestUnique(lru: seq<Entry>, max: int, a: seq<Entry>, b: seq<Entry>)
    requires LongestFitting(lru, max, a) && LongestFitting(lru, max, b)
    ensures a == b
  {
    assert a == lru[..|a|] && b == lru[..|b|];
  }

  // ------------------------------------------------------------------ totals

  lemma {:induction false} TotalConcat(a: seq<Entry>, b: seq<Entry>)
    ensures Total(a + b) == Total(a) + Total(b)
  {
    if b == [] {
      assert a + b == a;
    } else {
      assert (a + b)[..|a + b| - 1] == a + b[..|b| - 1];
      TotalConcat(a, b[..|b| - 1]);
    }
  }

  lemma TotalFront(e: Entry, lru: seq<Entry>)
    ensures Total([e] + lru) == e.size + Total(lru)
  {
    TotalConcat([e], lru);
    assert [e][..0] == [];
  }

  /** What is left without a digest. */
  lemma {:induction false} WithoutEntries(lru: seq<Entry>, d: string)
    ensures forall e :: e in Without(lru, d) <==> e in lru && e.digest != d
    ensures NoRepeats(lru) ==> NoRepeats(Without(lru, d))
    ensures |Without(lru, d)| <= |lru|
  {
    if lru != [] {
      var rest, last := lru[..|lru| - 1], lru[|lru| - 1];
      WithoutEntries(rest, d);
      assert lru == rest + [last];
      if NoRepeats(lru) {
        NoRepeatsLast(Without(rest, d), rest, last);
      }
    }
  }

  /** Part of a list with its last entry has no repeats when the list has none. */
  lemma NoRepeatsLast(part: seq<Entry>, rest: seq<Entry>, last: Entry)
    requires NoRepeats(part) && (forall e :: e in part ==> e in rest) && NoRepeats(rest + [last])
    ensures NoRepeats(part + [last])
  {
    forall i | 0 <= i < |part|
      ensures part[i].digest != last.digest
    {
      assert part[i] in rest;
      var k :| 0 <= k < |rest| && rest[k] == part[i];
      assert (rest + [last])[k] == rest[k] && (rest + [last])[|rest|] == last;
    }
  }

  lemma WithoutAbsent(lru: seq<Entry>, d: string)
    requires forall e :: e in lru ==> e.digest != d
    ensures Without(lru, d) == lru
  {
    if lru != [] {
      var rest, last := lru[..|lru| - 1], lru[|lru| - 1];
      WithoutAbsent(rest, d);
      assert lru == rest + [last];
    }
  }

  lemma {:induction false} WithoutTotal(lru: seq<Entry>, e: Entry)
    requires NoRepeats(lru) && e in lru
    ensures Total(lru) == Total(Without(lru, e.digest)) + e.size && |lru| == |Without(lru, e.digest)| + 1
  {
    var rest, last := lru[..|lru| - 1], lru[|lru| - 1];
    assert lru == rest + [last];
    if last.digest == e.digest {
      forall x | x in rest
        ensures x.digest != e.digest
      {
        var i :| 0 <= i < |rest| && rest[i] == x;
        assert lru[i].digest != lru[|lru| - 1].digest;
      }
      WithoutAbsent(rest, e.digest);
    } else {
      WithoutTotal(rest, e);
      var w := Without(rest, e.digest);
      assert (w + [last])[..|w|] == w;
    }
  }

  // ------------------------------------------------------------------- index

  /** Removing a digest from both the list and the index. */
  lemma IndexRemoved(items: map<string, Entry>, lru: seq<Entry>, d: string)
    requires Indexes(items, lru)
    ensures Indexes(items - {d}, Without(lru, d))
    ensures d in items ==> Total(lru) == Total(Without(lru, d)) + items[d].size
    ensures d !in items ==> Without(lru, d) == lru
  {
    WithoutEntries(lru, d);
    if d in items {
      WithoutTotal(lru, items[d]);
    } else {
      WithoutAbsent(lru, d);
    }
  }

  /** A new entry at the front. */
  lemma IndexFront(items: map<string, Entry>, lru: seq<Entry>, e: Entry)
    requires Indexes(items, lru) && e.digest !in items
    ensures Indexes(items[e.digest := e], [e] + lru)
    ensures Total([e] + lru) == Total(lru) + e.size
  {
    TotalFront(e, lru);
    forall i | 0 <= i < |lru|
      ensures lru[i].digest != e.digest
    {
      assert lru[i] in lru;
    }
  }

  /** A new entry at the back. */
  lemma IndexBack(items: map<string, Entry>, lru: seq<Entry>, e: Entry)
    requires Indexes(items, lru) && e.digest !in items
    ensures Indexes(items[e.digest := e], lru + [e]) && Total(lru + [e]) == Total(lru) + e.size
  {
    forall i | 0 <= i < |lru|
      ensures lru[i].digest != e.digest
    {
      assert lru[i] in lru;
    }
    assert (lru + [e])[..|lru|] == lru;
  }

  /** Moving an entry to the front changes neither the index nor the total. */
  lemma IndexMoved(items: map<string, Entry>, lru: seq<Entry>, d: string)
    requires Indexes(items, lru) && d in items
    ensures Indexes(items, [items[d]] + Without(lru, d))
    ensures Total([items[d]] + Without(lru, d)) == Total(lru)
    ensures |[items[d]] + Without(lru, d)| == |lru|
  {
    var e, rest := items[d], Without(lru, d);
    WithoutTotal(lru, e);
    IndexRemoved(items, lru, d);
    PutBack(items, d);
    IndexFront(items - {d}, rest, e);
  }

  lemma PutBack(items: map<string, Entry>, d: string)
    requires d in items && items[d].digest == d
    ensures (items - {d})[items[d].digest := items[d]] == items
  {
  }

  /** The entries of a prefix keep their index. */
  lemma IndexPrefix(items: map<string, Entry>, lru: seq<Entry>)
    requires Indexes(items, lru) && lru != []
    ensures Indexes(items - {lru[|lru| - 1].digest}, lru[..|lru| - 1])
  {
    var rest, last := lru[..|lru| - 1], lru[|lru| - 1];
    forall e | e in rest
      ensures e.digest != last.digest
    {
      var i :| 0 <= i < |rest| && rest[i] == e;
      assert lru[i].digest != lru[|lru| - 1].digest;
    }
    assert lru == rest + [last];
  }

  /** The digests of a list. */
  function Digests(lru: seq<Entry>): set<string> {
    set e | e in lru :: e.digest
  }

  /** The index restricted to what eviction keeps. */
  function EvictedIndex(items: map<string, Entry>, lru: seq<Entry>, max: int): map<string, Entry> {
    map d | d in items && d in Digests(Evicted(lru, max)) :: items[d]
  }

  lemma {:induction false} IndexEvicted(items: map<string, Entry>, lru: seq<Entry>, max: int)
    requires Indexes(items, lru)
    ensures Indexes(EvictedIndex(items, lru, max), Evicted(lru, max))
  {
    if Total(lru) > max && |lru| > 1 {
      var rest, last := lru[..|lru| - 1], lru[|lru| - 1];
      IndexPrefix(items, lru);
      IndexEvicted(items - {last.digest}, rest, max);
      EvictedSubset(rest, max);
      assert EvictedIndex(items, lru, max) == EvictedIndex(items - {last.digest}, rest, max) by {
        assert Evicted(lru, max) == Evicted(rest, max);
        assert forall e :: e in rest ==> e.digest in items - {last.digest};
      }
    } else {
      assert EvictedIndex(items, lru, max) == items;
    }
  }

  lemma EvictedSubset(lru: seq<Entry>, max: int)
    ensures forall e :: e in Evicted(lru, max) ==> e in lru
  {
    EvictedFits(lru, max);
  }

  /** The most recently used entry is never evicted. */
  lemma {:induction false} EvictedKeepsFront(lru: seq<Entry>, max: int)
    requires lru != []
    ensures Evicted(lru, max) != [] && Evicted(lru, max)[0] == lru[0]
  {
    EvictedFits(lru, max);
  }
}
