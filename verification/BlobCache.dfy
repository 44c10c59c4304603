/**
 The blob cache used by one caller at a time (internal/blob/cache.go): over every run
 it answers exactly what its backend would.
 */
module BlobCache {
  import opened Common
  import opened BlobStore
  import opened CacheList
  import opened CacheView
  import opened CacheRecency

  /** A file found in the cache directory at start-up. */
  datatype Found = Found(digest: string, size: nat, mtime: int)

  ghost predicate NewestFirst(all: seq<Found>) {
    forall i, j :: 0 <= i < j < |all| ==> all[i].mtime >= all[j].mtime
  }

  ghost predicate Distinct(all: seq<Found>) {
    forall i, j :: 0 <= i < j < |all| ==> all[i].digest != all[j].digest
  }

  /** Puts a file in its place among files sorted by time. */
  method InsertByTime(sorted: seq<Found>, f: Found) returns (r: seq<Found>)
    requires NewestFirst(sorted) && Distinct(sorted + [f])
    ensures NewestFirst(r) && Distinct(r) && multiset(r) == multiset(sorted + [f])
  {
    var i := |sorted|;
    while i > 0 && sorted[i - 1].mtime < f.mtime
      invariant 0 <= i <= |sorted|
      invariant forall k :: i <= k < |sorted| ==> sorted[k].mtime < f.mtime
    {
      i := i - 1;
    }
    r := sorted[..i] + [f] + sorted[i..];
    InPlace(sorted, f, i, r);
  }

  lemma InPlace(sorted: seq<Found>, f: Found, i: nat, r: seq<Found>)
    requires i <= |sorted| && NewestFirst(sorted) && Distinct(sorted + [f]) && r == sorted[..i] + [f] + sorted[i..]
    requires (i > 0 ==> sorted[i - 1].mtime >= f.mtime) && forall k :: i <= k < |sorted| ==> sorted[k].mtime < f.mtime
    ensures NewestFirst(r) && Distinct(r) && multiset(r) == multiset(sorted + [f])
  {
    assert sorted == sorted[..i] + sorted[i..];
    SortedMiddle(sorted[..i], f, sorted[i..]);
    DistinctMiddle(sorted[..i], f, sorted[i..]);
  }

  lemma SortedMiddle(a: seq<Found>, f: Found, b: seq<Found>)
    requires NewestFirst(a + b) && (a != [] ==> a[|a| - 1].mtime >= f.mtime)
    requires forall k :: 0 <= k < |b| ==> f.mtime >= b[k].mtime
    ensures NewestFirst(a + [f] + b)
  {
    var r := a + [f] + b;
    forall i, j | 0 <= i < j < |r|
      ensures r[i].mtime >= r[j].mtime
    {
      if i < |a| {
        assert (a + b)[i] == r[i] && (a + b)[|a| - 1] == a[|a| - 1];
        assert j < |a| ==> (a + b)[j] == r[j];
        assert j > |a| ==> (a + b)[j - 1] == r[j];
      } else if i > |a| {
        assert (a + b)[i - 1] == r[i] && (a + b)[j - 1] == r[j];
      }
    }
  }

  lemma DistinctMiddle(a: seq<Found>, f: Found, b: seq<Found>)
    requires Distinct(a + b + [f])
    ensures Distinct(a + [f] + b)
  {
    var r, s := a + [f] + b, a + b + [f];
    forall i, j | 0 <= i < j < |r|
      ensures r[i].digest != r[j].digest
    {
      var i', j' := if i < |a| then i else if i == |a| then |s| - 1 else i - 1,
                    if j < |a| then j else if j == |a| then |s| - 1 else j - 1;
      assert r[i] == s[i'] && r[j] == s[j'];
    }
  }

  /** Distinctness does not depend on the order. */
  lemma DistinctSame(a: seq<Found>, b: seq<Found>, f: Found)
    requires multiset(a) == multiset(b) && Distinct(a) && Distinct(b + [f])
    ensures Distinct(a + [f])
  {
    forall i | 0 <= i < |a|
      ensures a[i].digest != f.digest
    {
      assert a[i] in multiset(b);
      var k :| 0 <= k < |b| && b[k] == a[i];
      assert (b + [f])[k] == b[k] && (b + [f])[|b|] == f;
    }
  }

  method SortByTime(all: seq<Found>) returns (r: seq<Found>)
    requires Distinct(all)
    ensures NewestFirst(r) && Distinct(r) && multiset(r) == multiset(all)
  {
    r := [];
    for i := 0 to |all|
      invariant NewestFirst(r) && Distinct(r) && multiset(r) == multiset(all[..i])
    {
      assert all[..i + 1] == all[..i] + [all[i]];
      DistinctSame(r, all[..i], all[i]);
      r := InsertByTime(r, all[i]);
    }
    assert all[..|all|] == all;
  }

  function Entries(all: seq<Found>): (es: seq<Entry>)
    ensures |es| == |all| && forall i :: 0 <= i < |all| ==> es[i] == Entry(all[i].digest, all[i].size)
  {
    seq(|all|, i requires 0 <= i < |all| => Entry(all[i].digest, all[i].size))
  }

  /** The directory walk found every file once, with its size. */
  ghost predicate Lists(all: seq<Found>, files: map<string, Bytes>) {
    && Distinct(all)
    && (forall f :: f in all ==> f.digest in files && f.size == |files[f.digest]|)
    && (forall d :: d in files ==> exists f :: f in all && f.digest == d)
  }

  /** The list and index of the files in the given order. */
  method IndexAll(all: seq<Found>) returns (lru: seq<Entry>, items: map<string, Entry>, size: int)
    requires Distinct(all)
    ensures lru == Entries(all) && Indexes(items, lru) && size == Total(lru)
  {
    lru, items, size := [], map[], 0;
    for i := 0 to |all|
      invariant lru == Entries(all[..i]) && Indexes(items, lru) && size == Total(lru)
    {
      var e := Entry(all[i].digest, all[i].size);
      NotIndexed(items, lru, all, i);
      IndexBack(items, lru, e);
      EntriesNext(all, i);
      lru, items, size := lru + [e], items[e.digest := e], size + e.size;
    }
    assert all[..|all|] == all;
  }

  /** The newest files that fit are left, as they were, and indexed. */
  ghost predicate Opens(v: View, max: int, files: map<string, Bytes>, all: seq<Found>) {
    Full(v) && Accounted(v) && Part(v.files, files) && KeepsNewest(v.lru, max, all)
  }

  ghost predicate Part(some: map<string, Bytes>, files: map<string, Bytes>) {
    forall d :: d in some ==> d in files && some[d] == files[d]
  }

  ghost predicate KeepsNewest(lru: seq<Entry>, max: int, all: seq<Found>) {
    exists order :: NewestFirst(order) && multiset(order) == multiset(all) && LongestFitting(Entries(order), max, lru)
  }

  /** The index of all files found, before the first eviction. */
  method StartIndex(hash: Hash, max: int, files: map<string, Bytes>, all: seq<Found>)
    returns (lru: seq<Entry>, items: map<string, Entry>, size: int)
    requires Honest(hash, files) && Lists(all, files)
    ensures Indexes(items, lru) && size == Total(lru)
    ensures var w := Shrunk(View(lru, items, size, files), max); Sound(w, hash, max) && Opens(w, max, files, all)
  {
    var order := SortByTime(all);
    lru, items, size := IndexAll(order);
    Started(order, all, View(lru, items, size, files), hash, max);
  }

  /** A file not listed before is not indexed. */
  lemma NotIndexed(items: map<string, Entry>, lru: seq<Entry>, all: seq<Found>, i: nat)
    requires Distinct(all) && i < |all| && lru == Entries(all[..i]) && Indexes(items, lru)
    ensures all[i].digest !in items
  {
    forall x | x in lru
      ensures x.digest != all[i].digest
    {
      var k :| 0 <= k < |lru| && lru[k] == x;
      assert all[k].digest != all[i].digest;
    }
  }

  lemma EntriesNext(all: seq<Found>, i: nat)
    requires i < |all|
    ensures Entries(all[..i]) + [Entry(all[i].digest, all[i].size)] == Entries(all[..i + 1])
  {
  }

  class Cache {
    const hash: Hash
    const max: int
    var backend: Store
    var lru: seq<Entry>
    var items: map<string, Entry>
    var size: int
    var files: map<string, Bytes>

    /** Opens a cache over the files of a previous run: the least recently modified ones go first. */
    constructor (hash: Hash, max: int, backend: Store, files: map<string, Bytes>, all: seq<Found>)
      requires Honest(hash, files) && Lists(all, files)
      ensures this.hash == hash && this.max == max && this.backend == backend
      ensures Valid() && Opens(Now(), max, files, all)
    {
      var l, i, s := StartIndex(hash, max, files, all);
      this.hash, this.max, this.backend, this.files := hash, max, backend, files;
      lru, items, size := l, i, s;
      new;
      EvictLocked();
    }

    ghost function Now(): View
      reads this
    {
      View(lru, items, size, files)
    }

    ghost predicate Valid()
      reads this
    {
      Sound(Now(), hash, max)
    }

    /** The cache holds nothing the backend lacks, and every indexed file is there. */
    ghost predicate Coherent(known: set<Bytes>)
      reads this
    {
      CoherentWith(Now(), hash, backend, known)
    }

    /** Drops the least recently used entry and unlinks its file. */
    method DropLast()
      requires Indexes(items, lru) && size == Total(lru) && lru != []
      modifies this`lru, this`items, this`size, this`files
      ensures Now() == Dropped(old(Now())) && Indexes(items, lru) && size == Total(lru)
    {
      var e := lru[|lru| - 1];
      IndexPrefix(items, lru);
      lru := lru[..|lru| - 1];
      items := items - {e.digest};
      size := size - e.size;
      files := files - {e.digest};
    }

    /** Drops least recently used entries, and their files, until the rest fits. */
    method EvictLocked()
      requires Indexes(items, lru) && size == Total(lru)
      modifies this`lru, this`items, this`size, this`files
      ensures Now() == Shrunk(old(Now()), max)
    {
      while size > max && |lru| > 1
        invariant Indexes(items, lru) && size == Total(lru)
        invariant Shrunk(Now(), max) == Shrunk(old(Now()), max)
        decreases |lru|
      {
        ShrunkStep(Now(), max);
        DropLast();
      }
      ShrunkDone(Now(), max);
    }

    method MoveToFront(d: string)
      requires Valid() && d in items
      modifies this`lru
      ensures Valid() && Now() == Moved(old(Now()), d)
    {
      MovedSound(Now(), hash, max, d);
      lru := [items[d]] + Without(lru, d);
    }

    method Insert(d: string, b: Bytes)
      requires Sound(Now(), hash, max) && hash(b) == d
      modifies this`lru, this`items, this`size, this`files
      ensures Now() == Inserted(old(Now()), d, b, max) && Sound(Now(), hash, max)
      ensures InsertMoves(old(Now()), max, d, |b|, Now())
    {
      ghost var v := Now();
      InsertedSound(v, hash, max, b);
      InsertedFronts(v, hash, max, b);
      files := files[d := b];
      if d in items {
        MoveToFront(d);
      } else {
        IndexFront(items, lru, Entry(d, |b|));
        lru, items := [Entry(d, |b|)] + lru, items[d := Entry(d, |b|)];
        size := size + |b|;
        EvictLocked();
      }
    }

    /** Reads the content of a digest from the backend, verifies it and caches it. */
    method Download(d: string) returns (r: Result<string>)
      requires Valid()
      modifies this`lru, this`items, this`size, this`files
      ensures Valid()
      ensures r == (match Verified(hash, backend, d) case Ok(_) => Ok(d) case Err(e) => Err(e))
      ensures Now() == if r.Ok? then Inserted(old(Now()), d, backend[d], max) else old(Now())
    {
      if d !in backend {
        return Err(NotFound);
      }
      var b := backend[d];
      if hash(b) != d {
        return Err(Mismatch);
      }
      Insert(d, b);
      r := Ok(d);
    }

    /** Makes a digest available; after at most one download the next look finds it. */
    method Fetch(d: string) returns (r: Result<string>, looks: nat)
      requires Valid()
      modifies this`lru, this`items, this`size, this`files
      ensures Valid() && looks <= 2
      ensures r == FetchAnswer(old(Now()), hash, backend, d) && Now() == Fetched(old(Now()), hash, max, backend, d)
      ensures FetchMoves(old(Now()), max, backend, d, r.Ok?, lru)
    {
      FetchedFronts(Now(), hash, max, backend, d);
      looks := 0;
      if !ValidDigest(d) {
        return Err(InvalidDigest), looks;
      }
      ghost var v := Now();
      while true
        invariant Valid() && ValidDigest(d) && looks <= 1
        invariant looks == 0 ==> Now() == v
        invariant looks == 1 ==> d !in v.items && Verified(hash, backend, d).Ok? && d in items && lru[0] == items[d]
        invariant looks == 1 ==> Now() == Inserted(v, d, backend[d], max)
        decreases if d in items then 0 else 1
      {
        looks := looks + 1;
        if d in items {
          if looks == 2 {
            MovedFirst(Now(), d);
          }
          MoveToFront(d);
          return Ok(d), looks;
        }
        r := Download(d);
        if r.Err? {
          return;
        }
        InsertedLongest(v, hash, max, backend[d]);
      }
    }

    method Forget(d: string)
      requires Valid()
      modifies this`lru, this`items, this`size
      ensures Valid() && Now() == Forgotten(old(Now()), d)
    {
      ForgottenSound(Now(), hash, max, d);
      if d in items {
        size := size - items[d].size;
        lru := Without(lru, d);
        items := items - {d};
      }
    }

    /** Opens the file of a digest, fetching it again when an indexed file is gone. */
    method OpenFile(d: string) returns (r: Result<Bytes>)
      requires Valid()
      modifies this`lru, this`items, this`size, this`files
      ensures Valid() && (r.Ok? ==> hash(r.value) == d)
      ensures r == OpenAnswer(old(Now()), hash, backend, d) && Now() == Opened(old(Now()), hash, max, backend, d)
      ensures r.Ok? && (d in old(items) && d in old(files) ==> old(items)[d].size == |r.value|) ==>
                Fronted(old(lru), max, Entry(d, |r.value|), lru)
      ensures r.Err? ==> if d in old(files) then lru == old(lru) else lru == old(lru) || TakenOut(old(lru), d, lru)
    {
      ghost var v := Now();
      OpenedFronts(v, hash, max, backend, d);
      var attempt := 0;
      while attempt < 3
        invariant Valid() && attempt <= 1
        invariant attempt == 0 ==> Now() == v
        invariant attempt == 1 ==> ValidDigest(d) && d in v.items && d !in v.files && Now() == Forgotten(Moved(v, d), d)
      {
        ghost var before := Now();
        FetchedHas(before, hash, max, backend, d);
        var fetched, looks := Fetch(d);
        if fetched.Err? {
          return Err(fetched.error);
        }
        if d in files {
          return Ok(files[d]);
        }
        Forget(d);
        attempt := attempt + 1;
      }
      assert false;
      return Err(RepeatedlyEvicted);
    }

    /** Writes through to the backend and keeps a copy. */
    method Put(b: Bytes) returns (info: Info)
      requires Valid()
      modifies this`backend, this`lru, this`items, this`size, this`files
      ensures Valid() && info == Info(hash(b), |b|, hash(b) !in old(backend))
              && backend == AfterPut(hash, old(backend), b)
      ensures Now() == if hash(b) in old(items) then old(Now()) else Inserted(old(Now()), hash(b), b, max)
      ensures hash(b) !in old(items) ==> InsertMoves(old(Now()), max, hash(b), |b|, Now())
    {
      var d := hash(b);
      info := Info(d, |b|, d !in backend);
      if d !in backend {
        backend := backend[d := b];
      }
      if d !in items {
        Insert(d, b);
      }
    }

    method Stat(d: string, ghost known: set<Bytes>) returns (r: Result<nat>)
      requires Valid()
      ensures !ValidDigest(d) ==> r == Err(InvalidDigest)
      ensures ValidDigest(d) ==>
                r == if d in items then Ok(items[d].size) else if d in backend then Ok(|backend[d]|) else Err(NotFound)
      ensures Coherent(known) ==> Size(r) == Answer(hash, backend, BlobStore.Stat(d))
    {
      if !ValidDigest(d) {
        return Err(InvalidDigest);
      }
      if d in items {
        return Ok(items[d].size);
      }
      r := if d in backend then Ok(|backend[d]|) else Err(NotFound);
    }

    method Delete(d: string) returns (valid: bool)
      requires Valid()
      modifies this`backend, this`lru, this`items, this`size, this`files
      ensures Valid() && valid == ValidDigest(d)
      ensures backend == After(hash, old(backend), BlobStore.Delete(d))
      ensures Now() == if valid then Removed(Forgotten(old(Now()), d), d) else old(Now())
      ensures if valid then TakenOut(old(lru), d, lru) else lru == old(lru)
    {
      ForgottenTakesOut(Now(), d);
      if !ValidDigest(d) {
        return false;
      }
      Forget(d);
      files := files - {d};
      backend := backend - {d};
      valid := true;
    }

    /** One operation answers what the backend alone would answer. */
    method Do(op: Op, ghost known: set<Bytes>) returns (reply: Reply)
      requires Valid() && Coherent(known) && (op.Put? ==> op.content in known)
      modifies this`backend, this`lru, this`items, this`size, this`files
      ensures Valid() && Coherent(known)
      ensures reply == Answer(hash, old(backend), op) && backend == After(hash, old(backend), op)
      ensures ListStep(hash, max, op, reply, old(lru), lru) && (old(Accounted(Now())) ==> Accounted(Now()))
    {
      ghost var v, store := Now(), backend;
      match op
      case Put(b) =>
        PutCoheres(v, hash, max, store, known, b);
        ListedExactly(items, lru, hash(b));
        InsertedFronts(v, hash, max, b);
        assert Unsealed(Seal);
        var info := Put(b);
        reply := Stored(info);
      case Open(d) =>
        OpenCoheres(v, hash, max, store, known, d);
        if Accounted(v) {
          OpenedAccounted(v, hash, max, store, d);
        }
        var r := OpenFile(d);
        reply := Content(r);
      case Stat(d) =>
        var r := Stat(d, known);
        reply := Size(r);
      case Delete(d) =>
        ForgottenFull(v, d);
        var valid := Delete(d);
        reply := Deleted(valid);
    }

    /** Over every run whose contents the hash tells apart the cache is indistinguishable from its backend. */
    method Run(ops: seq<Op>, ghost known: set<Bytes>) returns (replies: seq<Reply>, ghost t: Trace)
      requires Valid() && Coherent(known) && PutsAmong(ops, known)
      modifies this`backend, this`lru, this`items, this`size, this`files
      ensures Valid() && Coherent(known) && (old(Accounted(Now())) ==> Accounted(Now()))
      ensures replies == Answers(hash, old(backend), ops) && backend == Final(hash, old(backend), ops)
      ensures t.hash == hash && t.max == max && t.ops == ops && t.replies == replies
      ensures Recorded(t, old(lru), lru) && InOrderOfUse(t)
    {
      replies, t := [], Trace(hash, max, [], [], [lru]);
      RecordBegins(hash, max, lru);
      for i := 0 to |ops|
        invariant Valid() && Coherent(known) && (old(Accounted(Now())) ==> Accounted(Now()))
        invariant RunSoFar(t, old(backend), backend, old(lru), lru, ops[..i], replies) && t.hash == hash && t.max == max
      {
        ghost var before, store := lru, backend;
        var reply := Do(ops[i], known);
        t := RunGrows(t, old(backend), store, backend, old(lru), before, lru, ops, i, replies, reply);
        replies := replies + [reply];
      }
      assert ops[..|ops|] == ops && Unsealed(Seal, Outer);
      RecordInOrder(t, old(lru), lru);
    }
  }

  /** A run so far: its answers are the backend's, and its record reaches from the first list to the last. */
  ghost predicate RunSoFar(t: Trace, store0: Store, store: Store, first: seq<Entry>, last: seq<Entry>, ops: seq<Op>,
                           replies: seq<Reply>) {
    forall s {:trigger Unsealed(s, Outer)} :: Unsealed(s, Outer) ==>
      && replies == Answers(t.hash, store0, ops) && store == Final(t.hash, store0, ops)
      && t.ops == ops && t.replies == replies && Recorded(t, first, last)
  }

  lemma RunGrows(t: Trace, store0: Store, store: Store, store': Store, first: seq<Entry>, last: seq<Entry>,
                 last': seq<Entry>, ops: seq<Op>, i: nat, replies: seq<Reply>, reply: Reply)
    returns (u: Trace)
    requires i < |ops| && RunSoFar(t, store0, store, first, last, ops[..i], replies)
    requires reply == Answer(t.hash, store, ops[i]) && store' == After(t.hash, store, ops[i])
    requires ListStep(t.hash, t.max, ops[i], reply, last, last') && NoRepeats(last')
    ensures RunSoFar(u, store0, store', first, last', ops[..i + 1], replies + [reply])
    ensures u.hash == t.hash && u.max == t.max
  {
    assert Unsealed(Seal, Outer);
    assert ops[..i + 1][..i] == ops[..i] && ops[..i + 1] == ops[..i] + [ops[i]];
    u := RecordGrows(t, first, last, ops[i], reply, last');
  }

  /** What a download of a digest gives. */
  function Verified(hash: Hash, backend: Store, d: string): Result<Bytes> {
    if d !in backend then Err(NotFound) else if hash(backend[d]) != d then Err(Mismatch) else Ok(backend[d])
  }

  function FetchAnswer(v: View, hash: Hash, backend: Store, d: string): Result<string> {
    if !ValidDigest(d) then Err(InvalidDigest)
    else if d in v.items then Ok(d)
    else match Verified(hash, backend, d) case Ok(_) => Ok(d) case Err(e) => Err(e)
  }

  function Fetched(v: View, hash: Hash, max: int, backend: Store, d: string): View {
    if !ValidDigest(d) then v
    else if d in v.items then Moved(v, d)
    else if Verified(hash, backend, d).Ok? then Inserted(v, d, backend[d], max)
    else v
  }

  /** A cached file is read without asking the backend. */
  function OpenAnswer(v: View, hash: Hash, backend: Store, d: string): Result<Bytes> {
    if !ValidDigest(d) then Err(InvalidDigest)
    else if d in v.items && d in v.files then Ok(v.files[d])
    else Verified(hash, backend, d)
  }

  /** An indexed entry whose file is gone is forgotten first. */
  function Opened(v: View, hash: Hash, max: int, backend: Store, d: string): View {
    if ValidDigest(d) && d in v.items && d !in v.files then Fetched(Forgotten(Moved(v, d), d), hash, max, backend, d)
    else Fetched(v, hash, max, backend, d)
  }

  /**
   Everything stored is one of the known contents, which the hash tells apart; the cache holds
   nothing the backend lacks.
   */
  ghost predicate CoherentWith(v: View, hash: Hash, backend: Store, known: set<Bytes>) {
    && Apart(hash, known) && Among(backend, known) && Among(v.files, known)
    && Honest(hash, backend) && v.files.Keys <= backend.Keys && Full(v)
  }

  lemma FetchedHas(v: View, hash: Hash, max: int, backend: Store, d: string)
    requires Sound(v, hash, max)
    ensures ValidDigest(d) && d !in v.items && Verified(hash, backend, d).Ok? ==>
              var w := Fetched(v, hash, max, backend, d); d in w.files && w.files[d] == backend[d]
  {
    if d !in v.items && Verified(hash, backend, d).Ok? {
      InsertedLongest(v, hash, max, backend[d]);
    }
  }

  /** An entry that was in the list, or else the new one, is now its first, and no file is left without an entry. */
  ghost predicate InsertMoves(v: View, max: int, d: string, n: nat, w: View) {
    forall s {:trigger Unsealed(s)} :: Unsealed(s) ==>
      && Fronted(v.lru, max, if d in v.items then v.items[d] else Entry(d, n), w.lru)
      && (Accounted(v) ==> Accounted(w))
  }

  lemma InsertedFronts(v: View, hash: Hash, max: int, b: Bytes)
    requires Sound(v, hash, max)
    ensures InsertMoves(v, max, hash(b), |b|, Inserted(v, hash(b), b, max))
  {
    if hash(b) in v.items {
      MovedFronts(v, max, hash(b));
    } else {
      PushedFronts(v, max, hash(b), |b|);
    }
    if Accounted(v) {
      InsertedAccounted(v, hash(b), b, max);
    }
  }

  /** A digest that was made available is the first of the list; otherwise the list stays as it is. */
  ghost predicate FetchMoves(v: View, max: int, backend: Store, d: string, ok: bool, lru: seq<Entry>) {
    forall s {:trigger Unsealed(s)} :: Unsealed(s) ==>
      if !ok then lru == v.lru
      else if d in v.items then Fronted(v.lru, max, v.items[d], lru)
      else d in backend && Fronted(v.lru, max, Entry(d, |backend[d]|), lru)
  }

  lemma FetchedFronts(v: View, hash: Hash, max: int, backend: Store, d: string)
    requires Sound(v, hash, max)
    ensures FetchMoves(v, max, backend, d, FetchAnswer(v, hash, backend, d).Ok?, Fetched(v, hash, max, backend, d).lru)
  {
    if d in v.items {
      MovedFronts(v, max, d);
    } else if Verified(hash, backend, d).Ok? {
      InsertedFronts(v, hash, max, backend[d]);
      assert Unsealed(Seal);
    }
  }

  lemma ForgottenTakesOut(v: View, d: string)
    requires Indexes(v.items, v.lru)
    ensures TakenOut(v.lru, d, Forgotten(v, d).lru)
  {
    ListedExactly(v.items, v.lru, d);
    WithoutTakesOut(v.lru, d);
  }

  /** Opening a file whose entry is there but not the file forgets the entry, and then fetches it. */
  lemma OpenedFronts(v: View, hash: Hash, max: int, backend: Store, d: string)
    requires Sound(v, hash, max)
    ensures var r, w := OpenAnswer(v, hash, backend, d), Opened(v, hash, max, backend, d);
            && (r.Ok? && (d in v.items && d in v.files ==> v.items[d].size == |r.value|) ==>
                  Fronted(v.lru, max, Entry(d, |r.value|), w.lru))
            && (r.Err? ==> if d in v.files then w.lru == v.lru else w.lru == v.lru || TakenOut(v.lru, d, w.lru))
  {
    assert Unsealed(Seal);
    if ValidDigest(d) && d in v.items && d !in v.files {
      var u := Forgotten(Moved(v, d), d);
      ForgottenMoved(v, hash, max, d);
      FetchedFronts(u, hash, max, backend, d);
    } else {
      FetchedFronts(v, hash, max, backend, d);
    }
  }

  lemma ForgottenMoved(v: View, hash: Hash, max: int, d: string)
    requires Sound(v, hash, max) && d in v.items
    ensures var u := Forgotten(Moved(v, d), d);
            && Sound(u, hash, max) && d !in u.items && TakenOut(v.lru, d, u.lru)
            && forall rest :: TakenOut(u.lru, d, rest) ==> rest == u.lru
  {
    var u := Forgotten(Moved(v, d), d);
    MovedSound(v, hash, max, d);
    ForgottenSound(Moved(v, d), hash, max, d);
    WithoutEntries(v.lru, d);
    IndexMoved(v.items, v.lru, d);
    WithoutFront(v.items[d], Without(v.lru, d));
    WithoutTakesOut(v.lru, d);
    ListedExactly(u.items, u.lru, d);
  }

  lemma OpenedAccounted(v: View, hash: Hash, max: int, backend: Store, d: string)
    requires Sound(v, hash, max) && Accounted(v)
    ensures Accounted(Opened(v, hash, max, backend, d))
  {
    if ValidDigest(d) && d in v.items && d !in v.files {
      var u := Forgotten(Moved(v, d), d);
      MovedSound(v, hash, max, d);
      ForgottenSound(Moved(v, d), hash, max, d);
      FetchedAccounted(u, hash, max, backend, d);
    } else {
      FetchedAccounted(v, hash, max, backend, d);
    }
  }

  lemma FetchedAccounted(v: View, hash: Hash, max: int, backend: Store, d: string)
    requires Sound(v, hash, max) && Accounted(v)
    ensures Accounted(Fetched(v, hash, max, backend, d))
  {
    if d !in v.items && Verified(hash, backend, d).Ok? {
      InsertedAccounted(v, d, backend[d], max);
    }
  }

  lemma OpenCoheres(v: View, hash: Hash, max: int, backend: Store, known: set<Bytes>, d: string)
    requires Sound(v, hash, max) && CoherentWith(v, hash, backend, known)
    ensures CoherentWith(Opened(v, hash, max, backend, d), hash, backend, known)
    ensures Content(OpenAnswer(v, hash, backend, d)) == Answer(hash, backend, BlobStore.Open(d))
  {
    if ValidDigest(d) && d !in v.items && d in backend {
      InsertedFull(v, d, backend[d], max);
    }
  }

  lemma PutHonest(hash: Hash, backend: Store, b: Bytes)
    requires Honest(hash, backend)
    ensures Honest(hash, AfterPut(hash, backend, b)) && AfterPut(hash, backend, b).Keys == backend.Keys + {hash(b)}
  {
  }

  lemma InsertedAmong(v: View, d: string, b: Bytes, max: int, known: set<Bytes>)
    requires Among(v.files, known) && b in known
    ensures Among(Inserted(v, d, b, max).files, known)
  {
  }

  lemma PutCoheres(v: View, hash: Hash, max: int, backend: Store, known: set<Bytes>, b: Bytes)
    requires Sound(v, hash, max) && CoherentWith(v, hash, backend, known) && b in known
    ensures var d := hash(b);
            CoherentWith(if d in v.items then v else Inserted(v, d, b, max), hash, AfterPut(hash, backend, b), known)
  {
    PutHonest(hash, backend, b);
    if hash(b) !in v.items {
      InsertedFull(v, hash(b), b, max);
      InsertedAmong(v, hash(b), b, max, known);
    }
  }

  lemma StartFull(order: seq<Found>, all: seq<Found>, v: View)
    requires multiset(order) == multiset(all) && Lists(all, v.files) && v.lru == Entries(order)
             && Indexes(v.items, v.lru)
    ensures Full(v)
  {
    forall d | d in v.items
      ensures d in v.files && |v.files[d]| == v.items[d].size
    {
      var k :| 0 <= k < |v.lru| && v.lru[k] == v.items[d];
      assert order[k] in multiset(all);
    }
  }

  lemma StartAccounted(order: seq<Found>, all: seq<Found>, v: View)
    requires multiset(order) == multiset(all) && Lists(all, v.files) && v.lru == Entries(order)
             && Indexes(v.items, v.lru)
    ensures Accounted(v)
  {
    forall d | d in v.files
      ensures d in v.items
    {
      var f :| f in all && f.digest == d;
      assert f in multiset(order);
      var k :| 0 <= k < |order| && order[k] == f;
      assert v.lru[k] in v.lru;
    }
  }

  /** What is left of the files found at the start. */
  lemma Started(order: seq<Found>, all: seq<Found>, v: View, hash: Hash, max: int)
    requires multiset(order) == multiset(all) && Lists(all, v.files) && v.lru == Entries(order)
             && Indexes(v.items, v.lru)
    requires v.size == Total(v.lru) && Honest(hash, v.files) && NewestFirst(order)
    ensures Sound(Shrunk(v, max), hash, max) && Opens(Shrunk(v, max), max, v.files, all)
  {
    StartFull(order, all, v);
    StartAccounted(order, all, v);
    ShrunkAccounted(v, max);
    ShrunkSound(v, hash, max);
    ShrunkFull(v, max);
    EvictedFits(v.lru, max);
  }

  /** Without the least recently used entry and its file. */
  function Dropped(v: View): View
    requires v.lru != []
  {
    var e := v.lru[|v.lru| - 1];
    View(v.lru[..|v.lru| - 1], v.items - {e.digest}, v.size - e.size, v.files - {e.digest})
  }

  lemma ShrunkStep(v: View, max: int)
    requires Indexes(v.items, v.lru) && v.size == Total(v.lru) && v.size > max && |v.lru| > 1
    ensures Shrunk(Dropped(v), max) == Shrunk(v, max)
  {
    var rest, e := v.lru[..|v.lru| - 1], v.lru[|v.lru| - 1];
    IndexPrefix(v.items, v.lru);
    EvictedSubset(rest, max);
    assert v.lru == rest + [e];
    assert Evicted(v.lru, max) == Evicted(rest, max);
    DigestsShrink(v.lru, rest, e, Evicted(rest, max), v.items, v.files);
  }

  /** Dropping the last entry first makes no difference to what a shorter list keeps. */
  lemma DigestsShrink(lru: seq<Entry>, rest: seq<Entry>, e: Entry, kept: seq<Entry>, items: map<string, Entry>,
                      files: map<string, Bytes>)
    requires lru == rest + [e] && (forall x :: x in rest ==> x.digest != e.digest)
             && (forall x :: x in kept ==> x in rest)
    ensures (map d | d in items - {e.digest} && d in Digests(kept) :: (items - {e.digest})[d])
         == (map d | d in items && d in Digests(kept) :: items[d])
    ensures Unlinked(files - {e.digest}, rest, kept) == Unlinked(files, lru, kept)
  {
    assert e.digest !in Digests(kept) && Digests(lru) == Digests(rest) + {e.digest};
  }

  lemma ShrunkDone(v: View, max: int)
    requires Indexes(v.items, v.lru) && v.size == Total(v.lru) && (v.size <= max || |v.lru| <= 1)
    ensures Shrunk(v, max) == v
  {
    assert Evicted(v.lru, max) == v.lru;
    assert forall d :: d in v.items ==> v.items[d] in v.lru;
    assert EvictedIndex(v.items, v.lru, max) == v.items;
    assert Unlinked(v.files, v.lru, v.lru) == v.files;
  }

  /** Moving the first entry to the front changes nothing. */
  lemma MovedFirst(v: View, d: string)
    requires Indexes(v.items, v.lru) && d in v.items && v.lru[0] == v.items[d]
    ensures Moved(v, d) == v
  {
    var rest := v.lru[1..];
    assert v.lru == [v.items[d]] + rest;
    WithoutFront(v.items[d], rest);
  }

  lemma {:induction false} WithoutFront(e: Entry, rest: seq<Entry>)
    requires NoRepeats([e] + rest)
    ensures Without([e] + rest, e.digest) == rest
  {
    var all := [e] + rest;
    if rest == [] {
      assert all[..|all| - 1] == [];
    } else {
      var init := rest[..|rest| - 1];
      assert all[..|all| - 1] == [e] + init;
      assert all[0].digest != all[|all| - 1].digest;
      assert NoRepeats([e] + init) by {
        assert forall i :: 0 <= i < |[e] + init| ==> ([e] + init)[i] == all[i];
      }
      WithoutFront(e, init);
      assert rest == init + [rest[|rest| - 1]];
    }
  }

  // -------------------------------------------------------- from the start on

  /** A cache opened over files that the backend also has coheres with it. */
  lemma StartCoheres(v: View, hash: Hash, max: int, store: Store, files: map<string, Bytes>, all: seq<Found>,
                     known: set<Bytes>)
    requires Opens(v, max, files, all) && Part(files, store) && Apart(hash, known) && Honest(hash, store)
             && Among(store, known)
    ensures CoherentWith(v, hash, store, known)
  {
  }

  /** A cache opened on what a previous run left answers every run as its backend alone would. */
  method OpenAndRun(hash: Hash, max: int, store: Store, files: map<string, Bytes>, all: seq<Found>, ops: seq<Op>,
                    ghost known: set<Bytes>)
    returns (replies: seq<Reply>)
    requires Honest(hash, store) && Part(files, store) && Lists(all, files)
    requires Apart(hash, known) && Among(store, known) && PutsAmong(ops, known)
    ensures replies == Answers(hash, store, ops)
  {
    var c := new Cache(hash, max, store, files, all);
    StartCoheres(c.Now(), hash, max, store, files, all, known);
    ghost var t;
    replies, t := c.Run(ops, known);
  }

  /** A hash that tells the empty content from all others. */
  function Sample(b: Bytes): string { seq(64, _ => if b == [] then '0' else 'f') }

  /**
   The demands of a run can be met: a cache that starts with the file of the empty
   content and has no room for another, given another content and asked for both.
   */
  method SampleRun() returns (replies: seq<Reply>)
    ensures replies == [Content(Ok([])), Stored(Info(Sample([7]), 1, true)), Content(Ok([7])), Content(Ok([]))]
  {
    var a, b := Sample([]), Sample([7]);
    assert a[0] != b[0];
    var store: Store, ops := map[a := []], [Open(a), Op.Put([7]), Open(b), Open(a)];
    SampleAnswers(Sample, a, b, ops);
    replies := OpenAndRun(Sample, 0, store, store, [Found(a, 0, 1)], ops, {[], [7]});
  }

  lemma SampleAnswers(hash: Hash, a: string, b: string, ops: seq<Op>)
    requires hash([7]) == b && a != b && ValidDigest(a) && ValidDigest(b)
             && ops == [Open(a), Op.Put([7]), Open(b), Open(a)]
    ensures Answers(hash, map[a := []], ops)
            == [Content(Ok([])), Stored(Info(b, 1, true)), Content(Ok([7])), Content(Ok([]))]
  {
    var none: seq<Reply>, store: Store := [], map[a := []];
    var both: Store := store[b := [7]];
    assert ops[..0] == [] && ops[..4] == ops;
    OneMore(hash, store, ops, 0, store, none);
    OneMore(hash, store, ops, 1, store, [Content(Ok([]))]);
    OneMore(hash, store, ops, 2, both, [Content(Ok([])), Stored(Info(b, 1, true))]);
    OneMore(hash, store, ops, 3, both, [Content(Ok([])), Stored(Info(b, 1, true)), Content(Ok([7]))]);
  }

  /** A run, one operation longer. */
  lemma OneMore(hash: Hash, store: Store, ops: seq<Op>, j: nat, now: Store, said: seq<Reply>)
    requires j < |ops| && Final(hash, store, ops[..j]) == now && Answers(hash, store, ops[..j]) == said
    ensures Final(hash, store, ops[..j + 1]) == After(hash, now, ops[j])
    ensures Answers(hash, store, ops[..j + 1]) == said + [Answer(hash, now, ops[j])]
  {
    assert ops[..j + 1][..j] == ops[..j];
  }
}
