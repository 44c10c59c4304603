/**
 Damage to a backup is noticed: the reader refuses every truncated dump, anything
 appended, any member removed, and any content changed to one with another hash.
 */
module BackupTamper {
  import opened Common
  import opened Decimal
  import opened BackupFormat
  import opened BackupReader

  ghost predicate DistinctTables(ts: seq<Table>) {
    forall i, j :: 0 <= i < j < |ts| ==> ts[i].name != ts[j].name
  }

  /** No two files have the same name. */
  ghost predicate DistinctFiles(ms: seq<Member>) {
    forall i, j :: 0 <= i < j < |ms| && IsFile(ms[i]) && IsFile(ms[j]) ==> ms[i].name != ms[j].name
  }

  /** Files and blobs only. */
  ghost predicate FilesAndBlobs(ms: seq<Member>) {
    forall i :: 0 <= i < |ms| ==> IsFile(ms[i]) || IsBlob(ms[i])
  }

  // --------------------------------------------------------- sums of a member list

  lemma HeaderNotFile()
    ensures Classify(HEADER_NAME).Unknown? && Classify(MANIFEST_NAME).TheManifest?
            && Classify(SEQUENCES_NAME).Sequences?
  {
    assert HEADER_NAME[0] == 'c' && MANIFEST_NAME[0] == 'm';
  }

  lemma {:induction false} SumsKey(e: Env, h: Bytes, ms: seq<Member>, k: string)
    ensures k in SumsOf(e, h, ms) <==> k == HEADER_NAME || exists i :: 0 <= i < |ms| && IsFile(ms[i]) && ms[i].name == k
  {
    if ms != [] {
      var n := |ms| - 1;
      SumsKey(e, h, ms[..n], k);
      assert forall i :: 0 <= i < n ==> ms[..n][i] == ms[i];
      if IsFile(ms[n]) && ms[n].name == k {
        assert IsFile(ms[n]);
      }
    }
  }

  lemma {:induction false} SumsHeader(e: Env, h: Bytes, ms: seq<Member>)
    ensures HEADER_NAME in SumsOf(e, h, ms) && SumsOf(e, h, ms)[HEADER_NAME] == SumOf(e, h)
  {
    if ms != [] {
      SumsHeader(e, h, ms[..|ms| - 1]);
      HeaderNotFile();
    }
  }

  lemma {:induction false} SumsValue(e: Env, h: Bytes, ms: seq<Member>, i: nat)
    requires i < |ms| && IsFile(ms[i]) && DistinctFiles(ms)
    ensures ms[i].name in SumsOf(e, h, ms) && SumsOf(e, h, ms)[ms[i].name] == SumOf(e, ms[i].data)
  {
    var n := |ms| - 1;
    if i < n {
      SumsValue(e, h, ms[..n], i);
    }
  }

  function Without<T>(ms: seq<T>, i: nat): seq<T>
    requires i < |ms|
  {
    ms[..i] + ms[i + 1..]
  }

  lemma WithoutMember<T>(ms: seq<T>, i: nat, j: nat)
    requires i < |ms| && j < |ms| - 1
    ensures Without(ms, i)[j] == ms[if j < i then j else j + 1]
  {
  }

  function Whole<T>(h: T, body: seq<T>, last: T): seq<T> { [h] + body + [last] }

  lemma WithoutInside<T>(h: T, body: seq<T>, last: T, i: nat)
    requires i < |body|
    ensures Without(Whole(h, body, last), i + 1) == Whole(h, Without(body, i), last)
  {
  }

  lemma WithoutEnds<T>(h: T, body: seq<T>, last: T)
    ensures var ms := Whole(h, body, last); Without(ms, 0) == body + [last] && Without(ms, |ms| - 1) == ms[..|ms| - 1]
  {
  }

  lemma ChangedWhole<T>(h: T, body: seq<T>, last: T, i: nat, m: T)
    requires i <= |body|
    ensures Whole(h, body, last)[i] == if i == 0 then h else body[i - 1]
    ensures Whole(h, body, last)[i := m] == if i == 0 then Whole(m, body, last) else Whole(h, body[i - 1 := m], last)
  {
  }

  /** A removed file loses its sum. */
  lemma RemovedFileShows(e: Env, h: Bytes, ms: seq<Member>, i: nat)
    requires i < |ms| && DistinctFiles(ms) && IsFile(ms[i])
    ensures SumsOf(e, h, Without(ms, i)) != SumsOf(e, h, ms)
  {
    var ns, k := Without(ms, i), ms[i].name;
    SumsKey(e, h, ms, k);
    SumsKey(e, h, ns, k);
    HeaderNotFile();
    forall j | 0 <= j < |ns|
      ensures !(IsFile(ns[j]) && ns[j].name == k)
    {
      WithoutMember(ms, i, j);
    }
  }

  /** A removed blob changes the count. */
  lemma {:induction false} RemovedBlobShows(ms: seq<Member>, i: nat)
    requires i < |ms| && IsBlob(ms[i])
    ensures BlobCount(ms) == BlobCount(Without(ms, i)) + 1
  {
    var n := |ms| - 1;
    if i == n {
      assert Without(ms, i) == ms[..n];
    } else {
      RemovedBlobShows(ms[..n], i);
      WithoutLast(ms, i);
    }
  }

  lemma WithoutLast(ms: seq<Member>, i: nat)
    requires i < |ms| - 1
    ensures var n, ns := |ms| - 1, Without(ms, i); |ns| == n && ns[..n - 1] == Without(ms[..n], i) && ns[n - 1] == ms[n]
  {
  }

  // ------------------------------------------------------- the members of a dump

  lemma {:induction false} TableMembersKinds(ts: seq<Table>, chunks: seq<seq<Bytes>>, i: nat) returns (t: nat, c: nat)
    requires |ts| == |chunks| && i < |TableMembers(ts, chunks)|
    ensures t < |ts| && TableMembers(ts, chunks)[i].name == ChunkName(ts[t].name, c)
    ensures IsFile(TableMembers(ts, chunks)[i])
  {
    var n := |ts| - 1;
    var before := TableMembers(ts[..n], chunks[..n]);
    if i < |before| {
      t, c := TableMembersKinds(ts[..n], chunks[..n], i);
    } else {
      t, c := n, i - |before|;
    }
    ClassifyChunk(ts[t].name, c);
  }

  lemma {:induction false} TableMembersDistinct(ts: seq<Table>, chunks: seq<seq<Bytes>>)
    requires |ts| == |chunks| && DistinctTables(ts)
    ensures DistinctFiles(TableMembers(ts, chunks))
  {
    if ts != [] {
      var n := |ts| - 1;
      var ms, before := TableMembers(ts, chunks), TableMembers(ts[..n], chunks[..n]);
      TableMembersDistinct(ts[..n], chunks[..n]);
      forall i, j | 0 <= i < j < |ms| && IsFile(ms[i]) && IsFile(ms[j])
        ensures ms[i].name != ms[j].name
      {
        if j < |before| {
          assert ms[i] == before[i] && ms[j] == before[j];
        } else if ms[i].name == ms[j].name {
          if i < |before| {
            var t, c := TableMembersKinds(ts[..n], chunks[..n], i);
            ChunkNameInjective(ts[t].name, c, ts[n].name, j - |before|);
          } else {
            ChunkNameInjective(ts[n].name, i - |before|, ts[n].name, j - |before|);
          }
        }
      }
    }
  }

  lemma {:induction false} BlobMembersKinds(store: Store, bs: seq<BlobRow>, i: nat) returns (b: BlobRow)
    requires i < |BlobMembers(store, bs)|
    ensures b in bs && b.digest in store && b.size <= |store[b.digest]|
    ensures BlobMembers(store, bs)[i] == Member(BlobName(b.digest), store[b.digest][..b.size])
    ensures Classify(BlobMembers(store, bs)[i].name) == Blob(b.digest)
  {
    var n := |bs| - 1;
    if i < |BlobMembers(store, bs[..n])| {
      b := BlobMembersKinds(store, bs[..n], i);
    } else {
      b := bs[n];
      ClassifyBlob(b.digest);
    }
  }

  /** The members between header and manifest are distinct files followed by blobs. */
  lemma BodyShape(e: Env, snap: Snapshot, store: Store, chunks: seq<seq<Bytes>>)
    requires |snap.header.tables| == |chunks| && DistinctTables(snap.header.tables)
    ensures FilesAndBlobs(Body(e, snap, store, chunks)) && DistinctFiles(Body(e, snap, store, chunks))
  {
    var body := Body(e, snap, store, chunks);
    var ts := TableMembers(snap.header.tables, chunks);
    var bs := BlobMembers(store, snap.blobs);
    forall i | 0 <= i < |body|
      ensures IsFile(body[i]) || IsBlob(body[i])
      ensures IsFile(body[i]) ==> i <= |ts|
      ensures i < |ts| ==> Classify(body[i].name).Chunk?
    {
      if i < |ts| {
        var t, c := TableMembersKinds(snap.header.tables, chunks, i);
        ClassifyChunk(snap.header.tables[t].name, c);
        assert body[i] == ts[i];
      } else if i == |ts| {
        assert body[i].name == SEQUENCES_NAME;
      } else {
        var b := BlobMembersKinds(store, snap.blobs, i - |ts| - 1);
        assert body[i] == bs[i - |ts| - 1];
      }
    }
    TableMembersDistinct(snap.header.tables, chunks);
    forall i, j | 0 <= i < j < |body| && IsFile(body[i]) && IsFile(body[j])
      ensures body[i].name != body[j].name
    {
      assert body[i] == ts[i];
      if j < |ts| {
        assert body[j] == ts[j];
      } else {
        assert Classify(body[i].name) != Classify(body[j].name);
      }
    }
  }

  /** The manifest member lists exactly this header and body. */
  ghost predicate Lists(e: Env, h: Member, body: seq<Member>, last: Member) {
    && Classify(last.name).TheManifest? && e.decManifest(last.data).Some?
    && var man := e.decManifest(last.data).value;
       man.files == SumsOf(e, h.data, body) && man.blobs == BlobCount(body)
  }

  ghost predicate BlobsHash(e: Env, body: seq<Member>) {
    forall i :: 0 <= i < |body| && IsBlob(body[i]) ==> e.hash(body[i].data) == Classify(body[i].name).digest
  }

  /** What acceptance means, for an archive given as header, body and last member. */
  lemma AcceptedWhole(e: Env, h: Member, body: seq<Member>, last: Member, restore: bool)
    requires ReadArchive(e, Whole(h, body, last), restore).Ok?
    ensures h.name == HEADER_NAME && Lists(e, h, body, last) && BlobsHash(e, body)
    ensures forall i :: 0 <= i < |body| ==> !Classify(body[i].name).TheManifest?
  {
    var ms := Whole(h, body, last);
    AcceptedShape(e, ms, restore);
    assert ms[1..|ms| - 1] == body;
    assert forall i :: 0 <= i < |body| ==> body[i] == ms[i + 1];
  }

  /** Without such members the program does not crash. */
  lemma NoPanic(e: Env, ms: seq<Member>, restore: bool)
    requires forall i :: 1 <= i < |ms| ==> !Classify(ms[i].name).NoTable?
    ensures !ReadArchive(e, ms, restore).Panic?
  {
    PanicsExactly(e, ms, restore);
    assert ms != [] ==> forall i :: 0 <= i < |ms| - 1 ==> ms[1..][i] == ms[i + 1];
  }

  lemma NoPanicWhole(e: Env, h: Member, body: seq<Member>, last: Member, restore: bool)
    requires FilesAndBlobs(body) && Classify(last.name).TheManifest?
    ensures !ReadArchive(e, Whole(h, body, last), restore).Panic?
  {
    var ms := Whole(h, body, last);
    assert forall i :: 1 <= i < |ms| - 1 ==> ms[i] == body[i - 1];
    NoPanic(e, ms, restore);
  }

  /** Header, body and manifest of a dump. */
  lemma DumpShape(e: Env, snap: Snapshot, store: Store, chunks: seq<seq<Bytes>>, ms: seq<Member>)
    returns (h: Member, body: seq<Member>, last: Member)
    requires Faithful(e) && IsDump(e, snap, store, chunks, ms) && DistinctTables(snap.header.tables)
    ensures ms == Whole(h, body, last) && h.name == HEADER_NAME && body != []
    ensures Lists(e, h, body, last) && FilesAndBlobs(body) && DistinctFiles(body) && BlobsHash(e, body)
  {
    body := Body(e, snap, store, chunks);
    h, last := ms[0], ms[|ms| - 1];
    BodyShape(e, snap, store, chunks);
    BodyBlobsHash(e, snap, store, chunks);
    HeaderNotFile();
  }

  lemma BodyBlobsHash(e: Env, snap: Snapshot, store: Store, chunks: seq<seq<Bytes>>)
    requires |snap.header.tables| == |chunks|
    requires forall b :: b in snap.blobs && b.digest in store ==> Intact(e, store, b)
    ensures BlobsHash(e, Body(e, snap, store, chunks))
  {
    var body, ts := Body(e, snap, store, chunks), TableMembers(snap.header.tables, chunks);
    forall i | 0 <= i < |body| && IsBlob(body[i])
      ensures e.hash(body[i].data) == Classify(body[i].name).digest
    {
      if i < |ts| {
        var _, _ := TableMembersKinds(snap.header.tables, chunks, i);
      } else if i == |ts| {
        HeaderNotFile();
      } else {
        var b := BlobMembersKinds(store, snap.blobs, i - |ts| - 1);
      }
    }
  }

  // --------------------------------------------------------------- the rejections

  /** Every proper prefix is refused. */
  lemma RejectsPrefix(e: Env, snap: Snapshot, store: Store, chunks: seq<seq<Bytes>>, ms: seq<Member>, k: nat,
                      restore: bool)
    requires Faithful(e) && IsDump(e, snap, store, chunks, ms) && DistinctTables(snap.header.tables) && k < |ms|
    ensures ReadArchive(e, ms[..k], restore).Err?
  {
    var h, body, last := DumpShape(e, snap, store, chunks, ms);
    if k > 0 {
      RejectsOpenEnd(e, h, body[..k - 1], restore);
      assert ms[..k] == [h] + body[..k - 1];
    }
  }

  /** An archive of files and blobs only has no manifest. */
  lemma RejectsOpenEnd(e: Env, h: Member, part: seq<Member>, restore: bool)
    requires h.name == HEADER_NAME && FilesAndBlobs(part)
    ensures ReadArchive(e, [h] + part, restore).Err?
  {
    var ms := [h] + part;
    HeaderNotFile();
    assert forall i :: 1 <= i < |ms| ==> ms[i] == part[i - 1];
    NoPanic(e, ms, restore);
    if ReadArchive(e, ms, restore).Ok? {
      AcceptedShape(e, ms, restore);
    }
  }

  /** Nothing may follow the manifest. */
  lemma RejectsAppended(e: Env, snap: Snapshot, store: Store, chunks: seq<seq<Bytes>>, ms: seq<Member>, m: Member,
                        restore: bool)
    requires Faithful(e) && IsDump(e, snap, store, chunks, ms) && DistinctTables(snap.header.tables)
    ensures ReadArchive(e, ms + [m], restore).Err?
  {
    var h, body, last := DumpShape(e, snap, store, chunks, ms);
    var longer := body + [last];
    assert ms + [m] == Whole(h, longer, m) && longer[|body|] == last;
    if ReadArchive(e, ms + [m], restore).Ok? {
      AcceptedWhole(e, h, longer, m, restore);
    }
    NoPanicAppended(e, h, body, last, m, restore);
  }

  /** The manifest ends the reading before the appended member's name is looked at. */
  lemma NoPanicAppended(e: Env, h: Member, body: seq<Member>, last: Member, m: Member, restore: bool)
    requires FilesAndBlobs(body) && Classify(last.name).TheManifest?
    ensures !ReadArchive(e, Whole(h, body + [last], m), restore).Panic?
  {
    var ms, rest := Whole(h, body + [last], m), body + [last] + [m];
    assert ms[1..] == rest;
    PanicsExactly(e, ms, restore);
    assert forall i :: 0 <= i < |body| ==> rest[i] == body[i];
    assert rest[|body|] == last && rest[..|body| + 1] == body + [last];
    if ReadHeader(e, ms).Ok? && Run(e, TableNames(ReadHeader(e, ms).value), Init(e, h.data), body + [last]).Ok? {
      RunAccounts(e, TableNames(ReadHeader(e, ms).value), h.data, body + [last]);
    }
  }

  /** No member can be left out. */
  lemma RejectsRemoved(e: Env, snap: Snapshot, store: Store, chunks: seq<seq<Bytes>>, ms: seq<Member>, i: nat,
                       restore: bool)
    requires Faithful(e) && IsDump(e, snap, store, chunks, ms) && DistinctTables(snap.header.tables) && i < |ms|
    ensures ReadArchive(e, Without(ms, i), restore).Err?
  {
    var h, body, last := DumpShape(e, snap, store, chunks, ms);
    if i == |ms| - 1 {
      WithoutEnds(h, body, last);
      RejectsPrefix(e, snap, store, chunks, ms, i, restore);
    } else if i == 0 {
      WithoutEnds(h, body, last);
      RejectsHeadless(e, body, last, restore);
    } else {
      RejectsRemovedInside(e, h, body, last, i - 1, restore);
      WithoutInside(h, body, last, i - 1);
    }
  }

  /** Without its header an archive is refused at once. */
  lemma RejectsHeadless(e: Env, body: seq<Member>, last: Member, restore: bool)
    requires body != [] && FilesAndBlobs(body)
    ensures ReadArchive(e, body + [last], restore).Err?
  {
    HeaderNotFile();
    assert (body + [last])[0] == body[0];
    assert ReadHeader(e, body + [last]).Err?;
  }

  lemma RejectsRemovedInside(e: Env, h: Member, body: seq<Member>, last: Member, i: nat, restore: bool)
    requires i < |body| && Lists(e, h, body, last) && FilesAndBlobs(body) && DistinctFiles(body)
    ensures ReadArchive(e, Whole(h, Without(body, i), last), restore).Err?
  {
    if IsFile(body[i]) {
      RemovedFileShows(e, h.data, body, i);
    } else {
      RemovedBlobShows(body, i);
    }
    if ReadArchive(e, Whole(h, Without(body, i), last), restore).Ok? {
      AcceptedWhole(e, h, Without(body, i), last, restore);
    }
    NoPanicWhole(e, h, Without(body, i), last, restore);
  }

  /** No content but the manifest's own can be changed, short of a collision of the hash. */
  lemma RejectsChanged(e: Env, snap: Snapshot, store: Store, chunks: seq<seq<Bytes>>, ms: seq<Member>, i: nat,
                       data: Bytes, restore: bool)
    requires Faithful(e)
    requires IsDump(e, snap, store, chunks, ms) && DistinctTables(snap.header.tables)
    requires i < |ms| - 1 && data != ms[i].data
    ensures ReadArchive(e, ms[i := ms[i].(data := data)], restore).Err? || e.hash(data) == e.hash(ms[i].data)
  {
    var h, body, last := DumpShape(e, snap, store, chunks, ms);
    ChangedWhole(h, body, last, i, ms[i].(data := data));
    if i == 0 {
      if e.hash(data) != e.hash(h.data) {
        RejectsChangedHeader(e, h, body, last, data, restore);
      }
    } else {
      if e.hash(data) != e.hash(body[i - 1].data) {
        RejectsChangedInside(e, h, body, last, i - 1, data, restore);
      }
    }
  }

  lemma RejectsChangedHeader(e: Env, h: Member, body: seq<Member>, last: Member, data: Bytes, restore: bool)
    requires Lists(e, h, body, last) && FilesAndBlobs(body) && e.hash(data) != e.hash(h.data)
    ensures ReadArchive(e, Whole(h.(data := data), body, last), restore).Err?
  {
    SumsHeader(e, data, body);
    SumsHeader(e, h.data, body);
    NoPanicWhole(e, h.(data := data), body, last, restore);
    if ReadArchive(e, Whole(h.(data := data), body, last), restore).Ok? {
      AcceptedWhole(e, h.(data := data), body, last, restore);
    }
  }

  /** A changed file has another sum; a changed blob no longer hashes to its name. */
  lemma RejectsChangedInside(e: Env, h: Member, body: seq<Member>, last: Member, i: nat, data: Bytes, restore: bool)
    requires Lists(e, h, body, last) && BlobsHash(e, body) && FilesAndBlobs(body) && DistinctFiles(body)
    requires i < |body| && e.hash(data) != e.hash(body[i].data)
    ensures ReadArchive(e, Whole(h, body[i := body[i].(data := data)], last), restore).Err?
  {
    var body' := body[i := body[i].(data := data)];
    assert forall j :: 0 <= j < |body| ==> body'[j].name == body[j].name;
    assert FilesAndBlobs(body');
    NoPanicWhole(e, h, body', last, restore);
    if IsFile(body[i]) {
      assert DistinctFiles(body');
      SumsValue(e, h.data, body, i);
      SumsValue(e, h.data, body', i);
    }
    if ReadArchive(e, Whole(h, body', last), restore).Ok? {
      AcceptedWhole(e, h, body', last, restore);
    }
  }
}
