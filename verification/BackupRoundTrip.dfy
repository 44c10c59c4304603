/**
 Reading what a dump wrote always succeeds and gives the same data back: every
 table's COPY bytes, the sequences, the blobs, the row counts and the missing list.
 */
module BackupRoundTrip {
  import opened Common
  import opened BackupFormat
  import opened BackupReader
  import opened BackupTamper
  import opened Decimal

  /** What the dump relies on: the installation can read its own header and the metadata is small enough. */
  ghost predicate Readable(e: Env, snap: Snapshot, store: Store, chunks: seq<seq<Bytes>>)
    requires |snap.header.tables| == |snap.copies| == |chunks|
  {
    && snap.header.format == FORMAT_VERSION && snap.header.migrations <= e.migrations
    && |e.encHeader(snap.header)| <= META_LIMIT && |e.encSequences(snap.sequences)| <= META_LIMIT
    && |e.encManifest(ManifestOf(e, snap, store, Body(e, snap, store, chunks)))| <= META_LIMIT
  }

  /** What the database guarantees: named, distinct tables, well-formed digests, and COPY counting the rows it reads. */
  ghost predicate Sane(e: Env, snap: Snapshot) {
    && DistinctTables(snap.header.tables) && |snap.header.tables| == |snap.copies|
    && (forall i :: 0 <= i < |snap.header.tables| ==> snap.header.tables[i].name != "")
    && (forall b :: b in snap.blobs ==> ValidDigest(b.digest))
    && e.rowsOf([]) == 0
    && (forall i :: 0 <= i < |snap.copies| ==> e.rowsOf(Flatten(snap.copies[i].pieces)) == snap.copies[i].rows)
  }

  // ------------------------------------------------------------------ one table

  /** The state after c > 0 chunks of a table that was not being read before. */
  ghost predicate AfterChunks(e: Env, s: State, t: string, cs: seq<Bytes>, c: nat, s': State)
    requires c <= |cs|
  {
    if c == 0 then s' == s
    else
      s' == EndTable(e, s).(cur := t, loaded := s.loaded[t := Flatten(cs[..c])], sums := s'.sums,
                            dbBytes := s.dbBytes + |Flatten(cs[..c])|)
  }

  lemma {:induction false} ReadChunks(e: Env, tables: set<string>, s: State, t: string, cs: seq<Bytes>, c: nat)
    requires t in tables && t !in s.done && t != s.cur && t != "" && s.man.None? && c <= |cs|
    ensures Run(e, tables, s, ChunkMembers(t, cs)[..c]).Ok?
    ensures AfterChunks(e, s, t, cs, c, Run(e, tables, s, ChunkMembers(t, cs)[..c]).value)
  {
    if c > 0 {
      var ms := ChunkMembers(t, cs);
      ReadChunks(e, tables, s, t, cs, c - 1);
      var s1 := Run(e, tables, s, ms[..c - 1]).value;
      assert ms[..c][..c - 1] == ms[..c - 1];
      ClassifyChunk(t, c - 1);
      assert cs[..c][..c - 1] == cs[..c - 1];
      ReadOneChunk(e, tables, s, t, cs, c, s1);
    }
  }

  lemma ReadOneChunk(e: Env, tables: set<string>, s: State, t: string, cs: seq<Bytes>, c: nat, s1: State)
    requires t in tables && t !in s.done && t != s.cur && t != "" && s.man.None? && 0 < c <= |cs|
    requires AfterChunks(e, s, t, cs, c - 1, s1) && Classify(ChunkName(t, c - 1)) == Chunk(t)
    requires Flatten(cs[..c]) == Flatten(cs[..c - 1]) + cs[c - 1]
    ensures var r := Step(e, tables, s1, Member(ChunkName(t, c - 1), cs[c - 1]));
            r.Ok? && AfterChunks(e, s, t, cs, c, r.value)
  {
    if c == 1 {
      assert cs[..0] == [] && s1 == s;
      assert StartTable(e, s1, t) == EndTable(e, s).(cur := t, loaded := s.loaded[t := []]);
    } else {
      assert StartTable(e, s1, t) == s1;
    }
  }

  // ----------------------------------------------------------------- all tables

  /** The tables the load has seen: the finished ones and the current one. */
  function Seen(s: State): set<string> { s.done + if s.cur == "" then {} else {s.cur} }

  /** The tables seen are those loaded; the finished ones are counted. */
  ghost predicate Books(e: Env, s: State) {
    && s.man.None? && s.stored == map[] && s.cur !in s.done && s.sequences == []
    && s.loaded.Keys == Seen(s) && s.rows.Keys == s.done
    && (forall t :: t in s.done ==> t in s.loaded && s.rows[t] == e.rowsOf(s.loaded[t]))
  }

  /** Each of the first i tables has been loaded with exactly its bytes, and no other has. */
  ghost predicate Contents(ts: seq<Table>, chunks: seq<seq<Bytes>>, i: nat, loaded: map<string, Bytes>)
    requires i <= |ts| == |chunks|
  {
    && (forall t :: t in loaded ==> exists j :: 0 <= j < i && ts[j].name == t)
    && (forall j :: 0 <= j < i ==> Get(loaded, ts[j].name, []) == Flatten(chunks[j]))
  }

  ghost predicate TablesRead(e: Env, ts: seq<Table>, chunks: seq<seq<Bytes>>, i: nat, s: State)
    requires i <= |ts| == |chunks|
  {
    Books(e, s) && Contents(ts, chunks, i, s.loaded) && s.dbBytes == TotalBytes(chunks[..i])
  }

  lemma {:induction false} ReadTables(e: Env, header: Bytes, names: set<string>, ts: seq<Table>,
                                      chunks: seq<seq<Bytes>>, i: nat)
    requires i <= |ts| == |chunks| && DistinctTables(ts)
    requires forall j :: 0 <= j < |ts| ==> ts[j].name in names && ts[j].name != ""
    ensures var r := Run(e, names, Init(e, header), TableMembers(ts[..i], chunks[..i]));
            r.Ok? && TablesRead(e, ts, chunks, i, r.value)
  {
    if i > 0 {
      var t, cs := ts[i - 1].name, chunks[i - 1];
      ReadTables(e, header, names, ts, chunks, i - 1);
      assert ts[..i][..i - 1] == ts[..i - 1] && chunks[..i][..i - 1] == chunks[..i - 1];
      var before := TableMembers(ts[..i - 1], chunks[..i - 1]);
      var s := Run(e, names, Init(e, header), before).value;
      assert t !in s.loaded;
      ReadChunks(e, names, s, t, cs, |cs|);
      assert ChunkMembers(t, cs)[..|cs|] == ChunkMembers(t, cs) && cs[..|cs|] == cs;
      FoldConcat(Stepper(e, names), Init(e, header), before, ChunkMembers(t, cs));
      TablesReadNext(e, ts, chunks, i, s, Run(e, names, s, ChunkMembers(t, cs)).value);
    }
  }

  lemma EndTableBooks(e: Env, s: State)
    requires Books(e, s)
    ensures EndTable(e, s).done == Seen(s) && EndTable(e, s).rows.Keys == Seen(s)
    ensures forall t :: t in Seen(s) ==> EndTable(e, s).rows[t] == e.rowsOf(s.loaded[t])
  {
  }

  lemma BooksNext(e: Env, s: State, t: string, cs: seq<Bytes>, s': State)
    requires Books(e, s) && t != "" && t !in s.loaded && AfterChunks(e, s, t, cs, |cs|, s')
    ensures Books(e, s')
  {
    EndTableBooks(e, s);
    if cs != [] {
      assert s'.loaded.Keys == s.loaded.Keys + {t};
    }
  }

  lemma ContentsNext(ts: seq<Table>, chunks: seq<seq<Bytes>>, i: nat, loaded: map<string, Bytes>,
                     loaded': map<string, Bytes>)
    requires 0 < i <= |ts| == |chunks| && DistinctTables(ts) && Contents(ts, chunks, i - 1, loaded)
    requires ts[i - 1].name !in loaded
    requires loaded' == if chunks[i - 1] == [] then loaded else loaded[ts[i - 1].name := Flatten(chunks[i - 1])]
    ensures Contents(ts, chunks, i, loaded')
  {
    forall j | 0 <= j < i
      ensures Get(loaded', ts[j].name, []) == Flatten(chunks[j])
    {
      assert j < i - 1 ==> ts[j].name != ts[i - 1].name && Get(loaded, ts[j].name, []) == Flatten(chunks[j]);
    }
    forall u | u in loaded'
      ensures exists j :: 0 <= j < i && ts[j].name == u
    {
      if u in loaded {
        var j :| 0 <= j < i - 1 && ts[j].name == u;
      } else {
        assert ts[i - 1].name == u;
      }
    }
  }

  lemma TablesReadNext(e: Env, ts: seq<Table>, chunks: seq<seq<Bytes>>, i: nat, s: State, s': State)
    requires 0 < i <= |ts| == |chunks| && DistinctTables(ts) && ts[i - 1].name != ""
    requires TablesRead(e, ts, chunks, i - 1, s) && ts[i - 1].name !in s.loaded
    requires AfterChunks(e, s, ts[i - 1].name, chunks[i - 1], |chunks[i - 1]|, s')
    ensures TablesRead(e, ts, chunks, i, s')
  {
    var cs := chunks[i - 1];
    assert cs[..|cs|] == cs && chunks[..i][..i - 1] == chunks[..i - 1];
    BooksNext(e, s, ts[i - 1].name, cs, s');
    ContentsNext(ts, chunks, i, s.loaded, s'.loaded);
  }

  // --------------------------------------------------------------------- blobs

  function StoredBlobs(store: Store, bs: seq<BlobRow>): map<string, Bytes> {
    if bs == [] then map[]
    else
      var b, m := bs[|bs| - 1], StoredBlobs(store, bs[..|bs| - 1]);
      if b.digest in store && b.size <= |store[b.digest]| then m[b.digest := store[b.digest][..b.size]] else m
  }

  /** Reading the blobs changes nothing else once no table is open. */
  lemma {:induction false} ReadBlobs(e: Env, names: set<string>, s: State, store: Store, bs: seq<BlobRow>)
    requires s.man.None? && s.cur == "" && s.stored == map[]
    requires forall b :: b in bs ==> ValidDigest(b.digest) && (b.digest in store ==> Intact(e, store, b))
    ensures var r := Run(e, names, s, BlobMembers(store, bs));
            && r.Ok?
            && r.value == s.(blobs := r.value.blobs, blobBytes := r.value.blobBytes, stored := StoredBlobs(store, bs))
  {
    if bs != [] {
      var n := |bs| - 1;
      var b, ms := bs[n], BlobMembers(store, bs[..n]);
      ReadBlobs(e, names, s, store, bs[..n]);
      if b.digest in store {
        assert Intact(e, store, b);
        ClassifyBlob(b.digest);
        FoldSnoc(Stepper(e, names), s, ms, Member(BlobName(b.digest), store[b.digest][..b.size]));
      }
    }
  }

  // --------------------------------------------------------------- the theorem

  lemma ReadsSequences(e: Env, names: set<string>, s: State, seqs: seq<Sequence>)
    requires Faithful(e) && s.man.None? && |e.encSequences(seqs)| <= META_LIMIT
    ensures var r := Step(e, names, s, Member(SEQUENCES_NAME, e.encSequences(seqs)));
            r.Ok? && r.value == EndTable(e, s).(sums := r.value.sums, sequences := seqs)
  {
    HeaderNotFile();
  }

  /** The state when the manifest is about to be read. */
  lemma ReadBody(e: Env, snap: Snapshot, store: Store, chunks: seq<seq<Bytes>>) returns (s: State, t: State)
    requires Faithful(e) && Sane(e, snap) && Chunked(snap, chunks) && Readable(e, snap, store, chunks)
    requires forall b :: b in snap.blobs && b.digest in store ==> Intact(e, store, b)
    ensures TablesRead(e, snap.header.tables, chunks, |chunks|, s)
    ensures Run(e, TableNames(snap.header), Init(e, e.encHeader(snap.header)), Body(e, snap, store, chunks)) == Ok(t)
    ensures t.man.None? && t.cur == ""
    ensures t == EndTable(e, s).(sums := t.sums, sequences := snap.sequences, blobs := t.blobs,
                                 blobBytes := t.blobBytes,
                                 stored := StoredBlobs(store, snap.blobs))
  {
    var names, h, ts := TableNames(snap.header), e.encHeader(snap.header), snap.header.tables;
    var ms := TableMembers(ts, chunks);
    ReadTables(e, h, names, ts, chunks, |ts|);
    assert ts[..|ts|] == ts && chunks[..|ts|] == chunks;
    var step, init := Stepper(e, names), Init(e, h);
    s := Run(e, names, init, ms).value;
    var m := Member(SEQUENCES_NAME, e.encSequences(snap.sequences));
    ReadsSequences(e, names, s, snap.sequences);
    FoldSnoc(step, init, ms, m);
    var s1 := Step(e, names, s, m).value;
    ReadBlobs(e, names, s1, store, snap.blobs);
    FoldConcat(step, init, ms + [m], BlobMembers(store, snap.blobs));
    t := Run(e, names, s1, BlobMembers(store, snap.blobs)).value;
  }

  /** A table's count is that of its last entry; names are distinct, so it is its own. */
  lemma {:induction false} RowCountsAt(ts: seq<Table>, copies: seq<Copy>, i: nat)
    requires |ts| == |copies| && DistinctTables(ts) && i < |ts|
    ensures ts[i].name in RowCounts(ts, copies) && RowCounts(ts, copies)[ts[i].name] == copies[i].rows
  {
    var n := |ts| - 1;
    if i < n {
      RowCountsAt(ts[..n], copies[..n], i);
    }
  }

  lemma {:induction false} RowCountsKeys(ts: seq<Table>, copies: seq<Copy>, t: string) returns (i: nat)
    requires |ts| == |copies| && t in RowCounts(ts, copies)
    ensures i < |ts| && ts[i].name == t
  {
    var n := |ts| - 1;
    if t == ts[n].name {
      i := n;
    } else {
      i := RowCountsKeys(ts[..n], copies[..n], t);
    }
  }

  lemma RowsCounted(e: Env, snap: Snapshot, chunks: seq<seq<Bytes>>, s: State, man: Manifest)
    requires Sane(e, snap) && Chunked(snap, chunks) && TablesRead(e, snap.header.tables, chunks, |chunks|, s)
    requires man.rows == RowCounts(snap.header.tables, snap.copies)
    ensures RowsAgree(man, EndTable(e, s)) && man.rows.Keys <= TableNames(snap.header)
  {
    var ts := snap.header.tables;
    EndTableBooks(e, s);
    forall t | t in man.rows
      ensures Get(EndTable(e, s).rows, t, 0) == man.rows[t] && t in TableNames(snap.header)
    {
      var i := RowCountsKeys(ts, snap.copies, t);
      RowCountsAt(ts, snap.copies, i);
      assert Get(s.loaded, t, []) == Flatten(chunks[i]);
    }
  }

  /** Every table comes back with exactly its COPY output. */
  lemma LoadedSame(e: Env, snap: Snapshot, chunks: seq<seq<Bytes>>, s: State)
    requires Chunked(snap, chunks) && TablesRead(e, snap.header.tables, chunks, |chunks|, s)
    ensures forall i :: 0 <= i < |snap.copies| ==>
              Get(s.loaded, snap.header.tables[i].name, []) == Flatten(snap.copies[i].pieces)
    ensures s.loaded.Keys <= TableNames(snap.header)
    ensures s.dbBytes == TotalBytes(chunks)
  {
    assert chunks[..|chunks|] == chunks;
    forall t | t in s.loaded
      ensures t in TableNames(snap.header)
    {
      var j :| 0 <= j < |chunks| && snap.header.tables[j].name == t;
    }
  }

  /** What comes back is what was dumped. */
  ghost predicate SameData(e: Env, snap: Snapshot, store: Store, chunks: seq<seq<Bytes>>, r: Restored)
    requires |snap.header.tables| == |snap.copies| == |chunks|
  {
    && r.header == snap.header && r.sequences == snap.sequences
    && (forall i :: 0 <= i < |snap.copies| ==>
          Get(r.loaded, snap.header.tables[i].name, []) == Flatten(snap.copies[i].pieces))
    && r.loaded.Keys <= TableNames(snap.header)
    && r.rows == RowCounts(snap.header.tables, snap.copies)
    && r.stored == StoredBlobs(store, snap.blobs) && r.missing == MissingBlobs(store, snap.blobs)
    && r.blobs == BlobCount(Body(e, snap, store, chunks)) && r.blobBytes == BlobBytes(Body(e, snap, store, chunks))
    && r.dbBytes == TotalBytes(chunks)
  }

  lemma ReadsOwnHeader(e: Env, snap: Snapshot, store: Store, chunks: seq<seq<Bytes>>, ms: seq<Member>)
    requires Faithful(e) && IsDump(e, snap, store, chunks, ms) && Readable(e, snap, store, chunks)
    ensures ms != [] && ReadHeader(e, ms) == Ok(snap.header) && ms[0].data == e.encHeader(snap.header)
    ensures var body := Body(e, snap, store, chunks);
            ms[1..] == body + [Member(MANIFEST_NAME, e.encManifest(ManifestOf(e, snap, store, body)))]
  {
  }

  lemma ReadsManifest(e: Env, names: set<string>, s: State, man: Manifest)
    requires Faithful(e) && s.man.None? && s.cur == "" && |e.encManifest(man)| <= META_LIMIT
    ensures Step(e, names, s, Member(MANIFEST_NAME, e.encManifest(man))) == Ok(s.(man := Some(man)))
  {
    HeaderNotFile();
  }

  /** The state after the manifest. */
  lemma ReadAll(e: Env, snap: Snapshot, store: Store, chunks: seq<seq<Bytes>>, ms: seq<Member>)
    returns (s: State, t: State)
    requires Faithful(e) && Sane(e, snap) && IsDump(e, snap, store, chunks, ms) && Readable(e, snap, store, chunks)
    ensures TablesRead(e, snap.header.tables, chunks, |chunks|, s)
    ensures ReadHeader(e, ms) == Ok(snap.header) && ms[0].data == e.encHeader(snap.header)
    ensures Run(e, TableNames(snap.header), Init(e, ms[0].data), ms[1..]) == Ok(t)
    ensures var body := Body(e, snap, store, chunks);
            && t.man == Some(ManifestOf(e, snap, store, body)) && t.sums == t.man.value.files
            && t.loaded == s.loaded && t.rows == EndTable(e, s).rows && t.dbBytes == s.dbBytes
            && t.sequences == snap.sequences && t.stored == StoredBlobs(store, snap.blobs)
            && t.blobs == BlobCount(body) && t.blobBytes == BlobBytes(body)
  {
    var names, h := TableNames(snap.header), e.encHeader(snap.header);
    var body := Body(e, snap, store, chunks);
    var last := Member(MANIFEST_NAME, e.encManifest(ManifestOf(e, snap, store, body)));
    s, t := ReadBody(e, snap, store, chunks);
    RunAccounts(e, names, h, body);
    ReadsManifest(e, names, t, ManifestOf(e, snap, store, body));
    FoldSnoc(Stepper(e, names), Init(e, h), body, last);
    ReadsOwnHeader(e, snap, store, chunks, ms);
    t := t.(man := Some(ManifestOf(e, snap, store, body)));
  }

  /** Reading a dump succeeds, with or without a target, and restores everything. */
  lemma ReadDump(e: Env, snap: Snapshot, store: Store, chunks: seq<seq<Bytes>>, ms: seq<Member>, restore: bool)
    requires Faithful(e) && Sane(e, snap) && IsDump(e, snap, store, chunks, ms) && Readable(e, snap, store, chunks)
    ensures ReadArchive(e, ms, restore).Ok? && SameData(e, snap, store, chunks, ReadArchive(e, ms, restore).value)
  {
    var s, t := ReadAll(e, snap, store, chunks, ms);
    RowsCounted(e, snap, chunks, s, t.man.value);
    LoadedSame(e, snap, chunks, s);
  }

  // -------------------------------------------- what comes back, of the snapshot itself

  /** A registered blob that the store has comes back with its registered bytes, if it is registered once. */
  ghost predicate BlobBack(snap: Snapshot, store: Store, stored: map<string, Bytes>, b: BlobRow)
    requires b.digest in store
  {
    && b.digest in stored
    && (exists x :: x in snap.blobs && x.digest == b.digest && x.size <= |store[b.digest]|
                    && stored[b.digest] == store[b.digest][..x.size])
    && ((forall x :: x in snap.blobs && x.digest == b.digest ==> x == b) ==>
          b.size <= |store[b.digest]| && stored[b.digest] == store[b.digest][..b.size])
  }

  ghost predicate Registered(snap: Snapshot, d: string) { exists b :: b in snap.blobs && b.digest == d }

  /** Everything in the snapshot comes back, blobs the store does not have being listed as missing. */
  ghost predicate ComesBack(snap: Snapshot, store: Store, r: Restored)
    requires |snap.header.tables| == |snap.copies|
  {
    && r.header == snap.header && r.sequences == snap.sequences
    && (forall i :: 0 <= i < |snap.copies| ==>
          var t := snap.header.tables[i].name;
          && t in r.rows && r.rows[t] == snap.copies[i].rows
          && Get(r.loaded, t, []) == Flatten(snap.copies[i].pieces))
    && (forall t :: t in r.rows || t in r.loaded ==>
          exists i :: 0 <= i < |snap.copies| && snap.header.tables[i].name == t)
    && (forall b :: b in snap.blobs && b.digest in store ==> BlobBack(snap, store, r.stored, b))
    && (forall d :: d in r.stored ==> d in store && Registered(snap, d))
    && (forall d :: d in r.missing <==> d !in store && Registered(snap, d)) && r.missing == Absent(store, snap.blobs)
  }

  /** The registered digests the store does not have, in order. */
  function Absent(store: Store, bs: seq<BlobRow>): seq<string> {
    if bs == [] then [] else (if bs[0].digest in store then [] else [bs[0].digest]) + Absent(store, bs[1..])
  }

  lemma {:induction false} MissingIsAbsent(store: Store, bs: seq<BlobRow>)
    ensures MissingBlobs(store, bs) == Absent(store, bs)
  {
    if bs != [] {
      var n := |bs| - 1;
      assert bs == bs[..n] + [bs[n]];
      MissingIsAbsent(store, bs[..n]);
      AbsentSnoc(store, bs[..n], bs[n]);
    }
  }

  lemma {:induction false} AbsentSnoc(store: Store, bs: seq<BlobRow>, b: BlobRow)
    ensures Absent(store, bs + [b]) == Absent(store, bs) + if b.digest in store then [] else [b.digest]
  {
    if bs == [] {
      assert bs + [b] == [b];
    } else {
      assert (bs + [b])[1..] == bs[1..] + [b];
      AbsentSnoc(store, bs[1..], b);
    }
  }

  lemma {:induction false} StoredFrom(store: Store, bs: seq<BlobRow>, d: string)
    requires forall b :: b in bs && b.digest in store ==> b.size <= |store[b.digest]|
    ensures d in StoredBlobs(store, bs) <==> d in store && exists b :: b in bs && b.digest == d
    ensures d in StoredBlobs(store, bs) ==>
              exists b :: b in bs && b.digest == d && StoredBlobs(store, bs)[d] == store[d][..b.size]
  {
    if bs != [] {
      var n := |bs| - 1;
      assert bs == bs[..n] + [bs[n]];
      StoredFrom(store, bs[..n], d);
    }
  }

  lemma {:induction false} MissingFrom(store: Store, bs: seq<BlobRow>, d: string)
    ensures d in MissingBlobs(store, bs) <==> d !in store && exists b :: b in bs && b.digest == d
  {
    if bs != [] {
      var n := |bs| - 1;
      assert bs == bs[..n] + [bs[n]];
      MissingFrom(store, bs[..n], d);
    }
  }

  lemma RowsFrom(ts: seq<Table>, copies: seq<Copy>)
    requires |ts| == |copies| && DistinctTables(ts)
    ensures forall i :: 0 <= i < |ts| ==>
              ts[i].name in RowCounts(ts, copies) && RowCounts(ts, copies)[ts[i].name] == copies[i].rows
    ensures forall t :: t in RowCounts(ts, copies) ==> exists i :: 0 <= i < |ts| && ts[i].name == t
  {
    forall i | 0 <= i < |ts|
      ensures ts[i].name in RowCounts(ts, copies) && RowCounts(ts, copies)[ts[i].name] == copies[i].rows
    {
      RowCountsAt(ts, copies, i);
    }
    forall t | t in RowCounts(ts, copies)
      ensures exists i :: 0 <= i < |ts| && ts[i].name == t
    {
      var i := RowCountsKeys(ts, copies, t);
    }
  }

  lemma BlobsBack(snap: Snapshot, store: Store)
    requires forall b :: b in snap.blobs && b.digest in store ==> b.size <= |store[b.digest]|
    ensures var stored := StoredBlobs(store, snap.blobs);
            && (forall b :: b in snap.blobs && b.digest in store ==> BlobBack(snap, store, stored, b))
            && (forall d :: d in stored ==> d in store && Registered(snap, d))
    ensures forall d :: d in MissingBlobs(store, snap.blobs) <==> d !in store && Registered(snap, d)
  {
    forall b | b in snap.blobs && b.digest in store
      ensures BlobBack(snap, store, StoredBlobs(store, snap.blobs), b)
    {
      StoredFrom(store, snap.blobs, b.digest);
    }
    forall d
      ensures d in StoredBlobs(store, snap.blobs) ==> d in store && Registered(snap, d)
      ensures d in MissingBlobs(store, snap.blobs) <==> d !in store && Registered(snap, d)
    {
      StoredFrom(store, snap.blobs, d);
      MissingFrom(store, snap.blobs, d);
    }
  }

  /** A dump gives back the snapshot. */
  lemma DumpComesBack(e: Env, snap: Snapshot, store: Store, chunks: seq<seq<Bytes>>, ms: seq<Member>, restore: bool)
    requires Faithful(e) && Sane(e, snap) && IsDump(e, snap, store, chunks, ms) && Readable(e, snap, store, chunks)
    ensures ReadArchive(e, ms, restore).Ok? && ComesBack(snap, store, ReadArchive(e, ms, restore).value)
  {
    ReadDump(e, snap, store, chunks, ms, restore);
    SameComesBack(e, snap, store, chunks, ReadArchive(e, ms, restore).value);
  }

  lemma SameComesBack(e: Env, snap: Snapshot, store: Store, chunks: seq<seq<Bytes>>, r: Restored)
    requires |snap.header.tables| == |snap.copies| == |chunks| && DistinctTables(snap.header.tables)
    requires forall b :: b in snap.blobs && b.digest in store ==> b.size <= |store[b.digest]|
    requires SameData(e, snap, store, chunks, r)
    ensures ComesBack(snap, store, r)
  {
    RowsFrom(snap.header.tables, snap.copies);
    MissingIsAbsent(store, snap.blobs);
    BlobsBack(snap, store);
    forall t | t in r.loaded ensures exists i :: 0 <= i < |snap.copies| && snap.header.tables[i].name == t {
      assert t in TableNames(snap.header);
    }
  }

  // ------------------------------------------------------- where everything is

  /** The place of a chunk among all chunks. */
  function PlaceOf(chunks: seq<seq<Bytes>>, t: nat, c: nat): nat
    requires t <= |chunks|
  {
    if t == 0 then c else PlaceOf(chunks, t - 1, |chunks[t - 1]|) + c
  }

  /** The blobs that the store has. */
  function Present(store: Store, bs: seq<BlobRow>): seq<BlobRow> {
    if bs == [] then [] else (if bs[0].digest in store then [bs[0]] else []) + Present(store, bs[1..])
  }

  /** A chunk's member: under db/, its table, and its number of six digits or more. */
  ghost predicate IsChunk(m: Member, table: string, n: nat, data: Bytes) {
    && m.data == data
    && exists num :: m.name == "db/" + table + "/" + num && AllDigits(num) && Value(num) == n && |num| >= 6
                     && (|num| > 6 ==> num[0] != '0')
  }

  /** The chunks come after the header, table by table. */
  ghost predicate ChunksAt(tables: seq<Table>, chunks: seq<seq<Bytes>>, ms: seq<Member>)
    requires |tables| == |chunks|
  {
    forall t, c :: 0 <= t < |chunks| && 0 <= c < |chunks[t]| ==>
      && 1 + PlaceOf(chunks, t, c) < |ms|
      && IsChunk(ms[1 + PlaceOf(chunks, t, c)], tables[t].name, c, chunks[t][c])
  }

  /** The blobs, in the order they are registered. */
  ghost predicate BlobsAt(store: Store, bs: seq<BlobRow>, ms: seq<Member>, q: nat) {
    forall j :: 0 <= j < |bs| ==>
      && bs[j].digest in store && bs[j].size <= |store[bs[j].digest]| && q + j < |ms|
      && ms[q + j] == Member("blobs/" + bs[j].digest, store[bs[j].digest][..bs[j].size])
  }

  /** The header; the chunks, table by table; the sequences; the blobs; the manifest. */
  ghost predicate LaidOut(e: Env, snap: Snapshot, store: Store, chunks: seq<seq<Bytes>>, ms: seq<Member>)
    requires |snap.header.tables| == |chunks|
  {
    var q, bs := 1 + PlaceOf(chunks, |chunks|, 0), Present(store, snap.blobs);
    && |ms| == q + 1 + |bs| + 1
    && ms[0] == Member("cms-backup.json", e.encHeader(snap.header))
    && ChunksAt(snap.header.tables, chunks, ms[..q])
    && ms[q] == Member("db/sequences.json", e.encSequences(snap.sequences))
    && BlobsAt(store, bs, ms, q + 1)
    && ms[q + 1 + |bs|].name == "manifest.json"
  }

  lemma {:induction false} TablesPlaced(tables: seq<Table>, chunks: seq<seq<Bytes>>, t: nat, c: nat)
    requires |tables| == |chunks|
    ensures |TableMembers(tables, chunks)| == PlaceOf(chunks, |chunks|, 0)
    ensures t < |chunks| && c < |chunks[t]| ==>
              && PlaceOf(chunks, t, c) < |TableMembers(tables, chunks)|
              && TableMembers(tables, chunks)[PlaceOf(chunks, t, c)]
                 == Member(ChunkName(tables[t].name, c), chunks[t][c])
  {
    if tables != [] {
      var n := |tables| - 1;
      TablesPlaced(tables[..n], chunks[..n], t, c);
      SamePlace(chunks, n, n, 0);
      if t <= n {
        SamePlace(chunks, n, t, c);
      }
    }
  }

  lemma {:induction false} SamePlace(chunks: seq<seq<Bytes>>, n: nat, t: nat, c: nat)
    requires t <= n <= |chunks|
    ensures PlaceOf(chunks[..n], t, c) == PlaceOf(chunks, t, c) == PlaceOf(chunks, t, 0) + c
    decreases t
  {
    if t > 0 {
      SamePlace(chunks, n, t - 1, |chunks[t - 1]|);
    }
  }

  lemma {:induction false} BlobsPlaced(store: Store, bs: seq<BlobRow>)
    requires forall b :: b in bs && b.digest in store ==> b.size <= |store[b.digest]|
    ensures var ps, ms := Present(store, bs), BlobMembers(store, bs);
            && |ms| == |ps|
            && forall j :: 0 <= j < |ps| ==>
                 ps[j].digest in store && ps[j].size <= |store[ps[j].digest]|
                 && ms[j] == Member(BlobName(ps[j].digest), store[ps[j].digest][..ps[j].size])
  {
    if bs != [] {
      var n := |bs| - 1;
      assert bs == bs[..n] + [bs[n]];
      BlobsPlaced(store, bs[..n]);
      PresentSnoc(store, bs[..n], bs[n]);
    }
  }

  lemma {:induction false} PresentSnoc(store: Store, bs: seq<BlobRow>, b: BlobRow)
    ensures Present(store, bs + [b]) == Present(store, bs) + if b.digest in store then [b] else []
  {
    if bs == [] {
      assert bs + [b] == [b];
    } else {
      assert (bs + [b])[1..] == bs[1..] + [b];
      PresentSnoc(store, bs[1..], b);
    }
  }

  lemma ChunkNamed(table: string, n: nat, data: Bytes)
    ensures IsChunk(Member(ChunkName(table, n), data), table, n, data)
  {
    PaddedExactly(n, 6);
    var num := Padded(n, 6);
    assert ChunkName(table, n) == "db/" + table + "/" + num;
  }

  lemma Positions(h: Member, tm: seq<Member>, sm: Member, bm: seq<Member>, last: Member, ms: seq<Member>)
    requires ms == [h] + (tm + [sm] + bm) + [last]
    ensures |ms| == |tm| + |bm| + 3 && ms[0] == h && ms[1 + |tm|] == sm && ms[|tm| + |bm| + 2] == last
    ensures ms[..1 + |tm|] == [h] + tm && ms == [h] + tm + [sm] + bm + [last]
  {
  }

  lemma ChunksPlaced(tables: seq<Table>, chunks: seq<seq<Bytes>>, h: Member)
    requires |tables| == |chunks|
    ensures ChunksAt(tables, chunks, [h] + TableMembers(tables, chunks))
  {
    forall t, c | 0 <= t < |chunks| && 0 <= c < |chunks[t]|
      ensures var ms := [h] + TableMembers(tables, chunks);
              && 1 + PlaceOf(chunks, t, c) < |ms|
              && IsChunk(ms[1 + PlaceOf(chunks, t, c)], tables[t].name, c, chunks[t][c])
    {
      TablesPlaced(tables, chunks, t, c);
      ChunkNamed(tables[t].name, c, chunks[t][c]);
    }
  }

  lemma BlobsAfter(store: Store, bs: seq<BlobRow>, front: seq<Member>, last: Member)
    requires forall b :: b in bs && b.digest in store ==> b.size <= |store[b.digest]|
    ensures BlobsAt(store, Present(store, bs), front + BlobMembers(store, bs) + [last], |front|)
    ensures |BlobMembers(store, bs)| == |Present(store, bs)|
  {
    BlobsPlaced(store, bs);
  }

  /** Every member of a dump is in its place. */
  lemma DumpLaidOut(e: Env, snap: Snapshot, store: Store, chunks: seq<seq<Bytes>>, ms: seq<Member>)
    requires IsDump(e, snap, store, chunks, ms)
    ensures LaidOut(e, snap, store, chunks, ms)
  {
    var tables := snap.header.tables;
    var tm, bm := TableMembers(tables, chunks), BlobMembers(store, snap.blobs);
    var h, sm := Member(HEADER_NAME, e.encHeader(snap.header)), Member(SEQUENCES_NAME, e.encSequences(snap.sequences));
    var last := ms[|ms| - 1];
    Positions(h, tm, sm, bm, last, ms);
    TablesPlaced(tables, chunks, 0, 0);
    ChunksPlaced(tables, chunks, h);
    BlobsAfter(store, snap.blobs, [h] + tm + [sm], last);
  }
}
