/**
 Writing a backup (internal/backup/archive.go, `archiveWriter`, `chunkWriter` and
 `dump`): what the imperative writer produces is exactly a dump of the snapshot.
 */
module BackupWriter {
  import opened Common
  import opened BackupFormat

  datatype BlobOutcome = Written(n: nat) | NotFound | Corrupted

  /** The archive being written and the sums of its files so far. */
  class ArchiveWriter {
    const e: Env
    var members: seq<Member>
    var sums: map<string, FileSum>

    ghost predicate Valid()
      reads this
    {
      members != [] && members[0].name == HEADER_NAME && sums == SumsOf(e, members[0].data, members[1..])
    }

    /** Opens an archive with its header, the first file. */
    constructor (e: Env, header: Bytes)
      ensures Valid() && this.e == e && members == [Member(HEADER_NAME, header)]
    {
      this.e := e;
      members := [Member(HEADER_NAME, header)];
      sums := map[HEADER_NAME := SumOf(e, header)];
    }

    method WriteRaw(name: string, b: Bytes)
      modifies this`members
      ensures members == old(members) + [Member(name, b)]
    {
      members := members + [Member(name, b)];
    }

    method WriteFile(name: string, b: Bytes)
      requires Valid() && IsFile(Member(name, b))
      modifies this
      ensures Valid() && members == old(members) + [Member(name, b)]
    {
      ghost var rest := members[1..];
      sums := sums[name := SumOf(e, b)];
      WriteRaw(name, b);
      assert members[1..] == rest + [Member(name, b)];
      assert (rest + [Member(name, b)])[..|rest|] == rest;
    }

    method WriteBlob(store: Store, b: BlobRow) returns (r: BlobOutcome)
      requires Valid()
      modifies this
      ensures r.NotFound? <==> b.digest !in store
      ensures r.Corrupted? <==> b.digest in store && !Intact(e, store, b)
      ensures Valid()
      ensures members == if r.Written? then old(members) + [Member(BlobName(b.digest), store[b.digest][..b.size])]
                         else old(members)
      ensures r.Written? ==> r.n == b.size
    {
      if b.digest !in store {
        return NotFound;
      }
      var content := store[b.digest];
      var read := if |content| < b.size then content else content[..b.size];
      if |read| != b.size || e.hash(read) != b.digest {
        return Corrupted;
      }
      ghost var rest := members[1..];
      ClassifyBlob(b.digest);
      WriteRaw(BlobName(b.digest), read);
      assert members[1..] == rest + [Member(BlobName(b.digest), read)];
      assert (rest + [Member(BlobName(b.digest), read)])[..|rest|] == rest;
      r := Written(|read|);
    }
  }

  /** Splits one table's COPY output into members of at most CHUNK_SIZE bytes. */
  class ChunkWriter {
    const aw: ArchiveWriter
    const table: string
    var buf: Bytes
    var n: nat
    var total: nat
    ghost var chunks: seq<Bytes>
    ghost const base: seq<Member>

    /** `chunks` have been written, all of them full; `buf` waits for more. */
    ghost predicate Valid()
      reads this, aw
    {
      && aw.Valid() && |buf| <= CHUNK_SIZE && n == |chunks| && total == |Flatten(chunks)|
      && aw.members == base + ChunkMembers(table, chunks)
      && forall i :: 0 <= i < |chunks| ==> |chunks[i]| == CHUNK_SIZE
    }

    constructor (aw: ArchiveWriter, table: string)
      requires aw.Valid()
      ensures Valid() && this.aw == aw && this.table == table && base == aw.members && chunks == [] && buf == []
    {
      this.aw, this.table, buf, n, total, chunks, base := aw, table, [], 0, 0, [], aw.members;
      new;
      assert base + ChunkMembers(table, []) == base;
    }

    /** Writes the buffer as the next chunk, unless it is empty. */
    method Flush()
      requires Valid()
      modifies this, aw
      ensures aw.Valid() && buf == [] && n == |chunks| && total == |Flatten(chunks)|
      ensures aw.members == base + ChunkMembers(table, chunks)
      ensures chunks == if old(buf) == [] then old(chunks) else old(chunks) + [old(buf)]
      ensures |old(buf)| == CHUNK_SIZE ==> Valid() && Flatten(chunks) == old(Flatten(chunks) + buf)
    {
      if |buf| == 0 {
        return;
      }
      ClassifyChunk(table, n);
      aw.WriteFile(ChunkName(table, n), buf);
      total := total + |buf|;
      n := n + 1;
      ChunkMembersSnoc(table, chunks, buf);
      FlattenSnoc(chunks, buf);
      chunks := chunks + [buf];
      buf := [];
    }

    /** Appends bytes that fit into the buffer, writing it as a chunk when it fills up. */
    method Buffer(part: Bytes)
      requires Valid() && |buf| + |part| <= CHUNK_SIZE
      modifies this, aw
      ensures Valid() && |buf| < CHUNK_SIZE && Flatten(chunks) + buf == old(Flatten(chunks) + buf) + part
    {
      buf := buf + part;
      if |buf| == CHUNK_SIZE {
        Flush();
      }
    }

    /** Appends bytes to the stream, writing every chunk that fills up. */
    method Write(p: Bytes)
      requires Valid() && |buf| < CHUNK_SIZE
      modifies this, aw
      ensures Valid() && |buf| < CHUNK_SIZE && Flatten(chunks) + buf == old(Flatten(chunks) + buf) + p
    {
      var rest := p;
      while |rest| > 0
        invariant Valid() && |buf| < CHUNK_SIZE
        invariant Flatten(chunks) + buf + rest == old(Flatten(chunks) + buf) + p
        decreases |rest|
      {
        var room := CHUNK_SIZE - |buf|;
        var k := if room < |rest| then room else |rest|;
        assert rest == rest[..k] + rest[k..];
        Buffer(rest[..k]);
        rest := rest[k..];
      }
    }
  }

  lemma FlattenSnoc(cs: seq<Bytes>, c: Bytes)
    ensures Flatten(cs + [c]) == Flatten(cs) + c
  {
    assert (cs + [c])[..|cs|] == cs;
  }

  lemma ChunkMembersSnoc(table: string, cs: seq<Bytes>, c: Bytes)
    ensures ChunkMembers(table, cs + [c]) == ChunkMembers(table, cs) + [Member(ChunkName(table, |cs|), c)]
  {
  }

  /** Copies one table: the members written are the chunks of its output. */
  method DumpTable(aw: ArchiveWriter, table: string, pieces: seq<Bytes>) returns (total: nat, ghost chunks: seq<Bytes>)
    requires aw.Valid()
    modifies aw
    ensures aw.Valid() && aw.members == old(aw.members) + ChunkMembers(table, chunks)
    ensures Cuts(chunks, Flatten(pieces), 8388608) && total == |Flatten(pieces)|
  {
    var cw := new ChunkWriter(aw, table);
    for i := 0 to |pieces|
      invariant cw.Valid() && |cw.buf| < CHUNK_SIZE && cw.aw == aw && cw.table == table && cw.base == old(aw.members)
      invariant fresh(cw)
      invariant Flatten(cw.chunks) + cw.buf == Flatten(pieces[..i])
    {
      cw.Write(pieces[i]);
      assert pieces[..i + 1][..i] == pieces[..i];
    }
    assert pieces[..|pieces|] == pieces;
    ghost var full := cw.chunks;
    FlattenSnoc(full, cw.buf);
    cw.Flush();
    chunks := cw.chunks;
    total := cw.total;
  }

  lemma TableMembersSnoc(base: seq<Member>, ts: seq<Table>, t: Table, chunks: seq<seq<Bytes>>, cs: seq<Bytes>)
    requires |ts| == |chunks|
    ensures base + TableMembers(ts + [t], chunks + [cs]) == base + TableMembers(ts, chunks) + ChunkMembers(t.name, cs)
  {
    assert (ts + [t])[..|ts|] == ts && (chunks + [cs])[..|ts|] == chunks;
  }

  lemma RowCountsSnoc(ts: seq<Table>, t: Table, copies: seq<Copy>, c: Copy)
    requires |ts| == |copies|
    ensures RowCounts(ts + [t], copies + [c]) == RowCounts(ts, copies)[t.name := c.rows]
  {
    assert (ts + [t])[..|ts|] == ts && (copies + [c])[..|ts|] == copies;
  }

  lemma ChunksSnoc(copies: seq<Copy>, chunks: seq<seq<Bytes>>, cs: seq<Bytes>)
    requires CutsAll(copies, chunks) && |chunks| < |copies| && Cuts(cs, Flatten(copies[|chunks|].pieces), CHUNK_SIZE)
    ensures CutsAll(copies, chunks + [cs])
  {
    forall i | 0 <= i < |chunks| + 1
      ensures Cuts((chunks + [cs])[i], Flatten(copies[i].pieces), CHUNK_SIZE)
    {
      assert (chunks + [cs])[i] == if i < |chunks| then chunks[i] else cs;
    }
  }

  lemma TotalBytesSnoc(chunks: seq<seq<Bytes>>, cs: seq<Bytes>)
    ensures TotalBytes(chunks + [cs]) == TotalBytes(chunks) + |Flatten(cs)|
  {
    assert (chunks + [cs])[..|chunks|] == chunks;
  }

  lemma TakeSnoc<T>(s: seq<T>, i: nat)
    requires i < |s|
    ensures s[..i + 1] == s[..i] + [s[i]]
  {
  }

  /** Writes the tables after the header. */
  method DumpTables(aw: ArchiveWriter, snap: Snapshot)
    returns (rows: map<string, int>, dbBytes: nat, ghost chunks: seq<seq<Bytes>>)
    requires aw.Valid() && |snap.header.tables| == |snap.copies|
    modifies aw
    ensures aw.Valid() && Chunked(snap, chunks) && rows == RowCounts(snap.header.tables, snap.copies)
    ensures aw.members == old(aw.members) + TableMembers(snap.header.tables, chunks) && dbBytes == TotalBytes(chunks)
  {
    var ts, copies := snap.header.tables, snap.copies;
    ghost var base := aw.members;
    rows, dbBytes, chunks := map[], 0, [];
    var i := 0;
    while i < |ts|
      invariant 0 <= i <= |ts| && aw.Valid() && |chunks| == i && dbBytes == TotalBytes(chunks)
                && CutsAll(copies, chunks)
      invariant rows == RowCounts(ts[..i], copies[..i])
      invariant aw.members == base + TableMembers(ts[..i], chunks)
    {
      var total, cs := DumpTable(aw, ts[i].name, copies[i].pieces);
      TakeSnoc(ts, i);
      TakeSnoc(copies, i);
      TableMembersSnoc(base, ts[..i], ts[i], chunks, cs);
      RowCountsSnoc(ts[..i], ts[i], copies[..i], copies[i]);
      ChunksSnoc(copies, chunks, cs);
      TotalBytesSnoc(chunks, cs);
      rows := rows[ts[i].name := copies[i].rows];
      dbBytes := dbBytes + total;
      chunks := chunks + [cs];
      i := i + 1;
    }
    assert ts[..|ts|] == ts && copies[..|ts|] == copies;
  }

  /** The blob rows `bs` have been written after the members `base`. */
  ghost predicate BlobsWritten(e: Env, base: seq<Member>, ms: seq<Member>, store: Store, bs: seq<BlobRow>,
                               blobs: nat, blobBytes: nat, missing: seq<string>)
  {
    && ms == base + BlobMembers(store, bs) && missing == MissingBlobs(store, bs)
    && blobs == BlobCount(BlobMembers(store, bs)) && blobBytes == BlobBytes(BlobMembers(store, bs))
    && forall b :: b in bs && b.digest in store ==> Intact(e, store, b)
  }

  lemma BlobMissing(e: Env, base: seq<Member>, ms: seq<Member>, store: Store, bs: seq<BlobRow>, b: BlobRow,
                    blobs: nat, blobBytes: nat, missing: seq<string>)
    requires BlobsWritten(e, base, ms, store, bs, blobs, blobBytes, missing) && b.digest !in store
    ensures BlobsWritten(e, base, ms, store, bs + [b], blobs, blobBytes, missing + [b.digest])
  {
    assert (bs + [b])[..|bs|] == bs;
  }

  lemma BlobWritten(e: Env, base: seq<Member>, ms: seq<Member>, store: Store, bs: seq<BlobRow>, b: BlobRow,
                    blobs: nat, blobBytes: nat, missing: seq<string>)
    requires BlobsWritten(e, base, ms, store, bs, blobs, blobBytes, missing) && b.digest in store && Intact(e, store, b)
    ensures BlobsWritten(e, base, ms + [Member(BlobName(b.digest), store[b.digest][..b.size])], store, bs + [b],
                         blobs + 1, blobBytes + b.size, missing)
  {
    assert (bs + [b])[..|bs|] == bs;
    BlobAdded(BlobMembers(store, bs), Member(BlobName(b.digest), store[b.digest][..b.size]), b.digest);
  }

  lemma BlobAdded(ms: seq<Member>, m: Member, digest: string)
    requires m.name == BlobName(digest)
    ensures BlobCount(ms + [m]) == BlobCount(ms) + 1 && BlobBytes(ms + [m]) == BlobBytes(ms) + |m.data|
  {
    ClassifyBlob(digest);
    assert (ms + [m])[..|ms|] == ms;
  }

  /** Writes one blob, or notes that the store lacks it; a damaged one stops the dump. */
  method DumpBlob(aw: ArchiveWriter, store: Store, b: BlobRow, blobs0: nat, blobBytes0: nat, missing0: seq<string>,
                  ghost base: seq<Member>, ghost bs: seq<BlobRow>)
    returns (ok: bool, blobs: nat, blobBytes: nat, missing: seq<string>)
    requires aw.Valid() && BlobsWritten(aw.e, base, aw.members, store, bs, blobs0, blobBytes0, missing0)
    modifies aw
    ensures ok <==> (b.digest in store ==> Intact(aw.e, store, b))
    ensures ok ==> aw.Valid() && BlobsWritten(aw.e, base, aw.members, store, bs + [b], blobs, blobBytes, missing)
  {
    ok, blobs, blobBytes, missing := true, blobs0, blobBytes0, missing0;
    ghost var before := aw.members;
    var r := aw.WriteBlob(store, b);
    if r.Corrupted? {
      ok := false;
    } else if r.NotFound? {
      BlobMissing(aw.e, base, before, store, bs, b, blobs, blobBytes, missing);
      missing := missing + [b.digest];
    } else {
      BlobWritten(aw.e, base, before, store, bs, b, blobs, blobBytes, missing);
      blobs, blobBytes := blobs + 1, blobBytes + r.n;
    }
  }

  /** Writes the blobs; those the store lacks are listed, and a damaged one stops the dump. */
  method DumpBlobs(aw: ArchiveWriter, store: Store, bs: seq<BlobRow>)
    returns (ok: bool, blobs: nat, blobBytes: nat, missing: seq<string>)
    requires aw.Valid()
    modifies aw
    ensures ok <==> forall b :: b in bs && b.digest in store ==> Intact(aw.e, store, b)
    ensures ok ==> aw.Valid() && BlobsWritten(aw.e, old(aw.members), aw.members, store, bs, blobs, blobBytes, missing)
  {
    ok, blobs, blobBytes, missing := true, 0, 0, [];
    ghost var base := aw.members;
    var i := 0;
    while i < |bs|
      invariant 0 <= i <= |bs| && aw.Valid()
      invariant BlobsWritten(aw.e, base, aw.members, store, bs[..i], blobs, blobBytes, missing)
    {
      TakeSnoc(bs, i);
      ok, blobs, blobBytes, missing := DumpBlob(aw, store, bs[i], blobs, blobBytes, missing, base, bs[..i]);
      if !ok {
        assert bs[i] in bs;
        return;
      }
      i := i + 1;
    }
    assert bs[..|bs|] == bs;
  }

  /** The tables and the sequences hold no blobs. */
  lemma {:induction false} BlobsOnlyAtEnd(ms: seq<Member>, bs: seq<Member>)
    requires forall i :: 0 <= i < |ms| ==> IsFile(ms[i])
    ensures BlobCount(ms + bs) == BlobCount(bs) && BlobBytes(ms + bs) == BlobBytes(bs)
  {
    if bs != [] {
      var n := |bs| - 1;
      assert (ms + bs)[..|ms| + n] == ms + bs[..n];
      BlobsOnlyAtEnd(ms, bs[..n]);
    } else if ms != [] {
      var n := |ms| - 1;
      assert (ms + [])[..n] == ms[..n] + [];
      BlobsOnlyAtEnd(ms[..n], []);
    }
  }

  lemma {:induction false} TablesAreFiles(ts: seq<Table>, chunks: seq<seq<Bytes>>, i: nat)
    requires |ts| == |chunks| && i < |TableMembers(ts, chunks)|
    ensures IsFile(TableMembers(ts, chunks)[i])
  {
    var n := |ts| - 1;
    var before := TableMembers(ts[..n], chunks[..n]);
    if i < |before| {
      TablesAreFiles(ts[..n], chunks[..n], i);
    } else {
      ClassifyChunk(ts[n].name, i - |before|);
    }
  }

  /** The blob counts of the manifest are those of the blob members. */
  lemma BodyBlobs(e: Env, snap: Snapshot, store: Store, chunks: seq<seq<Bytes>>)
    requires |snap.header.tables| == |chunks|
    ensures var body, bs := Body(e, snap, store, chunks), BlobMembers(store, snap.blobs);
            BlobCount(body) == BlobCount(bs) && BlobBytes(body) == BlobBytes(bs)
  {
    var files := TableMembers(snap.header.tables, chunks) + [Member(SEQUENCES_NAME, e.encSequences(snap.sequences))];
    forall i | 0 <= i < |files|
      ensures IsFile(files[i])
    {
      if i < |files| - 1 {
        TablesAreFiles(snap.header.tables, chunks, i);
      }
    }
    BlobsOnlyAtEnd(files, BlobMembers(store, snap.blobs));
  }

  /** Header, tables, sequences and blobs, written in this order, are the header and the body. */
  lemma BodyMembers(e: Env, snap: Snapshot, store: Store, chunks: seq<seq<Bytes>>, files: seq<Member>)
    requires |snap.header.tables| == |chunks|
    requires files == [Member(HEADER_NAME, e.encHeader(snap.header))] + TableMembers(snap.header.tables, chunks)
                      + [Member(SEQUENCES_NAME, e.encSequences(snap.sequences))]
    ensures var ms, h := files + BlobMembers(store, snap.blobs), Member(HEADER_NAME, e.encHeader(snap.header));
            ms == [h] + Body(e, snap, store, chunks) && ms[0] == h && ms[1..] == Body(e, snap, store, chunks)
  {
  }

  /**
   The dump. It fails exactly without a schema or with a damaged blob, and otherwise
   the archive is a dump of the snapshot.
   */
  method Dump(e: Env, snap: Snapshot, store: Store)
    returns (r: Result<seq<Member>>, dbBytes: nat, missing: seq<string>, ghost chunks: seq<seq<Bytes>>)
    requires |snap.header.tables| == |snap.copies|
    ensures r.Err? <==> snap.header.migrations == []
                        || exists b :: b in snap.blobs && b.digest in store && !Intact(e, store, b)
    ensures !r.Panic? && (r.Ok? ==> IsDump(e, snap, store, chunks, r.value))
    ensures r.Ok? ==> dbBytes == TotalBytes(chunks) && missing == MissingBlobs(store, snap.blobs)
  {
    r, dbBytes, missing, chunks := Err, 0, [], [];
    if |snap.header.migrations| == 0 {
      return;
    }
    var aw := new ArchiveWriter(e, e.encHeader(snap.header));
    var rows;
    rows, dbBytes, chunks := DumpTables(aw, snap);
    aw.WriteFile(SEQUENCES_NAME, e.encSequences(snap.sequences));
    ghost var files := aw.members;
    var ok, blobs, blobBytes;
    ok, blobs, blobBytes, missing := DumpBlobs(aw, store, snap.blobs);
    if !ok {
      return;
    }
    BodyMembers(e, snap, store, chunks, files);
    BodyBlobs(e, snap, store, chunks);
    var man := Manifest(aw.sums, rows, blobs, blobBytes, missing);
    aw.WriteRaw(MANIFEST_NAME, e.encManifest(man));
    r := Ok(aw.members);
  }
}
