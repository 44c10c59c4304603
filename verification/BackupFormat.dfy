/**
 The backup archive of internal/backup/archive.go: what is in it, what the reader
 does with each member, and when a backup is accepted. A tar archive is a sequence
 of named members; JSON, SHA-256 and COPY are functions of the environment.
 */
module BackupFormat {
  import opened Common
  import opened Decimal

  /** An answer, a refusal, or a crash of the program. */
  datatype Result<+T> = Ok(value: T) | Err | Panic {
    predicate IsFailure() { !Ok? }
    function PropagateFailure<U>(): Result<U> requires !Ok? { if Err? then Err else Panic }
    function Extract(): T requires Ok? { value }
  }

  datatype Member = Member(name: string, data: Bytes)

  datatype Table = Table(name: string, columns: seq<string>)
  datatype Header = Header(format: int, createdAt: int, version: string, migrations: seq<string>, tables: seq<Table>)
  datatype Sequence = Sequence(name: string, value: Option<int>)
  datatype FileSum = FileSum(size: nat, sha256: string)
  datatype Manifest = Manifest(
    files: map<string, FileSum>, rows: map<string, int>, blobs: nat, blobBytes: nat, missing: seq<string>)

  /** SHA-256, the JSON encodings, the rows COPY finds in a table's bytes, and the known migrations. */
  datatype Env = Env(
    hash: Hash,
    encHeader: Header -> Bytes, decHeader: Bytes -> Option<Header>,
    encSequences: seq<Sequence> -> Bytes, decSequences: Bytes -> Option<seq<Sequence>>,
    encManifest: Manifest -> Bytes, decManifest: Bytes -> Option<Manifest>,
    rowsOf: Bytes -> int,
    migrations: seq<string>)

  /** Decoding undoes encoding. */
  ghost predicate Faithful(e: Env) {
    && (forall h :: e.decHeader(e.encHeader(h)) == Some(h))
    && (forall s :: e.decSequences(e.encSequences(s)) == Some(s))
    && (forall m :: e.decManifest(e.encManifest(m)) == Some(m))
  }

  const FORMAT_VERSION := 1
  const CHUNK_SIZE := 8 * 1024 * 1024
  const META_LIMIT := 64 * 1024 * 1024
  const HEADER_NAME := "cms-backup.json"
  const MANIFEST_NAME := "manifest.json"
  const SEQUENCES_NAME := "db/sequences.json"

  // ---------------------------------------------------------------- the names

  /** What the reader makes of a member's name; `NoTable` is a name whose table part cannot be cut out. */
  datatype Kind = Sequences | Chunk(table: string) | NoTable | Blob(digest: string) | TheManifest | Unknown

  /** The index of the last slash, -1 without one. */
  function LastSlash(s: string): (i: int)
    ensures -1 <= i < |s|
  {
    if s == [] then -1 else if s[|s| - 1] == '/' then |s| - 1 else LastSlash(s[..|s| - 1])
  }

  function Classify(name: string): Kind {
    if name == SEQUENCES_NAME then Sequences
    else if "db/" <= name then
      if LastSlash(name) < 3 then NoTable else Chunk(name[3..LastSlash(name)])
    else if "blobs/" <= name then Blob(name[6..])
    else if name == MANIFEST_NAME then TheManifest
    else Unknown
  }

  function ChunkName(table: string, n: nat): string { "db/" + table + "/" + Padded(n, 6) }

  function BlobName(digest: string): string { "blobs/" + digest }

  lemma {:induction false} LastSlashBefore(p: string, d: string)
    requires AllDigits(d)
    ensures LastSlash(p + "/" + d) == |p|
  {
    var s := p + "/" + d;
    if d == [] {
      assert s[|s| - 1] == '/';
    } else {
      assert s[|s| - 1] == d[|d| - 1];
      assert s[..|s| - 1] == p + "/" + d[..|d| - 1];
      LastSlashBefore(p, d[..|d| - 1]);
    }
  }

  lemma ChunkNameParts(table: string, n: nat)
    ensures LastSlash(ChunkName(table, n)) == 3 + |table|
    ensures ChunkName(table, n)[3..3 + |table|] == table
    ensures ChunkName(table, n)[4 + |table|..] == Padded(n, 6)
  {
    LastSlashBefore("db/" + table, Padded(n, 6));
  }

  lemma ClassifyChunk(table: string, n: nat)
    ensures Classify(ChunkName(table, n)) == Chunk(table)
  {
    ChunkNameParts(table, n);
    var name := ChunkName(table, n);
    assert name[..3] == "db/";
    assert name[3 + |table|] == '/';
    assert forall i :: 3 <= i < |SEQUENCES_NAME| ==> SEQUENCES_NAME[i] != '/';
  }

  lemma ChunkNameInjective(t: string, m: nat, u: string, n: nat)
    requires ChunkName(t, m) == ChunkName(u, n)
    ensures t == u && m == n
  {
    ChunkNameParts(t, m);
    ChunkNameParts(u, n);
    PaddedInjective(m, n, 6);
  }

  lemma ClassifyBlob(digest: string)
    ensures Classify(BlobName(digest)) == Blob(digest)
  {
    var name := BlobName(digest);
    assert name[0] == 'b' && name[..6] == "blobs/" && name[6..] == digest;
  }

  // --------------------------------------------------------------- the chunks

  function Flatten(cs: seq<Bytes>): Bytes {
    if cs == [] then [] else Flatten(cs[..|cs| - 1]) + cs[|cs| - 1]
  }

  /** Cutting a stream: all chunks but the last have exactly `size` bytes, and no chunk is empty. */
  ghost predicate Cuts(cs: seq<Bytes>, s: Bytes, size: nat) {
    && Flatten(cs) == s
    && (forall i :: 0 <= i < |cs| - 1 ==> |cs[i]| == size)
    && (cs != [] ==> 0 < |cs[|cs| - 1]| <= size)
  }

  /** The bytes of all tables together. */
  function TotalBytes(chunks: seq<seq<Bytes>>): nat {
    if chunks == [] then 0 else TotalBytes(chunks[..|chunks| - 1]) + |Flatten(chunks[|chunks| - 1])|
  }

  // ----------------------------------------------------------------- the sums

  function SumOf(e: Env, data: Bytes): FileSum { FileSum(|data|, e.hash(data)) }

  /** The members whose sums the manifest lists, besides the header. */
  predicate IsFile(m: Member) { Classify(m.name).Sequences? || Classify(m.name).Chunk? }

  predicate IsBlob(m: Member) { Classify(m.name).Blob? }

  /** The sums of the header and of the files among `ms`. */
  function SumsOf(e: Env, header: Bytes, ms: seq<Member>): map<string, FileSum> {
    if ms == [] then map[HEADER_NAME := SumOf(e, header)]
    else
      var m, sums := ms[|ms| - 1], SumsOf(e, header, ms[..|ms| - 1]);
      if IsFile(m) then sums[m.name := SumOf(e, m.data)] else sums
  }

  function BlobCount(ms: seq<Member>): nat {
    if ms == [] then 0 else BlobCount(ms[..|ms| - 1]) + if IsBlob(ms[|ms| - 1]) then 1 else 0
  }

  function BlobBytes(ms: seq<Member>): nat {
    if ms == [] then 0 else BlobBytes(ms[..|ms| - 1]) + if IsBlob(ms[|ms| - 1]) then |ms[|ms| - 1].data| else 0
  }

  // ------------------------------------------------------------ what is dumped

  /** One table's COPY output, in the pieces the database sends it, and its row count. */
  datatype Copy = Copy(pieces: seq<Bytes>, rows: int)

  datatype BlobRow = BlobRow(digest: string, size: nat)

  /** The database as one snapshot shows it. */
  datatype Snapshot = Snapshot(header: Header, copies: seq<Copy>, sequences: seq<Sequence>, blobs: seq<BlobRow>)

  /** A blob is written with exactly its registered bytes, and only when they hash to its name. */
  predicate Intact(e: Env, store: Store, b: BlobRow) {
    b.digest in store && b.size <= |store[b.digest]| && e.hash(store[b.digest][..b.size]) == b.digest
  }

  function ChunkMembers(table: string, cs: seq<Bytes>): (ms: seq<Member>)
    ensures |ms| == |cs|
  {
    seq(|cs|, i requires 0 <= i < |cs| => Member(ChunkName(table, i), cs[i]))
  }

  /** The members of all tables; `chunks[i]` are the chunks of table i. */
  function TableMembers(tables: seq<Table>, chunks: seq<seq<Bytes>>): seq<Member>
    requires |tables| == |chunks|
  {
    if tables == [] then []
    else
      var n := |tables| - 1;
      TableMembers(tables[..n], chunks[..n]) + ChunkMembers(tables[n].name, chunks[n])
  }

  function BlobMembers(store: Store, bs: seq<BlobRow>): seq<Member> {
    if bs == [] then []
    else
      var b, ms := bs[|bs| - 1], BlobMembers(store, bs[..|bs| - 1]);
      if b.digest in store && b.size <= |store[b.digest]|
      then ms + [Member(BlobName(b.digest), store[b.digest][..b.size])] else ms
  }

  /** The registered blobs the store does not have, in order. */
  function MissingBlobs(store: Store, bs: seq<BlobRow>): seq<string> {
    if bs == [] then []
    else
      var b, ds := bs[|bs| - 1], MissingBlobs(store, bs[..|bs| - 1]);
      if b.digest in store then ds else ds + [b.digest]
  }

  function RowCounts(tables: seq<Table>, copies: seq<Copy>): map<string, int>
    requires |tables| == |copies|
  {
    if tables == [] then map[]
    else
      var n := |tables| - 1;
      RowCounts(tables[..n], copies[..n])[tables[n].name := copies[n].rows]
  }

  /** The members between the header and the manifest. */
  function Body(e: Env, snap: Snapshot, store: Store, chunks: seq<seq<Bytes>>): seq<Member>
    requires |snap.header.tables| == |chunks|
  {
    TableMembers(snap.header.tables, chunks) + [Member(SEQUENCES_NAME, e.encSequences(snap.sequences))]
    + BlobMembers(store, snap.blobs)
  }

  function ManifestOf(e: Env, snap: Snapshot, store: Store, body: seq<Member>): Manifest
    requires |snap.header.tables| == |snap.copies|
  {
    Manifest(SumsOf(e, e.encHeader(snap.header), body), RowCounts(snap.header.tables, snap.copies),
             BlobCount(body), BlobBytes(body), MissingBlobs(store, snap.blobs))
  }

  function Archive(e: Env, snap: Snapshot, store: Store, chunks: seq<seq<Bytes>>): seq<Member>
    requires |snap.header.tables| == |snap.copies| == |chunks|
  {
    var body := Body(e, snap, store, chunks);
    [Member(HEADER_NAME, e.encHeader(snap.header))] + body
    + [Member(MANIFEST_NAME, e.encManifest(ManifestOf(e, snap, store, body)))]
  }

  /** Every table's chunks cut its COPY output. */
  ghost predicate Chunked(snap: Snapshot, chunks: seq<seq<Bytes>>) {
    |snap.header.tables| == |snap.copies| == |chunks| && CutsAll(snap.copies, chunks)
  }

  ghost predicate CutsAll(copies: seq<Copy>, chunks: seq<seq<Bytes>>) {
    |chunks| <= |copies| && forall i :: 0 <= i < |chunks| ==> Cuts(chunks[i], Flatten(copies[i].pieces), 8388608)
  }

  /** `ms` is a dump of the snapshot: a schema is present and every blob in the store is intact. */
  ghost predicate IsDump(e: Env, snap: Snapshot, store: Store, chunks: seq<seq<Bytes>>, ms: seq<Member>) {
    && Chunked(snap, chunks) && snap.header.migrations != []
    && (forall b :: b in snap.blobs && b.digest in store ==> Intact(e, store, b))
    && ms == Archive(e, snap, store, chunks)
  }
}
