/**
 Reading a backup (internal/backup/archive.go, `read` and `checkManifest`): the member
 loop as a state machine, and what an accepted archive must look like.
 */
module BackupReader {
  import opened Common
  import opened BackupFormat

  /**
   The reader's variables. A table is being loaded while `cur` is its name; `rows` are
   the row counts of the finished ones, `stored` the blobs handed to the store.
   */
  datatype State = State(
    cur: string, done: set<string>, loaded: map<string, Bytes>, rows: map<string, int>,
    sums: map<string, FileSum>, sequences: seq<Sequence>, man: Option<Manifest>,
    blobs: nat, blobBytes: nat, dbBytes: nat, stored: map<string, Bytes>)

  datatype Restored = Restored(
    header: Header, loaded: map<string, Bytes>, sequences: seq<Sequence>, stored: map<string, Bytes>,
    rows: map<string, int>, blobs: nat, blobBytes: nat, dbBytes: nat, missing: seq<string>)

  function Get<V>(m: map<string, V>, k: string, default: V): V {
    if k in m then m[k] else default
  }

  function EndTable(e: Env, s: State): State {
    if s.cur == "" then s
    else s.(done := s.done + {s.cur}, rows := s.rows[s.cur := e.rowsOf(Get(s.loaded, s.cur, []))], cur := "")
  }

  function StartTable(e: Env, s: State, table: string): State {
    if table == s.cur then s
    else EndTable(e, s).(cur := table, loaded := s.loaded[table := []])
  }

  /** A chunk of a table: its bytes go to the load of that table, if one is open. */
  function ReadChunk(e: Env, s: State, table: string, m: Member): State {
    var s := StartTable(e, s, table);
    s.(loaded := if s.cur == "" then s.loaded else s.loaded[s.cur := Get(s.loaded, s.cur, []) + m.data],
       sums := s.sums[m.name := SumOf(e, m.data)], dbBytes := s.dbBytes + |m.data|)
  }

  function ReadSequences(e: Env, s: State, m: Member): Result<State> {
    var s := EndTable(e, s);
    if |m.data| > META_LIMIT || e.decSequences(m.data).None? then Err
    else Ok(s.(sums := s.sums[m.name := SumOf(e, m.data)], sequences := e.decSequences(m.data).value))
  }

  function ReadBlob(e: Env, s: State, digest: string, m: Member): Result<State> {
    var s := EndTable(e, s);
    if !ValidDigest(digest) || e.hash(m.data) != digest then Err
    else Ok(s.(blobs := s.blobs + 1, blobBytes := s.blobBytes + |m.data|, stored := s.stored[digest := m.data]))
  }

  function ReadManifest(e: Env, s: State, m: Member): Result<State> {
    var s := EndTable(e, s);
    if |m.data| > META_LIMIT || e.decManifest(m.data).None? then Err
    else Ok(s.(man := e.decManifest(m.data)))
  }

  /** One member of the archive; nothing may follow the manifest. */
  function Step(e: Env, tables: set<string>, s: State, m: Member): Result<State> {
    if s.man.Some? then Err
    else
      match Classify(m.name)
      case Sequences => ReadSequences(e, s, m)
      case Chunk(table) => if table !in tables || table in s.done then Err else Ok(ReadChunk(e, s, table, m))
      case NoTable => Panic
      case Blob(digest) => ReadBlob(e, s, digest, m)
      case TheManifest => ReadManifest(e, s, m)
      case Unknown => Err
  }

  function Fold<S, M>(step: (S, M) -> Result<S>, s: S, ms: seq<M>): Result<S> {
    if ms == [] then Ok(s)
    else
      var s' :- Fold(step, s, ms[..|ms| - 1]);
      step(s', ms[|ms| - 1])
  }

  function Stepper(e: Env, tables: set<string>): (State, Member) -> Result<State> {
    (s, m) => Step(e, tables, s, m)
  }

  /** The member loop. */
  function Run(e: Env, tables: set<string>, s: State, ms: seq<Member>): Result<State> {
    Fold(Stepper(e, tables), s, ms)
  }

  function Init(e: Env, header: Bytes): State {
    State("", {}, map[], map[], map[HEADER_NAME := SumOf(e, header)], [], None, 0, 0, 0, map[])
  }

  function TableNames(h: Header): set<string> { set t | t in h.tables :: t.name }

  /** The manifest lists exactly what was read. */
  ghost predicate Agrees(man: Manifest, s: State, tables: set<string>) {
    man.files == s.sums && man.blobs == s.blobs && man.blobBytes == s.blobBytes && man.rows.Keys <= tables
  }

  /** The header the archive opens with, if the reader accepts it. */
  function ReadHeader(e: Env, ms: seq<Member>): Result<Header> {
    if ms == [] || ms[0].name != HEADER_NAME || |ms[0].data| > META_LIMIT then Err
    else
      match e.decHeader(ms[0].data)
      case None => Err
      case Some(h) =>
        if h.format == FORMAT_VERSION && h.migrations != [] && h.migrations <= e.migrations then Ok(h) else Err
  }

  /** Every table ended with the rows the manifest lists. */
  ghost predicate RowsAgree(man: Manifest, s: State) {
    forall t :: t in man.rows ==> Get(s.rows, t, 0) == man.rows[t]
  }

  /** What `read` returns; with `restore` the data goes to a database, whose row counts are checked too. */
  ghost function ReadArchive(e: Env, ms: seq<Member>, restore: bool): Result<Restored> {
    var h :- ReadHeader(e, ms);
    var s :- Run(e, TableNames(h), Init(e, ms[0].data), ms[1..]);
    if s.man.None? || !Agrees(s.man.value, s, TableNames(h)) || (restore && !RowsAgree(s.man.value, s)) then Err
    else Ok(Restored(h, s.loaded, s.sequences, s.stored, s.man.value.rows, s.blobs, s.blobBytes, s.dbBytes,
                     s.man.value.missing))
  }

  // ----------------------------------------------------------- implementation

  /** Compares the manifest with what was read, one entry at a time. */
  method CheckManifest(man: Manifest, s: State, tables: set<string>) returns (ok: bool)
    ensures ok <==> Agrees(man, s, tables)
  {
    ok := true;
    var names := man.files.Keys;
    while names != {}
      invariant names <= man.files.Keys
      invariant ok <==> forall n :: n in man.files.Keys - names ==> n in s.sums && s.sums[n] == man.files[n]
      decreases names
    {
      var n :| n in names;
      if n !in s.sums || s.sums[n] != man.files[n] {
        ok := false;
      }
      names := names - {n};
    }
    ghost var listed := ok;
    names := s.sums.Keys;
    while names != {}
      invariant names <= s.sums.Keys
      invariant ok <==> listed && forall n :: n in s.sums.Keys - names ==> n in man.files
      decreases names
    {
      var n :| n in names;
      if n !in man.files {
        ok := false;
      }
      names := names - {n};
    }
    assert ok ==> man.files == s.sums;
    if s.blobs != man.blobs || s.blobBytes != man.blobBytes {
      ok := false;
    }
    ghost var counted := ok;
    names := man.rows.Keys;
    while names != {}
      invariant names <= man.rows.Keys
      invariant ok <==> counted && forall n :: n in man.rows.Keys - names ==> n in tables
      decreases names
    {
      var n :| n in names;
      if n !in tables {
        ok := false;
      }
      names := names - {n};
    }
  }

  method CheckRows(man: Manifest, s: State) returns (ok: bool)
    ensures ok <==> RowsAgree(man, s)
  {
    var names := man.rows.Keys;
    while names != {}
      invariant names <= man.rows.Keys
      invariant forall n :: n in man.rows.Keys - names ==> Get(s.rows, n, 0) == man.rows[n]
      decreases names
    {
      var n :| n in names;
      if Get(s.rows, n, 0) != man.rows[n] {
        return false;
      }
      names := names - {n};
    }
    ok := true;
  }

  method Read(e: Env, ms: seq<Member>, restore: bool) returns (r: Result<Restored>)
    ensures r == ReadArchive(e, ms, restore)
  {
    var header := ReadHeader(e, ms);
    if header.Err? {
      return Err;
    }
    var h, rest := header.value, ms[1..];
    var tables, s := TableNames(h), Init(e, ms[0].data);
    for i := 0 to |rest|
      invariant Run(e, tables, Init(e, ms[0].data), rest[..i]) == Ok(s)
    {
      assert rest[..i + 1][..i] == rest[..i];
      var next := Step(e, tables, s, rest[i]);
      if next.IsFailure() {
        FoldFails(Stepper(e, tables), Init(e, ms[0].data), rest, i + 1);
        return next.PropagateFailure();
      }
      s := next.value;
    }
    assert rest[..|rest|] == rest;
    if s.man.None? {
      return Err;
    }
    var ok := CheckManifest(s.man.value, s, tables);
    if !ok {
      return Err;
    }
    if restore {
      ok := CheckRows(s.man.value, s);
      if !ok {
        return Err;
      }
    }
    r := Ok(Restored(h, s.loaded, s.sequences, s.stored, s.man.value.rows, s.blobs, s.blobBytes, s.dbBytes,
                     s.man.value.missing));
  }

  // ------------------------------------------------------------- about the run

  lemma {:induction false} FoldFails<S, M>(step: (S, M) -> Result<S>, s: S, ms: seq<M>, i: nat)
    requires i <= |ms| && Fold(step, s, ms[..i]).IsFailure()
    ensures Fold(step, s, ms) == Fold(step, s, ms[..i])
    decreases |ms| - i
  {
    if i < |ms| {
      assert ms[..i + 1][..i] == ms[..i];
      FoldFails(step, s, ms, i + 1);
    } else {
      assert ms[..i] == ms;
    }
  }

  lemma FoldSnoc<S, M>(step: (S, M) -> Result<S>, s: S, ms: seq<M>, m: M)
    requires Fold(step, s, ms).Ok?
    ensures Fold(step, s, ms + [m]) == step(Fold(step, s, ms).value, m)
  {
    assert (ms + [m])[..|ms|] == ms;
  }

  lemma {:induction false} FoldConcat<S, M>(step: (S, M) -> Result<S>, s: S, ms: seq<M>, ns: seq<M>)
    requires Fold(step, s, ms).Ok?
    ensures Fold(step, s, ms + ns) == Fold(step, Fold(step, s, ms).value, ns)
    decreases |ns|
  {
    if ns == [] {
      assert ms + ns == ms;
    } else {
      var n := |ns| - 1;
      FoldConcat(step, s, ms, ns[..n]);
      assert (ms + ns)[..|ms| + n] == ms + ns[..n];
    }
  }

  /** Reading breaks off with a crash at the first member without a table part, if it gets that far. */
  lemma {:induction false} RunPanics(e: Env, tables: set<string>, s: State, ms: seq<Member>)
    ensures Run(e, tables, s, ms).Panic? <==>
              exists i :: 0 <= i < |ms| && Classify(ms[i].name).NoTable? && StillOpen(Run(e, tables, s, ms[..i]))
  {
    if ms != [] {
      var n := |ms| - 1;
      RunPanics(e, tables, s, ms[..n]);
      assert forall i :: 0 <= i < n ==> ms[..n][i] == ms[i] && ms[..n][..i] == ms[..i];
      if exists i :: 0 <= i < n && Classify(ms[i].name).NoTable? && StillOpen(Run(e, tables, s, ms[..i])) {
        var i :| 0 <= i < n && Classify(ms[i].name).NoTable? && StillOpen(Run(e, tables, s, ms[..i]));
        assert Classify(ms[..n][i].name).NoTable?;
      }
      if Run(e, tables, s, ms).Panic? && !Run(e, tables, s, ms[..n]).Panic? {
        assert Classify(ms[n].name).NoTable? && StillOpen(Run(e, tables, s, ms[..n]));
      }
    }
  }

  /** The members so far were read and the manifest is still to come. */
  predicate StillOpen(r: Result<State>) { r.Ok? && r.value.man.None? }

  /** When the program crashes, exactly. */
  lemma PanicsExactly(e: Env, ms: seq<Member>, restore: bool)
    ensures ReadArchive(e, ms, restore).Panic? <==>
              && ReadHeader(e, ms).Ok?
              && exists i :: 0 <= i < |ms| - 1 && Classify(ms[1..][i].name).NoTable?
                             && StillOpen(Run(e, TableNames(ReadHeader(e, ms).value), Init(e, ms[0].data),
                                              ms[1..][..i]))
  {
    if ReadHeader(e, ms).Ok? {
      RunPanics(e, TableNames(ReadHeader(e, ms).value), Init(e, ms[0].data), ms[1..]);
    }
  }

  /** It does crash: after any header it accepts, on a member under `db/` without a second slash. */
  lemma PanicsAt(e: Env, header: Bytes, data: Bytes, restore: bool)
    requires ReadHeader(e, [Member(HEADER_NAME, header)]).Ok?
    ensures ReadArchive(e, [Member(HEADER_NAME, header), Member("db/x", data)], restore).Panic?
  {
    var ms, name := [Member(HEADER_NAME, header), Member("db/x", data)], "db/x";
    var h := ReadHeader(e, ms).value;
    assert name[..3] == "db/" && name[..3][2] == '/' && LastSlash(name[..3]) == 2 && LastSlash(name) == 2;
    assert name != SEQUENCES_NAME && Classify(ms[1..][0].name).NoTable?;
    assert ms[1..][..0] == [] && StillOpen(Run(e, TableNames(h), Init(e, header), ms[1..][..0]));
    PanicsExactly(e, ms, restore);
  }

  /** The member is accounted for. */
  ghost predicate Counts(e: Env, s: State, m: Member, s': State) {
    && s.man.None?
    && s'.sums == (if IsFile(m) then s.sums[m.name := SumOf(e, m.data)] else s.sums)
    && s'.blobs == s.blobs + (if IsBlob(m) then 1 else 0)
    && s'.blobBytes == s.blobBytes + (if IsBlob(m) then |m.data| else 0)
    && s'.man == (if Classify(m.name).TheManifest? then e.decManifest(m.data) else None)
    && (IsBlob(m) ==> e.hash(m.data) == Classify(m.name).digest)
  }

  /** One step adds the member to the sums and to the blob counts, and only the manifest sets the manifest. */
  lemma StepAccounts(e: Env, tables: set<string>, s: State, m: Member)
    requires Step(e, tables, s, m).Ok?
    ensures Counts(e, s, m, Step(e, tables, s, m).value)
    ensures Classify(m.name).TheManifest? ==> Step(e, tables, s, m).value.man.Some?
  {
  }

  /** What a run without errors has counted. */
  ghost predicate Accounted(e: Env, header: Bytes, ms: seq<Member>, s: State) {
    && s.sums == SumsOf(e, header, ms) && s.blobs == BlobCount(ms) && s.blobBytes == BlobBytes(ms)
    && (forall i :: 0 <= i < |ms| && IsBlob(ms[i]) ==> e.hash(ms[i].data) == Classify(ms[i].name).digest)
    && (forall i :: 0 <= i < |ms| - 1 ==> !Classify(ms[i].name).TheManifest?)
    && s.man == if ms != [] && Classify(ms[|ms| - 1].name).TheManifest? then e.decManifest(ms[|ms| - 1].data) else None
  }

  lemma {:induction false} RunAccounts(e: Env, tables: set<string>, header: Bytes, ms: seq<Member>)
    requires Run(e, tables, Init(e, header), ms).Ok?
    ensures Accounted(e, header, ms, Run(e, tables, Init(e, header), ms).value)
    ensures ms != [] && Classify(ms[|ms| - 1].name).TheManifest? ==> e.decManifest(ms[|ms| - 1].data).Some?
  {
    if ms != [] {
      var n := |ms| - 1;
      RunAccounts(e, tables, header, ms[..n]);
      var s := Run(e, tables, Init(e, header), ms[..n]).value;
      StepAccounts(e, tables, s, ms[n]);
      OneMore(e, header, ms, s, Step(e, tables, s, ms[n]).value);
    }
  }

  lemma OneMore(e: Env, header: Bytes, ms: seq<Member>, s: State, s': State)
    requires ms != []
    requires Accounted(e, header, ms[..|ms| - 1], s) && Counts(e, s, ms[|ms| - 1], s')
    requires Classify(ms[|ms| - 1].name).TheManifest? ==> s'.man.Some?
    requires |ms| > 1 && Classify(ms[|ms| - 2].name).TheManifest? ==> e.decManifest(ms[|ms| - 2].data).Some?
    ensures Accounted(e, header, ms, s')
    ensures Classify(ms[|ms| - 1].name).TheManifest? ==> e.decManifest(ms[|ms| - 1].data).Some?
  {
    var n := |ms| - 1;
    assert forall i :: 0 <= i < n ==> ms[..n][i] == ms[i];
    assert n > 0 ==> ms[..n][n - 1] == ms[n - 1];
  }

  /**
   What acceptance means: the archive opens with the header and ends with its only
   manifest, which lists exactly the sums of the files and the number and size of the
   blobs; and every blob hashes to its name.
   */
  lemma AcceptedShape(e: Env, ms: seq<Member>, restore: bool)
    requires ReadArchive(e, ms, restore).Ok?
    ensures |ms| >= 2 && ms[0].name == HEADER_NAME && Classify(ms[|ms| - 1].name).TheManifest?
    ensures forall i :: 1 <= i < |ms| - 1 ==> !Classify(ms[i].name).TheManifest?
    ensures forall i :: 1 <= i < |ms| && IsBlob(ms[i]) ==> e.hash(ms[i].data) == Classify(ms[i].name).digest
    ensures e.decManifest(ms[|ms| - 1].data).Some?
    ensures var man := e.decManifest(ms[|ms| - 1].data).value;
            && man.files == SumsOf(e, ms[0].data, ms[1..|ms| - 1])
            && man.blobs == BlobCount(ms[1..|ms| - 1]) && man.blobBytes == BlobBytes(ms[1..|ms| - 1])
  {
    var rest := ms[1..];
    var tables := TableNames(ReadHeader(e, ms).value);
    RunAccounts(e, tables, ms[0].data, rest);
    var n := |rest| - 1;
    assert rest[..n] == ms[1..|ms| - 1];
    assert forall i :: 1 <= i < |ms| ==> ms[i] == rest[i - 1];
    assert Classify(rest[n].name).TheManifest?;
  }
}
