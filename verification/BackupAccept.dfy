/**
 Which archives the reader accepts, and what it gives for them, stated of the members
 alone: the names, the contents and their order.
 */
module BackupAccept {
  import opened Common
  import opened BackupFormat
  import opened BackupReader

  // ------------------------------------------------------------- what members are

  /** A part of a table: `db/`, the table, a slash and a name without one. */
  ghost predicate IsPart(m: Member, t: string) {
    m.name != "db/sequences.json" && exists r :: '/' !in r && m.name == "db/" + t + "/" + r
  }

  ghost predicate HasPart(ms: seq<Member>, t: string) { exists i :: 0 <= i < |ms| && IsPart(ms[i], t) }

  /** The contents of the parts of a table, in order. */
  ghost function TableData(ms: seq<Member>, t: string): Bytes {
    if ms == [] then []
    else TableData(ms[..|ms| - 1], t) + if IsPart(ms[|ms| - 1], t) then ms[|ms| - 1].data else []
  }

  /** The members that hold blobs. */
  function BlobsAmong(ms: seq<Member>): seq<Member> {
    if ms == [] then []
    else BlobsAmong(ms[..|ms| - 1]) + if "blobs/" <= ms[|ms| - 1].name then [ms[|ms| - 1]] else []
  }

  function BytesOf(ms: seq<Member>): nat {
    if ms == [] then 0 else BytesOf(ms[..|ms| - 1]) + |ms[|ms| - 1].data|
  }

  /** The i-th member is the last of its name. */
  ghost predicate LastOfName(ms: seq<Member>, i: nat)
    requires i < |ms|
  {
    forall j :: i < j < |ms| ==> ms[j].name != ms[i].name
  }

  // ------------------------------------------------------------ what is accepted

  /** At most 64 MiB. */
  predicate Small(m: Member) { |m.data| <= 67108864 }

  ghost predicate GoodHeader(e: Env, m: Member) {
    && m.name == "cms-backup.json" && Small(m) && e.decHeader(m.data).Some?
    && var h := e.decHeader(m.data).value;
       h.format == 1 && h.migrations != [] && h.migrations <= e.migrations
  }

  ghost predicate GoodManifest(e: Env, m: Member) {
    m.name == "manifest.json" && Small(m) && e.decManifest(m.data).Some?
  }

  /**
   A member between header and manifest: the sequences; a part of a table of the header, the first of its table
   or right after another one; or a blob whose content hashes to its name.
   */
  ghost predicate GoodMember(e: Env, names: set<string>, ms: seq<Member>, i: nat)
    requires i < |ms|
  {
    var m := ms[i];
    || (m.name == "db/sequences.json" && Small(m) && e.decSequences(m.data).Some?)
    || (exists t :: IsPart(m, t) && t in names
                    && (t == "" || (forall k :: 0 <= k < i ==> !IsPart(ms[k], t)) || IsPart(ms[i - 1], t)))
    || ("blobs/" <= m.name && ValidDigest(m.name[6..]) && e.hash(m.data) == m.name[6..])
  }

  /** The header and the files under db/ are listed with their sums, the last where names repeat, and nothing else. */
  ghost predicate ListsFiles(e: Env, header: Bytes, ms: seq<Member>, files: map<string, FileSum>) {
    && (forall n :: n in files ==> n == "cms-backup.json" || exists i :: 0 <= i < |ms| && ms[i].name == n && "db/" <= n)
    && "cms-backup.json" in files && files["cms-backup.json"] == FileSum(|header|, e.hash(header))
    && (forall i :: 0 <= i < |ms| && "db/" <= ms[i].name ==> ms[i].name in files)
    && (forall i :: 0 <= i < |ms| && "db/" <= ms[i].name && LastOfName(ms, i) ==>
          files[ms[i].name] == FileSum(|ms[i].data|, e.hash(ms[i].data)))
  }

  /** A table has the rows of its parts, and none when it has no part. */
  ghost function RowsIn(e: Env, ms: seq<Member>, t: string): int {
    if t != "" && HasPart(ms, t) then e.rowsOf(TableData(ms, t)) else 0
  }

  ghost predicate Acceptable(e: Env, ms: seq<Member>, restore: bool) {
    && |ms| >= 2 && GoodHeader(e, ms[0]) && GoodManifest(e, ms[|ms| - 1])
    && var names, man, body := TableNames(e.decHeader(ms[0].data).value), e.decManifest(ms[|ms| - 1].data).value,
                               ms[1..|ms| - 1];
       && (forall i :: 0 <= i < |body| ==> GoodMember(e, names, body, i))
       && ListsFiles(e, ms[0].data, body, man.files)
       && man.blobs == |BlobsAmong(body)| && man.blobBytes == BytesOf(BlobsAmong(body))
       && man.rows.Keys <= names
       && (restore ==> forall t :: t in man.rows ==> man.rows[t] == RowsIn(e, body, t))
  }

  /** What is handed on: the tables' data, the last sequences, and the blobs. */
  ghost predicate Gives(e: Env, ms: seq<Member>, r: Restored) {
    && |ms| >= 2
    && var body := ms[1..|ms| - 1];
       && Some(r.header) == e.decHeader(ms[0].data)
       && (forall t :: t != "" ==> Get(r.loaded, t, []) == TableData(body, t))
       && SequencesAre(e, body, r.sequences) && StoredAre(body, r.stored)
       && r.blobs == |BlobsAmong(body)| && r.blobBytes == BytesOf(BlobsAmong(body))
       && match e.decManifest(ms[|ms| - 1].data)
          case Some(man) => r.rows == man.rows && r.missing == man.missing
          case None => false
  }

  ghost predicate SequencesAre(e: Env, ms: seq<Member>, seqs: seq<Sequence>) {
    && ((forall i :: 0 <= i < |ms| ==> ms[i].name != "db/sequences.json") ==> seqs == [])
    && forall i :: 0 <= i < |ms| && ms[i].name == "db/sequences.json" && LastOfName(ms, i) ==>
         Some(seqs) == e.decSequences(ms[i].data)
  }

  /** The digest a blob is named by. */
  function DigestIn(name: string): Option<string> { if "blobs/" <= name then Some(name[6..]) else None }

  ghost predicate StoredAre(ms: seq<Member>, stored: map<string, Bytes>) {
    && (forall d :: d in stored ==> exists i :: 0 <= i < |ms| && DigestIn(ms[i].name) == Some(d))
    && (forall i :: 0 <= i < |ms| && DigestIn(ms[i].name).Some? ==> DigestIn(ms[i].name).value in stored)
    && (forall i :: 0 <= i < |ms| && DigestIn(ms[i].name).Some? && LastOfName(ms, i) ==>
          stored[DigestIn(ms[i].name).value] == ms[i].data)
  }

  // --------------------------------------------------------------- the names

  lemma {:induction false} LastSlashIs(s: string, i: int)
    requires -1 <= i < |s| && (i >= 0 ==> s[i] == '/') && forall k :: i < k < |s| ==> s[k] != '/'
    ensures LastSlash(s) == i
  {
    if i < |s| - 1 {
      LastSlashIs(s[..|s| - 1], i);
    }
  }

  lemma {:induction false} AfterLastSlash(s: string)
    ensures var i := LastSlash(s); (i >= 0 ==> s[i] == '/') && forall k :: i < k < |s| ==> s[k] != '/'
  {
    if s != [] && s[|s| - 1] != '/' {
      AfterLastSlash(s[..|s| - 1]);
    }
  }

  lemma PartIsChunk(m: Member, t: string)
    ensures IsPart(m, t) <==> Classify(m.name) == Chunk(t)
  {
    if IsPart(m, t) {
      var r :| '/' !in r && m.name == "db/" + t + "/" + r;
      PartParts(t, r);
    }
    if Classify(m.name) == Chunk(t) {
      var r := CutPart(m.name);
    }
  }

  lemma PartParts(t: string, r: string)
    requires '/' !in r
    ensures var name := "db/" + t + "/" + r;
            "db/" <= name && LastSlash(name) == 3 + |t| && name[3..3 + |t|] == t
  {
    LastSlashIs("db/" + t + "/" + r, 3 + |t|);
  }

  lemma CutPart(name: string) returns (r: string)
    requires "db/" <= name && LastSlash(name) >= 3
    ensures '/' !in r && name == "db/" + name[3..LastSlash(name)] + "/" + r
  {
    AfterLastSlash(name);
    var i := LastSlash(name);
    r := name[i + 1..];
    assert name == name[..3] + name[3..i] + [name[i]] + r;
  }

  lemma Kinds(m: Member)
    ensures Classify(m.name).Sequences? <==> m.name == "db/sequences.json"
    ensures Classify(m.name).TheManifest? <==> m.name == "manifest.json"
    ensures Classify(m.name).Blob? <==> "blobs/" <= m.name
    ensures Classify(m.name).Blob? ==> Classify(m.name).digest == m.name[6..]
    ensures Classify(m.name).Sequences? || Classify(m.name).Chunk? ==> "db/" <= m.name
    ensures Classify(m.name).Sequences? || Classify(m.name).Chunk? || Classify(m.name).NoTable? <==> "db/" <= m.name
  {
    var name, db, blobs, seqs, man := m.name, "db/", "blobs/", "db/sequences.json", "manifest.json";
    assert seqs[..3] == db && man[0] == 'm' && db[0] == 'd' && blobs[0] == 'b';
  }

  // ----------------------------------------------------------- tables, as read so far

  ghost predicate EndsIn(ms: seq<Member>, t: string) { ms != [] && IsPart(ms[|ms| - 1], t) }

  /** The open table is that of the last member, if it is a part; the others with parts are finished. */
  ghost predicate TablesSeen(ms: seq<Member>, s: State) {
    && (forall t :: t != "" ==> (s.cur == t <==> EndsIn(ms, t)))
    && (forall t :: t in s.done <==> t != "" && t != s.cur && HasPart(ms, t))
  }

  /** The data of a table is that of its parts, and the finished ones are counted. */
  ghost predicate TablesLoaded(e: Env, ms: seq<Member>, s: State) {
    && (forall t :: t != "" ==> Get(s.loaded, t, []) == TableData(ms, t))
    && s.rows.Keys == s.done && forall t :: t in s.rows ==> s.rows[t] == e.rowsOf(TableData(ms, t))
  }

  lemma PartsNext(ms: seq<Member>, m: Member, t: string)
    ensures HasPart(ms + [m], t) <==> HasPart(ms, t) || IsPart(m, t)
    ensures TableData(ms + [m], t) == TableData(ms, t) + if IsPart(m, t) then m.data else []
    ensures EndsIn(ms + [m], t) <==> IsPart(m, t)
    ensures EndsIn(ms, t) ==> HasPart(ms, t)
  {
    var all := ms + [m];
    assert all[..|ms|] == ms && all[|ms|] == m;
    if i :| 0 <= i < |ms| && IsPart(ms[i], t) {
      assert IsPart(all[i], t);
    }
  }

  lemma EndLoaded(e: Env, ms: seq<Member>, s: State)
    requires TablesLoaded(e, ms, s)
    ensures TablesLoaded(e, ms, EndTable(e, s))
  {
  }

  lemma SameData(e: Env, ms: seq<Member>, ms': seq<Member>, s: State)
    requires TablesLoaded(e, ms, s) && forall t :: t != "" || t in s.rows ==> TableData(ms', t) == TableData(ms, t)
    ensures TablesLoaded(e, ms', s)
  {
  }

  /** A member that is no part ends the open table. */
  lemma TableEnds(e: Env, ms: seq<Member>, s: State, m: Member)
    requires TablesSeen(ms, s) && TablesLoaded(e, ms, s) && forall t :: !IsPart(m, t)
    ensures TablesSeen(ms + [m], EndTable(e, s)) && TablesLoaded(e, ms + [m], EndTable(e, s))
  {
    forall t ensures TableData(ms + [m], t) == TableData(ms, t) {
      PartsNext(ms, m, t);
      assert TableData(ms, t) + [] == TableData(ms, t);
    }
    EndLoaded(e, ms, s);
    SameData(e, ms, ms + [m], EndTable(e, s));
    EndSeen(e, ms, s, m);
  }

  lemma EndSeen(e: Env, ms: seq<Member>, s: State, m: Member)
    requires TablesSeen(ms, s) && forall t :: !IsPart(m, t)
    ensures TablesSeen(ms + [m], EndTable(e, s))
  {
    forall t ensures (HasPart(ms + [m], t) <==> HasPart(ms, t)) && !EndsIn(ms + [m], t)
                     && (EndsIn(ms, t) ==> HasPart(ms, t)) {
      PartsNext(ms, m, t);
    }
  }

  /** A part goes to its table. */
  lemma PartSeen(e: Env, ms: seq<Member>, s: State, m: Member, t: string)
    requires TablesSeen(ms, s) && IsPart(m, t) && t !in s.done
    ensures TablesSeen(ms + [m], ReadChunk(e, s, t, m))
  {
    forall u ensures (HasPart(ms + [m], u) <==> HasPart(ms, u) || u == t) && (EndsIn(ms + [m], u) <==> u == t)
                     && (EndsIn(ms, u) ==> HasPart(ms, u)) {
      PartIsChunk(m, t);
      PartIsChunk(m, u);
      PartsNext(ms, m, u);
    }
  }

  lemma PartLoaded(e: Env, ms: seq<Member>, s: State, m: Member, t: string)
    requires TablesSeen(ms, s) && TablesLoaded(e, ms, s) && IsPart(m, t) && t !in s.done
    ensures TablesLoaded(e, ms + [m], ReadChunk(e, s, t, m))
  {
    StartLoaded(e, ms, s, t);
    forall u ensures TableData(ms + [m], u) == if u == t then TableData(ms, u) + m.data else TableData(ms, u) {
      PartIsChunk(m, t);
      PartIsChunk(m, u);
      PartsNext(ms, m, u);
      assert TableData(ms, u) + [] == TableData(ms, u);
    }
    AppendLoaded(e, ms, ms + [m], StartTable(e, s, t), ReadChunk(e, s, t, m), t, m.data);
  }

  /** The load of a table begins with nothing. */
  lemma StartLoaded(e: Env, ms: seq<Member>, s: State, t: string)
    requires TablesSeen(ms, s) && TablesLoaded(e, ms, s) && t !in s.done
    ensures var s' := StartTable(e, s, t); TablesLoaded(e, ms, s') && s'.cur == t && t !in s'.done
  {
    EndLoaded(e, ms, s);
    if t != s.cur && t != "" {
      NoData(ms, t);
    }
  }

  lemma AppendLoaded(e: Env, ms: seq<Member>, ms': seq<Member>, s: State, s': State, t: string, data: Bytes)
    requires TablesLoaded(e, ms, s) && t !in s.done && s'.done == s.done && s'.rows == s.rows
    requires s'.loaded == if t == "" then s.loaded else s.loaded[t := Get(s.loaded, t, []) + data]
    requires forall u :: TableData(ms', u) == if u == t then TableData(ms, u) + data else TableData(ms, u)
    ensures TablesLoaded(e, ms', s')
  {
  }

  lemma {:induction false} NoData(ms: seq<Member>, t: string)
    requires !HasPart(ms, t)
    ensures TableData(ms, t) == []
  {
    if ms != [] {
      var n := |ms| - 1;
      assert !IsPart(ms[n], t);
      assert !HasPart(ms[..n], t) by {
        assert forall i :: 0 <= i < n ==> !IsPart(ms[..n][i], t) by {
          assert forall i :: 0 <= i < n ==> ms[..n][i] == ms[i];
        }
      }
      NoData(ms[..n], t);
    }
  }

  /** The table of a part is still to be finished: it has no part yet, or the last member is one. */
  lemma StillToFinish(ms: seq<Member>, s: State, t: string)
    requires TablesSeen(ms, s)
    ensures t !in s.done <==> t == "" || !HasPart(ms, t) || EndsIn(ms, t)
  {
  }

  // ------------------------------------------------------------ files and blobs

  lemma LastNext(ms: seq<Member>, m: Member, i: nat)
    requires i < |ms|
    ensures LastOfName(ms + [m], i) <==> LastOfName(ms, i) && m.name != ms[i].name
  {
    var all := ms + [m];
    assert all[|ms|] == m && forall j :: 0 <= j < |ms| ==> all[j] == ms[j];
  }

  lemma FilesNext(e: Env, header: Bytes, ms: seq<Member>, files: map<string, FileSum>, m: Member)
    requires ListsFiles(e, header, ms, files)
    ensures ListsFiles(e, header, ms + [m],
                       if "db/" <= m.name then files[m.name := FileSum(|m.data|, e.hash(m.data))] else files)
  {
    var all := ms + [m];
    assert all[|ms|] == m && forall j :: 0 <= j < |ms| ==> all[j] == ms[j];
    forall i | 0 <= i < |ms| ensures LastOfName(all, i) <==> LastOfName(ms, i) && m.name != ms[i].name {
      LastNext(ms, m, i);
    }
    var db, header' := "db/", "cms-backup.json";
    assert db[0] == 'd' && header'[0] == 'c';
  }

  lemma DigestNames(a: string, b: string)
    requires DigestIn(a).Some? && DigestIn(a) == DigestIn(b)
    ensures a == b
  {
    assert a == a[..6] + a[6..] && b == b[..6] + b[6..];
  }

  lemma StoredNext(ms: seq<Member>, stored: map<string, Bytes>, m: Member, d: Option<string>)
    requires StoredAre(ms, stored) && d == DigestIn(m.name)
    ensures StoredAre(ms + [m], if d.Some? then stored[d.value := m.data] else stored)
  {
    var all := ms + [m];
    assert all[|ms|] == m && forall j :: 0 <= j < |ms| ==> all[j] == ms[j];
    forall i | 0 <= i < |ms|
      ensures LastOfName(all, i) <==> LastOfName(ms, i) && m.name != ms[i].name
      ensures d.Some? && DigestIn(ms[i].name) == d ==> ms[i].name == m.name
    {
      LastNext(ms, m, i);
      if d.Some? && DigestIn(ms[i].name) == d {
        DigestNames(ms[i].name, m.name);
      }
    }
  }

  lemma SequencesNext(e: Env, ms: seq<Member>, seqs: seq<Sequence>, m: Member)
    requires SequencesAre(e, ms, seqs)
    ensures m.name != "db/sequences.json" ==> SequencesAre(e, ms + [m], seqs)
    ensures m.name == "db/sequences.json" && e.decSequences(m.data).Some? ==>
              SequencesAre(e, ms + [m], e.decSequences(m.data).value)
  {
    var all := ms + [m];
    assert all[|ms|] == m && forall j :: 0 <= j < |ms| ==> all[j] == ms[j];
    forall i | 0 <= i < |ms| ensures LastOfName(all, i) <==> LastOfName(ms, i) && m.name != ms[i].name {
      LastNext(ms, m, i);
    }
  }

  // ----------------------------------------------------------------- the run

  /** What the reader knows after some members before the manifest. */
  ghost predicate Knows(e: Env, header: Bytes, ms: seq<Member>, s: State) {
    forall x {:trigger Unsealed(x, Inner, |ms|)} :: Unsealed(x, Inner, |ms|) ==>
      && s.man.None? && TablesSeen(ms, s) && TablesLoaded(e, ms, s) && ListsFiles(e, header, ms, s.sums)
      && s.blobs == |BlobsAmong(ms)| && s.blobBytes == BytesOf(BlobsAmong(ms))
      && StoredAre(ms, s.stored) && SequencesAre(e, ms, s.sequences)
  }

  lemma BlobsNext(ms: seq<Member>, m: Member)
    ensures "blobs/" <= m.name ==> |BlobsAmong(ms + [m])| == |BlobsAmong(ms)| + 1
                                   && BytesOf(BlobsAmong(ms + [m])) == BytesOf(BlobsAmong(ms)) + |m.data|
    ensures !("blobs/" <= m.name) ==> BlobsAmong(ms + [m]) == BlobsAmong(ms)
  {
    assert (ms + [m])[..|ms|] == ms;
    var bs := BlobsAmong(ms);
    assert (bs + [m])[..|bs|] == bs;
  }

  /** Whether the next member may follow. */
  lemma StepAllowed(e: Env, names: set<string>, ms: seq<Member>, s: State, m: Member)
    requires s.man.None? && TablesSeen(ms, s) && m.name != "manifest.json"
    ensures Step(e, names, s, m).Ok? <==> GoodMember(e, names, ms + [m], |ms|)
  {
    Kinds(m);
    var all := ms + [m];
    assert all[|ms|] == m && forall j :: 0 <= j < |ms| ==> all[j] == ms[j];
    forall t ensures IsPart(m, t) <==> Classify(m.name) == Chunk(t) {
      PartIsChunk(m, t);
    }
    if Classify(m.name).Chunk? {
      var t := Classify(m.name).table;
      StillToFinish(ms, s, t);
      assert IsPart(m, t);
    }
  }

  /** The tables after the next member. */
  lemma StepTables(e: Env, names: set<string>, ms: seq<Member>, s: State, m: Member)
    requires TablesSeen(ms, s) && TablesLoaded(e, ms, s) && m.name != "manifest.json" && Step(e, names, s, m).Ok?
    ensures var s' := Step(e, names, s, m).value; TablesSeen(ms + [m], s') && TablesLoaded(e, ms + [m], s')
  {
    forall t ensures IsPart(m, t) <==> Classify(m.name) == Chunk(t) {
      PartIsChunk(m, t);
    }
    Kinds(m);
    if Classify(m.name).Chunk? {
      PartSeen(e, ms, s, m, Classify(m.name).table);
      PartLoaded(e, ms, s, m, Classify(m.name).table);
    } else {
      TableEnds(e, ms, s, m);
      SameTables(ms + [m], e, EndTable(e, s), Step(e, names, s, m).value);
    }
  }

  lemma SameTables(ms: seq<Member>, e: Env, s: State, s': State)
    requires TablesSeen(ms, s) && TablesLoaded(e, ms, s)
    requires s'.cur == s.cur && s'.done == s.done && s'.loaded == s.loaded && s'.rows == s.rows
    ensures TablesSeen(ms, s') && TablesLoaded(e, ms, s')
  {
  }

  /** The sums, the blobs and the sequences after the next member. */
  lemma StepFields(e: Env, names: set<string>, s: State, m: Member)
    requires m.name != "manifest.json" && Step(e, names, s, m).Ok?
    ensures var s' := Step(e, names, s, m).value;
            && s'.man == s.man
            && s'.sums == (if "db/" <= m.name then s.sums[m.name := FileSum(|m.data|, e.hash(m.data))] else s.sums)
            && s'.blobs == (if "blobs/" <= m.name then s.blobs + 1 else s.blobs)
            && s'.blobBytes == (if "blobs/" <= m.name then s.blobBytes + |m.data| else s.blobBytes)
            && s'.stored == (if "blobs/" <= m.name then s.stored[m.name[6..] := m.data] else s.stored)
            && if m.name == "db/sequences.json" then e.decSequences(m.data) == Some(s'.sequences)
               else s'.sequences == s.sequences
  {
    Kinds(m);
  }

  /** The next member is read exactly when it may follow, and the reader then knows as much of the longer list. */
  lemma StepReads(e: Env, names: set<string>, header: Bytes, ms: seq<Member>, s: State, m: Member)
    requires Knows(e, header, ms, s) && m.name != "manifest.json"
    ensures Step(e, names, s, m).Ok? <==> GoodMember(e, names, ms + [m], |ms|)
    ensures Step(e, names, s, m).Ok? ==> Knows(e, header, ms + [m], Step(e, names, s, m).value)
  {
    assert Unsealed(Seal, Inner, |ms|);
    StepAllowed(e, names, ms, s, m);
    if Step(e, names, s, m).Ok? {
      StepTables(e, names, ms, s, m);
      StepFields(e, names, s, m);
      KnowsMore(e, header, ms, s, m, Step(e, names, s, m).value);
    }
  }

  lemma KnowsMore(e: Env, header: Bytes, ms: seq<Member>, s: State, m: Member, s': State)
    requires ListsFiles(e, header, ms, s.sums) && StoredAre(ms, s.stored) && SequencesAre(e, ms, s.sequences)
    requires s.blobs == |BlobsAmong(ms)| && s.blobBytes == BytesOf(BlobsAmong(ms))
    requires s'.man.None? && TablesSeen(ms + [m], s') && TablesLoaded(e, ms + [m], s')
    requires s'.sums == (if "db/" <= m.name then s.sums[m.name := FileSum(|m.data|, e.hash(m.data))] else s.sums)
    requires s'.blobs == (if "blobs/" <= m.name then s.blobs + 1 else s.blobs)
    requires s'.blobBytes == (if "blobs/" <= m.name then s.blobBytes + |m.data| else s.blobBytes)
    requires s'.stored == (if "blobs/" <= m.name then s.stored[m.name[6..] := m.data] else s.stored)
    requires if m.name == "db/sequences.json" then e.decSequences(m.data) == Some(s'.sequences)
             else s'.sequences == s.sequences
    ensures Knows(e, header, ms + [m], s')
  {
    FilesNext(e, header, ms, s.sums, m);
    StoredNext(ms, s.stored, m, DigestIn(m.name));
    SequencesNext(e, ms, s.sequences, m);
    BlobsNext(ms, m);
  }

  ghost predicate AllGood(e: Env, names: set<string>, ms: seq<Member>) {
    && (forall i :: 0 <= i < |ms| ==> ms[i].name != "manifest.json")
    && (forall i :: 0 <= i < |ms| ==> GoodMember(e, names, ms, i))
  }

  lemma AllGoodNext(e: Env, names: set<string>, ms: seq<Member>, m: Member)
    ensures AllGood(e, names, ms + [m]) <==>
            AllGood(e, names, ms) && m.name != "manifest.json" && GoodMember(e, names, ms + [m], |ms|)
  {
    var all := ms + [m];
    assert all[|ms|] == m && forall j :: 0 <= j < |ms| ==> all[j] == ms[j];
    forall i | 0 <= i < |ms| ensures GoodMember(e, names, all, i) <==> GoodMember(e, names, ms, i) {
      assert i > 0 ==> all[i - 1] == ms[i - 1];
    }
  }

  /** Members before a manifest are read exactly when all of them may be there. */
  lemma {:induction false} RunReads(e: Env, names: set<string>, header: Bytes, ms: seq<Member>)
    ensures Run(e, names, Init(e, header), ms).Ok? && Run(e, names, Init(e, header), ms).value.man.None? <==>
            AllGood(e, names, ms)
    ensures AllGood(e, names, ms) ==> Knows(e, header, ms, Run(e, names, Init(e, header), ms).value)
  {
    if ms == [] {
      KnowsNothing(e, header);
    } else {
      var front, m := ms[..|ms| - 1], ms[|ms| - 1];
      RunReads(e, names, header, front);
      assert ms == front + [m];
      AllGoodNext(e, names, front, m);
      Kinds(m);
      var before := Run(e, names, Init(e, header), front);
      if before.Ok? && before.value.man.None? && m.name != "manifest.json" {
        StepReads(e, names, header, front, before.value, m);
        if Step(e, names, before.value, m).Ok? {
          StepFields(e, names, before.value, m);
        }
      }
    }
  }

  lemma KnowsNothing(e: Env, header: Bytes)
    ensures Knows(e, header, [], Init(e, header))
  {
  }

  /** The rows of the finished tables are those of their parts. */
  lemma RowsKnown(e: Env, ms: seq<Member>, s: State, t: string)
    requires TablesSeen(ms, s) && TablesLoaded(e, ms, s)
    ensures Get(EndTable(e, s).rows, t, 0) == RowsIn(e, ms, t)
  {
    if t != "" && t == s.cur {
      assert EndsIn(ms, t) && HasPart(ms, t);
    }
  }

  lemma FilesAre(e: Env, header: Bytes, ms: seq<Member>, files: map<string, FileSum>, sums: map<string, FileSum>)
    requires ListsFiles(e, header, ms, sums)
    ensures ListsFiles(e, header, ms, files) <==> files == sums
  {
    if ListsFiles(e, header, ms, files) {
      forall n ensures n in files <==> n in sums {
      }
      forall n | n in files ensures files[n] == sums[n] {
        if n != "cms-backup.json" {
          var i :| 0 <= i < |ms| && ms[i].name == n && "db/" <= n;
          var j := LastWithName(ms, i);
        }
      }
    }
  }

  /** Among the members of one name there is a last. */
  lemma {:induction false} LastWithName(ms: seq<Member>, i: nat) returns (j: nat)
    requires i < |ms|
    ensures i <= j < |ms| && ms[j].name == ms[i].name && LastOfName(ms, j)
    decreases |ms| - i
  {
    if LastOfName(ms, i) {
      j := i;
    } else {
      var k :| i < k < |ms| && ms[k].name == ms[i].name;
      j := LastWithName(ms, k);
    }
  }

  /** The state after the manifest, which was read as the last member. */
  ghost predicate ReadToEnd(e: Env, header: Bytes, body: seq<Member>, last: Member, s: State) {
    forall x {:trigger Unsealed(x, Outer)} :: Unsealed(x, Outer) ==>
      && s.man.Some? && s.man == e.decManifest(last.data) && ListsFiles(e, header, body, s.sums)
      && (forall t :: t != "" ==> Get(s.loaded, t, []) == TableData(body, t))
      && (forall t :: Get(s.rows, t, 0) == RowsIn(e, body, t))
      && s.blobs == |BlobsAmong(body)| && s.blobBytes == BytesOf(BlobsAmong(body))
      && StoredAre(body, s.stored) && SequencesAre(e, body, s.sequences)
  }

  /** The members are read up to a manifest exactly when they may be there and the last is a manifest. */
  lemma EndReads(e: Env, names: set<string>, header: Bytes, body: seq<Member>, last: Member)
    ensures var r := Run(e, names, Init(e, header), body + [last]);
            && (r.Ok? && r.value.man.Some? <==> AllGood(e, names, body) && GoodManifest(e, last))
            && (r.Ok? && r.value.man.Some? ==> ReadToEnd(e, header, body, last, r.value))
  {
    RunReads(e, names, header, body);
    Kinds(last);
    assert (body + [last])[..|body|] == body;
    var before := Run(e, names, Init(e, header), body);
    if before.Ok? && before.value.man.None? {
      if last.name == "manifest.json" {
        ManifestReads(e, header, body, before.value, last);
      } else if Step(e, names, before.value, last).Ok? {
        StepFields(e, names, before.value, last);
      }
    }
  }

  lemma ManifestReads(e: Env, header: Bytes, body: seq<Member>, s: State, last: Member)
    requires Knows(e, header, body, s)
    ensures ReadManifest(e, s, last).Ok? <==> Small(last) && e.decManifest(last.data).Some?
    ensures ReadManifest(e, s, last).Ok? ==>
              && ReadManifest(e, s, last).value.man.Some?
              && ReadToEnd(e, header, body, last, ReadManifest(e, s, last).value)
  {
    assert Unsealed(Seal, Inner, |body|);
    forall t ensures Get(EndTable(e, s).rows, t, 0) == RowsIn(e, body, t) {
      RowsKnown(e, body, s, t);
    }
  }

  lemma HeaderReads(e: Env, ms: seq<Member>)
    ensures ReadHeader(e, ms).Ok? <==> ms != [] && GoodHeader(e, ms[0])
    ensures ReadHeader(e, ms).Ok? ==> e.decHeader(ms[0].data) == Some(ReadHeader(e, ms).value)
  {
  }

  lemma GoodBody(e: Env, names: set<string>, ms: seq<Member>)
    ensures AllGood(e, names, ms) <==> forall i :: 0 <= i < |ms| ==> GoodMember(e, names, ms, i)
  {
    forall i | 0 <= i < |ms| && GoodMember(e, names, ms, i) ensures ms[i].name != "manifest.json" {
      Kinds(ms[i]);
      if t :| IsPart(ms[i], t) {
        PartIsChunk(ms[i], t);
      }
    }
  }

  /** A backup is accepted exactly when it is as it must be, and then its data are what is given. */
  lemma AcceptedExactly(e: Env, ms: seq<Member>, restore: bool)
    ensures ReadArchive(e, ms, restore).Ok? <==> Acceptable(e, ms, restore)
    ensures ReadArchive(e, ms, restore).Ok? ==> Gives(e, ms, ReadArchive(e, ms, restore).value)
  {
    HeaderReads(e, ms);
    if ReadHeader(e, ms).Ok? && |ms| >= 2 {
      var body, last := ms[1..|ms| - 1], ms[|ms| - 1];
      var names := TableNames(ReadHeader(e, ms).value);
      assert ms[1..] == body + [last];
      EndReads(e, names, ms[0].data, body, last);
      GoodBody(e, names, body);
      if AllGood(e, names, body) && GoodManifest(e, last) {
        CheckedExactly(e, ms[0].data, body, last, names, Run(e, names, Init(e, ms[0].data), body + [last]).value);
      }
    }
  }

  /** The manifest agrees with what was read exactly when it agrees with the members. */
  lemma CheckedExactly(e: Env, header: Bytes, body: seq<Member>, last: Member, names: set<string>, s: State)
    requires ReadToEnd(e, header, body, last, s)
    ensures s.man.Some? && s.man == e.decManifest(last.data)
    ensures var man := s.man.value;
            && (Agrees(man, s, names) <==>
                  ListsFiles(e, header, body, man.files) && man.blobs == |BlobsAmong(body)|
                  && man.blobBytes == BytesOf(BlobsAmong(body)) && man.rows.Keys <= names)
            && (RowsAgree(man, s) <==> forall t :: t in man.rows ==> man.rows[t] == RowsIn(e, body, t))
    ensures (forall t :: t != "" ==> Get(s.loaded, t, []) == TableData(body, t))
    ensures s.blobs == |BlobsAmong(body)| && s.blobBytes == BytesOf(BlobsAmong(body))
    ensures StoredAre(body, s.stored) && SequencesAre(e, body, s.sequences)
  {
    assert Unsealed(Seal, Outer);
    FilesAre(e, header, body, s.man.value.files, s.sums);
  }
}
