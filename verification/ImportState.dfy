/**
 The state of an import and its invariant: after every row, each archived row handled
 so far either stands for an existing row or has been stored as its image, and the
 references that wait for a later table are exactly the deferred ones.
 */
module ImportState {
  import opened Common
  import opened ImportModel

  /** The database: rows of tables with ids, rows of the others, the natural keys, and the id sequences. */
  datatype Db = Db(byId: map<Key, Row>, plain: map<string, seq<Row>>, natural: map<Natural, int>,
                   next: map<string, int>)

  /** The importer's variables and the database it writes to. */
  datatype State = State(maps: IdMaps, deferred: seq<DeferredRef>, db: Db)

  /** An import job, the archive's rows by table, and the database before the import. */
  datatype World = World(j: Job, arch: map<string, seq<Row>>, db0: Db)

  function NextId(db: Db, table: string): int { if table in db.next then db.next[table] else 1 }

  /** Ids are below their sequence; a natural key names one row, and different keys name different rows. */
  ghost predicate Consistent(db: Db) {
    && (forall key :: key in db.byId ==> key.id < NextId(db, key.table))
    && (forall n :: n in db.natural ==> Key(n.table, db.natural[n]) in db.byId)
    && (forall m, n :: m in db.natural && n in db.natural && m.table == n.table && m != n ==>
          db.natural[m] != db.natural[n])
  }

  ghost predicate DistinctIds(rows: seq<Row>) {
    forall i, j :: 0 <= i < j < |rows| ==> IdOf(rows[i]) != IdOf(rows[j])
  }

  ghost predicate DistinctNaturals(table: string, rows: seq<Row>) {
    forall i, j :: 0 <= i < j < |rows| && NaturalOf(table, rows[i]).Some? ==>
      NaturalOf(table, rows[i]) != NaturalOf(table, rows[j])
  }

  /** A table never refers to itself, and its references can be written. */
  ghost predicate SoundRefs(j: Job, table: string, r: Row) {
    forall c :: c in r && c in j.k.refs ==> Insertable(j.s, table, c) && (r[c].Num? ==> j.k.refs[c] != table)
  }

  /** The archive of one table, as an export writes it. */
  ghost predicate SoundTable(j: Job, table: string, rows: seq<Row>) {
    && (table in j.s.hasId ==> DistinctIds(rows))
    && (KeyColumn(table).Some? ==> table in j.s.hasId && DistinctNaturals(table, rows))
    && (forall i :: 0 <= i < |rows| ==> SoundRefs(j, table, rows[i]))
    && (forall i :: 0 <= i < |rows| ==> rows[i].Keys == rows[0].Keys)
  }

  ghost predicate SoundWorld(w: World) {
    && Sound(w.j.k) && Consistent(w.db0)
    && forall t :: t in w.arch ==> SoundTable(w.j, t, w.arch[t])
  }

  /** An existing row stands in for this one. */
  predicate Reused(w: World, table: string, r: Row) {
    NaturalOf(table, r).Some? && NaturalOf(table, r).value in w.db0.natural
  }

  predicate HasArchivedId(rows: seq<Row>, a: int) { exists i :: 0 <= i < |rows| && IdOf(rows[i]) == a }

  /** The archive has a row of this id. */
  predicate Archived(w: World, table: string, a: int) {
    table in w.arch && table in w.j.s.hasId && HasArchivedId(w.arch[table], a)
  }

  /**
   A column will not be empty when its row is inserted: a reference must be to an archived row of an
   earlier table.
   */
  predicate Fills(w: World, c: string, v: Value, later: set<string>) {
    && c !in w.j.k.adminRefs && v != Null
    && (c in w.j.k.refs ==> v.Num? && w.j.k.refs[c] !in later && Archived(w, w.j.k.refs[c], v.n))
  }

  /** No column that must be filled will be empty. */
  predicate Filled(w: World, table: string, r: Row, later: set<string>)
    requires Renamed(w.j.o, table, r).Some?
  {
    var q := Prepared(w.j, table, r, 0);
    && (forall c :: c in q && Insertable(w.j.s, table, c) && c in ColumnsIn(w.j.s.notNull, table) ==>
          Fills(w, c, q[c], later))
    && ColumnsIn(w.j.s.noDefault, table) <= Names(w.j, table, r, 0)
  }

  /** The columns of the row are known to the database. */
  predicate KnownColumns(j: Job, table: string, r: Row) {
    Renamed(j.o, table, r).Some? && table in j.s.columns && Renamed(j.o, table, r).value.Keys <= j.s.columns[table].Keys
  }

  /**
   What the import needs of a row: the key by which existing rows are found, and, unless one
   stands in for it, an id, known columns, references that are ids, every required column
   filled and, in a table without ids, no reference to a table that comes later.
   */
  predicate Loadable(w: World, table: string, r: Row, later: set<string>) {
    && (KeyColumn(table).Some? ==> NaturalOf(table, r).Some?)
    && (!Reused(w, table, r) ==>
          && KnownColumns(w.j, table, r) && (table in w.j.s.hasId ==> "id" in r && r["id"].Num?)
          && RefsAreIds(w.j.k, r) && Filled(w, table, r, later)
          && (table !in w.j.s.hasId ==> Forward(w.j.k, table, r, later) == {}))
  }

  ghost predicate AllLoadable(w: World, table: string, later: set<string>)
    requires table in w.arch
  {
    forall i :: 0 <= i < |w.arch[table]| ==> Loadable(w, table, w.arch[table][i], later)
  }

  function Entry(k: Catalog, table: string, r: Row, c: string, id: int): DeferredRef
    requires c in k.refs && c in r && r[c].Num?
  {
    DeferredRef(table, c, k.refs[c], id, r[c].n)
  }

  /** The row has been handled; its references to `later` tables are still open. */
  ghost predicate RowDone(w: World, st: State, table: string, r: Row, open: set<string>) {
    && table in st.maps && IdOf(r) in st.maps[table]
    && var id := st.maps[table][IdOf(r)];
       if Reused(w, table, r) then id == w.db0.natural[NaturalOf(table, r).value]
       else
         && Renamed(w.j.o, table, r).Some?
         && Key(table, id) in st.db.byId && Key(table, id) !in w.db0.byId
         && st.db.byId[Key(table, id)] == Image(w.j, st.maps, table, r, id, open)
  }

  /** The open references of a handled row are deferred. */
  ghost predicate RowDeferred(w: World, st: State, table: string, r: Row, later: set<string>) {
    table in st.maps && IdOf(r) in st.maps[table] && !Reused(w, table, r) ==>
      forall c :: c in Forward(w.j.k, table, r, later) ==>
        Entry(w.j.k, table, r, c, st.maps[table][IdOf(r)]) in st.deferred
  }

  /** A deferred reference belongs to a handled row. */
  ghost predicate DeferredFrom(w: World, st: State, table: string, done: set<int>, later: set<string>, d: DeferredRef)
    requires table in w.arch
  {
    exists i :: i in done && 0 <= i < |w.arch[table]| && DeferredBy(w, st, table, w.arch[table][i], later, d)
  }

  ghost predicate DeferredBy(w: World, st: State, table: string, r: Row, later: set<string>, d: DeferredRef) {
    && table in st.maps && IdOf(r) in st.maps[table] && !Reused(w, table, r)
    && d.column in Forward(w.j.k, table, r, later)
    && d == Entry(w.j.k, table, r, d.column, st.maps[table][IdOf(r)])
  }

  /** What holds of a table with ids once the rows `done` are handled. */
  ghost predicate TableDone(w: World, st: State, table: string, done: set<int>, later: set<string>)
    requires table in w.arch
  {
    var rows := w.arch[table];
    && table in st.maps && (forall i :: i in done ==> 0 <= i < |rows|)
    && (forall i :: i in done ==> RowDone(w, st, table, rows[i], Forward(w.j.k, table, rows[i], later)))
    && (forall i :: i in done ==> RowDeferred(w, st, table, rows[i], later))
    && (forall d :: d in st.deferred && d.table == table ==> DeferredFrom(w, st, table, done, later, d))
    && MapDone(w, st, table, done)
  }

  /** The id map has exactly the handled ids, is injective, and every new row and key comes from it. */
  ghost predicate MapDone(w: World, st: State, table: string, done: set<int>)
    requires table in w.arch && table in st.maps && forall i :: i in done ==> 0 <= i < |w.arch[table]|
  {
    var rows, m := w.arch[table], st.maps[table];
    && (forall a :: a in m ==> exists i :: i in done && IdOf(rows[i]) == a)
    && (forall a :: a in m ==> Key(table, m[a]) in st.db.byId)
    && (forall a, b :: a in m && b in m && a != b ==> m[a] != m[b])
    && (forall key :: key in st.db.byId && key.table == table && key !in w.db0.byId ==>
          exists a :: a in m && m[a] == key.id)
    && (forall n :: n in st.db.natural && n.table == table && n !in w.db0.natural ==>
          exists i :: i in done && NaturalOf(table, rows[i]) == Some(n))
  }

  /** Nothing that existed before has changed. */
  ghost predicate OldRowsKept(w: World, db: Db) {
    && (forall key :: key in w.db0.byId ==> key in db.byId && db.byId[key] == w.db0.byId[key])
    && (forall n :: n in w.db0.natural ==> n in db.natural && db.natural[n] == w.db0.natural[n])
  }

  // ------------------------------------------------------- required columns

  /** Of the tables that are not later, exactly the archived ids have an image. */
  ghost predicate Known(w: World, maps: IdMaps, later: set<string>) {
    forall t, a :: t !in later ==> (Resolve(maps, t, a) != Null <==> Archived(w, t, a))
  }

  /** One column of what is stored for a row is empty exactly when the archive says so. */
  lemma FillsCell(w: World, maps: IdMaps, table: string, r: Row, id: int, later: set<string>, c: string)
    requires Sound(w.j.k) && Renamed(w.j.o, table, r).Some? && SoundRefs(w.j, table, r) && RefsAreIds(w.j.k, r)
    requires c in Prepared(w.j, table, r, id)
    requires c in r && c in w.j.k.refs && r[c].Num? && w.j.k.refs[c] !in later ==>
               (Resolve(maps, w.j.k.refs[c], r[c].n) != Null <==> Archived(w, w.j.k.refs[c], r[c].n))
    ensures c in Prepared(w.j, table, r, 0)
    ensures Cell(w.j.k, maps, c, Prepared(w.j, table, r, id)[c], c in Forward(w.j.k, table, r, later)) != Null
       <==> Fills(w, c, Prepared(w.j, table, r, 0)[c], later)
  {
    if c in w.j.k.refs {
      RefsKept(w.j, table, r, id, c);
      RefsKept(w.j, table, r, 0, c);
    }
  }

  /** The database finds a row complete exactly when the archive fills its required columns. */
  lemma FilledExactly(w: World, maps: IdMaps, table: string, r: Row, id: int, later: set<string>)
    requires Sound(w.j.k) && Renamed(w.j.o, table, r).Some? && SoundRefs(w.j, table, r) && RefsAreIds(w.j.k, r)
    requires forall c :: c in r && c in w.j.k.refs && r[c].Num? && w.j.k.refs[c] !in later ==>
               (Resolve(maps, w.j.k.refs[c], r[c].n) != Null <==> Archived(w, w.j.k.refs[c], r[c].n))
    ensures Complete(w.j.s, table, Image(w.j, maps, table, r, id, Forward(w.j.k, table, r, later))) <==>
              Filled(w, table, r, later)
  {
    var q, q0 := Prepared(w.j, table, r, id), Prepared(w.j, table, r, 0);
    assert q.Keys == q0.Keys;
    forall c | c in q
      ensures Cell(w.j.k, maps, c, q[c], c in Forward(w.j.k, table, r, later)) != Null <==> Fills(w, c, q0[c], later)
    {
      FillsCell(w, maps, table, r, id, later, c);
    }
    assert Image(w.j, maps, table, r, id, Forward(w.j.k, table, r, later)).Keys == Names(w.j, table, r, 0);
  }

  /** A required reference to a row outside the archive, or to a later table, keeps its row from being imported. */
  lemma RequiredReference(w: World, table: string, r: Row, later: set<string>, c: string)
    requires Sound(w.j.k) && !Reused(w, table, r) && c in r && c in w.j.k.refs && r[c].Num?
    requires Insertable(w.j.s, table, c) && c in ColumnsIn(w.j.s.notNull, table)
    requires w.j.k.refs[c] in later || !Archived(w, w.j.k.refs[c], r[c].n)
    ensures !Loadable(w, table, r, later)
  {
    if Renamed(w.j.o, table, r).Some? {
      RefsKept(w.j, table, r, 0, c);
      assert !Fills(w, c, Prepared(w.j, table, r, 0)[c], later);
    }
  }

  // ---------------------------------------------------------------- one row

  /** Two states that differ only in one table. */
  ghost predicate SameExcept(st: State, st': State, table: string) {
    && (forall t :: t != table ==> (t in st.maps <==> t in st'.maps) && (t in st.maps ==> st.maps[t] == st'.maps[t]))
    && (forall key: Key :: key.table != table ==>
          (key in st.db.byId <==> key in st'.db.byId) && (key in st.db.byId ==> st.db.byId[key] == st'.db.byId[key]))
    && (forall n: Natural :: n.table != table ==>
          (n in st.db.natural <==> n in st'.db.natural)
          && (n in st.db.natural ==> st.db.natural[n] == st'.db.natural[n]))
    && (forall d: DeferredRef :: d.table != table ==> (d in st.deferred <==> d in st'.deferred))
    && (forall t :: t != table ==>
          (t in st.db.plain <==> t in st'.db.plain) && (t in st.db.plain ==> st.db.plain[t] == st'.db.plain[t]))
  }

  lemma ResolveFrame(st: State, st': State, table: string, target: string, was: int)
    requires SameExcept(st, st', table) && target != table
    ensures Resolve(st.maps, target, was) == Resolve(st'.maps, target, was)
  {
  }

  /** A table imported earlier does not notice a later one. */
  lemma TableDoneFrame(w: World, st: State, st': State, t: string, done: set<int>, later: set<string>, table: string)
    requires SoundWorld(w) && t in w.arch && TableDone(w, st, t, done, later)
    requires SameExcept(st, st', table) && t != table && table in later
    ensures TableDone(w, st', t, done, later)
  {
    var rows := w.arch[t];
    forall i | i in done
      ensures RowDone(w, st', t, rows[i], Forward(w.j.k, t, rows[i], later))
      ensures RowDeferred(w, st', t, rows[i], later)
    {
      var open := Forward(w.j.k, t, rows[i], later);
      assert RowDone(w, st, t, rows[i], open) && RowDeferred(w, st, t, rows[i], later);
      if !Reused(w, t, rows[i]) {
        RowImageFrame(w, st, st', t, rows[i], st.maps[t][IdOf(rows[i])], later, table);
      }
    }
    forall d | d in st'.deferred && d.table == t
      ensures DeferredFrom(w, st', t, done, later, d)
    {
      assert DeferredFrom(w, st, t, done, later, d);
      var i :| i in done && 0 <= i < |rows| && DeferredBy(w, st, t, rows[i], later, d);
      assert DeferredBy(w, st', t, rows[i], later, d);
    }
    assert MapDone(w, st', t, done);
  }

  lemma RowImageFrame(w: World, st: State, st': State, t: string, r: Row, id: int, later: set<string>, table: string)
    requires Sound(w.j.k) && Renamed(w.j.o, t, r).Some? && SoundRefs(w.j, t, r)
    requires SameExcept(st, st', table) && (table in later || table == t)
    ensures var open := Forward(w.j.k, t, r, later);
            Image(w.j, st.maps, t, r, id, open) == Image(w.j, st'.maps, t, r, id, open)
  {
    var open := Forward(w.j.k, t, r, later);
    forall c | c in r && c in w.j.k.refs && c !in open && r[c].Num?
      ensures Resolve(st.maps, w.j.k.refs[c], r[c].n) == Resolve(st'.maps, w.j.k.refs[c], r[c].n)
    {
      ResolveFrame(st, st', table, w.j.k.refs[c], r[c].n);
    }
    ImageFrame(w.j, st.maps, st'.maps, t, r, id, open);
  }

  /** The archived id now stands for `id`. */
  function Mapped(st: State, table: string, was: int, id: int): IdMaps
    requires table in st.maps
  {
    st.maps[table := st.maps[table][was := id]]
  }

  /** The rest of a table does not notice that one more of its ids is mapped. */
  lemma RowDoneKept(w: World, st: State, st': State, table: string, r: Row, later: set<string>)
    requires Sound(w.j.k) && SoundRefs(w.j, table, r) && SameExcept(st, st', table)
    requires RowDone(w, st, table, r, Forward(w.j.k, table, r, later))
    requires table in st'.maps && IdOf(r) in st'.maps[table] && st'.maps[table][IdOf(r)] == st.maps[table][IdOf(r)]
    requires var key := Key(table, st.maps[table][IdOf(r)]);
             key in st.db.byId ==> key in st'.db.byId && st'.db.byId[key] == st.db.byId[key]
    ensures RowDone(w, st', table, r, Forward(w.j.k, table, r, later))
  {
    if !Reused(w, table, r) {
      RowImageFrame(w, st, st', table, r, st.maps[table][IdOf(r)], later, table);
    }
  }

  /** Handled rows keep their deferred references. */
  lemma DeferredKept(w: World, st: State, st': State, table: string, done: set<int>, more: set<int>, later: set<string>,
                     d: DeferredRef)
    requires table in w.arch && done <= more && DeferredFrom(w, st, table, done, later, d)
    requires table in st.maps && table in st'.maps
    requires forall a :: a in st.maps[table] ==> a in st'.maps[table] && st'.maps[table][a] == st.maps[table][a]
    ensures DeferredFrom(w, st', table, more, later, d)
  {
    var rows := w.arch[table];
    var i :| i in done && 0 <= i < |rows| && DeferredBy(w, st, table, rows[i], later, d);
    assert DeferredBy(w, st', table, rows[i], later, d);
  }

  /** An id not handled yet is not in the map. */
  lemma NotMappedYet(w: World, st: State, table: string, done: set<int>, later: set<string>, i: int)
    requires table in w.arch && TableDone(w, st, table, done, later) && DistinctIds(w.arch[table])
    requires 0 <= i < |w.arch[table]| && i !in done
    ensures IdOf(w.arch[table][i]) !in st.maps[table]
  {
  }

  /** One more id of the table is mapped; what was stored and deferred stays. */
  ghost predicate Grows(st: State, st': State, table: string, was: int, id: int) {
    && table in st.maps && was !in st.maps[table] && st'.maps == Mapped(st, table, was, id)
    && (forall key :: key in st.db.byId ==> key in st'.db.byId && st'.db.byId[key] == st.db.byId[key])
    && (forall d :: d in st.deferred ==> d in st'.deferred)
    && SameExcept(st, st', table)
  }

  lemma RowsStayDone(w: World, st: State, st': State, table: string, done: set<int>, later: set<string>, i: int,
                     id: int, r: Row)
    requires SoundWorld(w) && table in w.arch && TableDone(w, st, table, done, later)
    requires 0 <= i < |w.arch[table]| && r == w.arch[table][i] && Grows(st, st', table, IdOf(r), id)
    requires RowDone(w, st', table, r, Forward(w.j.k, table, r, later)) && RowDeferred(w, st', table, r, later)
    ensures forall k :: k in done + {i} ==>
              RowDone(w, st', table, w.arch[table][k], Forward(w.j.k, table, w.arch[table][k], later))
    ensures forall k :: k in done + {i} ==> RowDeferred(w, st', table, w.arch[table][k], later)
  {
    var rows := w.arch[table];
    forall k | k in done + {i}
      ensures RowDone(w, st', table, rows[k], Forward(w.j.k, table, rows[k], later))
      ensures RowDeferred(w, st', table, rows[k], later)
    {
      if k in done {
        assert RowDone(w, st, table, rows[k], Forward(w.j.k, table, rows[k], later));
        assert RowDeferred(w, st, table, rows[k], later);
        RowDoneKept(w, st, st', table, rows[k], later);
      }
    }
  }

  /** Handling one more row. */
  lemma TableGrows(w: World, st: State, st': State, table: string, done: set<int>, later: set<string>, i: int, id: int,
                   r: Row)
    requires SoundWorld(w) && table in w.arch && TableDone(w, st, table, done, later)
    requires 0 <= i < |w.arch[table]| && r == w.arch[table][i] && Grows(st, st', table, IdOf(r), id)
    requires RowDone(w, st', table, r, Forward(w.j.k, table, r, later)) && RowDeferred(w, st', table, r, later)
    requires forall d :: d in st'.deferred && d !in st.deferred ==> DeferredBy(w, st', table, r, later, d)
    requires (forall k :: k in done + {i} ==> 0 <= k < |w.arch[table]|) && MapDone(w, st', table, done + {i})
    ensures TableDone(w, st', table, done + {i}, later)
  {
    RowsStayDone(w, st, st', table, done, later, i, id, r);
    DeferralsGrow(w, st, st', table, done, later, i, id, r);
  }

  lemma DeferralsGrow(w: World, st: State, st': State, table: string, done: set<int>, later: set<string>, i: int,
                      id: int, r: Row)
    requires table in w.arch && 0 <= i < |w.arch[table]| && r == w.arch[table][i] && Grows(st, st', table, IdOf(r), id)
    requires forall d :: d in st.deferred && d.table == table ==> DeferredFrom(w, st, table, done, later, d)
    requires forall d :: d in st'.deferred && d !in st.deferred ==> DeferredBy(w, st', table, r, later, d)
    ensures forall d :: d in st'.deferred && d.table == table ==> DeferredFrom(w, st', table, done + {i}, later, d)
  {
    forall d | d in st'.deferred && d.table == table
      ensures DeferredFrom(w, st', table, done + {i}, later, d)
    {
      if d in st.deferred {
        DeferredKept(w, st, st', table, done, done + {i}, later, d);
      } else {
        assert i in done + {i} && DeferredBy(w, st', table, w.arch[table][i], later, d);
      }
    }
  }

  /** An existing row is taken for the archived one. */
  lemma ReuseRow(w: World, st: State, table: string, done: set<int>, later: set<string>, i: int) returns (st': State)
    requires SoundWorld(w) && table in w.arch && table in w.j.s.hasId && TableDone(w, st, table, done, later)
    requires OldRowsKept(w, st.db) && 0 <= i < |w.arch[table]| && i !in done && Reused(w, table, w.arch[table][i])
    ensures var r := w.arch[table][i];
            st' == st.(maps := Mapped(st, table, IdOf(r), w.db0.natural[NaturalOf(table, r).value]))
    ensures TableDone(w, st', table, done + {i}, later) && SameExcept(st, st', table)
  {
    var r := w.arch[table][i];
    NotMappedYet(w, st, table, done, later, i);
    var id := w.db0.natural[NaturalOf(table, r).value];
    st' := st.(maps := Mapped(st, table, IdOf(r), id));
    forall a | a in st.maps[table]
      ensures st.maps[table][a] != id
    {
      ReusedApart(w, st, table, done, later, i, a);
    }
    ReusedGrows(w, st, table, r, later, id);
    MapGrows(w, st, st', table, done, i, id, r);
    TableGrows(w, st, st', table, done, later, i, id, r);
  }

  lemma ReusedGrows(w: World, st: State, table: string, r: Row, later: set<string>, id: int)
    requires table in st.maps && IdOf(r) !in st.maps[table] && Reused(w, table, r)
             && id == w.db0.natural[NaturalOf(table, r).value]
    ensures var st' := st.(maps := Mapped(st, table, IdOf(r), id));
            && Grows(st, st', table, IdOf(r), id)
            && RowDone(w, st', table, r, Forward(w.j.k, table, r, later)) && RowDeferred(w, st', table, r, later)
  {
  }

  /** The row an archived one is mapped to is not the one another stands for. */
  lemma ReusedApart(w: World, st: State, table: string, done: set<int>, later: set<string>, i: int, a: int)
    requires SoundWorld(w) && table in w.arch && TableDone(w, st, table, done, later)
    requires 0 <= i < |w.arch[table]| && i !in done && Reused(w, table, w.arch[table][i]) && a in st.maps[table]
    ensures st.maps[table][a] != w.db0.natural[NaturalOf(table, w.arch[table][i]).value]
  {
    var rows := w.arch[table];
    var k :| k in done && IdOf(rows[k]) == a;
    assert RowDone(w, st, table, rows[k], Forward(w.j.k, table, rows[k], later));
    assert NaturalOf(table, rows[k]) != NaturalOf(table, rows[i]);
    assert Key(table, w.db0.natural[NaturalOf(table, rows[i]).value]) in w.db0.byId;
    if Reused(w, table, rows[k]) {
      var x, y := NaturalOf(table, rows[k]).value, NaturalOf(table, rows[i]).value;
      assert x.table == y.table;
    }
  }

  /** The id map with one more archived id. */
  lemma MapGrows(w: World, st: State, st': State, table: string, done: set<int>, i: int, id: int, r: Row)
    requires table in w.arch && table in st.maps && (forall k :: k in done ==> 0 <= k < |w.arch[table]|)
    requires MapDone(w, st, table, done) && 0 <= i < |w.arch[table]| && r == w.arch[table][i]
    requires IdOf(r) !in st.maps[table] && st'.maps == Mapped(st, table, IdOf(r), id)
    requires (forall a :: a in st.maps[table] ==> st.maps[table][a] != id)
    requires Key(table, id) in st'.db.byId && (forall key :: key in st.db.byId ==> key in st'.db.byId)
    requires forall key :: key in st'.db.byId && key !in st.db.byId ==> key == Key(table, id)
    requires forall n :: n in st'.db.natural && n !in st.db.natural ==> NaturalOf(table, r) == Some(n)
    ensures (forall k :: k in done + {i} ==> 0 <= k < |w.arch[table]|) && MapDone(w, st', table, done + {i})
  {
    var rows, m, m' := w.arch[table], st.maps[table], st'.maps[table];
    MapIds(rows, m, m', done, i, id);
    MapKeys(w.db0.byId, st.db.byId, st'.db.byId, table, m, m', IdOf(r), id);
    forall n | n in st'.db.natural && n.table == table && n !in w.db0.natural
      ensures exists k :: k in done + {i} && NaturalOf(table, rows[k]) == Some(n)
    {
      if n in st.db.natural {
        var k :| k in done && NaturalOf(table, rows[k]) == Some(n);
        assert k in done + {i};
      } else {
        assert i in done + {i};
      }
    }
  }

  lemma MapIds(rows: seq<Row>, m: map<int, int>, m': map<int, int>, done: set<int>, i: int, id: int)
    requires 0 <= i < |rows| && m' == m[IdOf(rows[i]) := id] && forall k :: k in done ==> 0 <= k < |rows|
    requires forall a :: a in m ==> exists k :: k in done && IdOf(rows[k]) == a
    ensures forall a :: a in m' ==> exists k :: k in done + {i} && IdOf(rows[k]) == a
  {
    forall a | a in m'
      ensures exists k :: k in done + {i} && IdOf(rows[k]) == a
    {
      if a in m {
        var k :| k in done && IdOf(rows[k]) == a;
        assert k in done + {i};
      } else {
        assert i in done + {i};
      }
    }
  }

  lemma MapKeys(byId0: map<Key, Row>, byId: map<Key, Row>, byId': map<Key, Row>, table: string, m: map<int, int>,
                m': map<int, int>, was: int, id: int)
    requires was !in m && m' == m[was := id] && forall key :: key in byId' && key !in byId ==> key == Key(table, id)
    requires forall key :: key in byId && key.table == table && key !in byId0 ==> exists a :: a in m && m[a] == key.id
    ensures forall key :: key in byId' && key.table == table && key !in byId0 ==> exists a :: a in m' && m'[a] == key.id
  {
    forall key | key in byId' && key.table == table && key !in byId0
      ensures exists a :: a in m' && m'[a] == key.id
    {
      if key in byId {
        var a :| a in m && m[a] == key.id;
        assert a in m' && m'[a] == key.id;
      } else {
        assert m'[was] == id;
      }
    }
  }

  /** The database with one more row of a table with ids. */
  function Inserted(db: Db, table: string, r: Row, id: int, image: Row): Db {
    db.(byId := db.byId[Key(table, id) := image],
        natural := if NaturalOf(table, r).Some? then db.natural[NaturalOf(table, r).value := id] else db.natural,
        next := db.next[table := id + 1])
  }

  /** The deferred references of one row. */
  ghost predicate DefersExactly(k: Catalog, table: string, r: Row, id: int, later: set<string>, ds: seq<DeferredRef>) {
    && (forall c :: c in Forward(k, table, r, later) ==> Entry(k, table, r, c, id) in ds)
    && (forall d :: d in ds ==> d.column in Forward(k, table, r, later) && d == Entry(k, table, r, d.column, id))
  }

  /** The state with one more row stored under a fresh id. */
  function Added(j: Job, st: State, table: string, r: Row, later: set<string>, ds: seq<DeferredRef>): State
    requires table in st.maps && Renamed(j.o, table, r).Some?
  {
    var id := NextId(st.db, table);
    var maps := Mapped(st, table, IdOf(r), id);
    State(maps, st.deferred + ds,
          Inserted(st.db, table, r, id, Image(j, maps, table, r, id, Forward(j.k, table, r, later))))
  }

  lemma AddedGrows(w: World, st: State, table: string, r: Row, later: set<string>, ds: seq<DeferredRef>)
    requires table in st.maps && IdOf(r) !in st.maps[table] && Renamed(w.j.o, table, r).Some? && !Reused(w, table, r)
    requires Key(table, NextId(st.db, table)) !in st.db.byId && OldRowsKept(w, st.db)
    requires DefersExactly(w.j.k, table, r, NextId(st.db, table), later, ds)
    ensures var st' := Added(w.j, st, table, r, later, ds);
            && Grows(st, st', table, IdOf(r), NextId(st.db, table))
            && RowDone(w, st', table, r, Forward(w.j.k, table, r, later)) && RowDeferred(w, st', table, r, later)
            && (forall d :: d in st'.deferred && d !in st.deferred ==> DeferredBy(w, st', table, r, later, d))
  {
  }

  /** A row is stored under a fresh id. */
  lemma AddRow(w: World, st: State, table: string, done: set<int>, later: set<string>, i: int, ds: seq<DeferredRef>)
    requires SoundWorld(w) && table in w.arch && table in w.j.s.hasId && TableDone(w, st, table, done, later)
    requires OldRowsKept(w, st.db) && Consistent(st.db)
    requires 0 <= i < |w.arch[table]| && i !in done && !Reused(w, table, w.arch[table][i])
    requires Renamed(w.j.o, table, w.arch[table][i]).Some?
    requires DefersExactly(w.j.k, table, w.arch[table][i], NextId(st.db, table), later, ds)
    ensures var st' := Added(w.j, st, table, w.arch[table][i], later, ds);
            && TableDone(w, st', table, done + {i}, later) && SameExcept(st, st', table)
            && OldRowsKept(w, st'.db) && Consistent(st'.db)
  {
    var r, id := w.arch[table][i], NextId(st.db, table);
    NotMappedYet(w, st, table, done, later, i);
    var st' := Added(w.j, st, table, r, later, ds);
    NaturalIsNew(w, st, table, done, later, i);
    assert Key(table, id) !in st.db.byId;
    AddedGrows(w, st, table, r, later, ds);
    ConsistentInserted(w, st.db, table, r, id, st'.db.byId[Key(table, id)]);
    forall a | a in st.maps[table]
      ensures st.maps[table][a] != id
    {
      assert Key(table, st.maps[table][a]) in st.db.byId;
    }
    MapGrows(w, st, st', table, done, i, id, r);
    TableGrows(w, st, st', table, done, later, i, id, r);
  }

  /** A natural key that was not there before the import, and not on a handled row, is not there yet. */
  lemma NaturalIsNew(w: World, st: State, table: string, done: set<int>, later: set<string>, i: int)
    requires SoundWorld(w) && table in w.arch && TableDone(w, st, table, done, later)
    requires 0 <= i < |w.arch[table]| && i !in done
    ensures NaturalOf(table, w.arch[table][i]).Some? && !Reused(w, table, w.arch[table][i]) ==>
              NaturalOf(table, w.arch[table][i]).value !in st.db.natural
  {
  }

  lemma ConsistentInserted(w: World, db: Db, table: string, r: Row, id: int, image: Row)
    requires Consistent(db) && id == NextId(db, table) && OldRowsKept(w, db)
    requires NaturalOf(table, r).Some? ==> NaturalOf(table, r).value !in db.natural
    ensures Consistent(Inserted(db, table, r, id, image)) && OldRowsKept(w, Inserted(db, table, r, id, image))
  {
    assert Key(table, id) !in db.byId;
  }

  lemma SameExceptTrans(a: State, b: State, c: State, table: string)
    requires SameExcept(a, b, table) && SameExcept(b, c, table)
    ensures SameExcept(a, c, table)
  {
  }
}
