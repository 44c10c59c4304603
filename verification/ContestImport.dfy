/**
 The importer of internal/contestarchive/import.go: batches of rows, existing users
 and teams taken over, fresh ids, references rewritten or deferred. A whole import
 produces a copy of the archive whatever the batch size.
 */
module ContestImport {
  import opened Common
  import opened ImportModel
  import opened ImportState
  import opened ImportResult
  import opened ImportWrites

  class Importer {
    const j: Job
    const accepts: Constraints
    var maps: IdMaps
    var later: set<string>
    var deferred: seq<DeferredRef>
    var db: Db

    constructor (j: Job, accepts: Constraints, db: Db)
      ensures this.j == j && this.accepts == accepts && maps == map[] && later == {} && deferred == [] && this.db == db
    {
      this.j, this.accepts, maps, later, deferred, this.db := j, accepts, map[], {}, [], db;
    }

    ghost function Now(): State
      reads this
    {
      State(maps, deferred, db)
    }

    /**
     Rewrites the references of a prepared row, deferring those to tables imported
     later; `ok` is false for a reference that is no id, or one that cannot wait.
     */
    method RewriteRow(table: string, q: Row, id: int) returns (ok: bool, q': Row, ghost ds: seq<DeferredRef>)
      requires Sound(j.k)
      modifies this`deferred
      ensures deferred == old(deferred) + ds
      ensures ok ==> q' == Rewritten(j.k, maps, q, Forward(j.k, table, q, later)) && RefsAreIds(j.k, q)
      ensures ok ==> DefersExactly(j.k, table, q, id, later, ds)
                     && (table !in j.s.hasId ==> Forward(j.k, table, q, later) == {})
      ensures !ok ==> !RefsAreIds(j.k, q) || (table !in j.s.hasId && Forward(j.k, table, q, later) != {})
    {
      ok, q', ds := true, q, [];
      ghost var open := Forward(j.k, table, q, later);
      var cols := q.Keys;
      while cols != {}
        invariant cols <= q.Keys && q'.Keys == q.Keys && deferred == old(deferred) + ds
        invariant forall c :: c in cols ==> q'[c] == q[c]
        invariant forall c :: c in q.Keys - cols ==> q'[c] == Cell(j.k, maps, c, q[c], c in open)
        invariant forall c :: c in q.Keys - cols && c in j.k.refs ==> q[c] == Null || q[c].Num?
        invariant forall c :: c in open - cols ==> Entry(j.k, table, q, c, id) in ds
        invariant forall d :: d in ds ==> d.column in open && d == Entry(j.k, table, q, d.column, id)
        invariant table !in j.s.hasId ==> open - cols == {}
        decreases cols
      {
        var c :| c in cols;
        cols := cols - {c};
        var v := q[c];
        if c in j.k.adminRefs {
          q' := q'[c := Null];
        } else if c in j.k.refs && v != Null {
          if !v.Num? {
            return false, q', ds;
          }
          var target := j.k.refs[c];
          if target in later && target != table {
            if table !in j.s.hasId {
              assert c in open;
              return false, q', ds;
            }
            deferred := deferred + [DeferredRef(table, c, target, id, v.n)];
            ds := ds + [DeferredRef(table, c, target, id, v.n)];
            q' := q'[c := Null];
          } else {
            q' := q'[c := Resolve(maps, target, v.n)];
          }
        }
      }
    }

    /** Stores one row under a fresh id, with the columns `names`, unless the database refuses it. */
    method StoreRow(table: string, r: Row, names: set<string>)
      returns (ok: bool, refused: bool, ghost ds: seq<DeferredRef>)
      requires Sound(j.k) && table in maps && table in j.s.hasId
      requires Renamed(j.o, table, r).Some? ==> names == Names(j, table, r, NextId(db, table))
      modifies this`maps, this`deferred, this`db
      ensures ok ==> Storable(j, table, r) && DefersExactly(j.k, table, r, NextId(old(db), table), later - {table}, ds)
      ensures ok ==> Complete(j.s, table, FreshImage(j, old(Now()), table, r, later - {table}))
      ensures ok ==> Now() == Added(j, old(Now()), table, r, later - {table}, ds)
      ensures refused ==> Storable(j, table, r)
                          && !accepts(old(db), table, FreshImage(j, old(Now()), table, r, later - {table}))
      ensures !ok && !refused && Storable(j, table, r) ==>
                !Complete(j.s, table, FreshImage(j, old(Now()), table, r, later - {table}))
    {
      ok, refused, ds := false, false, [];
      if Renamed(j.o, table, r).None? || !("id" in r && r["id"].Num?) {
        return;
      }
      var id := NextId(db, table);
      maps := maps[table := maps[table][IdOf(r) := id]];
      var q := Prepared(j, table, r, id);
      PreparedSame(j, table, r, id, later);
      var rewritten, q';
      rewritten, q', ds := RewriteRow(table, q, id);
      if !rewritten {
        return;
      }
      var stored := map c | c in names :: if c in q' then q'[c] else Null;
      StoredImage(j, maps, table, r, id, Forward(j.k, table, q, later), stored);
      if !Complete(j.s, table, stored) {
        return;
      }
      if !accepts(db, table, stored) {
        refused := true;
        return;
      }
      DefersSame(j, table, r, id, later, ds);
      db := db.(byId := db.byId[Key(table, id) := stored],
                natural := if NaturalOf(table, r).Some? then db.natural[NaturalOf(table, r).value := id]
                           else db.natural,
                next := db.next[table := id + 1]);
      ok := true;
    }

    /** Table `table` is being imported and its rows `done` are handled. */
    ghost predicate Working(w: World, st0: State, table: string, done: set<int>)
      reads this
    {
      w.j == j && Progress(w, later, st0, Now(), table, done)
    }

    /** Maps a row to the existing one with its natural key, if there is one. */
    method ReuseOne(table: string, n: Natural, r: Row, ghost w: World, ghost st0: State, ghost done: set<int>,
                    ghost i: int)
      returns (reused: bool)
      requires Working(w, st0, table, done) && 0 <= i < |w.arch[table]| && i !in done
      requires r == w.arch[table][i] && NaturalOf(table, r) == Some(n)
      modifies this`maps
      ensures reused <==> Reused(w, table, r)
      ensures Working(w, st0, table, if reused then done + {i} else done)
    {
      ReuseStep(w, later, st0, Now(), table, done, i, n);
      reused := n in db.natural;
      if reused {
        maps := maps[table := maps[table][IdOf(r) := db.natural[n]]];
      }
    }

    /** Takes one more row of a batch: mapped to the existing row with its key, or kept. */
    method ReuseNext(table: string, keyColumn: string, r: Row, kept: seq<Row>,
                     ghost w: World, ghost st0: State, ghost top: nat, ghost idx: seq<int>, ghost done: set<int>)
      returns (ok: bool, kept': seq<Row>, ghost idx': seq<int>, ghost done': set<int>)
      requires Working(w, st0, table, done) && KeyColumn(table) == Some(keyColumn)
      requires Pending(w, table, top, kept, idx, done) && top < |w.arch[table]| && r == w.arch[table][top]
      modifies this`maps
      ensures ok ==> Working(w, st0, table, done') && Pending(w, table, top + 1, kept', idx', done')
      ensures !ok ==> !Loadable(w, table, r, later - {table})
    {
      if !(keyColumn in r && r[keyColumn].Text?) {
        return false, kept, idx, done;
      }
      PendingTop(w, table, top, kept, idx, done);
      var reused := ReuseOne(table, Natural(table, r[keyColumn].s), r, w, st0, done, top);
      if reused {
        PendingSkip(w, table, top, kept, idx, done);
        return true, kept, idx, done + {top};
      } else {
        PendingKeep(w, table, top, kept, idx, done, r);
        return true, kept + [r], idx + [top], done;
      }
    }

    /** Maps the rows of a batch whose natural key exists to the existing rows, and keeps the others. */
    method Reuse(table: string, keyColumn: string, batch: seq<Row>, ghost w: World, ghost st0: State, ghost base: nat,
                 ghost end: nat)
      returns (ok: bool, kept: seq<Row>, ghost idx: seq<int>, ghost done: set<int>)
      requires Working(w, st0, table, Below(base)) && KeyColumn(table) == Some(keyColumn)
      requires end == base + |batch| <= |w.arch[table]| && batch == w.arch[table][base..end]
      modifies this`maps
      ensures ok ==> Working(w, st0, table, done) && Pending(w, table, end, kept, idx, done)
      ensures !ok ==> !AllLoadable(w, table, later - {table})
    {
      ok, kept, idx, done := true, [], [], Below(base);
      ghost var top: nat := base;
      var i := 0;
      PendingStart(w, table, base);
      while i < |batch|
        invariant 0 <= i <= |batch| && top == base + i
        invariant Working(w, st0, table, done) && Pending(w, table, top, kept, idx, done)
      {
        SliceAt(batch, w.arch[table], base, end, i, top);
        ok, kept, idx, done := ReuseNext(table, keyColumn, batch[i], kept, w, st0, top, idx, done);
        if !ok {
          NotLoadable(w, table, top, later - {table});
          return;
        }
        i, top := i + 1, top + 1;
      }
    }

    /** Inserts a batch of rows of a table with ids: those from `base` to `top`. */
    method InsertBatch(table: string, batch: seq<Row>, ghost w: World, ghost st0: State, ghost base: nat,
                       ghost top: nat)
      returns (ok: bool)
      requires Working(w, st0, table, Below(base))
      requires top == base + |batch| <= |w.arch[table]| && batch == w.arch[table][base..top]
      modifies this`maps, this`deferred, this`db
      ensures ok ==> Working(w, st0, table, Below(top))
      ensures !ok ==> Failing(w, accepts, table, later - {table})
    {
      if |batch| == 0 {
        assert base == top;
        return true;
      }
      var key := KeyColumn(table);
      if key.Some? {
        var reused, kept, idx, done := Reuse(table, key.value, batch, w, st0, base, top);
        if !reused {
          return false;
        }
        ok := StoreKept(table, kept, w, st0, top, idx, done);
      } else {
        ghost var idx := PendingAll(w, table, base, top, batch);
        ok := StoreKept(table, batch, w, st0, top, idx, Below(base));
      }
    }

    /** Stores the pending row of index i. */
    method StoreNext(table: string, r: Row, names: set<string>, ghost w: World, ghost st0: State, ghost done: set<int>,
                     ghost i: int)
      returns (ok: bool)
      requires Working(w, st0, table, done) && 0 <= i < |w.arch[table]| && i !in done
      requires r == w.arch[table][i] && Awaits(w, table, r) && Frontier(w, table, done, i)
      requires Renamed(j.o, table, r).Some? ==>
                 KnownColumns(j, table, r) && names == Names(j, table, r, NextId(db, table))
      modifies this`maps, this`deferred, this`db
      ensures ok ==> Working(w, st0, table, done + {i})
      ensures !ok ==> Failing(w, accepts, table, later - {table})
    {
      ghost var before := Now();
      ProgressTable(w, later, st0, before, table, done);
      var stored, refused, ds := StoreRow(table, r, names);
      StoreStep(w, later, st0, before, table, done, i, ds, stored);
      if refused {
        RowRefused(w, accepts, later, st0, before, table, done, i);
      }
      ok := stored;
    }

    /** Stores the rows of a batch that are not reused; the first decides the columns, which must all be known. */
    method StoreKept(table: string, kept: seq<Row>, ghost w: World, ghost st0: State, ghost top: nat,
                     ghost idx: seq<int>, ghost done0: set<int>)
      returns (ok: bool)
      requires Working(w, st0, table, done0) && Pending(w, table, top, kept, idx, done0)
      modifies this`maps, this`deferred, this`db
      ensures ok ==> Working(w, st0, table, Below(top))
      ensures !ok ==> Failing(w, accepts, table, later - {table})
    {
      if |kept| == 0 {
        PendingNone(w, table, top, kept, idx, done0);
        return true;
      }
      PendingHead(w, table, top, kept, idx, done0);
      var first := Renamed(j.o, table, kept[0]);
      if first.None? || table !in j.s.columns || !(first.value.Keys <= j.s.columns[table].Keys) {
        NotLoadable(w, table, idx[0], later - {table});
        return false;
      }
      ok := StoreAll(table, kept, Names(j, table, kept[0], 0), w, st0, top, idx, done0);
    }

    /** Stores pending rows with the columns of the first. */
    method StoreAll(table: string, kept: seq<Row>, names: set<string>, ghost w: World, ghost st0: State,
                    ghost top: nat, ghost idx: seq<int>, ghost done0: set<int>)
      returns (ok: bool)
      requires Working(w, st0, table, done0) && Pending(w, table, top, kept, idx, done0)
      requires |kept| > 0 && KnownColumns(j, table, kept[0]) && names == Names(j, table, kept[0], 0)
      modifies this`maps, this`deferred, this`db
      ensures ok ==> Working(w, st0, table, Below(top))
      ensures !ok ==> Failing(w, accepts, table, later - {table})
    {
      var i := 0;
      ghost var rest, more, done := kept, idx, done0;
      while i < |kept|
        invariant 0 <= i <= |kept| == |idx| && rest == kept[i..] && more == idx[i..]
        invariant Working(w, st0, table, done) && Pending(w, table, top, rest, more, done)
      {
        PendingHead(w, table, top, rest, more, done);
        SameColumns(w, later, st0, Now(), table, done, kept, idx, top, done0, i, NextId(db, table));
        ok := StoreNext(table, kept[i], names, w, st0, done, more[0]);
        if !ok {
          return;
        }
        PendingNext(w, table, top, rest, more, done);
        done := done + {more[0]};
        rest, more, i := rest[1..], more[1..], i + 1;
      }
      PendingNone(w, table, top, rest, more, done);
      ok := true;
    }

    /** A table without ids is being imported and its first n rows are stored. */
    ghost predicate WorkingPlain(w: World, st0: State, table: string, n: nat)
      reads this
    {
      w.j == j && ProgressPlain(w, later, st0, Now(), table, n)
    }

    /** What is stored for a row of a table without ids; nothing may be deferred. */
    method MakePlain(table: string, r: Row, names: set<string>) returns (ok: bool, stored: Row)
      requires Sound(j.k) && table !in j.s.hasId && (Renamed(j.o, table, r).Some? ==> names == Names(j, table, r, 0))
      modifies this`deferred
      ensures ok ==> deferred == old(deferred) && StorablePlain(j, table, r, later - {table})
      ensures ok ==> stored == Image(j, maps, table, r, 0, {})
      ensures !ok ==> !StorablePlain(j, table, r, later - {table})
    {
      if Renamed(j.o, table, r).None? {
        return false, map[];
      }
      var q := Prepared(j, table, r, 0);
      PreparedSame(j, table, r, 0, later);
      var rewritten, q', ds := RewriteRow(table, q, 0);
      if !rewritten {
        return false, map[];
      }
      NothingDeferred(j.k, table, q, 0, later, ds);
      stored := map c | c in names :: if c in q' then q'[c] else Null;
      StoredImage(j, maps, table, r, 0, {}, stored);
      ok := true;
    }

    /** Stores one row of a table without ids, unless the database refuses it. */
    method StorePlain(table: string, r: Row, names: set<string>, ghost w: World, ghost st0: State, ghost n: nat)
      returns (ok: bool)
      requires WorkingPlain(w, st0, table, n) && n < |w.arch[table]| && r == w.arch[table][n]
      requires Renamed(j.o, table, r).Some? ==> KnownColumns(j, table, r) && names == Names(j, table, r, 0)
      modifies this`deferred, this`db
      ensures ok ==> WorkingPlain(w, st0, table, n + 1)
      ensures !ok ==> Failing(w, accepts, table, later - {table})
    {
      ghost var before := Now();
      ProgressPlainTable(w, later, st0, before, table, n);
      PlainStep(w, later, st0, before, table, n);
      var stored;
      ok, stored := MakePlain(table, r, names);
      if !ok || !Complete(j.s, table, stored) {
        return false;
      }
      if !accepts(db, table, stored) {
        PlainRefused(w, accepts, later, st0, before, table, n, stored);
        return false;
      }
      db := db.(plain := db.plain[table := PlainRows(db, table) + [stored]]);
    }

    /** Inserts a batch of rows of a table without ids: those from `base` to `top`. */
    method InsertPlain(table: string, batch: seq<Row>, ghost w: World, ghost st0: State, ghost base: nat,
                       ghost top: nat)
      returns (ok: bool)
      requires WorkingPlain(w, st0, table, base)
      requires top == base + |batch| <= |w.arch[table]| && batch == w.arch[table][base..top]
      modifies this`deferred, this`db
      ensures ok ==> WorkingPlain(w, st0, table, top)
      ensures !ok ==> Failing(w, accepts, table, later - {table})
    {
      if |batch| == 0 {
        return true;
      }
      SliceAt(batch, w.arch[table], base, top, 0, base);
      var first := Renamed(j.o, table, batch[0]);
      ProgressPlainTable(w, later, st0, Now(), table, base);
      if first.None? || table !in j.s.columns || !(first.value.Keys <= j.s.columns[table].Keys) {
        NotLoadable(w, table, base, later - {table});
        return false;
      }
      ok := StorePlainAll(table, batch, Names(j, table, batch[0], 0), w, st0, base, top);
    }

    /** Stores a batch with the columns of its first row. */
    method StorePlainAll(table: string, batch: seq<Row>, names: set<string>, ghost w: World, ghost st0: State,
                         ghost base: nat, ghost top: nat)
      returns (ok: bool)
      requires WorkingPlain(w, st0, table, base)
      requires Batched(w, table, batch, names, base, top)
      modifies this`deferred, this`db
      ensures ok ==> WorkingPlain(w, st0, table, top)
      ensures !ok ==> Failing(w, accepts, table, later - {table})
    {
      ghost var n := base;
      var i := 0;
      while i < |batch|
        invariant 0 <= i <= |batch| && n == base + i && WorkingPlain(w, st0, table, n)
      {
        BatchRow(w, later, st0, Now(), table, batch, names, base, top, i, n);
        ok := StorePlain(table, batch[i], names, w, st0, n);
        if !ok {
          return;
        }
        i, n := i + 1, n + 1;
      }
      ok := true;
    }

    /** The table is being imported and its first n rows are handled. */
    ghost predicate Reached(w: World, st0: State, table: string, n: nat)
      reads this
    {
      exists done :: Handled(w, st0, table, n, done)
    }

    ghost predicate Handled(w: World, st0: State, table: string, n: nat, done: set<int>)
      reads this
    {
      done == Below(n) && if table in j.s.hasId then Working(w, st0, table, done) else WorkingPlain(w, st0, table, n)
    }

    method Insert(table: string, batch: seq<Row>, ghost w: World, ghost st0: State, ghost base: nat, ghost top: nat)
      returns (ok: bool)
      requires table in w.arch && Reached(w, st0, table, base)
      requires top == base + |batch| <= |w.arch[table]| && batch == w.arch[table][base..top]
      modifies this`maps, this`deferred, this`db
      ensures ok ==> Reached(w, st0, table, top)
      ensures !ok ==> Failing(w, accepts, table, later - {table})
    {
      if table in j.s.hasId {
        ok := InsertBatch(table, batch, w, st0, base, top);
      } else {
        ok := InsertPlain(table, batch, w, st0, base, top);
      }
      assert ok ==> Handled(w, st0, table, top, Below(top));
    }

    /** Adds a row to the batch that began at `base`, and inserts the batch when it is full. */
    method TakeRow(table: string, rows: seq<Row>, batch: seq<Row>, i: nat, batchSize: nat, ghost w: World,
                   ghost st0: State, ghost base: nat)
      returns (ok: bool, batch': seq<Row>, ghost base': nat)
      requires table in w.arch && rows == w.arch[table] && Reached(w, st0, table, base)
      requires base <= i < |rows| && batch == rows[base..i] && |batch| < batchSize
      modifies this`maps, this`deferred, this`db
      ensures ok ==> Reached(w, st0, table, base') && base' <= i + 1 && batch' == rows[base'..i + 1]
                     && |batch'| < batchSize
      ensures !ok ==> Failing(w, accepts, table, later - {table})
    {
      batch' := batch + [rows[i]];
      assert batch' == rows[base..i + 1];
      if |batch'| < batchSize {
        return true, batch', base;
      }
      ok := Insert(table, batch', w, st0, base, i + 1);
      batch', base' := [], i + 1;
    }

    /** Inserts the rows of a table, a batch at a time. */
    method Batches(table: string, rows: seq<Row>, batchSize: nat, ghost w: World, ghost st0: State)
      returns (ok: bool)
      requires batchSize >= 1 && table in w.arch && rows == w.arch[table] && Reached(w, st0, table, 0)
      modifies this`maps, this`deferred, this`db
      ensures ok ==> Reached(w, st0, table, |rows|)
      ensures !ok ==> Failing(w, accepts, table, later - {table})
    {
      var batch := [];
      ghost var base: nat := 0;
      for i := 0 to |rows|
        invariant base <= i && batch == rows[base..i] && |batch| < batchSize
        invariant Reached(w, st0, table, base)
      {
        ok, batch, base := TakeRow(table, rows, batch, i, batchSize, w, st0, base);
        if !ok {
          return;
        }
      }
      ok := Insert(table, batch, w, st0, base, |rows|);
    }

    /** Imports a table. */
    method Table(table: string, rows: seq<Row>, batchSize: nat, ghost w: World, ghost laters: map<string, set<string>>)
      returns (ok: bool)
      requires batchSize >= 1 && w.j == j && table in w.arch && rows == w.arch[table]
      requires Imported(w, Now(), laters) && ItsTurn(w, table, later, laters)
      modifies this`maps, this`deferred, this`db
      ensures ok ==> Imported(w, Now(), laters[table := later - {table}]) && AllLoadable(w, table, later - {table})
      ensures !ok ==> Failing(w, accepts, table, later - {table})
    {
      ghost var st0 := Now();
      maps := maps[table := map[]];
      TableBegins(w, later, st0, table, laters);
      assert Handled(w, st0, table, 0, Below(0));
      ok := Batches(table, rows, batchSize, w, st0);
      if ok {
        if table in j.s.hasId {
          TableFinishes(w, later, st0, Now(), table, laters);
        } else {
          PlainFinishes(w, later, st0, Now(), table, laters);
        }
      }
    }

    /** Gathers the references whose target is archived by table and column. */
    method GroupDeferred() returns (groups: map<Cells, seq<Fix>>, ghost origins: map<Cells, seq<DeferredRef>>)
      ensures Grouped(maps, deferred, groups, origins)
    {
      groups, origins := map[], map[];
      for i := 0 to |deferred|
        invariant Grouped(maps, deferred[..i], groups, origins)
      {
        var d := deferred[i];
        GroupNext(maps, deferred, i, groups, origins);
        if d.target in maps && d.was in maps[d.target] {
          var k, f := Cells(d.table, d.column), Fix(d.id, maps[d.target][d.was]);
          groups := groups[k := (if k in groups then groups[k] else []) + [f]];
          origins := origins[k := (if k in origins then origins[k] else []) + [d]];
        }
      }
      assert deferred[..|deferred|] == deferred;
    }

    /** One UPDATE: writes the references of one column of a table, unless a constraint refuses a row. */
    method FixColumn(k: Cells, fixes: seq<Fix>, ghost st: State, ghost from: seq<DeferredRef>,
                     ghost holds: (set<DeferredRef>, map<Key, Row>) -> bool, ghost written: set<DeferredRef>)
      returns (ok: bool)
      requires FixesOf(st.maps, k, fixes, from) && All(from) <= All(st.deferred)
      requires KeptByPatches(st, holds) && holds(written, db.byId) && db == st.db.(byId := db.byId)
      modifies this`db
      ensures db == st.db.(byId := db.byId)
      ensures ok ==> holds(written + All(from), db.byId)
      ensures !ok ==> PatchRefused(st, accepts, holds)
    {
      ghost var sofar := written;
      for i := 0 to |fixes|
        invariant db == st.db.(byId := db.byId) && sofar == written + All(from[..i]) && holds(sofar, db.byId)
      {
        ghost var d, before := from[i], db.byId;
        assert d in All(from) && d in st.deferred && holds(sofar + {d}, PatchOne(st, d, before));
        var key := Key(k.table, fixes[i].id);
        if key in db.byId {
          var row := db.byId[key][k.column := Num(fixes[i].ref)];
          if !accepts(db, k.table, row) {
            assert RefusedAt(st, accepts, holds, d, sofar, before);
            return false;
          }
          db := db.(byId := db.byId[key := row]);
        }
        AllNext(from, i);
        sofar := sofar + {d};
      }
      assert from[..|from|] == from;
      ok := true;
    }

    /**
     Writes the references to rows imported after their holders: whatever every one of them
     keeps holds once all are written, in the order the groups happen to come.
     */
    method FixDeferred(ghost holds: (set<DeferredRef>, map<Key, Row>) -> bool) returns (ok: bool)
      requires KeptByPatches(Now(), holds) && holds({}, db.byId)
      modifies this`db
      ensures db == old(db).(byId := db.byId)
      ensures ok ==> holds(All(deferred), db.byId)
      ensures !ok ==> PatchRefused(old(Now()), accepts, holds)
    {
      ghost var st := Now();
      var groups, origins := GroupDeferred();
      ghost var written := {};
      var todo := groups.Keys;
      while todo != {}
        invariant todo <= groups.Keys && db == st.db.(byId := db.byId) && holds(written, db.byId)
        invariant written <= All(deferred) && forall k :: k in groups.Keys - todo ==> All(origins[k]) <= written
        decreases todo
      {
        var k :| k in todo;
        todo := todo - {k};
        ok := FixColumn(k, groups[k], st, origins[k], holds, written);
        if !ok {
          return;
        }
        written := written + All(origins[k]);
      }
      Unresolved(st, groups, origins, holds, written, db.byId);
      ok := true;
    }

    /**
     Imports every archived table in the catalog's order; a failure leaves the database as it was.
     Only a well-formed archive is imported, and one that is fails only when a constraint of the
     database refuses a row at the moment it is written. In particular a reference that must not be
     empty, to a row outside the archive, makes it fail.
     */
    method Import(arch: map<string, seq<Row>>, batchSize: nat) returns (ok: bool)
      requires maps == map[] && later == {} && deferred == [] && batchSize >= 1
      requires SoundWorld(World(j, arch, db)) && KnownTables(j.k.order, arch)
      modifies this
      ensures ok ==> IsCopy(World(j, arch, old(db)), maps, db) && WellFormed(World(j, arch, old(db)))
      ensures ok ==> RowsCopied(World(j, arch, old(db)), maps, db)
      ensures ok ==> RequiredArchived(World(j, arch, old(db)))
      ensures !ok ==> db == old(db)
      ensures WellFormed(World(j, arch, old(db))) && Accepting(World(j, arch, old(db)), accepts) ==> ok
    {
      ghost var w := World(j, arch, db);
      var start := db;
      later := arch.Keys;
      ImportBegins(w);
      ghost var laters;
      ok, laters := Tables(arch, batchSize, w);
      if !ok {
        db := start;
        return;
      }
      ghost var st := Now();
      BeforePatches(w, st, laters);
      ok := FixDeferred(StaysPatched(w, st, laters));
      if ok {
        AfterPatches(w, st, laters, db.byId);
        RequiredFound(w);
        CopyHasRows(w, maps, db);
      } else {
        PatchRefusal(w, accepts, st, laters);
        db := start;
      }
    }

    /** Imports the archived tables one after the other. */
    method Tables(arch: map<string, seq<Row>>, batchSize: nat, ghost w: World)
      returns (ok: bool, ghost laters: map<string, set<string>>)
      requires batchSize >= 1 && w.j == j && w.arch == arch && KnownTables(j.k.order, arch)
      requires Imported(w, Now(), map[]) && later == arch.Keys
      modifies this
      ensures ok ==> Imported(w, Now(), laters) && laters.Keys == arch.Keys && InOrder(w, laters) && WellFormed(w)
      ensures !ok ==> !Accepting(w, accepts) || !WellFormed(w)
    {
      laters := map[];
      FirstTurn(w);
      for i := 0 to |j.k.order|
        invariant Imported(w, Now(), laters) && Turn(w, i, later, laters)
      {
        var t := j.k.order[i];
        TurnNext(w, i, later, laters);
        if t in later {
          TurnNow(w, i, later, laters);
          ok := Table(t, arch[t], batchSize, w, laters);
          if !ok {
            TurnFails(w, accepts, t, later - {t});
            return;
          }
          later := later - {t};
          laters := laters[t := later];
        }
      }
      TurnsOver(w, later, laters);
      ok := true;
    }
  }

  /** A column of a table, and a reference to be written in one of its rows. */
  datatype Cells = Cells(table: string, column: string)
  datatype Fix = Fix(id: int, ref: int)

  /** The fixes of a column come from these deferred references. */
  ghost predicate FixesOf(maps: IdMaps, k: Cells, fixes: seq<Fix>, from: seq<DeferredRef>) {
    && |fixes| == |from|
    && forall i :: 0 <= i < |from| ==>
         && from[i].table == k.table && from[i].column == k.column && Resolvable(maps, from[i])
         && fixes[i] == Fix(from[i].id, maps[from[i].target][from[i].was])
  }

  /** The groups hold exactly the deferred references whose target is archived. */
  ghost predicate Grouped(maps: IdMaps, ds: seq<DeferredRef>, groups: map<Cells, seq<Fix>>,
                          origins: map<Cells, seq<DeferredRef>>) {
    && groups.Keys == origins.Keys
    && (forall k :: k in groups ==> FixesOf(maps, k, groups[k], origins[k]) && All(origins[k]) <= All(ds))
    && (forall d :: d in ds && Resolvable(maps, d) ==>
          Cells(d.table, d.column) in origins && d in origins[Cells(d.table, d.column)])
  }

  lemma AllNext(ds: seq<DeferredRef>, i: nat)
    requires i < |ds|
    ensures All(ds[..i + 1]) == All(ds[..i]) + {ds[i]}
  {
    assert ds[..i + 1] == ds[..i] + [ds[i]];
  }

  /** One more deferred reference joins its group. */
  lemma GroupNext(maps: IdMaps, ds: seq<DeferredRef>, i: nat, groups: map<Cells, seq<Fix>>,
                  origins: map<Cells, seq<DeferredRef>>)
    requires i < |ds| && Grouped(maps, ds[..i], groups, origins)
    ensures var d := ds[i];
            if Resolvable(maps, d) then
              var k, f := Cells(d.table, d.column), Fix(d.id, maps[d.target][d.was]);
              Grouped(maps, ds[..i + 1], groups[k := (if k in groups then groups[k] else []) + [f]],
                      origins[k := (if k in origins then origins[k] else []) + [d]])
            else Grouped(maps, ds[..i + 1], groups, origins)
  {
    AllNext(ds, i);
    assert ds[..i + 1] == ds[..i] + [ds[i]];
  }

  lemma ResolvedWritten(maps: IdMaps, ds: seq<DeferredRef>, groups: map<Cells, seq<Fix>>,
                        origins: map<Cells, seq<DeferredRef>>, written: set<DeferredRef>)
    requires Grouped(maps, ds, groups, origins) && forall k :: k in origins ==> All(origins[k]) <= written
    ensures forall d :: d in ds && Resolvable(maps, d) ==> d in written
  {
    forall d | d in ds && Resolvable(maps, d)
      ensures d in written
    {
      assert d in All(origins[Cells(d.table, d.column)]);
    }
  }

  /** References without an archived target need no writing. */
  lemma Unresolved(st: State, groups: map<Cells, seq<Fix>>, origins: map<Cells, seq<DeferredRef>>,
                   holds: (set<DeferredRef>, map<Key, Row>) -> bool, written: set<DeferredRef>, byId: map<Key, Row>)
    requires Grouped(st.maps, st.deferred, groups, origins) && KeptByPatches(st, holds) && holds(written, byId)
    requires written <= All(st.deferred) && forall k :: k in origins ==> All(origins[k]) <= written
    ensures holds(All(st.deferred), byId)
    decreases All(st.deferred) - written
  {
    ResolvedWritten(st.maps, st.deferred, groups, origins, written);
    if d :| d in st.deferred && d !in written {
      assert PatchOne(st, d, byId) == byId;
      Unresolved(st, groups, origins, holds, written + {d}, byId);
    } else {
      assert written == All(st.deferred);
    }
  }

  /** Every archived table is in the catalog, which lists no table twice. */
  ghost predicate KnownTables(order: seq<string>, arch: map<string, seq<Row>>) {
    && (forall i, i' :: 0 <= i < i' < |order| ==> order[i] != order[i'])
    && (forall t :: t in arch ==> t in order)
  }

  /** The archived tables from the i-th of the order on. */
  ghost function Rest(w: World, i: nat): set<string>
    requires i <= |w.j.k.order|
  {
    set t | t in w.arch && t in w.j.k.order[i..]
  }

  /** Every row of the first n tables can be imported when its table's turn comes. */
  ghost predicate WellFormedUpTo(w: World, n: nat)
    requires n <= |w.j.k.order|
  {
    forall i :: 0 <= i < n && w.j.k.order[i] in w.arch ==> AllLoadable(w, w.j.k.order[i], Rest(w, i + 1))
  }

  ghost predicate WellFormed(w: World) { WellFormedUpTo(w, |w.j.k.order|) }

  /** A column that must be filled and holds a reference, in a row for which no existing one stands in. */
  predicate RequiredAt(w: World, t: string, i: int, c: string) {
    && t in w.arch && 0 <= i < |w.arch[t]| && !Reused(w, t, w.arch[t][i]) && c in w.arch[t][i] && c in w.j.k.refs
    && w.arch[t][i][c].Num? && Insertable(w.j.s, t, c) && c in ColumnsIn(w.j.s.notNull, t)
  }

  ghost predicate RequiredArchived(w: World) {
    forall t, i, c :: RequiredAt(w, t, i, c) ==> Archived(w, w.j.k.refs[c], w.arch[t][i][c].n)
  }

  lemma RequiredFound(w: World)
    requires Sound(w.j.k) && KnownTables(w.j.k.order, w.arch) && WellFormed(w)
    ensures RequiredArchived(w)
  {
    forall t, i, c | RequiredAt(w, t, i, c)
      ensures Archived(w, w.j.k.refs[c], w.arch[t][i][c].n)
    {
      var n :| 0 <= n < |w.j.k.order| && w.j.k.order[n] == t;
      assert Loadable(w, t, w.arch[t][i], Rest(w, n + 1));
      if !Archived(w, w.j.k.refs[c], w.arch[t][i][c].n) {
        RequiredReference(w, t, w.arch[t][i], Rest(w, n + 1), c);
      }
    }
  }

  /** The import sets this column itself. */
  predicate SetAnew(j: Job, t: string, c: string) {
    (c == "id" && t in j.s.hasId) || (c in ["name", "status"] && t == "contests")
  }

  /** The table is not among those imported after the n-th. */
  ghost predicate NotLater(w: World, n: nat, t: string) {
    forall m :: n < m < |w.j.k.order| && w.j.k.order[m] == t ==> t !in w.arch
  }

  /** What must hold of a new row of the n-th table. */
  ghost predicate NewRowImportable(w: World, n: nat, r: Row)
    requires n < |w.j.k.order|
  {
    var t, s, refs := w.j.k.order[n], w.j.s, w.j.k.refs;
    && t in s.columns && (forall c :: c in r || (c in ["name", "status"] && t == "contests") ==> c in s.columns[t])
    && (t in s.hasId ==> "id" in r && r["id"].Num?)
    && (t == "tasks" ==> "name" in r && r["name"].Text?)
    && (forall c :: c in r && c in refs ==> r[c] == Null || (r[c].Num? && (t in s.hasId || NotLater(w, n, refs[c]))))
    && ColumnsFilled(w, n, r)
  }

  /** Every column that must be filled has a value, and those without a default are there. */
  ghost predicate ColumnsFilled(w: World, n: nat, r: Row)
    requires n < |w.j.k.order| && w.j.k.order[n] in w.j.s.columns
  {
    var t, s := w.j.k.order[n], w.j.s;
    && (t in s.notNull ==>
          forall c :: c in s.notNull[t] && c in s.columns[t] && s.columns[t][c] && (c in r || SetAnew(w.j, t, c)) ==>
            c !in w.j.k.adminRefs && (SetAnew(w.j, t, c) || FillsReference(w, n, c, r[c])))
    && (t in s.noDefault ==>
          forall c :: c in s.noDefault[t] ==>
            c in s.columns[t] && s.columns[t][c] && (c in r || SetAnew(w.j, t, c)))
  }

  /** The value is there after its row is inserted: a reference must be to an archived row of a table before. */
  ghost predicate FillsReference(w: World, n: nat, c: string, v: Value) {
    var refs := w.j.k.refs;
    v != Null && (c in refs ==> v.Num? && NotLater(w, n, refs[c]) && Archived(w, refs[c], v.n))
  }

  /** A row can be imported: users and teams have their keys, and a row that is not known yet is complete. */
  ghost predicate RowImportable(w: World, n: nat, r: Row)
    requires n < |w.j.k.order|
  {
    var t := w.j.k.order[n];
    && (t == "users" ==> "username" in r && r["username"].Text?)
    && (t == "teams" ==> "code" in r && r["code"].Text?)
    && ((exists id :: Existing(w.db0.natural, t, r, id)) || NewRowImportable(w, n, r))
  }

  lemma NotLaterMeans(w: World, n: nat, t: string)
    requires n < |w.j.k.order|
    ensures NotLater(w, n, t) <==> t !in Rest(w, n + 1)
  {
    var later := w.j.k.order[n + 1..];
    if t in w.arch && t in later {
      var i :| 0 <= i < |later| && later[i] == t;
      assert w.j.k.order[n + 1 + i] == t;
    }
    if !NotLater(w, n, t) {
      var m :| n < m < |w.j.k.order| && w.j.k.order[m] == t && t in w.arch;
      assert later[m - n - 1] == t;
    }
  }

  lemma NewRowLoads(w: World, n: nat, r: Row)
    requires Sound(w.j.k) && n < |w.j.k.order| && SoundRefs(w.j, w.j.k.order[n], r)
    requires !Reused(w, w.j.k.order[n], r)
    ensures NewRowImportable(w, n, r) <==>
            var t := w.j.k.order[n];
            && KnownColumns(w.j, t, r) && (t in w.j.s.hasId ==> "id" in r && r["id"].Num?)
            && RefsAreIds(w.j.k, r) && Filled(w, t, r, Rest(w, n + 1))
            && (t !in w.j.s.hasId ==> Forward(w.j.k, t, r, Rest(w, n + 1)) == {})
  {
    var t, later := w.j.k.order[n], Rest(w, n + 1);
    forall u ensures NotLater(w, n, u) <==> u !in later {
      NotLaterMeans(w, n, u);
    }
    if RefsAreIds(w.j.k, r) && t !in w.j.s.hasId {
      assert forall c :: c in Forward(w.j.k, t, r, later) <==> c in r && c in w.j.k.refs && r[c].Num?
                                                               && w.j.k.refs[c] in later && w.j.k.refs[c] != t;
    }
    if KnownColumns(w.j, t, r) {
      FilledMeans(w, n, r);
    }
  }

  lemma FilledMeans(w: World, n: nat, r: Row)
    requires Sound(w.j.k) && n < |w.j.k.order| && Renamed(w.j.o, w.j.k.order[n], r).Some?
    requires w.j.k.order[n] in w.j.s.columns
    ensures Filled(w, w.j.k.order[n], r, Rest(w, n + 1)) <==> ColumnsFilled(w, n, r)
  {
    var t, later := w.j.k.order[n], Rest(w, n + 1);
    var q := Prepared(w.j, t, r, 0);
    assert forall c :: c in q <==> c in r || SetAnew(w.j, t, c);
    forall c | c in q
      ensures Fills(w, c, q[c], later) <==>
              c !in w.j.k.adminRefs && (SetAnew(w.j, t, c) || FillsReference(w, n, c, r[c]))
    {
      if c in w.j.k.refs {
        RefsKept(w.j, t, r, 0, c);
        NotLaterMeans(w, n, w.j.k.refs[c]);
      }
    }
    assert forall c :: c in Names(w.j, t, r, 0) <==> c in q && Insertable(w.j.s, t, c);
  }

  /** Which archives an import takes, stated of their rows. */
  lemma ImportableExactly(w: World)
    requires SoundWorld(w)
    ensures WellFormed(w) <==>
            forall n, i :: 0 <= n < |w.j.k.order| && w.j.k.order[n] in w.arch && 0 <= i < |w.arch[w.j.k.order[n]]| ==>
              RowImportable(w, n, w.arch[w.j.k.order[n]][i])
  {
    forall n, i | 0 <= n < |w.j.k.order| && w.j.k.order[n] in w.arch && 0 <= i < |w.arch[w.j.k.order[n]]|
      ensures var t := w.j.k.order[n];
              RowImportable(w, n, w.arch[t][i]) <==> Loadable(w, t, w.arch[t][i], Rest(w, n + 1))
    {
      var t := w.j.k.order[n];
      var r := w.arch[t][i];
      ExistingIsReused(w, t, r);
      if !Reused(w, t, r) {
        NewRowLoads(w, n, r);
      }
    }
  }

  /** Why the import of a table fails: a row cannot be loaded, or a constraint refuses one. */
  ghost predicate Failing(w: World, accepts: Constraints, table: string, later: set<string>)
    requires table in w.arch
  {
    forall s {:trigger Unsealed(s, Outer)} :: Unsealed(s, Outer) ==>
      !Accepting(w, accepts) || !AllLoadable(w, table, later)
  }

  // ------------------------------------------------------ one table's progress

  ghost predicate Imported(w: World, st: State, laters: map<string, set<string>>) {
    laters.Keys <= w.arch.Keys && forall s {:trigger Unsealed(s)} :: Unsealed(s) ==>
      SoundWorld(w) && Parts(w, st, laters)
  }

  /** The rows `done` could all be loaded. */
  ghost predicate Loaded(w: World, table: string, done: set<int>, later: set<string>)
    requires table in w.arch
  {
    forall i :: i in done && 0 <= i < |w.arch[table]| ==> Loadable(w, table, w.arch[table][i], later)
  }

  ghost predicate LoadedUpTo(w: World, table: string, n: nat, later: set<string>)
    requires table in w.arch
  {
    forall i :: 0 <= i < n && i < |w.arch[table]| ==> Loadable(w, table, w.arch[table][i], later)
  }

  /** Only the rows of a table without ids have changed, and its ids map to nothing. */
  ghost predicate OnlyPlain(st0: State, st: State, table: string) {
    && st == State(st0.maps[table := map[]], st0.deferred, st0.db.(plain := st.db.plain))
    && forall t :: t != table ==> (t in st.db.plain <==> t in st0.db.plain)
                                  && (t in st.db.plain ==> st.db.plain[t] == st0.db.plain[t])
  }

  lemma OnlyPlainGrows(st0: State, st: State, table: string, rows: seq<Row>)
    requires OnlyPlain(st0, st, table)
    ensures OnlyPlain(st0, st.(db := st.db.(plain := st.db.plain[table := rows])), table)
  {
  }

  /** Table `table` is being imported: its rows `done` are handled, and nothing else has changed since `st0`. */
  ghost predicate Progress(w: World, later: set<string>, st0: State, st: State, table: string, done: set<int>) {
    && table in w.arch && table in w.j.s.hasId && table in later && table in st.maps
    && forall s {:trigger Unsealed(s)} :: Unsealed(s) ==> Progressing(w, later, st0, st, table, done)
  }

  /** The tables before this one are imported. */
  ghost predicate Preceded(w: World, st0: State, table: string, later: set<string>) {
    forall s {:trigger Unsealed(s, Outer)} :: Unsealed(s, Outer) ==>
      exists laters :: Parts(w, st0, laters) && ItsTurn(w, table, later, laters)
  }

  lemma PartsBefore(w: World, st0: State, table: string, later: set<string>) returns (laters: map<string, set<string>>)
    requires Preceded(w, st0, table, later)
    ensures Parts(w, st0, laters) && ItsTurn(w, table, later, laters)
  {
    assert Unsealed(Seal, Outer);
    laters :| Parts(w, st0, laters) && ItsTurn(w, table, later, laters);
  }

  ghost predicate Progressing(w: World, later: set<string>, st0: State, st: State, table: string, done: set<int>) {
    && SoundWorld(w) && table in w.arch && table in w.j.s.hasId && table in later && Known(w, st0.maps, later)
    && Preceded(w, st0, table, later) && SameExcept(st0, st, table) && OldRowsKept(w, st.db) && Consistent(st.db)
    && TableDone(w, st, table, done, later - {table}) && Loaded(w, table, done, later - {table})
  }

  /** The same for a table without ids, whose first n rows are stored. */
  ghost predicate ProgressPlain(w: World, later: set<string>, st0: State, st: State, table: string, n: nat) {
    && table in w.arch && n <= |w.arch[table]| && table !in w.j.s.hasId && table in later
    && forall s {:trigger Unsealed(s, Inner, n)} :: Unsealed(s, Inner, n) ==>
         ProgressingPlain(w, later, st0, st, table, n)
  }

  ghost predicate ProgressingPlain(w: World, later: set<string>, st0: State, st: State, table: string, n: nat) {
    && SoundWorld(w) && table in w.arch && table !in w.j.s.hasId && table in later && n <= |w.arch[table]|
    && Known(w, st0.maps, later)
    && Preceded(w, st0, table, later) && OnlyPlain(st0, st, table)
    && PlainDone(w, st, table, n, later - {table}) && LoadedUpTo(w, table, n, later - {table})
  }

  /** No existing row stands in for this one, and it has a key to find out. */
  predicate Awaits(w: World, table: string, r: Row) {
    !Reused(w, table, r) && (KeyColumn(table).Some? ==> NaturalOf(table, r).Some?)
  }

  predicate Storable(j: Job, table: string, r: Row) {
    Renamed(j.o, table, r).Some? && "id" in r && r["id"].Num? && RefsAreIds(j.k, r)
  }

  predicate StorablePlain(j: Job, table: string, r: Row, later: set<string>) {
    Renamed(j.o, table, r).Some? && RefsAreIds(j.k, r) && Forward(j.k, table, r, later) == {}
  }

  /** What would be stored for a row under the next id. */
  function FreshImage(j: Job, st: State, table: string, r: Row, later: set<string>): Row
    requires table in st.maps && Renamed(j.o, table, r).Some?
  {
    var id := NextId(st.db, table);
    Image(j, Mapped(st, table, IdOf(r), id), table, r, id, Forward(j.k, table, r, later))
  }

  lemma ProgressTable(w: World, later: set<string>, st0: State, st: State, table: string, done: set<int>)
    requires Progress(w, later, st0, st, table, done)
    ensures Sound(w.j.k)
  {
    assert Unsealed(Seal);
  }

  lemma ProgressPlainTable(w: World, later: set<string>, st0: State, st: State, table: string, n: nat)
    requires ProgressPlain(w, later, st0, st, table, n)
    ensures Sound(w.j.k) && KeyColumn(table).None?
  {
    assert Unsealed(Seal) && Unsealed(Seal, Inner, n);
    PlainNotReused(w, table, map[]);
  }

  /** No row is handled yet. */
  lemma TableBegins(w: World, later: set<string>, st: State, table: string, laters: map<string, set<string>>)
    requires Imported(w, st, laters) && ItsTurn(w, table, later, laters)
    ensures var st' := st.(maps := st.maps[table := map[]]);
            if table in w.j.s.hasId then Progress(w, later, st, st', table, Below(0))
            else ProgressPlain(w, later, st, st', table, 0)
  {
    BeforeTable(w, later, st, table, laters);
    assert Unsealed(Seal);
  }

  lemma BeforeTable(w: World, later: set<string>, st: State, table: string, laters: map<string, set<string>>)
    requires Imported(w, st, laters) && ItsTurn(w, table, later, laters)
    ensures SoundWorld(w) && Preceded(w, st, table, later) && Known(w, st.maps, later)
    ensures OldRowsKept(w, st.db) && Consistent(st.db)
    ensures var st' := st.(maps := st.maps[table := map[]]);
            SameExcept(st, st', table) && TableDone(w, st', table, Below(0), later - {table})
            && PlainDone(w, st', table, 0, later - {table})
  {
    assert Unsealed(Seal);
    PartsKnown(w, st, laters, later);
    TableStarts(w, st, laters, table, later - {table});
  }

  /** A table whose rows are all handled joins the imported ones. */
  lemma TableFinishes(w: World, later: set<string>, st0: State, st: State, table: string,
                      laters: map<string, set<string>>)
    requires table in w.arch && Progress(w, later, st0, st, table, Below(|w.arch[table]|))
    requires Imported(w, st0, laters) && table !in laters && forall t :: t in laters ==> table in laters[t]
    ensures Imported(w, st, laters[table := later - {table}]) && AllLoadable(w, table, later - {table})
  {
    assert Unsealed(Seal);
    TableEnds(w, st0, st, laters, table, later - {table});
  }

  lemma PlainFinishes(w: World, later: set<string>, st0: State, st: State, table: string,
                      laters: map<string, set<string>>)
    requires table in w.arch && ProgressPlain(w, later, st0, st, table, |w.arch[table]|)
    requires Imported(w, st0, laters) && table !in laters && forall t :: t in laters ==> table in laters[t]
    ensures Imported(w, st, laters[table := later - {table}]) && AllLoadable(w, table, later - {table})
  {
    assert Unsealed(Seal) && Unsealed(Seal, Inner, |w.arch[table]|);
    PlainEnds(w, later, st0, st, table);
    TableEnds(w, st0, st, laters, table, later - {table});
  }

  /** One more row is handled. */
  lemma ProgressGrows(w: World, later: set<string>, st0: State, st: State, st': State, table: string, done: set<int>,
                      i: int)
    requires Progress(w, later, st0, st, table, done) && 0 <= i < |w.arch[table]|
             && Loadable(w, table, w.arch[table][i], later - {table})
    requires SameExcept(st, st', table) && OldRowsKept(w, st'.db) && Consistent(st'.db)
             && TableDone(w, st', table, done + {i}, later - {table})
    ensures Progress(w, later, st0, st', table, done + {i})
  {
    assert Unsealed(Seal);
    SameExceptTrans(st0, st, st', table);
    LoadedGrows(w, table, done, i, later - {table});
  }

  lemma LoadedGrows(w: World, table: string, done: set<int>, i: int, later: set<string>)
    requires table in w.arch && Loaded(w, table, done, later) && 0 <= i < |w.arch[table]|
    requires Loadable(w, table, w.arch[table][i], later)
    ensures Loaded(w, table, done + {i}, later)
  {
  }

  lemma ProgressFacts(w: World, later: set<string>, st0: State, st: State, table: string, done: set<int>)
    requires Progress(w, later, st0, st, table, done)
    ensures SoundWorld(w) && OldRowsKept(w, st.db) && Consistent(st.db)
            && TableDone(w, st, table, done, later - {table})
    ensures SameExcept(st0, st, table) && Preceded(w, st0, table, later)
  {
    assert Unsealed(Seal);
  }

  /** A row whose natural key exists is mapped; one whose key does not is left. */
  lemma ReuseStep(w: World, later: set<string>, st0: State, st: State, table: string, done: set<int>, i: int,
                  n: Natural)
    requires Progress(w, later, st0, st, table, done) && 0 <= i < |w.arch[table]| && i !in done
    requires NaturalOf(table, w.arch[table][i]) == Some(n)
    ensures n in st.db.natural <==> Reused(w, table, w.arch[table][i])
    ensures n in st.db.natural ==>
              Progress(w, later, st0, st.(maps := Mapped(st, table, IdOf(w.arch[table][i]), st.db.natural[n])), table,
                       done + {i})
  {
    ProgressFacts(w, later, st0, st, table, done);
    NaturalIsNew(w, st, table, done, later - {table}, i);
    if n in st.db.natural {
      var st' := ReuseRow(w, st, table, done, later - {table}, i);
      ProgressGrows(w, later, st0, st, st', table, done, i);
    }
  }

  /** What the id maps say of a row's earlier references is what the archive says. */
  lemma RefsKnown(w: World, later: set<string>, st0: State, st: State, table: string, r: Row)
    requires SameExcept(st0, st, table) && Known(w, st0.maps, later) && SoundRefs(w.j, table, r)
    ensures forall c :: c in r && c in w.j.k.refs && r[c].Num? && w.j.k.refs[c] !in later - {table} ==>
              (Resolve(st.maps, w.j.k.refs[c], r[c].n) != Null <==> Archived(w, w.j.k.refs[c], r[c].n))
  {
    forall c | c in r && c in w.j.k.refs && r[c].Num? && w.j.k.refs[c] !in later - {table}
      ensures Resolve(st.maps, w.j.k.refs[c], r[c].n) != Null <==> Archived(w, w.j.k.refs[c], r[c].n)
    {
      ResolveFrame(st0, st, table, w.j.k.refs[c], r[c].n);
    }
  }

  /** A row can be stored exactly when it can be loaded. */
  lemma FreshExactly(w: World, later: set<string>, st0: State, st: State, table: string, done: set<int>, i: int)
    requires Progress(w, later, st0, st, table, done) && 0 <= i < |w.arch[table]| && Awaits(w, table, w.arch[table][i])
    requires Renamed(w.j.o, table, w.arch[table][i]).Some? ==> KnownColumns(w.j, table, w.arch[table][i])
    ensures var r := w.arch[table][i];
            Loadable(w, table, r, later - {table}) <==>
              Storable(w.j, table, r) && Complete(w.j.s, table, FreshImage(w.j, st, table, r, later - {table}))
  {
    var r := w.arch[table][i];
    assert Unsealed(Seal);
    if Storable(w.j, table, r) {
      var id := NextId(st.db, table);
      var maps := Mapped(st, table, IdOf(r), id);
      assert SoundTable(w.j, table, w.arch[table]);
      MappedSame(st0, st, table, IdOf(r), id);
      RefsKnown(w, later, st0, st.(maps := maps), table, r);
      FilledExactly(w, maps, table, r, id, later - {table});
    }
  }

  lemma MappedSame(st0: State, st: State, table: string, was: int, id: int)
    requires SameExcept(st0, st, table) && table in st.maps
    ensures SameExcept(st0, st.(maps := Mapped(st, table, was, id)), table)
  {
  }

  /** One more row is stored, or it could not be loaded. */
  lemma StoreStep(w: World, later: set<string>, st0: State, st: State, table: string, done: set<int>, i: int,
                  ds: seq<DeferredRef>, stored: bool)
    requires Progress(w, later, st0, st, table, done) && 0 <= i < |w.arch[table]| && i !in done
             && Awaits(w, table, w.arch[table][i])
    requires Renamed(w.j.o, table, w.arch[table][i]).Some? ==> KnownColumns(w.j, table, w.arch[table][i])
    requires stored ==> Storable(w.j, table, w.arch[table][i])
    requires stored ==> Complete(w.j.s, table, FreshImage(w.j, st, table, w.arch[table][i], later - {table}))
    requires stored ==> DefersExactly(w.j.k, table, w.arch[table][i], NextId(st.db, table), later - {table}, ds)
    ensures stored ==> Progress(w, later, st0, Added(w.j, st, table, w.arch[table][i], later - {table}, ds), table,
                                done + {i})
    ensures !stored && !(Storable(w.j, table, w.arch[table][i])
                         && Complete(w.j.s, table, FreshImage(w.j, st, table, w.arch[table][i], later - {table}))) ==>
              !AllLoadable(w, table, later - {table})
  {
    var r := w.arch[table][i];
    FreshExactly(w, later, st0, st, table, done, i);
    if stored {
      ProgressFacts(w, later, st0, st, table, done);
      AddRow(w, st, table, done, later - {table}, i, ds);
      ProgressGrows(w, later, st0, st, Added(w.j, st, table, r, later - {table}, ds), table, done, i);
    }
  }

  /** The database in the middle of a table. */
  lemma ProgressDuring(w: World, later: set<string>, st0: State, st: State, table: string, done: set<int>, i: nat)
    requires Progress(w, later, st0, st, table, done) && Frontier(w, table, done, i)
    ensures During(w, st.maps, st.db, Inserting(table, i)) && later - {table} == After(w, table)
  {
    ProgressFacts(w, later, st0, st, table, done);
    var laters := PartsBefore(w, st0, table, later);
    TableUpTo(w, st, table, done, later - {table}, i);
    IdsDuring(w, st0, st, laters, table, done, i);
  }

  lemma IdsDuring(w: World, st0: State, st: State, laters: map<string, set<string>>, table: string, done: set<int>,
                  i: nat)
    requires SoundWorld(w) && Parts(w, st0, laters) && ItsTurn(w, table, w.arch.Keys - laters.Keys, laters)
    requires SameExcept(st0, st, table) && OldRowsKept(w, st.db) && Consistent(st.db) && table in w.j.s.hasId
    requires TableDone(w, st, table, done, After(w, table)) && UpTo(w, st.maps, st.db, table, i)
    ensures During(w, st.maps, st.db, Inserting(table, i))
  {
    assert Partly(w, st, table);
    TableDuring(w, st0, st, laters, table, i);
  }

  lemma PlainDuring(w: World, later: set<string>, st0: State, st: State, table: string, n: nat)
    requires ProgressPlain(w, later, st0, st, table, n)
    ensures During(w, st.maps, st.db, Inserting(table, n)) && table in st.maps && later - {table} == After(w, table)
  {
    PlainFacts(w, later, st0, st, table, n);
    var laters := PartsBefore(w, st0, table, later);
    PlainFrame(w, st0, st, table, st.db.plain);
    TableDuring(w, st0, st, laters, table, n);
  }

  lemma PlainFacts(w: World, later: set<string>, st0: State, st: State, table: string, n: nat)
    requires ProgressPlain(w, later, st0, st, table, n)
    ensures SoundWorld(w) && Preceded(w, st0, table, later) && OnlyPlain(st0, st, table)
    ensures table in st.maps && UpTo(w, st.maps, st.db, table, n)
  {
    assert Unsealed(Seal) && Unsealed(Seal, Inner, n);
  }

  /** A constraint refused the row that was about to be inserted. */
  lemma RowRefused(w: World, accepts: Constraints, later: set<string>, st0: State, st: State, table: string,
                   done: set<int>, i: int)
    requires Progress(w, later, st0, st, table, done) && 0 <= i < |w.arch[table]| && i !in done
    requires Frontier(w, table, done, i)
    requires Awaits(w, table, w.arch[table][i]) && Renamed(w.j.o, table, w.arch[table][i]).Some?
    requires !accepts(st.db, table, FreshImage(w.j, st, table, w.arch[table][i], later - {table}))
    ensures !Accepting(w, accepts)
  {
    ProgressDuring(w, later, st0, st, table, done, i);
    ProgressFacts(w, later, st0, st, table, done);
    assert SoundTable(w.j, table, w.arch[table]);
    NotMappedYet(w, st, table, done, later - {table}, i);
    FreshArises(w, st, table, i);
  }

  lemma PlainRefused(w: World, accepts: Constraints, later: set<string>, st0: State, st: State, table: string, n: nat,
                     row: Row)
    requires ProgressPlain(w, later, st0, st, table, n) && n < |w.arch[table]|
             && Renamed(w.j.o, table, w.arch[table][n]).Some?
    requires row == Image(w.j, st.maps, table, w.arch[table][n], 0, {}) && !accepts(st.db, table, row)
    requires Forward(w.j.k, table, w.arch[table][n], later - {table}) == {}
    ensures !Accepting(w, accepts)
  {
    PlainDuring(w, later, st0, st, table, n);
    PlainApart(w, later, st0, st, table, n, w.arch[table][n]);
    var x := Write(st.maps, st.db, table, n, 0, {});
    assert Arises(w, x) && Written(w, x) == row;
  }

  /** The state with one more row of a table without ids. */
  function PlainAdded(st: State, table: string, row: Row): State {
    st.(db := st.db.(plain := st.db.plain[table := PlainRows(st.db, table) + [row]]))
  }

  /** A row of a table without ids can be stored exactly when it can be loaded, and then the table makes progress. */
  lemma PlainStep(w: World, later: set<string>, st0: State, st: State, table: string, n: nat)
    requires ProgressPlain(w, later, st0, st, table, n) && n < |w.arch[table]|
    requires Renamed(w.j.o, table, w.arch[table][n]).Some? ==> KnownColumns(w.j, table, w.arch[table][n])
    ensures var r := w.arch[table][n];
            if !StorablePlain(w.j, table, r, later - {table}) then !AllLoadable(w, table, later - {table})
            else
              var row := Image(w.j, st.maps, table, r, 0, {});
              if Complete(w.j.s, table, row) then
                ProgressPlain(w, later, st0, PlainAdded(st, table, row), table, n + 1)
              else !AllLoadable(w, table, later - {table})
  {
    PlainLoadable(w, later, st0, st, table, n);
    if !Loadable(w, table, w.arch[table][n], later - {table}) {
      NotLoadable(w, table, n, later - {table});
    } else {
      PlainGrows(w, later, st0, st, table, n, Image(w.j, st.maps, table, w.arch[table][n], 0, {}));
    }
  }

  lemma PlainLoadable(w: World, later: set<string>, st0: State, st: State, table: string, n: nat)
    requires ProgressPlain(w, later, st0, st, table, n) && n < |w.arch[table]|
    requires Renamed(w.j.o, table, w.arch[table][n]).Some? ==> KnownColumns(w.j, table, w.arch[table][n])
    ensures var r := w.arch[table][n];
            Loadable(w, table, r, later - {table}) <==>
              StorablePlain(w.j, table, r, later - {table})
              && Complete(w.j.s, table, Image(w.j, st.maps, table, r, 0, {}))
  {
    var r := w.arch[table][n];
    PlainApart(w, later, st0, st, table, n, r);
    if StorablePlain(w.j, table, r, later - {table}) {
      PlainExactly(w, later, st0, st, table, n);
    }
  }

  /** No existing row stands in for one without an id. */
  lemma PlainApart(w: World, later: set<string>, st0: State, st: State, table: string, n: nat, r: Row)
    requires ProgressPlain(w, later, st0, st, table, n)
    ensures !Reused(w, table, r) && KeyColumn(table).None?
  {
    assert Unsealed(Seal) && Unsealed(Seal, Inner, n);
    PlainNotReused(w, table, r);
  }

  lemma PlainGrows(w: World, later: set<string>, st0: State, st: State, table: string, n: nat, row: Row)
    requires ProgressPlain(w, later, st0, st, table, n) && n < |w.arch[table]|
    requires StorablePlain(w.j, table, w.arch[table][n], later - {table})
             && row == Image(w.j, st.maps, table, w.arch[table][n], 0, {})
    requires Loadable(w, table, w.arch[table][n], later - {table})
    ensures ProgressPlain(w, later, st0, PlainAdded(st, table, row), table, n + 1)
  {
    assert Unsealed(Seal) && Unsealed(Seal, Inner, n);
    var st' := PlainAdded(st, table, row);
    PlainNext(w, st, st', table, n, later - {table}, w.arch[table][n], row);
    OnlyPlainGrows(st0, st, table, PlainRows(st.db, table) + [row]);
    assert LoadedUpTo(w, table, n + 1, later - {table});
  }

  lemma PlainExactly(w: World, later: set<string>, st0: State, st: State, table: string, n: nat)
    requires ProgressPlain(w, later, st0, st, table, n) && n < |w.arch[table]|
    requires StorablePlain(w.j, table, w.arch[table][n], later - {table})
    ensures Complete(w.j.s, table, Image(w.j, st.maps, table, w.arch[table][n], 0, {})) <==>
              Filled(w, table, w.arch[table][n], later - {table})
  {
    var r := w.arch[table][n];
    assert Unsealed(Seal) && Unsealed(Seal, Inner, n);
    assert SoundTable(w.j, table, w.arch[table]);
    PlainFrame(w, st0, st, table, st.db.plain);
    RefsKnown(w, later, st0, st, table, r);
    FilledExactly(w, st.maps, table, r, 0, later - {table});
  }

  /** A whole table without ids is stored. */
  lemma PlainEnds(w: World, later: set<string>, st0: State, st: State, table: string)
    requires table in w.arch && ProgressPlain(w, later, st0, st, table, |w.arch[table]|) && OldRowsKept(w, st0.db)
             && Consistent(st0.db)
    ensures SoundWorld(w) && SameExcept(st0, st, table) && OldRowsKept(w, st.db) && Consistent(st.db)
    ensures st.deferred == st0.deferred && st.db.byId == st0.db.byId && table in st.maps && st.maps[table] == map[]
    ensures st.db.natural == st0.db.natural
    ensures Part(w, st, table, later - {table}) && AllLoadable(w, table, later - {table})
  {
    assert Unsealed(Seal) && Unsealed(Seal, Inner, |w.arch[table]|);
    PlainFrame(w, st0, st, table, st.db.plain);
  }

  lemma ImportBegins(w: World)
    requires SoundWorld(w)
    ensures Imported(w, State(map[], [], w.db0), map[])
  {
    PartsInit(w);
  }

  lemma BeforePatches(w: World, st: State, laters: map<string, set<string>>)
    requires Imported(w, st, laters)
    ensures KeptByPatches(st, StaysPatched(w, st, laters)) && StaysPatched(w, st, laters)({}, st.db.byId)
  {
    assert Unsealed(Seal);
    PatchedInit(w, st, laters);
    PatchSteps(w, st, laters);
  }

  lemma AfterPatches(w: World, st: State, laters: map<string, set<string>>, byId: map<Key, Row>)
    requires Imported(w, st, laters) && laters.Keys == w.arch.Keys
             && StaysPatched(w, st, laters)(All(st.deferred), byId)
    ensures IsCopy(w, st.maps, st.db.(byId := byId))
  {
    assert Unsealed(Seal);
    Finished(w, st, laters, byId);
  }

  /** A constraint refuses the row that writing a deferred reference makes. */
  ghost predicate RefusedAt(st: State, accepts: Constraints, holds: (set<DeferredRef>, map<Key, Row>) -> bool,
                            d: DeferredRef,
                            written: set<DeferredRef>, byId: map<Key, Row>) {
    && d in st.deferred && holds(written, byId) && Key(d.table, d.id) in byId
    && !accepts(st.db.(byId := byId), d.table, PatchOne(st, d, byId)[Key(d.table, d.id)])
  }

  ghost predicate PatchRefused(st: State, accepts: Constraints, holds: (set<DeferredRef>, map<Key, Row>) -> bool) {
    exists d, written, byId :: RefusedAt(st, accepts, holds, d, written, byId)
  }

  lemma PatchRefusal(w: World, accepts: Constraints, st: State, laters: map<string, set<string>>)
    requires Imported(w, st, laters) && PatchRefused(st, accepts, StaysPatched(w, st, laters))
    requires laters.Keys == w.arch.Keys && InOrder(w, laters)
    ensures !Accepting(w, accepts)
  {
    assert Unsealed(Seal);
    var d, written, byId :| RefusedAt(st, accepts, StaysPatched(w, st, laters), d, written, byId);
    var x := PatchArises(w, st, laters, written, byId, d);
    assert !accepts(x.db, x.table, Written(w, x));
  }

  /** Preparing a row changes none of its references. */
  lemma PreparedSame(j: Job, table: string, r: Row, id: int, later: set<string>)
    requires Sound(j.k) && Renamed(j.o, table, r).Some?
    ensures Forward(j.k, table, Prepared(j, table, r, id), later) == Forward(j.k, table, r, later - {table})
    ensures RefsAreIds(j.k, Prepared(j, table, r, id)) <==> RefsAreIds(j.k, r)
  {
    ForwardPrepared(j, table, r, id, later);
    ForwardSelf(j.k, table, r, later);
    forall c | c in j.k.refs
      ensures var q := Prepared(j, table, r, id); (c in q <==> c in r) && (c in r ==> q[c] == r[c])
    {
      RefsKept(j, table, r, id, c);
    }
  }

  lemma RestStart(w: World)
    requires KnownTables(w.j.k.order, w.arch)
    ensures Rest(w, 0) == w.arch.Keys
  {
  }

  /** It is the turn of the i-th table; the earlier ones remember what came after them. */
  ghost predicate Turn(w: World, i: nat, later: set<string>, laters: map<string, set<string>>) {
    forall s {:trigger Unsealed(s)} :: Unsealed(s) ==> TurnOf(w, i, later, laters)
  }

  ghost predicate TurnOf(w: World, i: nat, later: set<string>, laters: map<string, set<string>>) {
    && i <= |w.j.k.order| && later == Rest(w, i) && laters.Keys == w.arch.Keys - later
    && (forall t :: t in laters ==> later <= laters[t]) && InOrder(w, laters) && WellFormedUpTo(w, i)
  }

  lemma FirstTurn(w: World)
    requires KnownTables(w.j.k.order, w.arch)
    ensures Turn(w, 0, w.arch.Keys, map[])
  {
    RestStart(w);
  }

  lemma TurnNow(w: World, i: nat, later: set<string>, laters: map<string, set<string>>)
    requires KnownTables(w.j.k.order, w.arch) && i < |w.j.k.order| && Turn(w, i, later, laters)
             && w.j.k.order[i] in later
    ensures var t := w.j.k.order[i];
            && ItsTurn(w, t, later, laters) && t !in laters && (WellFormed(w) ==> AllLoadable(w, t, later - {t}))
  {
    assert Unsealed(Seal);
    RestNext(w, i);
    AfterIs(w, i);
  }

  /** The tables after the i-th, said in both ways. */
  lemma AfterIs(w: World, i: nat)
    requires KnownTables(w.j.k.order, w.arch) && i < |w.j.k.order|
    ensures After(w, w.j.k.order[i]) == Rest(w, i + 1)
  {
    var order := w.j.k.order;
    forall u | u in w.arch
      ensures Follows(order, order[i], u) <==> u in order[i + 1..]
    {
      if u in order[i + 1..] {
        var j :| 0 <= j < |order[i + 1..]| && order[i + 1..][j] == u;
        assert order[i + 1 + j] == u;
      }
      if Follows(order, order[i], u) {
        var m, n :| 0 <= m < n < |order| && order[m] == order[i] && order[n] == u;
        assert order[i + 1..][n - i - 1] == u;
      }
    }
  }

  lemma TurnFails(w: World, accepts: Constraints, t: string, later: set<string>)
    requires t in w.arch && Failing(w, accepts, t, later) && (WellFormed(w) ==> AllLoadable(w, t, later))
    ensures !Accepting(w, accepts) || !WellFormed(w)
  {
    assert Unsealed(Seal, Outer);
  }

  lemma TurnNext(w: World, i: nat, later: set<string>, laters: map<string, set<string>>)
    requires KnownTables(w.j.k.order, w.arch) && Turn(w, i, later, laters) && i < |w.j.k.order|
    ensures var t := w.j.k.order[i];
            if t !in later then Turn(w, i + 1, later, laters)
            else t in w.arch && (AllLoadable(w, t, later - {t}) ==>
                                   Turn(w, i + 1, later - {t}, laters[t := later - {t}]))
  {
    AfterIs(w, i);
    RestNext(w, i);
    assert Unsealed(Seal);
    if w.j.k.order[i] in later && AllLoadable(w, w.j.k.order[i], later - {w.j.k.order[i]}) {
      TurnTaken(w, i, later, laters);
    }
  }

  lemma TurnTaken(w: World, i: nat, later: set<string>, laters: map<string, set<string>>)
    requires i < |w.j.k.order| && TurnOf(w, i, later, laters) && w.j.k.order[i] in later
    requires Rest(w, i) - {w.j.k.order[i]} == Rest(w, i + 1) == After(w, w.j.k.order[i])
    requires AllLoadable(w, w.j.k.order[i], Rest(w, i + 1))
    ensures var t := w.j.k.order[i]; TurnOf(w, i + 1, later - {t}, laters[t := later - {t}])
  {
    assert WellFormedUpTo(w, i + 1);
  }

  lemma TurnsOver(w: World, later: set<string>, laters: map<string, set<string>>)
    requires KnownTables(w.j.k.order, w.arch) && Turn(w, |w.j.k.order|, later, laters)
    ensures laters.Keys == w.arch.Keys && InOrder(w, laters) && WellFormed(w)
  {
    assert Unsealed(Seal);
    assert later == {};
  }

  lemma RestNext(w: World, i: nat)
    requires KnownTables(w.j.k.order, w.arch) && i < |w.j.k.order|
    ensures Rest(w, i) - {w.j.k.order[i]} == Rest(w, i + 1)
    ensures w.j.k.order[i] in Rest(w, i) <==> w.j.k.order[i] in w.arch
  {
    var order := w.j.k.order;
    assert order[i..] == [order[i]] + order[i + 1..];
    assert order[i] !in order[i + 1..];
  }

  lemma PlainNotReused(w: World, table: string, r: Row)
    requires SoundWorld(w) && table in w.arch && table !in w.j.s.hasId
    ensures !Reused(w, table, r) && KeyColumn(table).None?
  {
    assert SoundTable(w.j, table, w.arch[table]);
  }

  lemma NothingDeferred(k: Catalog, table: string, q: Row, id: int, later: set<string>, ds: seq<DeferredRef>)
    requires DefersExactly(k, table, q, id, later, ds) && Forward(k, table, q, later) == {}
    ensures ds == []
  {
    HeadIn(ds);
  }

  /** The columns inserted are those of the image. */
  lemma StoredImage(j: Job, maps: IdMaps, table: string, r: Row, id: int, open: set<string>, stored: Row)
    requires Renamed(j.o, table, r).Some?
    requires var q' := Rewritten(j.k, maps, Prepared(j, table, r, id), open);
             stored == map c | c in Names(j, table, r, id) :: if c in q' then q'[c] else Null
    ensures stored == Image(j, maps, table, r, id, open)
  {
  }

  lemma PlainFrame(w: World, st: State, st': State, table: string, plain: map<string, seq<Row>>)
    requires st' == State(st.maps[table := map[]], st.deferred, st.db.(plain := plain))
    requires forall t :: t != table ==>
               (t in plain <==> t in st.db.plain) && (t in plain ==> plain[t] == st.db.plain[t])
    ensures SameExcept(st, st', table)
    ensures OldRowsKept(w, st.db) ==> OldRowsKept(w, st'.db)
    ensures Consistent(st.db) ==> Consistent(st'.db)
  {
  }

  /** One more row of a table without ids. */
  lemma PlainNext(w: World, st: State, st': State, table: string, n: nat, later: set<string>, r: Row, stored: Row)
    requires table in w.arch && n < |w.arch[table]| && r == w.arch[table][n] && PlainDone(w, st, table, n, later)
    requires st' == st.(db := st.db.(plain := st.db.plain[table := PlainRows(st.db, table) + [stored]]))
    requires Renamed(w.j.o, table, r).Some? && Forward(w.j.k, table, r, later) == {}
    requires stored == Image(w.j, st.maps, table, r, 0, {})
    ensures PlainDone(w, st', table, n + 1, later)
  {
  }

  lemma NotLoadable(w: World, table: string, i: int, later: set<string>)
    requires table in w.arch && 0 <= i < |w.arch[table]| && !Loadable(w, table, w.arch[table][i], later)
    ensures !AllLoadable(w, table, later)
  {
  }

  lemma PendingNone(w: World, table: string, top: nat, kept: seq<Row>, idx: seq<int>, done: set<int>)
    requires Pending(w, table, top, kept, idx, done) && |kept| == 0
    ensures done == Below(top)
  {
  }

  lemma PendingTop(w: World, table: string, top: nat, kept: seq<Row>, idx: seq<int>, done: set<int>)
    requires Pending(w, table, top, kept, idx, done)
    ensures top !in done
  {
  }

  lemma SliceAt(batch: seq<Row>, rows: seq<Row>, base: nat, end: nat, i: nat, top: nat)
    requires base <= end <= |rows| && batch == rows[base..end] && top == base + i < end
    ensures batch[i] == rows[top]
  {
  }

  lemma PendingHead(w: World, table: string, top: nat, kept: seq<Row>, idx: seq<int>, done: set<int>)
    requires Pending(w, table, top, kept, idx, done) && |kept| > 0
    ensures 0 <= idx[0] < |w.arch[table]| && idx[0] !in done && kept[0] == w.arch[table][idx[0]]
            && Awaits(w, table, kept[0]) && Frontier(w, table, done, idx[0])
  {
    assert forall k :: 0 <= k < idx[0] ==> k !in idx;
  }

  /** The kept rows, with their indices, are what is left to do of the first `top` rows. */
  ghost predicate Pending(w: World, table: string, top: nat, kept: seq<Row>, idx: seq<int>, done: set<int>) {
    && table in w.arch && top <= |w.arch[table]| && |kept| == |idx|
    && (forall m :: 0 <= m < |idx| ==>
          0 <= idx[m] < top && kept[m] == w.arch[table][idx[m]] && Awaits(w, table, kept[m]))
    && (forall m, n :: 0 <= m < n < |idx| ==> idx[m] < idx[n])
    && (forall x :: x in done <==> 0 <= x < top && x !in idx)
    && (forall x :: x in done && |idx| > 0 && idx[0] < x < |w.arch[table]| ==> Reused(w, table, w.arch[table][x]))
  }

  lemma PendingStart(w: World, table: string, base: nat)
    requires table in w.arch && base <= |w.arch[table]|
    ensures Pending(w, table, base, [], [], Below(base))
  {
  }

  lemma PendingSkip(w: World, table: string, top: nat, kept: seq<Row>, idx: seq<int>, done: set<int>)
    requires Pending(w, table, top, kept, idx, done) && top < |w.arch[table]| && Reused(w, table, w.arch[table][top])
    ensures Pending(w, table, top + 1, kept, idx, done + {top})
  {
    assert top !in idx;
  }

  lemma PendingKeep(w: World, table: string, top: nat, kept: seq<Row>, idx: seq<int>, done: set<int>, r: Row)
    requires Pending(w, table, top, kept, idx, done) && top < |w.arch[table]|
    requires r == w.arch[table][top] && Awaits(w, table, r)
    ensures Pending(w, table, top + 1, kept + [r], idx + [top], done)
  {
  }

  /** A table whose rows are never reused has all of a batch pending. */
  lemma PendingAll(w: World, table: string, base: nat, top: nat, batch: seq<Row>) returns (idx: seq<int>)
    requires table in w.arch && top == base + |batch| <= |w.arch[table]| && batch == w.arch[table][base..top]
             && KeyColumn(table).None?
    ensures Pending(w, table, top, batch, idx, Below(base))
  {
    idx := seq(|batch|, i => base + i);
    assert forall x :: x in idx <==> base <= x < base + |batch| by {
      forall x | base <= x < base + |batch|
        ensures x in idx
      {
        assert idx[x - base] == x;
      }
    }
  }

  lemma PendingNext(w: World, table: string, top: nat, kept: seq<Row>, idx: seq<int>, done: set<int>)
    requires Pending(w, table, top, kept, idx, done) && |idx| > 0
    ensures Pending(w, table, top, kept[1..], idx[1..], done + {idx[0]})
  {
    assert idx == [idx[0]] + idx[1..];
    forall x
      ensures x in done + {idx[0]} <==> 0 <= x < top && x !in idx[1..]
    {
      assert x in idx <==> x == idx[0] || x in idx[1..];
    }
  }

  lemma SameColumnsAt(w: World, table: string, r: Row, i: nat, r': Row, i': nat, id: int)
    requires SoundWorld(w) && table in w.arch && i < |w.arch[table]| && i' < |w.arch[table]|
    requires r == w.arch[table][i] && r' == w.arch[table][i'] && KnownColumns(w.j, table, r)
    ensures Renamed(w.j.o, table, r').Some? ==>
              KnownColumns(w.j, table, r') && Names(w.j, table, r, 0) == Names(w.j, table, r', id)
  {
    assert SoundTable(w.j, table, w.arch[table]);
    if Renamed(w.j.o, table, r').Some? {
      SameNames(w.j, table, r, 0, r', id);
    }
  }

  /** The rows of a table all have the same columns. */
  lemma SameColumns(w: World, later: set<string>, st0: State, st: State, table: string, done': set<int>,
                    kept: seq<Row>, idx: seq<int>, top: nat, done: set<int>, i: nat, id: int)
    requires Progress(w, later, st0, st, table, done') && Pending(w, table, top, kept, idx, done) && i < |kept|
             && KnownColumns(w.j, table, kept[0])
    ensures Renamed(w.j.o, table, kept[i]).Some? ==>
              KnownColumns(w.j, table, kept[i]) && Names(w.j, table, kept[0], 0) == Names(w.j, table, kept[i], id)
  {
    assert Unsealed(Seal);
    SameColumnsAt(w, table, kept[0], idx[0], kept[i], idx[i], id);
  }

  /** A batch of rows with the columns of its first, all known. */
  ghost predicate Batched(w: World, table: string, batch: seq<Row>, names: set<string>, base: nat, top: nat) {
    && table in w.arch && top == base + |batch| <= |w.arch[table]|
    && forall s {:trigger Unsealed(s, Outer)} :: Unsealed(s, Outer) ==>
         && batch == w.arch[table][base..top] && |batch| > 0 && KnownColumns(w.j, table, batch[0])
         && names == Names(w.j, table, batch[0], 0)
  }

  lemma BatchRow(w: World, later: set<string>, st0: State, st: State, table: string, batch: seq<Row>,
                 names: set<string>,
                 base: nat, top: nat, i: nat, n: nat)
    requires ProgressPlain(w, later, st0, st, table, n) && Batched(w, table, batch, names, base, top)
             && n == base + i < top
    ensures batch[i] == w.arch[table][n]
    ensures Renamed(w.j.o, table, batch[i]).Some? ==>
              KnownColumns(w.j, table, batch[i]) && names == Names(w.j, table, batch[i], 0)
  {
    assert Unsealed(Seal, Inner, n) && Unsealed(Seal, Outer);
    SliceAt(batch, w.arch[table], base, top, 0, base);
    SliceAt(batch, w.arch[table], base, top, i, n);
    SameColumnsAt(w, table, batch[0], base, batch[i], n, 0);
  }

  lemma DefersSame(j: Job, table: string, r: Row, id: int, later: set<string>, ds: seq<DeferredRef>)
    requires Sound(j.k) && Renamed(j.o, table, r).Some?
    requires DefersExactly(j.k, table, Prepared(j, table, r, id), id, later, ds)
    ensures DefersExactly(j.k, table, r, id, later - {table}, ds)
  {
    ForwardPrepared(j, table, r, id, later);
    ForwardSelf(j.k, table, r, later);
    forall c | c in Forward(j.k, table, r, later)
      ensures Entry(j.k, table, r, c, id) == Entry(j.k, table, Prepared(j, table, r, id), c, id)
    {
      RefsKept(j, table, r, id, c);
    }
  }
}
