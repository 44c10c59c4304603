/**
 Once every table is imported the deferred references are written, and the result is
 a copy of the archive: ids renamed injectively, every reference at the image of its
 target, and nothing else touched.
 */
module ImportResult {
  import opened Common
  import opened ImportModel
  import opened ImportState

  /** The indices below n. */
  function Below(n: nat): (s: set<int>)
    ensures forall i :: i in s <==> 0 <= i < n
  {
    if n == 0 then {} else Below(n - 1) + {n - 1}
  }

  function AllRows(rows: seq<Row>): set<int> { Below(|rows|) }

  function PlainRows(db: Db, table: string): seq<Row> { if table in db.plain then db.plain[table] else [] }

  /** What holds of a table without ids once its first n rows are stored: none of them waits for a later table. */
  ghost predicate PlainDone(w: World, st: State, table: string, n: nat, later: set<string>)
    requires table in w.arch && n <= |w.arch[table]|
  {
    var rows, stored, base := w.arch[table], PlainRows(st.db, table), PlainRows(w.db0, table);
    && |stored| == |base| + n && stored[..|base|] == base
    && forall i :: 0 <= i < n ==>
         && Renamed(w.j.o, table, rows[i]).Some? && Forward(w.j.k, table, rows[i], later) == {}
         && stored[|base| + i] == Image(w.j, st.maps, table, rows[i], 0, {})
  }

  /** A whole table has been imported. */
  ghost predicate Part(w: World, st: State, table: string, later: set<string>)
    requires table in w.arch
  {
    if table in w.j.s.hasId then TableDone(w, st, table, AllRows(w.arch[table]), later)
    else PlainDone(w, st, table, |w.arch[table]|, later)
  }

  /** The tables in `laters` are imported; each remembers the tables that came after it. */
  ghost predicate Parts(w: World, st: State, laters: map<string, set<string>>) {
    && laters.Keys <= w.arch.Keys && st.maps.Keys == laters.Keys
    && (forall t :: t in laters ==> Part(w, st, t, laters[t]) && (t !in w.j.s.hasId ==> st.maps[t] == map[]))
    && OnlyParts(w, st, laters) && OldRowsKept(w, st.db) && Consistent(st.db)
  }

  /** Nothing outside these tables has changed. */
  ghost predicate OnlyParts(w: World, st: State, laters: map<string, set<string>>) {
    && (forall d :: d in st.deferred ==> d.table in laters && d.table in w.j.s.hasId)
    && (forall key :: key in st.db.byId && key !in w.db0.byId ==> key.table in laters && key.table in w.j.s.hasId)
    && (forall n :: n in st.db.natural && n !in w.db0.natural ==> n.table in laters && n.table in w.j.s.hasId)
    && (forall t :: t !in laters ==> PlainRows(st.db, t) == PlainRows(w.db0, t))
  }

  /** Nothing is imported yet. */
  lemma PartsInit(w: World)
    requires SoundWorld(w)
    ensures Parts(w, State(map[], [], w.db0), map[])
  {
  }

  /** No row of the next table is handled yet. */
  lemma TableStarts(w: World, st: State, laters: map<string, set<string>>, table: string, later: set<string>)
    requires Parts(w, st, laters) && table in w.arch && table !in laters
    ensures var st' := st.(maps := st.maps[table := map[]]);
            SameExcept(st, st', table) && TableDone(w, st', table, Below(0), later)
            && PlainDone(w, st', table, 0, later)
  {
    var st' := st.(maps := st.maps[table := map[]]);
    assert MapDone(w, st', table, Below(0));
  }

  /** One more table is imported. */
  lemma TableEnds(w: World, st: State, st': State, laters: map<string, set<string>>, table: string, later: set<string>)
    requires SoundWorld(w) && Parts(w, st, laters) && table in w.arch && table !in laters
    requires forall t :: t in laters ==> table in laters[t]
    requires SameExcept(st, st', table) && table in st'.maps && Part(w, st', table, later) && OldRowsKept(w, st'.db)
             && Consistent(st'.db)
    requires table !in w.j.s.hasId ==>
               st'.deferred == st.deferred && st'.db.byId == st.db.byId && st'.maps[table] == map[]
    requires table !in w.j.s.hasId ==> st'.db.natural == st.db.natural
    ensures Parts(w, st', laters[table := later])
  {
    TableEndsParts(w, st, st', laters, table, later);
    TableEndsFrame(w, st, st', laters, table, later);
  }

  lemma TableEndsParts(w: World, st: State, st': State, laters: map<string, set<string>>, table: string,
                       later: set<string>)
    requires SoundWorld(w) && Parts(w, st, laters) && table in w.arch && table !in laters && SameExcept(st, st', table)
    requires forall t :: t in laters ==> table in laters[t]
    requires table in st'.maps && Part(w, st', table, later) && (table !in w.j.s.hasId ==> st'.maps[table] == map[])
    ensures var laters' := laters[table := later];
            && st'.maps.Keys == laters'.Keys
            && forall t :: t in laters' ==> Part(w, st', t, laters'[t]) && (t !in w.j.s.hasId ==> st'.maps[t] == map[])
  {
    var laters' := laters[table := later];
    forall t | t in laters'
      ensures Part(w, st', t, laters'[t]) && (t !in w.j.s.hasId ==> st'.maps[t] == map[])
    {
      if t != table {
        PartFrame(w, st, st', t, laters[t], table);
      }
    }
  }

  lemma TableEndsFrame(w: World, st: State, st': State, laters: map<string, set<string>>, table: string,
                       later: set<string>)
    requires OnlyParts(w, st, laters) && SameExcept(st, st', table)
    requires table !in w.j.s.hasId ==>
               st'.deferred == st.deferred && st'.db.byId == st.db.byId && st'.db.natural == st.db.natural
    ensures OnlyParts(w, st', laters[table := later])
  {
    forall d | d in st'.deferred
      ensures d.table in laters[table := later] && d.table in w.j.s.hasId
    {
      assert d.table != table ==> d in st.deferred;
    }
  }

  lemma PartFrame(w: World, st: State, st': State, t: string, later: set<string>, table: string)
    requires SoundWorld(w) && t in w.arch && Part(w, st, t, later)
    requires SameExcept(st, st', table) && t != table && table in later
    ensures Part(w, st', t, later)
  {
    if t in w.j.s.hasId {
      TableDoneFrame(w, st, st', t, AllRows(w.arch[t]), later, table);
    } else {
      var rows := w.arch[t];
      forall i | 0 <= i < |rows|
        ensures Image(w.j, st'.maps, t, rows[i], 0, {}) == Image(w.j, st.maps, t, rows[i], 0, {})
      {
        assert SoundRefs(w.j, t, rows[i]);
        RowImageFrame(w, st, st', t, rows[i], 0, later, table);
      }
    }
  }

  /** What the invariant says of one row. */
  lemma PartRow(w: World, st: State, t: string, later: set<string>, i: int)
    requires t in w.arch && t in w.j.s.hasId && Part(w, st, t, later) && 0 <= i < |w.arch[t]|
    ensures RowDone(w, st, t, w.arch[t][i], Forward(w.j.k, t, w.arch[t][i], later))
    ensures RowDeferred(w, st, t, w.arch[t][i], later)
  {
    assert i in AllRows(w.arch[t]);
  }

  // ------------------------------------------------------ deferred references

  /** The references of a row not among those written. */
  ghost function OpenAfter(w: World, st: State, t: string, r: Row, later: set<string>,
                           written: set<DeferredRef>): set<string>
    requires t in st.maps && IdOf(r) in st.maps[t]
  {
    set c | c in Forward(w.j.k, t, r, later) && Entry(w.j.k, t, r, c, st.maps[t][IdOf(r)]) !in written
  }

  /** The stored row once some deferred references are written. */
  ghost predicate RowPatched(w: World, st: State, t: string, r: Row, later: set<string>, written: set<DeferredRef>,
                             byId: map<Key, Row>) {
    && t in st.maps && IdOf(r) in st.maps[t]
    && (!Reused(w, t, r) ==>
          var id := st.maps[t][IdOf(r)];
          && Renamed(w.j.o, t, r).Some? && Key(t, id) in byId
          && byId[Key(t, id)] == Image(w.j, st.maps, t, r, id, OpenAfter(w, st, t, r, later, written)))
  }

  /** No row is added or removed, and those from before are as they were. */
  ghost predicate SameRows(w: World, st: State, byId: map<Key, Row>) {
    && byId.Keys == st.db.byId.Keys
    && (forall key :: key in w.db0.byId ==> key in byId && byId[key] == w.db0.byId[key])
  }

  lemma PatchKeepsRows(w: World, st: State, d: DeferredRef, byId: map<Key, Row>)
    requires SameRows(w, st, byId) && Key(d.table, d.id) !in w.db0.byId
    ensures SameRows(w, st, PatchOne(st, d, byId))
  {
  }

  ghost predicate Patched(w: World, st: State, laters: map<string, set<string>>, written: set<DeferredRef>,
                          byId: map<Key, Row>)
    requires laters.Keys <= w.arch.Keys
  {
    && SameRows(w, st, byId)
    && forall t, i :: t in laters && t in w.j.s.hasId && 0 <= i < |w.arch[t]| ==>
         RowPatched(w, st, t, w.arch[t][i], laters[t], written, byId)
  }

  lemma PatchedInit(w: World, st: State, laters: map<string, set<string>>)
    requires Parts(w, st, laters)
    ensures Patched(w, st, laters, {}, st.db.byId)
  {
    forall t, i | t in laters && t in w.j.s.hasId && 0 <= i < |w.arch[t]|
      ensures RowPatched(w, st, t, w.arch[t][i], laters[t], {}, st.db.byId)
    {
      PartRow(w, st, t, laters[t], i);
      assert OpenAfter(w, st, t, w.arch[t][i], laters[t], {}) == Forward(w.j.k, t, w.arch[t][i], laters[t]);
    }
  }

  /** The row a deferred reference belongs to. */
  lemma DeferredRow(w: World, st: State, laters: map<string, set<string>>, d: DeferredRef) returns (i: int)
    requires SoundWorld(w) && Parts(w, st, laters) && d in st.deferred
    ensures d.table in laters && d.table in w.j.s.hasId && 0 <= i < |w.arch[d.table]|
    ensures DeferredBy(w, st, d.table, w.arch[d.table][i], laters[d.table], d)
    ensures RowDone(w, st, d.table, w.arch[d.table][i], Forward(w.j.k, d.table, w.arch[d.table][i], laters[d.table]))
  {
    var t := d.table;
    assert Part(w, st, t, laters[t]);
    assert DeferredFrom(w, st, t, AllRows(w.arch[t]), laters[t], d);
    i :| i in AllRows(w.arch[t]) && DeferredBy(w, st, t, w.arch[t][i], laters[t], d);
  }

  /** All of some deferred references. */
  function All(ds: seq<DeferredRef>): set<DeferredRef> { set d | d in ds }

  predicate Resolvable(maps: IdMaps, d: DeferredRef) { d.target in maps && d.was in maps[d.target] }

  /** Writing one deferred reference; one whose target is not archived stays null. */
  function PatchOne(st: State, d: DeferredRef, byId: map<Key, Row>): map<Key, Row> {
    if Resolvable(st.maps, d) && Key(d.table, d.id) in byId
    then byId[Key(d.table, d.id) := byId[Key(d.table, d.id)][d.column := Num(st.maps[d.target][d.was])]]
    else byId
  }

  /** A property that every deferred reference keeps, in whatever order they are written. */
  ghost predicate KeptByPatches(st: State, holds: (set<DeferredRef>, map<Key, Row>) -> bool) {
    forall written, byId, d :: d in st.deferred && holds(written, byId) ==> holds(written + {d}, PatchOne(st, d, byId))
  }

  /** The stored rows are as they should be once some deferred references are written. */
  ghost function StaysPatched(w: World, st: State,
                              laters: map<string, set<string>>): (set<DeferredRef>, map<Key, Row>) -> bool
    requires laters.Keys <= w.arch.Keys
  {
    (written, byId) => Patched(w, st, laters, written, byId)
  }

  /** Writing the deferred references keeps the stored rows patched. */
  lemma PatchSteps(w: World, st: State, laters: map<string, set<string>>)
    requires SoundWorld(w) && Parts(w, st, laters)
    ensures KeptByPatches(st, StaysPatched(w, st, laters))
  {
    var holds := StaysPatched(w, st, laters);
    forall written, byId, d | d in st.deferred && holds(written, byId)
      ensures holds(written + {d}, PatchOne(st, d, byId))
    {
      PatchStep(w, st, laters, written, byId, d);
    }
  }

  /** Ids of different archived rows stay different. */
  lemma SameRow(w: World, st: State, t: string, later: set<string>, i: int, i': int)
    requires SoundWorld(w) && t in w.arch && t in w.j.s.hasId && Part(w, st, t, later)
    requires 0 <= i < |w.arch[t]| && 0 <= i' < |w.arch[t]|
    requires IdOf(w.arch[t][i]) in st.maps[t] && IdOf(w.arch[t][i']) in st.maps[t]
    requires st.maps[t][IdOf(w.arch[t][i])] == st.maps[t][IdOf(w.arch[t][i'])]
    ensures i == i'
  {
    assert SoundTable(w.j, t, w.arch[t]);
    assert MapDone(w, st, t, AllRows(w.arch[t]));
    assert IdOf(w.arch[t][i]) == IdOf(w.arch[t][i']);
  }

  lemma OpenAfterStep(w: World, st: State, t: string, r: Row, later: set<string>, written: set<DeferredRef>,
                      d: DeferredRef)
    requires t in st.maps && IdOf(r) in st.maps[t]
    ensures var open := OpenAfter(w, st, t, r, later, written);
            OpenAfter(w, st, t, r, later, written + {d}) ==
              if d.table == t && d.id == st.maps[t][IdOf(r)] && d.column in Forward(w.j.k, t, r, later)
                 && d == Entry(w.j.k, t, r, d.column, d.id)
              then open - {d.column} else open
  {
  }

  /** Writing one deferred reference closes it in its own row and changes no other. */
  lemma PatchRow(w: World, st: State, t: string, r: Row, later: set<string>, written: set<DeferredRef>,
                 byId: map<Key, Row>, d: DeferredRef)
    requires Sound(w.j.k) && SoundRefs(w.j, t, r) && RowPatched(w, st, t, r, later, written, byId)
    requires !Reused(w, t, r) && d.table == t && d.id == st.maps[t][IdOf(r)] ==> DeferredBy(w, st, t, r, later, d)
    ensures RowPatched(w, st, t, r, later, written + {d}, PatchOne(st, d, byId))
  {
    var id := st.maps[t][IdOf(r)];
    OpenAfterStep(w, st, t, r, later, written, d);
    if !Reused(w, t, r) && d.table == t && d.id == id {
      ImageFill(w.j, st.maps, t, r, id, OpenAfter(w, st, t, r, later, written), d.column);
    }
  }

  lemma PatchStep(w: World, st: State, laters: map<string, set<string>>, written: set<DeferredRef>, byId: map<Key, Row>,
                  d: DeferredRef)
    requires SoundWorld(w) && Parts(w, st, laters) && d in st.deferred && Patched(w, st, laters, written, byId)
    ensures Patched(w, st, laters, written + {d}, PatchOne(st, d, byId))
  {
    var di := DeferredRow(w, st, laters, d);
    PatchKeepsRows(w, st, d, byId);
    forall t, i | t in laters && t in w.j.s.hasId && 0 <= i < |w.arch[t]|
      ensures RowPatched(w, st, t, w.arch[t][i], laters[t], written + {d}, PatchOne(st, d, byId))
    {
      assert RowPatched(w, st, t, w.arch[t][i], laters[t], written, byId);
      PatchAnyRow(w, st, t, laters[t], written, byId, d, i, di);
    }
  }

  lemma PatchAnyRow(w: World, st: State, t: string, later: set<string>, written: set<DeferredRef>, byId: map<Key, Row>,
                    d: DeferredRef, i: int, di: int)
    requires SoundWorld(w) && t in w.arch && t in w.j.s.hasId && Part(w, st, t, later)
    requires 0 <= i < |w.arch[t]| && RowPatched(w, st, t, w.arch[t][i], later, written, byId)
    requires d.table == t ==> 0 <= di < |w.arch[t]| && DeferredBy(w, st, t, w.arch[t][di], later, d)
    ensures RowPatched(w, st, t, w.arch[t][i], later, written + {d}, PatchOne(st, d, byId))
  {
    assert SoundTable(w.j, t, w.arch[t]);
    if d.table == t && d.id == st.maps[t][IdOf(w.arch[t][i])] {
      SameRow(w, st, t, later, i, di);
    }
    PatchRow(w, st, t, w.arch[t][i], later, written, byId, d);
  }

  // --------------------------------------------------------------- the copy

  /** The archived row has a copy, or an existing row stands in for it. */
  ghost predicate Copied(w: World, maps: IdMaps, db: Db, t: string, r: Row) {
    && t in maps && IdOf(r) in maps[t]
    && var id := maps[t][IdOf(r)];
       if Reused(w, t, r) then id == w.db0.natural[NaturalOf(t, r).value]
       else && Key(t, id) !in w.db0.byId && Key(t, id) in db.byId && Renamed(w.j.o, t, r).Some?
            && db.byId[Key(t, id)] == Image(w.j, maps, t, r, id, {})
  }

  /** The rows of a table without ids follow those that were there, in order. */
  ghost predicate CopiedPlain(w: World, maps: IdMaps, db: Db, t: string)
    requires t in w.arch
  {
    var rows, stored, base := w.arch[t], PlainRows(db, t), PlainRows(w.db0, t);
    && |stored| == |base| + |rows| && stored[..|base|] == base
    && forall i :: 0 <= i < |rows| ==>
         Renamed(w.j.o, t, rows[i]).Some? && stored[|base| + i] == Image(w.j, maps, t, rows[i], 0, {})
  }

  /** The map gives every archived id, and no other, an id of its own. */
  ghost predicate RenamesIds(rows: seq<Row>, m: map<int, int>) {
    && (forall a :: a in m <==> HasArchivedId(rows, a))
    && (forall a, b :: a in m && b in m && a != b ==> m[a] != m[b])
  }

  /** The database holds a copy of the archive beside what it held before. */
  ghost predicate IsCopy(w: World, maps: IdMaps, db: Db) {
    && (forall t :: t in w.arch && t in w.j.s.hasId ==>
          t in maps && RenamesIds(w.arch[t], maps[t]))
    && (forall t, i :: t in w.arch && t in w.j.s.hasId && 0 <= i < |w.arch[t]| ==> Copied(w, maps, db, t, w.arch[t][i]))
    && (forall t :: t in w.arch && t !in w.j.s.hasId ==> CopiedPlain(w, maps, db, t))
    && (forall key :: key in w.db0.byId ==> key in db.byId && db.byId[key] == w.db0.byId[key])
    && (forall key :: key in db.byId && key !in w.db0.byId ==> NewRow(w, maps, key))
  }

  /** A row that was not there before is the copy of an archived one. */
  ghost predicate NewRow(w: World, maps: IdMaps, key: Key) {
    key.table in w.arch && key.table in maps && exists a :: a in maps[key.table] && maps[key.table][a] == key.id
  }

  lemma Finished(w: World, st: State, laters: map<string, set<string>>, byId: map<Key, Row>)
    requires SoundWorld(w) && Parts(w, st, laters) && laters.Keys == w.arch.Keys
    requires Patched(w, st, laters, All(st.deferred), byId)
    ensures IsCopy(w, st.maps, st.db.(byId := byId))
  {
    var db := st.db.(byId := byId);
    forall t, i | t in w.arch && t in w.j.s.hasId && 0 <= i < |w.arch[t]|
      ensures Copied(w, st.maps, db, t, w.arch[t][i])
    {
      FinishedRow(w, st, laters, byId, t, i);
    }
    forall t | t in w.arch && t in w.j.s.hasId
      ensures t in st.maps && RenamesIds(w.arch[t], st.maps[t])
    {
      FinishedMap(w, st, laters, t);
    }
    forall t | t in w.arch && t !in w.j.s.hasId
      ensures CopiedPlain(w, st.maps, db, t)
    {
      assert Part(w, st, t, laters[t]);
    }
    forall key | key in byId && key !in w.db0.byId
      ensures NewRow(w, st.maps, key)
    {
      FinishedKey(w, st, laters, key);
    }
  }

  lemma FinishedKey(w: World, st: State, laters: map<string, set<string>>, key: Key)
    requires Parts(w, st, laters) && key in st.db.byId && key !in w.db0.byId
    ensures NewRow(w, st.maps, key)
  {
    assert Part(w, st, key.table, laters[key.table]);
    PartMap(w, st, key.table, laters[key.table]);
  }

  lemma PartMap(w: World, st: State, t: string, later: set<string>)
    requires t in w.arch && t in w.j.s.hasId && Part(w, st, t, later)
    ensures t in st.maps
    ensures forall key :: key in st.db.byId && key.table == t && key !in w.db0.byId ==>
              exists a :: a in st.maps[t] && st.maps[t][a] == key.id
  {
    assert MapDone(w, st, t, AllRows(w.arch[t]));
  }

  lemma FinishedRow(w: World, st: State, laters: map<string, set<string>>, byId: map<Key, Row>, t: string, i: int)
    requires Parts(w, st, laters) && laters.Keys == w.arch.Keys && Patched(w, st, laters, All(st.deferred), byId)
    requires t in w.arch && t in w.j.s.hasId && 0 <= i < |w.arch[t]|
    ensures Copied(w, st.maps, st.db.(byId := byId), t, w.arch[t][i])
  {
    var r, all := w.arch[t][i], All(st.deferred);
    PartRow(w, st, t, laters[t], i);
    assert RowPatched(w, st, t, r, laters[t], all, byId);
    assert !Reused(w, t, r) ==> OpenAfter(w, st, t, r, laters[t], all) == {};
  }

  lemma FinishedMap(w: World, st: State, laters: map<string, set<string>>, t: string)
    requires Parts(w, st, laters) && t in laters && t in w.j.s.hasId
    ensures t in st.maps && RenamesIds(w.arch[t], st.maps[t])
  {
    var rows, m := w.arch[t], st.maps[t];
    assert Part(w, st, t, laters[t]) && MapDone(w, st, t, AllRows(rows));
    forall a
      ensures a in m <==> HasArchivedId(rows, a)
    {
      if HasArchivedId(rows, a) {
        var i :| 0 <= i < |rows| && IdOf(rows[i]) == a;
        assert i in AllRows(rows);
        assert RowDone(w, st, t, rows[i], Forward(w.j.k, t, rows[i], laters[t]));
      }
      if a in m {
        var i :| i in AllRows(rows) && IdOf(rows[i]) == a;
      }
    }
  }

  /** An id of an imported table has an image exactly when it is archived. */
  lemma PartsKnown(w: World, st: State, laters: map<string, set<string>>, later: set<string>)
    requires Parts(w, st, laters) && later == w.arch.Keys - laters.Keys
    ensures Known(w, st.maps, later)
  {
    forall t, a | t !in later
      ensures Resolve(st.maps, t, a) != Null <==> Archived(w, t, a)
    {
      if t in laters && t in w.j.s.hasId {
        FinishedMap(w, st, laters, t);
      }
    }
  }

  // ------------------------------------------------------ the copy, cell by cell

  /** An existing user has the username, or an existing team the code, of the archived row. */
  ghost predicate Existing(natural: map<Natural, int>, t: string, r: Row, id: int) {
    || (t == "users" && "username" in r && r["username"].Text?
        && Natural("users", r["username"].s) in natural && natural[Natural("users", r["username"].s)] == id)
    || (t == "teams" && "code" in r && r["code"].Text?
        && Natural("teams", r["code"].s) in natural && natural[Natural("teams", r["code"].s)] == id)
  }

  /** The value of one column in the copy of a row, its new id being `id`. */
  ghost predicate CellCopied(j: Job, maps: IdMaps, t: string, r: Row, id: int, c: string, v: Value) {
    if c in j.k.adminRefs then v == Null
    else if c == "id" && t in j.s.hasId then v == Num(id)
    else if c == "name" && t == "contests" then v == Text(j.o.name)
    else if c == "status" && t == "contests" then v == Text(j.o.status)
    else
      && c in r
      && if c == "name" && t == "tasks" then r[c].Text? && v == Text(r[c].s + j.o.taskSuffix)
         else if c !in j.k.refs then v == r[c]
         else if r[c].Num? && j.k.refs[c] in maps && r[c].n in maps[j.k.refs[c]]
         then v == Num(maps[j.k.refs[c]][r[c].n])
         else v == Null
  }

  /** The copy of a row has its columns, those that are set anew too, as far as they can be written. */
  ghost predicate RowCopied(j: Job, maps: IdMaps, t: string, r: Row, id: int, copy: Row) {
    && (forall c :: c in copy ==> t in j.s.columns && c in j.s.columns[t] && j.s.columns[t][c])
    && (forall c :: c in copy ==> CellCopied(j, maps, t, r, id, c, copy[c]))
    && (forall c :: t in j.s.columns && c in j.s.columns[t] && j.s.columns[t][c]
                    && (c in r || (c == "id" && t in j.s.hasId) || (c in ["name", "status"] && t == "contests")) ==>
          c in copy)
  }

  /** A row with an id stands for an existing one, or has a copy under a new id. */
  ghost predicate IdCopied(w: World, maps: IdMaps, db: Db, t: string, r: Row, a: int) {
    && t in maps && a in maps[t]
    && var id := maps[t][a];
       || Existing(w.db0.natural, t, r, id)
       || (&& (forall n :: !Existing(w.db0.natural, t, r, n))
           && Key(t, id) !in w.db0.byId && Key(t, id) in db.byId
           && RowCopied(w.j, maps, t, r, id, db.byId[Key(t, id)]))
  }

  /** Every archived row is copied: those with ids under new ones, the others at the end of their tables. */
  ghost predicate RowsCopied(w: World, maps: IdMaps, db: Db) {
    && (forall t, i, a :: t in w.arch && t in w.j.s.hasId && 0 <= i < |w.arch[t]| && "id" in w.arch[t][i]
                          && w.arch[t][i]["id"] == Num(a) ==>
          IdCopied(w, maps, db, t, w.arch[t][i], a))
    && (forall t, i :: t in w.arch && t !in w.j.s.hasId && 0 <= i < |w.arch[t]| ==>
          && |PlainRows(db, t)| == |PlainRows(w.db0, t)| + |w.arch[t]|
          && RowCopied(w.j, maps, t, w.arch[t][i], 0, PlainRows(db, t)[|PlainRows(w.db0, t)| + i]))
  }

  lemma ImageCopies(j: Job, maps: IdMaps, t: string, r: Row, id: int)
    requires Sound(j.k) && Renamed(j.o, t, r).Some?
    ensures RowCopied(j, maps, t, r, id, Image(j, maps, t, r, id, {}))
  {
    var q, copy := Prepared(j, t, r, id), Image(j, maps, t, r, id, {});
    forall c | c in copy
      ensures CellCopied(j, maps, t, r, id, c, copy[c])
    {
      assert copy[c] == Cell(j.k, maps, c, q[c], false);
      if c in j.k.refs {
        RefsKept(j, t, r, id, c);
      }
    }
  }

  lemma ExistingIsReused(w: World, t: string, r: Row)
    ensures Reused(w, t, r) ==> Existing(w.db0.natural, t, r, w.db0.natural[NaturalOf(t, r).value])
    ensures !Reused(w, t, r) ==> forall n :: !Existing(w.db0.natural, t, r, n)
  {
  }

  /** A copy of the archive has every row, cell by cell. */
  lemma CopyHasRows(w: World, maps: IdMaps, db: Db)
    requires SoundWorld(w) && IsCopy(w, maps, db)
    ensures RowsCopied(w, maps, db)
  {
    forall t, i, a | t in w.arch && t in w.j.s.hasId && 0 <= i < |w.arch[t]| && "id" in w.arch[t][i]
                     && w.arch[t][i]["id"] == Num(a)
      ensures IdCopied(w, maps, db, t, w.arch[t][i], a)
    {
      var r := w.arch[t][i];
      assert Copied(w, maps, db, t, r) && IdOf(r) == a;
      ExistingIsReused(w, t, r);
      if !Reused(w, t, r) {
        ImageCopies(w.j, maps, t, r, maps[t][a]);
      }
    }
    forall t, i | t in w.arch && t !in w.j.s.hasId && 0 <= i < |w.arch[t]|
      ensures && |PlainRows(db, t)| == |PlainRows(w.db0, t)| + |w.arch[t]|
              && RowCopied(w.j, maps, t, w.arch[t][i], 0, PlainRows(db, t)[|PlainRows(w.db0, t)| + i])
    {
      assert CopiedPlain(w, maps, db, t);
      ImageCopies(w.j, maps, t, w.arch[t][i], 0);
    }
  }

  /** What a copy means for one column of a copied row. */
  lemma CopiedCell(w: World, maps: IdMaps, db: Db, t: string, r: Row, c: string)
    requires SoundWorld(w) && IsCopy(w, maps, db) && Copied(w, maps, db, t, r) && !Reused(w, t, r)
    requires c in r && Insertable(w.j.s, t, c)
    ensures var copy := db.byId[Key(t, maps[t][IdOf(r)])];
            && c in copy
            && (c in w.j.k.adminRefs ==> copy[c] == Null)
            && (c in w.j.k.refs && r[c].Num? ==>
                  var target := w.j.k.refs[c];
                  copy[c] == if target in maps && r[c].n in maps[target] then Num(maps[target][r[c].n]) else Null)
            && (c !in w.j.k.adminRefs && c !in w.j.k.refs && c != "id" && c != "name" && c != "status" ==>
                  copy[c] == r[c])
  {
    var id := maps[t][IdOf(r)];
    if c in w.j.k.refs {
      RefsKept(w.j, t, r, id, c);
    }
  }
}
