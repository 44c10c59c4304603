/**
 Every moment of an import at which a row is about to be written, and what the database
 holds then: the tables come in the catalog's order and the rows of a table in theirs; the
 deferred references are written once all rows are there, in any order.
 */
module ImportWrites {
  import opened Common
  import opened ImportModel
  import opened ImportState
  import opened ImportResult

  /** The constraints of the database beyond those on empty columns: whether a row may be written. */
  type Constraints = (Db, string, Row) -> bool

  ghost predicate Follows(order: seq<string>, t: string, u: string) {
    exists i, j :: 0 <= i < j < |order| && order[i] == t && order[j] == u
  }

  /** The archived tables imported after t. */
  ghost function After(w: World, t: string): set<string> {
    set u | u in w.arch && Follows(w.j.k.order, t, u)
  }

  /** The references of an archived row that wait for a later table. */
  ghost function Waiting(w: World, t: string, r: Row): set<string> { Forward(w.j.k, t, r, After(w, t)) }

  /** Which archived row a new row comes from, and its references that are still empty. */
  datatype Origin = Origin(i: nat, open: set<string>)

  /** A new row is the image of an archived one, under the id the maps give it. */
  ghost predicate Stands(w: World, maps: IdMaps, key: Key, row: Row, x: Origin) {
    && key.table in w.arch && key.table in maps && x.i < |w.arch[key.table]|
    && var r := w.arch[key.table][x.i];
    && !Reused(w, key.table, r) && Renamed(w.j.o, key.table, r).Some? && x.open <= Waiting(w, key.table, r)
    && IdOf(r) in maps[key.table] && maps[key.table][IdOf(r)] == key.id
    && row == Image(w.j, maps, key.table, r, key.id, x.open)
  }

  /** None of the references that wait is written yet. */
  ghost predicate AllOpen(w: World, t: string, x: Origin) {
    t in w.arch && x.i < |w.arch[t]| && x.open == Waiting(w, t, w.arch[t][x.i])
  }

  ghost predicate NewRowsStand(w: World, maps: IdMaps, byId: map<Key, Row>, phase: Phase) {
    forall key :: key in byId && key !in w.db0.byId ==>
      exists x :: Stands(w, maps, key, byId[key], x) && (phase.Inserting? ==> AllOpen(w, key.table, x))
  }

  /**
   The map of a table sends archived ids to rows that are there, different ones to different
   ones, and to new rows unless an existing one stands in.
   */
  ghost predicate MapsInto(w: World, t: string, m: map<int, int>, byId: map<Key, Row>) {
    && t in w.arch && (t !in w.j.s.hasId ==> m == map[])
    && (forall a :: a in m ==> HasArchivedId(w.arch[t], a) && Key(t, m[a]) in byId)
    && (forall a, b :: a in m && b in m && a != b ==> m[a] != m[b])
    && (forall i :: 0 <= i < |w.arch[t]| && IdOf(w.arch[t][i]) in m && !Reused(w, t, w.arch[t][i]) ==>
          Key(t, m[IdOf(w.arch[t][i])]) !in w.db0.byId)
  }

  /** A table without ids holds what it held, and after that the images of the first n archived rows. */
  ghost predicate PlainStands(w: World, maps: IdMaps, stored: seq<Row>, t: string, n: nat) {
    var rows, base := if t in w.arch then w.arch[t] else [], PlainRows(w.db0, t);
    && n <= |rows| && |stored| == |base| + n && stored[..|base|] == base
    && forall i :: 0 <= i < n ==>
         Renamed(w.j.o, t, rows[i]).Some? && stored[|base| + i] == Image(w.j, maps, t, rows[i], 0, {})
  }

  ghost predicate FromArchive(w: World, n: Natural) {
    n.table in w.arch && exists i :: 0 <= i < |w.arch[n.table]| && NaturalOf(n.table, w.arch[n.table][i]) == Some(n)
  }

  /** Either the i-th row of a table comes next, or all rows are there and references are filled in. */
  datatype Phase = Inserting(table: string, i: nat) | Filling

  /** Every row of the table is imported. */
  ghost predicate Whole(w: World, maps: IdMaps, db: Db, t: string)
    requires t in w.arch
  {
    t in maps &&
    if t in w.j.s.hasId then forall k :: 0 <= k < |w.arch[t]| ==> IdOf(w.arch[t][k]) in maps[t]
    else PlainStands(w, maps, PlainRows(db, t), t, |w.arch[t]|)
  }

  /** Its first i rows are; of the others, at most some for which existing rows stand in. */
  ghost predicate UpTo(w: World, maps: IdMaps, db: Db, t: string, i: nat)
    requires t in w.arch
  {
    t in maps &&
    if t in w.j.s.hasId then
      && (forall k :: 0 <= k < i && k < |w.arch[t]| ==> IdOf(w.arch[t][k]) in maps[t])
      && (forall k :: i <= k < |w.arch[t]| && IdOf(w.arch[t][k]) in maps[t] ==> Reused(w, t, w.arch[t][k]))
    else PlainStands(w, maps, PlainRows(db, t), t, i)
  }

  /** None of its rows is. */
  ghost predicate NotYet(w: World, maps: IdMaps, db: Db, t: string) {
    t !in maps && PlainRows(db, t) == PlainRows(w.db0, t)
  }

  /** How far a table has come. */
  ghost predicate Reaches(w: World, maps: IdMaps, db: Db, t: string, phase: Phase)
    requires t in w.arch
  {
    if phase.Inserting? && t == phase.table then UpTo(w, maps, db, t, phase.i)
    else if phase.Inserting? && t in After(w, phase.table) then NotYet(w, maps, db, t)
    else Whole(w, maps, db, t)
  }

  /**
   What the database holds at a moment of an import: the old rows and images of archived ones,
   none twice, of every table as far as it has come.
   */
  ghost predicate During(w: World, maps: IdMaps, db: Db, phase: Phase) {
    forall s {:trigger Unsealed(s)} :: Unsealed(s) ==> DuringBy(w, maps, db, phase)
  }

  ghost predicate DuringBy(w: World, maps: IdMaps, db: Db, phase: Phase) {
    && OldRowsKept(w, db) && Consistent(db) && NewRowsStand(w, maps, db.byId, phase)
    && (forall t :: t in maps ==> MapsInto(w, t, maps[t], db.byId))
    && (forall t :: t in w.arch ==> Reaches(w, maps, db, t, phase))
    && (forall t :: t !in w.arch ==> NotYet(w, maps, db, t))
    && (forall n :: n in db.natural && n !in w.db0.natural ==> FromArchive(w, n))
  }

  lemma DuringMaps(w: World, maps: IdMaps, db: Db, phase: Phase)
    requires During(w, maps, db, phase)
    ensures forall t :: t in maps ==> MapsInto(w, t, maps[t], db.byId)
    ensures forall key :: key in w.db0.byId ==> key in db.byId && db.byId[key] == w.db0.byId[key]
  {
    assert Unsealed(Seal);
  }

  lemma DuringRow(w: World, maps: IdMaps, db: Db, phase: Phase, key: Key) returns (x: Origin)
    requires During(w, maps, db, phase) && key in db.byId && key !in w.db0.byId
    ensures Stands(w, maps, key, db.byId[key], x) && (phase.Inserting? ==> AllOpen(w, key.table, x))
  {
    assert Unsealed(Seal);
    x :| Stands(w, maps, key, db.byId[key], x) && (phase.Inserting? ==> AllOpen(w, key.table, x));
  }

  lemma DuringReaches(w: World, maps: IdMaps, db: Db, phase: Phase, t: string)
    requires During(w, maps, db, phase) && t in w.arch
    ensures Reaches(w, maps, db, t, phase)
  {
    assert Unsealed(Seal);
  }

  /** The image of an archived row is about to be written, its references `open` still empty. */
  datatype Write = Write(maps: IdMaps, db: Db, table: string, i: nat, id: int, open: set<string>)

  /** A row whose archived id is mapped is there, and one of its references is filled in; another is inserted. */
  ghost predicate Updates(w: World, x: Write)
    requires x.table in w.arch && x.table in x.maps && x.i < |w.arch[x.table]|
  {
    x.table in w.j.s.hasId && IdOf(w.arch[x.table][x.i]) in x.maps[x.table]
  }

  ghost function PhaseOf(w: World, x: Write): Phase
    requires x.table in w.arch && x.table in x.maps && x.i < |w.arch[x.table]|
  {
    if Updates(w, x) then Filling else Inserting(x.table, x.i)
  }

  /**
   An import may come to this write: an insert with every reference to a later table still
   empty, under the next id if the table has ids; or an update of a row that has some of them.
   */
  ghost predicate Arises(w: World, x: Write) {
    && x.table in w.arch && x.table in x.maps && x.i < |w.arch[x.table]|
    && During(w, x.maps, x.db, PhaseOf(w, x))
    && var r := w.arch[x.table][x.i];
    && !Reused(w, x.table, r) && Renamed(w.j.o, x.table, r).Some?
    && x.open <= Waiting(w, x.table, r) && (!Updates(w, x) ==> x.open == Waiting(w, x.table, r))
    && (x.table in w.j.s.hasId ==> x.id == if Updates(w, x) then x.maps[x.table][IdOf(r)] else NextId(x.db, x.table))
    && (x.table !in w.j.s.hasId ==> x.id == 0 && x.open == {})
  }

  ghost function Written(w: World, x: Write): Row
    requires Arises(w, x)
  {
    Image(w.j, x.maps, x.table, w.arch[x.table][x.i], x.id, x.open)
  }

  /** The constraints accept every row an import may come to write. */
  ghost predicate Accepting(w: World, accepts: Constraints) {
    forall x :: Arises(w, x) ==> accepts(x.db, x.table, Written(w, x))
  }

  // ---------------------------------------------------- the moments of a run

  /** The archived row behind a new row of a table in progress. */
  lemma RowBehind(w: World, st: State, t: string, done: set<int>, later: set<string>, key: Key) returns (i: int)
    requires Consistent(w.db0) && t in w.arch && TableDone(w, st, t, done, later)
    requires key.table == t && key in st.db.byId && key !in w.db0.byId
    ensures i in done && 0 <= i < |w.arch[t]| && !Reused(w, t, w.arch[t][i])
    ensures IdOf(w.arch[t][i]) in st.maps[t] && st.maps[t][IdOf(w.arch[t][i])] == key.id
    ensures RowDone(w, st, t, w.arch[t][i], Forward(w.j.k, t, w.arch[t][i], later))
  {
    var rows, m := w.arch[t], st.maps[t];
    assert MapDone(w, st, t, done);
    var a :| a in m && m[a] == key.id;
    i :| i in done && IdOf(rows[i]) == a;
    assert RowDone(w, st, t, rows[i], Forward(w.j.k, t, rows[i], later));
  }

  /** The new row comes from an archived one whose waiting references are all open. */
  ghost predicate Fresh(w: World, st: State, key: Key)
    requires key in st.db.byId
  {
    exists x :: Stands(w, st.maps, key, st.db.byId[key], x) && AllOpen(w, key.table, x)
  }

  lemma TableStands(w: World, st: State, t: string, done: set<int>)
    requires SoundWorld(w) && t in w.arch && t in w.j.s.hasId && TableDone(w, st, t, done, After(w, t))
    ensures MapsInto(w, t, st.maps[t], st.db.byId)
    ensures forall key :: key in st.db.byId && key.table == t && key !in w.db0.byId ==> Fresh(w, st, key)
    ensures forall n :: n in st.db.natural && n.table == t && n !in w.db0.natural ==> FromArchive(w, n)
  {
    assert MapDone(w, st, t, done) && SoundTable(w.j, t, w.arch[t]);
    forall i | 0 <= i < |w.arch[t]| && IdOf(w.arch[t][i]) in st.maps[t] && !Reused(w, t, w.arch[t][i])
      ensures Key(t, st.maps[t][IdOf(w.arch[t][i])]) !in w.db0.byId
    {
      var k :| k in done && IdOf(w.arch[t][k]) == IdOf(w.arch[t][i]);
      assert k == i && RowDone(w, st, t, w.arch[t][i], Waiting(w, t, w.arch[t][i]));
    }
    forall key | key in st.db.byId && key.table == t && key !in w.db0.byId
      ensures Fresh(w, st, key)
    {
      var i := RowBehind(w, st, t, done, After(w, t), key);
      var x := Origin(i, Waiting(w, t, w.arch[t][i]));
      assert Stands(w, st.maps, key, st.db.byId[key], x) && AllOpen(w, t, x);
    }
  }

  /** The first rows are handled, and of the others only such for which existing rows stand in. */
  ghost predicate Frontier(w: World, t: string, done: set<int>, i: nat)
    requires t in w.arch
  {
    && (forall k :: 0 <= k < i ==> k in done)
    && (forall k :: k in done && i <= k < |w.arch[t]| ==> Reused(w, t, w.arch[t][k]))
  }

  lemma TableUpTo(w: World, st: State, t: string, done: set<int>, later: set<string>, i: nat)
    requires SoundWorld(w) && t in w.arch && t in w.j.s.hasId && TableDone(w, st, t, done, later)
             && Frontier(w, t, done, i)
    ensures UpTo(w, st.maps, st.db, t, i)
  {
    var rows := w.arch[t];
    assert MapDone(w, st, t, done) && SoundTable(w.j, t, rows);
    forall k | 0 <= k < |rows|
      ensures if k < i then IdOf(rows[k]) in st.maps[t] else IdOf(rows[k]) in st.maps[t] ==> Reused(w, t, rows[k])
    {
      if k < i {
        assert RowDone(w, st, t, rows[k], Forward(w.j.k, t, rows[k], later));
      } else if IdOf(rows[k]) in st.maps[t] {
        var m :| m in done && IdOf(rows[m]) == IdOf(rows[k]);
        assert m == k;
      }
    }
  }

  lemma PartWhole(w: World, st: State, t: string, later: set<string>)
    requires SoundWorld(w) && t in w.arch && t in st.maps && Part(w, st, t, later)
    ensures Whole(w, st.maps, st.db, t)
  {
    if t in w.j.s.hasId {
      forall k | 0 <= k < |w.arch[t]|
        ensures IdOf(w.arch[t][k]) in st.maps[t]
      {
        PartRow(w, st, t, later, k);
      }
    } else {
      assert PlainDone(w, st, t, |w.arch[t]|, later);
    }
  }

  /** Each table remembers exactly the tables after it. */
  ghost predicate InOrder(w: World, laters: map<string, set<string>>) {
    forall t :: t in laters ==> laters[t] == After(w, t)
  }

  /** Some of the tables are imported, one perhaps in part. */
  ghost predicate AllPartly(w: World, st: State, laters: map<string, set<string>>) {
    && laters.Keys <= w.arch.Keys && st.maps.Keys == laters.Keys && OnlyParts(w, st, laters)
    && forall t :: t in laters ==> if t in w.j.s.hasId then Partly(w, st, t) else st.maps[t] == map[]
  }

  ghost predicate Partly(w: World, st: State, t: string)
    requires t in w.arch
  {
    exists done :: TableDone(w, st, t, done, After(w, t))
  }

  lemma PartlyStands(w: World, st: State, t: string)
    requires SoundWorld(w) && t in w.arch && t in w.j.s.hasId && t in st.maps && Partly(w, st, t)
    ensures MapsInto(w, t, st.maps[t], st.db.byId)
    ensures forall key :: key in st.db.byId && key.table == t && key !in w.db0.byId ==> Fresh(w, st, key)
    ensures forall n :: n in st.db.natural && n.table == t && n !in w.db0.natural ==> FromArchive(w, n)
  {
    var done :| TableDone(w, st, t, done, After(w, t));
    TableStands(w, st, t, done);
  }

  lemma RowsDuring(w: World, st: State, laters: map<string, set<string>>, phase: Phase)
    requires SoundWorld(w) && AllPartly(w, st, laters)
    ensures NewRowsStand(w, st.maps, st.db.byId, phase)
  {
    forall key | key in st.db.byId && key !in w.db0.byId
      ensures Fresh(w, st, key)
    {
      PartlyStands(w, st, key.table);
    }
  }

  lemma MapsDuring(w: World, st: State, laters: map<string, set<string>>)
    requires SoundWorld(w) && AllPartly(w, st, laters)
    ensures forall t :: t in st.maps ==> MapsInto(w, t, st.maps[t], st.db.byId)
    ensures forall n :: n in st.db.natural && n !in w.db0.natural ==> FromArchive(w, n)
  {
    forall t | t in laters
      ensures MapsInto(w, t, st.maps[t], st.db.byId)
    {
      if t in w.j.s.hasId {
        PartlyStands(w, st, t);
      }
    }
    forall n | n in st.db.natural && n !in w.db0.natural
      ensures FromArchive(w, n)
    {
      PartlyStands(w, st, n.table);
    }
  }

  /** The tables before this one are imported, and it is the first of the later ones. */
  ghost predicate ItsTurn(w: World, table: string, later: set<string>, laters: map<string, set<string>>) {
    && table in w.arch && table in later && later == w.arch.Keys - laters.Keys && After(w, table) == later - {table}
    && InOrder(w, laters) && forall t :: t in laters ==> table in laters[t]
  }

  /** In the middle of a table: the tables before it are imported, and its own rows as far as it has come. */
  lemma TableDuring(w: World, st0: State, st: State, laters: map<string, set<string>>, table: string, i: nat)
    requires SoundWorld(w) && Parts(w, st0, laters) && ItsTurn(w, table, w.arch.Keys - laters.Keys, laters)
    requires SameExcept(st0, st, table) && table in st.maps && OldRowsKept(w, st.db) && Consistent(st.db)
    requires if table in w.j.s.hasId then Partly(w, st, table) else st.maps[table] == map[]
    requires table !in w.j.s.hasId ==>
               st.deferred == st0.deferred && st.db.byId == st0.db.byId && st.db.natural == st0.db.natural
    requires UpTo(w, st.maps, st.db, table, i)
    ensures During(w, st.maps, st.db, Inserting(table, i))
  {
    var laters' := laters[table := After(w, table)];
    TableEndsFrame(w, st0, st, laters, table, After(w, table));
    PartsFramed(w, st0, st, laters, table);
    TableReaches(w, st, laters, table, i);
    TablePartly(w, st, laters, table);
    RowsDuring(w, st, laters', Inserting(table, i));
    MapsDuring(w, st, laters');
    OthersNotYet(w, st, laters');
    Assembled(w, st.maps, st.db, Inserting(table, i));
  }

  lemma PartsFramed(w: World, st0: State, st: State, laters: map<string, set<string>>, table: string)
    requires SoundWorld(w) && Parts(w, st0, laters) && InOrder(w, laters) && table !in laters
    requires (forall t :: t in laters ==> table in laters[t]) && SameExcept(st0, st, table) && table in st.maps
    ensures st.maps.Keys == laters.Keys + {table}
    ensures forall t :: t in laters ==> Part(w, st, t, After(w, t)) && (t !in w.j.s.hasId ==> st.maps[t] == map[])
  {
    forall t | t in laters
      ensures Part(w, st, t, After(w, t)) && (t !in w.j.s.hasId ==> st.maps[t] == map[])
    {
      PartFrame(w, st0, st, t, laters[t], table);
    }
  }

  lemma OthersNotYet(w: World, st: State, laters: map<string, set<string>>)
    requires laters.Keys <= w.arch.Keys && st.maps.Keys == laters.Keys && OnlyParts(w, st, laters)
    ensures forall t :: t !in w.arch ==> NotYet(w, st.maps, st.db, t)
  {
  }

  lemma Assembled(w: World, maps: IdMaps, db: Db, phase: Phase)
    requires OldRowsKept(w, db) && Consistent(db) && NewRowsStand(w, maps, db.byId, phase)
    requires forall t :: t in maps ==> MapsInto(w, t, maps[t], db.byId)
    requires forall n :: n in db.natural && n !in w.db0.natural ==> FromArchive(w, n)
    requires forall t :: t in w.arch ==> Reaches(w, maps, db, t, phase)
    requires forall t :: t !in w.arch ==> NotYet(w, maps, db, t)
    ensures During(w, maps, db, phase)
  {
  }

  lemma TablePartly(w: World, st: State, laters: map<string, set<string>>, table: string)
    requires laters.Keys <= w.arch.Keys && table in w.arch && st.maps.Keys == laters.Keys + {table}
    requires OnlyParts(w, st, laters[table := After(w, table)])
    requires forall t :: t in laters ==> Part(w, st, t, After(w, t)) && (t !in w.j.s.hasId ==> st.maps[t] == map[])
    requires if table in w.j.s.hasId then Partly(w, st, table) else st.maps[table] == map[]
    ensures AllPartly(w, st, laters[table := After(w, table)])
  {
    forall t | t in laters && t in w.j.s.hasId
      ensures Partly(w, st, t)
    {
      PartPartly(w, st, t);
    }
  }

  lemma PartPartly(w: World, st: State, t: string)
    requires t in w.arch && t in w.j.s.hasId && Part(w, st, t, After(w, t))
    ensures Partly(w, st, t)
  {
    assert TableDone(w, st, t, AllRows(w.arch[t]), After(w, t));
  }

  lemma TableReaches(w: World, st: State, laters: map<string, set<string>>, table: string, i: nat)
    requires SoundWorld(w) && laters.Keys <= w.arch.Keys && ItsTurn(w, table, w.arch.Keys - laters.Keys, laters)
    requires st.maps.Keys == laters.Keys + {table} && OnlyParts(w, st, laters[table := After(w, table)])
    requires forall t :: t in laters ==> Part(w, st, t, After(w, t))
    requires UpTo(w, st.maps, st.db, table, i)
    ensures forall t :: t in w.arch ==> Reaches(w, st.maps, st.db, t, Inserting(table, i))
  {
    forall t | t in w.arch
      ensures Reaches(w, st.maps, st.db, t, Inserting(table, i))
    {
      if t in laters {
        PartWhole(w, st, t, After(w, t));
      }
    }
  }

  /** While the deferred references are written every table is whole. */
  lemma PatchesDuring(w: World, st: State, laters: map<string, set<string>>, written: set<DeferredRef>,
                      byId: map<Key, Row>)
    requires SoundWorld(w) && Parts(w, st, laters) && InOrder(w, laters) && laters.Keys == w.arch.Keys
    requires Patched(w, st, laters, written, byId)
    ensures During(w, st.maps, st.db.(byId := byId), Filling)
  {
    forall t | t in laters
      ensures t in w.j.s.hasId ==> Partly(w, st, t)
    {
      if t in w.j.s.hasId {
        PartPartly(w, st, t);
      }
    }
    MapsDuring(w, st, laters);
    forall t | t in w.arch
      ensures Whole(w, st.maps, st.db, t)
    {
      PartWhole(w, st, t, laters[t]);
    }
    forall key | key in byId && key !in w.db0.byId
      ensures exists x :: Stands(w, st.maps, key, byId[key], x)
    {
      PatchedStands(w, st, laters, written, byId, key);
    }
    PatchedKept(w, st, st.maps, byId);
  }

  lemma PatchedKept(w: World, st: State, maps: IdMaps, byId: map<Key, Row>)
    requires byId.Keys == st.db.byId.Keys && NewRowsStand(w, maps, byId, Filling)
    requires OldRowsKept(w, st.db) && Consistent(st.db)
    requires forall key :: key in w.db0.byId ==> key in byId && byId[key] == w.db0.byId[key]
    requires forall t :: t in maps ==> MapsInto(w, t, maps[t], st.db.byId)
    requires forall n :: n in st.db.natural && n !in w.db0.natural ==> FromArchive(w, n)
    requires forall t :: t in w.arch ==> Whole(w, maps, st.db, t)
    requires forall t :: t !in w.arch ==> NotYet(w, maps, st.db, t)
    ensures During(w, maps, st.db.(byId := byId), Filling)
  {
    var db := st.db.(byId := byId);
    forall t | t in w.arch
      ensures Reaches(w, maps, db, t, Filling)
    {
      WholeSame(w, maps, st.db, db, t);
    }
    forall t | t in maps
      ensures MapsInto(w, t, maps[t], byId)
    {
      SameKeysMap(w, t, maps[t], st.db.byId, byId);
    }
    assert forall t :: PlainRows(db, t) == PlainRows(st.db, t);
    Assembled(w, maps, db, Filling);
  }

  lemma WholeSame(w: World, maps: IdMaps, db: Db, db': Db, t: string)
    requires t in w.arch && Whole(w, maps, db, t) && db'.plain == db.plain
    ensures Whole(w, maps, db', t)
  {
    assert PlainRows(db', t) == PlainRows(db, t);
  }

  lemma SameKeysMap(w: World, t: string, m: map<int, int>, byId: map<Key, Row>, byId': map<Key, Row>)
    requires MapsInto(w, t, m, byId) && byId'.Keys == byId.Keys
    ensures MapsInto(w, t, m, byId')
  {
  }

  lemma PatchedStands(w: World, st: State, laters: map<string, set<string>>, written: set<DeferredRef>,
                      byId: map<Key, Row>, key: Key)
    requires SoundWorld(w) && Parts(w, st, laters) && InOrder(w, laters) && Patched(w, st, laters, written, byId)
    requires key in byId && key !in w.db0.byId
    ensures exists x :: Stands(w, st.maps, key, byId[key], x)
  {
    var t := key.table;
    assert Part(w, st, t, laters[t]);
    var i := RowBehind(w, st, t, AllRows(w.arch[t]), laters[t], key);
    PatchedOrigin(w, st, t, written, byId, key, i);
  }

  lemma PatchedOrigin(w: World, st: State, t: string, written: set<DeferredRef>, byId: map<Key, Row>, key: Key, i: int)
    requires t in w.arch && 0 <= i < |w.arch[t]| && RowPatched(w, st, t, w.arch[t][i], After(w, t), written, byId)
    requires !Reused(w, t, w.arch[t][i]) && key == Key(t, st.maps[t][IdOf(w.arch[t][i])])
    ensures key in byId && exists x :: Stands(w, st.maps, key, byId[key], x)
  {
    assert Stands(w, st.maps, key, byId[key], Origin(i, OpenAfter(w, st, t, w.arch[t][i], After(w, t), written)));
  }

  // ------------------------------------------------------- the writes of a run

  /** A row about to be inserted under the next id. */
  lemma FreshArises(w: World, st: State, table: string, i: nat)
    requires SoundWorld(w) && table in w.arch && table in w.j.s.hasId && table in st.maps && i < |w.arch[table]|
    requires During(w, st.maps, st.db, Inserting(table, i)) && IdOf(w.arch[table][i]) !in st.maps[table]
    requires !Reused(w, table, w.arch[table][i]) && Renamed(w.j.o, table, w.arch[table][i]).Some?
    ensures var r, id := w.arch[table][i], NextId(st.db, table);
            var x := Write(st.maps, st.db, table, i, id, Waiting(w, table, r));
            Arises(w, x) && Written(w, x) == Image(w.j, Mapped(st, table, IdOf(r), id), table, r, id, x.open)
  {
    var r, id := w.arch[table][i], NextId(st.db, table);
    assert SoundTable(w.j, table, w.arch[table]) && SoundRefs(w.j, table, r);
    ImageFrame(w.j, Mapped(st, table, IdOf(r), id), st.maps, table, r, id, Waiting(w, table, r));
  }

  /** A row whose next deferred reference is about to be filled in. */
  lemma PatchArises(w: World, st: State, laters: map<string, set<string>>, written: set<DeferredRef>,
                    byId: map<Key, Row>, d: DeferredRef)
    returns (x: Write)
    requires SoundWorld(w) && Parts(w, st, laters) && InOrder(w, laters) && laters.Keys == w.arch.Keys
    requires Patched(w, st, laters, written, byId) && d in st.deferred && Key(d.table, d.id) in byId
    ensures x.db == st.db.(byId := byId) && x.table == d.table
    ensures Arises(w, x) && Written(w, x) == PatchOne(st, d, byId)[Key(d.table, d.id)]
  {
    PatchesDuring(w, st, laters, written, byId);
    PatchStep(w, st, laters, written, byId, d);
    var i := DeferredRow(w, st, laters, d);
    x := PatchWrite(w, st, d.table, written + {d}, PatchOne(st, d, byId), st.db.(byId := byId), d, i);
  }

  lemma PatchWrite(w: World, st: State, t: string, written: set<DeferredRef>, patched: map<Key, Row>, db: Db,
                   d: DeferredRef, i: int) returns (x: Write)
    requires During(w, st.maps, db, Filling) && t in w.arch && t in w.j.s.hasId && 0 <= i < |w.arch[t]|
    requires d.table == t && DeferredBy(w, st, t, w.arch[t][i], After(w, t), d)
    requires RowPatched(w, st, t, w.arch[t][i], After(w, t), written, patched)
    ensures x.db == db && x.table == t && Arises(w, x) && Key(t, d.id) in patched
            && Written(w, x) == patched[Key(t, d.id)]
  {
    x := Write(st.maps, db, t, i, d.id, OpenAfter(w, st, t, w.arch[t][i], After(w, t), written));
  }
}
