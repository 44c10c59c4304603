/**
 The constraints of the database that never refuse a row of an import: foreign keys over one
 column or several, unique constraints, and checks of a row.
 */
module ImportConstraints {
  import opened Common
  import opened ImportModel
  import opened ImportState
  import opened ImportResult
  import opened ImportWrites

  /** FOREIGN KEY: every reference of a row is to a row that is there. */
  function ForeignKeys(k: Catalog): Constraints {
    (db: Db, t: string, row: Row) => forall c :: c in row && c in k.refs && row[c].Num? ==>
      Key(k.refs[c], row[c].n) in db.byId
  }

  /** No foreign key over one column refuses a row, at any moment of any import. */
  lemma ForeignKeysAccept(w: World)
    requires Sound(w.j.k)
    ensures Accepting(w, ForeignKeys(w.j.k))
  {
    forall x | Arises(w, x)
      ensures ForeignKeys(w.j.k)(x.db, x.table, Written(w, x))
    {
      forall c | c in Written(w, x) && c in w.j.k.refs && Written(w, x)[c].Num?
        ensures Key(w.j.k.refs[c], Written(w, x)[c].n) in x.db.byId
      {
        DuringMaps(w, x.maps, x.db, PhaseOf(w, x));
        ReferenceFound(w, x.maps, x.db, x.table, w.arch[x.table][x.i], x.id, x.open, c);
      }
    }
  }

  /** A reference that is written is the image of an archived id, which is there. */
  lemma ReferenceFound(w: World, maps: IdMaps, db: Db, table: string, r: Row, id: int, open: set<string>, c: string)
    requires Sound(w.j.k) && Renamed(w.j.o, table, r).Some?
             && forall t :: t in maps ==> MapsInto(w, t, maps[t], db.byId)
    requires var row := Image(w.j, maps, table, r, id, open); c in row && c in w.j.k.refs && row[c].Num?
    ensures Key(w.j.k.refs[c], Image(w.j, maps, table, r, id, open)[c].n) in db.byId
  {
    RefsKept(w.j, table, r, id, c);
  }

  predicate Full(row: Row, cols: set<string>) { forall c :: c in cols ==> c in row && row[c] != Null }

  predicate Differ(a: Row, b: Row, cols: set<string>) {
    exists c :: c in cols && (c !in a || c !in b || a[c] != b[c])
  }

  /** UNIQUE: no other row of the table has the same values in these columns; rows with an empty one are left out. */
  function Unique(table: string, cols: set<string>): Constraints {
    (db: Db, t: string, row: Row) => t == table && "id" in row && Full(row, cols) ==>
      forall key :: key in db.byId && key.table == table && row["id"] != Num(key.id) ==>
        Differ(db.byId[key], row, cols)
  }

  /** The same for a table without ids. */
  function UniquePlain(table: string, cols: set<string>): Constraints {
    (db: Db, t: string, row: Row) => t == table && Full(row, cols) ==>
      forall i :: 0 <= i < |PlainRows(db, t)| ==> Differ(PlainRows(db, t)[i], row, cols)
  }

  /** What an archived row has in a column, renamed but with its archived references; Null when it has nothing. */
  function ValueAt(w: World, table: string, r: Row, c: string): Value {
    match Renamed(w.j.o, table, r)
    case Some(q) => if c in q then q[c] else Null
    case None => Null
  }

  /** The archive has no two rows to store with the same values. */
  ghost predicate TuplesApart(w: World, table: string, cols: set<string>)
    requires table in w.arch
  {
    var rows := w.arch[table];
    forall i, j :: 0 <= i < |rows| && 0 <= j < |rows| && i != j && !Reused(w, table, rows[i])
                   && !Reused(w, table, rows[j]) ==>
      TupleDiffers(w, table, rows[i], rows[j], cols)
  }

  ghost predicate TupleDiffers(w: World, table: string, r: Row, r': Row, cols: set<string>) {
    exists c :: c in cols && (ValueAt(w, table, r, c) == Null || ValueAt(w, table, r, c) != ValueAt(w, table, r', c))
  }

  lemma TuplesDiffer(w: World, table: string, cols: set<string>, i: nat, j: nat)
    requires table in w.arch && i < |w.arch[table]| && j < |w.arch[table]| && i != j && TuplesApart(w, table, cols)
    requires !Reused(w, table, w.arch[table][i]) && !Reused(w, table, w.arch[table][j])
    ensures TupleDiffers(w, table, w.arch[table][i], w.arch[table][j], cols)
  {
  }

  /** In the rows of the database every reference is to a row that is there. */
  ghost predicate RefersHere(k: Catalog, db: Db, row: Row) {
    forall c :: c in row && c in k.refs && row[c].Num? ==> Key(k.refs[c], row[c].n) in db.byId
  }

  /**
   Nobody can have the same values yet: one column refers to rows that are always new, or the values
   of the others are new.
   */
  ghost predicate NewTuple(w: World, table: string, r: Row, cols: set<string>, there: Row) {
    || (RefersHere(w.j.k, w.db0, there) && exists c :: c in cols && c in w.j.k.refs && KeyColumn(w.j.k.refs[c]).None?)
    || (exists c :: c in cols && c !in w.j.k.refs && NewValue(there, c, ValueAt(w, table, r, c)))
  }

  predicate NewValue(there: Row, c: string, v: Value) { v == Null || c !in there || there[c] != v }

  /** The columns whose values the import takes from the archive. */
  ghost predicate Plainly(k: Catalog, cols: set<string>) {
    "id" !in k.refs && "id" !in k.adminRefs && "id" !in cols && cols !! k.adminRefs
  }

  /** What is written in a column: the archived value, or the image of the row it refers to. */
  lemma ValueWritten(w: World, maps: IdMaps, table: string, r: Row, id: int, open: set<string>, c: string)
    requires Sound(w.j.k) && Renamed(w.j.o, table, r).Some? && c !in w.j.k.adminRefs && c != "id"
    ensures var row, v := Image(w.j, maps, table, r, id, open), ValueAt(w, table, r, c);
            c in row && row[c] != Null ==>
              if c in w.j.k.refs then v.Num? && Resolve(maps, w.j.k.refs[c], v.n) == row[c] else row[c] == v
  {
  }

  lemma IdWritten(w: World, maps: IdMaps, table: string, r: Row, id: int, open: set<string>)
    requires Renamed(w.j.o, table, r).Some? && table in w.j.s.hasId && "id" !in w.j.k.refs && "id" !in w.j.k.adminRefs
    ensures var row := Image(w.j, maps, table, r, id, open); "id" in row ==> row["id"] == Num(id)
  {
  }

  /** Images of rows that differ in the archive differ, since no two archived ids share an image. */
  lemma ImagesDiffer(w: World, maps: IdMaps, byId: map<Key, Row>, table: string, r: Row, id: int, open: set<string>,
                     r': Row, id': int, open': set<string>, cols: set<string>)
    requires Sound(w.j.k) && Plainly(w.j.k, cols) && Renamed(w.j.o, table, r).Some? && Renamed(w.j.o, table, r').Some?
    requires forall t :: t in maps ==> MapsInto(w, t, maps[t], byId)
    requires Full(Image(w.j, maps, table, r, id, open), cols)
    requires TupleDiffers(w, table, r, r', cols)
    ensures Differ(Image(w.j, maps, table, r', id', open'), Image(w.j, maps, table, r, id, open), cols)
  {
    var c :| c in cols && (ValueAt(w, table, r, c) == Null || ValueAt(w, table, r, c) != ValueAt(w, table, r', c));
    ValueWritten(w, maps, table, r, id, open, c);
    ValueWritten(w, maps, table, r', id', open', c);
    if c in w.j.k.refs {
      assert MapsInto(w, w.j.k.refs[c], maps[w.j.k.refs[c]], byId);
    }
  }

  /** No old row has the values of a new one. */
  lemma OldDiffers(w: World, maps: IdMaps, byId: map<Key, Row>, table: string, r: Row, id: int, open: set<string>,
                   cols: set<string>, there: Row)
    requires Sound(w.j.k) && Plainly(w.j.k, cols) && Renamed(w.j.o, table, r).Some?
    requires forall t :: t in maps ==> MapsInto(w, t, maps[t], byId)
    requires Full(Image(w.j, maps, table, r, id, open), cols) && NewTuple(w, table, r, cols, there)
    ensures Differ(there, Image(w.j, maps, table, r, id, open), cols)
  {
    var row := Image(w.j, maps, table, r, id, open);
    if c :| c in cols && c !in w.j.k.refs && NewValue(there, c, ValueAt(w, table, r, c)) {
      ValueWritten(w, maps, table, r, id, open, c);
      assert c !in there || c !in row || there[c] != row[c];
    } else {
      var c :| c in cols && c in w.j.k.refs && KeyColumn(w.j.k.refs[c]).None?;
      ValueWritten(w, maps, table, r, id, open, c);
      NewTarget(w, maps, byId, w.j.k.refs[c], ValueAt(w, table, r, c).n);
      assert c !in there || c !in row || there[c] != row[c];
    }
  }

  /** In a table whose rows are never taken over every image is a new row. */
  lemma NewTarget(w: World, maps: IdMaps, byId: map<Key, Row>, t: string, a: int)
    requires t in maps && a in maps[t] && MapsInto(w, t, maps[t], byId) && KeyColumn(t).None?
    ensures Key(t, maps[t][a]) !in w.db0.byId
  {
    var i :| 0 <= i < |w.arch[t]| && IdOf(w.arch[t][i]) == a;
    assert !Reused(w, t, w.arch[t][i]);
  }

  /** A unique constraint never refuses a row, if the archive keeps it and brings new values. */
  lemma UniqueAccepts(w: World, table: string, cols: set<string>)
    requires Sound(w.j.k) && Plainly(w.j.k, cols) && table in w.arch && table in w.j.s.hasId
             && TuplesApart(w, table, cols)
    requires forall i, key :: 0 <= i < |w.arch[table]| && !Reused(w, table, w.arch[table][i]) &&
                              key in w.db0.byId && key.table == table ==>
               NewTuple(w, table, w.arch[table][i], cols, w.db0.byId[key])
    ensures Accepting(w, Unique(table, cols))
  {
    forall x | Arises(w, x)
      ensures Unique(table, cols)(x.db, x.table, Written(w, x))
    {
      var row := Written(w, x);
      if x.table == table && "id" in row && Full(row, cols) {
        IdWritten(w, x.maps, table, w.arch[table][x.i], x.id, x.open);
        forall key | key in x.db.byId && key.table == table && row["id"] != Num(key.id)
          ensures Differ(x.db.byId[key], row, cols)
        {
          OtherDiffers(w, x, cols, key);
        }
      }
    }
  }

  lemma OtherDiffers(w: World, x: Write, cols: set<string>, key: Key)
    requires Sound(w.j.k) && Plainly(w.j.k, cols) && Arises(w, x) && x.table in w.j.s.hasId
             && TuplesApart(w, x.table, cols)
    requires key in x.db.byId && key.table == x.table && key.id != x.id && Full(Written(w, x), cols)
    requires key in w.db0.byId ==> NewTuple(w, x.table, w.arch[x.table][x.i], cols, w.db0.byId[key])
    ensures Differ(x.db.byId[key], Written(w, x), cols)
  {
    var rows := w.arch[x.table];
    DuringMaps(w, x.maps, x.db, PhaseOf(w, x));
    if key in w.db0.byId {
      OldDiffers(w, x.maps, x.db.byId, x.table, rows[x.i], x.id, x.open, cols, w.db0.byId[key]);
    } else {
      var o := DuringRow(w, x.maps, x.db, PhaseOf(w, x), key);
      TuplesDiffer(w, x.table, cols, x.i, o.i);
      ImagesDiffer(w, x.maps, x.db.byId, x.table, rows[x.i], x.id, x.open, rows[o.i], key.id, o.open, cols);
    }
  }

  lemma UniquePlainAccepts(w: World, table: string, cols: set<string>)
    requires Sound(w.j.k) && Plainly(w.j.k, cols) && table in w.arch && table !in w.j.s.hasId
             && TuplesApart(w, table, cols)
    requires KeyColumn(table).None?
    requires forall i, k :: 0 <= i < |w.arch[table]| && 0 <= k < |PlainRows(w.db0, table)| ==>
               NewTuple(w, table, w.arch[table][i], cols, PlainRows(w.db0, table)[k])
    ensures Accepting(w, UniquePlain(table, cols))
  {
    forall x | Arises(w, x)
      ensures UniquePlain(table, cols)(x.db, x.table, Written(w, x))
    {
      if x.table == table && Full(Written(w, x), cols) {
        forall k | 0 <= k < |PlainRows(x.db, table)|
          ensures Differ(PlainRows(x.db, table)[k], Written(w, x), cols)
        {
          OtherPlainDiffers(w, x, cols, k);
        }
      }
    }
  }

  lemma PlainRow(w: World, maps: IdMaps, stored: seq<Row>, t: string, n: nat, i: nat)
    requires t in w.arch && PlainStands(w, maps, stored, t, n) && i < n
    ensures i < |w.arch[t]| && Renamed(w.j.o, t, w.arch[t][i]).Some? && |PlainRows(w.db0, t)| + i < |stored|
    ensures stored[|PlainRows(w.db0, t)| + i] == Image(w.j, maps, t, w.arch[t][i], 0, {})
  {
  }

  lemma PlainOld(w: World, maps: IdMaps, stored: seq<Row>, t: string, n: nat, k: nat)
    requires PlainStands(w, maps, stored, t, n) && k < |PlainRows(w.db0, t)|
    ensures k < |stored| && stored[k] == PlainRows(w.db0, t)[k]
  {
    assert stored[k] == stored[..|PlainRows(w.db0, t)|][k];
  }

  lemma PlainCount(w: World, maps: IdMaps, stored: seq<Row>, t: string, n: nat)
    requires t in w.arch && PlainStands(w, maps, stored, t, n)
    ensures n <= |w.arch[t]| && |stored| == |PlainRows(w.db0, t)| + n
  {
  }

  lemma PlainSoFar(w: World, x: Write)
    requires Arises(w, x) && x.table !in w.j.s.hasId
    ensures PlainStands(w, x.maps, PlainRows(x.db, x.table), x.table, x.i)
  {
    DuringReaches(w, x.maps, x.db, PhaseOf(w, x), x.table);
  }

  lemma OtherPlainDiffers(w: World, x: Write, cols: set<string>, k: nat)
    requires Sound(w.j.k) && Plainly(w.j.k, cols) && Arises(w, x) && x.table !in w.j.s.hasId
             && TuplesApart(w, x.table, cols)
    requires KeyColumn(x.table).None?
    requires k < |PlainRows(x.db, x.table)| && Full(Written(w, x), cols)
    requires forall i :: 0 <= i < |PlainRows(w.db0, x.table)| ==>
               NewTuple(w, x.table, w.arch[x.table][x.i], cols, PlainRows(w.db0, x.table)[i])
    ensures Differ(PlainRows(x.db, x.table)[k], Written(w, x), cols)
  {
    var rows, base, stored := w.arch[x.table], PlainRows(w.db0, x.table), PlainRows(x.db, x.table);
    DuringMaps(w, x.maps, x.db, PhaseOf(w, x));
    PlainSoFar(w, x);
    if k < |base| {
      PlainOld(w, x.maps, stored, x.table, x.i, k);
      OldDiffers(w, x.maps, x.db.byId, x.table, rows[x.i], 0, {}, cols, base[k]);
    } else {
      PlainCount(w, x.maps, stored, x.table, x.i);
      NewPlainDiffers(w, x, cols, k - |base|);
    }
  }

  lemma NewPlainDiffers(w: World, x: Write, cols: set<string>, i: nat)
    requires Sound(w.j.k) && Plainly(w.j.k, cols) && Arises(w, x) && x.table !in w.j.s.hasId && i < x.i
    requires TuplesApart(w, x.table, cols) && KeyColumn(x.table).None? && Full(Written(w, x), cols)
    ensures |PlainRows(w.db0, x.table)| + i < |PlainRows(x.db, x.table)|
    ensures Differ(PlainRows(x.db, x.table)[|PlainRows(w.db0, x.table)| + i], Written(w, x), cols)
  {
    var rows := w.arch[x.table];
    PlainSoFar(w, x);
    PlainRow(w, x.maps, PlainRows(x.db, x.table), x.table, x.i, i);
    TuplesDiffer(w, x.table, cols, x.i, i);
    DuringMaps(w, x.maps, x.db, PhaseOf(w, x));
    ImagesDiffer(w, x.maps, x.db.byId, x.table, rows[x.i], 0, {}, rows[i], 0, {}, cols);
  }

  /** Every value of a key column is in the index of natural keys. */
  ghost predicate Indexed(db: Db, table: string, c: string) {
    forall key :: key in db.byId && key.table == table && c in db.byId[key] && db.byId[key][c].Text? ==>
      Natural(table, db.byId[key][c].s) in db.natural
  }

  /** Since existing users and teams are taken over, their unique keys never refuse a row. */
  lemma KeysAccept(w: World, table: string, c: string)
    requires SoundWorld(w) && table in w.arch && KeyColumn(table) == Some(c) && Indexed(w.db0, table, c)
    requires forall i :: 0 <= i < |w.arch[table]| ==> NaturalOf(table, w.arch[table][i]).Some?
    requires Plainly(w.j.k, {c}) && c !in w.j.k.refs
    ensures Accepting(w, Unique(table, {c}))
  {
    var rows := w.arch[table];
    assert SoundTable(w.j, table, rows);
    assert forall i :: 0 <= i < |rows| ==> ValueAt(w, table, rows[i], c) == rows[i][c];
    forall i, j | 0 <= i < |rows| && 0 <= j < |rows| && i != j
      ensures TupleDiffers(w, table, rows[i], rows[j], {c})
    {
      assert NaturalOf(table, rows[i]) != NaturalOf(table, rows[j]);
      assert c in {c} && ValueAt(w, table, rows[i], c) != ValueAt(w, table, rows[j], c);
    }
    forall i, key | 0 <= i < |rows| && !Reused(w, table, rows[i]) && key in w.db0.byId && key.table == table
      ensures NewTuple(w, table, rows[i], {c}, w.db0.byId[key])
    {
      assert c in {c};
    }
    UniqueAccepts(w, table, {c});
  }

  /** A constraint of a table that is not archived is never asked. */
  lemma AbsentAccepts(w: World, table: string, cols: set<string>)
    requires table !in w.arch
    ensures Accepting(w, Unique(table, cols)) && Accepting(w, UniquePlain(table, cols))
  {
  }

  // ------------------------------------------ foreign keys over several columns

  predicate Agree(a: Row, b: Row, cols: set<string>) { forall c :: c in cols ==> c in a && c in b && a[c] == b[c] }

  predicate HasRow(db: Db, t: string, row: Row, cols: set<string>) {
    || (exists key :: key in db.byId && key.table == t && Agree(db.byId[key], row, cols))
    || (exists i :: 0 <= i < |PlainRows(db, t)| && Agree(PlainRows(db, t)[i], row, cols))
  }

  /** FOREIGN KEY over columns of the same names: a row with none of them empty has a partner in the target. */
  function ForeignKey(table: string, target: string, cols: set<string>): Constraints {
    (db: Db, t: string, row: Row) => t == table && Full(row, cols) ==> HasRow(db, target, row, cols)
  }

  /** An archived row has the same values, none of them waiting for a later table. */
  ghost predicate Partner(w: World, table: string, r: Row, target: string, r': Row, cols: set<string>) {
    && !Reused(w, target, r') && cols !! Waiting(w, target, r')
    && forall c :: c in cols ==> Insertable(w.j.s, target, c) && ValueAt(w, target, r', c) == ValueAt(w, table, r, c)
  }

  lemma PartnerBy(w: World, table: string, r: Row, target: string, r': Row, cols: set<string>)
    requires KeyColumn(target).None? && Waiting(w, target, r') == {}
    requires forall c :: c in cols ==>
               Insertable(w.j.s, target, c) && ValueAt(w, target, r', c) == ValueAt(w, table, r, c)
    ensures Partner(w, table, r, target, r', cols)
  {
  }

  /** The archived rows keep the key. */
  ghost predicate KeepsKey(w: World, table: string, target: string, cols: set<string>)
    requires table in w.arch && target in w.arch
  {
    forall i :: 0 <= i < |w.arch[table]|
                && (forall c :: c in cols ==> ValueAt(w, table, w.arch[table][i], c) != Null) ==>
      exists k :: 0 <= k < |w.arch[target]| && Partner(w, table, w.arch[table][i], target, w.arch[target][k], cols)
  }

  /** What is stored in a column that does not wait. */
  lemma ValueStored(w: World, maps: IdMaps, table: string, r: Row, id: int, open: set<string>, c: string)
    requires Sound(w.j.k) && c !in w.j.k.adminRefs && c != "id" && c !in open && Insertable(w.j.s, table, c)
    requires ValueAt(w, table, r, c) != Null
    ensures Renamed(w.j.o, table, r).Some? && c in Image(w.j, maps, table, r, id, open)
    ensures var v := ValueAt(w, table, r, c);
            Image(w.j, maps, table, r, id, open)[c] ==
              if c !in w.j.k.refs then v else if v.Num? then Resolve(maps, w.j.k.refs[c], v.n) else Null
  {
  }

  /** The image of the partner agrees with the image of the row. */
  lemma PartnerAgrees(w: World, maps: IdMaps, table: string, r: Row, id: int, open: set<string>,
                      target: string, r': Row, id': int, open': set<string>, cols: set<string>)
    requires Sound(w.j.k) && Plainly(w.j.k, cols) && Renamed(w.j.o, table, r).Some? && Renamed(w.j.o, target, r').Some?
    requires Partner(w, table, r, target, r', cols) && open' <= Waiting(w, target, r')
    requires Full(Image(w.j, maps, table, r, id, open), cols)
    ensures Agree(Image(w.j, maps, target, r', id', open'), Image(w.j, maps, table, r, id, open), cols)
  {
    forall c | c in cols
      ensures var a, b := Image(w.j, maps, target, r', id', open'), Image(w.j, maps, table, r, id, open);
              c in a && c in b && a[c] == b[c]
    {
      ValueWritten(w, maps, table, r, id, open, c);
      ValueStored(w, maps, target, r', id', open', c);
    }
  }

  /** Of a row that is stored with some columns filled the archive fills them too. */
  lemma FullArchived(w: World, maps: IdMaps, table: string, r: Row, id: int, open: set<string>, cols: set<string>)
    requires Sound(w.j.k) && Plainly(w.j.k, cols) && Renamed(w.j.o, table, r).Some?
    requires Full(Image(w.j, maps, table, r, id, open), cols)
    ensures forall c :: c in cols ==> ValueAt(w, table, r, c) != Null
  {
    forall c | c in cols
      ensures ValueAt(w, table, r, c) != Null
    {
      ValueWritten(w, maps, table, r, id, open, c);
    }
  }

  /** The row stored for an archived one of a whole table. */
  lemma StoredRow(w: World, maps: IdMaps, db: Db, phase: Phase, t: string, k: nat) returns (key: Key, open: set<string>)
    requires SoundWorld(w) && During(w, maps, db, phase) && t in w.arch && t in w.j.s.hasId && Whole(w, maps, db, t)
    requires k < |w.arch[t]| && !Reused(w, t, w.arch[t][k])
    ensures key.table == t && key in db.byId && Renamed(w.j.o, t, w.arch[t][k]).Some?
            && open <= Waiting(w, t, w.arch[t][k])
    ensures db.byId[key] == Image(w.j, maps, t, w.arch[t][k], key.id, open)
  {
    DuringMaps(w, maps, db, phase);
    assert SoundTable(w.j, t, w.arch[t]) && MapsInto(w, t, maps[t], db.byId);
    key := Key(t, maps[t][IdOf(w.arch[t][k])]);
    var x := DuringRow(w, maps, db, phase, key);
    assert IdOf(w.arch[t][x.i]) == IdOf(w.arch[t][k]);
    assert x.i == k;
    open := x.open;
  }

  /** When a row is written the tables before its own are whole. */
  lemma EarlierWhole(w: World, x: Write, t: string)
    requires Arises(w, x) && t in w.arch && t != x.table && t !in After(w, x.table)
    ensures Whole(w, x.maps, x.db, t)
  {
    DuringReaches(w, x.maps, x.db, PhaseOf(w, x), t);
  }

  /**
   A foreign key over several columns to a table imported earlier never refuses a row, if the
   archived rows keep it.
   */
  lemma ForeignKeyAccepts(w: World, table: string, target: string, cols: set<string>)
    requires SoundWorld(w) && Plainly(w.j.k, cols) && table in w.arch && target in w.arch
             && KeepsKey(w, table, target, cols)
    requires target != table && target !in After(w, table)
    ensures Accepting(w, ForeignKey(table, target, cols))
  {
    forall x | Arises(w, x)
      ensures ForeignKey(table, target, cols)(x.db, x.table, Written(w, x))
    {
      if x.table == table && Full(Written(w, x), cols) {
        PartnerThere(w, x, target, cols);
      }
    }
  }

  lemma PartnerThere(w: World, x: Write, target: string, cols: set<string>)
    requires SoundWorld(w) && Plainly(w.j.k, cols) && Arises(w, x) && target in w.arch
    requires KeepsKey(w, x.table, target, cols) && target != x.table && target !in After(w, x.table)
    requires Full(Written(w, x), cols)
    ensures HasRow(x.db, target, Written(w, x), cols)
  {
    var r := w.arch[x.table][x.i];
    EarlierWhole(w, x, target);
    FullArchived(w, x.maps, x.table, r, x.id, x.open, cols);
    var k :| 0 <= k < |w.arch[target]| && Partner(w, x.table, r, target, w.arch[target][k], cols);
    if target in w.j.s.hasId {
      var key, open := StoredRow(w, x.maps, x.db, PhaseOf(w, x), target, k);
      PartnerAgrees(w, x.maps, x.table, r, x.id, x.open, target, w.arch[target][k], key.id, open, cols);
    } else {
      PlainPartner(w, x.maps, x.db, target, k, x.table, r, x.id, x.open, cols);
    }
  }

  lemma PlainPartner(w: World, maps: IdMaps, db: Db, target: string, k: nat, table: string, r: Row, id: int,
                     open: set<string>, cols: set<string>)
    requires Sound(w.j.k) && Plainly(w.j.k, cols) && Renamed(w.j.o, table, r).Some? && target in w.arch
    requires PlainStands(w, maps, PlainRows(db, target), target, |w.arch[target]|) && k < |w.arch[target]|
    requires Partner(w, table, r, target, w.arch[target][k], cols) && Full(Image(w.j, maps, table, r, id, open), cols)
    ensures HasRow(db, target, Image(w.j, maps, table, r, id, open), cols)
  {
    PlainRow(w, maps, PlainRows(db, target), target, |w.arch[target]|, k);
    PartnerAgrees(w, maps, table, r, id, open, target, w.arch[target][k], 0, {}, cols);
    assert Agree(PlainRows(db, target)[|PlainRows(w.db0, target)| + k], Image(w.j, maps, table, r, id, open), cols);
  }

  // ----------------------------------------------------------- checks of a row

  /** CHECK: a condition of the row alone. */
  function Checks(holds: (string, Row) -> bool): Constraints {
    (db: Db, t: string, row: Row) => holds(t, row)
  }

  /** Two rows that differ only in which rows they refer to, and in their ids. */
  ghost predicate Alike(k: Catalog, a: Row, b: Row) {
    && a.Keys == b.Keys
    && forall c :: c in a ==> if c in k.refs || c == "id" then a[c] == Null <==> b[c] == Null else a[c] == b[c]
  }

  /** The condition does not look at the ids themselves. */
  ghost predicate IgnoresIds(k: Catalog, holds: (string, Row) -> bool) {
    forall t, a, b :: Alike(k, a, b) ==> holds(t, a) == holds(t, b)
  }

  /** A cell as the archive has it, empty where the import leaves it empty. */
  ghost function ArchivedCell(w: World, c: string, v: Value, open: bool): Value {
    if c in w.j.k.adminRefs then Null
    else if c !in w.j.k.refs || v == Null then v
    else if open || !v.Num? || !Archived(w, w.j.k.refs[c], v.n) then Null
    else v
  }

  /** An archived row with its archived ids. */
  ghost function Shape(w: World, t: string, r: Row, open: set<string>): Row
    requires Renamed(w.j.o, t, r).Some?
  {
    var q := Prepared(w.j, t, r, IdOf(r));
    map c | c in q && Insertable(w.j.s, t, c) :: ArchivedCell(w, c, q[c], c in open)
  }

  /** The archived rows satisfy the condition, with any of the waiting references still empty. */
  ghost predicate KeepsChecks(w: World, holds: (string, Row) -> bool) {
    forall t, i, open :: t in w.arch && 0 <= i < |w.arch[t]| && KeptRow(w, t, w.arch[t][i], open) ==>
      holds(t, Shape(w, t, w.arch[t][i], open))
  }

  ghost predicate KeptRow(w: World, t: string, r: Row, open: set<string>) {
    !Reused(w, t, r) && Renamed(w.j.o, t, r).Some? && open <= Waiting(w, t, r)
  }

  /** A reference that does not wait is empty exactly when its target is not archived. */
  lemma ResolvedExactly(w: World, x: Write, c: string)
    requires SoundWorld(w) && Arises(w, x) && c in w.arch[x.table][x.i] && c in w.j.k.refs && c !in x.open
    requires w.arch[x.table][x.i][c].Num?
    ensures var t, a := w.j.k.refs[c], w.arch[x.table][x.i][c].n;
            Resolve(x.maps, t, a) == Null <==> !Archived(w, t, a)
  {
    var t, a := w.j.k.refs[c], w.arch[x.table][x.i][c].n;
    assert SoundTable(w.j, x.table, w.arch[x.table]) && SoundRefs(w.j, x.table, w.arch[x.table][x.i]);
    DuringMaps(w, x.maps, x.db, PhaseOf(w, x));
    if t in w.arch {
      if Updates(w, x) {
        DuringReaches(w, x.maps, x.db, Filling, t);
      } else {
        EarlierWhole(w, x, t);
      }
    }
    if t in x.maps {
      assert MapsInto(w, t, x.maps[t], x.db.byId);
    }
  }

  lemma WrittenAlike(w: World, x: Write)
    requires SoundWorld(w) && Arises(w, x) && "id" !in w.j.k.refs && "id" !in w.j.k.adminRefs
    ensures Alike(w.j.k, Written(w, x), Shape(w, x.table, w.arch[x.table][x.i], x.open))
  {
    var r := w.arch[x.table][x.i];
    var q, q' := Prepared(w.j, x.table, r, x.id), Prepared(w.j, x.table, r, IdOf(r));
    assert q.Keys == q'.Keys;
    forall c | c in q && c in w.j.k.refs && q[c].Num? && c !in x.open
      ensures Resolve(x.maps, w.j.k.refs[c], q[c].n) == Null <==> !Archived(w, w.j.k.refs[c], q[c].n)
      ensures q'[c] == q[c]
    {
      RefsKept(w.j, x.table, r, x.id, c);
      RefsKept(w.j, x.table, r, IdOf(r), c);
      ResolvedExactly(w, x, c);
    }
  }

  /** A check that does not look at ids never refuses a row, if the archived rows satisfy it. */
  lemma ChecksAccept(w: World, holds: (string, Row) -> bool)
    requires SoundWorld(w) && IgnoresIds(w.j.k, holds) && KeepsChecks(w, holds)
    requires "id" !in w.j.k.refs && "id" !in w.j.k.adminRefs
    ensures Accepting(w, Checks(holds))
  {
    forall x | Arises(w, x)
      ensures holds(x.table, Written(w, x))
    {
      assert KeptRow(w, x.table, w.arch[x.table][x.i], x.open);
      WrittenAlike(w, x);
    }
  }

  // ------------------------------------------------------------- all together

  function Every(cs: seq<Constraints>): Constraints {
    (db: Db, t: string, row: Row) => forall i :: 0 <= i < |cs| ==> cs[i](db, t, row)
  }

  ghost predicate AllAccepting(w: World, cs: seq<Constraints>) { forall i :: 0 <= i < |cs| ==> Accepting(w, cs[i]) }

  lemma EveryAccepts(w: World, cs: seq<Constraints>)
    requires AllAccepting(w, cs)
    ensures Accepting(w, Every(cs))
  {
  }

  lemma AllOf(w: World, cs: seq<Constraints>, ds: seq<Constraints>)
    requires AllAccepting(w, cs) && AllAccepting(w, ds)
    ensures AllAccepting(w, cs + ds)
  {
  }
}
