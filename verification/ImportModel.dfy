/**
 What importing a contest archive means (internal/contestarchive/archive.go and
 import.go): which columns hold references, and what an archived row becomes.
 */
module ImportModel {
  import opened Common

  /** A JSON value: what matters is whether it is null, an id or anything else. */
  datatype Value = Null | Num(n: int) | Text(s: string)

  type Row = map<string, Value>

  /**
   The exported tables in insertion order, the columns holding an id with its table, and those
   naming an administrator.
   */
  datatype Catalog = Catalog(order: seq<string>, refs: map<string, string>, adminRefs: set<string>)

  /** References are not administrators, nor any of the columns the import sets itself. */
  ghost predicate Sound(k: Catalog) {
    k.refs.Keys !! k.adminRefs + {"id", "name", "status"}
  }

  datatype Options = Options(name: string, taskSuffix: string, status: string)

  /**
   The columns of every table (true when they can be inserted), the tables with an identity id,
   the columns that may not be null, and those of them that have no default.
   */
  datatype Schema = Schema(columns: map<string, map<string, bool>>, hasId: set<string>,
                           notNull: map<string, set<string>>, noDefault: map<string, set<string>>)

  /** What an import works with. */
  datatype Job = Job(k: Catalog, s: Schema, o: Options)

  /** A row of a table with ids. */
  datatype Key = Key(table: string, id: int)

  datatype DeferredRef = DeferredRef(table: string, column: string, target: string, id: int, was: int)

  type IdMaps = map<string, map<int, int>>

  /** A natural key: the username of a user or the code of a team. */
  datatype Natural = Natural(table: string, key: string)

  // ------------------------------------------------------------------- rows

  /** The archived id of a row (0 when it has none). */
  function IdOf(r: Row): int {
    if "id" in r && r["id"].Num? then r["id"].n else 0
  }

  /** The column by which existing rows are reused. */
  function KeyColumn(table: string): Option<string> {
    if table == "users" then Some("username") else if table == "teams" then Some("code") else None
  }

  function NaturalOf(table: string, r: Row): Option<Natural> {
    match KeyColumn(table)
    case None => None
    case Some(c) => if c in r && r[c].Text? then Some(Natural(table, r[c].s)) else None
  }

  /** The new name and status of the contest, the suffix of the task names. */
  function Renamed(o: Options, table: string, r: Row): Option<Row> {
    if table == "contests" then Some(r["name" := Text(o.name)]["status" := Text(o.status)])
    else if table == "tasks" then
      if "name" in r && r["name"].Text? then Some(r["name" := Text(r["name"].s + o.taskSuffix)]) else None
    else Some(r)
  }

  /** The row before its references are rewritten. */
  function Prepared(j: Job, table: string, r: Row, id: int): Row
    requires Renamed(j.o, table, r).Some?
  {
    var q := Renamed(j.o, table, r).value;
    if table in j.s.hasId then q["id" := Num(id)] else q
  }

  /** The image of an archived id. */
  function Resolve(maps: IdMaps, target: string, was: int): Value {
    if target in maps && was in maps[target] then Num(maps[target][was]) else Null
  }

  /** A cell after the import; `open` while it waits for a table imported later. */
  function Cell(k: Catalog, maps: IdMaps, c: string, v: Value, open: bool): Value {
    if c in k.adminRefs then Null
    else if c !in k.refs || v == Null then v
    else if open || !v.Num? then Null
    else Resolve(maps, k.refs[c], v.n)
  }

  function Rewritten(k: Catalog, maps: IdMaps, r: Row, open: set<string>): (r': Row)
    ensures r'.Keys == r.Keys
  {
    map c | c in r :: Cell(k, maps, c, r[c], c in open)
  }

  predicate Insertable(s: Schema, table: string, c: string) {
    table in s.columns && c in s.columns[table] && s.columns[table][c]
  }

  /** The row as the database stores it: generated columns are left out. */
  function Project(s: Schema, table: string, r: Row): Row {
    map c | c in r && Insertable(s, table, c) :: r[c]
  }

  function ColumnsIn(m: map<string, set<string>>, table: string): set<string> { if table in m then m[table] else {} }

  /** The row leaves no column empty that must be filled. */
  predicate Complete(s: Schema, table: string, row: Row) {
    && (forall c :: c in row && c in ColumnsIn(s.notNull, table) ==> row[c] != Null)
    && ColumnsIn(s.noDefault, table) <= row.Keys
  }

  /** The columns of a row that refer to a table still to be imported. */
  function Forward(k: Catalog, table: string, r: Row, later: set<string>): set<string> {
    set c | c in r && c in k.refs && r[c].Num? && k.refs[c] in later && k.refs[c] != table
  }

  /** What is stored for an archived row whose columns `open` are still unresolved. */
  function Image(j: Job, maps: IdMaps, table: string, r: Row, id: int, open: set<string>): Row
    requires Renamed(j.o, table, r).Some?
  {
    Project(j.s, table, Rewritten(j.k, maps, Prepared(j, table, r, id), open))
  }

  /** A rename or a new id never touches a reference. */
  lemma RefsKept(j: Job, table: string, r: Row, id: int, c: string)
    requires Sound(j.k) && Renamed(j.o, table, r).Some? && c in j.k.refs
    ensures var q := Prepared(j, table, r, id);
            (c in q <==> c in r) && (c in r ==> q[c] == r[c])
  {
  }

  /** An image depends only on the maps of the tables its resolved references point to. */
  lemma ImageFrame(j: Job, maps: IdMaps, maps': IdMaps, table: string, r: Row, id: int, open: set<string>)
    requires Sound(j.k) && Renamed(j.o, table, r).Some?
    requires forall c :: c in r && c in j.k.refs && c !in open && r[c].Num? ==>
               Resolve(maps, j.k.refs[c], r[c].n) == Resolve(maps', j.k.refs[c], r[c].n)
    ensures Image(j, maps, table, r, id, open) == Image(j, maps', table, r, id, open)
  {
    var q := Prepared(j, table, r, id);
    forall c | c in q
      ensures Cell(j.k, maps, c, q[c], c in open) == Cell(j.k, maps', c, q[c], c in open)
    {
      if c in j.k.refs {
        RefsKept(j, table, r, id, c);
      }
    }
    assert Rewritten(j.k, maps, q, open) == Rewritten(j.k, maps', q, open);
  }

  /** Filling in one reference; one that cannot be resolved stays null. */
  lemma ImageFill(j: Job, maps: IdMaps, table: string, r: Row, id: int, open: set<string>, c: string)
    requires Sound(j.k) && Renamed(j.o, table, r).Some? && c in r && c in j.k.refs && r[c].Num?
             && Insertable(j.s, table, c)
    ensures var a, b := Image(j, maps, table, r, id, open), Image(j, maps, table, r, id, open - {c});
            var v := Resolve(maps, j.k.refs[c], r[c].n);
            a[c := v] == b && (v == Null ==> a == b)
  {
    RefsKept(j, table, r, id, c);
    var a, b := Image(j, maps, table, r, id, open), Image(j, maps, table, r, id, open - {c});
    assert a.Keys == b.Keys && c in a;
    assert forall d :: d in a && d != c ==> a[d] == b[d];
    assert b[c] == Resolve(maps, j.k.refs[c], r[c].n);
  }

  /** The references of a row wait for the same tables before and after it is prepared. */
  lemma ForwardPrepared(j: Job, table: string, r: Row, id: int, later: set<string>)
    requires Sound(j.k) && Renamed(j.o, table, r).Some?
    ensures Forward(j.k, table, Prepared(j, table, r, id), later) == Forward(j.k, table, r, later)
  {
    forall c | c in j.k.refs
      ensures c in Forward(j.k, table, Prepared(j, table, r, id), later) <==> c in Forward(j.k, table, r, later)
    {
      RefsKept(j, table, r, id, c);
    }
  }

  lemma ForwardSelf(k: Catalog, table: string, r: Row, later: set<string>)
    ensures Forward(k, table, r, later - {table}) == Forward(k, table, r, later)
  {
  }

  /** The columns a batch inserts: those of its first row that can be inserted. */
  function Names(j: Job, table: string, r: Row, id: int): set<string>
    requires Renamed(j.o, table, r).Some?
  {
    set c | c in Prepared(j, table, r, id) && Insertable(j.s, table, c)
  }

  /** Rows with the same columns insert the same columns. */
  lemma SameNames(j: Job, table: string, r: Row, id: int, r': Row, id': int)
    requires r.Keys == r'.Keys && Renamed(j.o, table, r).Some? && Renamed(j.o, table, r').Some?
    ensures Names(j, table, r, id) == Names(j, table, r', id')
  {
    assert Prepared(j, table, r, id).Keys == Prepared(j, table, r', id').Keys;
  }

  /** Every reference is null or an id. */
  predicate RefsAreIds(k: Catalog, r: Row) {
    forall c :: c in r && c in k.refs ==> r[c] == Null || r[c].Num?
  }
}
