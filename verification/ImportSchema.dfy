/**
 The constraints of the real schema (internal/db/migrations), and an import that meets them all:
 an archive whose rows keep them is accepted by a database where its names are free.
 */
module ImportSchema {
  import opened Common
  import opened ImportModel
  import opened ImportState
  import opened ImportResult
  import opened ImportWrites
  import opened ImportConstraints
  import opened ContestImport
  import opened ImportCatalog

  /**
   A unique constraint: its table and a column referring to rows of the contest itself, by place,
   and the other columns.
   */
  datatype Uniqueness = Uniqueness(table: nat, column: nat, others: set<string>)

  /** The unique constraints and primary keys of the exported tables that hold within a contest. */
  const UNIQUES := [
    /* sites */ Uniqueness(1, 0, {"name"}), /* certificate_templates */ Uniqueness(2, 0, {}),
    /* tasks */ Uniqueness(5, 0, {"num"}), /* statements */ Uniqueness(6, 4, {"language"}),
    /* attachments */ Uniqueness(7, 4, {"filename"}), /* datasets */ Uniqueness(9, 4, {"description"}),
    /* managers */ Uniqueness(10, 5, {"filename"}), /* testcases */ Uniqueness(11, 5, {"codename"}),
    /* participations */ Uniqueness(12, 0, {"user_id"}), /* submission_files */ Uniqueness(17, 9, {"filename"}),
    /* tokens */ Uniqueness(18, 9, {}), /* submission_results */ Uniqueness(19, 9, {"dataset_id"}),
    /* evaluations */ Uniqueness(20, 9, {"dataset_id", "testcase_id"}),
    /* submission_flags */ Uniqueness(21, 9, {"kind", "reason"}),
    /* participation_task_scores */ Uniqueness(22, 8, {"task_id"})]

  /** The columns of these constraints, none of which the import sets itself. */
  const OTHERS := {"name", "num", "language", "filename", "description", "codename", "user_id", "dataset_id",
                   "testcase_id", "kind", "reason", "task_id"}

  predicate InContest(u: Uniqueness, columns: seq<string>, targets: seq<nat>, keyed: set<nat>, others: set<string>) {
    u.column < |columns| && u.column < |targets| && targets[u.column] !in keyed && u.others <= others
  }

  lemma CmsUniques()
    ensures forall n :: 0 <= n < |UNIQUES| ==>
              UNIQUES[n].table < 25 && InContest(UNIQUES[n], COLUMNS, TARGETS, {3, 4}, OTHERS)
  {
  }

  lemma CmsApart()
    ensures OTHERS !! CMS.adminRefs && "id" !in OTHERS && "id" !in CMS.refs && "id" !in CMS.adminRefs
    ensures CMS.refs.Keys !! CMS.adminRefs
  {
  }

  /** Only users and teams are taken over. */
  lemma CmsKeyed(t: nat)
    requires t < |CMS.order| && t !in {3, 4}
    ensures KeyColumn(CMS.order[t]).None?
  {
    CmsOrder();
    assert CMS.order[3] == "users" && CMS.order[4] == "teams";
  }

  function Columns(u: Uniqueness): set<string>
    requires u.column < |COLUMNS|
  {
    u.others + {COLUMNS[u.column]}
  }

  /**
   None of these constraints refuses a row, if the archived rows keep it: new rows of a contest refer
   to new rows, which no row of another contest does.
   */
  lemma CmsUniqueAccepts(w: World, n: nat)
    requires SoundWorld(w) && w.j.k == CMS && n < |UNIQUES| && UNIQUES[n].table < |CMS.order|
    requires UNIQUES[n].column < |COLUMNS| && CMS.order[UNIQUES[n].table] in w.arch
    requires var t := CMS.order[UNIQUES[n].table];
             && TuplesApart(w, t, Columns(UNIQUES[n]))
             && (forall key :: key in w.db0.byId && key.table == t ==> RefersHere(CMS, w.db0, w.db0.byId[key]))
             && (forall k :: 0 <= k < |PlainRows(w.db0, t)| ==> RefersHere(CMS, w.db0, PlainRows(w.db0, t)[k]))
    ensures var t, cols := CMS.order[UNIQUES[n].table], Columns(UNIQUES[n]);
            Accepting(w, if t in w.j.s.hasId then Unique(t, cols) else UniquePlain(t, cols))
  {
    CmsUniques();
    CmsColumns();
    CmsApart();
    CmsKeyed(TARGETS[UNIQUES[n].column]);
    NewInContest(w, CMS.order[UNIQUES[n].table], UNIQUES[n].others, COLUMNS[UNIQUES[n].column]);
  }

  lemma NewInContest(w: World, t: string, others: set<string>, c: string)
    requires SoundWorld(w) && t in w.arch && TuplesApart(w, t, others + {c}) && Plainly(w.j.k, others)
    requires c in w.j.k.refs && c != "id" && c !in w.j.k.adminRefs && KeyColumn(w.j.k.refs[c]).None?
    requires forall key :: key in w.db0.byId && key.table == t ==> RefersHere(w.j.k, w.db0, w.db0.byId[key])
    requires forall k :: 0 <= k < |PlainRows(w.db0, t)| ==> RefersHere(w.j.k, w.db0, PlainRows(w.db0, t)[k])
    ensures Accepting(w, if t in w.j.s.hasId then Unique(t, others + {c}) else UniquePlain(t, others + {c}))
  {
    var cols := others + {c};
    assert c in cols && SoundTable(w.j, t, w.arch[t]);
    if t in w.j.s.hasId {
      UniqueAccepts(w, t, cols);
    } else {
      UniquePlainAccepts(w, t, cols);
    }
  }

  /** The unique name of a contest refuses nothing, if no other contest has the name chosen for the import. */
  lemma ContestNameAccepts(w: World)
    requires w.j.k == CMS && "contests" in w.arch && "contests" in w.j.s.hasId && |w.arch["contests"]| == 1
    requires forall key :: key in w.db0.byId && key.table == "contests" && "name" in w.db0.byId[key] ==>
               w.db0.byId[key]["name"] != Text(w.j.o.name)
    ensures Accepting(w, Unique("contests", {"name"}))
  {
    NameColumn();
    UniqueAccepts(w, "contests", {"name"});
  }

  lemma NameColumn()
    ensures Sound(CMS) && Plainly(CMS, {"name"}) && "name" !in CMS.refs
  {
    CmsApart();
    CmsSound();
  }

  /** Nor does the unique name of a task, if the archived names differ and none is taken with its suffix. */
  lemma TaskNamesAccept(w: World)
    requires w.j.k == CMS && "tasks" in w.arch && "tasks" in w.j.s.hasId
    requires forall i, j :: 0 <= i < j < |w.arch["tasks"]| ==> NameOf(w.arch["tasks"][i]) != NameOf(w.arch["tasks"][j])
    requires forall i, key :: 0 <= i < |w.arch["tasks"]| && key in w.db0.byId && key.table == "tasks" ==>
               NameOf(w.db0.byId[key]) != NameOf(w.arch["tasks"][i]) + w.j.o.taskSuffix
    ensures Accepting(w, Unique("tasks", {"name"}))
  {
    NameColumn();
    var rows, suffix := w.arch["tasks"], w.j.o.taskSuffix;
    forall i, j | 0 <= i < |rows| && 0 <= j < |rows| && i != j
      ensures TupleDiffers(w, "tasks", rows[i], rows[j], {"name"})
    {
      SuffixApart(NameOf(rows[i]), NameOf(rows[j]), suffix);
      assert "name" in {"name"};
    }
    UniqueAccepts(w, "tasks", {"name"});
  }

  function NameOf(r: Row): string { if "name" in r && r["name"].Text? then r["name"].s else "" }

  lemma SuffixApart(a: string, b: string, suffix: string)
    ensures a + suffix == b + suffix ==> a == b
  {
    if a + suffix == b + suffix {
      assert a == (a + suffix)[..|a|] == (b + suffix)[..|b|] == b;
    }
  }

  // ------------------------------------------- the result an evaluation belongs to

  /** The columns of the key from evaluations to submission_results. */
  const RESULT := {"submission_id", "dataset_id"}

  /** A table imported after the live datasets of tasks waits for nothing. */
  lemma NothingWaits(w: World, i: nat, r: Row)
    requires w.j.k == CMS && KnownTables(CMS.order, w.arch) && i < |CMS.order| && i != 5
    requires Declared(CMS, COLUMNS, REFERENCES, i, r)
    ensures Waiting(w, CMS.order[i], r) == {}
  {
    AfterIs(w, i);
    CmsForward(w, i, r);
  }

  lemma NotAfter(w: World, i: nat, j: nat)
    requires KnownTables(w.j.k.order, w.arch) && i < j < |w.j.k.order|
    ensures w.j.k.order[i] !in After(w, w.j.k.order[j]) && w.j.k.order[i] != w.j.k.order[j]
  {
    var rest := w.j.k.order[j + 1..];
    AfterIs(w, j);
    assert forall k {:trigger rest[k]} :: 0 <= k < |rest| ==> rest[k] == w.j.k.order[j + 1 + k];
  }

  /** Every archived evaluation has its archived result. */
  ghost predicate ResultsKept(w: World) {
    "evaluations" in w.arch ==>
      && "submission_results" in w.arch
      && (forall c :: c in RESULT ==> Insertable(w.j.s, "submission_results", c))
      && (forall k :: 0 <= k < |w.arch["submission_results"]| ==>
            Declared(CMS, COLUMNS, REFERENCES, 19, w.arch["submission_results"][k]))
      && forall i :: 0 <= i < |w.arch["evaluations"]| ==> HasResult(w, w.arch["evaluations"][i])
  }

  ghost predicate HasResult(w: World, r: Row)
    requires "submission_results" in w.arch
  {
    exists k :: 0 <= k < |w.arch["submission_results"]| && SameResult(w, r, w.arch["submission_results"][k])
  }

  ghost predicate SameResult(w: World, r: Row, r': Row) {
    forall c :: c in RESULT ==> ValueAt(w, "submission_results", r', c) == ValueAt(w, "evaluations", r, c)
  }

  /**
   The foreign key of evaluations over two columns refuses nothing: all results are there before the
   first evaluation.
   */
  lemma EvaluationsAccept(w: World)
    requires SoundWorld(w) && w.j.k == CMS && KnownTables(CMS.order, w.arch) && ResultsKept(w)
    ensures Accepting(w, ForeignKey("evaluations", "submission_results", RESULT))
  {
    if "evaluations" in w.arch {
      ResultTables();
      NotAfter(w, 19, 20);
      ResultColumns();
      KeyKept(w);
      ForeignKeyAccepts(w, "evaluations", "submission_results", RESULT);
    }
  }

  lemma ResultPartner(w: World, r: Row, k: nat)
    requires w.j.k == CMS && KnownTables(CMS.order, w.arch) && ResultsKept(w) && "evaluations" in w.arch
    requires k < |w.arch["submission_results"]| && SameResult(w, r, w.arch["submission_results"][k])
    ensures Partner(w, "evaluations", r, "submission_results", w.arch["submission_results"][k], RESULT)
  {
    ResultTables();
    NothingWaits(w, 19, w.arch["submission_results"][k]);
    PartnerBy(w, "evaluations", r, "submission_results", w.arch["submission_results"][k], RESULT);
  }

  lemma ResultTables()
    ensures CMS.order[19] == "submission_results" && CMS.order[20] == "evaluations" && |CMS.order| == 25
  {
    CmsOrder();
  }

  lemma KeyKept(w: World)
    requires w.j.k == CMS && KnownTables(CMS.order, w.arch) && ResultsKept(w) && "evaluations" in w.arch
    ensures KeepsKey(w, "evaluations", "submission_results", RESULT)
  {
    forall i | 0 <= i < |w.arch["evaluations"]|
      ensures exists k :: 0 <= k < |w.arch["submission_results"]| &&
                Partner(w, "evaluations", w.arch["evaluations"][i], "submission_results",
                        w.arch["submission_results"][k], RESULT)
    {
      var r := w.arch["evaluations"][i];
      assert HasResult(w, r);
      var k :| 0 <= k < |w.arch["submission_results"]| && SameResult(w, r, w.arch["submission_results"][k]);
      ResultPartner(w, r, k);
    }
  }

  lemma ResultColumns()
    ensures Sound(CMS) && Plainly(CMS, RESULT)
  {
    CmsApart();
    CmsSound();
    assert "submission_id" in CMS.refs && "dataset_id" in CMS.refs;
  }

  // --------------------------------------------------- whose a submission is

  /** How the archive writes a true. */
  const TRUE := Text("true")

  /** submissions_owner_check: the participation is empty exactly for the submissions of a tester. */
  function Owner(t: string, row: Row): bool {
    t == "submissions" && "tester" in row ==>
      (row["tester"] == TRUE <==> !("participation_id" in row && row["participation_id"] != Null))
  }

  /** The archived submissions keep it: those of contestants come with their participation. */
  ghost predicate OwnersKept(w: World) {
    "submissions" in w.arch ==>
      && Insertable(w.j.s, "submissions", "participation_id")
      && forall i :: 0 <= i < |w.arch["submissions"]| ==>
           Declared(CMS, COLUMNS, REFERENCES, 16, w.arch["submissions"][i])
           && OwnerArchived(w, w.arch["submissions"][i])
  }

  ghost predicate OwnerArchived(w: World, r: Row) {
    "tester" in r ==>
      (r["tester"] == TRUE <==> !("participation_id" in r && r["participation_id"].Num?
                                  && Archived(w, "participations", r["participation_id"].n)))
  }

  lemma OwnerColumns()
    ensures "participation_id" in CMS.refs && CMS.refs["participation_id"] == "participations"
    ensures "tester" !in CMS.refs && "tester" !in CMS.adminRefs && "participation_id" !in CMS.adminRefs
    ensures CMS.order[16] == "submissions"
  {
    CmsOrder();
  }

  /** The check of a submission's owner refuses nothing, since no participation is left empty for later. */
  lemma OwnerAccepts(w: World)
    requires SoundWorld(w) && w.j.k == CMS && KnownTables(CMS.order, w.arch) && OwnersKept(w)
    ensures KeepsChecks(w, Owner) && IgnoresIds(CMS, Owner) && Accepting(w, Checks(Owner))
  {
    OwnerColumns();
    CmsApart();
    OwnerIgnoresIds();
    forall t, i, open | t in w.arch && 0 <= i < |w.arch[t]| && KeptRow(w, t, w.arch[t][i], open)
      ensures Owner(t, Shape(w, t, w.arch[t][i], open))
    {
      if t == "submissions" {
        NothingWaits(w, 16, w.arch[t][i]);
        OwnerShape(w, w.arch[t][i], open);
      }
    }
    ChecksAccept(w, Owner);
  }

  lemma OwnerIgnoresIds()
    ensures IgnoresIds(CMS, Owner)
  {
    OwnerColumns();
  }

  lemma OwnerShape(w: World, r: Row, open: set<string>)
    requires w.j.k == CMS && Renamed(w.j.o, "submissions", r).Some? && open == {}
    requires Insertable(w.j.s, "submissions", "participation_id") && OwnerArchived(w, r)
    ensures Owner("submissions", Shape(w, "submissions", r, open))
  {
    OwnerColumns();
  }

  // ------------------------------------------------------------- all together

  /** The constraint a uniqueness stands for. */
  function ConstraintOf(s: Schema, u: Uniqueness): Constraints {
    if u.table < |CMS.order| && u.column < |COLUMNS| then
      if CMS.order[u.table] in s.hasId then Unique(CMS.order[u.table], Columns(u))
      else UniquePlain(CMS.order[u.table], Columns(u))
    else (db: Db, t: string, row: Row) => true
  }

  /** The constraints of the schema; `checks` are all those that look at one row only. */
  function SchemaConstraints(s: Schema, checks: (string, Row) -> bool): seq<Constraints> {
    RowConstraints(checks) + NameConstraints() + UniqueConstraints(s)
  }

  function RowConstraints(checks: (string, Row) -> bool): seq<Constraints> {
    [Checks(checks), ForeignKeys(CMS), ForeignKey("evaluations", "submission_results", RESULT)]
  }

  function NameConstraints(): seq<Constraints> {
    [Unique("contests", {"name"}), Unique("tasks", {"name"}), Unique("users", {"username"}), Unique("teams", {"code"})]
  }

  function UniqueConstraints(s: Schema): seq<Constraints> {
    seq(|UNIQUES|, n requires 0 <= n < |UNIQUES| => ConstraintOf(s, UNIQUES[n]))
  }

  /** Nobody has the contest's name, or that of a task. */
  ghost predicate NamesFree(w: World) {
    && ("contests" in w.arch ==>
          && "contests" in w.j.s.hasId && |w.arch["contests"]| == 1
          && forall key :: key in w.db0.byId && key.table == "contests" && "name" in w.db0.byId[key] ==>
               w.db0.byId[key]["name"] != Text(w.j.o.name))
    && ("tasks" in w.arch ==>
          && "tasks" in w.j.s.hasId
          && (forall i, j :: 0 <= i < j < |w.arch["tasks"]| ==>
                NameOf(w.arch["tasks"][i]) != NameOf(w.arch["tasks"][j]))
          && forall i, key :: 0 <= i < |w.arch["tasks"]| && key in w.db0.byId && key.table == "tasks" ==>
               NameOf(w.db0.byId[key]) != NameOf(w.arch["tasks"][i]) + w.j.o.taskSuffix)
  }

  /** The database finds every user and team by its key, and the archived ones have keys. */
  ghost predicate PeopleKnown(w: World) {
    && Indexed(w.db0, "users", "username") && Indexed(w.db0, "teams", "code")
    && forall t :: t in {"users", "teams"} && t in w.arch ==>
         forall i :: 0 <= i < |w.arch[t]| ==> NaturalOf(t, w.arch[t][i]).Some?
  }

  /** The archive keeps the unique constraints within a contest, and the database its foreign keys. */
  ghost predicate UniquesKept(w: World) {
    && (forall key :: key in w.db0.byId ==> RefersHere(CMS, w.db0, w.db0.byId[key]))
    && (forall t, k :: 0 <= k < |PlainRows(w.db0, t)| ==> RefersHere(CMS, w.db0, PlainRows(w.db0, t)[k]))
    && forall n :: 0 <= n < |UNIQUES| ==> UniqueKept(w, UNIQUES[n])
  }

  ghost predicate UniqueKept(w: World, u: Uniqueness) {
    u.table < |CMS.order| && u.column < |COLUMNS| && CMS.order[u.table] in w.arch ==>
      TuplesApart(w, CMS.order[u.table], Columns(u))
  }

  /**
   The database accepts every row an import comes to write, if the archive keeps its constraints and
   the names are free.
   */
  lemma SchemaAccepts(w: World, checks: (string, Row) -> bool)
    requires SoundWorld(w) && w.j.k == CMS && KnownTables(CMS.order, w.arch)
    requires IgnoresIds(CMS, checks) && KeepsChecks(w, checks)
    requires NamesFree(w) && PeopleKnown(w) && UniquesKept(w) && ResultsKept(w)
    ensures Accepting(w, Every(SchemaConstraints(w.j.s, checks)))
  {
    RowsAccept(w, checks);
    NamesAccept(w);
    UniquesAccept(w);
    AllOf(w, RowConstraints(checks), NameConstraints());
    AllOf(w, RowConstraints(checks) + NameConstraints(), UniqueConstraints(w.j.s));
    EveryAccepts(w, SchemaConstraints(w.j.s, checks));
  }

  lemma RowsAccept(w: World, checks: (string, Row) -> bool)
    requires SoundWorld(w) && w.j.k == CMS && KnownTables(CMS.order, w.arch)
    requires IgnoresIds(CMS, checks) && KeepsChecks(w, checks) && ResultsKept(w)
    ensures AllAccepting(w, RowConstraints(checks))
  {
    CmsApart();
    ChecksAccept(w, checks);
    ForeignKeysAccept(w);
    EvaluationsAccept(w);
    AllThree(w, Checks(checks), ForeignKeys(CMS), ForeignKey("evaluations", "submission_results", RESULT));
  }

  lemma AllThree(w: World, a: Constraints, b: Constraints, c: Constraints)
    requires Accepting(w, a) && Accepting(w, b) && Accepting(w, c)
    ensures AllAccepting(w, [a, b, c])
  {
  }

  lemma NamesAccept(w: World)
    requires SoundWorld(w) && w.j.k == CMS && NamesFree(w) && PeopleKnown(w)
    ensures AllAccepting(w, NameConstraints())
  {
    NewNamesAccept(w);
    PeopleAccept(w);
    AllThree(w, Unique("tasks", {"name"}), Unique("users", {"username"}), Unique("teams", {"code"}));
    AllOf(w, [Unique("contests", {"name"})],
          [Unique("tasks", {"name"}), Unique("users", {"username"}), Unique("teams", {"code"})]);
    assert NameConstraints() == [Unique("contests", {"name"})]
           + [Unique("tasks", {"name"}), Unique("users", {"username"}), Unique("teams", {"code"})];
  }

  lemma UniquesAccept(w: World)
    requires SoundWorld(w) && w.j.k == CMS && UniquesKept(w)
    ensures AllAccepting(w, UniqueConstraints(w.j.s))
  {
    forall n | 0 <= n < |UniqueConstraints(w.j.s)|
      ensures Accepting(w, UniqueConstraints(w.j.s)[n])
    {
      WithinAccepts(w, n);
    }
  }

  lemma NewNamesAccept(w: World)
    requires w.j.k == CMS && NamesFree(w)
    ensures Accepting(w, Unique("contests", {"name"})) && Accepting(w, Unique("tasks", {"name"}))
  {
    if "contests" in w.arch {
      ContestNameAccepts(w);
    } else {
      AbsentAccepts(w, "contests", {"name"});
    }
    if "tasks" in w.arch {
      TaskNamesAccept(w);
    } else {
      AbsentAccepts(w, "tasks", {"name"});
    }
  }

  lemma KeyColumns()
    ensures Plainly(CMS, {"username"}) && Plainly(CMS, {"code"}) && "username" !in CMS.refs && "code" !in CMS.refs
  {
    CmsApart();
  }

  lemma PeopleAccept(w: World)
    requires SoundWorld(w) && w.j.k == CMS && PeopleKnown(w)
    ensures Accepting(w, Unique("users", {"username"})) && Accepting(w, Unique("teams", {"code"}))
  {
    KeyColumns();
    if "users" in w.arch {
      KeysAccept(w, "users", "username");
    } else {
      AbsentAccepts(w, "users", {"username"});
    }
    if "teams" in w.arch {
      KeysAccept(w, "teams", "code");
    } else {
      AbsentAccepts(w, "teams", {"code"});
    }
  }

  lemma WithinAccepts(w: World, n: nat)
    requires SoundWorld(w) && w.j.k == CMS && n < |UNIQUES| && UniquesKept(w)
    ensures Accepting(w, ConstraintOf(w.j.s, UNIQUES[n]))
  {
    CmsOrder();
    CmsUniques();
    var u := UNIQUES[n];
    assert UniqueKept(w, u);
    if CMS.order[u.table] in w.arch {
      CmsUniqueAccepts(w, n);
    } else {
      AbsentAccepts(w, CMS.order[u.table], Columns(u));
    }
  }
}
