/** The tables and references of a contest (internal/contestarchive/archive.go and the database's schema). */
module ImportCatalog {
  import opened ImportModel
  import opened ImportState
  import opened ImportWrites
  import opened ContestImport

  const CMS := Catalog(
    ["contests", "sites", "certificate_templates", "users", "teams", "tasks", "statements", "attachments",
     "task_examples", "datasets", "managers", "testcases", "participations", "announcements", "questions", "messages",
     "submissions", "submission_files", "tokens", "submission_results", "evaluations", "submission_flags",
     "participation_task_scores", "score_adjustments", "appeals"],
    map["contest_id" := "contests", "site_id" := "sites", "user_id" := "users", "team_id" := "teams",
        "task_id" := "tasks", "dataset_id" := "datasets", "active_dataset_id" := "datasets",
        "testcase_id" := "testcases", "participation_id" := "participations", "submission_id" := "submissions"],
    {"admin_id", "reply_admin_id", "tester_admin_id", "invalidated_by", "delivered_by", "assigned_admin_id",
     "handled_by"})

  lemma CmsSound()
    ensures Sound(CMS)
  {
  }

  /** The columns holding an id, and the places in the order of the tables they refer to. */
  const COLUMNS := ["contest_id", "site_id", "user_id", "team_id", "task_id",
                    "dataset_id", "active_dataset_id", "testcase_id", "participation_id", "submission_id"]
  const TARGETS: seq<nat> := [0, 1, 3, 4, 5, 9, 9, 11, 12, 16]

  /** A reference column of a table, both by place, and whether it must be filled. */
  datatype Reference = Reference(table: nat, column: nat, required: bool)

  /** The reference columns of the exported tables, as the migrations create them. */
  const REFERENCES := [
    /* sites */ Reference(1, 0, true),
    /* certificate_templates */ Reference(2, 0, true),
    /* tasks */ Reference(5, 0, false), Reference(5, 6, false),
    /* statements */ Reference(6, 4, true),
    /* attachments */ Reference(7, 4, true),
    /* task_examples */ Reference(8, 4, true),
    /* datasets */ Reference(9, 4, true),
    /* managers */ Reference(10, 5, true),
    /* testcases */ Reference(11, 5, true),
    /* participations */ Reference(12, 0, true), Reference(12, 2, true), Reference(12, 3, false),
    Reference(12, 1, false),
    /* announcements */ Reference(13, 0, true),
    /* questions */ Reference(14, 8, true), Reference(14, 0, true), Reference(14, 4, false),
    /* messages */ Reference(15, 8, true),
    /* submissions */ Reference(16, 8, false), Reference(16, 4, true),
    /* submission_files */ Reference(17, 9, true),
    /* tokens */ Reference(18, 9, true),
    /* submission_results */ Reference(19, 9, true), Reference(19, 5, true),
    /* evaluations */ Reference(20, 9, true), Reference(20, 5, true), Reference(20, 7, true),
    /* submission_flags */ Reference(21, 9, true),
    /* participation_task_scores */ Reference(22, 8, true), Reference(22, 4, true),
    /* score_adjustments */ Reference(23, 8, true), Reference(23, 4, true),
    /* appeals */ Reference(24, 8, true), Reference(24, 4, false), Reference(24, 9, false)]

  /** The one reference to a table imported later: the live dataset of a task, which may be empty. */
  const LIVE_DATASET := Reference(5, 6, false)

  /** No table comes twice, so an archive of these tables is one the import knows. */
  lemma CmsOrder()
    ensures |CMS.order| == 25 && Distinct(CMS.order)
  {
    FirstTables();
    MiddleTables();
    LastTables();
  }

  lemma CmsKnown(arch: map<string, seq<Row>>)
    requires forall t :: t in arch ==> t in CMS.order
    ensures KnownTables(CMS.order, arch)
  {
    CmsOrder();
  }

  lemma FirstTables()
    ensures forall i, j :: 0 <= i < 5 && i < j < |CMS.order| ==> CMS.order[i] != CMS.order[j]
  {
  }

  lemma MiddleTables()
    ensures forall i, j :: 5 <= i < 9 && i < j < |CMS.order| ==> CMS.order[i] != CMS.order[j]
  {
  }

  lemma LastTables()
    ensures forall i, j :: 9 <= i < j < |CMS.order| ==> CMS.order[i] != CMS.order[j]
  {
  }

  ghost predicate Distinct(order: seq<string>) {
    forall i, j :: 0 <= i < j < |order| ==> order[i] != order[j]
  }

  /** The columns refer to the tables at those places. */
  ghost predicate Refer(k: Catalog, columns: seq<string>, targets: seq<nat>) {
    |columns| == |targets| && forall c :: 0 <= c < |columns| ==>
      columns[c] in k.refs && targets[c] < |k.order| && k.refs[columns[c]] == k.order[targets[c]]
  }

  lemma CmsColumns()
    ensures Refer(CMS, COLUMNS, TARGETS)
  {
    FirstColumns();
    LastColumns();
  }

  lemma FirstColumns()
    ensures |COLUMNS| == |TARGETS| == 10
    ensures forall c :: 0 <= c < 5 ==>
              COLUMNS[c] in CMS.refs && TARGETS[c] < |CMS.order| && CMS.refs[COLUMNS[c]] == CMS.order[TARGETS[c]]
  {
  }

  lemma LastColumns()
    ensures forall c :: 5 <= c < 10 ==>
              COLUMNS[c] in CMS.refs && TARGETS[c] < |CMS.order| && CMS.refs[COLUMNS[c]] == CMS.order[TARGETS[c]]
  {
  }

  /** Every reference but one is to a table imported earlier. */
  ghost predicate Earlier(targets: seq<nat>, refs: seq<Reference>, waits: Reference) {
    forall n :: 0 <= n < |refs| ==>
      refs[n].column < |targets| && (refs[n] == waits || targets[refs[n].column] < refs[n].table)
  }

  lemma CmsEarlier()
    ensures Earlier(TARGETS, REFERENCES, LIVE_DATASET)
  {
  }

  /** The references of a row are among those of its table. */
  ghost predicate Declared(k: Catalog, columns: seq<string>, refs: seq<Reference>, i: nat, r: Row) {
    forall c :: c in r && c in k.refs ==> exists n :: 0 <= n < |refs| && Declares(columns, refs[n], i, c)
  }

  predicate Declares(columns: seq<string>, x: Reference, i: nat, c: string) {
    x.table == i && x.column < |columns| && columns[x.column] == c
  }

  lemma OnlyOneWaits(w: World, columns: seq<string>, targets: seq<nat>, refs: seq<Reference>, waits: Reference, i: nat,
                     r: Row)
    requires Distinct(w.j.k.order) && Refer(w.j.k, columns, targets) && Earlier(targets, refs, waits)
    requires i < |w.j.k.order| && Declared(w.j.k, columns, refs, i, r)
    ensures forall c :: c in r && c in Forward(w.j.k, w.j.k.order[i], r, Rest(w, i + 1)) ==>
              Declares(columns, waits, i, c)
  {
    var k := w.j.k;
    forall c | c in r && c in Forward(k, k.order[i], r, Rest(w, i + 1))
      ensures Declares(columns, waits, i, c)
    {
      var n :| 0 <= n < |refs| && Declares(columns, refs[n], i, c);
      var j :| 0 <= j < |k.order[i + 1..]| && k.order[i + 1..][j] == k.refs[c];
      assert k.order[i + 1 + j] == k.order[targets[refs[n].column]];
    }
  }

  /**
   In an archive of a contest nothing but the live dataset of a task is ever deferred.
   */
  lemma CmsForward(w: World, i: nat, r: Row)
    requires w.j.k == CMS && i < |CMS.order| && Declared(CMS, COLUMNS, REFERENCES, i, r)
    ensures forall c :: c in r && c in Forward(CMS, CMS.order[i], r, Rest(w, i + 1)) ==>
              i == 5 && c == "active_dataset_id"
    ensures CMS.order[5] == "tasks"
  {
    CmsOrder();
    CmsColumns();
    CmsEarlier();
    OnlyOneWaits(w, COLUMNS, TARGETS, REFERENCES, LIVE_DATASET, i, r);
    LiveDataset(i);
  }

  lemma LiveDataset(i: nat)
    ensures CMS.order[5] == "tasks"
    ensures forall c :: Declares(COLUMNS, LIVE_DATASET, i, c) ==> i == 5 && c == "active_dataset_id"
  {
  }

  lemma RequiredEarlier(w: World, columns: seq<string>, targets: seq<nat>, refs: seq<Reference>, waits: Reference,
                        n: nat)
    requires Distinct(w.j.k.order) && Refer(w.j.k, columns, targets) && Earlier(targets, refs, waits) && !waits.required
    requires n < |refs| && refs[n].required && refs[n].table < |w.j.k.order|
    ensures refs[n].column < |columns| && columns[refs[n].column] in w.j.k.refs
    ensures w.j.k.refs[columns[refs[n].column]] !in Rest(w, refs[n].table + 1)
  {
    var order, x := w.j.k.order, refs[n];
    var rest := order[x.table + 1..];
    assert forall j {:trigger rest[j]} :: 0 <= j < |rest| ==> rest[j] == order[x.table + 1 + j];
  }

  /**
   A reference that must be filled is to a table imported before its own, so only a row that is not
   archived can be missing.
   */
  lemma CmsRequired(w: World, n: nat)
    requires w.j.k == CMS && n < |REFERENCES| && REFERENCES[n].required
    ensures REFERENCES[n].table < |CMS.order| && REFERENCES[n].column < |COLUMNS|
            && COLUMNS[REFERENCES[n].column] in CMS.refs
    ensures CMS.refs[COLUMNS[REFERENCES[n].column]] !in Rest(w, REFERENCES[n].table + 1)
  {
    CmsOrder();
    CmsColumns();
    CmsEarlier();
    CmsTables();
    RequiredEarlier(w, COLUMNS, TARGETS, REFERENCES, LIVE_DATASET, n);
  }

  lemma CmsTables()
    ensures forall n :: 0 <= n < |REFERENCES| ==> REFERENCES[n].table < 25
  {
  }
}
