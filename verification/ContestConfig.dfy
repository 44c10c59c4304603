/**
 Applying a contest directory to the database (internal/contestconfig/contestconfig.go):
 what is planned for each task, what is written, and that applying twice changes nothing.
 */
module ContestConfig {
  import opened Common
  import opened TaskOrder

  /** A problem package: the digest of its files, the name of its dataset, its statements and files. */
  datatype Package = Package(digest: string, dataset: string, content: int)

  /** The listed tasks and their packages. */
  datatype Directory = Directory(names: seq<string>, packages: map<string, Package>)

  datatype Options = Options(dryRun: bool, activate: bool)

  /**
   What other packages do: the digest of an exported task, a dataset name without its
   tag, the suffix that keeps descriptions unique, and the id of a new dataset.
   */
  datatype Env = Env(exported: Body -> string, strip: string -> string, suffix: (string, seq<Dataset>) -> string,
                     newId: seq<Dataset> -> int)

  datatype Action = Created | Updated(live: bool) | Activated | Pending | Unchanged

  datatype Report = Report(actions: seq<Action>, reordered: bool)

  predicate OccursAt(s: string, sub: string, i: int) {
    0 <= i <= |s| - |sub| && s[i..i + |sub|] == sub
  }

  predicate Contains(s: string, sub: string) {
    exists i :: 0 <= i <= |s| && OccursAt(s, sub, i)
  }

  function Tag(digest: string): string { " @" + if |digest| <= 12 then digest else digest[..12] }

  // ---------------------------------------------------------------- one task

  predicate Tagged(d: Dataset, digest: string) { Contains(d.description, Tag(digest)) }

  /** The live dataset was imported from this content. */
  predicate LiveByTag(body: Body, digest: string) {
    exists i :: 0 <= i < |body.datasets| && Tagged(body.datasets[i], digest) && body.active == Some(body.datasets[i].id)
  }

  /** The first dataset imported from this content. */
  function FirstTagged(ds: seq<Dataset>, digest: string): Option<int> {
    if ds == [] then None
    else
      var before := FirstTagged(ds[..|ds| - 1], digest);
      if before.Some? then before else if Tagged(ds[|ds| - 1], digest) then Some(ds[|ds| - 1].id) else None
  }

  /** The live dataset is the package: imported from it, or exported to it. */
  predicate Live(env: Env, body: Body, digest: string) {
    LiveByTag(body, digest) || (body.active.Some? && env.exported(body) == digest)
  }

  method Current(env: Env, body: Body, digest: string) returns (live: bool, imported: Option<int>)
    ensures live == Live(env, body, digest) && (!live ==> imported == FirstTagged(body.datasets, digest))
  {
    imported := None;
    var ds := body.datasets;
    for i := 0 to |ds|
      invariant imported == FirstTagged(ds[..i], digest)
      invariant forall k :: 0 <= k < i ==> !(Tagged(ds[k], digest) && body.active == Some(ds[k].id))
    {
      assert ds[..i + 1][..i] == ds[..i];
      if Tagged(ds[i], digest) {
        if body.active == Some(ds[i].id) {
          return true, None;
        }
        if imported.None? {
          imported := Some(ds[i].id);
        }
      }
    }
    assert ds[..|ds|] == ds;
    live := body.active.Some? && env.exported(body) == digest;
  }

  /** What is to be done to an existing task. */
  function Plan(env: Env, body: Body, digest: string, mayGoLive: bool): Action {
    if Live(env, body, digest) then Unchanged
    else if FirstTagged(body.datasets, digest).Some? then (if mayGoLive then Activated else Pending)
    else Updated(mayGoLive)
  }

  /** Nothing is to be done. */
  predicate Quiet(a: Action) { a.Unchanged? || a.Pending? }

  /** The dataset an import adds. */
  function Imported(env: Env, ds: seq<Dataset>, p: Package): Dataset {
    var want := env.strip(p.dataset) + Tag(p.digest);
    Dataset(env.newId(ds), want + env.suffix(want, ds))
  }

  /** The task after the action. */
  function Written(env: Env, body: Body, p: Package, a: Action): Body {
    match a
    case Updated(live) =>
      var d := Imported(env, body.datasets, p);
      Body(p.content, body.datasets + [d], if live then Some(d.id) else body.active)
    case Activated => body.(active := FirstTagged(body.datasets, p.digest))
    case _ => body
  }

  function NewBody(env: Env, p: Package): Body {
    Body(p.content, [Imported(env, [], p)], Some(Imported(env, [], p).id))
  }

  lemma ImportedTagged(env: Env, ds: seq<Dataset>, p: Package)
    ensures Tagged(Imported(env, ds, p), p.digest)
  {
    var base, tag := env.strip(p.dataset), Tag(p.digest);
    var s := Imported(env, ds, p).description;
    assert s == base + tag + env.suffix(base + tag, ds);
    assert OccursAt(s, tag, |base|);
  }

  lemma {:induction false} FirstTaggedIs(ds: seq<Dataset>, digest: string)
    ensures var r := FirstTagged(ds, digest);
            && (r.Some? ==> exists i :: 0 <= i < |ds| && Tagged(ds[i], digest) && r == Some(ds[i].id))
            && (forall i :: 0 <= i < |ds| && Tagged(ds[i], digest) ==> r.Some?)
  {
    if ds != [] {
      var init := ds[..|ds| - 1];
      FirstTaggedIs(init, digest);
      if FirstTagged(init, digest).Some? {
        var i :| 0 <= i < |init| && Tagged(init[i], digest) && FirstTagged(init, digest) == Some(init[i].id);
        assert ds[i] == init[i];
      }
      assert forall i :: 0 <= i < |init| ==> ds[i] == init[i];
    }
  }

  /** Once written, the same package asks for nothing more. */
  lemma WrittenQuiet(env: Env, body: Body, p: Package, mayGoLive: bool)
    ensures var a := Plan(env, body, p.digest, mayGoLive);
            Quiet(Plan(env, Written(env, body, p, a), p.digest, mayGoLive))
  {
    var a := Plan(env, body, p.digest, mayGoLive);
    var after := Written(env, body, p, a);
    FirstTaggedIs(body.datasets, p.digest);
    FirstTaggedIs(after.datasets, p.digest);
    if a.Updated? {
      ImportedTagged(env, body.datasets, p);
      assert Tagged(after.datasets[|body.datasets|], p.digest);
    }
  }

  lemma NewBodyQuiet(env: Env, p: Package, mayGoLive: bool)
    ensures Quiet(Plan(env, NewBody(env, p), p.digest, mayGoLive))
  {
    ImportedTagged(env, [], p);
    assert Tagged(NewBody(env, p).datasets[0], p.digest);
  }

  // ------------------------------------------------- the same, of the task itself

  ghost predicate HasPart(s: string, part: string) { exists p, q :: s == p + part + q }

  /** The dataset was imported from this content: its description holds the first twelve characters of the digest. */
  ghost predicate Carries(d: Dataset, digest: string) {
    HasPart(d.description, " @" + if |digest| <= 12 then digest else digest[..12])
  }

  /** The live dataset was imported from this content, or the task exports to it. */
  ghost predicate IsLive(env: Env, body: Body, digest: string) {
    && body.active.Some?
    && ((exists i :: 0 <= i < |body.datasets| && Carries(body.datasets[i], digest)
                     && body.datasets[i].id == body.active.value)
        || env.exported(body) == digest)
  }

  ghost predicate FirstCarrying(ds: seq<Dataset>, digest: string, i: int) {
    0 <= i < |ds| && Carries(ds[i], digest) && forall k :: 0 <= k < i ==> !Carries(ds[k], digest)
  }

  /** The package is live, or it may not be and waits as a dataset. */
  ghost predicate UpToDate(env: Env, body: Body, digest: string, mayGoLive: bool) {
    IsLive(env, body, digest) || (!mayGoLive && exists i :: FirstCarrying(body.datasets, digest, i))
  }

  /** One dataset was added for the package. */
  ghost predicate Added(env: Env, before: seq<Dataset>, after: seq<Dataset>, p: Package) {
    var base := env.strip(p.dataset) + (" @" + if |p.digest| <= 12 then p.digest else p.digest[..12]);
    after == before + [Dataset(env.newId(before), base + env.suffix(base, before))]
  }

  /**
   What becomes of a task: nothing when the package is live; a dataset imported from it before goes live if it may;
   otherwise the content is the package's, with a new dataset that goes live if it may.
   */
  ghost predicate BodyWritten(env: Env, before: Body, after: Body, p: Package, mayGoLive: bool) {
    if IsLive(env, before, p.digest) then after == before
    else if i :| FirstCarrying(before.datasets, p.digest, i) then
      after == before.(active := if mayGoLive then Some(before.datasets[i].id) else before.active)
    else
      && after.content == p.content && Added(env, before.datasets, after.datasets, p)
      && after.active == if mayGoLive then Some(after.datasets[|before.datasets|].id) else before.active
  }

  /** A new task has the package's content and one dataset, which is live. */
  ghost predicate NewlyWritten(env: Env, after: Body, p: Package) {
    after.content == p.content && Added(env, [], after.datasets, p) && after.active == Some(after.datasets[0].id)
  }

  lemma TaggedCarries(d: Dataset, digest: string)
    ensures Tagged(d, digest) <==> Carries(d, digest)
  {
    var s, part := d.description, Tag(digest);
    if Tagged(d, digest) {
      var i :| 0 <= i <= |s| && OccursAt(s, part, i);
      assert s == s[..i] + part + s[i + |part|..];
    }
    if Carries(d, digest) {
      var p, q :| s == p + part + q;
      assert OccursAt(s, part, |p|);
    }
  }

  lemma {:induction false} FirstTaggedCarries(ds: seq<Dataset>, digest: string)
    ensures match FirstTagged(ds, digest)
            case Some(id) => exists i :: FirstCarrying(ds, digest, i) && id == ds[i].id
            case None => forall i :: 0 <= i < |ds| ==> !Carries(ds[i], digest)
  {
    if ds != [] {
      var n := |ds| - 1;
      FirstTaggedCarries(ds[..n], digest);
      TaggedCarries(ds[n], digest);
      if FirstTagged(ds[..n], digest).Some? {
        var i :| FirstCarrying(ds[..n], digest, i) && FirstTagged(ds, digest) == Some(ds[..n][i].id);
        assert forall k :: 0 <= k <= i ==> ds[..n][k] == ds[k];
        assert FirstCarrying(ds, digest, i);
      } else {
        assert forall k :: 0 <= k < n ==> ds[..n][k] == ds[k];
        assert Tagged(ds[n], digest) ==> FirstCarrying(ds, digest, n);
      }
    }
  }

  lemma LiveIsLive(env: Env, body: Body, digest: string)
    ensures Live(env, body, digest) <==> IsLive(env, body, digest)
  {
    forall i | 0 <= i < |body.datasets|
      ensures Tagged(body.datasets[i], digest) <==> Carries(body.datasets[i], digest)
    {
      TaggedCarries(body.datasets[i], digest);
    }
  }

  /** What asks for nothing is up to date, and the other way round. */
  lemma QuietMeans(env: Env, body: Body, digest: string, mayGoLive: bool)
    ensures Quiet(Plan(env, body, digest, mayGoLive)) <==> UpToDate(env, body, digest, mayGoLive)
  {
    LiveIsLive(env, body, digest);
    FirstTaggedCarries(body.datasets, digest);
  }

  /** The planned action does to a task what is to be done to it. */
  lemma WrittenAs(env: Env, body: Body, p: Package, mayGoLive: bool)
    ensures BodyWritten(env, body, Written(env, body, p, Plan(env, body, p.digest, mayGoLive)), p, mayGoLive)
  {
    LiveIsLive(env, body, p.digest);
    FirstTaggedCarries(body.datasets, p.digest);
  }

  // ----------------------------------------------------------------- the order

  /** The names of the listed tasks in the contest's order. */
  function ListedNames(ts: Tasks, ids: seq<TaskId>, names: seq<string>): seq<string>
    requires forall i :: 0 <= i < |ids| ==> ids[i] in ts
  {
    if ids == [] then []
    else
      var rest, last := ListedNames(ts, ids[..|ids| - 1], names), ts[ids[|ids| - 1]].name;
      if last in names then rest + [last] else rest
  }

  /** The listed tasks come first, in order. */
  predicate IsPrefix(ts: Tasks, ids: seq<TaskId>, names: seq<string>)
    requires forall i :: 0 <= i < |ids| ==> ids[i] in ts
  {
    |names| <= |ids| && forall i :: 0 <= i < |names| ==> ts[ids[i]].name == names[i]
  }

  predicate NeedsReorder(ts: Tasks, ids: seq<TaskId>, names: seq<string>)
    requires forall i :: 0 <= i < |ids| ==> ids[i] in ts
  {
    ListedNames(ts, ids, names) != names || (Unlisted(ts, ids, names) != [] && !IsPrefix(ts, ids, names))
  }

  /** The tasks begin with those of the given names, in that order, and no other of them has one of the names. */
  ghost predicate BeginsWith(ts: Tasks, ids: seq<TaskId>, names: seq<string>)
    requires forall i :: 0 <= i < |ids| ==> ids[i] in ts
  {
    && |names| <= |ids|
    && (forall i :: 0 <= i < |names| ==> ts[ids[i]].name == names[i])
    && (forall i :: |names| <= i < |ids| ==> ts[ids[i]].name !in names)
  }

  /** A new order is needed exactly when the tasks do not begin with the listed ones in order. */
  lemma NeedsReorderExactly(ts: Tasks, ids: seq<TaskId>, names: seq<string>)
    requires forall i :: 0 <= i < |ids| ==> ids[i] in ts
    ensures NeedsReorder(ts, ids, names) <==> !BeginsWith(ts, ids, names)
  {
    if IsPrefix(ts, ids, names) {
      ListedAfterPrefix(ts, ids, names);
    }
    if Unlisted(ts, ids, names) == [] {
      AllListed(ts, ids, names);
    }
  }

  /** When no task is unlisted the listed names are those of all tasks. */
  lemma {:induction false} AllListed(ts: Tasks, ids: seq<TaskId>, names: seq<string>)
    requires (forall i :: 0 <= i < |ids| ==> ids[i] in ts) && Unlisted(ts, ids, names) == []
    ensures |ListedNames(ts, ids, names)| == |ids|
    ensures forall i :: 0 <= i < |ids| ==> ts[ids[i]].name == ListedNames(ts, ids, names)[i]
  {
    if ids != [] {
      AllListed(ts, ids[..|ids| - 1], names);
    }
  }

  lemma {:induction false} ListedAfterPrefix(ts: Tasks, ids: seq<TaskId>, names: seq<string>)
    requires (forall i :: 0 <= i < |ids| ==> ids[i] in ts) && IsPrefix(ts, ids, names)
    ensures var listed := ListedNames(ts, ids, names);
            && |listed| >= |names| && listed[..|names|] == names
            && (listed == names <==> forall i :: |names| <= i < |ids| ==> ts[ids[i]].name !in names)
    decreases |ids|
  {
    var n := |ids| - 1;
    if |names| == |ids| {
      ListedAll(ts, ids, names, names);
      assert ListedNames(ts, ids, names)[..|names|] == names;
    } else {
      ListedAfterPrefix(ts, ids[..n], names);
      assert forall i :: |names| <= i < n ==> ids[..n][i] == ids[i];
    }
  }

  method PrefixOf(ts: Tasks, ids: seq<TaskId>, names: seq<string>) returns (r: bool)
    requires forall i :: 0 <= i < |ids| ==> ids[i] in ts
    ensures r == IsPrefix(ts, ids, names)
  {
    if |ids| < |names| {
      return false;
    }
    for i := 0 to |names|
      invariant forall k :: 0 <= k < i ==> ts[ids[k]].name == names[k]
    {
      if ts[ids[i]].name != names[i] {
        return false;
      }
    }
    r := true;
  }

  /** Whether the order is to change, and the tasks not listed. */
  method FindOrder(ts: Tasks, ids: seq<TaskId>, names: seq<string>) returns (r: bool)
    requires forall i :: 0 <= i < |ids| ==> ids[i] in ts
    ensures r == NeedsReorder(ts, ids, names)
    ensures r <==> !BeginsWith(ts, ids, names)
  {
    NeedsReorderExactly(ts, ids, names);
    var order, unlisted := [], [];
    for i := 0 to |ids|
      invariant order == ListedNames(ts, ids[..i], names) && unlisted == Unlisted(ts, ids[..i], names)
    {
      assert ids[..i + 1][..i] == ids[..i];
      if ts[ids[i]].name in names {
        order := order + [ts[ids[i]].name];
      } else {
        unlisted := unlisted + [ids[i]];
      }
    }
    assert ids[..|ids|] == ids;
    var prefix := PrefixOf(ts, ids, names);
    r := order != names || (|unlisted| > 0 && !prefix);
  }

  lemma {:induction false} ListedAll(ts: Tasks, listed: seq<TaskId>, names: seq<string>, all: seq<string>)
    requires Named(ts, listed, names) && forall n :: n in names ==> n in all
    ensures ListedNames(ts, listed, all) == names
  {
    if listed != [] {
      var k := |listed| - 1;
      assert names[k] in names;
      ListedAll(ts, listed[..k], names[..k], all);
      assert names == names[..k] + [names[k]];
    }
  }

  lemma {:induction false} ListedThenOthers(ts: Tasks, listed: seq<TaskId>, others: seq<TaskId>, names: seq<string>)
    requires Named(ts, listed, names) && Others(ts, others, names)
    ensures ListedNames(ts, listed + others, names) == names
  {
    if others == [] {
      ListedAll(ts, listed, names, names);
      assert listed + others == listed;
    } else {
      var k := |others| - 1;
      assert (listed + others)[..|listed| + k] == listed + others[..k];
      ListedThenOthers(ts, listed, others[..k], names);
    }
  }

  /** A reordered contest needs no reordering. */
  lemma ReorderedSettles(ts: Tasks, ts': Tasks, c: int, names: seq<string>, ids: seq<TaskId>)
    requires UniqueNames(ts) && Reordered(ts, ts', c, names) && Lists(ts', c, ids)
    ensures !NeedsReorder(ts', ids, names)
  {
    var current, listed :| ReorderedBy(ts, ts', c, names, current, listed);
    ReorderedLists(ts, ts', c, names, current, listed);
    ListsSame(ts', c, ids, listed + Unlisted(ts, current, names));
    ReorderedNames(ts, ts', c, names, current, listed);
    InOrder(ts', listed, Unlisted(ts, current, names), names);
  }

  /** Renumbering changes no name. */
  lemma ReorderedNames(ts: Tasks, ts': Tasks, c: int, names: seq<string>, current: seq<TaskId>, listed: seq<TaskId>)
    requires ReorderedBy(ts, ts', c, names, current, listed)
    ensures Named(ts', listed, names)
    ensures Others(ts', Unlisted(ts, current, names), names)
  {
    var others := Unlisted(ts, current, names);
    UnlistedMembers(ts, current, names);
    assert forall i :: 0 <= i < |others| ==> others[i] in others;
  }

  /** None of these tasks is listed. */
  ghost predicate Others(ts: Tasks, others: seq<TaskId>, names: seq<string>) {
    forall i :: 0 <= i < |others| ==> others[i] in ts && ts[others[i]].name !in names
  }

  /** Listed tasks followed by others are in order. */
  lemma InOrder(ts: Tasks, listed: seq<TaskId>, others: seq<TaskId>, names: seq<string>)
    requires Named(ts, listed, names) && Others(ts, others, names)
    ensures (forall i :: 0 <= i < |listed + others| ==> (listed + others)[i] in ts)
            && !NeedsReorder(ts, listed + others, names)
  {
    ListedThenOthers(ts, listed, others, names);
  }

  // ----------------------------------------------------------------- applying

  ghost predicate Readable(dir: Directory) {
    DistinctNames(dir.names) && forall k :: 0 <= k < |dir.names| ==> dir.names[k] in dir.packages
  }

  /** There is a task with this name, and it needs nothing. */
  ghost predicate TaskSettled(env: Env, ts: Tasks, name: string, digest: string, mayGoLive: bool) {
    exists id :: id in ts && ts[id].name == name && Quiet(Plan(env, ts[id].body, digest, mayGoLive))
  }

  /** The database matches the directory as far as the options allow. */
  ghost predicate Settled(env: Env, ts: Tasks, c: int, dir: Directory, mayGoLive: bool)
    requires Readable(dir)
  {
    && (forall k :: 0 <= k < |dir.names| ==>
          TaskSettled(env, ts, dir.names[k], dir.packages[dir.names[k]].digest, mayGoLive))
    && (forall ids :: Lists(ts, c, ids) ==> !NeedsReorder(ts, ids, dir.names))
  }

  /** The task may be used: free, or already in the contest. */
  predicate Usable(t: Task, c: int, present: bool) { t.contest.None? || (present && t.contest == Some(c)) }

  /** The tasks found for the names, and none of them taken by another contest. */
  ghost predicate Planned(ts: Tasks, c: int, present: bool, names: seq<string>, plans: seq<Option<TaskId>>) {
    && |plans| == |names|
    && (forall k :: 0 <= k < |plans| && plans[k].Some? ==>
          plans[k].value in ts && ts[plans[k].value].name == names[k] && Usable(ts[plans[k].value], c, present))
    && (forall k :: 0 <= k < |plans| && plans[k].None? ==> !Known(ts, names[k]))
  }

  /** Some name belongs to a task of another contest. */
  ghost predicate Taken(ts: Tasks, c: int, present: bool, names: seq<string>) {
    exists id :: id in ts && ts[id].name in names && !Usable(ts[id], c, present)
  }

  method FindTasks(db: TaskDb, c: int, present: bool, names: seq<string>) returns (ok: bool, plans: seq<Option<TaskId>>)
    requires db.Valid()
    ensures ok ==> Planned(db.tasks, c, present, names, plans)
    ensures !ok ==> Taken(db.tasks, c, present, names)
  {
    plans := [];
    for i := 0 to |names|
      invariant Planned(db.tasks, c, present, names[..i], plans)
    {
      var t := db.GetTaskByName(names[i]);
      if t.Some? && !Usable(db.tasks[t.value], c, present) {
        return false, plans;
      }
      plans := plans + [t];
    }
    assert names[..|names|] == names;
    ok := true;
  }

  /** The action for one name. */
  function ActionFor(env: Env, ts: Tasks, dir: Directory, name: string, t: Option<TaskId>, mayGoLive: bool): Action
    requires name in dir.packages && (t.Some? ==> t.value in ts)
  {
    if t.None? then Created else Plan(env, ts[t.value].body, dir.packages[name].digest, mayGoLive)
  }

  method MakeReport(env: Env, ts: Tasks, dir: Directory, plans: seq<Option<TaskId>>, mayGoLive: bool)
    returns (actions: seq<Action>)
    requires Readable(dir) && |plans| == |dir.names|
             && forall k :: 0 <= k < |plans| && plans[k].Some? ==> plans[k].value in ts
    ensures |actions| == |plans|
    ensures forall k :: 0 <= k < |plans| ==> actions[k] == ActionFor(env, ts, dir, dir.names[k], plans[k], mayGoLive)
  {
    actions := [];
    for i := 0 to |plans|
      invariant |actions| == i
      invariant forall k :: 0 <= k < i ==> actions[k] == ActionFor(env, ts, dir, dir.names[k], plans[k], mayGoLive)
    {
      var a := Created;
      if plans[i].Some? {
        var body := ts[plans[i].value].body;
        var live, imported := Current(env, body, dir.packages[dir.names[i]].digest);
        if live {
          a := Unchanged;
        } else if imported.Some? && mayGoLive {
          a := Activated;
        } else if imported.Some? {
          a := Pending;
        } else {
          a := Updated(mayGoLive);
        }
      }
      actions := actions + [a];
    }
  }

  /** The first i tasks are written; the others are as they were planned. */
  ghost predicate Writing(env: Env, ts0: Tasks, ts: Tasks, dir: Directory, plans: seq<Option<TaskId>>, mayGoLive: bool,
                          i: nat)
    requires Readable(dir) && |plans| == |dir.names|
  {
    forall s {:trigger Unsealed(s, Inner, i)} :: Unsealed(s, Inner, i) ==>
      WritingBy(env, ts0, ts, dir, plans, mayGoLive, i)
  }

  ghost predicate WritingBy(env: Env, ts0: Tasks, ts: Tasks, dir: Directory, plans: seq<Option<TaskId>>,
                            mayGoLive: bool, i: nat)
    requires Readable(dir) && |plans| == |dir.names|
  {
    && ts0.Keys <= ts.Keys && ((forall k :: 0 <= k < |plans| ==> plans[k].Some?) ==> ts.Keys == ts0.Keys)
    && (forall id :: id in ts0 ==> ts[id] == ts0[id].(body := ts[id].body))
    && (forall k :: i <= k < |plans| && plans[k].Some? && plans[k].value in ts0 ==>
          ts[plans[k].value] == ts0[plans[k].value])
    && (forall k :: i <= k < |plans| && plans[k].None? ==> !Known(ts, dir.names[k]))
    && (forall k :: 0 <= k < i && k < |plans| ==>
          TaskSettled(env, ts, dir.names[k], dir.packages[dir.names[k]].digest, mayGoLive))
  }

  /** A change of one task that leaves the others alone keeps them settled. */
  lemma OthersSettled(env: Env, ts: Tasks, ts': Tasks, id: TaskId, name: string, digest: string, mayGoLive: bool)
    requires TaskSettled(env, ts, name, digest, mayGoLive) && (id in ts ==> ts[id].name != name)
    requires ts.Keys <= ts'.Keys && forall x :: x in ts && x != id ==> ts'[x] == ts[x]
    ensures TaskSettled(env, ts', name, digest, mayGoLive)
  {
    var x :| x in ts && ts[x].name == name && Quiet(Plan(env, ts[x].body, digest, mayGoLive));
    assert ts'[x] == ts[x];
  }

  /** The task just written is settled, and the others stay so. */
  lemma SettledNext(env: Env, ts: Tasks, ts': Tasks, dir: Directory, mayGoLive: bool, i: nat, id: TaskId)
    requires Readable(dir) && i < |dir.names| && id in ts' && ts'.Keys == ts.Keys + {id}
    requires (id in ts ==> ts[id].name == ts'[id].name) && forall x :: x in ts && x != id ==> ts'[x] == ts[x]
    requires ts'[id].name == dir.names[i]
             && Quiet(Plan(env, ts'[id].body, dir.packages[dir.names[i]].digest, mayGoLive))
    requires forall k :: 0 <= k < i ==>
               TaskSettled(env, ts, dir.names[k], dir.packages[dir.names[k]].digest, mayGoLive)
    ensures forall k :: 0 <= k < i + 1 ==>
              TaskSettled(env, ts', dir.names[k], dir.packages[dir.names[k]].digest, mayGoLive)
  {
    forall k | 0 <= k < i
      ensures TaskSettled(env, ts', dir.names[k], dir.packages[dir.names[k]].digest, mayGoLive)
    {
      OthersSettled(env, ts, ts', id, dir.names[k], dir.packages[dir.names[k]].digest, mayGoLive);
    }
  }

  lemma WriteExisting(env: Env, ts0: Tasks, ts: Tasks, dir: Directory, plans: seq<Option<TaskId>>, mayGoLive: bool,
                      i: nat, body: Body)
    requires Readable(dir) && |plans| == |dir.names| && i < |plans| && plans[i].Some? && UniqueNames(ts0)
    requires (forall k :: 0 <= k < |plans| && plans[k].Some? ==>
                plans[k].value in ts0 && ts0[plans[k].value].name == dir.names[k])
    requires Writing(env, ts0, ts, dir, plans, mayGoLive, i)
    requires Quiet(Plan(env, body, dir.packages[dir.names[i]].digest, mayGoLive))
    requires plans[i].value in ts
    ensures var id := plans[i].value;
            Writing(env, ts0, ts[id := ts[id].(body := body)], dir, plans, mayGoLive, i + 1)
  {
    assert Unsealed(Seal, Inner, i);
    var id := plans[i].value;
    var ts' := ts[id := ts[id].(body := body)];
    assert ts[id].name == dir.names[i];
    SettledNext(env, ts, ts', dir, mayGoLive, i, id);
    forall k | i + 1 <= k < |plans| && plans[k].None?
      ensures !Known(ts', dir.names[k])
    {
      assert !Known(ts, dir.names[k]);
      SameNamesUnknown(ts, ts', dir.names[k]);
    }
  }

  lemma SameNamesUnknown(ts: Tasks, ts': Tasks, name: string)
    requires !Known(ts, name) && forall x :: x in ts' ==> (x in ts && ts'[x].name == ts[x].name) || ts'[x].name != name
    ensures !Known(ts', name)
  {
  }

  lemma WriteNew(env: Env, ts0: Tasks, ts: Tasks, dir: Directory, plans: seq<Option<TaskId>>, mayGoLive: bool, i: nat,
                 id: TaskId, t: Task)
    requires Readable(dir) && |plans| == |dir.names| && i < |plans| && plans[i].None? && id !in ts
    requires Writing(env, ts0, ts, dir, plans, mayGoLive, i) && t.name == dir.names[i]
    requires Quiet(Plan(env, t.body, dir.packages[dir.names[i]].digest, mayGoLive))
    ensures Writing(env, ts0, ts[id := t], dir, plans, mayGoLive, i + 1)
  {
    assert Unsealed(Seal, Inner, i);
    var ts' := ts[id := t];
    SettledNext(env, ts, ts', dir, mayGoLive, i, id);
    forall k | i + 1 <= k < |plans| && plans[k].None?
      ensures !Known(ts', dir.names[k])
    {
      assert !Known(ts, dir.names[k]) && dir.names[i] != dir.names[k];
      SameNamesUnknown(ts, ts', dir.names[k]);
    }
    assert !(forall k :: 0 <= k < |plans| ==> plans[k].Some?);
  }

  lemma WriteNothing(env: Env, ts0: Tasks, ts: Tasks, dir: Directory, plans: seq<Option<TaskId>>, mayGoLive: bool,
                     i: nat)
    requires Readable(dir) && |plans| == |dir.names| && i < |plans| && plans[i].Some?
    requires plans[i].value in ts0 && ts0[plans[i].value].name == dir.names[i]
    requires Writing(env, ts0, ts, dir, plans, mayGoLive, i)
    requires Quiet(Plan(env, ts0[plans[i].value].body, dir.packages[dir.names[i]].digest, mayGoLive))
    ensures Writing(env, ts0, ts, dir, plans, mayGoLive, i + 1)
  {
    assert Unsealed(Seal, Inner, i);
    var id := plans[i].value;
    assert TaskSettled(env, ts, dir.names[i], dir.packages[dir.names[i]].digest, mayGoLive) by {
      assert id in ts && ts[id] == ts0[id];
    }
  }

  /** A task still to be written is as it was planned, and a name that was not found is still free. */
  lemma WritingNext(env: Env, ts0: Tasks, ts: Tasks, dir: Directory, plans: seq<Option<TaskId>>, mayGoLive: bool,
                    i: nat)
    requires Readable(dir) && |plans| == |dir.names| && i < |plans| && Writing(env, ts0, ts, dir, plans, mayGoLive, i)
    ensures plans[i].Some? && plans[i].value in ts0 ==>
              plans[i].value in ts && ts[plans[i].value] == ts0[plans[i].value]
    ensures plans[i].None? ==> !Known(ts, dir.names[i])
  {
    assert Unsealed(Seal, Inner, i);
  }

  lemma WritingSettles(env: Env, ts0: Tasks, ts: Tasks, dir: Directory, plans: seq<Option<TaskId>>, mayGoLive: bool,
                       i: nat)
    requires Readable(dir) && |plans| == |dir.names| && Writing(env, ts0, ts, dir, plans, mayGoLive, i)
    ensures SettledUpTo(env, ts, dir, mayGoLive, i)
  {
    assert Unsealed(Seal, Inner, i);
  }

  lemma WritingBegins(env: Env, ts: Tasks, dir: Directory, plans: seq<Option<TaskId>>, mayGoLive: bool)
    requires Readable(dir) && |plans| == |dir.names|
             && forall k :: 0 <= k < |plans| && plans[k].None? ==> !Known(ts, dir.names[k])
    ensures Writing(env, ts, ts, dir, plans, mayGoLive, 0)
  {
  }

  /** The task of this name is what the package makes of it. */
  ghost predicate TaskWritten(env: Env, ts0: Tasks, ts: Tasks, name: string, p: Package, mayGoLive: bool) {
    exists id :: id in ts && ts[id].name == name && WrittenBy(env, ts0, ts, id, p, mayGoLive)
  }

  ghost predicate WrittenBy(env: Env, ts0: Tasks, ts: Tasks, id: TaskId, p: Package, mayGoLive: bool)
    requires id in ts
  {
    if id in ts0 then BodyWritten(env, ts0[id].body, ts[id].body, p, mayGoLive) else NewlyWritten(env, ts[id].body, p)
  }

  /** The first n listed tasks are what their packages make of them, and all others are as they were. */
  ghost predicate WrittenUpTo(env: Env, ts0: Tasks, ts: Tasks, dir: Directory, mayGoLive: bool, n: nat)
    requires Readable(dir)
  {
    forall s {:trigger Unsealed(s)} :: Unsealed(s) ==>
      && (forall id :: id in ts0 ==> id in ts && ts[id] == ts0[id].(body := ts[id].body))
      && (forall id :: id in ts0 && (forall k :: 0 <= k < n && k < |dir.names| ==> dir.names[k] != ts0[id].name) ==>
            ts[id] == ts0[id])
      && (forall k :: 0 <= k < n && k < |dir.names| ==>
            TaskWritten(env, ts0, ts, dir.names[k], dir.packages[dir.names[k]], mayGoLive))
  }

  /** Another task is written. */
  lemma WrittenNext(env: Env, ts0: Tasks, ts: Tasks, ts': Tasks, dir: Directory, mayGoLive: bool, i: nat, id: TaskId)
    requires Readable(dir) && i < |dir.names| && WrittenUpTo(env, ts0, ts, dir, mayGoLive, i)
    requires id in ts' && ts'.Keys == ts.Keys + {id} && forall x :: x in ts && x != id ==> ts'[x] == ts[x]
    requires ts'[id].name == dir.names[i] && (id in ts ==> id in ts0)
    requires if id in ts0 then ts'[id] == ts0[id].(body := ts'[id].body)
                               && BodyWritten(env, ts0[id].body, ts'[id].body, dir.packages[dir.names[i]], mayGoLive)
             else NewlyWritten(env, ts'[id].body, dir.packages[dir.names[i]])
    ensures WrittenUpTo(env, ts0, ts', dir, mayGoLive, i + 1)
  {
    assert Unsealed(Seal);
    forall k | 0 <= k <= i
      ensures TaskWritten(env, ts0, ts', dir.names[k], dir.packages[dir.names[k]], mayGoLive)
    {
      if k < i {
        StaysWritten(env, ts0, ts, ts', dir.names[k], dir.packages[dir.names[k]], mayGoLive, id);
      }
    }
    forall x | x in ts0 && forall k :: 0 <= k <= i ==> dir.names[k] != ts0[x].name
      ensures ts'[x] == ts0[x]
    {
      assert dir.names[i] != ts0[x].name;
    }
  }

  lemma StaysWritten(env: Env, ts0: Tasks, ts: Tasks, ts': Tasks, name: string, p: Package, mayGoLive: bool, id: TaskId)
    requires TaskWritten(env, ts0, ts, name, p, mayGoLive) && id in ts' && ts'[id].name != name
    requires forall x :: x in ts && x != id ==> x in ts' && ts'[x] == ts[x]
    requires id in ts ==> ts[id].name == ts'[id].name
    ensures TaskWritten(env, ts0, ts', name, p, mayGoLive)
  {
  }

  // ------------------------------------------------------- carrying out actions

  /** What is to be written: the tasks as they were found, and the actions planned for them. */
  datatype Work = Work(env: Env, c: int, dir: Directory, mayGoLive: bool, before: Tasks, plans: seq<Option<TaskId>>,
                       actions: seq<Action>)

  ghost predicate Proper(w: Work) { Readable(w.dir) && |w.plans| == |w.actions| == |w.dir.names| }

  /** The planned tasks carry the names they were planned for. */
  ghost predicate Found(ts: Tasks, names: seq<string>, plans: seq<Option<TaskId>>) {
    && |plans| == |names|
    && forall k :: 0 <= k < |plans| && plans[k].Some? ==> plans[k].value in ts && ts[plans[k].value].name == names[k]
  }

  /** Every name has the action its task asks for. */
  ghost predicate ActionsFit(w: Work)
    requires Proper(w)
  {
    forall s {:trigger Unsealed(s, Outermost)} :: Unsealed(s, Outermost) ==>
      && UniqueNames(w.before) && Found(w.before, w.dir.names, w.plans)
      && (forall k :: 0 <= k < |w.plans| && w.plans[k].None? ==> !Known(w.before, w.dir.names[k]))
      && forall k :: 0 <= k < |w.plans| ==>
           w.actions[k] == ActionFor(w.env, w.before, w.dir, w.dir.names[k], w.plans[k], w.mayGoLive)
  }

  lemma ActionsFitMeans(w: Work)
    requires Proper(w) && ActionsFit(w)
    ensures UniqueNames(w.before) && Found(w.before, w.dir.names, w.plans)
    ensures forall k :: 0 <= k < |w.plans| && w.plans[k].None? ==> !Known(w.before, w.dir.names[k])
    ensures forall k :: 0 <= k < |w.plans| ==>
              w.actions[k] == ActionFor(w.env, w.before, w.dir, w.dir.names[k], w.plans[k], w.mayGoLive)
  {
    assert Unsealed(Seal, Outermost);
  }

  /** The i-th task found is in no contest. */
  ghost predicate FreeTask(ts: Tasks, plans: seq<Option<TaskId>>, i: nat) {
    i < |plans| && plans[i].Some? && plans[i].value in ts && ts[plans[i].value].contest.None?
  }

  ghost predicate SomeFree(w: Work) { exists k: nat :: FreeTask(w.before, w.plans, k) }

  ghost predicate AllQuiet(actions: seq<Action>) { forall k :: 0 <= k < |actions| ==> Quiet(actions[k]) }

  /**
   The first i actions are carried out, and the contest has grown by at most i tasks. A task is attached only if
   it was in no contest.
   */
  ghost predicate Carried(w: Work, ts: Tasks, attach: bool, i: nat)
    requires Proper(w)
  {
    forall s {:trigger Unsealed(s, Outer, i)} :: Unsealed(s, Outer, i) ==>
      && ActionsFit(w) && Writing(w.env, w.before, ts, w.dir, w.plans, w.mayGoLive, i)
      && Grown(w.before, ts, w.c, w.dir.names, i) && WrittenUpTo(w.env, w.before, ts, w.dir, w.mayGoLive, i)
      && (attach ==> SomeFree(w)) && (AllQuiet(w.actions) ==> ts == w.before && !attach)
  }

  lemma CarriedMeans(w: Work, ts: Tasks, attach: bool, i: nat)
    requires Proper(w) && Carried(w, ts, attach, i)
    ensures ActionsFit(w) && Writing(w.env, w.before, ts, w.dir, w.plans, w.mayGoLive, i)
    ensures Grown(w.before, ts, w.c, w.dir.names, i) && WrittenUpTo(w.env, w.before, ts, w.dir, w.mayGoLive, i)
    ensures (attach ==> SomeFree(w)) && (AllQuiet(w.actions) ==> ts == w.before && !attach)
  {
    assert Unsealed(Seal, Outer, i);
  }

  lemma CarriedBegins(w: Work)
    requires Proper(w) && ActionsFit(w)
    ensures Carried(w, w.before, false, 0)
  {
    ActionsFitMeans(w);
    WritingBegins(w.env, w.before, w.dir, w.plans, w.mayGoLive);
    GrownStart(w.before, w.c, w.dir.names);
  }

  /** A task still to be written is as it was found, and its action is the one it asks for. */
  lemma CarriedNext(w: Work, ts: Tasks, attach: bool, i: nat)
    requires Proper(w) && Carried(w, ts, attach, i) && i < |w.plans|
    ensures w.plans[i].None? ==> !Known(ts, w.dir.names[i]) && w.actions[i] == Created
    ensures w.plans[i].Some? ==>
              && w.plans[i].value in ts && w.plans[i].value in w.before
              && ts[w.plans[i].value] == w.before[w.plans[i].value]
              && w.actions[i] ==
                   Plan(w.env, ts[w.plans[i].value].body, w.dir.packages[w.dir.names[i]].digest, w.mayGoLive)
  {
    CarriedMeans(w, ts, attach, i);
    ActionsFitMeans(w);
    WritingNext(w.env, w.before, ts, w.dir, w.plans, w.mayGoLive, i);
  }

  /** Nothing is to be done to the next task. */
  lemma CarriedSame(w: Work, ts: Tasks, attach: bool, i: nat)
    requires Proper(w) && Carried(w, ts, attach, i) && i < |w.plans| && Quiet(w.actions[i])
    ensures Carried(w, ts, attach, i + 1)
  {
    CarriedMeans(w, ts, attach, i);
    CarriedNext(w, ts, attach, i);
    ActionsFitMeans(w);
    WriteNothing(w.env, w.before, ts, w.dir, w.plans, w.mayGoLive, i);
    GrownSame(w.before, ts, w.c, w.dir.names, i);
    WrittenAs(w.env, w.before[w.plans[i].value].body, w.dir.packages[w.dir.names[i]], w.mayGoLive);
    WrittenNext(w.env, w.before, ts, ts, w.dir, w.mayGoLive, i, w.plans[i].value);
  }

  /** The next task is created. */
  lemma CarriedNew(w: Work, ts: Tasks, ts': Tasks, attach: bool, i: nat, id: TaskId)
    requires Proper(w) && Carried(w, ts, attach, i) && i < |w.plans| && w.plans[i].None?
    requires id !in ts && id in ts' && ts' == ts[id := ts'[id]]
    requires ts'[id].name == w.dir.names[i] && ts'[id].contest == Some(w.c) && ts'[id].num.Some?
             && ts'[id].body == NewBody(w.env, w.dir.packages[w.dir.names[i]])
    requires forall b :: b >= 0 && Below(ts, w.c, b) ==> ts'[id].num.value <= b
    ensures Carried(w, ts', attach, i + 1)
  {
    CarriedMeans(w, ts, attach, i);
    CarriedNext(w, ts, attach, i);
    NewBodyQuiet(w.env, w.dir.packages[w.dir.names[i]], w.mayGoLive);
    WriteNew(w.env, w.before, ts, w.dir, w.plans, w.mayGoLive, i, id, ts'[id]);
    GrownNext(w.before, ts, ts', w.c, w.dir.names, i, id);
    WrittenKeys(w.env, w.before, ts, w.dir, w.mayGoLive, i);
    WrittenNext(w.env, w.before, ts, ts', w.dir, w.mayGoLive, i, id);
  }

  lemma WrittenKeys(env: Env, ts0: Tasks, ts: Tasks, dir: Directory, mayGoLive: bool, n: nat)
    requires Readable(dir) && WrittenUpTo(env, ts0, ts, dir, mayGoLive, n)
    ensures ts0.Keys <= ts.Keys
  {
    assert Unsealed(Seal);
  }

  /** The planned action is carried out on the next task. */
  lemma CarriedExisting(w: Work, ts: Tasks, attach: bool, free: bool, i: nat, body: Body)
    requires Proper(w) && Carried(w, ts, attach, i) && i < |w.plans| && w.plans[i].Some? && !Quiet(w.actions[i])
    requires w.plans[i].value in ts
    requires body == Written(w.env, ts[w.plans[i].value].body, w.dir.packages[w.dir.names[i]], w.actions[i])
    requires free ==> ts[w.plans[i].value].contest.None?
    ensures Carried(w, ts[w.plans[i].value := ts[w.plans[i].value].(body := body)], attach || free, i + 1)
  {
    var id, p := w.plans[i].value, w.dir.packages[w.dir.names[i]];
    CarriedMeans(w, ts, attach, i);
    CarriedNext(w, ts, attach, i);
    ActionsFitMeans(w);
    WrittenQuiet(w.env, ts[id].body, p, w.mayGoLive);
    WrittenAs(w.env, ts[id].body, p, w.mayGoLive);
    WriteExisting(w.env, w.before, ts, w.dir, w.plans, w.mayGoLive, i, body);
    var ts' := ts[id := ts[id].(body := body)];
    GrownNext(w.before, ts, ts', w.c, w.dir.names, i, id);
    WrittenNext(w.env, w.before, ts, ts', w.dir, w.mayGoLive, i, id);
    assert free ==> FreeTask(w.before, w.plans, i);
  }

  /** Carries out one action. */
  method WriteTask(db: TaskDb, w: Work, attach: bool, i: nat) returns (attach': bool)
    requires db.Valid() && Proper(w) && i < |w.plans| && Carried(w, db.tasks, attach, i)
    modifies db
    ensures db.Valid() && Carried(w, db.tasks, attach', i + 1)
  {
    attach' := attach;
    var a, p := w.actions[i], w.dir.packages[w.dir.names[i]];
    CarriedNext(w, db.tasks, attach, i);
    if Quiet(a) {
      CarriedSame(w, db.tasks, attach, i);
    } else if w.plans[i].None? {
      ghost var ts := db.tasks;
      var id := db.CreateTask(w.dir.names[i], w.c, NewBody(w.env, p));
      CarriedNew(w, ts, db.tasks, attach, i, id);
    } else {
      var id := w.plans[i].value;
      var body := Written(w.env, db.tasks[id].body, p, a);
      var free := a.Updated? && db.tasks[id].contest.None?;
      CarriedExisting(w, db.tasks, attach, free, i, body);
      db.SetBody(id, body);
      attach' := attach || free;
    }
  }

  /** How many actions are carried out. */
  function Reached(failed: Option<nat>, n: nat): nat { if failed.Some? then failed.value else n }

  /** Carries out every action, up to the one at which the database fails, if any. */
  method WriteTasks(db: TaskDb, w: Work, fault: Option<nat>) returns (attach: bool, failed: Option<nat>)
    requires db.Valid() && Proper(w) && w.before == db.tasks && ActionsFit(w)
    modifies db
    ensures db.Valid() && Carried(w, db.tasks, attach, Reached(failed, |w.plans|))
    ensures failed.Some? ==> failed == fault && failed.value < |w.plans| && !Quiet(w.actions[failed.value])
    ensures failed.None? && fault.Some? && fault.value < |w.plans| ==> Quiet(w.actions[fault.value])
  {
    attach, failed := false, None;
    CarriedBegins(w);
    for i := 0 to |w.plans|
      invariant db.Valid() && Carried(w, db.tasks, attach, i)
      invariant fault.Some? && fault.value < i ==> Quiet(w.actions[fault.value])
    {
      if fault == Some(i) && !Quiet(w.actions[i]) {
        failed := fault;
        return;
      }
      attach := WriteTask(db, w, attach, i);
    }
  }

  /** The order depends only on the names and places of the tasks. */
  lemma {:induction false} SameOrder(ts: Tasks, ts': Tasks, ids: seq<TaskId>, names: seq<string>)
    requires forall i :: 0 <= i < |ids| ==> ids[i] in ts && ids[i] in ts' && ts'[ids[i]].name == ts[ids[i]].name
    ensures ListedNames(ts', ids, names) == ListedNames(ts, ids, names)
            && Unlisted(ts', ids, names) == Unlisted(ts, ids, names)
    ensures NeedsReorder(ts', ids, names) == NeedsReorder(ts, ids, names)
  {
    if ids != [] {
      SameOrder(ts, ts', ids[..|ids| - 1], names);
    }
  }

  lemma {:induction false} ListedNamesKnown(ts: Tasks, ids: seq<TaskId>, names: seq<string>, n: string)
    requires (forall i :: 0 <= i < |ids| ==> ids[i] in ts) && n in ListedNames(ts, ids, names)
    ensures exists i :: 0 <= i < |ids| && ts[ids[i]].name == n
  {
    var k := |ids| - 1;
    if ts[ids[k]].name != n {
      ListedNamesKnown(ts, ids[..k], names, n);
      var i :| 0 <= i < |ids[..k]| && ts[ids[..k][i]].name == n;
      assert ts[ids[i]].name == n;
    }
  }

  /** In a contest that needs no reordering every listed name is the name of one of its tasks. */
  lemma InOrderKnown(ts: Tasks, c: int, ids: seq<TaskId>, names: seq<string>, k: nat) returns (id: TaskId)
    requires Lists(ts, c, ids) && !NeedsReorder(ts, ids, names) && k < |names|
    ensures id in ts && ts[id].name == names[k] && ts[id].contest == Some(c)
  {
    assert names[k] in ListedNames(ts, ids, names);
    ListedNamesKnown(ts, ids, names, names[k]);
    var i :| 0 <= i < |ids| && ts[ids[i]].name == names[k];
    id := ids[i];
    assert id in ids;
  }

  /** When nothing is reordered the order was right and no task was added. */
  lemma StaysInOrder(env: Env, ts0: Tasks, ts: Tasks, c: int, dir: Directory, plans: seq<Option<TaskId>>,
                     mayGoLive: bool, current: seq<TaskId>)
    requires Readable(dir) && |plans| == |dir.names| && Writing(env, ts0, ts, dir, plans, mayGoLive, |plans|)
    requires forall k :: 0 <= k < |plans| && plans[k].None? ==> !Known(ts0, dir.names[k])
    requires Lists(ts0, c, current) && !NeedsReorder(ts0, current, dir.names)
    ensures forall ids :: Lists(ts, c, ids) ==> !NeedsReorder(ts, ids, dir.names)
  {
    assert Unsealed(Seal, Inner, |plans|);
    forall k | 0 <= k < |plans|
      ensures plans[k].Some?
    {
      var id := InOrderKnown(ts0, c, current, dir.names, k);
      assert Known(ts0, dir.names[k]);
    }
    forall ids | Lists(ts, c, ids)
      ensures !NeedsReorder(ts, ids, dir.names)
    {
      SamePlaces(ts0, ts, c, ids);
      ListsSame(ts0, c, ids, current);
      SameOrder(ts0, ts, ids, dir.names);
    }
  }

  lemma SamePlaces(ts: Tasks, ts': Tasks, c: int, ids: seq<TaskId>)
    requires ts'.Keys == ts.Keys && (forall id :: id in ts ==> ts'[id] == ts[id].(body := ts'[id].body))
             && Lists(ts', c, ids)
    ensures Lists(ts, c, ids)
  {
    assert forall a, b :: a in ts && b in ts ==> Before(ts', a, b) == Before(ts, a, b);
  }

  /** Renumbering leaves what the tasks hold alone. */
  lemma ReorderedKeepsSettled(env: Env, ts: Tasks, ts': Tasks, c: int, names: seq<string>, name: string, digest: string,
                              mayGoLive: bool)
    requires Reordered(ts, ts', c, names) && TaskSettled(env, ts, name, digest, mayGoLive)
    ensures TaskSettled(env, ts', name, digest, mayGoLive)
  {
    var current, listed :| ReorderedBy(ts, ts', c, names, current, listed);
    var id :| id in ts && ts[id].name == name && Quiet(Plan(env, ts[id].body, digest, mayGoLive));
    assert ts'[id].name == name && ts'[id].body == ts[id].body;
  }

  /** A settled database gives nothing to do. */
  lemma SettledPlans(env: Env, ts: Tasks, c: int, dir: Directory, mayGoLive: bool, current: seq<TaskId>)
    requires Readable(dir) && UniqueNames(ts) && Settled(env, ts, c, dir, mayGoLive) && Lists(ts, c, current)
    ensures !Taken(ts, c, true, dir.names) && !NeedsReorder(ts, current, dir.names)
    ensures forall k, t :: 0 <= k < |dir.names| && (t == None ==> !Known(ts, dir.names[k]))
                           && (t.Some? ==> t.value in ts && ts[t.value].name == dir.names[k]) ==>
              Quiet(ActionFor(env, ts, dir, dir.names[k], t, mayGoLive))
  {
    forall id | id in ts && ts[id].name in dir.names
      ensures Usable(ts[id], c, true)
    {
      var k :| 0 <= k < |dir.names| && dir.names[k] == ts[id].name;
      var x := InOrderKnown(ts, c, current, dir.names, k);
      assert x == id;
    }
    forall k, t | 0 <= k < |dir.names| && (t == None ==> !Known(ts, dir.names[k])) &&
                  (t.Some? ==> t.value in ts && ts[t.value].name == dir.names[k])
      ensures Quiet(ActionFor(env, ts, dir, dir.names[k], t, mayGoLive))
    {
      assert TaskSettled(env, ts, dir.names[k], dir.packages[dir.names[k]].digest, mayGoLive);
      var x :| x in ts && ts[x].name == dir.names[k] &&
               Quiet(Plan(env, ts[x].body, dir.packages[dir.names[k]].digest, mayGoLive));
      assert Known(ts, dir.names[k]);
    }
  }

  /** A contest that does not exist yet has no tasks. */
  ghost predicate NoTasks(ts: Tasks, c: int) { forall id :: id in ts ==> ts[id].contest != Some(c) }

  /** Whether the order is to change. */
  method Reorders(db: TaskDb, c: int, present: bool, names: seq<string>) returns (r: bool, ghost current: seq<TaskId>)
    requires !present ==> NoTasks(db.tasks, c)
    ensures Lists(db.tasks, c, current) && r == NeedsReorder(db.tasks, current, names)
  {
    if !present {
      return |names| > 0, [];
    }
    var ids := db.ListTasksByContest(c);
    current := ids;
    r := FindOrder(db.tasks, ids, names);
  }

  /** Everything that is decided before anything is written. */
  method Prepare(db: TaskDb, env: Env, c: int, present: bool, dir: Directory, mayGoLive: bool)
    returns (ok: bool, plans: seq<Option<TaskId>>, report: Report, ghost current: seq<TaskId>)
    requires db.Valid() && Readable(dir) && (!present ==> NoTasks(db.tasks, c))
    ensures ok ==> Prepared(env, db.tasks, c, dir, mayGoLive, plans, report, current)
    ensures !ok ==> Taken(db.tasks, c, present, dir.names) && report.actions == []
    ensures present && Settled(env, db.tasks, c, dir, mayGoLive) ==> ok && !report.reordered && AllQuiet(report.actions)
  {
    report := Report([], false);
    var reordered;
    reordered, current := Reorders(db, c, present, dir.names);
    if present && Settled(env, db.tasks, c, dir, mayGoLive) {
      SettledPlans(env, db.tasks, c, dir, mayGoLive, current);
    }
    ok, plans := FindTasks(db, c, present, dir.names);
    if ok {
      var actions := MakeReport(env, db.tasks, dir, plans, mayGoLive);
      report := Report(actions, reordered);
    }
  }

  /** What is known of the plans and the report before writing. */
  ghost predicate Prepared(env: Env, ts: Tasks, c: int, dir: Directory, mayGoLive: bool, plans: seq<Option<TaskId>>,
                           report: Report, current: seq<TaskId>)
    requires Readable(dir)
  {
    && |plans| == |report.actions| == |dir.names|
    && ActionsFit(Work(env, c, dir, mayGoLive, ts, plans, report.actions))
    && Lists(ts, c, current) && report.reordered == NeedsReorder(ts, current, dir.names)
  }

  /** Writes each task, then the order; what is written before a failure stays. */
  method Commit(db: TaskDb, env: Env, c: int, dir: Directory, mayGoLive: bool, plans: seq<Option<TaskId>>,
                planned: Report, fault: Option<nat>,
                ghost current: seq<TaskId>)
    returns (ok: bool, report: Report)
    requires db.Valid() && Readable(dir) && Prepared(env, db.tasks, c, dir, mayGoLive, plans, planned, current)
    modifies db
    ensures db.Valid() && (ok ==> Settled(env, db.tasks, c, dir, mayGoLive))
    ensures ok ==> AllWritten(env, old(db.tasks), db.tasks, c, dir, mayGoLive)
    ensures report == planned
    ensures fault.Some? && fault.value < |plans| && !Quiet(planned.actions[fault.value]) ==>
              !ok && SettledUpTo(env, db.tasks, dir, mayGoLive, fault.value)
    ensures fault.None? || fault.value >= |plans| ==> SettledUpTo(env, db.tasks, dir, mayGoLive, |plans|)
    ensures !planned.reordered && AllQuiet(planned.actions) ==> ok && db.tasks == old(db.tasks)
    ensures fault.None? && Room(old(db.tasks), c, dir.names) ==> ok
  {
    ghost var ts0 := db.tasks;
    var w := Work(env, c, dir, mayGoLive, db.tasks, plans, planned.actions);
    var attach, failed := WriteTasks(db, w, fault);
    report := planned.(reordered := planned.reordered || attach);
    CarriedMeans(w, db.tasks, attach, Reached(failed, |plans|));
    WritingSettles(env, ts0, db.tasks, dir, plans, mayGoLive, Reached(failed, |plans|));
    ActionsFitMeans(w);
    FreeNeedsReorder(w, current);
    if failed.Some? {
      return false, report;
    }
    ghost var ts := db.tasks;
    WrittenToEnd(env, ts0, ts, c, dir, mayGoLive);
    if !report.reordered {
      StaysInOrder(env, ts0, db.tasks, c, dir, plans, mayGoLive, current);
      return true, report;
    }
    RoomLeft(env, ts0, ts, c, dir, mayGoLive);
    ok := db.Reorder(c, dir.names);
    if ok {
      AppliedSettled(env, ts, db.tasks, c, dir, mayGoLive);
      WrittenReordered(env, ts0, ts, db.tasks, c, dir, mayGoLive);
    }
  }

  /** The listed tasks are what their packages make of them, and the others are as they were, but for their places. */
  ghost predicate AllWritten(env: Env, ts0: Tasks, ts: Tasks, c: int, dir: Directory, mayGoLive: bool)
    requires Readable(dir)
  {
    forall s {:trigger Unsealed(s)} :: Unsealed(s) ==>
      && (forall k :: 0 <= k < |dir.names| ==>
            TaskWritten(env, ts0, ts, dir.names[k], dir.packages[dir.names[k]], mayGoLive))
      && (forall id :: id in ts0 ==> id in ts && ts[id].name == ts0[id].name)
      && (forall id :: id in ts0 && ts0[id].name !in dir.names ==>
            if ts0[id].contest == Some(c) then ts[id] == ts0[id].(num := ts[id].num) else ts[id] == ts0[id])
      && (forall id :: id in ts && id !in ts0 ==> ts[id].name in dir.names && ts[id].contest == Some(c))
  }

  lemma WrittenToEnd(env: Env, ts0: Tasks, ts: Tasks, c: int, dir: Directory, mayGoLive: bool)
    requires Readable(dir) && Grown(ts0, ts, c, dir.names, |dir.names|)
    requires WrittenUpTo(env, ts0, ts, dir, mayGoLive, |dir.names|)
    ensures AllWritten(env, ts0, ts, c, dir, mayGoLive)
  {
    assert Unsealed(Seal);
  }

  lemma WrittenReordered(env: Env, ts0: Tasks, ts: Tasks, ts': Tasks, c: int, dir: Directory, mayGoLive: bool)
    requires Readable(dir) && UniqueNames(ts)
    requires AllWritten(env, ts0, ts, c, dir, mayGoLive) && Renumbered(ts, ts', c, dir.names)
    ensures AllWritten(env, ts0, ts', c, dir, mayGoLive)
  {
    assert Unsealed(Seal);
    forall k | 0 <= k < |dir.names|
      ensures TaskWritten(env, ts0, ts', dir.names[k], dir.packages[dir.names[k]], mayGoLive)
    {
      var p := dir.packages[dir.names[k]];
      assert TaskWritten(env, ts0, ts, dir.names[k], p, mayGoLive);
      var id :| id in ts && ts[id].name == dir.names[k] && WrittenBy(env, ts0, ts, id, p, mayGoLive);
      assert ts'[id].name == dir.names[k] && WrittenBy(env, ts0, ts', id, p, mayGoLive);
    }
    forall id | id in ts' && id !in ts0
      ensures ts'[id].name in dir.names && ts'[id].contest == Some(c)
    {
      var k :| 0 <= k < |dir.names| && dir.names[k] == ts[id].name;
      assert NumberOf(ts', c, dir.names[k], k);
    }
  }

  /** A free task whose name is listed is not among the contest's. */
  lemma FreeNeedsReorder(w: Work, current: seq<TaskId>)
    requires UniqueNames(w.before) && Lists(w.before, w.c, current) && Found(w.before, w.dir.names, w.plans)
    ensures SomeFree(w) ==> NeedsReorder(w.before, current, w.dir.names)
  {
    if !NeedsReorder(w.before, current, w.dir.names) {
      forall k: nat ensures !FreeTask(w.before, w.plans, k) {
        if k < |w.plans| && w.plans[k].Some? {
          var id := InOrderKnown(w.before, w.c, current, w.dir.names, k);
          assert id == w.plans[k].value;
        }
      }
    }
  }

  /** With room for the listed tasks the order can be written. */
  lemma RoomLeft(env: Env, ts0: Tasks, ts: Tasks, c: int, dir: Directory, mayGoLive: bool)
    requires Readable(dir) && Grown(ts0, ts, c, dir.names, |dir.names|)
             && SettledUpTo(env, ts, dir, mayGoLive, |dir.names|)
    ensures Room(ts0, c, dir.names) ==> forall current :: Lists(ts, c, current) ==> Roomy(ts, c, current, dir.names)
  {
    if Room(ts0, c, dir.names) {
      forall current | Lists(ts, c, current)
        ensures Roomy(ts, c, current, dir.names)
      {
        assert forall k :: 0 <= k < |dir.names| ==>
                 TaskSettled(env, ts, dir.names[k], dir.packages[dir.names[k]].digest, mayGoLive);
        GrownRoom(ts0, ts, c, dir.names, current);
      }
    }
  }

  /** The first n listed tasks need nothing. */
  ghost predicate SettledUpTo(env: Env, ts: Tasks, dir: Directory, mayGoLive: bool, n: nat)
    requires Readable(dir)
  {
    forall k :: 0 <= k < n && k < |dir.names| ==>
      TaskSettled(env, ts, dir.names[k], dir.packages[dir.names[k]].digest, mayGoLive)
  }

  /** The task of this name is in the contest, and the package is live there as far as it may be. */
  ghost predicate TaskMatches(env: Env, ts: Tasks, c: int, name: string, digest: string, mayGoLive: bool) {
    exists id ::
      id in ts && ts[id].name == name && ts[id].contest == Some(c) && UpToDate(env, ts[id].body, digest, mayGoLive)
  }

  /** The contest has the listed tasks, up to date, and begins with them in the order of the list. */
  ghost predicate Matching(env: Env, ts: Tasks, c: int, dir: Directory, mayGoLive: bool)
    requires Readable(dir)
  {
    forall s {:trigger Unsealed(s)} :: Unsealed(s) ==>
      && (forall k :: 0 <= k < |dir.names| ==>
            TaskMatches(env, ts, c, dir.names[k], dir.packages[dir.names[k]].digest, mayGoLive))
      && (forall ids :: Lists(ts, c, ids) ==> BeginsWith(ts, ids, dir.names))
  }

  /** Nothing is left to do exactly when the contest matches the directory. */
  lemma SettledExactly(env: Env, ts: Tasks, c: int, dir: Directory, mayGoLive: bool)
    requires Readable(dir) && UniqueNames(ts)
    ensures Settled(env, ts, c, dir, mayGoLive) <==> Matching(env, ts, c, dir, mayGoLive)
  {
    assert Unsealed(Seal);
    forall ids | Lists(ts, c, ids) ensures NeedsReorder(ts, ids, dir.names) <==> !BeginsWith(ts, ids, dir.names) {
      NeedsReorderExactly(ts, ids, dir.names);
    }
    var current := ListExists(ts, c);
    forall k | 0 <= k < |dir.names| && !NeedsReorder(ts, current, dir.names)
      ensures var name, digest := dir.names[k], dir.packages[dir.names[k]].digest;
              TaskSettled(env, ts, name, digest, mayGoLive) <==> TaskMatches(env, ts, c, name, digest, mayGoLive)
    {
      var id := InOrderKnown(ts, c, current, dir.names, k);
      QuietMeans(env, ts[id].body, dir.packages[dir.names[k]].digest, mayGoLive);
    }
  }

  /** What is reported for one name: a task to create, or what is to be done to the one there is. */
  ghost predicate ActionMeans(env: Env, ts: Tasks, name: string, digest: string, mayGoLive: bool, a: Action) {
    if forall id :: id in ts ==> ts[id].name != name then a == Created
    else exists id :: id in ts && ts[id].name == name && a == ToDo(env, ts[id].body, digest, mayGoLive)
  }

  ghost function ToDo(env: Env, body: Body, digest: string, mayGoLive: bool): Action {
    if IsLive(env, body, digest) then Unchanged
    else if exists i :: FirstCarrying(body.datasets, digest, i) then (if mayGoLive then Activated else Pending)
    else Updated(mayGoLive)
  }

  /** The report says of every listed task what is to be done, and whether the contest does not begin with them. */
  ghost predicate ReportMeans(env: Env, ts: Tasks, c: int, dir: Directory, mayGoLive: bool, report: Report)
    requires Readable(dir)
  {
    forall s {:trigger Unsealed(s)} :: Unsealed(s) ==>
      && |report.actions| == |dir.names|
      && (forall k :: 0 <= k < |dir.names| ==>
            ActionMeans(env, ts, dir.names[k], dir.packages[dir.names[k]].digest, mayGoLive, report.actions[k]))
      && (forall ids :: Lists(ts, c, ids) ==> (report.reordered <==> !BeginsWith(ts, ids, dir.names)))
  }

  lemma PlanIsToDo(env: Env, body: Body, digest: string, mayGoLive: bool)
    ensures Plan(env, body, digest, mayGoLive) == ToDo(env, body, digest, mayGoLive)
  {
    LiveIsLive(env, body, digest);
    FirstTaggedCarries(body.datasets, digest);
  }

  lemma PreparedMeans(env: Env, ts: Tasks, c: int, dir: Directory, mayGoLive: bool, plans: seq<Option<TaskId>>,
                      report: Report, current: seq<TaskId>)
    requires Readable(dir) && Prepared(env, ts, c, dir, mayGoLive, plans, report, current)
    ensures ReportMeans(env, ts, c, dir, mayGoLive, report)
  {
    ActionsFitMeans(Work(env, c, dir, mayGoLive, ts, plans, report.actions));
    forall k | 0 <= k < |dir.names|
      ensures ActionMeans(env, ts, dir.names[k], dir.packages[dir.names[k]].digest, mayGoLive, report.actions[k])
    {
      assert report.actions[k] == ActionFor(env, ts, dir, dir.names[k], plans[k], mayGoLive);
      if plans[k].Some? {
        PlanIsToDo(env, ts[plans[k].value].body, dir.packages[dir.names[k]].digest, mayGoLive);
      }
    }
    forall ids | Lists(ts, c, ids) ensures report.reordered <==> !BeginsWith(ts, ids, dir.names) {
      ListsSame(ts, c, ids, current);
      NeedsReorderExactly(ts, ids, dir.names);
    }
  }

  /**
   Makes the database match the directory. What it leaves is settled, and on a settled
   database it reports nothing to do and changes nothing. When no write fails it succeeds
   unless a listed task belongs to another contest, or there is no room for the tasks. When
   writing the task at `fault` fails, the tasks before it need nothing when it is applied again.
   */
  method Apply(db: TaskDb, env: Env, c: int, present: bool, started: bool, dir: Directory, o: Options,
               fault: Option<nat>)
    returns (ok: bool, report: Report)
    requires db.Valid() && Readable(dir) && (!present ==> !started && NoTasks(db.tasks, c))
    modifies db
    ensures db.Valid() && (o.dryRun ==> db.tasks == old(db.tasks))
    ensures ok && !o.dryRun ==> Settled(env, db.tasks, c, dir, !started || o.activate)
    ensures ok && !o.dryRun ==> Matching(env, db.tasks, c, dir, !started || o.activate)
    ensures ok && !o.dryRun ==> AllWritten(env, old(db.tasks), db.tasks, c, dir, !started || o.activate)
    ensures ok ==> ReportMeans(env, old(db.tasks), c, dir, !started || o.activate, report)
    ensures !ok && fault.Some? && fault.value < |report.actions| && !Quiet(report.actions[fault.value]) ==>
              SettledUpTo(env, db.tasks, dir, !started || o.activate, fault.value)
    ensures fault.None? && !Taken(old(db.tasks), c, present, dir.names) ==>
              (o.dryRun || Room(old(db.tasks), c, dir.names) ==> ok)
    ensures present && Matching(env, old(db.tasks), c, dir, !started || o.activate) ==>
              ok && !report.reordered && AllQuiet(report.actions) && db.tasks == old(db.tasks)
  {
    var mayGoLive := !started || o.activate;
    SettledExactly(env, db.tasks, c, dir, mayGoLive);
    var prepared, plans, planned, current := Prepare(db, env, c, present, dir, mayGoLive);
    if prepared {
      PreparedMeans(env, db.tasks, c, dir, mayGoLive, plans, planned, current);
    }
    if !prepared || o.dryRun {
      return prepared, planned;
    }
    ok, report := Commit(db, env, c, dir, mayGoLive, plans, planned, fault, current);
    SettledExactly(env, db.tasks, c, dir, mayGoLive);
  }

  lemma AppliedSettled(env: Env, ts: Tasks, ts': Tasks, c: int, dir: Directory, mayGoLive: bool)
    requires Readable(dir) && UniqueNames(ts) && Reordered(ts, ts', c, dir.names)
    requires forall k :: 0 <= k < |dir.names| ==>
               TaskSettled(env, ts, dir.names[k], dir.packages[dir.names[k]].digest, mayGoLive)
    ensures Settled(env, ts', c, dir, mayGoLive)
  {
    forall k | 0 <= k < |dir.names|
      ensures TaskSettled(env, ts', dir.names[k], dir.packages[dir.names[k]].digest, mayGoLive)
    {
      ReorderedKeepsSettled(env, ts, ts', c, dir.names, dir.names[k], dir.packages[dir.names[k]].digest, mayGoLive);
    }
    forall ids | Lists(ts', c, ids)
      ensures !NeedsReorder(ts', ids, dir.names)
    {
      ReorderedSettles(ts, ts', c, dir.names, ids);
    }
  }
}
