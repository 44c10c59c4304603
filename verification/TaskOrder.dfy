/**
 The order of a contest's tasks (internal/contestconfig/contestconfig.go): renumbering
 under the database's unique (contest, num) constraint.
 */
module TaskOrder {
  import opened Common

  datatype TaskId = TaskId(n: int)

  datatype Dataset = Dataset(id: int, description: string)

  /** What exporting a task depends on: its content, its datasets and the live one. */
  datatype Body = Body(content: int, datasets: seq<Dataset>, active: Option<int>)

  datatype Task = Task(name: string, contest: Option<int>, num: Option<int>, body: Body)

  /** The tasks by id. */
  type Tasks = map<TaskId, Task>

  const PARKING := 100000

  ghost predicate UniqueNames(ts: Tasks) {
    forall a, b :: a in ts && b in ts && ts[a].name == ts[b].name ==> a == b
  }

  /** The unique constraint; missing numbers and contests never clash. */
  ghost predicate UniquePlaces(ts: Tasks) {
    forall a, b :: a in ts && b in ts && a != b && ts[a].contest.Some? && ts[a].contest == ts[b].contest
                   && ts[a].num.Some? ==>
      ts[a].num != ts[b].num
  }

  ghost predicate Clashes(ts: Tasks, id: TaskId, c: int, n: int) {
    exists x :: x in ts && x != id && ts[x].contest == Some(c) && ts[x].num == Some(n)
  }

  function Moved(ts: Tasks, id: TaskId, c: int, n: int): Tasks
    requires id in ts
  {
    ts[id := ts[id].(contest := Some(c), num := Some(n))]
  }

  /** ORDER BY num, id: missing numbers come last. */
  predicate Before(ts: Tasks, a: TaskId, b: TaskId)
    requires a in ts && b in ts
  {
    var m, n := ts[a].num, ts[b].num;
    if m == n then a.n < b.n else m.Some? && (n.None? || m.value < n.value)
  }

  ghost predicate Sorted(ts: Tasks, ids: seq<TaskId>) {
    && (forall i :: 0 <= i < |ids| ==> ids[i] in ts)
    && (forall i, j :: 0 <= i < j < |ids| ==> Before(ts, ids[i], ids[j]))
  }

  /** The tasks of a contest in order. */
  ghost predicate Lists(ts: Tasks, c: int, ids: seq<TaskId>) {
    && Sorted(ts, ids)
    && (forall id :: id in ids <==> id in ts && ts[id].contest == Some(c))
  }

  /** There is only one such list. */
  lemma {:induction false} SortedSame(ts: Tasks, a: seq<TaskId>, b: seq<TaskId>)
    requires Sorted(ts, a) && Sorted(ts, b) && forall id :: id in a <==> id in b
    ensures a == b
  {
    if a == [] || b == [] {
      HeadIn(a);
      HeadIn(b);
    } else {
      assert a[0] in b && b[0] in a;
      SortedHead(ts, a, b[0]);
      SortedHead(ts, b, a[0]);
      forall id
        ensures id in a[1..] <==> id in b[1..]
      {
        SortedTail(ts, a, id);
        SortedTail(ts, b, id);
      }
      SortedSame(ts, a[1..], b[1..]);
      assert a == [a[0]] + a[1..] && b == [b[0]] + b[1..];
    }
  }

  lemma BeforeTrans(ts: Tasks, a: TaskId, b: TaskId, d: TaskId)
    requires a in ts && b in ts && d in ts && Before(ts, a, b) && Before(ts, b, d)
    ensures Before(ts, a, d)
  {
  }

  lemma SortedHead(ts: Tasks, ids: seq<TaskId>, id: TaskId)
    requires Sorted(ts, ids) && id in ids
    ensures id == ids[0] || Before(ts, ids[0], id)
  {
  }

  lemma SortedTail(ts: Tasks, ids: seq<TaskId>, id: TaskId)
    requires Sorted(ts, ids) && ids != []
    ensures id in ids[1..] <==> id in ids && id != ids[0]
  {
    assert ids == [ids[0]] + ids[1..];
  }

  lemma ListsSame(ts: Tasks, c: int, a: seq<TaskId>, b: seq<TaskId>)
    requires Lists(ts, c, a) && Lists(ts, c, b)
    ensures a == b
  {
    SortedSame(ts, a, b);
  }

  /** Any tasks can be put in order. */
  lemma {:induction false} InOrderOf(ts: Tasks, some: set<TaskId>) returns (ids: seq<TaskId>)
    requires some <= ts.Keys
    ensures Sorted(ts, ids) && forall id :: id in ids <==> id in some
  {
    if some == {} {
      return [];
    }
    var x :| x in some;
    ids := InOrderOf(ts, some - {x});
    ids := PutInOrder(ts, ids, x);
  }

  lemma {:induction false} PutInOrder(ts: Tasks, ids: seq<TaskId>, x: TaskId) returns (r: seq<TaskId>)
    requires Sorted(ts, ids) && x in ts && x !in ids
    ensures Sorted(ts, r) && forall id :: id in r <==> id in ids || id == x
  {
    if ids == [] {
      return [x];
    }
    assert ids == [ids[0]] + ids[1..];
    if Before(ts, x, ids[0]) {
      r := [x] + ids;
      forall i | 0 <= i < |ids| ensures Before(ts, x, ids[i]) {
        if i > 0 {
          BeforeTrans(ts, x, ids[0], ids[i]);
        }
      }
    } else {
      var rest := PutInOrder(ts, ids[1..], x);
      r := [ids[0]] + rest;
      forall i | 0 <= i < |rest| ensures Before(ts, ids[0], rest[i]) {
        assert rest[i] in rest;
      }
    }
  }

  lemma ListExists(ts: Tasks, c: int) returns (ids: seq<TaskId>)
    ensures Lists(ts, c, ids)
  {
    ids := InOrderOf(ts, set id | id in ts && ts[id].contest == Some(c));
  }

  // ------------------------------------------------------------ the new order

  /** The ids whose tasks are not listed, in their order. */
  function Unlisted(ts: Tasks, ids: seq<TaskId>, names: seq<string>): seq<TaskId>
    requires forall i :: 0 <= i < |ids| ==> ids[i] in ts
  {
    if ids == [] then []
    else
      var rest, last := Unlisted(ts, ids[..|ids| - 1], names), ids[|ids| - 1];
      if ts[last].name in names then rest else rest + [last]
  }

  /** The first tasks of `order` have their numbers, and what is neither there nor in `current` has not moved. */
  ghost predicate Numbered(ts: Tasks, ts': Tasks, c: int, current: seq<TaskId>, order: seq<TaskId>) {
    && ts'.Keys == ts.Keys
    && (forall id :: id in ts ==> ts'[id].name == ts[id].name && ts'[id].body == ts[id].body)
    && (forall k :: 0 <= k < |order| ==>
          order[k] in ts && ts'[order[k]].contest == Some(c) && ts'[order[k]].num == Some(k))
    && (forall id :: id in ts && id !in current && id !in order ==> ts'[id] == ts[id])
  }

  /** Tasks of the contest without a number yet are still parked. */
  ghost predicate OthersParked(ts: Tasks, c: int, order: seq<TaskId>) {
    forall id :: id in ts && id !in order && ts[id].contest == Some(c) && ts[id].num.Some? ==>
      ts[id].num.value >= PARKING
  }

  /** The tasks with the given names, in that order. */
  ghost predicate Named(ts: Tasks, ids: seq<TaskId>, names: seq<string>) {
    |ids| == |names| && forall k :: 0 <= k < |ids| ==> ids[k] in ts && ts[ids[k]].name == names[k]
  }

  /** The listed tasks first, in order, then the others in their old order; nothing else has changed. */
  ghost predicate Reordered(ts: Tasks, ts': Tasks, c: int, names: seq<string>) {
    exists current, listed :: ReorderedBy(ts, ts', c, names, current, listed)
  }

  ghost predicate ReorderedBy(ts: Tasks, ts': Tasks, c: int, names: seq<string>, current: seq<TaskId>,
                              listed: seq<TaskId>) {
    && Lists(ts, c, current) && Named(ts, listed, names)
    && Numbered(ts, ts', c, current, listed + Unlisted(ts, current, names))
  }

  /** Enough numbers for everyone below the parking range, nobody in it, and every listed task exists. */
  ghost predicate Roomy(ts: Tasks, c: int, current: seq<TaskId>, names: seq<string>) {
    Enough(ts, names, current) && AwayFromParking(ts, c, |current|) && AllKnown(ts, names)
  }

  ghost predicate Enough(ts: Tasks, names: seq<string>, current: seq<TaskId>) {
    (forall i :: 0 <= i < |current| ==> current[i] in ts) && |names| + |Unlisted(ts, current, names)| <= 100000
  }

  ghost predicate AllKnown(ts: Tasks, names: seq<string>) { forall k :: 0 <= k < |names| ==> Known(ts, names[k]) }

  ghost predicate Known(ts: Tasks, name: string) { exists id :: id in ts && ts[id].name == name }

  ghost predicate DistinctNames(names: seq<string>) {
    forall i, j :: 0 <= i < j < |names| ==> names[i] != names[j]
  }

  /** Every number in the contest is less than b. */
  ghost predicate Below(ts: Tasks, c: int, b: int) {
    forall id :: id in ts && ts[id].contest == Some(c) && ts[id].num.Some? ==> ts[id].num.value < b
  }

  lemma {:induction false} UnlistedMembers(ts: Tasks, ids: seq<TaskId>, names: seq<string>)
    requires forall i :: 0 <= i < |ids| ==> ids[i] in ts
    ensures forall id :: id in Unlisted(ts, ids, names) <==> id in ids && ts[id].name !in names
    ensures |Unlisted(ts, ids, names)| <= |ids|
  {
    if ids != [] {
      UnlistedMembers(ts, ids[..|ids| - 1], names);
      assert ids == ids[..|ids| - 1] + [ids[|ids| - 1]];
    }
  }

  /** The tasks as the database keeps them. */
  class TaskDb {
    var tasks: Tasks
    var nextTask: int

    ghost predicate Valid()
      reads this
    {
      UniqueNames(tasks) && UniquePlaces(tasks) && forall id :: id in tasks ==> id.n < nextTask
    }

    method Taken(id: TaskId, c: int, n: int) returns (taken: bool)
      ensures taken <==> Clashes(tasks, id, c, n)
    {
      var ids := tasks.Keys - {id};
      while ids != {}
        invariant ids <= tasks.Keys - {id}
        invariant forall x :: x in tasks.Keys - {id} - ids ==> !(tasks[x].contest == Some(c) && tasks[x].num == Some(n))
        decreases ids
      {
        var x :| x in ids;
        ids := ids - {x};
        if tasks[x].contest == Some(c) && tasks[x].num == Some(n) {
          return true;
        }
      }
      taken := false;
    }

    /** Moves a task, unless another one has the number. */
    method SetTaskContest(id: TaskId, c: int, n: int) returns (ok: bool)
      requires Valid() && id in tasks
      modifies this`tasks
      ensures Valid() && ok == !Clashes(old(tasks), id, c, n)
      ensures tasks == if ok then Moved(old(tasks), id, c, n) else old(tasks)
    {
      var taken := Taken(id, c, n);
      if !taken {
        tasks := tasks[id := tasks[id].(contest := Some(c), num := Some(n))];
      }
      ok := !taken;
    }

    method GetTaskByName(name: string) returns (r: Option<TaskId>)
      requires Valid()
      ensures r.Some? ==> r.value in tasks && tasks[r.value].name == name
      ensures r.None? ==> forall id :: id in tasks ==> tasks[id].name != name
    {
      var ids := tasks.Keys;
      while ids != {}
        invariant ids <= tasks.Keys && forall id :: id in tasks.Keys - ids ==> tasks[id].name != name
        decreases ids
      {
        var x :| x in ids;
        ids := ids - {x};
        if tasks[x].name == name {
          return Some(x);
        }
      }
      r := None;
    }

    /** The first of some tasks. */
    method First(ids: set<TaskId>) returns (x: TaskId)
      requires ids != {} && ids <= tasks.Keys
      ensures x in ids && forall y :: y in ids && y != x ==> Before(tasks, x, y)
    {
      x :| x in ids;
      var todo := ids - {x};
      while todo != {}
        invariant todo <= ids - {x} && x in ids
        invariant forall y :: y in ids - todo && y != x ==> Before(tasks, x, y)
        decreases todo
      {
        var y :| y in todo;
        todo := todo - {y};
        if Before(tasks, y, x) {
          forall z | z in ids - todo && z != y && z != x
            ensures Before(tasks, y, z)
          {
            BeforeTrans(tasks, y, x, z);
          }
          x := y;
        }
      }
    }

    method ListTasksByContest(c: int) returns (ids: seq<TaskId>)
      ensures Lists(tasks, c, ids)
      ensures forall i, j :: 0 <= i < j < |ids| ==>
                NumberedBefore(tasks[ids[i]].num, ids[i].n, tasks[ids[j]].num, ids[j].n)
    {
      var rest := set id | id in tasks && tasks[id].contest == Some(c);
      ids := [];
      while rest != {}
        invariant rest <= tasks.Keys && Sorted(tasks, ids)
        invariant forall i, y :: 0 <= i < |ids| && y in rest ==> Before(tasks, ids[i], y)
        invariant forall id :: id in tasks && tasks[id].contest == Some(c) <==> id in ids || id in rest
        decreases rest
      {
        var x := First(rest);
        ids, rest := ids + [x], rest - {x};
      }
    }

    /** The number after the last one of a contest. */
    method NextNum(c: int) returns (n: int)
      ensures Below(tasks, c, n) && forall b :: b >= 0 && Below(tasks, c, b) ==> n <= b
    {
      n := 0;
      var ids := tasks.Keys;
      while ids != {}
        invariant ids <= tasks.Keys
        invariant forall id :: id in tasks.Keys - ids && tasks[id].contest == Some(c) && tasks[id].num.Some? ==>
                    tasks[id].num.value < n
        invariant forall b :: b >= 0 && Below(tasks, c, b) ==> n <= b
        decreases ids
      {
        var x :| x in ids;
        ids := ids - {x};
        if tasks[x].contest == Some(c) && tasks[x].num.Some? && n <= tasks[x].num.value {
          n := tasks[x].num.value + 1;
        }
      }
    }

    /** Adds a task at the end of a contest. */
    method CreateTask(name: string, c: int, body: Body) returns (id: TaskId)
      requires Valid() && !Known(tasks, name)
      modifies this
      ensures Valid() && id !in old(tasks) && id in tasks && tasks == old(tasks)[id := tasks[id]]
      ensures tasks[id].name == name && tasks[id].contest == Some(c) && tasks[id].body == body && tasks[id].num.Some?
      ensures forall b :: b >= 0 && Below(old(tasks), c, b) ==> tasks[id].num.value <= b
    {
      var n := NextNum(c);
      id := TaskId(nextTask);
      tasks, nextTask := tasks[id := Task(name, Some(c), Some(n), body)], nextTask + 1;
    }

    method SetBody(id: TaskId, body: Body)
      requires Valid() && id in tasks
      modifies this`tasks
      ensures Valid() && tasks == old(tasks)[id := old(tasks)[id].(body := body)]
    {
      tasks := tasks[id := tasks[id].(body := body)];
    }

    /** Moves every task of the contest out of the way. */
    method Park(c: int, current: seq<TaskId>) returns (ok: bool)
      requires Valid() && Lists(tasks, c, current)
      modifies this`tasks
      ensures Valid()
      ensures ok ==> Parked(old(tasks), tasks, c, current, |current|)
      ensures AwayFromParking(old(tasks), c, |current|) ==> ok
    {
      ghost var ts := tasks;
      ListsDistinct(ts, current);
      for i := 0 to |current|
        invariant Valid() && Parked(ts, tasks, c, current, i)
      {
        ParkClash(ts, tasks, c, current, i);
        ParkStep(ts, tasks, c, current, i);
        ok := SetTaskContest(current[i], c, PARKING + i);
        if !ok {
          return;
        }
      }
      ok := true;
    }

    /** Gives the next number to a task. */
    method Number(c: int, id: TaskId, ghost ts: Tasks, ghost current: seq<TaskId>, ghost order: seq<TaskId>, n: nat)
      returns (ok: bool)
      requires Valid() && id in ts && n == |order| && id !in order && Numbered(ts, tasks, c, current, order)
      modifies this`tasks
      ensures Valid() && (ok ==> Numbered(ts, tasks, c, current, order + [id]))
      ensures old(OthersParked(tasks, c, order)) && n < PARKING ==> ok && OthersParked(tasks, c, order + [id])
    {
      NumberClash(ts, tasks, c, current, order, id);
      NumberStep(ts, tasks, c, current, order, id);
      ok := SetTaskContest(id, c, n);
    }

    /** Numbers the task with the next name. */
    method NumberNamed(c: int, names: seq<string>, num: nat, ghost ts: Tasks, ghost current: seq<TaskId>,
                       ghost listed: seq<TaskId>)
      returns (ok: bool, ghost listed': seq<TaskId>)
      requires Valid() && DistinctNames(names) && num < |names| && Numbered(ts, tasks, c, current, listed)
      requires Named(ts, listed, names[..num])
      modifies this`tasks
      ensures Valid() && (ok ==> Named(ts, listed', names[..num + 1]) && Numbered(ts, tasks, c, current, listed'))
      ensures Known(ts, names[num]) && num < PARKING && old(OthersParked(tasks, c, listed)) ==>
                ok && OthersParked(tasks, c, listed')
    {
      var t := GetTaskByName(names[num]);
      if t.None? {
        Missing(ts, tasks, c, current, listed, names, num);
        return false, listed;
      }
      NewName(ts, listed, names, num, t.value);
      ok := Number(c, t.value, ts, current, listed, num);
      listed' := listed + [t.value];
    }

    /** Numbers the listed tasks first. */
    method NumberListed(c: int, names: seq<string>, ghost ts: Tasks, ghost current: seq<TaskId>)
      returns (ok: bool, ghost listed: seq<TaskId>)
      requires Valid() && DistinctNames(names) && Numbered(ts, tasks, c, current, [])
      modifies this`tasks
      ensures Valid() && (ok ==> Named(ts, listed, names) && Numbered(ts, tasks, c, current, listed))
      ensures AllKnown(ts, names) && |names| <= PARKING && old(OthersParked(tasks, c, [])) ==>
                ok && OthersParked(tasks, c, listed)
    {
      ghost var roomy := AllKnown(ts, names) && |names| <= PARKING && OthersParked(tasks, c, []);
      listed := [];
      for num := 0 to |names|
        invariant Valid() && Named(ts, listed, names[..num]) && Numbered(ts, tasks, c, current, listed)
        invariant roomy ==> OthersParked(tasks, c, listed)
      {
        ok, listed := NumberNamed(c, names, num, ts, current, listed);
        if !ok {
          return;
        }
      }
      assert names[..|names|] == names;
      ok := true;
    }

    /** Numbers the i-th task of the contest unless it is listed. */
    method NumberOther(c: int, names: seq<string>, current: seq<TaskId>, i: nat, num: nat, ghost ts: Tasks,
                       ghost listed: seq<TaskId>)
      returns (ok: bool, num': nat)
      requires Valid() && i < |current| && Halfway(ts, tasks, c, names, current, listed, i, num)
      modifies this`tasks
      ensures Valid() && (ok ==> Halfway(ts, tasks, c, names, current, listed, i + 1, num'))
      ensures HasRoom(ts, names, current, i, num) && old(StillClear(ts, tasks, c, names, current, listed, i)) ==>
                ok && StillClear(ts, tasks, c, names, current, listed, i + 1)
    {
      ghost var before := tasks;
      HalfwayFacts(ts, tasks, c, names, current, listed, i, num);
      ghost var order := listed + Unlisted(ts, current[..i], names);
      if tasks[current[i]].name in names {
        HalfwaySkips(ts, tasks, c, names, current, listed, i, num);
        return true, num;
      }
      ok := Number(c, current[i], ts, current, order, num);
      num' := num + 1;
      HalfwayNext(ts, before, tasks, c, names, current, listed, i, num);
    }

    /** Goes through the tasks of the contest, from the number after the listed ones on. */
    method NumberRest(c: int, names: seq<string>, current: seq<TaskId>, ghost ts: Tasks, ghost listed: seq<TaskId>)
      returns (ok: bool, num: nat)
      requires Valid() && Halfway(ts, tasks, c, names, current, listed, 0, |names|)
      modifies this`tasks
      ensures Valid() && (ok ==> Halfway(ts, tasks, c, names, current, listed, |current|, num))
      ensures Enough(ts, names, current) && old(StillClear(ts, tasks, c, names, current, listed, 0)) ==> ok
    {
      num := |names|;
      ghost var roomy := Enough(ts, names, current) && StillClear(ts, tasks, c, names, current, listed, 0);
      for i := 0 to |current|
        invariant Valid() && Halfway(ts, tasks, c, names, current, listed, i, num)
        invariant roomy ==> StillClear(ts, tasks, c, names, current, listed, i)
      {
        HalfwayRoom(ts, tasks, c, names, current, listed, i, num);
        ok, num := NumberOther(c, names, current, i, num, ts, listed);
        if !ok {
          return;
        }
      }
      ok := true;
    }

    /** Numbers the other tasks of the contest after them. */
    method NumberOthers(c: int, names: seq<string>, current: seq<TaskId>, ghost ts: Tasks, ghost listed: seq<TaskId>)
      returns (ok: bool)
      requires Valid() && Lists(ts, c, current) && Named(ts, listed, names) && Numbered(ts, tasks, c, current, listed)
      modifies this`tasks
      ensures Valid() && (ok ==> Numbered(ts, tasks, c, current, listed + Unlisted(ts, current, names)))
      ensures Enough(ts, names, current) && old(OthersParked(tasks, c, listed)) ==> ok
    {
      HalfwayStart(ts, tasks, c, names, current, listed);
      var num;
      ok, num := NumberRest(c, names, current, ts, listed);
      if ok {
        HalfwayEnds(ts, tasks, c, names, current, listed, num);
      }
    }

    /** Renumbers the tasks of a contest; a failure leaves them as they were. */
    method Reorder(c: int, names: seq<string>) returns (ok: bool)
      requires Valid() && DistinctNames(names)
      modifies this`tasks
      ensures Valid() && (ok ==> Reordered(old(tasks), tasks, c, names)) && (!ok ==> tasks == old(tasks))
      ensures ok ==> Renumbered(old(tasks), tasks, c, names)
      ensures (exists current :: Lists(old(tasks), c, current) && Roomy(old(tasks), c, current, names)) ==> ok
      ensures (forall current :: Lists(old(tasks), c, current) ==> Roomy(old(tasks), c, current, names)) ==> ok
    {
      var before := tasks;
      var current := ListTasksByContest(c);
      OneList(before, c, current, names);
      ok := Park(c, current);
      if ok {
        ParkedNumbered(before, tasks, c, current);
        ghost var listed;
        ok, listed := NumberListed(c, names, before, current);
        if ok {
          ok := NumberOthers(c, names, current, before, listed);
          if ok {
            assert ReorderedBy(before, tasks, c, names, current, listed);
            ReorderedNumbers(before, tasks, c, names);
            return;
          }
        }
      }
      tasks := before;
    }
  }

  lemma OneList(ts: Tasks, c: int, current: seq<TaskId>, names: seq<string>)
    requires Lists(ts, c, current)
    ensures (exists other :: Lists(ts, c, other) && Roomy(ts, c, other, names)) ==> Roomy(ts, c, current, names)
  {
    forall other | Lists(ts, c, other)
      ensures other == current
    {
      ListsSame(ts, c, other, current);
    }
  }

  lemma ParkedNumbered(ts: Tasks, ts': Tasks, c: int, current: seq<TaskId>)
    requires Lists(ts, c, current) && Parked(ts, ts', c, current, |current|)
    ensures Numbered(ts, ts', c, current, []) && OthersParked(ts', c, [])
  {
    assert current[..|current|] == current;
    forall id | id in ts
      ensures ts'[id].name == ts[id].name && ts'[id].body == ts[id].body && (id !in current ==> ts'[id] == ts[id])
      ensures ts'[id].contest == Some(c) ==> ts'[id].num.Some? && ts'[id].num.value >= PARKING
    {
      if id in current {
        var i :| 0 <= i < |current| && current[i] == id;
      }
    }
  }

  lemma NumberStep(ts: Tasks, ts': Tasks, c: int, current: seq<TaskId>, order: seq<TaskId>, id: TaskId)
    requires Numbered(ts, ts', c, current, order) && id in ts && id !in order
    ensures Numbered(ts, Moved(ts', id, c, |order|), c, current, order + [id])
    ensures OthersParked(ts', c, order) ==> OthersParked(Moved(ts', id, c, |order|), c, order + [id])
  {
    assert forall k :: 0 <= k < |order| ==> order[k] in order;
  }

  lemma NumberClash(ts: Tasks, ts': Tasks, c: int, current: seq<TaskId>, order: seq<TaskId>, id: TaskId)
    requires Numbered(ts, ts', c, current, order)
    ensures OthersParked(ts', c, order) && |order| < PARKING ==> !Clashes(ts', id, c, |order|)
  {
  }

  /** A name not found now was not there before. */
  lemma Missing(ts: Tasks, ts': Tasks, c: int, current: seq<TaskId>, order: seq<TaskId>, names: seq<string>, k: nat)
    requires Numbered(ts, ts', c, current, order) && k < |names| && forall id :: id in ts' ==> ts'[id].name != names[k]
    ensures !Known(ts, names[k])
  {
    assert forall id :: id in ts ==> ts[id].name != names[k];
  }

  /** A task with the next name is not among the earlier ones. */
  lemma NewName(ts: Tasks, listed: seq<TaskId>, names: seq<string>, k: nat, id: TaskId)
    requires DistinctNames(names) && k < |names| && Named(ts, listed, names[..k]) && id in ts && ts[id].name == names[k]
    ensures id !in listed && Named(ts, listed + [id], names[..k + 1])
  {
  }

  // -------------------------------------------------------- the other tasks

  /**
   The listed tasks and, of the first i tasks of the contest, those not listed have their numbers;
   `num` comes next.
   */
  ghost predicate Halfway(ts: Tasks, ts': Tasks, c: int, names: seq<string>, current: seq<TaskId>, listed: seq<TaskId>,
                          i: nat, num: nat) {
    forall s {:trigger Unsealed(s)} :: Unsealed(s) ==> HalfwayBy(ts, ts', c, names, current, listed, i, num)
  }

  ghost predicate HalfwayBy(ts: Tasks, ts': Tasks, c: int, names: seq<string>, current: seq<TaskId>,
                            listed: seq<TaskId>, i: nat, num: nat) {
    && Lists(ts, c, current) && Named(ts, listed, names) && i <= |current|
    && num == |names| + |Unlisted(ts, current[..i], names)|
    && Numbered(ts, ts', c, current, listed + Unlisted(ts, current[..i], names))
  }

  /** All others of the contest are still parked. */
  ghost predicate StillClear(ts: Tasks, ts': Tasks, c: int, names: seq<string>, current: seq<TaskId>,
                             listed: seq<TaskId>, i: nat) {
    forall s {:trigger Unsealed(s)} :: Unsealed(s) ==>
      i <= |current| && (forall k :: 0 <= k < i ==> current[k] in ts)
      && OthersParked(ts', c, listed + Unlisted(ts, current[..i], names))
  }

  lemma HalfwayFacts(ts: Tasks, ts': Tasks, c: int, names: seq<string>, current: seq<TaskId>, listed: seq<TaskId>,
                     i: nat, num: nat)
    requires i < |current| && Halfway(ts, ts', c, names, current, listed, i, num)
    ensures current[i] in ts && current[i] in ts' && ts'[current[i]].name == ts[current[i]].name
            && forall k :: 0 <= k < i ==> current[k] in ts
    ensures var order := listed + Unlisted(ts, current[..i], names);
            && |order| == num && Numbered(ts, ts', c, current, order)
            && (ts[current[i]].name !in names ==> current[i] !in order)
            && (StillClear(ts, ts', c, names, current, listed, i) <==> OthersParked(ts', c, order))
  {
    assert Unsealed(Seal);
    UnlistedNext(ts, c, current, names, listed, i);
  }

  lemma HalfwaySkips(ts: Tasks, ts': Tasks, c: int, names: seq<string>, current: seq<TaskId>, listed: seq<TaskId>,
                     i: nat, num: nat)
    requires i < |current| && Halfway(ts, ts', c, names, current, listed, i, num) && current[i] in ts
             && ts[current[i]].name in names
    ensures Halfway(ts, ts', c, names, current, listed, i + 1, num)
    ensures StillClear(ts, ts', c, names, current, listed, i) ==> StillClear(ts, ts', c, names, current, listed, i + 1)
  {
    assert Unsealed(Seal);
    UnlistedNext(ts, c, current, names, listed, i);
  }

  lemma HalfwayNext(ts: Tasks, before: Tasks, ts': Tasks, c: int, names: seq<string>, current: seq<TaskId>,
                    listed: seq<TaskId>, i: nat, num: nat)
    requires i < |current| && Halfway(ts, before, c, names, current, listed, i, num) && current[i] in ts
             && ts[current[i]].name !in names
    requires forall k :: 0 <= k < i ==> current[k] in ts
    ensures var order := listed + Unlisted(ts, current[..i], names) + [current[i]];
            && (Numbered(ts, ts', c, current, order) ==> Halfway(ts, ts', c, names, current, listed, i + 1, num + 1))
            && (OthersParked(ts', c, order) ==> StillClear(ts, ts', c, names, current, listed, i + 1))
  {
    assert Unsealed(Seal);
    UnlistedNext(ts, c, current, names, listed, i);
  }

  lemma HalfwayStart(ts: Tasks, ts': Tasks, c: int, names: seq<string>, current: seq<TaskId>, listed: seq<TaskId>)
    requires Lists(ts, c, current) && Named(ts, listed, names) && Numbered(ts, ts', c, current, listed)
    ensures Halfway(ts, ts', c, names, current, listed, 0, |names|)
    ensures OthersParked(ts', c, listed) ==> StillClear(ts, ts', c, names, current, listed, 0)
  {
    assert listed + Unlisted(ts, current[..0], names) == listed;
  }

  lemma HalfwayEnds(ts: Tasks, ts': Tasks, c: int, names: seq<string>, current: seq<TaskId>, listed: seq<TaskId>,
                    num: nat)
    requires Halfway(ts, ts', c, names, current, listed, |current|, num) && Lists(ts, c, current)
    ensures Numbered(ts, ts', c, current, listed + Unlisted(ts, current, names))
  {
    assert Unsealed(Seal);
    assert current[..|current|] == current;
  }

  /** The i-th task is listed, or the next number is below the parking range. */
  ghost predicate HasRoom(ts: Tasks, names: seq<string>, current: seq<TaskId>, i: nat, num: nat) {
    i < |current| && current[i] in ts && (ts[current[i]].name in names || num < PARKING)
  }

  /** The next number is below the number of all listed and unlisted tasks, while an unlisted one is left. */
  lemma HalfwayRoom(ts: Tasks, ts': Tasks, c: int, names: seq<string>, current: seq<TaskId>, listed: seq<TaskId>,
                    i: nat, num: nat)
    requires i < |current| && Halfway(ts, ts', c, names, current, listed, i, num)
    ensures Enough(ts, names, current) ==> HasRoom(ts, names, current, i, num)
  {
    assert Unsealed(Seal);
    UnlistedNext(ts, c, current, names, listed, i);
    UnlistedShorter(ts, current, names, i + 1);
  }

  lemma {:induction false} UnlistedShorter(ts: Tasks, ids: seq<TaskId>, names: seq<string>, i: nat)
    requires i <= |ids| && forall k :: 0 <= k < |ids| ==> ids[k] in ts
    ensures |Unlisted(ts, ids[..i], names)| <= |Unlisted(ts, ids, names)|
  {
    if i < |ids| {
      UnlistedShorter(ts, ids[..|ids| - 1], names, i);
      assert ids[..|ids| - 1][..i] == ids[..i];
    } else {
      assert ids[..i] == ids;
    }
  }

  lemma UnlistedNext(ts: Tasks, c: int, current: seq<TaskId>, names: seq<string>, listed: seq<TaskId>, i: nat)
    requires Lists(ts, c, current) && Named(ts, listed, names) && i < |current|
    ensures var u := Unlisted(ts, current[..i], names);
            Unlisted(ts, current[..i + 1], names) == if ts[current[i]].name in names then u else u + [current[i]]
    ensures ts[current[i]].name !in names ==> current[i] !in listed + Unlisted(ts, current[..i], names)
    ensures ts[current[i]].name !in names ==>
              listed + Unlisted(ts, current[..i + 1], names) == listed + Unlisted(ts, current[..i], names)
              + [current[i]]
    ensures |Unlisted(ts, current[..i], names)| <= i
  {
    assert current[..i + 1][..i] == current[..i];
    UnlistedMembers(ts, current[..i], names);
    ListsDistinct(ts, current);
  }


  /** No task of the contest has a number in the range used for parking n tasks. */
  ghost predicate AwayFromParking(ts: Tasks, c: int, n: nat) {
    forall id :: id in ts && ts[id].contest == Some(c) && ts[id].num.Some? ==>
      ts[id].num.value < PARKING || ts[id].num.value >= PARKING + n
  }

  /** The first n tasks of the contest are parked, nothing else has changed. */
  ghost predicate Parked(ts: Tasks, ts': Tasks, c: int, current: seq<TaskId>, n: nat)
    requires n <= |current|
  {
    && ts'.Keys == ts.Keys && (forall i :: 0 <= i < |current| ==> current[i] in ts)
    && (forall i :: 0 <= i < n ==> ts'[current[i]] == ts[current[i]].(contest := Some(c), num := Some(PARKING + i)))
    && (forall id :: id in ts && id !in current[..n] ==> ts'[id] == ts[id])
  }

  ghost predicate Distinct(ids: seq<TaskId>) { forall i, j :: 0 <= i < j < |ids| ==> ids[i] != ids[j] }

  lemma ListsDistinct(ts: Tasks, ids: seq<TaskId>)
    requires Sorted(ts, ids)
    ensures Distinct(ids)
  {
  }

  lemma ParkStep(ts: Tasks, ts': Tasks, c: int, current: seq<TaskId>, i: nat)
    requires Distinct(current) && i < |current| && Parked(ts, ts', c, current, i)
    ensures Parked(ts, Moved(ts', current[i], c, PARKING + i), c, current, i + 1)
  {
    assert current[..i + 1] == current[..i] + [current[i]];
    assert current[i] !in current[..i];
  }

  /** Away from the parking range nothing clashes while parking. */
  lemma ParkClash(ts: Tasks, ts': Tasks, c: int, current: seq<TaskId>, i: nat)
    requires Lists(ts, c, current) && i < |current| && Parked(ts, ts', c, current, i)
    ensures AwayFromParking(ts, c, |current|) ==> !Clashes(ts', current[i], c, PARKING + i)
  {
    forall x | x in ts' && x != current[i] && AwayFromParking(ts, c, |current|) && ts'[x].contest == Some(c)
      ensures ts'[x].num != Some(PARKING + i)
    {
      if x in current[..i] {
        var j :| 0 <= j < i && current[j] == x;
      }
    }
  }

  /** After a reordering the contest's tasks are the listed ones, then the others. */
  lemma ReorderedLists(ts: Tasks, ts': Tasks, c: int, names: seq<string>, current: seq<TaskId>, listed: seq<TaskId>)
    requires UniqueNames(ts) && ReorderedBy(ts, ts', c, names, current, listed)
    ensures Lists(ts', c, listed + Unlisted(ts, current, names))
  {
    var order := listed + Unlisted(ts, current, names);
    UnlistedMembers(ts, current, names);
    assert Sorted(ts', order);
    forall id
      ensures id in order <==> id in ts' && ts'[id].contest == Some(c)
    {
      if id in order {
        var k :| 0 <= k < |order| && order[k] == id;
      } else if id in ts' && id in current {
        ListedIs(ts, listed, names, id);
      }
    }
  }

  /** By number, then by id; what has no number comes last. */
  predicate NumberedBefore(m: Option<int>, a: int, n: Option<int>, b: int) {
    match (m, n)
    case (Some(x), Some(y)) => x < y || (x == y && a < b)
    case (Some(x), None) => true
    case (None, Some(y)) => false
    case (None, None) => a < b
  }

  /** There is a task of the contest with this number. */
  ghost predicate HasNumber(ts: Tasks, c: int, n: int) {
    exists id :: id in ts && ts[id].contest == Some(c) && ts[id].num == Some(n)
  }

  /** The task of this name has this number in the contest. */
  ghost predicate NumberOf(ts: Tasks, c: int, name: string, n: int) {
    exists id :: id in ts && ts[id].name == name && ts[id].contest == Some(c) && ts[id].num == Some(n)
  }

  /** Two unlisted tasks of the contest, one before the other, now come after the listed ones in the same order. */
  ghost predicate FollowInOrder(ts: Tasks, ts': Tasks, c: int, names: seq<string>, a: TaskId, b: TaskId)
    requires a in ts && b in ts && a in ts' && b in ts'
  {
    && ts[a].contest == Some(c) == ts[b].contest && ts[a].name !in names && ts[b].name !in names
    && NumberedBefore(ts[a].num, a.n, ts[b].num, b.n) ==>
      ts'[a].num.Some? && ts'[b].num.Some? && |names| <= ts'[a].num.value < ts'[b].num.value
  }

  /**
   The listed tasks are numbered from 0 in the order of their names, and the other tasks of the contest follow
   without a gap in the order they had. Nothing else has changed.
   */
  ghost predicate Renumbered(ts: Tasks, ts': Tasks, c: int, names: seq<string>) {
    && ts'.Keys == ts.Keys
    && (forall id :: id in ts ==> ts'[id].name == ts[id].name && ts'[id].body == ts[id].body)
    && (forall id :: id in ts && ts[id].name !in names ==>
          if ts[id].contest == Some(c) then ts'[id].contest == Some(c) else ts'[id] == ts[id])
    && (forall k :: 0 <= k < |names| ==> NumberOf(ts', c, names[k], k))
    && (forall id :: id in ts' && ts'[id].contest == Some(c) ==>
          ts'[id].num.Some? && forall n :: 0 <= n <= ts'[id].num.value ==> HasNumber(ts', c, n))
    && (forall a, b :: a in ts && b in ts ==> FollowInOrder(ts, ts', c, names, a, b))
  }

  lemma {:induction false} UnlistedSorted(ts: Tasks, ids: seq<TaskId>, names: seq<string>)
    requires Sorted(ts, ids)
    ensures Sorted(ts, Unlisted(ts, ids, names))
  {
    if ids != [] {
      UnlistedSorted(ts, ids[..|ids| - 1], names);
      UnlistedMembers(ts, ids[..|ids| - 1], names);
    }
  }

  lemma UnlistedFollow(ts: Tasks, ts': Tasks, c: int, names: seq<string>, current: seq<TaskId>, listed: seq<TaskId>,
                       a: TaskId, b: TaskId)
    requires ReorderedBy(ts, ts', c, names, current, listed) && UniquePlaces(ts) && a in ts && b in ts
    ensures FollowInOrder(ts, ts', c, names, a, b)
  {
    var others := Unlisted(ts, current, names);
    UnlistedMembers(ts, current, names);
    if a in others && b in others && NumberedBefore(ts[a].num, a.n, ts[b].num, b.n) {
      UnlistedSorted(ts, current, names);
      var i := UnlistedNumber(ts, ts', c, names, current, listed, a);
      var j := UnlistedNumber(ts, ts', c, names, current, listed, b);
      InTheirOrder(ts, others, a, b, i, j);
    }
  }

  lemma UnlistedNumber(ts: Tasks, ts': Tasks, c: int, names: seq<string>, current: seq<TaskId>, listed: seq<TaskId>,
                       a: TaskId)
    returns (i: nat)
    requires ReorderedBy(ts, ts', c, names, current, listed) && a in Unlisted(ts, current, names)
    ensures i < |Unlisted(ts, current, names)| && Unlisted(ts, current, names)[i] == a
    ensures a in ts' && ts'[a].num == Some(|names| + i)
  {
    var others := Unlisted(ts, current, names);
    i :| 0 <= i < |others| && others[i] == a;
    assert (listed + others)[|listed| + i] == a;
  }

  lemma InTheirOrder(ts: Tasks, ids: seq<TaskId>, a: TaskId, b: TaskId, i: nat, j: nat)
    requires Sorted(ts, ids) && i < |ids| && j < |ids| && ids[i] == a && ids[j] == b
    requires NumberedBefore(ts[a].num, a.n, ts[b].num, b.n)
    ensures i < j
  {
    assert j < i ==> Before(ts, b, a);
  }

  lemma NumberedWithoutGaps(ts: Tasks, c: int, order: seq<TaskId>, id: TaskId)
    requires Lists(ts, c, order) && forall k :: 0 <= k < |order| ==> ts[order[k]].num == Some(k)
    requires id in ts && ts[id].contest == Some(c)
    ensures ts[id].num.Some? && forall n :: 0 <= n <= ts[id].num.value ==> HasNumber(ts, c, n)
  {
    var k :| 0 <= k < |order| && order[k] == id;
    forall n | 0 <= n <= k ensures HasNumber(ts, c, n) {
      assert order[n] in order && ts[order[n]].num == Some(n);
    }
  }

  lemma NamedNumbers(ts: Tasks, ts': Tasks, c: int, names: seq<string>, current: seq<TaskId>, listed: seq<TaskId>,
                     k: nat)
    requires ReorderedBy(ts, ts', c, names, current, listed) && k < |names|
    ensures NumberOf(ts', c, names[k], k)
  {
    var order := listed + Unlisted(ts, current, names);
    assert order[k] == listed[k];
  }

  lemma OthersStay(ts: Tasks, ts': Tasks, c: int, names: seq<string>, current: seq<TaskId>, listed: seq<TaskId>,
                   id: TaskId)
    requires ReorderedBy(ts, ts', c, names, current, listed) && id in ts && ts[id].name !in names
    ensures if ts[id].contest == Some(c) then ts'[id].contest == Some(c) else ts'[id] == ts[id]
  {
    UnlistedMembers(ts, current, names);
    var others := Unlisted(ts, current, names);
    if ts[id].contest == Some(c) {
      var k :| 0 <= k < |others| && others[k] == id;
      assert (listed + others)[|listed| + k] == id;
    } else {
      assert id !in others;
      assert id !in listed;
    }
  }

  lemma ReorderedNumbers(ts: Tasks, ts': Tasks, c: int, names: seq<string>)
    requires UniqueNames(ts) && UniquePlaces(ts) && Reordered(ts, ts', c, names)
    ensures Renumbered(ts, ts', c, names)
  {
    var current, listed :| ReorderedBy(ts, ts', c, names, current, listed);
    ReorderedLists(ts, ts', c, names, current, listed);
    forall id | id in ts' && ts'[id].contest == Some(c)
      ensures ts'[id].num.Some? && forall n :: 0 <= n <= ts'[id].num.value ==> HasNumber(ts', c, n)
    {
      NumberedWithoutGaps(ts', c, listed + Unlisted(ts, current, names), id);
    }
    forall k | 0 <= k < |names| ensures NumberOf(ts', c, names[k], k) {
      NamedNumbers(ts, ts', c, names, current, listed, k);
    }
    forall a, b | a in ts && b in ts ensures FollowInOrder(ts, ts', c, names, a, b) {
      UnlistedFollow(ts, ts', c, names, current, listed, a, b);
    }
    forall id | id in ts && ts[id].name !in names
      ensures if ts[id].contest == Some(c) then ts'[id].contest == Some(c) else ts'[id] == ts[id]
    {
      OthersStay(ts, ts', c, names, current, listed, id);
    }
  }

  /** A task whose name is listed is one of the listed tasks. */
  lemma ListedIs(ts: Tasks, listed: seq<TaskId>, names: seq<string>, id: TaskId)
    requires UniqueNames(ts) && Named(ts, listed, names) && id in ts
    ensures ts[id].name in names ==> id in listed
  {
    if ts[id].name in names {
      var k :| 0 <= k < |names| && names[k] == ts[id].name;
      assert listed[k] == id;
    }
  }

  // --------------------------------------------- room for tasks yet to come

  /** Room for the listed tasks, those still to be created included, and the others, below the parking range. */
  ghost predicate Room(ts: Tasks, c: int, names: seq<string>) {
    exists current :: Fits(ts, c, names, current)
  }

  ghost predicate Fits(ts: Tasks, c: int, names: seq<string>, current: seq<TaskId>) {
    && Lists(ts, c, current) && |names| + |Unlisted(ts, current, names)| <= 100000
    && Below(ts, c, 100000 - |names|)
  }

  /** At most i listed tasks were added at the end of the contest, and no task has moved. */
  ghost predicate Grown(ts0: Tasks, ts: Tasks, c: int, names: seq<string>, i: nat) {
    forall s {:trigger Unsealed(s)} :: Unsealed(s) ==>
      && (forall id :: id in ts0 ==>
            id in ts && ts[id].name == ts0[id].name && ts[id].contest == ts0[id].contest && ts[id].num == ts0[id].num)
      && (forall id :: id in ts && id !in ts0 ==> ts[id].contest == Some(c) && ts[id].name in names)
      && (forall b :: b >= 0 && Below(ts0, c, b) ==> Below(ts, c, b + i))
  }

  lemma GrownStart(ts: Tasks, c: int, names: seq<string>)
    ensures Grown(ts, ts, c, names, 0)
  {
  }

  /** A task that keeps its place, and perhaps one more. */
  lemma GrownNext(ts0: Tasks, ts: Tasks, ts': Tasks, c: int, names: seq<string>, i: nat, id: TaskId)
    requires Grown(ts0, ts, c, names, i) && id in ts' && ts'.Keys == ts.Keys + {id}
             && forall x :: x in ts && x != id ==> ts'[x] == ts[x]
    requires id in ts ==> ts'[id].name == ts[id].name && ts'[id].contest == ts[id].contest && ts'[id].num == ts[id].num
    requires id !in ts ==> ts'[id].contest == Some(c) && ts'[id].name in names && ts'[id].num.Some?
    requires id !in ts ==> forall b :: b >= 0 && Below(ts, c, b) ==> ts'[id].num.value <= b
    ensures Grown(ts0, ts', c, names, i + 1)
  {
    assert Unsealed(Seal);
    forall b | b >= 0 && Below(ts0, c, b)
      ensures Below(ts', c, b + (i + 1))
    {
      assert Below(ts, c, b + i);
    }
  }

  lemma GrownSame(ts0: Tasks, ts: Tasks, c: int, names: seq<string>, i: nat)
    requires Grown(ts0, ts, c, names, i)
    ensures Grown(ts0, ts, c, names, i + 1)
  {
    assert Unsealed(Seal);
    forall b | b >= 0 && Below(ts0, c, b)
      ensures Below(ts, c, b + (i + 1))
    {
      assert Below(ts, c, b + i);
    }
  }

  /** Different members of b are no more than b has. */
  lemma {:induction false} NoMore<T>(a: seq<T>, b: seq<T>)
    requires (forall i, j :: 0 <= i < j < |a| ==> a[i] != a[j]) && forall x :: x in a ==> x in b
    ensures |a| <= |b|
  {
    if a != [] {
      assert a == [a[0]] + a[1..];
      assert a[0] in b;
      var k :| 0 <= k < |b| && b[k] == a[0];
      forall x | x in a[1..]
        ensures x in b[..k] + b[k + 1..]
      {
        assert x in a && x in b;
        var j :| 0 <= j < |b| && b[j] == x;
        assert j < k ==> b[..k][j] == x;
        assert j > k ==> b[k + 1..][j - k - 1] == x;
      }
      NoMore(a[1..], b[..k] + b[k + 1..]);
    }
  }

  lemma {:induction false} UnlistedDistinct(ts: Tasks, ids: seq<TaskId>, names: seq<string>)
    requires Distinct(ids) && forall i :: 0 <= i < |ids| ==> ids[i] in ts
    ensures Distinct(Unlisted(ts, ids, names))
  {
    if ids != [] {
      UnlistedDistinct(ts, ids[..|ids| - 1], names);
      UnlistedMembers(ts, ids[..|ids| - 1], names);
    }
  }

  /** The new tasks are listed, so the unlisted ones are as many as before. */
  lemma UnlistedGrown(ts0: Tasks, ts: Tasks, c: int, names: seq<string>, i: nat, current0: seq<TaskId>,
                      current: seq<TaskId>)
    requires Grown(ts0, ts, c, names, i) && Lists(ts0, c, current0) && Lists(ts, c, current)
    ensures |Unlisted(ts, current, names)| <= |Unlisted(ts0, current0, names)|
  {
    assert Unsealed(Seal);
    ListsDistinct(ts, current);
    UnlistedDistinct(ts, current, names);
    UnlistedMembers(ts, current, names);
    UnlistedMembers(ts0, current0, names);
    NoMore(Unlisted(ts, current, names), Unlisted(ts0, current0, names));
  }

  /** The room is still there when the listed tasks have been created. */
  lemma GrownRoom(ts0: Tasks, ts: Tasks, c: int, names: seq<string>, current: seq<TaskId>)
    requires Room(ts0, c, names) && Grown(ts0, ts, c, names, |names|) && Lists(ts, c, current) && AllKnown(ts, names)
    ensures Roomy(ts, c, current, names)
  {
    var current0 :| Fits(ts0, c, names, current0);
    UnlistedGrown(ts0, ts, c, names, |names|, current0, current);
    assert Unsealed(Seal);
    assert Below(ts0, c, PARKING - |names|);
    assert Below(ts, c, PARKING - |names| + |names|);
  }
}
