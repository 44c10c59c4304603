/**
 The limits on submissions (internal/contest/limits.go), the gate that applies them and
 the countdown shown to contestants (internal/contestweb/handlers.go).
 */
module SubmissionLimits {
  import opened Common

  /** Instants are nanoseconds since the Unix epoch. */
  const SECOND: int := 1_000_000_000
  const MILLI: int := 1_000_000

  datatype Limit = Limit(maxNumber: Option<int>, minInterval: Option<int>)

  datatype Usage = Usage(contestCount: nat, taskCount: nat, contestLast: int, taskLast: int)

  datatype Refusal = ContestMax | TaskMax | ContestInterval(wait: int) | TaskInterval(wait: int)

  /** An official submission of a contestant (or team). */
  datatype Submission = Submission(task: int, at: int)

  /** Times up to the epoch's first second read as "never". */
  predicate Unset(t: int) { t < SECOND }

  predicate OverMax(l: Limit, count: nat) { l.maxNumber.Some? && count >= l.maxNumber.value }

  /** The interval a limit imposes, if any. */
  function Interval(l: Limit): int {
    if l.minInterval.Some? && l.minInterval.value > 0 then l.minInterval.value * SECOND else 0
  }

  predicate TooSoon(l: Limit, last: int, now: int) { Interval(l) > 0 && !Unset(last) && now < last + Interval(l) }

  function Check(c: Limit, t: Limit, u: Usage, now: int): Option<Refusal> {
    if OverMax(c, u.contestCount) then Some(ContestMax)
    else if OverMax(t, u.taskCount) then Some(TaskMax)
    else if TooSoon(c, u.contestLast, now) then Some(ContestInterval(u.contestLast + Interval(c) - now))
    else if TooSoon(t, u.taskLast, now) then Some(TaskInterval(u.taskLast + Interval(t) - now))
    else None
  }

  // -------------------------------------------------------------- statistics

  /** The submissions to one task. */
  function OnTask(subs: seq<Submission>, task: int): seq<Submission> {
    if subs == [] then []
    else
      var rest, last := OnTask(subs[..|subs| - 1], task), subs[|subs| - 1];
      if last.task == task then rest + [last] else rest
  }

  /** The latest time, or the epoch. */
  function Latest(subs: seq<Submission>): int {
    if subs == [] then 0
    else if |subs| == 1 then subs[0].at
    else
      var rest, last := Latest(subs[..|subs| - 1]), subs[|subs| - 1].at;
      if rest < last then last else rest
  }

  function Stats(subs: seq<Submission>, task: int): Usage {
    Usage(|subs|, |OnTask(subs, task)|, Latest(subs), Latest(OnTask(subs, task)))
  }

  lemma {:induction false} LatestBounds(subs: seq<Submission>)
    requires subs != []
    ensures forall i :: 0 <= i < |subs| ==> subs[i].at <= Latest(subs)
    ensures exists i :: 0 <= i < |subs| && subs[i].at == Latest(subs)
  {
    var n := |subs| - 1;
    if n > 0 {
      LatestBounds(subs[..n]);
      var i :| 0 <= i < n && subs[..n][i].at == Latest(subs[..n]);
      assert subs[i].at == Latest(subs[..n]);
      assert forall k :: 0 <= k < n ==> subs[k] == subs[..n][k];
      assert Latest(subs) == subs[n].at || Latest(subs) == subs[i].at;
    } else {
      assert subs[0].at == Latest(subs);
    }
  }

  // -------------------------------------------------------------------- runs

  /** Counts are within the maximum. */
  predicate WithinMax(l: Limit, subs: seq<Submission>) {
    l.maxNumber.Some? ==> |subs| <= l.maxNumber.value || |subs| == 0
  }

  /** Submissions are in order and at least the interval apart. */
  ghost predicate Spaced(l: Limit, subs: seq<Submission>) {
    forall i, j :: 0 <= i < j < |subs| ==> subs[j].at >= subs[i].at + Interval(l)
  }

  /** What the limits promise of a contestant's official submissions. */
  ghost predicate Respects(c: Limit, limits: map<int, Limit>, subs: seq<Submission>) {
    && WithinMax(c, subs) && Spaced(c, subs)
    && (forall t :: t in limits ==> WithinMax(limits[t], OnTask(subs, t)) && Spaced(limits[t], OnTask(subs, t)))
  }

  /** Nothing was submitted in the epoch's first second or before. */
  ghost predicate Dated(subs: seq<Submission>) { forall i :: 0 <= i < |subs| ==> subs[i].at >= SECOND }

  lemma {:induction false} OnTaskDated(subs: seq<Submission>, task: int)
    ensures Dated(subs) ==> Dated(OnTask(subs, task))
    ensures forall s :: s in OnTask(subs, task) ==> s in subs && s.task == task
  {
    if subs != [] {
      OnTaskDated(subs[..|subs| - 1], task);
      assert subs == subs[..|subs| - 1] + [subs[|subs| - 1]];
    }
  }

  /** An accepted submission keeps the interval. */
  lemma ApartNext(l: Limit, subs: seq<Submission>, s: Submission)
    requires Spaced(l, subs) && Dated(subs) && (subs != [] ==> Latest(subs) <= s.at)
    requires !(subs != [] && TooSoon(l, Latest(subs), s.at))
    ensures Spaced(l, subs + [s])
  {
    if subs != [] {
      LatestBounds(subs);
      forall i | 0 <= i < |subs|
        ensures s.at >= subs[i].at + Interval(l)
      {
        assert subs[i].at <= Latest(subs);
      }
    }
  }

  lemma OnTaskNext(subs: seq<Submission>, s: Submission, task: int)
    ensures OnTask(subs + [s], task) == if s.task == task then OnTask(subs, task) + [s] else OnTask(subs, task)
  {
    assert (subs + [s])[..|subs|] == subs;
  }

  lemma LatestOnTask(subs: seq<Submission>, task: int, now: int)
    requires subs != [] ==> Latest(subs) <= now
    ensures OnTask(subs, task) != [] ==> Latest(OnTask(subs, task)) <= now
  {
    var on := OnTask(subs, task);
    OnTaskDated(subs, task);
    if on != [] {
      LatestBounds(on);
      var i :| 0 <= i < |on| && on[i].at == Latest(on);
      assert on[i] in subs;
      LatestBounds(subs);
    }
  }

  /** An admitted submission keeps every limit. */
  lemma AdmittedRespects(c: Limit, limits: map<int, Limit>, subs: seq<Submission>, s: Submission)
    requires Respects(c, limits, subs) && Dated(subs) && (subs != [] ==> Latest(subs) <= s.at)
    requires s.task in limits && Check(c, limits[s.task], Stats(subs, s.task), s.at) == None
    ensures Respects(c, limits, subs + [s])
  {
    ApartNext(c, subs, s);
    WithinMaxNext(c, subs, s);
    forall t | t in limits
      ensures WithinMax(limits[t], OnTask(subs + [s], t)) && Spaced(limits[t], OnTask(subs + [s], t))
    {
      OnTaskNext(subs, s, t);
      if t == s.task {
        TaskRespects(limits[t], subs, s);
      }
    }
  }

  lemma WithinMaxNext(l: Limit, subs: seq<Submission>, s: Submission)
    requires WithinMax(l, subs) && !OverMax(l, |subs|)
    ensures WithinMax(l, subs + [s])
  {
  }

  /** The limit of its task is kept too. */
  lemma TaskRespects(l: Limit, subs: seq<Submission>, s: Submission)
    requires var on := OnTask(subs, s.task);
             WithinMax(l, on) && Spaced(l, on) && !OverMax(l, |on|) && !TooSoon(l, Latest(on), s.at)
    requires Dated(subs) && (subs != [] ==> Latest(subs) <= s.at)
    ensures WithinMax(l, OnTask(subs, s.task) + [s]) && Spaced(l, OnTask(subs, s.task) + [s])
  {
    OnTaskDated(subs, s.task);
    LatestOnTask(subs, s.task, s.at);
    WithinMaxNext(l, OnTask(subs, s.task), s);
    ApartNext(l, OnTask(subs, s.task), s);
  }

  /** A contestant's official submissions, received one at a time. */
  class Contestant {
    const contest: Limit
    const limits: map<int, Limit>
    const unrestricted: bool
    var subs: seq<Submission>

    ghost predicate Valid()
      reads this
    {
      Dated(subs) && (!unrestricted ==> Respects(contest, limits, subs))
    }

    constructor (contest: Limit, limits: map<int, Limit>, unrestricted: bool)
      ensures this.contest == contest && this.limits == limits && this.unrestricted == unrestricted && subs == []
              && Valid()
    {
      this.contest, this.limits, this.unrestricted, subs := contest, limits, unrestricted, [];
    }

    /** The limit gate of a submission; only official ones are counted. */
    method Submit(task: int, now: int, official: bool) returns (refused: Option<Refusal>)
      requires Valid() && task in limits && now >= SECOND && (subs != [] ==> Latest(subs) <= now)
      modifies this`subs
      ensures Valid()
      ensures refused == if official && !unrestricted
                         then Check(contest, limits[task], Stats(old(subs), task), now) else None
      ensures official && !unrestricted ==> RefusalIs(contest, limits[task], old(subs), task, now, refused)
      ensures subs == if official && refused.None? then old(subs) + [Submission(task, now)] else old(subs)
    {
      CheckSays(contest, limits[task], subs, task, now);
      refused := None;
      if official && !unrestricted {
        refused := Check(contest, limits[task], Stats(subs, task), now);
        if refused.Some? {
          return;
        }
        AdmittedRespects(contest, limits, subs, Submission(task, now));
      }
      if official {
        subs := subs + [Submission(task, now)];
      }
    }

    /**
     When the contestant may submit to a task again, in milliseconds: 0 exactly when no
     interval holds them back, else the first instant at which none does.
     */
    method ReadyAt(task: int, now: int, official: bool) returns (ms: int)
      requires task in limits && Dated(subs)
      ensures !official || unrestricted ==> ms == 0
      ensures official && !unrestricted ==> (ms == 0 <==> !Pending(contest, limits[task], Stats(subs, task), now))
      ensures official && !unrestricted ==> (ms == 0 <==> !HeldBack(contest, limits[task], subs, task, now))
      ensures ms != 0 ==> exists first :: ms == first / 1_000_000
                                          && FirstFree(contest, limits[task], Stats(subs, task), first)
                                          && FreeFrom(contest, limits[task], subs, task, first)
    {
      PendingMeans(contest, limits[task], subs, task, now);
      var cmin, tmin := contest.minInterval, limits[task].minInterval;
      if !official || unrestricted || ((cmin.None? || cmin.value <= 0) && (tmin.None? || tmin.value <= 0)) {
        return 0;
      }
      var st := Stats(subs, task);
      DatedStats(subs, task);
      var at := None;
      if cmin.Some? && cmin.value > 0 && st.contestCount > 0 {
        at := Some(st.contestLast + cmin.value * SECOND);
      }
      if tmin.Some? && tmin.value > 0 && st.taskCount > 0 {
        var a := st.taskLast + tmin.value * SECOND;
        if at.None? || a > at.value {
          at := Some(a);
        }
      }
      if at.None? || at.value <= now {
        return 0;
      }
      ms := at.value / MILLI;
      assert FirstFree(contest, limits[task], st, at.value);
      FreeFromMeans(contest, limits[task], subs, task, at.value);
    }
  }

  // ------------------------------------------------------ what a refusal means

  /** The number of submissions to a task. */
  function Made(subs: seq<Submission>, task: int): nat {
    if subs == [] then 0 else Made(subs[1..], task) + if subs[0].task == task then 1 else 0
  }

  predicate Full(l: Limit, made: nat) { l.maxNumber.Some? && made >= l.maxNumber.value }

  /** The interval of a limit, in seconds, still runs for w after the latest submission (to the task, if given). */
  ghost predicate HoldsBack(l: Limit, subs: seq<Submission>, task: Option<int>, now: int, w: int) {
    && l.minInterval.Some? && l.minInterval.value > 0 && w > 0
    && (exists i :: 0 <= i < |subs| && (task.Some? ==> subs[i].task == task.value)
                    && now + w == subs[i].at + l.minInterval.value * 1_000_000_000)
    && (forall i :: 0 <= i < |subs| && (task.Some? ==> subs[i].task == task.value) ==>
          subs[i].at + l.minInterval.value * 1_000_000_000 <= now + w)
  }

  ghost predicate HeldBack(c: Limit, t: Limit, subs: seq<Submission>, task: int, now: int) {
    exists w :: HoldsBack(c, subs, None, now, w) || HoldsBack(t, subs, Some(task), now, w)
  }

  /**
   Why a submission is refused: the contest's maximum, then the task's, then the contest's interval, then the
   task's, each with the time that is left.
   */
  ghost predicate RefusalIs(c: Limit, t: Limit, subs: seq<Submission>, task: int, now: int, r: Option<Refusal>) {
    if Full(c, |subs|) then r == Some(ContestMax)
    else if Full(t, Made(subs, task)) then r == Some(TaskMax)
    else match r
      case Some(ContestInterval(w)) => HoldsBack(c, subs, None, now, w)
      case Some(TaskInterval(w)) =>
        HoldsBack(t, subs, Some(task), now, w) && forall v :: !HoldsBack(c, subs, None, now, v)
      case Some(_) => false
      case None => forall v :: !HoldsBack(c, subs, None, now, v) && !HoldsBack(t, subs, Some(task), now, v)
  }

  lemma {:induction false} OnTaskMade(subs: seq<Submission>, task: int)
    ensures |OnTask(subs, task)| == Made(subs, task)
    ensures forall s :: s in OnTask(subs, task) <==> s in subs && s.task == task
  {
    if subs != [] {
      var n := |subs| - 1;
      OnTaskMade(subs[..n], task);
      assert subs == subs[..n] + [subs[n]];
      MadeSnoc(subs[..n], subs[n], task);
    }
  }

  lemma {:induction false} MadeSnoc(subs: seq<Submission>, s: Submission, task: int)
    ensures Made(subs + [s], task) == Made(subs, task) + if s.task == task then 1 else 0
  {
    if subs == [] {
      assert subs + [s] == [s];
    } else {
      assert (subs + [s])[1..] == subs[1..] + [s];
      MadeSnoc(subs[1..], s, task);
    }
  }

  /** The check of an interval looks at the latest submission. */
  lemma TooSoonMeans(l: Limit, subs: seq<Submission>, task: Option<int>, chosen: seq<Submission>, now: int)
    requires Dated(subs)
    requires forall s :: s in chosen <==> s in subs && (task.Some? ==> s.task == task.value)
    ensures TooSoon(l, Latest(chosen), now) ==> HoldsBack(l, subs, task, now, Latest(chosen) + Interval(l) - now)
    ensures forall w :: HoldsBack(l, subs, task, now, w) ==>
              TooSoon(l, Latest(chosen), now) && w == Latest(chosen) + Interval(l) - now
  {
    if chosen != [] {
      LatestBounds(chosen);
      var i :| 0 <= i < |chosen| && chosen[i].at == Latest(chosen);
      assert chosen[i] in subs;
      var k :| 0 <= k < |subs| && subs[k] == chosen[i];
      assert forall j :: 0 <= j < |subs| && (task.Some? ==> subs[j].task == task.value) ==> subs[j] in chosen;
    } else {
      assert forall j :: 0 <= j < |subs| && (task.Some? ==> subs[j].task == task.value) ==> subs[j] in chosen;
    }
  }

  /** An interval is pending exactly while it holds a submission back. */
  lemma PendingMeans(c: Limit, t: Limit, subs: seq<Submission>, task: int, now: int)
    requires Dated(subs)
    ensures Pending(c, t, Stats(subs, task), now) <==> HeldBack(c, t, subs, task, now)
  {
    OnTaskMade(subs, task);
    TooSoonMeans(c, subs, None, subs, now);
    TooSoonMeans(t, subs, Some(task), OnTask(subs, task), now);
  }

  /** What the check says of a contestant's submissions. */
  lemma CheckSays(c: Limit, t: Limit, subs: seq<Submission>, task: int, now: int)
    requires Dated(subs)
    ensures RefusalIs(c, t, subs, task, now, Check(c, t, Stats(subs, task), now))
  {
    OnTaskMade(subs, task);
    TooSoonMeans(c, subs, None, subs, now);
    TooSoonMeans(t, subs, Some(task), OnTask(subs, task), now);
  }

  // ---------------------------------------------------------------- countdown

  /** An interval holds the contestant back. */
  predicate Pending(c: Limit, t: Limit, u: Usage, now: int) {
    TooSoon(c, u.contestLast, now) || TooSoon(t, u.taskLast, now)
  }

  /** The intervals hold the contestant back before this instant and not from it on. */
  ghost predicate FirstFree(c: Limit, t: Limit, u: Usage, first: int) {
    forall now :: Pending(c, t, u, now) <==> now < first
  }

  /** Exactly from this instant on no interval holds a submission back. */
  ghost predicate FreeFrom(c: Limit, t: Limit, subs: seq<Submission>, task: int, first: int) {
    forall now :: HeldBack(c, t, subs, task, now) <==> now < first
  }

  lemma FreeFromMeans(c: Limit, t: Limit, subs: seq<Submission>, task: int, first: int)
    requires Dated(subs) && FirstFree(c, t, Stats(subs, task), first)
    ensures FreeFrom(c, t, subs, task, first)
  {
    forall now
      ensures HeldBack(c, t, subs, task, now) <==> now < first
    {
      assert Pending(c, t, Stats(subs, task), now) <==> now < first;
      PendingMeans(c, t, subs, task, now);
    }
  }

  /** Submissions that have a date are not read as "never". */
  lemma DatedStats(subs: seq<Submission>, task: int)
    requires Dated(subs)
    ensures var u := Stats(subs, task);
            (u.contestCount > 0 <==> !Unset(u.contestLast)) && (u.taskCount > 0 <==> !Unset(u.taskLast))
  {
    OnTaskDated(subs, task);
    if subs != [] {
      LatestBounds(subs);
    }
    if OnTask(subs, task) != [] {
      LatestBounds(OnTask(subs, task));
    }
  }

  /** A check refuses for an interval exactly when one is pending and no maximum is reached: a maximum hides it. */
  lemma RefusesForInterval(c: Limit, t: Limit, u: Usage, now: int)
    ensures var r := Check(c, t, u, now);
            && ((r.Some? && (r.value.ContestInterval? || r.value.TaskInterval?)) <==>
                  Pending(c, t, u, now) && !OverMax(c, u.contestCount) && !OverMax(t, u.taskCount))
            && (r.None? <==> !Pending(c, t, u, now) && !OverMax(c, u.contestCount) && !OverMax(t, u.taskCount))
            && (r.Some? && r.value.ContestInterval? ==>
                  r.value.wait > 0 && !TooSoon(c, u.contestLast, now + r.value.wait))
            && (r.Some? && r.value.TaskInterval? ==> r.value.wait > 0 && !Pending(c, t, u, now + r.value.wait))
  {
  }

  /**
   So the countdown may run while the check names a maximum: one submission allowed, made a second
   ago, a minute between two.
   */
  lemma MaximumHidesInterval(task: int, at: int)
    requires at >= SECOND
    ensures var c, t := Limit(Some(1), Some(60)), Limit(None, None);
            var u, now := Stats([Submission(task, at)], task), at + SECOND;
            Check(c, t, u, now) == Some(ContestMax) && Pending(c, t, u, now)
  {
    OnTaskNext([], Submission(task, at), task);
    assert [] + [Submission(task, at)] == [Submission(task, at)];
  }

  /** A submission in the epoch's first second would be forgotten by the check though it is counted. */
  lemma EpochForgotten(c: Limit, t: Limit, task: int, now: int)
    requires c.maxNumber.None? && t.maxNumber.None? && Interval(t) == 0
    ensures Stats([Submission(task, 0)], task).contestCount == 1
            && Check(c, t, Stats([Submission(task, 0)], task), now) == None
  {
    var subs := [Submission(task, 0)];
    OnTaskNext([], Submission(task, 0), task);
    assert [] + subs == subs;
  }
}
