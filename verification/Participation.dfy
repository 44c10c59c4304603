/**
 The time window of a participation (internal/contest/timing.go) and the start button
 (internal/contestweb/handlers.go): phases over every run of time and presses.
 */
module Participation {
  import opened Common

  datatype Phase = NotStarted | WaitingStart | Running | Finished | Analysis | Practice

  /** Times are instants, durations differences of instants. */
  datatype Rules = Rules(start: int, stop: int, perUserTime: int, analysisEnabled: bool, analysisStart: Option<int>,
                         analysisStop: Option<int>, practice: bool)

  datatype Participant = Participant(startingTime: Option<int>, siteStart: Option<int>, delay: int, extra: int,
                                     unrestricted: bool)

  /** `end` is missing while a per-user contestant has not started. */
  datatype Status = Status(phase: Phase, begin: int, end: Option<int>, remaining: int, canStart: bool, canSubmit: bool,
                           official: bool)

  // ------------------------------------------------------------------ compute

  /** The start and the stop of the contest for this participant. */
  function Begin(r: Rules, p: Participant): int {
    (if p.siteStart.Some? then p.siteStart.value else r.start) + p.delay
  }

  function Stop(r: Rules, p: Participant): int {
    (if p.siteStart.Some? then p.siteStart.value + (r.stop - r.start) else r.stop) + p.delay
  }

  predicate Unstarted(r: Rules, p: Participant) { r.perUserTime > 0 && p.startingTime.None? }

  /** The window of a contestant, before analysis and practice. */
  function Window(r: Rules, p: Participant, now: int): Status {
    var begin, stop := Begin(r, p), Stop(r, p);
    var end := stop + p.extra;
    if Unstarted(r, p) then
      if now < begin then Status(NotStarted, begin, None, 0, false, false, false)
      else if now < stop then Status(WaitingStart, begin, None, 0, true, false, false)
      else Status(Finished, begin, None, 0, false, false, false)
    else
      var b, e :=
        if r.perUserTime > 0 then p.startingTime.value else begin,
        if r.perUserTime > 0 && p.startingTime.value + r.perUserTime + p.extra < end
        then p.startingTime.value + r.perUserTime + p.extra else end;
      if now < b then Status(NotStarted, b, Some(e), 0, false, false, false)
      else if now < e then Status(Running, b, Some(e), e - now, false, false, false)
      else Status(Finished, b, Some(e), 0, false, false, false)
  }

  /** Analysis, then practice, take over from a finished window. */
  function AfterEnd(r: Rules, phase: Phase, now: int): Phase {
    var p := if phase == Finished && r.analysisEnabled && r.analysisStart.Some? && r.analysisStop.Some?
                && r.analysisStart.value <= now < r.analysisStop.value then Analysis else phase;
    if p == Finished && r.practice && (r.analysisStop.None? || !r.analysisEnabled || now >= r.analysisStop.value)
    then Practice else p
  }

  function Compute(r: Rules, p: Participant, now: int): Status {
    var w := Window(r, p, now);
    var phase := AfterEnd(r, w.phase, now);
    var unofficial := phase == Analysis || phase == Practice;
    w.(phase := phase,
       canSubmit := phase == Running || unofficial || p.unrestricted,
       official := if p.unrestricted then !unofficial else phase == Running)
  }

  // ------------------------------------------------------- what a status means

  /** The window of a participant, if one is open or has been: [begin, end). */
  datatype Span = Span(begin: int, end: int)

  /** The contest opens at the site's start or its own, delayed; a contestant's own time begins with the press. */
  function SpanOf(r: Rules, p: Participant): Option<Span> {
    var opens := p.delay + if p.siteStart.Some? then p.siteStart.value else r.start;
    var end := opens + (r.stop - r.start) + p.extra;
    if r.perUserTime <= 0 then Some(Span(opens, end))
    else match p.startingTime
      case None => None
      case Some(s) => Some(Span(s, if s + r.perUserTime + p.extra <= end then s + r.perUserTime + p.extra else end))
  }

  /** The part of the contest in which a contestant with time of their own may start. */
  predicate MayStart(r: Rules, p: Participant, now: int) {
    var opens := p.delay + if p.siteStart.Some? then p.siteStart.value else r.start;
    SpanOf(r, p).None? && opens <= now < opens + (r.stop - r.start)
  }

  /** It is over: the window has ended, or there is no time left to open one. */
  predicate Over(r: Rules, p: Participant, now: int) {
    match SpanOf(r, p)
    case Some(span) => span.begin <= now && span.end <= now
    case None => p.delay + (if p.siteStart.Some? then p.siteStart.value else r.start) <= now && !MayStart(r, p, now)
  }

  predicate AnalysisOpen(r: Rules, now: int) {
    r.analysisEnabled && r.analysisStart.Some? && r.analysisStop.Some?
    && r.analysisStart.value <= now < r.analysisStop.value
  }

  predicate AnalysisPast(r: Rules, now: int) {
    r.analysisEnabled && r.analysisStop.Some? ==> r.analysisStop.value <= now
  }

  /** When each phase is, what it allows, and which submissions count. */
  lemma StatusMeans(r: Rules, p: Participant, now: int)
    ensures var s, span := Compute(r, p, now), SpanOf(r, p);
            && (s.phase == Running <==> span.Some? && span.value.begin <= now < span.value.end)
            && (s.phase == WaitingStart <==> MayStart(r, p, now))
            && (s.phase == Analysis <==> Over(r, p, now) && AnalysisOpen(r, now))
            && (s.phase == Practice <==> Over(r, p, now) && r.practice && AnalysisPast(r, now))
            && (s.phase == Finished <==>
                  Over(r, p, now) && !AnalysisOpen(r, now) && !(r.practice && AnalysisPast(r, now)))
            && (s.canStart <==> MayStart(r, p, now))
            && (s.canSubmit <==> p.unrestricted || s.phase in {Running, Analysis, Practice})
            && (s.official <==> s.phase == Running || (p.unrestricted && s.phase !in {Analysis, Practice}))
            && s.remaining == (if s.phase == Running then span.value.end - now else 0)
            && match span
               case Some(x) => s.begin == x.begin && s.end == Some(x.end)
               case None =>
                 s.end == None && s.begin == p.delay + if p.siteStart.Some? then p.siteStart.value else r.start
  {
  }

  // --------------------------------------------------------------------- runs

  /** Phases in the order they are gone through; analysis opens and closes within the end. */
  function Rank(phase: Phase): nat {
    match phase
    case NotStarted => 0
    case WaitingStart => 1
    case Running => 2
    case Finished => 3
    case Analysis => 3
    case Practice => 4
  }

  /** Pressing start, which counts once and only while it is offered. */
  function Pressed(r: Rules, p: Participant, now: int): Participant {
    if !Compute(r, p, now).canStart then p
    else p.(startingTime := if p.startingTime.Some? then p.startingTime else Some(now))
  }

  datatype Event = Look(now: int) | Press(now: int)

  /** The participant after some events. */
  function Later(r: Rules, p: Participant, events: seq<Event>): Participant {
    if events == [] then p
    else
      var before, e := Later(r, p, events[..|events| - 1]), events[|events| - 1];
      if e.Press? then Pressed(r, before, e.now) else before
  }

  ghost predicate InOrder(events: seq<Event>) {
    forall i, j :: 0 <= i < j < |events| ==> events[i].now <= events[j].now
  }

  /** The phase seen right after the i-th event. */
  function PhaseAt(r: Rules, p: Participant, events: seq<Event>, i: nat): Phase
    requires i < |events|
  {
    Compute(r, Later(r, p, events[..i + 1]), events[i].now).phase
  }

  lemma TimePasses(r: Rules, p: Participant, now: int, later: int)
    requires now <= later
    ensures Rank(Compute(r, p, now).phase) <= Rank(Compute(r, p, later).phase)
    ensures Compute(r, p, now).phase == Practice ==> Compute(r, p, later).phase == Practice
  {
  }

  lemma PressMovesOn(r: Rules, p: Participant, now: int)
    ensures Rank(Compute(r, p, now).phase) <= Rank(Compute(r, Pressed(r, p, now), now).phase)
    ensures Compute(r, p, now).phase == Practice ==> Pressed(r, p, now) == p
  {
  }

  /** One more event. */
  lemma EventMovesOn(r: Rules, p: Participant, now: int, e: Event)
    requires now <= e.now
    ensures var p' := if e.Press? then Pressed(r, p, e.now) else p;
            && Rank(Compute(r, p, now).phase) <= Rank(Compute(r, p', e.now).phase)
            && (Compute(r, p, now).phase == Practice ==> Compute(r, p', e.now).phase == Practice)
  {
    TimePasses(r, p, now, e.now);
    PressMovesOn(r, p, e.now);
  }

  /** Over every run the phase never goes back, and practice never ends. */
  lemma {:induction false} PhasesGoForward(r: Rules, p: Participant, events: seq<Event>, i: nat, j: nat)
    requires InOrder(events) && i <= j < |events|
    ensures Rank(PhaseAt(r, p, events, i)) <= Rank(PhaseAt(r, p, events, j))
    ensures PhaseAt(r, p, events, i) == Practice ==> PhaseAt(r, p, events, j) == Practice
    decreases j - i
  {
    if i < j {
      PhasesGoForward(r, p, events, i, j - 1);
      assert events[..j + 1][..j] == events[..j];
      EventMovesOn(r, p := Later(r, p, events[..j]), now := events[j - 1].now, e := events[j]);
    }
  }

  /** What follows an analysis: analysis until its stop, then practice or the end. */
  lemma AfterAnalysis(r: Rules, p: Participant, now: int, later: int)
    requires now <= later && Compute(r, p, now).phase == Analysis
    ensures Compute(r, p, later).phase ==
              if later < r.analysisStop.value then Analysis else if r.practice then Practice else Finished
  {
  }

  /** The phases as they are declared go back only when an analysis closes without practice. */
  lemma DeclaredOrder(r: Rules, p: Participant, now: int, later: int)
    requires now <= later
    ensures Index(Compute(r, p, later).phase) < Index(Compute(r, p, now).phase) <==>
              Compute(r, p, now).phase == Analysis && !r.practice && later >= r.analysisStop.value
  {
    TimePasses(r, p, now, later);
    if Compute(r, p, now).phase == Analysis {
      AfterAnalysis(r, p, now, later);
    }
  }

  /** They do: an hour of contest, then an hour of analysis and no practice. */
  lemma DeclaredOrderGoesBack()
    ensures var r := Rules(0, 60, 0, true, Some(60), Some(120), false);
            var p := Participant(None, None, 0, 0, false);
            Compute(r, p, 90).phase == Analysis && Compute(r, p, 120).phase == Finished
            && Index(Finished) < Index(Analysis)
  {
  }

  function Index(phase: Phase): nat {
    match phase
    case NotStarted => 0
    case WaitingStart => 1
    case Running => 2
    case Finished => 3
    case Analysis => 4
    case Practice => 5
  }

  /**
   Pressing start opens the window at that instant exactly when the window it opens is not
   empty, which the database's check that the extra time is not negative makes sure of.
   */
  lemma StartRuns(r: Rules, p: Participant, now: int)
    requires Compute(r, p, now).canStart
    ensures Compute(r, Pressed(r, p, now), now).phase == Running <==>
              r.perUserTime + p.extra > 0 && now < Stop(r, p) + p.extra
    ensures p.extra >= 0 ==> Compute(r, Pressed(r, p, now), now).phase == Running
    ensures Compute(r, Pressed(r, p, now), now).begin == now
  {
  }

  /** The button is offered only to a per-user contestant who has not pressed it, so a second press changes nothing. */
  lemma PressOnce(r: Rules, p: Participant, now: int, later: int)
    requires Compute(r, p, now).canStart
    ensures var p' := Pressed(r, p, now); p'.startingTime == Some(now) && Pressed(r, p', later) == p'
  {
  }

  /** The official instants of a restricted contestant are exactly the window, the same at every instant. */
  lemma OfficialWindow(r: Rules, p: Participant, now: int, other: int)
    requires !p.unrestricted
    ensures var s, s' := Compute(r, p, now), Compute(r, p, other);
            && s.begin == s'.begin && s.end == s'.end
            && (s.official <==> s.end.Some? && s.begin <= now < s.end.value)
            && (s.end.None? <==> Unstarted(r, p))
            && (r.perUserTime > 0 && s.end.Some? ==> s.end.value - s.begin <= r.perUserTime + p.extra)
            && (s.end.Some? ==> s.end.value <= Stop(r, p) + p.extra)
  {
  }

  /** The remaining time runs out exactly at the end. */
  lemma RemainingIsExact(r: Rules, p: Participant, now: int)
    requires Compute(r, p, now).phase == Running
    ensures var s := Compute(r, p, now);
            s.remaining > 0 && Compute(r, p, now + s.remaining).phase != Running
            && Compute(r, p, now + s.remaining - 1).phase == Running
  {
  }

  /** In a run, a restricted per-user contestant's official instants all lie in one window that opens with the press. */
  lemma {:induction false} OfficialInRun(r: Rules, p: Participant, events: seq<Event>, i: nat)
    requires InOrder(events) && i < |events| && !p.unrestricted && r.perUserTime > 0 && p.startingTime.None?
    requires Compute(r, Later(r, p, events[..i + 1]), events[i].now).official
    ensures exists k :: 0 <= k <= i && events[k].Press?
                        && events[k].now <= events[i].now < events[k].now + r.perUserTime + p.extra
                        && Later(r, p, events[..i + 1]) == p.(startingTime := Some(events[k].now))
  {
    StartedBy(r, p, events[..i + 1]);
    var q := Later(r, p, events[..i + 1]);
    OfficialWindow(r, q, events[i].now, events[i].now);
    var k :| 0 <= k < i + 1 && events[..i + 1][k].Press? && q == p.(startingTime := Some(events[..i + 1][k].now));
    assert events[..i + 1][k] == events[k];
  }

  lemma {:induction false} StartedBy(r: Rules, p: Participant, events: seq<Event>)
    requires p.startingTime.None?
    ensures var q := Later(r, p, events);
            q == p || exists k :: 0 <= k < |events| && events[k].Press? && q == p.(startingTime := Some(events[k].now))
  {
    if events != [] {
      var n := |events| - 1;
      StartedBy(r, p, events[..n]);
      var before := Later(r, p, events[..n]);
      if before != p {
        var k :| 0 <= k < n && events[..n][k].Press? && before == p.(startingTime := Some(events[..n][k].now));
        assert events[k].Press? && before == p.(startingTime := Some(events[k].now));
      } else if Later(r, p, events) != p {
        assert events[n].Press?;
      }
    }
  }
}
