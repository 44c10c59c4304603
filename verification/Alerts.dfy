/**
 The health alerts (internal/alerts/alerts.go): each rule is announced once when it has
 failed for long enough and once when it stops, across evaluations, check errors and
 restarts of the monitor; and what becomes of that when the monitor dies, or the store
 fails, in the middle of a round.
 */
module Alerts {
  import opened Common

  /** A rule and how long it must keep failing. */
  datatype Rule = Rule(name: string, holdFor: int)

  /** A rule's check: an error, or whether it fires, with the clock readings taken before and after. */
  datatype Check = Failed | Checked(firing: bool, detail: string, first: int, second: int)

  /** The stored state of a failing rule. */
  datatype Alert = Alert(detail: string, since: int, fired: bool)

  datatype Message = Raised(detail: string) | Resolved(detail: string)

  /** What one check does to a rule. */
  datatype Outcome = Outcome(state: Option<Alert>, message: Option<Message>)

  function React(r: Rule, prev: Option<Alert>, c: Check): Outcome {
    if c.Failed? then Outcome(prev, None)
    else if !c.firing then
      Outcome(None, if prev.Some? && prev.value.fired then Some(Resolved(prev.value.detail)) else None)
    else
      var since, fired := if prev.Some? then prev.value.since else c.first, prev.Some? && prev.value.fired;
      var announce := !fired && c.second - since >= r.holdFor;
      Outcome(Some(Alert(c.detail, since, fired || announce)), if announce then Some(Raised(c.detail)) else None)
  }

  // -------------------------------------------------------- one rule's history

  /** The state of a rule after a history of checks. */
  function StateAfter(r: Rule, history: seq<Check>): Option<Alert> {
    if history == [] then None
    else React(r, StateAfter(r, history[..|history| - 1]), history[|history| - 1]).state
  }

  /** What was announced over a history. */
  function Announced(r: Rule, history: seq<Check>): seq<Message> {
    if history == [] then []
    else
      var before, c := history[..|history| - 1], history[|history| - 1];
      Announced(r, before) + Listed(React(r, StateAfter(r, before), c).message)
  }

  function Listed(m: Option<Message>): seq<Message> { if m.Some? then [m.value] else [] }

  /** Where the present run of failures began: the first failing check since the last passing one. */
  function StreakStart(history: seq<Check>): (s: Option<nat>)
    ensures s.Some? ==> s.value < |history| && history[s.value].Checked? && history[s.value].firing
  {
    if history == [] then None
    else
      var before, c := StreakStart(history[..|history| - 1]), history[|history| - 1];
      if c.Failed? then before
      else if !c.firing then None
      else if before.Some? then before else Some(|history| - 1)
  }

  /** Every check since s that could be made failed. */
  ghost predicate AllFiring(history: seq<Check>, s: nat) {
    forall i :: s <= i < |history| && history[i].Checked? ==> history[i].firing
  }

  /** A check of the streak came late enough. */
  ghost predicate LastsLongEnough(r: Rule, history: seq<Check>, s: nat) {
    exists i :: s <= i < |history| && Reached(r, history, s, i)
  }

  predicate Reached(r: Rule, history: seq<Check>, s: nat, i: nat)
    requires s < |history| && i < |history|
  {
    history[s].Checked? && history[i].Checked? && history[i].second - history[s].first >= r.holdFor
  }

  /** A streak is a run of failing checks with no passing one, and nothing before it belongs to it. */
  lemma {:induction false} StreakShape(history: seq<Check>)
    ensures var s := StreakStart(history);
            && (s.Some? ==> AllFiring(history, s.value))
            && (s.None? ==> forall i :: 0 <= i < |history| && history[i].Checked? && history[i].firing ==>
                  exists j :: i < j < |history| && history[j].Checked? && !history[j].firing)
  {
    if history != [] {
      var n := |history| - 1;
      var before := history[..n];
      StreakShape(before);
      assert forall i :: 0 <= i < n ==> before[i] == history[i];
      if StreakStart(history).None? && history[n].Failed? {
        forall i | 0 <= i < |history| && history[i].Checked? && history[i].firing
          ensures exists j :: i < j < |history| && history[j].Checked? && !history[j].firing
        {
          var j :| i < j < |before| && before[j].Checked? && !before[j].firing;
          assert history[j] == before[j];
        }
      }
    }
  }

  /** The state records exactly the streak: its start, and whether it has lasted long enough. */
  lemma {:induction false} StateMeans(r: Rule, history: seq<Check>)
    ensures var st, s := StateAfter(r, history), StreakStart(history);
            && (st.Some? <==> s.Some?)
            && (st.Some? ==> st.value.since == history[s.value].first
                             && (st.value.fired <==> LastsLongEnough(r, history, s.value)))
  {
    if history != [] {
      var n := |history| - 1;
      var before, c := history[..n], history[n];
      StateMeans(r, before);
      if StreakStart(history).Some? {
        var s := StreakStart(history).value;
        if StreakStart(before).Some? {
          LongerStreak(r, history, n, s);
        } else {
          assert Reached(r, history, s, n) <==> c.second - c.first >= r.holdFor;
        }
      }
    }
  }

  lemma LongerStreak(r: Rule, history: seq<Check>, n: nat, s: nat)
    requires |history| == n + 1 && s < n && history[s].Checked?
    ensures LastsLongEnough(r, history, s) <==> LastsLongEnough(r, history[..n], s) || Reached(r, history, s, n)
  {
    var before := history[..n];
    assert before[s] == history[s];
    assert forall i :: s <= i < n ==> Reached(r, before, s, i) == Reached(r, history, s, i);
    if LastsLongEnough(r, history, s) {
      var i :| s <= i < |history| && Reached(r, history, s, i);
      assert i == n || (i < |before| && Reached(r, before, s, i));
    }
    if LastsLongEnough(r, before, s) {
      var i :| s <= i < |before| && Reached(r, before, s, i);
      assert Reached(r, history, s, i);
    }
  }

  /** Announcements take turns, beginning with an alert. */
  predicate Alternates(ms: seq<Message>) {
    ms == [] || (ms[|ms| - 1].Raised? != EndsRaised(ms[..|ms| - 1]) && Alternates(ms[..|ms| - 1]))
  }

  predicate EndsRaised(ms: seq<Message>) { ms != [] && ms[|ms| - 1].Raised? }

  /** Over every history announcements alternate, and the last one is an alert exactly while the rule has fired. */
  lemma {:induction false} AnnouncementsAlternate(r: Rule, history: seq<Check>)
    ensures Alternates(Announced(r, history))
    ensures EndsRaised(Announced(r, history)) <==> HasFired(StateAfter(r, history))
  {
    if history != [] {
      var before, c := history[..|history| - 1], history[|history| - 1];
      AnnouncementsAlternate(r, before);
      ReactTakesTurns(r, StateAfter(r, before), c);
      TurnTaken(Announced(r, before), React(r, StateAfter(r, before), c).message);
    }
  }

  predicate HasFired(st: Option<Alert>) { st.Some? && st.value.fired }

  /** An alert is announced only when not fired before, its end only when fired. */
  lemma ReactTakesTurns(r: Rule, st: Option<Alert>, c: Check)
    ensures var o := React(r, st, c);
            if o.message.Some? then o.message.value.Raised? == HasFired(o.state) == !HasFired(st)
            else HasFired(o.state) == HasFired(st)
  {
  }

  lemma TurnTaken(ms: seq<Message>, m: Option<Message>)
    requires Alternates(ms) && (m.Some? ==> m.value.Raised? != EndsRaised(ms))
    ensures Alternates(ms + Listed(m))
    ensures EndsRaised(ms + Listed(m)) == if m.Some? then m.value.Raised? else EndsRaised(ms)
  {
    if m.Some? {
      assert (ms + [m.value])[..|ms|] == ms;
    } else {
      assert ms + [] == ms;
    }
  }

  /** An alert is sent at a check exactly when a streak first lasts long enough there. */
  lemma RaisedExactly(r: Rule, history: seq<Check>)
    requires history != []
    ensures var before, c := history[..|history| - 1], history[|history| - 1];
            var m, s := React(r, StateAfter(r, before), c).message, StreakStart(history);
            (m.Some? && m.value.Raised?) <==>
              && c.Checked? && s.Some? && AllFiring(history, s.value)
              && Reached(r, history, s.value, |history| - 1)
              && !(StreakStart(before).Some? && LastsLongEnough(r, before, StreakStart(before).value))
  {
    var n := |history| - 1;
    var before := history[..n];
    StateMeans(r, before);
    StreakShape(history);
    if StreakStart(before).Some? {
      assert before[StreakStart(before).value] == history[StreakStart(before).value];
    }
  }

  // ------------------------------------------- states and messages, of the checks

  /** The first of the failing checks with no passing one since. */
  ghost predicate Begins(history: seq<Check>, s: int) {
    && 0 <= s < |history| && history[s].Checked? && history[s].firing && AllFiring(history, s)
    && forall j :: 0 <= j < s && history[j].Checked? && history[j].firing ==>
         exists k :: j < k < s && history[k].Checked? && !history[k].firing
  }

  /** The latest check that could be made. */
  ghost predicate LastMade(history: seq<Check>, i: int) {
    0 <= i < |history| && history[i].Checked? && forall j :: i < j < |history| ==> history[j].Failed?
  }

  /** While a rule fails its state holds the latest detail, when it began to fail, and whether that is long enough. */
  ghost predicate StateSays(r: Rule, history: seq<Check>, st: Option<Alert>) {
    match st
    case Some(a) =>
      exists s, i :: Begins(history, s) && LastMade(history, i)
                     && a.detail == history[i].detail && a.since == history[s].first
                     && (a.fired <==> LastsLongEnough(r, history, s))
    case None => forall s :: !Begins(history, s)
  }

  /** At the last check the failing has first lasted long enough. */
  ghost predicate FiresNow(r: Rule, history: seq<Check>, detail: string) {
    var n := |history| - 1;
    && n >= 0 && history[n].Checked? && history[n].firing && detail == history[n].detail
    && exists s :: Begins(history, s) && Reached(r, history, s, n) && !LastsLongEnough(r, history[..n], s)
  }

  /** At the last check failing that has lasted long enough is over; the detail is the latest while it failed. */
  ghost predicate EndsNow(r: Rule, history: seq<Check>, detail: string) {
    var n := |history| - 1;
    && n >= 0 && history[n].Checked? && !history[n].firing
    && exists s, i :: Begins(history[..n], s) && LastsLongEnough(r, history[..n], s)
                      && LastMade(history[..n], i) && detail == history[..n][i].detail
  }

  /** A message belongs to the last check of a history. */
  ghost predicate Announces(r: Rule, history: seq<Check>, m: Message) {
    match m
    case Raised(detail) => FiresNow(r, history, detail)
    case Resolved(detail) => EndsNow(r, history, detail)
  }

  /** What is sent over some turns: the message of every one that is not cut, in order. */
  ghost predicate SentOver(r: Rule, turns: seq<Turn>, ms: seq<Message>) {
    if turns == [] then ms == []
    else
      var n, k := |turns| - 1, |ms| - 1;
      if !turns[n].cut && exists m :: Announces(r, Checks(turns), m)
      then k >= 0 && Announces(r, Checks(turns), ms[k]) && SentOver(r, turns[..n], ms[..k])
      else SentOver(r, turns[..n], ms)
  }

  lemma {:induction false} StreakBegins(history: seq<Check>)
    ensures match StreakStart(history)
            case Some(s) => Begins(history, s)
            case None => forall s :: !Begins(history, s)
  {
    if history != [] {
      var n := |history| - 1;
      var before, c := history[..n], history[n];
      StreakBegins(before);
      assert forall i :: 0 <= i < n ==> before[i] == history[i];
      forall s: nat | s < n ensures Begins(history, s) <==> Begins(before, s) && (c.Failed? || c.firing) {
        BeginsNext(history, s);
      }
      if c.Checked? && c.firing && StreakStart(before).None? {
        NewStreak(history);
      }
      forall s: nat | s < n && StreakStart(before).Some? && Begins(history, s) ensures !Begins(history, n) {
        assert history[s].firing && AllFiring(history, s);
      }
    }
  }

  lemma BeginsNext(history: seq<Check>, s: nat)
    requires s < |history| - 1
    ensures var n := |history| - 1;
            Begins(history, s) <==> Begins(history[..n], s) && (history[n].Failed? || history[n].firing)
  {
    var before := history[..|history| - 1];
    assert forall i :: 0 <= i < |before| ==> before[i] == history[i];
  }

  /** The first failing check after all others have ended begins a streak. */
  lemma NewStreak(history: seq<Check>)
    requires history != [] && StreakStart(history[..|history| - 1]).None?
    requires var c := history[|history| - 1]; c.Checked? && c.firing
    ensures Begins(history, |history| - 1)
  {
    var n := |history| - 1;
    var before := history[..n];
    StreakShape(before);
    forall j | 0 <= j < n && history[j].Checked? && history[j].firing
      ensures exists k :: j < k < n && history[k].Checked? && !history[k].firing
    {
      assert before[j] == history[j];
      var k :| j < k < |before| && before[k].Checked? && !before[k].firing;
      assert history[k] == before[k];
    }
  }

  /** Only one check begins a streak. */
  lemma BeginsOnce(history: seq<Check>, s: int, s': int)
    requires Begins(history, s) && Begins(history, s')
    ensures s == s'
  {
  }

  lemma {:induction false} LatestDetail(r: Rule, history: seq<Check>)
    ensures StateAfter(r, history).Some? ==>
              exists i :: LastMade(history, i) && StateAfter(r, history).value.detail == history[i].detail
  {
    if history != [] {
      var n := |history| - 1;
      LatestDetail(r, history[..n]);
      if StateAfter(r, history).Some? {
        if history[n].Failed? {
          var i :| LastMade(history[..n], i) && StateAfter(r, history[..n]).value.detail == history[..n][i].detail;
          assert LastMade(history, i);
        } else {
          assert LastMade(history, n);
        }
      }
    }
  }

  /** What is stored after a history. */
  lemma StoredState(r: Rule, history: seq<Check>)
    ensures StateSays(r, history, StateAfter(r, history))
  {
    StateMeans(r, history);
    StreakBegins(history);
    LatestDetail(r, history);
    if StateAfter(r, history).Some? {
      var i :| LastMade(history, i) && StateAfter(r, history).value.detail == history[i].detail;
      assert Begins(history, StreakStart(history).value);
    }
  }

  /** Which message a check brings. */
  lemma MessageExactly(r: Rule, history: seq<Check>, m: Message)
    requires history != []
    ensures var n := |history| - 1;
            React(r, StateAfter(r, history[..n]), history[n]).message == Some(m) <==> Announces(r, history, m)
  {
    match m
    case Raised(detail) => RaisedMeans(r, history, detail);
    case Resolved(detail) => ResolvedMeans(r, history, detail);
  }

  lemma RaisedMeans(r: Rule, history: seq<Check>, detail: string)
    requires history != []
    ensures var n := |history| - 1;
            React(r, StateAfter(r, history[..n]), history[n]).message == Some(Raised(detail)) <==>
              FiresNow(r, history, detail)
  {
    var n := |history| - 1;
    var before := history[..n];
    RaisedExactly(r, history);
    StreakBegins(before);
    StreakBegins(history);
    if s :| Begins(history, s) && Reached(r, history, s, n) && !LastsLongEnough(r, before, s) {
      BeginsOnce(history, s, StreakStart(history).value);
    }
  }

  lemma ResolvedMeans(r: Rule, history: seq<Check>, detail: string)
    requires history != []
    ensures var n := |history| - 1;
            React(r, StateAfter(r, history[..n]), history[n]).message == Some(Resolved(detail)) <==>
              EndsNow(r, history, detail)
  {
    var n := |history| - 1;
    var before := history[..n];
    StateMeans(r, before);
    StreakBegins(before);
    LatestDetail(r, before);
    if EndsNow(r, history, detail) {
      var s, i :| Begins(before, s) && LastsLongEnough(r, before, s) && LastMade(before, i)
                  && detail == before[i].detail;
      BeginsOnce(before, s, StreakStart(before).value);
      var i' :| LastMade(before, i') && StateAfter(r, before).value.detail == before[i'].detail;
      assert i == i';
    }
  }

  /** What is sent over some turns is what their checks announce, less the messages that were cut off. */
  lemma {:induction false} DeliveredSays(r: Rule, turns: seq<Turn>)
    ensures SentOver(r, turns, Delivered(Fates(r, turns)))
  {
    if turns != [] {
      var n := |turns| - 1;
      var before, t := turns[..n], turns[n];
      DeliveredSays(r, before);
      var m := React(r, StateAfter(r, Checks(before)), t.check).message;
      FateAdded(Fates(r, before), m, t.cut);
      var all := Checks(turns);
      assert all[..n] == Checks(before) && all[n] == t.check;
      forall x ensures m == Some(x) <==> Announces(r, all, x) {
        MessageExactly(r, all, x);
      }
      var sent := Delivered(Fates(r, turns));
      if m.Some? && !t.cut {
        assert Announces(r, all, m.value);
        assert sent == Delivered(Fates(r, before)) + [m.value];
        assert sent[..|sent| - 1] == Delivered(Fates(r, before));
      } else {
        assert sent == Delivered(Fates(r, before));
      }
    }
  }

  // ---------------------------------------------------------- lost messages

  /** A rule's turn in a round: its check, and whether the round broke off between storing the state and sending. */
  datatype Turn = Turn(check: Check, cut: bool)

  function Checks(turns: seq<Turn>): (cs: seq<Check>)
    ensures |cs| == |turns|
  {
    if turns == [] then [] else Checks(turns[..|turns| - 1]) + [turns[|turns| - 1].check]
  }

  /** An announcement and whether it was lost. */
  datatype Fate = Fate(message: Message, lost: bool)

  /** What was announced over some turns, and what became of it. The state does not know of the losses. */
  function Fates(r: Rule, turns: seq<Turn>): seq<Fate> {
    if turns == [] then []
    else
      var before, t := turns[..|turns| - 1], turns[|turns| - 1];
      var m := React(r, StateAfter(r, Checks(before)), t.check).message;
      Fates(r, before) + Marked(m, t.cut)
  }

  function Marked(m: Option<Message>, cut: bool): seq<Fate> { if m.Some? then [Fate(m.value, cut)] else [] }

  function Messages(fs: seq<Fate>): seq<Message> {
    if fs == [] then [] else Messages(fs[..|fs| - 1]) + [fs[|fs| - 1].message]
  }

  /** The announcements that were sent. */
  function Delivered(fs: seq<Fate>): seq<Message> {
    if fs == [] then []
    else
      var rest, f := Delivered(fs[..|fs| - 1]), fs[|fs| - 1];
      if f.lost then rest else rest + [f.message]
  }

  function Lost(fs: seq<Fate>): nat {
    if fs == [] then 0 else Lost(fs[..|fs| - 1]) + if fs[|fs| - 1].lost then 1 else 0
  }

  lemma FateAdded(fs: seq<Fate>, m: Option<Message>, cut: bool)
    ensures Messages(fs + Marked(m, cut)) == Messages(fs) + Listed(m)
    ensures Delivered(fs + Marked(m, cut)) == Delivered(fs) + if cut then [] else Listed(m)
    ensures !cut ==> Lost(fs + Marked(m, cut)) == Lost(fs)
  {
    if m.Some? {
      assert (fs + Marked(m, cut))[..|fs|] == fs;
    } else {
      assert fs + Marked(m, cut) == fs;
    }
  }

  lemma TurnAdded(r: Rule, turns: seq<Turn>, t: Turn)
    ensures var o := React(r, StateAfter(r, Checks(turns)), t.check);
            && StateAfter(r, Checks(turns + [t])) == o.state
            && Fates(r, turns + [t]) == Fates(r, turns) + Marked(o.message, t.cut)
  {
    assert (turns + [t])[..|turns|] == turns;
    assert (Checks(turns) + [t.check])[..|turns|] == Checks(turns);
  }

  /** Broken rounds change what is sent, never what is announced. */
  lemma {:induction false} FatesAnnounced(r: Rule, turns: seq<Turn>)
    ensures Messages(Fates(r, turns)) == Announced(r, Checks(turns))
  {
    if turns != [] {
      var n := |turns| - 1;
      var before, t := turns[..n], turns[n];
      FatesAnnounced(r, before);
      assert Checks(turns)[..n] == Checks(before);
      FateAdded(Fates(r, before), React(r, StateAfter(r, Checks(before)), t.check).message, t.cut);
    }
  }

  predicate Even(n: nat) { n == 0 || !Even(n - 1) }

  /** The announcement at an even place is an alert, at an odd place its end. */
  lemma {:induction false} AlternatesByPlace(ms: seq<Message>)
    requires Alternates(ms)
    ensures EndsRaised(ms) <==> !Even(|ms|)
  {
    if ms != [] {
      AlternatesByPlace(ms[..|ms| - 1]);
    }
  }

  lemma {:induction false} Balance(fs: seq<Fate>)
    ensures |Messages(fs)| == |fs| == |Delivered(fs)| + Lost(fs)
  {
    if fs != [] {
      Balance(fs[..|fs| - 1]);
    }
  }

  /** Every announcement that was sent comes after an even number of lost ones. */
  ghost predicate LostInPairs(fs: seq<Fate>) {
    forall i :: 0 <= i < |fs| && !fs[i].lost ==> Even(Lost(fs[..i]))
  }

  lemma PairsNext(fs: seq<Fate>)
    requires fs != []
    ensures var n := |fs| - 1; LostInPairs(fs) <==> LostInPairs(fs[..n]) && (fs[n].lost || Even(Lost(fs[..n])))
  {
    var n := |fs| - 1;
    assert forall i :: 0 <= i < n ==> fs[..n][i] == fs[i] && fs[..n][..i] == fs[..i];
  }

  /** One more message sent keeps the turns exactly when those lost before are even in number. */
  lemma OneSent(sent: seq<Message>, m: Message, lost: nat)
    requires m.Raised? == Even(|sent| + lost)
    ensures Alternates(sent + [m]) <==> Alternates(sent) && Even(lost)
  {
    AlternatesLast(sent, m);
    EvenSum(|sent|, lost);
    if Alternates(sent) {
      AlternatesByPlace(sent);
    }
  }

  lemma AlternatesLast(ms: seq<Message>, m: Message)
    ensures Alternates(ms + [m]) <==> Alternates(ms) && m.Raised? != EndsRaised(ms)
  {
    assert (ms + [m])[..|ms|] == ms;
  }

  lemma {:induction false} EvenSum(a: nat, b: nat)
    ensures Even(b) <==> (Even(a + b) <==> Even(a))
  {
    if a > 0 {
      EvenSum(a - 1, b);
    }
  }

  lemma {:induction false} DeliveredAlternates(fs: seq<Fate>)
    requires Alternates(Messages(fs))
    ensures Alternates(Delivered(fs)) <==> LostInPairs(fs)
  {
    if fs != [] {
      var n := |fs| - 1;
      var before, f := fs[..n], fs[n];
      Balance(before);
      assert Messages(fs)[..n] == Messages(before);
      DeliveredAlternates(before);
      PairsNext(fs);
      if !f.lost {
        AlternatesByPlace(Messages(before));
        OneSent(Delivered(before), f.message, Lost(before));
      }
    }
  }

  /** What is sent alternates exactly when lost announcements come in pairs; so it does when none is lost. */
  lemma SentAlternatesExactly(r: Rule, turns: seq<Turn>)
    ensures Alternates(Delivered(Fates(r, turns))) <==> LostInPairs(Fates(r, turns))
    ensures Lost(Fates(r, turns)) == 0 ==> Alternates(Delivered(Fates(r, turns)))
  {
    AnnouncementsAlternate(r, Checks(turns));
    FatesAnnounced(r, turns);
    DeliveredAlternates(Fates(r, turns));
    if Lost(Fates(r, turns)) == 0 {
      NoneLost(Fates(r, turns));
    }
  }

  lemma {:induction false} NoneLost(fs: seq<Fate>)
    requires Lost(fs) == 0
    ensures LostInPairs(fs)
  {
    if fs != [] {
      NoneLost(fs[..|fs| - 1]);
      PairsNext(fs);
    }
  }

  /** A monitor that dies between storing a fired state and sending loses the alert: its end is then sent alone. */
  lemma LostAlert(r: Rule, c: Check, end: Check)
    requires c.Checked? && c.firing && c.second - c.first >= r.holdFor && end.Checked? && !end.firing
    ensures var turns := [Turn(c, true), Turn(end, false)];
            Delivered(Fates(r, turns)) == [Resolved(c.detail)] && !Alternates(Delivered(Fates(r, turns)))
  {
    var none: seq<Turn>, first, turns := [], [Turn(c, true)], [Turn(c, true), Turn(end, false)];
    TurnAdded(r, none, Turn(c, true));
    TurnAdded(r, first, Turn(end, false));
    assert none + [Turn(c, true)] == first && first + [Turn(end, false)] == turns;
    LostFirst(Fates(r, turns), Raised(c.detail), Resolved(c.detail));
    SentAlternatesExactly(r, turns);
  }

  lemma LostFirst(fs: seq<Fate>, m: Message, n: Message)
    requires fs == [Fate(m, true), Fate(n, false)]
    ensures Delivered(fs) == [n] && !LostInPairs(fs)
  {
    FateAdded([], Some(m), true);
    FateAdded([Fate(m, true)], Some(n), false);
    assert fs[..1] == [Fate(m, true)] && fs[..1][..0] == [];
    assert Lost(fs[..1]) == 1;
    assert !Even(1);
  }

  // -------------------------------------------------------------- the manager

  function Lookup(states: map<string, Alert>, name: string): Option<Alert> {
    if name in states then Some(states[name]) else None
  }

  function Stored(states: map<string, Alert>, name: string, st: Option<Alert>): map<string, Alert> {
    if st.Some? then states[name := st.value] else states - {name}
  }

  /** The messages sent for one rule. */
  function MessagesOf(sent: seq<(string, Message)>, name: string): seq<Message> {
    if sent == [] then []
    else
      var rest, last := MessagesOf(sent[..|sent| - 1], name), sent[|sent| - 1];
      if last.0 == name then rest + [last.1] else rest
  }

  /**
   How a round ends: after all rules, or at one of them, before its state is stored (the
   store cannot be read or written, or the monitor dies) or after, with the message unsent.
   */
  datatype End = Completed | Broken(at: nat, stored: bool)

  datatype Round = Round(checks: seq<Check>, end: End)

  /** What a round is to one of the rules. */
  function TurnIn(round: Round, i: nat): Turn
    requires i < |round.checks|
  {
    if round.end.Completed? || i < round.end.at then Turn(round.checks[i], false)
    else if i == round.end.at && round.end.stored then Turn(round.checks[i], true)
    else Turn(Failed, false)
  }

  /** The i-th rule's turns over some rounds. */
  function Column(rounds: seq<Round>, i: nat): (h: seq<Turn>)
    requires forall k :: 0 <= k < |rounds| ==> i < |rounds[k].checks|
    ensures |h| == |rounds|
  {
    if rounds == [] then [] else Column(rounds[..|rounds| - 1], i) + [TurnIn(rounds[|rounds| - 1], i)]
  }

  ghost predicate Rounds(rounds: seq<Round>, n: nat) { forall k :: 0 <= k < |rounds| ==> |rounds[k].checks| == n }

  /** What is stored and sent for one rule is what its turns say. */
  ghost predicate Follows(states: map<string, Alert>, sent: seq<(string, Message)>, r: Rule, turns: seq<Turn>) {
    Lookup(states, r.name) == StateAfter(r, Checks(turns)) && MessagesOf(sent, r.name) == Delivered(Fates(r, turns))
  }

  ghost predicate DistinctRules(rules: seq<Rule>) {
    forall i, j :: 0 <= i < j < |rules| ==> rules[i].name != rules[j].name
  }

  /** After the given rounds every rule is as its turns say. */
  ghost predicate AfterRounds(rules: seq<Rule>, states: map<string, Alert>, sent: seq<(string, Message)>,
                              rounds: seq<Round>) {
    Rounds(rounds, |rules|) && forall i :: 0 <= i < |rules| ==> Follows(states, sent, rules[i], Column(rounds, i))
  }

  /** In the middle of a round: a rule has had its turn, or is as when the round began. */
  ghost predicate Stands(r: Rule, byName: map<string, Alert>, states: map<string, Alert>, sent: seq<(string, Message)>,
                         turns: seq<Turn>, t: Turn, done: bool) {
    if done then Follows(states, sent, r, turns + [t])
    else Follows(states, sent, r, turns) && Lookup(byName, r.name) == Lookup(states, r.name)
  }

  /** The first i rules have had their turn. */
  ghost predicate Within(rules: seq<Rule>, byName: map<string, Alert>, states: map<string, Alert>,
                         sent: seq<(string, Message)>,
                         rounds: seq<Round>, round: Round, i: nat) {
    && Rounds(rounds, |rules|) && |round.checks| == |rules|
    && forall k :: 0 <= k < |rules| ==>
         Stands(rules[k], byName, states, sent, Column(rounds, k), TurnIn(round, k), k < i)
  }

  /** The monitor; the states outlive it. */
  class Manager {
    const rules: seq<Rule>
    var states: map<string, Alert>
    var sent: seq<(string, Message)>

    /** A monitor started, or started again, on what is stored. */
    constructor (rules: seq<Rule>, states: map<string, Alert>, sent: seq<(string, Message)>)
      ensures this.rules == rules && this.states == states && this.sent == sent
    {
      this.rules, this.states, this.sent := rules, states, sent;
    }

    /** Handles one rule with the state read at the start of the round; `cut` breaks off before sending. */
    method EvaluateRule(r: Rule, c: Check, prev: Option<Alert>, cut: bool)
      requires prev == Lookup(states, r.name)
      modifies this`states, this`sent
      ensures var o := React(r, prev, c);
              && states == Stored(old(states), r.name, o.state)
              && sent == if o.message.Some? && !cut then old(sent) + [(r.name, o.message.value)] else old(sent)
    {
      if c.Failed? {
        return;
      }
      if !c.firing {
        if prev.Some? {
          states := states - {r.name};
          if prev.value.fired && !cut {
            sent := sent + [(r.name, Resolved(prev.value.detail))];
          }
        }
      } else {
        var a := Alert(c.detail, c.first, false);
        if prev.Some? {
          a := a.(since := prev.value.since, fired := prev.value.fired);
        }
        var announce := !a.fired && c.second - a.since >= r.holdFor;
        if announce {
          a := a.(fired := true);
        }
        states := states[r.name := a];
        if announce && !cut {
          sent := sent + [(r.name, Raised(c.detail))];
        }
      }
    }

    /** One round over the rules, to its end or to where it breaks off. */
    method Evaluate(round: Round, ghost rounds: seq<Round>)
      requires DistinctRules(rules) && |round.checks| == |rules| && AfterRounds(rules, states, sent, rounds)
      modifies this`states, this`sent
      ensures AfterRounds(rules, states, sent, rounds + [round])
    {
      var byName := states;
      for i := 0 to |rules|
        invariant Within(rules, byName, states, sent, rounds, round, i)
        invariant round.end.Broken? ==> i <= round.end.at
      {
        ghost var states0, sent0 := states, sent;
        if round.end == Broken(i, false) {
          RestSkipped(rules, byName, states, sent, rounds, round, i);
          return;
        }
        var cut := round.end == Broken(i, true);
        EvaluateRule(rules[i], round.checks[i], Lookup(byName, rules[i].name), cut);
        NextRule(rules, byName, states0, sent0, states, sent, rounds, round, i,
                 React(rules[i], Lookup(byName, rules[i].name), round.checks[i]));
        if cut {
          RestSkipped(rules, byName, states, sent, rounds, round, i + 1);
          return;
        }
      }
      RestSkipped(rules, byName, states, sent, rounds, round, |rules|);
    }
  }

  /** Whatever the rounds are, and although a new monitor takes over for each of them. */
  method Monitor(rules: seq<Rule>, rounds: seq<Round>)
    returns (states: map<string, Alert>, sent: seq<(string, Message)>)
    requires DistinctRules(rules) && Rounds(rounds, |rules|)
    ensures AfterRounds(rules, states, sent, rounds)
    ensures forall i :: 0 <= i < |rules| ==> Tells(rules[i], Column(rounds, i), states, sent)
  {
    states, sent := map[], [];
    for i := 0 to |rounds|
      invariant AfterRounds(rules, states, sent, rounds[..i])
    {
      var m := new Manager(rules, states, sent);
      m.Evaluate(rounds[i], rounds[..i]);
      assert rounds[..i + 1] == rounds[..i] + [rounds[i]];
      states, sent := m.states, m.sent;
    }
    assert rounds[..|rounds|] == rounds;
    forall i | 0 <= i < |rules| ensures Tells(rules[i], Column(rounds, i), states, sent) {
      StoredState(rules[i], Checks(Column(rounds, i)));
      DeliveredSays(rules[i], Column(rounds, i));
    }
  }

  /** What is stored and sent for a rule is what its checks say. */
  ghost predicate Tells(r: Rule, turns: seq<Turn>, states: map<string, Alert>, sent: seq<(string, Message)>) {
    StateSays(r, Checks(turns), Lookup(states, r.name)) && SentOver(r, turns, MessagesOf(sent, r.name))
  }

  lemma ColumnNext(rounds: seq<Round>, round: Round, i: nat)
    requires i < |round.checks| && forall k :: 0 <= k < |rounds| ==> i < |rounds[k].checks|
    ensures Column(rounds + [round], i) == Column(rounds, i) + [TurnIn(round, i)]
  {
    assert (rounds + [round])[..|rounds|] == rounds;
  }

  /** One more turn of a rule. */
  lemma FollowsNext(states: map<string, Alert>, sent: seq<(string, Message)>, states': map<string, Alert>,
                    sent': seq<(string, Message)>,
                    r: Rule, turns: seq<Turn>, t: Turn)
    requires Follows(states, sent, r, turns)
    requires var o := React(r, Lookup(states, r.name), t.check);
             && states' == Stored(states, r.name, o.state)
             && sent' == if o.message.Some? && !t.cut then sent + [(r.name, o.message.value)] else sent
    ensures Follows(states', sent', r, turns + [t])
  {
    var o := React(r, Lookup(states, r.name), t.check);
    TurnAdded(r, turns, t);
    FateAdded(Fates(r, turns), o.message, t.cut);
    if o.message.Some? && !t.cut {
      assert sent'[..|sent|] == sent;
    }
  }

  /** A turn that never came changes nothing. */
  lemma FollowsSkipped(states: map<string, Alert>, sent: seq<(string, Message)>, r: Rule, turns: seq<Turn>)
    requires Follows(states, sent, r, turns)
    ensures Follows(states, sent, r, turns + [Turn(Failed, false)])
  {
    FollowsNext(states, sent, states, sent, r, turns, Turn(Failed, false));
  }

  /** One rule's turn leaves the others where they stand. */
  lemma OtherStands(states: map<string, Alert>, sent: seq<(string, Message)>, states': map<string, Alert>,
                    sent': seq<(string, Message)>,
                    name: string, o: Outcome, r: Rule, byName: map<string, Alert>, turns: seq<Turn>, t: Turn,
                    done: bool)
    requires name != r.name && states' == Stored(states, name, o.state)
    requires sent' == sent || (o.message.Some? && sent' == sent + [(name, o.message.value)])
    requires Stands(r, byName, states, sent, turns, t, done)
    ensures Stands(r, byName, states', sent', turns, t, done)
  {
    if sent' != sent {
      assert sent'[..|sent|] == sent;
    }
    assert Lookup(states', r.name) == Lookup(states, r.name) && MessagesOf(sent', r.name) == MessagesOf(sent, r.name);
  }

  lemma NextRule(rules: seq<Rule>, byName: map<string, Alert>, states: map<string, Alert>, sent: seq<(string, Message)>,
                 states': map<string, Alert>, sent': seq<(string, Message)>, rounds: seq<Round>, round: Round, i: nat,
                 o: Outcome)
    requires DistinctRules(rules) && i < |rules| && Within(rules, byName, states, sent, rounds, round, i)
    requires o == React(rules[i], Lookup(byName, rules[i].name), TurnIn(round, i).check)
    requires states' == Stored(states, rules[i].name, o.state)
    requires sent' == if o.message.Some? && !TurnIn(round, i).cut then sent + [(rules[i].name, o.message.value)]
                      else sent
    ensures Within(rules, byName, states', sent', rounds, round, i + 1)
  {
    forall k | 0 <= k < |rules|
      ensures Stands(rules[k], byName, states', sent', Column(rounds, k), TurnIn(round, k), k < i + 1)
    {
      assert Stands(rules[k], byName, states, sent, Column(rounds, k), TurnIn(round, k), k < i);
      if k == i {
        FollowsNext(states, sent, states', sent', rules[i], Column(rounds, i), TurnIn(round, i));
      } else {
        OtherStands(states, sent, states', sent', rules[i].name, o, rules[k], byName, Column(rounds, k),
                    TurnIn(round, k), k < i);
      }
    }
  }

  /** The rules a round does not come to are left as they were. */
  lemma RestSkipped(rules: seq<Rule>, byName: map<string, Alert>, states: map<string, Alert>,
                    sent: seq<(string, Message)>,
                    rounds: seq<Round>, round: Round, i: nat)
    requires i <= |rules| && Within(rules, byName, states, sent, rounds, round, i)
    requires i == |rules| || (round.end.Broken? && i == round.end.at + if round.end.stored then 1 else 0)
    ensures AfterRounds(rules, states, sent, rounds + [round])
  {
    forall k | 0 <= k < |rules|
      ensures Follows(states, sent, rules[k], Column(rounds + [round], k))
    {
      ColumnNext(rounds, round, k);
      assert Stands(rules[k], byName, states, sent, Column(rounds, k), TurnIn(round, k), k < i);
      if k >= i {
        FollowsSkipped(states, sent, rules[k], Column(rounds, k));
      }
    }
  }

  /** What was sent for a rule, over whatever rounds, alternates exactly when its lost announcements come in pairs. */
  lemma SentAlternates(rules: seq<Rule>, states: map<string, Alert>, sent: seq<(string, Message)>, rounds: seq<Round>,
                       i: nat)
    requires AfterRounds(rules, states, sent, rounds) && i < |rules|
    ensures Alternates(MessagesOf(sent, rules[i].name)) <==> LostInPairs(Fates(rules[i], Column(rounds, i)))
    ensures (forall k :: 0 <= k < |rounds| ==> rounds[k].end != Broken(i, true)) ==>
              Alternates(MessagesOf(sent, rules[i].name))
  {
    SentAlternatesExactly(rules[i], Column(rounds, i));
    if forall k :: 0 <= k < |rounds| ==> rounds[k].end != Broken(i, true) {
      NothingCut(rules[i], rounds, i);
    }
  }

  lemma {:induction false} NothingCut(r: Rule, rounds: seq<Round>, i: nat)
    requires forall k :: 0 <= k < |rounds| ==> i < |rounds[k].checks| && rounds[k].end != Broken(i, true)
    ensures Lost(Fates(r, Column(rounds, i))) == 0
  {
    if rounds != [] {
      var n := |rounds| - 1;
      NothingCut(r, rounds[..n], i);
      var turns, before := Column(rounds, i), Column(rounds[..n], i);
      assert turns[..n] == before && !turns[n].cut;
      FateAdded(Fates(r, before), React(r, StateAfter(r, Checks(before)), turns[n].check).message, false);
    }
  }
}
