/**
 The blob cache under every interleaving (internal/blob/cache.go): each locked
 section, file operation and backend call is one step of one thread. Renames happen
 outside the lock, eviction unlinks files, downloads are shared.
 */
module CacheSteps {
  import opened Common
  import opened BlobStore
  import opened CacheList
  import opened CacheView
  import opened CacheRecency

  /** The hash, the bound, and the contents that anyone stores anywhere during the run. */
  datatype Config = Config(hash: Hash, max: int, contents: set<Bytes>)

  /** Why a thread fetches: for itself, or for the n-th attempt to open the file. */
  datatype Goal = JustFetch | OpenAttempt(n: nat)

  /** Who inserts: the download registered as `call`, or a put. */
  datatype Source = FromDownload(goal: Goal, call: nat) | FromPut

  /** Where a thread is. */
  datatype Pc =
    | Idle
    | Looking(digest: string, goal: Goal)
    | Waiting(digest: string, goal: Goal, call: nat)
    | Downloading(digest: string, goal: Goal, call: nat)
    | Placing(digest: string, content: Bytes, source: Source)
    | Entering(digest: string, size: nat, source: Source)
    | Unregistering(digest: string, goal: Goal, call: nat, ok: bool)
    | Closing(digest: string, goal: Goal, call: nat, ok: bool)
    | Opening(digest: string, n: nat)
    | Forgetting(digest: string, n: nat)
    | Holding(digest: string, content: Bytes)
    | Putting(content: Bytes)
    | Checking(content: Bytes)
    | DeleteForgetting(digest: string)
    | DeleteUnlinking(digest: string)
    | DeleteBackend(digest: string)

  /** The shared state; `closed` tells how each finished download ended. */
  datatype State = State(view: View, backend: Store, calls: map<string, nat>, closed: map<nat, bool>, next: nat,
                         procs: map<nat, Pc>)

  datatype Event =
    | Begin(op: Op)
    | BeginFetch(digest: string)
    | Go
    | Fail
    | BackendChanges(backend: Store)

  function At(procs: map<nat, Pc>, t: nat): Pc { if t in procs then procs[t] else Idle }

  // ------------------------------------------------------------------- steps

  function Begun(op: Op): Option<Pc> {
    match op
    case Put(b) => Some(Putting(b))
    case Open(d) => if ValidDigest(d) then Some(Looking(d, OpenAttempt(0))) else None
    case Delete(d) => if ValidDigest(d) then Some(DeleteForgetting(d)) else None
    case Stat(_) => None
  }

  /** The shared state after a step, and where the thread is then. */
  datatype Outcome = Outcome(state: State, pc: Pc)

  /** One look at the index: a hit, a download to wait for, or one to start. */
  function Look(s: State, d: string, goal: Goal): Outcome {
    if d in s.view.items then
      Outcome(s.(view := Moved(s.view, d)), match goal case JustFetch => Idle case OpenAttempt(n) => Opening(d, n))
    else if d in s.calls then Outcome(s, Waiting(d, goal, s.calls[d]))
    else Outcome(s.(calls := s.calls[d := s.next], next := s.next + 1), Downloading(d, goal, s.next))
  }

  /** Where an insertion leads. */
  function Inserting(d: string, source: Source, ok: bool): Pc {
    match source
    case FromDownload(goal, call) => Unregistering(d, goal, call, ok)
    case FromPut => Idle
  }

  /** The next step of a thread, when it is not blocked. */
  function Advance(c: Config, s: State, pc: Pc): Option<Outcome> {
    match pc
    case Idle => None
    case Looking(d, goal) => Some(Look(s, d, goal))
    case Waiting(d, goal, call) =>
      if call in s.closed then Some(Outcome(s, if s.closed[call] then Looking(d, goal) else Idle)) else None
    case Downloading(d, goal, call) =>
      Some(Outcome(s, if d in s.backend && c.hash(s.backend[d]) == d
                      then Placing(d, s.backend[d], FromDownload(goal, call))
                      else Unregistering(d, goal, call, false)))
    case Placing(d, b, source) => Some(Outcome(s.(view := Placed(s.view, d, b)), Entering(d, |b|, source)))
    case Entering(d, n, source) => Some(Outcome(s.(view := Entered(s.view, d, n, c.max)), Inserting(d, source, true)))
    case Unregistering(d, goal, call, ok) => Some(Outcome(s.(calls := s.calls - {d}), Closing(d, goal, call, ok)))
    case Closing(d, goal, call, ok) =>
      Some(Outcome(s.(closed := s.closed[call := ok]), if ok then Looking(d, goal) else Idle))
    case Opening(d, n) => Some(Outcome(s, if d in s.view.files then Holding(d, s.view.files[d]) else Forgetting(d, n)))
    case Forgetting(d, n) =>
      Some(Outcome(s.(view := Forgotten(s.view, d)), if n + 1 < 3 then Looking(d, OpenAttempt(n + 1)) else Idle))
    case Holding(_, _) => Some(Outcome(s, Idle))
    case Putting(b) => Some(Outcome(s.(backend := AfterPut(c.hash, s.backend, b)), Checking(b)))
    case Checking(b) => Some(Outcome(s, if c.hash(b) in s.view.items then Idle else Placing(c.hash(b), b, FromPut)))
    case DeleteForgetting(d) => Some(Outcome(s.(view := Forgotten(s.view, d)), DeleteUnlinking(d)))
    case DeleteUnlinking(d) => Some(Outcome(s.(view := Removed(s.view, d)), DeleteBackend(d)))
    case DeleteBackend(d) => Some(Outcome(s.(backend := s.backend - {d}), Idle))
  }

  /** A cancelled wait or a failed read, write, rename, open or backend call. */
  function Failed(pc: Pc): Option<Pc> {
    match pc
    case Downloading(d, goal, call) => Some(Unregistering(d, goal, call, false))
    case Placing(d, _, source) => Some(Inserting(d, source, false))
    case Waiting(_, _, _) => Some(Idle)
    case Opening(_, _) => Some(Idle)
    case Putting(_) => Some(Idle)
    case Checking(_) => Some(Idle)
    case DeleteBackend(_) => Some(Idle)
    case _ => None
  }

  /** What an event makes of the shared state and of the thread it happens to. */
  function React(c: Config, s: State, pc: Pc, e: Event): Option<Outcome> {
    match e
    case Begin(op) =>
      if pc == Idle && Begun(op).Some? && (op.Put? ==> op.content in c.contents)
      then Some(Outcome(s, Begun(op).value)) else None
    case BeginFetch(d) => if pc == Idle && ValidDigest(d) then Some(Outcome(s, Looking(d, JustFetch))) else None
    case Go => Advance(c, s, pc)
    case Fail => if Failed(pc).Some? then Some(Outcome(s, Failed(pc).value)) else None
    case BackendChanges(b) => if b.Values <= c.contents then Some(Outcome(s.(backend := b), pc)) else None
  }

  function Step(c: Config, s: State, t: nat, e: Event): Option<State> {
    match React(c, s, At(s.procs, t), e)
    case None => None
    case Some(o) => Some(o.state.(procs := s.procs[t := o.pc]))
  }

  /** The state after a run of steps, each by some thread. */
  function Run(c: Config, s: State, steps: seq<(nat, Event)>): Option<State> {
    if steps == [] then Some(s)
    else
      var before := Run(c, s, steps[..|steps| - 1]);
      if before.None? then None else Step(c, before.value, steps[|steps| - 1].0, steps[|steps| - 1].1)
  }

  // --------------------------------------------------------------- invariant

  /** The download a thread has registered and not yet unregistered. */
  function Owned(pc: Pc): Option<(string, nat)> {
    match pc
    case Downloading(d, _, call) => Some((d, call))
    case Placing(d, _, FromDownload(_, call)) => Some((d, call))
    case Entering(d, _, FromDownload(_, call)) => Some((d, call))
    case Unregistering(d, _, call, _) => Some((d, call))
    case _ => None
  }

  /** The download a thread has still to announce as finished. */
  function Held(pc: Pc): Option<nat> {
    match pc
    case Closing(_, _, call, _) => Some(call)
    case _ => if Owned(pc).Some? then Some(Owned(pc).value.1) else None
  }

  ghost predicate HeldBySome(procs: map<nat, Pc>, call: nat) {
    exists t :: Held(At(procs, t)) == Some(call)
  }

  /** Some content of this length has this digest. */
  ghost predicate TrueSize(c: Config, d: string, n: nat) {
    exists b :: b in c.contents && c.hash(b) == d && |b| == n
  }

  /** What a thread carries is what its digest says. */
  ghost predicate Carries(c: Config, pc: Pc) {
    && (pc.Placing? ==> pc.content in c.contents && c.hash(pc.content) == pc.digest)
    && (pc.Entering? ==> TrueSize(c, pc.digest, pc.size))
    && (pc.Holding? ==> c.hash(pc.content) == pc.digest)
    && (pc.Putting? || pc.Checking? ==> pc.content in c.contents)
  }

  /** The view is sound and accounts the true size of every entry. */
  ghost predicate Exact(c: Config, view: View) {
    && Sound(view, c.hash, c.max) && Among(view.files, c.contents)
    && forall d :: d in view.items ==> TrueSize(c, d, view.items[d].size)
  }

  ghost predicate DataInv(c: Config, view: View, backend: Store, procs: map<nat, Pc>) {
    Exact(c, view) && Among(backend, c.contents) && forall t :: Carries(c, At(procs, t))
  }

  /**
   Every download still to be announced is held by one thread, and every wait is for one that is
   held or announced.
   */
  ghost predicate HeldInv(closed: map<nat, bool>, next: nat, procs: map<nat, Pc>) {
    && (forall t :: Held(At(procs, t)).Some? ==> Held(At(procs, t)).value < next && Held(At(procs, t)).value !in closed)
    && (forall t, u :: Held(At(procs, t)).Some? && Held(At(procs, t)) == Held(At(procs, u)) ==> t == u)
    && (forall t :: At(procs, t).Waiting? ==> At(procs, t).call in closed || HeldBySome(procs, At(procs, t).call))
    && (forall call :: call in closed ==> call < next)
  }

  /** The registered downloads are those the threads own. */
  ghost predicate OwnedInv(calls: map<string, nat>, procs: map<nat, Pc>) {
    && (forall t :: Owned(At(procs, t)).Some? ==> var o := Owned(At(procs, t)).value; o.0 in calls && calls[o.0] == o.1)
    && (forall d :: d in calls ==> OwnedBySome(procs, d, calls[d]))
  }

  ghost predicate CallsInv(calls: map<string, nat>, closed: map<nat, bool>, next: nat, procs: map<nat, Pc>) {
    HeldInv(closed, next, procs) && OwnedInv(calls, procs)
  }

  ghost predicate OwnedBySome(procs: map<nat, Pc>, d: string, call: nat) {
    exists t :: Owned(At(procs, t)) == Some((d, call))
  }

  ghost predicate Inv(c: Config, s: State) {
    DataInv(c, s.view, s.backend, s.procs) && CallsInv(s.calls, s.closed, s.next, s.procs)
  }

  // ---------------------------------------------------------------- the data

  lemma EnteredExact(c: Config, v: View, d: string, n: nat)
    requires Exact(c, v) && TrueSize(c, d, n)
    ensures Exact(c, Entered(v, d, n, c.max))
  {
    EnteredSound(v, c.hash, c.max, d, n);
  }

  lemma ForgottenExact(c: Config, v: View, d: string)
    requires Exact(c, v)
    ensures Exact(c, Forgotten(v, d))
  {
    ForgottenSound(v, c.hash, c.max, d);
  }

  lemma AdvanceExact(c: Config, s: State, pc: Pc)
    requires Exact(c, s.view) && Carries(c, pc) && Advance(c, s, pc).Some?
    ensures Exact(c, Advance(c, s, pc).value.state.view)
  {
    match pc {
      case Looking(d, goal) => if d in s.view.items { MovedSound(s.view, c.hash, c.max, d); }
      case Entering(d, n, source) => EnteredExact(c, s.view, d, n);
      case Forgetting(d, n) => ForgottenExact(c, s.view, d);
      case DeleteForgetting(d) => ForgottenExact(c, s.view, d);
      case _ =>
    }
  }

  lemma ReactCarries(c: Config, s: State, pc: Pc, e: Event)
    requires Honest(c.hash, s.view.files) && Among(s.backend, c.contents) && Carries(c, pc) && React(c, s, pc, e).Some?
    ensures Carries(c, React(c, s, pc, e).value.pc) && Among(React(c, s, pc, e).value.state.backend, c.contents)
  {
  }

  lemma StepKeepsData(c: Config, s: State, t: nat, e: Event)
    requires DataInv(c, s.view, s.backend, s.procs) && Step(c, s, t, e).Some?
    ensures var s' := Step(c, s, t, e).value; DataInv(c, s'.view, s'.backend, s'.procs)
  {
    var pc, s' := At(s.procs, t), Step(c, s, t, e).value;
    assert Carries(c, pc);
    ReactCarries(c, s, pc, e);
    if e.Go? {
      AdvanceExact(c, s, pc);
    }
    assert forall u :: u != t ==> At(s'.procs, u) == At(s.procs, u);
  }

  // --------------------------------------------------------------- the calls

  /** A step that neither registers, unregisters nor announces a download. */
  lemma SameCalls(s: State, t: nat, pc: Pc)
    requires CallsInv(s.calls, s.closed, s.next, s.procs)
    requires Owned(pc) == Owned(At(s.procs, t)) && Held(pc) == Held(At(s.procs, t))
    requires pc.Waiting? ==> pc.call in s.closed || HeldBySome(s.procs, pc.call)
    ensures CallsInv(s.calls, s.closed, s.next, s.procs[t := pc])
  {
    var procs' := s.procs[t := pc];
    assert forall u :: u != t ==> At(procs', u) == At(s.procs, u);
    SameHeld(s.closed, s.next, s.procs, procs');
    SameOwned(s.calls, s.procs, procs');
  }

  lemma SameHeld(closed: map<nat, bool>, next: nat, procs: map<nat, Pc>, procs': map<nat, Pc>)
    requires HeldInv(closed, next, procs) && (forall u :: Held(At(procs', u)) == Held(At(procs, u)))
    requires forall u :: At(procs', u).Waiting? ==>
               At(procs', u).call in closed || HeldBySome(procs, At(procs', u).call)
    ensures HeldInv(closed, next, procs')
  {
    forall call: nat | HeldBySome(procs, call)
      ensures HeldBySome(procs', call)
    {
      var u :| Held(At(procs, u)) == Some(call);
      assert Held(At(procs', u)) == Some(call);
    }
  }

  lemma SameOwned(calls: map<string, nat>, procs: map<nat, Pc>, procs': map<nat, Pc>)
    requires OwnedInv(calls, procs) && forall u :: Owned(At(procs', u)) == Owned(At(procs, u))
    ensures OwnedInv(calls, procs')
  {
    forall d | d in calls
      ensures OwnedBySome(procs', d, calls[d])
    {
      assert OwnedBySome(procs, d, calls[d]);
      var u :| Owned(At(procs, u)) == Some((d, calls[d]));
      assert Owned(At(procs', u)) == Some((d, calls[d]));
    }
  }

  /** A thread registers a download of a digest that has none. */
  lemma Registered(s: State, t: nat, d: string, goal: Goal)
    requires CallsInv(s.calls, s.closed, s.next, s.procs) && d !in s.calls && Held(At(s.procs, t)).None?
    ensures CallsInv(s.calls[d := s.next], s.closed, s.next + 1, s.procs[t := Downloading(d, goal, s.next)])
  {
    var procs', calls' := s.procs[t := Downloading(d, goal, s.next)], s.calls[d := s.next];
    assert forall u :: u != t ==> At(procs', u) == At(s.procs, u);
    assert Owned(At(procs', t)) == Some((d, s.next)) && Held(At(procs', t)) == Some(s.next);
    HeldElsewhere(s.procs, t, procs');
    forall x | x in calls'
      ensures OwnedBySome(procs', x, calls'[x])
    {
      if x != d {
        assert OwnedBySome(s.procs, x, s.calls[x]);
        var u :| Owned(At(s.procs, u)) == Some((x, s.calls[x]));
        assert Owned(At(procs', u)) == Some((x, s.calls[x]));
      }
    }
  }

  /** What other threads hold stays held. */
  lemma HeldElsewhere(procs: map<nat, Pc>, t: nat, procs': map<nat, Pc>)
    requires forall u :: u != t ==> At(procs', u) == At(procs, u)
    ensures forall call: nat :: HeldBySome(procs, call) && Held(At(procs, t)) != Some(call) ==> HeldBySome(procs', call)
  {
    forall call: nat | HeldBySome(procs, call) && Held(At(procs, t)) != Some(call)
      ensures HeldBySome(procs', call)
    {
      var u :| Held(At(procs, u)) == Some(call);
      assert Held(At(procs', u)) == Some(call);
    }
  }

  /** A thread unregisters its download. */
  lemma Unregistered(s: State, t: nat, d: string, goal: Goal, call: nat, ok: bool)
    requires CallsInv(s.calls, s.closed, s.next, s.procs) && At(s.procs, t) == Unregistering(d, goal, call, ok)
    ensures CallsInv(s.calls - {d}, s.closed, s.next, s.procs[t := Closing(d, goal, call, ok)])
  {
    var procs', calls' := s.procs[t := Closing(d, goal, call, ok)], s.calls - {d};
    assert Owned(At(s.procs, t)) == Some((d, call)) && Held(At(s.procs, t)) == Some(call);
    assert forall u :: u != t ==> At(procs', u) == At(s.procs, u);
    assert Owned(At(procs', t)) == None && Held(At(procs', t)) == Some(call);
    SameHeld(s.closed, s.next, s.procs, procs');
    OwnersElsewhere(s.procs, t, procs', s.calls);
    forall u | Owned(At(procs', u)).Some?
      ensures var o := Owned(At(procs', u)).value; o.0 in calls' && calls'[o.0] == o.1
    {
      OwnersDiffer(s, t, u);
    }
  }

  /** Downloads of other digests stay owned. */
  lemma OwnersElsewhere(procs: map<nat, Pc>, t: nat, procs': map<nat, Pc>, calls: map<string, nat>)
    requires (forall u :: u != t ==> At(procs', u) == At(procs, u))
             && forall x :: x in calls ==> OwnedBySome(procs, x, calls[x])
    ensures forall x :: x in calls && Owned(At(procs, t)) != Some((x, calls[x])) ==> OwnedBySome(procs', x, calls[x])
  {
    forall x | x in calls && Owned(At(procs, t)) != Some((x, calls[x]))
      ensures OwnedBySome(procs', x, calls[x])
    {
      assert OwnedBySome(procs, x, calls[x]);
      var u :| Owned(At(procs, u)) == Some((x, calls[x]));
      assert Owned(At(procs', u)) == Some((x, calls[x]));
    }
  }

  /** Threads that own downloads of the same digest are one thread. */
  lemma OwnersDiffer(s: State, t: nat, u: nat)
    requires CallsInv(s.calls, s.closed, s.next, s.procs)
    requires Owned(At(s.procs, t)).Some? && Owned(At(s.procs, u)).Some? && t != u
    ensures Owned(At(s.procs, t)).value.0 != Owned(At(s.procs, u)).value.0
  {
    assert Held(At(s.procs, t)) == Some(Owned(At(s.procs, t)).value.1);
    assert Held(At(s.procs, u)) == Some(Owned(At(s.procs, u)).value.1);
  }

  /** A thread announces the end of its download. */
  lemma Announced(s: State, t: nat, d: string, goal: Goal, call: nat, ok: bool, pc: Pc)
    requires CallsInv(s.calls, s.closed, s.next, s.procs) && At(s.procs, t) == Closing(d, goal, call, ok)
    requires pc == Looking(d, goal) || pc == Idle
    ensures CallsInv(s.calls, s.closed[call := ok], s.next, s.procs[t := pc])
  {
    var procs' := s.procs[t := pc];
    assert Held(At(s.procs, t)) == Some(call) && Owned(At(s.procs, t)) == None;
    assert forall u :: u != t ==> At(procs', u) == At(s.procs, u);
    assert Owned(At(procs', t)) == None && Held(At(procs', t)) == None;
    HeldElsewhere(s.procs, t, procs');
    forall x | x in s.calls
      ensures OwnedBySome(procs', x, s.calls[x])
    {
      assert OwnedBySome(s.procs, x, s.calls[x]);
      var u :| Owned(At(s.procs, u)) == Some((x, s.calls[x]));
      assert Owned(At(procs', u)) == Some((x, s.calls[x]));
    }
  }

  lemma LookKeepsCalls(s: State, t: nat, d: string, goal: Goal)
    requires CallsInv(s.calls, s.closed, s.next, s.procs) && At(s.procs, t) == Looking(d, goal)
    ensures var o := Look(s, d, goal); CallsInv(o.state.calls, o.state.closed, o.state.next, s.procs[t := o.pc])
  {
    if d in s.view.items {
      SameCalls(s, t, match goal case JustFetch => Idle case OpenAttempt(n) => Opening(d, n));
    } else if d in s.calls {
      assert OwnedBySome(s.procs, d, s.calls[d]);
      var u :| Owned(At(s.procs, u)) == Some((d, s.calls[d]));
      assert Held(At(s.procs, u)) == Some(s.calls[d]);
      SameCalls(s, t, Waiting(d, goal, s.calls[d]));
    } else {
      Registered(s, t, d, goal);
    }
  }

  lemma StepKeepsCalls(c: Config, s: State, t: nat, e: Event)
    requires CallsInv(s.calls, s.closed, s.next, s.procs) && Step(c, s, t, e).Some?
    ensures var s' := Step(c, s, t, e).value; CallsInv(s'.calls, s'.closed, s'.next, s'.procs)
  {
    var pc := At(s.procs, t);
    if e.Go? && pc.Looking? {
      LookKeepsCalls(s, t, pc.digest, pc.goal);
    } else if e.Go? && pc.Unregistering? {
      Unregistered(s, t, pc.digest, pc.goal, pc.call, pc.ok);
    } else if e.Go? && pc.Closing? {
      Announced(s, t, pc.digest, pc.goal, pc.call, pc.ok, if pc.ok then Looking(pc.digest, pc.goal) else Idle);
    } else {
      QuietStep(c, s, pc, e);
      SameCalls(s, t, React(c, s, pc, e).value.pc);
    }
  }

  /** Every other step leaves the downloads as they are. */
  lemma QuietStep(c: Config, s: State, pc: Pc, e: Event)
    requires React(c, s, pc, e).Some? && (e.Go? ==> !pc.Looking? && !pc.Unregistering? && !pc.Closing?)
    ensures var o := React(c, s, pc, e).value;
            && o.state.calls == s.calls && o.state.closed == s.closed && o.state.next == s.next
            && Owned(o.pc) == Owned(pc) && Held(o.pc) == Held(pc) && (o.pc.Waiting? ==> o.pc == pc)
  {
  }

  lemma StepKeepsInv(c: Config, s: State, t: nat, e: Event)
    requires Inv(c, s) && Step(c, s, t, e).Some?
    ensures Inv(c, Step(c, s, t, e).value)
  {
    StepKeepsData(c, s, t, e);
    StepKeepsCalls(c, s, t, e);
  }

  // ------------------------------------------------------------------- runs

  /** A cache just opened: no thread has started anything. */
  ghost predicate Initial(c: Config, s: State) {
    && Sound(s.view, c.hash, c.max) && Full(s.view) && Among(s.view.files, c.contents) && Among(s.backend, c.contents)
    && s.calls == map[] && s.closed == map[] && s.procs == map[]
  }

  lemma InitialInv(c: Config, s: State)
    requires Initial(c, s)
    ensures Inv(c, s)
  {
    forall d | d in s.view.items
      ensures TrueSize(c, d, s.view.items[d].size)
    {
      assert c.hash(s.view.files[d]) == d;
    }
  }

  lemma {:induction false} RunKeepsInv(c: Config, s: State, steps: seq<(nat, Event)>)
    requires Initial(c, s) && Run(c, s, steps).Some?
    ensures Inv(c, Run(c, s, steps).value)
  {
    if steps == [] {
      InitialInv(c, s);
    } else {
      RunKeepsInv(c, s, steps[..|steps| - 1]);
      var last := steps[|steps| - 1];
      StepKeepsInv(c, Run(c, s, steps[..|steps| - 1]).value, last.0, last.1);
    }
  }

  /** Two threads never download the same digest. */
  ghost predicate OneDownload(procs: map<nat, Pc>) {
    forall t, u :: t != u && Owned(At(procs, t)).Some? && Owned(At(procs, u)).Some? ==>
      Owned(At(procs, t)).value.0 != Owned(At(procs, u)).value.0
  }

  /** What every reachable state satisfies. */
  lemma Safe(c: Config, s0: State, steps: seq<(nat, Event)>)
    requires Initial(c, s0) && Run(c, s0, steps).Some?
    ensures var s := Run(c, s0, steps).value;
            && Indexes(s.view.items, s.view.lru) && s.view.size == Total(s.view.lru)
            && (s.view.size <= c.max || |s.view.lru| <= 1)
            && Honest(c.hash, s.view.files)
            && OneDownload(s.procs)
            && (forall t :: At(s.procs, t).Holding? ==> c.hash(At(s.procs, t).content) == At(s.procs, t).digest)
            && (Apart(c.hash, c.contents) ==>
                  forall d :: d in s.view.items && d in s.view.files ==> s.view.items[d].size == |s.view.files[d]|)
  {
    RunKeepsInv(c, s0, steps);
    var s := Run(c, s0, steps).value;
    forall t, u | t != u && Owned(At(s.procs, t)).Some? && Owned(At(s.procs, u)).Some?
      ensures Owned(At(s.procs, t)).value.0 != Owned(At(s.procs, u)).value.0
    {
      OwnersDiffer(s, t, u);
    }
    assert forall t :: Carries(c, At(s.procs, t));
  }

  /** The files left when the entries of a list become fewer, or one is added: those of the evicted are gone. */
  ghost predicate FilesFollow(files: map<string, Bytes>, before: seq<Entry>, after: seq<Entry>,
                              files': map<string, Bytes>) {
    && (forall d :: d in files' <==> d in files && (Has(after, d) || !Has(before, d)))
    && forall d :: d in files' ==> files'[d] == files[d]
  }

  /** The entry the list has for a digest, or else a new one, is its first. */
  ghost predicate FrontedAs(before: seq<Entry>, max: int, d: string, n: nat, after: seq<Entry>) {
    exists e: Entry ::
      e.digest == d && (e in before || (e.size == n && !Has(before, d))) && Fronted(before, max, e, after)
  }

  /** What a thread's own step does to the list, the files and the backend. */
  ghost predicate StepDoes(c: Config, v: View, backend: Store, pc: Pc, v': View, backend': Store) {
    match pc
    case Looking(d, _) =>
      && v'.files == v.files && backend' == backend
      && if Has(v.lru, d) then exists e :: e in v.lru && e.digest == d && Fronted(v.lru, c.max, e, v'.lru)
         else v'.lru == v.lru
    case Placing(d, b, _) => v'.lru == v.lru && backend' == backend && v'.files == v.files[d := b]
    case Entering(d, n, _) =>
      && backend' == backend
      && FrontedAs(v.lru, c.max, d, n, v'.lru) && FilesFollow(v.files, v.lru, v'.lru, v'.files)
    case Forgetting(d, _) => TakenOut(v.lru, d, v'.lru) && v'.files == v.files && backend' == backend
    case Putting(b) =>
      && v' == v && c.hash(b) in backend' && (c.hash(b) !in backend ==> backend'[c.hash(b)] == b)
      && backend' - {c.hash(b)} == backend - {c.hash(b)} && (c.hash(b) in backend ==> backend' == backend)
    case DeleteForgetting(d) => TakenOut(v.lru, d, v'.lru) && v'.files == v.files && backend' == backend
    case DeleteUnlinking(d) => v'.lru == v.lru && v'.files == v.files - {d} && backend' == backend
    case DeleteBackend(d) => v' == v && backend' == backend - {d}
    case _ => v' == v && backend' == backend
  }

  /** Every step of a thread does to the cache what the source does, and a failing one does nothing to it. */
  lemma StepsDo(c: Config, s0: State, steps: seq<(nat, Event)>, t: nat, e: Event)
    requires Initial(c, s0) && Run(c, s0, steps).Some? && Step(c, Run(c, s0, steps).value, t, e).Some?
    ensures var s, s' := Run(c, s0, steps).value, Step(c, Run(c, s0, steps).value, t, e).value;
            if e.Go? then StepDoes(c, s.view, s.backend, At(s.procs, t), s'.view, s'.backend)
            else s'.view == s.view && (!e.BackendChanges? ==> s'.backend == s.backend)
  {
    RunKeepsInv(c, s0, steps);
    var s := Run(c, s0, steps).value;
    var pc := At(s.procs, t);
    if e.Go? {
      AdvanceDoes(c, s, pc);
    }
  }

  lemma AdvanceDoes(c: Config, s: State, pc: Pc)
    requires Sound(s.view, c.hash, c.max) && Advance(c, s, pc).Some?
    ensures var s' := Advance(c, s, pc).value.state; StepDoes(c, s.view, s.backend, pc, s'.view, s'.backend)
  {
    var v := s.view;
    match pc {
      case Looking(d, _) =>
        ListedExactly(v.items, v.lru, d);
        if d in v.items {
          MovedFronts(v, c.max, d);
        }
      case Entering(d, n, _) => EnterDoes(c, v, d, n);
      case Forgetting(d, _) => ForgetDoes(v, d);
      case DeleteForgetting(d) => ForgetDoes(v, d);
      case _ =>
    }
  }

  lemma ForgetDoes(v: View, d: string)
    requires Indexes(v.items, v.lru)
    ensures TakenOut(v.lru, d, Forgotten(v, d).lru) && Forgotten(v, d).files == v.files
  {
    ListedExactly(v.items, v.lru, d);
    WithoutTakesOut(v.lru, d);
  }

  lemma HasDigest(lru: seq<Entry>, d: string)
    ensures Has(lru, d) <==> d in Digests(lru)
  {
    if d in Digests(lru) {
      var e :| e in lru && e.digest == d;
      var i :| 0 <= i < |lru| && lru[i] == e;
    }
    assert forall i :: 0 <= i < |lru| ==> lru[i] in lru;
  }

  lemma EnterDoes(c: Config, v: View, d: string, n: nat)
    requires Sound(v, c.hash, c.max)
    ensures var w := Entered(v, d, n, c.max);
            && FrontedAs(v.lru, c.max, d, n, w.lru) && FilesFollow(v.files, v.lru, w.lru, w.files)
  {
    ListedExactly(v.items, v.lru, d);
    var w := Entered(v, d, n, c.max);
    forall x ensures Has(v.lru, x) <==> x in Digests(v.lru)
             ensures Has(w.lru, x) <==> x in Digests(w.lru)
    {
      HasDigest(v.lru, x);
      HasDigest(w.lru, x);
    }
    if d in v.items {
      MovedFronts(v, c.max, d);
      WithoutEntries(v.lru, d);
      assert forall x :: x in Digests(v.lru) ==> x in Digests(w.lru);
    } else {
      PushedFronts(v, c.max, d, n);
      EvictedSubset([Entry(d, n)] + v.lru, c.max);
      EvictedKeepsFront([Entry(d, n)] + v.lru, c.max);
      assert Entry(d, n).digest == d;
    }
  }

  /** No wait is forever: as long as a thread is at work, some thread at work can take a step. */
  lemma NoDeadlock(c: Config, s0: State, steps: seq<(nat, Event)>, t: nat) returns (u: nat)
    requires Initial(c, s0) && Run(c, s0, steps).Some? && At(Run(c, s0, steps).value.procs, t) != Idle
    ensures Step(c, Run(c, s0, steps).value, u, Go).Some? && At(Run(c, s0, steps).value.procs, u) != Idle
    ensures At(Run(c, s0, steps).value.procs, t).Waiting? ==>
              u == t || Held(At(Run(c, s0, steps).value.procs, u)) == Some(At(Run(c, s0, steps).value.procs, t).call)
  {
    RunKeepsInv(c, s0, steps);
    var s := Run(c, s0, steps).value;
    u := t;
    if At(s.procs, t).Waiting? && At(s.procs, t).call !in s.closed {
      assert HeldBySome(s.procs, At(s.procs, t).call);
      u :| Held(At(s.procs, u)) == Some(At(s.procs, t).call);
    }
  }

  /**
   An indexed entry whose file is gone is reachable: a deletion that runs between the
   rename and the indexing of a put removes the file only.
   */
  lemma StaleEntryReachable(c: Config, b: Bytes) returns (steps: seq<(nat, Event)>)
    requires ValidDigest(c.hash(b)) && b in c.contents
    ensures var s0 := State(View([], map[], 0, map[]), map[], map[], map[], 0, map[]);
            && Initial(c, s0) && Run(c, s0, steps).Some?
            && c.hash(b) in Run(c, s0, steps).value.view.items && c.hash(b) !in Run(c, s0, steps).value.view.files
  {
    var d := c.hash(b);
    var s0 := State(View([], map[], 0, map[]), map[], map[], map[], 0, map[]);
    var s, put := PutPlaces(c, b);
    var s', steps' := DeleteUnlinks(c, b, s0, s, put);
    steps, s := Then(c, s0, steps', s', 0, Go, Outcome(s'.(view := Entered(s'.view, d, |b|, c.max)), Idle));
    EvictedKeepsFront([Entry(d, |b|)], c.max);
    assert Entry(d, |b|) in s.view.lru;
  }

  /** A put has written to the backend and found nothing cached. */
  lemma PutWrites(c: Config, b: Bytes) returns (s: State, steps: seq<(nat, Event)>)
    requires b in c.contents
    ensures var s0 := State(View([], map[], 0, map[]), map[], map[], map[], 0, map[]);
            Run(c, s0, steps) == Some(s)
    ensures At(s.procs, 0) == Checking(b) && s.procs.Keys == {0} && s.view == View([], map[], 0, map[])
  {
    var s0 := State(View([], map[], 0, map[]), map[], map[], map[], 0, map[]);
    steps, s := Then(c, s0, [], s0, 0, Begin(Put(b)), Outcome(s0, Putting(b)));
    steps, s := Then(c, s0, steps, s, 0, Go, Outcome(s.(backend := map[c.hash(b) := b]), Checking(b)));
  }

  lemma PutPlaces(c: Config, b: Bytes) returns (s: State, steps: seq<(nat, Event)>)
    requires b in c.contents
    ensures var s0 := State(View([], map[], 0, map[]), map[], map[], map[], 0, map[]);
            Run(c, s0, steps) == Some(s)
    ensures s.procs == map[0 := Entering(c.hash(b), |b|, FromPut)] && s.view == View([], map[], 0, map[c.hash(b) := b])
  {
    var s0 := State(View([], map[], 0, map[]), map[], map[], map[], 0, map[]);
    s, steps := PutWrites(c, b);
    steps, s := Then(c, s0, steps, s, 0, Go, Outcome(s, Placing(c.hash(b), b, FromPut)));
    steps, s := Then(c, s0, steps, s, 0, Go,
                     Outcome(s.(view := Placed(s.view, c.hash(b), b)), Entering(c.hash(b), |b|, FromPut)));
  }

  lemma DeleteForgets(c: Config, d: string, s0: State, s: State, steps: seq<(nat, Event)>)
    returns (s': State, steps': seq<(nat, Event)>)
    requires Run(c, s0, steps) == Some(s) && ValidDigest(d) && At(s.procs, 1) == Idle && s.view.items == map[]
    ensures Run(c, s0, steps') == Some(s') && At(s'.procs, 1) == DeleteUnlinking(d)
    ensures At(s'.procs, 0) == At(s.procs, 0) && s'.view == s.view
  {
    steps', s' := Then(c, s0, steps, s, 1, Begin(Delete(d)), Outcome(s, DeleteForgetting(d)));
    steps', s' := Then(c, s0, steps', s', 1, Go, Outcome(s', DeleteUnlinking(d)));
  }

  lemma DeleteUnlinks(c: Config, b: Bytes, s0: State, s: State, steps: seq<(nat, Event)>)
    returns (s': State, steps': seq<(nat, Event)>)
    requires Run(c, s0, steps) == Some(s) && ValidDigest(c.hash(b))
    requires s.procs == map[0 := Entering(c.hash(b), |b|, FromPut)] && s.view == View([], map[], 0, map[c.hash(b) := b])
    ensures Run(c, s0, steps') == Some(s')
    ensures At(s'.procs, 0) == Entering(c.hash(b), |b|, FromPut) && s'.view == View([], map[], 0, map[])
  {
    s', steps' := DeleteForgets(c, c.hash(b), s0, s, steps);
    steps', s' := Then(c, s0, steps', s', 1, Go,
                       Outcome(s'.(view := View([], map[], 0, map[])), DeleteBackend(c.hash(b))));
  }

  /** One more step of a run. */
  lemma Then(c: Config, s0: State, steps: seq<(nat, Event)>, s: State, t: nat, e: Event, o: Outcome)
    returns (steps': seq<(nat, Event)>, s': State)
    requires Run(c, s0, steps) == Some(s) && React(c, s, At(s.procs, t), e) == Some(o)
    ensures Run(c, s0, steps') == Some(s') && s' == o.state.(procs := s.procs[t := o.pc])
  {
    steps', s' := steps + [(t, e)], Step(c, s, t, e).value;
    assert steps'[..|steps|] == steps;
  }
}
