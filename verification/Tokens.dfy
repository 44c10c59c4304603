/**
 The token pool of internal/contest/tokens.go: a bucket refilled at fixed instants,
 whose state is recomputed from the list of plays. Times are integers.
 */
module Tokens {
  import opened Common

  /** The empty mode reads as Disabled, any unknown one as Finite. */
  datatype Mode = Disabled | Finite | Infinite

  datatype Rules = Rules(
    mode: Mode, maxNumber: Option<int>, minInterval: int,
    genInitial: int, genNumber: int, genInterval: int, genMax: Option<int>)

  /** What a contestant can do with the pool; `next` is None where the source has a zero time. */
  datatype State = State(available: int, unlimited: bool, next: Option<int>, wait: int, exhausted: bool)

  predicate CanPlay(s: State) {
    (s.unlimited || s.available > 0) && s.wait == 0 && !s.exhausted
  }

  predicate Generates(r: Rules) { r.genInterval > 0 && r.genNumber > 0 }

  function Capped(r: Rules, v: int): int {
    if r.genMax.Some? && v > r.genMax.value then r.genMax.value else v
  }

  function Max(x: int, y: int): int { if x < y then y else x }

  // -------------------------------------------------- the pool, by generations

  /** `n` generations. */
  function Refill(r: Rules, v: int, n: nat): int {
    if n == 0 then v else Capped(r, Refill(r, v, n - 1) + r.genNumber)
  }

  /** The unclamped level of the pool and the generations it has seen. */
  datatype Meter = Meter(level: int, gens: nat)

  /** The pool once `g` generations have happened. */
  function RefillTo(r: Rules, m: Meter, g: nat): Meter {
    if g <= m.gens then m else Meter(Refill(r, m.level, g - m.gens), g)
  }

  /** How many generations have happened by an instant. */
  type Clock = int -> nat

  ghost predicate Monotone(c: Clock) {
    forall s, t :: s <= t ==> c(s) <= c(t)
  }

  /** The pool right after the plays `ps`, in order. */
  function After(r: Rules, c: Clock, ps: seq<int>): Meter {
    if ps == [] then Meter(Capped(r, r.genInitial), 0)
    else
      var m := RefillTo(r, After(r, c, ps[..|ps| - 1]), c(ps[|ps| - 1]));
      Meter(m.level - 1, m.gens)
  }

  /** The level at t: the tokens generated and not played, possibly negative. */
  function Level(r: Rules, c: Clock, ps: seq<int>, t: int): int {
    RefillTo(r, After(r, c, ps), c(t)).level
  }

  lemma {:induction false} RefillSum(r: Rules, v: int, n: nat, k: nat)
    ensures Refill(r, Refill(r, v, n), k) == Refill(r, v, n + k)
  {
    if k > 0 {
      RefillSum(r, v, n, k - 1);
    }
  }

  /** Refilling neither widens nor inverts a gap. */
  lemma {:induction false} RefillGap(r: Rules, v: int, w: int, n: nat)
    requires v <= w
    ensures Refill(r, v, n) <= Refill(r, w, n) <= Refill(r, v, n) + (w - v)
  {
    if n > 0 {
      RefillGap(r, v, w, n - 1);
    }
  }

  lemma {:induction false} RefillCapped(r: Rules, v: int, n: nat)
    requires r.genMax.Some? && v <= r.genMax.value
    ensures Refill(r, v, n) <= r.genMax.value
  {
  }

  /** A full pool stays as it is, and any other pool only gains. */
  lemma {:induction false} RefillGains(r: Rules, v: int, n: nat)
    requires r.genNumber > 0 && (r.genMax.Some? ==> v <= r.genMax.value)
    ensures v <= Refill(r, v, n)
    ensures r.genMax == Some(v) ==> Refill(r, v, n) == v
  {
    if n > 0 {
      RefillGains(r, v, n - 1);
    }
  }

  lemma {:induction false} RefillAtMost(r: Rules, v: int, n: nat)
    ensures Refill(r, v, n) <= v + n * r.genNumber
  {
    if n > 0 {
      RefillAtMost(r, v, n - 1);
      assert n * r.genNumber == (n - 1) * r.genNumber + r.genNumber;
    }
  }

  lemma {:induction false} RefillUncapped(r: Rules, v: int, n: nat)
    requires r.genMax.None?
    ensures Refill(r, v, n) == v + n * r.genNumber
  {
    if n > 0 {
      RefillUncapped(r, v, n - 1);
      assert n * r.genNumber == (n - 1) * r.genNumber + r.genNumber;
    }
  }

  /** Refilling in two stages is refilling at once. */
  lemma RefillToTwice(r: Rules, m: Meter, g: nat, g': nat)
    requires g <= g'
    ensures RefillTo(r, RefillTo(r, m, g), g') == RefillTo(r, m, g')
  {
    if m.gens < g {
      RefillSum(r, m.level, g - m.gens, g' - g);
    }
  }

  /** Two pools one token apart stay at most one apart. */
  lemma RefillToGap(r: Rules, m: Meter, m': Meter, g: nat)
    requires m'.gens == m.gens && m'.level <= m.level <= m'.level + 1
    ensures RefillTo(r, m', g).gens == RefillTo(r, m, g).gens
    ensures RefillTo(r, m', g).level <= RefillTo(r, m, g).level <= RefillTo(r, m', g).level + 1
  {
    if m.gens < g {
      RefillGap(r, m'.level, m.level, g - m.gens);
    }
  }

  predicate Sorted(s: seq<int>) { forall i, j :: 0 <= i < j < |s| ==> s[i] <= s[j] }

  /** The generations seen after the plays are those up to the last play. */
  lemma {:induction false} GensAfter(r: Rules, c: Clock, ps: seq<int>)
    requires Monotone(c) && Sorted(ps)
    ensures After(r, c, ps).gens == if ps == [] then 0 else c(ps[|ps| - 1])
  {
    if ps != [] {
      var n := |ps| - 1;
      GensAfter(r, c, ps[..n]);
      assert n > 0 ==> c(ps[n - 1]) <= c(ps[n]);
    }
  }

  /** The level never exceeds the cap. */
  lemma {:induction false} LevelCapped(r: Rules, c: Clock, ps: seq<int>, t: int)
    requires r.genMax.Some?
    ensures After(r, c, ps).level <= r.genMax.value && Level(r, c, ps, t) <= r.genMax.value
    decreases |ps|
  {
    if ps != [] {
      LevelCapped(r, c, ps[..|ps| - 1], ps[|ps| - 1]);
    }
    var m := After(r, c, ps);
    if m.gens < c(t) {
      RefillCapped(r, m.level, c(t) - m.gens);
    }
  }

  // ------------------------------------------------------- the state of a pool

  /** The instant of the k-th generation. */
  function GenAt(r: Rules, start: int, k: int): int { start + k * r.genInterval }

  /** The number of generations up to and including t. */
  function Gens(r: Rules, start: int, t: int): nat {
    if Generates(r) && start <= t then (t - start) / r.genInterval else 0
  }

  function ClockOf(r: Rules, start: int): Clock { t => Gens(r, start, t) }

  function Waiting(r: Rules, ps: seq<int>, now: int): int {
    if |ps| > 0 && r.minInterval > 0 && now < ps[|ps| - 1] + r.minInterval
    then ps[|ps| - 1] + r.minInterval - now else 0
  }

  /** What a meter shows: the level, never below 0, and the next generation unless the pool is full. */
  function Shown(r: Rules, start: int, m: Meter, wait: int, exhausted: bool): State {
    var available := Max(m.level, 0);
    var next := if Generates(r) && (r.genMax.None? || available < r.genMax.value)
                then Some(GenAt(r, start, m.gens + 1)) else None;
    State(available, false, next, wait, exhausted)
  }

  /** The state of the pool at `now` after the plays `ps`, in order. */
  function StateAt(r: Rules, start: int, ps: seq<int>, now: int): State {
    if r.mode == Disabled then State(0, false, None, 0, true)
    else
      var exhausted := r.maxNumber.Some? && |ps| >= r.maxNumber.value;
      var wait := Waiting(r, ps, now);
      if r.mode == Infinite then State(0, true, None, wait, exhausted)
      else
        var c := ClockOf(r, start);
        Shown(r, start, RefillTo(r, After(r, c, ps), c(now)), wait, exhausted)
  }

  // ----------------------------------------------------------------- the clock

  lemma MulMono(x: int, y: int, d: int)
    requires x <= y && 0 <= d
    ensures x * d <= y * d
  {
  }

  lemma DivBound(a: nat, d: int, k: nat)
    requires d > 0
    ensures k * d <= a <==> k <= a / d
  {
    var q := a / d;
    assert q * d <= a < q * d + d;
    if k <= q {
      MulMono(k, q, d);
    } else {
      MulMono(q + 1, k, d);
      assert (q + 1) * d == q * d + d;
    }
  }

  /** The k-th generation has happened by t exactly when it is counted. */
  lemma GenAtReached(r: Rules, start: int, k: int, t: int)
    requires k >= 1 && Generates(r)
    ensures GenAt(r, start, k) <= t <==> k <= Gens(r, start, t)
  {
    if start <= t {
      DivBound(t - start, r.genInterval, k);
    } else {
      MulMono(0, k, r.genInterval);
    }
  }

  lemma GenAtNext(r: Rules, start: int, k: int)
    ensures GenAt(r, start, k + 1) == GenAt(r, start, k) + r.genInterval
  {
    assert (k + 1) * r.genInterval == k * r.genInterval + r.genInterval;
  }

  lemma ClockMonotone(r: Rules, start: int)
    ensures Monotone(ClockOf(r, start))
  {
    var c := ClockOf(r, start);
    forall s, t | s <= t
      ensures c(s) <= c(t)
    {
      var k := c(s);
      if k >= 1 {
        GenAtReached(r, start, k, s);
        GenAtReached(r, start, k, t);
      }
    }
  }

  /** The k-th generation happens in (s, t] exactly for Gens(s) < k <= Gens(t): there are Gens(t) - Gens(s). */
  lemma GenerationsInWindow(r: Rules, start: int, s: int, t: int, k: nat)
    requires Generates(r) && k >= 1
    ensures s < GenAt(r, start, k) <= t <==> Gens(r, start, s) < k <= Gens(r, start, t)
  {
    GenAtReached(r, start, k, s);
    GenAtReached(r, start, k, t);
  }

  // ----------------------------------------------------------- implementation

  /** The generation loop: generations up to `t`, one at a time. */
  method Generate(r: Rules, start: int, avail0: int, gen0: int, t: int) returns (avail: int, gen: int)
    requires gen0 >= 1
    ensures gen >= 1 && Meter(avail, gen - 1) == RefillTo(r, Meter(avail0, gen0 - 1), Gens(r, start, t))
  {
    avail, gen := avail0, gen0;
    ghost var g := Gens(r, start, t);
    if Generates(r) {
      GenAtReached(r, start, gen, t);
    }
    while r.genInterval > 0 && r.genNumber > 0 && GenAt(r, start, gen) <= t
      invariant gen0 <= gen && (gen - 1 <= g || gen == gen0)
      invariant avail == Refill(r, avail0, gen - gen0)
      invariant Generates(r) ==> (GenAt(r, start, gen) <= t <==> gen <= g)
      decreases t - GenAt(r, start, gen)
    {
      GenAtNext(r, start, gen);
      avail := Capped(r, avail + r.genNumber);
      gen := gen + 1;
      GenAtReached(r, start, gen, t);
    }
  }

  /** Replays generations and plays in order; a play at the instant of a generation comes after it. */
  method Replay(r: Rules, start: int, ps: seq<int>, now: int) returns (avail: int, gen: int)
    ensures gen >= 1
    ensures Meter(avail, gen - 1) == RefillTo(r, After(r, ClockOf(r, start), ps), Gens(r, start, now))
  {
    ghost var c := ClockOf(r, start);
    avail, gen := Capped(r, r.genInitial), 1;
    for i := 0 to |ps|
      invariant gen >= 1 && Meter(avail, gen - 1) == After(r, c, ps[..i])
    {
      assert ps[..i + 1][..i] == ps[..i];
      assert c(ps[i]) == Gens(r, start, ps[i]);
      avail, gen := Generate(r, start, avail, gen, ps[i]);
      avail := avail - 1;
    }
    assert ps[..|ps|] == ps;
    avail, gen := Generate(r, start, avail, gen, now);
  }

  /** Recomputes the state of a pool from the plays, in any order. */
  method Tokens(r: Rules, start: int, played: seq<int>, now: int) returns (s: State)
    ensures s == StateAt(r, start, Sort(played), now)
    ensures StateMeans(r, start, played, now, s)
  {
    StateSays(r, start, played, now);
    if r.mode == Disabled {
      return State(0, false, None, 0, true);
    }
    var ps := Sort(played);
    var exhausted := r.maxNumber.Some? && |ps| >= r.maxNumber.value;
    var wait := 0;
    if |ps| > 0 && r.minInterval > 0 {
      var next := ps[|ps| - 1] + r.minInterval;
      if now < next {
        wait := next - now;
      }
    }
    if r.mode == Infinite {
      return State(0, true, None, wait, exhausted);
    }
    var avail, gen := Replay(r, start, ps, now);
    var available := Max(avail, 0);
    var next := None;
    if r.genInterval > 0 && r.genNumber > 0 && (r.genMax.None? || available < r.genMax.value) {
      next := Some(GenAt(r, start, gen));
    }
    s := State(available, false, next, wait, exhausted);
  }

  // ------------------------------------------------------------------- sorting

  function Insert(x: int, s: seq<int>): seq<int> {
    if s == [] || x < s[0] then [x] + s else [s[0]] + Insert(x, s[1..])
  }

  function Sort(s: seq<int>): seq<int> {
    if s == [] then [] else Insert(s[0], Sort(s[1..]))
  }

  /** Where a sorted list takes a new element. */
  lemma {:induction false} InsertSplits(x: int, s: seq<int>) returns (k: nat)
    requires Sorted(s)
    ensures k <= |s| && Insert(x, s) == s[..k] + [x] + s[k..]
    ensures (forall i :: 0 <= i < k ==> s[i] <= x) && (forall i :: k <= i < |s| ==> x <= s[i])
  {
    if s == [] || x < s[0] {
      k := 0;
    } else {
      var k' := InsertSplits(x, s[1..]);
      k := k' + 1;
      assert s[..k] == [s[0]] + s[1..][..k'] && s[k..] == s[1..][k'..];
      forall i | k <= i < |s|
        ensures x <= s[i]
      {
        assert s[i] == s[1..][i - 1];
      }
    }
  }

  lemma InsertSorted(x: int, s: seq<int>)
    requires Sorted(s)
    ensures Sorted(Insert(x, s))
  {
    var k := InsertSplits(x, s);
    var r := s[..k] + [x] + s[k..];
    assert forall i :: 0 <= i < |r| ==> r[i] == if i < k then s[i] else if i == k then x else s[i - 1];
  }

  lemma {:induction false} InsertAdds(x: int, s: seq<int>)
    ensures multiset(Insert(x, s)) == multiset{x} + multiset(s)
  {
    if !(s == [] || x < s[0]) {
      InsertAdds(x, s[1..]);
      assert s == [s[0]] + s[1..];
    }
  }

  lemma {:induction false} SortSorts(s: seq<int>)
    ensures Sorted(Sort(s)) && multiset(Sort(s)) == multiset(s)
  {
    if s != [] {
      SortSorts(s[1..]);
      InsertSorted(s[0], Sort(s[1..]));
      InsertAdds(s[0], Sort(s[1..]));
      assert s == [s[0]] + s[1..];
    }
  }

  lemma HeadIsLeast(s: seq<int>, x: int)
    requires Sorted(s) && x in multiset(s)
    ensures s != [] && s[0] <= x && Sorted(s[1..])
  {
    assert x in s;
  }

  lemma DropSameHead(s: seq<int>, t: seq<int>)
    requires s != [] && t != [] && s[0] == t[0] && multiset(s) == multiset(t)
    ensures multiset(s[1..]) == multiset(t[1..])
  {
    assert s == [s[0]] + s[1..] && t == [t[0]] + t[1..];
    assert multiset(s[1..]) == multiset(s) - multiset{s[0]};
    assert multiset(t[1..]) == multiset(t) - multiset{t[0]};
  }

  lemma SameHead(s: seq<int>, t: seq<int>)
    requires Sorted(s) && Sorted(t) && s != [] && multiset(s) == multiset(t)
    ensures t != [] && s[0] == t[0] && Sorted(s[1..]) && Sorted(t[1..])
  {
    assert s[0] in multiset(s);
    HeadIsLeast(t, s[0]);
    assert t[0] in multiset(t);
    HeadIsLeast(s, t[0]);
  }

  lemma {:induction false} SortedUnique(s: seq<int>, t: seq<int>)
    requires Sorted(s) && Sorted(t) && multiset(s) == multiset(t)
    ensures s == t
    decreases |s|
  {
    assert |s| == |multiset(s)| == |multiset(t)| == |t|;
    if s != [] {
      SameHead(s, t);
      DropSameHead(s, t);
      SortedUnique(s[1..], t[1..]);
      SameHeadAndTail(s, t);
    }
  }

  lemma SameHeadAndTail(s: seq<int>, t: seq<int>)
    requires s != [] && t != [] && s[0] == t[0] && s[1..] == t[1..]
    ensures s == t
  {
    assert s == [s[0]] + s[1..] && t == [t[0]] + t[1..];
  }

  /** The state does not depend on the order in which the plays are listed. */
  lemma OrderIrrelevant(r: Rules, start: int, played: seq<int>, played': seq<int>, now: int)
    requires multiset(played) == multiset(played')
    ensures StateAt(r, start, Sort(played), now) == StateAt(r, start, Sort(played'), now)
  {
    SortSorts(played);
    SortSorts(played');
    SortedUnique(Sort(played), Sort(played'));
  }

  // ------------------------------------------------------ legitimate histories

  /** Plays in order of time, each made while the pool allowed it. */
  ghost predicate Legitimate(r: Rules, start: int, ps: seq<int>) {
    Sorted(ps) && forall i :: 0 <= i < |ps| ==> Allowed(r, start, ps, i)
  }

  ghost predicate Allowed(r: Rules, start: int, ps: seq<int>, i: int)
    requires 0 <= i < |ps|
  {
    CanPlay(StateAt(r, start, ps[..i], ps[i]))
  }

  lemma LegitimatePrefix(r: Rules, start: int, ps: seq<int>, i: nat)
    requires Legitimate(r, start, ps) && i <= |ps|
    ensures Legitimate(r, start, ps[..i])
  {
    forall j | 0 <= j < i
      ensures Allowed(r, start, ps[..i], j)
    {
      assert Allowed(r, start, ps, j);
      assert ps[..i][..j] == ps[..j];
    }
  }

  /** The total never exceeds the cap, and consecutive plays are at least the interval apart. */
  lemma CapAndIntervalKept(r: Rules, start: int, ps: seq<int>)
    requires Legitimate(r, start, ps)
    ensures r.maxNumber.Some? && ps != [] ==> |ps| <= r.maxNumber.value
    ensures forall i :: 0 < i < |ps| ==> ps[i] - ps[i - 1] >= r.minInterval
  {
    if ps != [] {
      assert Allowed(r, start, ps, |ps| - 1);
    }
    forall i | 0 < i < |ps|
      ensures ps[i] - ps[i - 1] >= r.minInterval
    {
      assert Allowed(r, start, ps, i);
      assert ps[..i][i - 1] == ps[i - 1];
    }
  }

  /** Before each play of a legitimate history there was a token. */
  lemma LegitimateLevel(r: Rules, start: int, ps: seq<int>)
    requires r.mode == Finite && Legitimate(r, start, ps) && ps != []
    ensures 0 <= After(r, ClockOf(r, start), ps).level
  {
    assert Allowed(r, start, ps, |ps| - 1);
  }

  /** In a legitimate history the level is never negative, at any time. */
  lemma NeverNegative(r: Rules, start: int, ps: seq<int>, t: int)
    requires r.mode == Finite && Legitimate(r, start, ps) && ps != []
    ensures 0 <= After(r, ClockOf(r, start), ps).level && 0 <= Level(r, ClockOf(r, start), ps, t)
  {
    LegitimateLevel(r, start, ps);
    var c := ClockOf(r, start);
    var m := After(r, c, ps);
    if m.gens < c(t) {
      if r.genMax.Some? {
        LevelCapped(r, c, ps, t);
      }
      RefillGains(r, m.level, c(t) - m.gens);
    }
  }

  // ------------------------------------------------- plays in a window of time

  /** The number of plays in [s, t]. */
  function CountIn(ps: seq<int>, s: int, t: int): nat {
    if ps == [] then 0 else (if s <= ps[|ps| - 1] <= t then 1 else 0) + CountIn(ps[..|ps| - 1], s, t)
  }

  lemma {:induction false} NoneBefore(ps: seq<int>, s: int, t: int)
    requires Sorted(ps) && (ps == [] || ps[|ps| - 1] < s)
    ensures CountIn(ps, s, t) == 0
  {
    if ps != [] {
      NoneBefore(ps[..|ps| - 1], s, t);
    }
  }

  lemma Telescope(a: int, b: int, c: int, x: int, g: int)
    requires b <= c && x <= g
    ensures (b - a) * g + (c - b) * x <= (c - a) * g
  {
    MulMono(x, g, c - b);
    assert (b - a) * g + (c - b) * g == (c - a) * g;
  }

  /**
   The level left after the last play of a window, plus the plays in the window, is
   at most the cap plus the tokens generated in between.
   */
  lemma {:induction false} WindowLevel(r: Rules, c: Clock, ps: seq<int>, s: int, t: int)
    requires Monotone(c) && Sorted(ps) && r.genMax.Some? && ps != [] && s <= ps[|ps| - 1] <= t
    ensures After(r, c, ps).level + CountIn(ps, s, t) <= r.genMax.value + (c(ps[|ps| - 1]) - c(s)) * Max(r.genNumber, 0)
    decreases |ps|
  {
    var n := |ps| - 1;
    var before, g := ps[..n], Max(r.genNumber, 0);
    GensAfter(r, c, before);
    assert c(s) <= c(ps[n]);
    if n == 0 || ps[n - 1] < s {
      NoneBefore(before, s, t);
      LevelCapped(r, c, before, ps[n]);
      MulMono(c(s), c(ps[n]), g);
    } else {
      WindowLevel(r, c, before, s, t);
      assert c(ps[n - 1]) <= c(ps[n]);
      RefillAtMost(r, After(r, c, before).level, c(ps[n]) - c(ps[n - 1]));
      Telescope(c(s), c(ps[n - 1]), c(ps[n]), r.genNumber, g);
    }
  }

  /**
   Plays in any window [s, t] of a legitimate history number at most the cap plus the
   tokens generated in (s, t].
   */
  lemma {:induction false} WindowBound(r: Rules, start: int, ps: seq<int>, s: int, t: int)
    requires r.mode == Finite && Legitimate(r, start, ps) && r.genMax.Some? && s <= t
    ensures CountIn(ps, s, t) == 0
         || CountIn(ps, s, t) <= r.genMax.value + (Gens(r, start, t) - Gens(r, start, s)) * Max(r.genNumber, 0)
    decreases |ps|
  {
    if ps != [] {
      var last, c := ps[|ps| - 1], ClockOf(r, start);
      if last < s {
        NoneBefore(ps, s, t);
      } else if last <= t {
        ClockMonotone(r, start);
        WindowLevel(r, c, ps, s, t);
        LegitimateLevel(r, start, ps);
        MulMono(c(last) - c(s), c(t) - c(s), Max(r.genNumber, 0));
      } else {
        LegitimatePrefix(r, start, ps, |ps| - 1);
        WindowBound(r, start, ps[..|ps| - 1], s, t);
      }
    }
  }

  // ------------------------------------------------------------- closed form

  /** Without a cap a pool holds what was generated minus what was played. */
  lemma {:induction false} Uncapped(r: Rules, c: Clock, ps: seq<int>, now: int)
    requires Monotone(c) && r.genMax.None? && Sorted(ps) && (ps == [] || ps[|ps| - 1] <= now)
    ensures Level(r, c, ps, now) == r.genInitial + c(now) * r.genNumber - |ps|
    decreases |ps|
  {
    GensAfter(r, c, ps);
    var m := After(r, c, ps);
    assert m.level == r.genInitial + m.gens * r.genNumber - |ps| by {
      if ps != [] {
        Uncapped(r, c, ps[..|ps| - 1], ps[|ps| - 1]);
        GensAfter(r, c, ps[..|ps| - 1]);
        UncappedGens(r, c, ps);
      }
    }
    assert m.gens <= c(now);
    RefillUncapped(r, m.level, c(now) - m.gens);
    assert (c(now) - m.gens) * r.genNumber + m.gens * r.genNumber == c(now) * r.genNumber;
  }

  lemma UncappedGens(r: Rules, c: Clock, ps: seq<int>)
    requires Monotone(c) && Sorted(ps) && ps != []
    ensures After(r, c, ps).gens == c(ps[|ps| - 1])
  {
    GensAfter(r, c, ps);
  }

  /** For a legitimate history the closed form is what the contestant is shown. */
  lemma UncappedAvailable(r: Rules, start: int, ps: seq<int>, now: int)
    requires r.mode == Finite && Generates(r) && r.genMax.None? && r.genInitial >= 0 && start <= now
    requires Legitimate(r, start, ps) && (ps == [] || ps[|ps| - 1] <= now)
    ensures StateAt(r, start, ps, now).available
            == r.genInitial + ((now - start) / r.genInterval) * r.genNumber - |ps|
  {
    ClockMonotone(r, start);
    Uncapped(r, ClockOf(r, start), ps, now);
    if ps == [] {
      MulMono(0, Gens(r, start, now), r.genNumber);
    } else {
      NeverNegative(r, start, ps, now);
    }
  }

  // ----------------------------------------------------------- what a state means

  /** The number of plays from an instant on. */
  function Since(played: seq<int>, t: int): nat {
    if played == [] then 0 else Since(played[1..], t) + if played[0] >= t then 1 else 0
  }

  /** What the pool would hold had it never been full. */
  function NeverFull(r: Rules, plays: nat, gens: nat): int { r.genInitial + gens * r.genNumber - plays }

  /** What the pool would hold had it last been full right after the j-th generation, at the start for 0. */
  function FullAt(r: Rules, start: int, played: seq<int>, gens: nat, j: nat): int
    requires r.genMax.Some?
  {
    r.genMax.value + (gens - j) * r.genNumber - if j == 0 then |played| else Since(played, start + j * r.genInterval)
  }

  /** The number of generations by t. */
  ghost predicate Counts(r: Rules, start: int, t: int, gens: nat) {
    if r.genInterval > 0 && r.genNumber > 0
    then (gens == 0 || start + gens * r.genInterval <= t) && t < start + (gens + 1) * r.genInterval
    else gens == 0
  }

  /** The level of a pool with a cap is the least of what it would hold, had it been full at any moment or never. */
  ghost predicate LevelIs(r: Rules, start: int, played: seq<int>, gens: nat, level: int) {
    && level <= NeverFull(r, |played|, gens)
    && (r.genMax.Some? ==> forall j: nat :: j <= gens ==> level <= FullAt(r, start, played, gens, j))
    && (level == NeverFull(r, |played|, gens)
        || (r.genMax.Some? && exists j: nat :: j <= gens && level == FullAt(r, start, played, gens, j)))
  }

  /** The latest of the plays and an instant. */
  ghost predicate Latest(played: seq<int>, now: int, t: int) {
    now <= t && (forall i :: 0 <= i < |played| ==> played[i] <= t) && (t == now || t in played)
  }

  /** What is shown of a finite pool at an instant no play is after. */
  ghost predicate PoolShows(r: Rules, start: int, played: seq<int>, gens: nat, level: int, s: State) {
    && LevelIs(r, start, played, gens, level)
    && s.available == (if level < 0 then 0 else level)
    && s.next == if r.genInterval > 0 && r.genNumber > 0 && (r.genMax.None? || s.available < r.genMax.value)
                 then Some(start + (gens + 1) * r.genInterval) else None
  }

  ghost predicate FinitePool(r: Rules, start: int, played: seq<int>, now: int, s: State) {
    exists t, gens, level ::
      Latest(played, now, t) && Counts(r, start, t, gens) && PoolShows(r, start, played, gens, level, s)
  }

  /** The wait runs from the last play. */
  ghost predicate WaitIs(r: Rules, played: seq<int>, now: int, wait: int) {
    if r.mode == Disabled || played == [] || r.minInterval <= 0 then wait == 0
    else exists last :: last in played && (forall p :: p in played ==> p <= last)
                        && wait == if last + r.minInterval - now > 0 then last + r.minInterval - now else 0
  }

  /** What the state of a pool says, for plays in any order. */
  ghost predicate StateMeans(r: Rules, start: int, played: seq<int>, now: int, s: State) {
    && (s.exhausted <==> r.mode == Disabled || (r.maxNumber.Some? && |played| >= r.maxNumber.value))
    && (s.unlimited <==> r.mode == Infinite)
    && WaitIs(r, played, now, s.wait)
    && if r.mode == Finite then FinitePool(r, start, played, now, s) else s.available == 0 && s.next == None
  }

  /** The plays made when at least j generations had happened. */
  function SinceGen(c: Clock, ps: seq<int>, j: nat): nat {
    if ps == [] then 0 else SinceGen(c, ps[..|ps| - 1], j) + if c(ps[|ps| - 1]) >= j then 1 else 0
  }

  function FullAfter(r: Rules, c: Clock, ps: seq<int>, gens: nat, j: nat): int
    requires r.genMax.Some?
  {
    r.genMax.value + (gens - j) * r.genNumber - SinceGen(c, ps, j)
  }

  /** The same with a clock, counting generations. */
  ghost predicate Least(r: Rules, c: Clock, ps: seq<int>, m: Meter) {
    && m.level <= NeverFull(r, |ps|, m.gens)
    && (r.genMax.Some? ==> forall j: nat :: j <= m.gens ==> m.level <= FullAfter(r, c, ps, m.gens, j))
    && (m.level == NeverFull(r, |ps|, m.gens)
        || (r.genMax.Some? && exists j: nat :: j <= m.gens && m.level == FullAfter(r, c, ps, m.gens, j)))
  }

  ghost predicate AllBy(c: Clock, ps: seq<int>, gens: nat) { forall i :: 0 <= i < |ps| ==> c(ps[i]) <= gens }

  lemma {:induction false} NoneSince(c: Clock, ps: seq<int>, gens: nat, j: nat)
    requires AllBy(c, ps, gens) && gens < j
    ensures SinceGen(c, ps, j) == 0
  {
    if ps != [] {
      NoneSince(c, ps[..|ps| - 1], gens, j);
    }
  }

  /** One more generation adds its tokens to every candidate, and makes one of its own. */
  lemma LeastRefillOne(r: Rules, c: Clock, ps: seq<int>, m: Meter)
    requires Least(r, c, ps, m) && AllBy(c, ps, m.gens)
    ensures Least(r, c, ps, Meter(Capped(r, m.level + r.genNumber), m.gens + 1))
  {
    var g := m.gens + 1;
    assert NeverFull(r, |ps|, g) == NeverFull(r, |ps|, m.gens) + r.genNumber by {
      assert g * r.genNumber == m.gens * r.genNumber + r.genNumber;
    }
    if r.genMax.Some? {
      forall j: nat | j <= m.gens
        ensures FullAfter(r, c, ps, g, j) == FullAfter(r, c, ps, m.gens, j) + r.genNumber
      {
        assert (g - j) * r.genNumber == (m.gens - j) * r.genNumber + r.genNumber;
      }
      NoneSince(c, ps, m.gens, g);
      assert FullAfter(r, c, ps, g, g) == r.genMax.value;
    }
  }

  lemma {:induction false} LeastRefill(r: Rules, c: Clock, ps: seq<int>, m: Meter, n: nat)
    requires Least(r, c, ps, m) && AllBy(c, ps, m.gens)
    ensures Least(r, c, ps, Meter(Refill(r, m.level, n), m.gens + n))
    decreases n
  {
    if n > 0 {
      LeastRefill(r, c, ps, m, n - 1);
      LeastRefillOne(r, c, ps, Meter(Refill(r, m.level, n - 1), m.gens + n - 1));
    }
  }

  lemma LeastPlay(r: Rules, c: Clock, ps: seq<int>, p: int, m: Meter)
    requires Least(r, c, ps, m) && c(p) == m.gens
    ensures Least(r, c, ps + [p], Meter(m.level - 1, m.gens))
  {
    assert (ps + [p])[..|ps|] == ps;
    if r.genMax.Some? {
      forall j: nat | j <= m.gens
        ensures FullAfter(r, c, ps + [p], m.gens, j) == FullAfter(r, c, ps, m.gens, j) - 1
      {
      }
    }
  }

  lemma LeastNext(r: Rules, c: Clock, ps: seq<int>, m: Meter, p: int)
    requires Least(r, c, ps, m) && AllBy(c, ps, m.gens) && m.gens <= c(p)
    ensures var m' := RefillTo(r, m, c(p));
            Least(r, c, ps + [p], Meter(m'.level - 1, m'.gens)) && AllBy(c, ps + [p], m'.gens)
  {
    LeastRefill(r, c, ps, m, c(p) - m.gens);
    LeastPlay(r, c, ps, p, RefillTo(r, m, c(p)));
  }

  lemma {:induction false} LeastAfter(r: Rules, c: Clock, ps: seq<int>)
    requires Monotone(c) && Sorted(ps)
    ensures Least(r, c, ps, After(r, c, ps)) && AllBy(c, ps, After(r, c, ps).gens)
  {
    GensAfter(r, c, ps);
    if ps != [] {
      var n := |ps| - 1;
      var front, p := ps[..n], ps[n];
      assert ps == front + [p];
      GensAfter(r, c, front);
      LeastAfter(r, c, front);
      LeastNext(r, c, front, After(r, c, front), p);
    } else if r.genMax.Some? {
      assert FullAfter(r, c, ps, 0, 0) == r.genMax.value;
    }
  }

  /** The level once everything is played and the generations by t have happened. */
  lemma LeastLevel(r: Rules, c: Clock, ps: seq<int>, t: int)
    requires Monotone(c) && Sorted(ps)
    ensures Least(r, c, ps, RefillTo(r, After(r, c, ps), c(t)))
    ensures RefillTo(r, After(r, c, ps), c(t)).gens ==
            Max(c(t), if ps == [] then 0 else c(ps[|ps| - 1]))
  {
    LeastAfter(r, c, ps);
    GensAfter(r, c, ps);
    var m := After(r, c, ps);
    if m.gens < c(t) {
      LeastRefill(r, c, ps, m, c(t) - m.gens);
    }
  }

  lemma {:induction false} SinceSnoc(ps: seq<int>, p: int, t: int)
    ensures Since(ps + [p], t) == Since(ps, t) + if p >= t then 1 else 0
  {
    if ps == [] {
      assert ps + [p] == [p];
    } else {
      assert (ps + [p])[1..] == ps[1..] + [p];
      SinceSnoc(ps[1..], p, t);
    }
  }

  lemma {:induction false} SinceInsert(x: int, ps: seq<int>, t: int)
    ensures Since(Insert(x, ps), t) == Since(ps, t) + if x >= t then 1 else 0
  {
    if ps == [] || x < ps[0] {
      assert ([x] + ps)[1..] == ps;
    } else {
      SinceInsert(x, ps[1..], t);
      assert ([ps[0]] + Insert(x, ps[1..]))[1..] == Insert(x, ps[1..]);
    }
  }

  lemma {:induction false} SinceSorted(ps: seq<int>, t: int)
    ensures Since(Sort(ps), t) == Since(ps, t)
  {
    if ps != [] {
      SinceSorted(ps[1..], t);
      SinceInsert(ps[0], Sort(ps[1..]), t);
    }
  }

  /** Plays since a generation are plays since its instant. */
  lemma {:induction false} SinceGenIs(r: Rules, start: int, ps: seq<int>, j: nat)
    ensures j == 0 ==> SinceGen(ClockOf(r, start), ps, j) == |ps|
    ensures j > 0 && Generates(r) ==> SinceGen(ClockOf(r, start), ps, j) == Since(ps, start + j * r.genInterval)
  {
    if ps != [] {
      var n := |ps| - 1;
      SinceGenIs(r, start, ps[..n], j);
      assert ps == ps[..n] + [ps[n]];
      if j > 0 && Generates(r) {
        GenAtReached(r, start, j, ps[n]);
        SinceSnoc(ps[..n], ps[n], start + j * r.genInterval);
      }
    }
  }

  lemma SortedLength(played: seq<int>)
    ensures |Sort(played)| == |played| && Sorted(Sort(played))
    ensures forall p :: p in Sort(played) <==> p in played
  {
    SortSorts(played);
    assert |multiset(Sort(played))| == |multiset(played)|;
    forall p ensures p in Sort(played) <==> p in played {
      assert p in multiset(Sort(played)) <==> p in multiset(played);
    }
  }

  lemma LevelMeans(r: Rules, start: int, played: seq<int>, m: Meter)
    requires Least(r, ClockOf(r, start), Sort(played), m) && (!Generates(r) ==> m.gens == 0)
    ensures LevelIs(r, start, played, m.gens, m.level)
  {
    var ps, c := Sort(played), ClockOf(r, start);
    SortedLength(played);
    if r.genMax.Some? {
      forall j: nat | j <= m.gens
        ensures FullAt(r, start, played, m.gens, j) == FullAfter(r, c, ps, m.gens, j)
      {
        SinceGenIs(r, start, ps, j);
        SinceSorted(played, start + j * r.genInterval);
      }
    }
  }

  lemma GensCount(r: Rules, start: int, t: int)
    ensures Counts(r, start, t, Gens(r, start, t))
  {
    var k := Gens(r, start, t);
    if Generates(r) {
      if k > 0 {
        GenAtReached(r, start, k, t);
      }
      GenAtReached(r, start, k + 1, t);
    }
  }

  lemma LaterGens(r: Rules, start: int, now: int, t: int, ps: seq<int>)
    requires t == if ps == [] then now else Max(now, ps[|ps| - 1])
    ensures Gens(r, start, t) == Max(Gens(r, start, now), if ps == [] then 0 else Gens(r, start, ps[|ps| - 1]))
  {
    var c := ClockOf(r, start);
    ClockMonotone(r, start);
    assert c(now) <= c(t) && (ps != [] ==> c(ps[|ps| - 1]) <= c(t));
  }

  lemma PoolMeans(r: Rules, start: int, played: seq<int>, now: int)
    requires r.mode == Finite
    ensures FinitePool(r, start, played, now, StateAt(r, start, Sort(played), now))
  {
    var ps, c := Sort(played), ClockOf(r, start);
    var t := if ps == [] then now else Max(now, ps[|ps| - 1]);
    var m := RefillTo(r, After(r, c, ps), c(now));
    SortedLength(played);
    ClockMonotone(r, start);
    LeastLevel(r, c, ps, now);
    LaterGens(r, start, now, t, ps);
    GensCount(r, start, t);
    LevelMeans(r, start, played, m);
    LatestIs(played, now, t);
    assert PoolShows(r, start, played, m.gens, m.level, StateAt(r, start, ps, now));
  }

  lemma LatestIs(played: seq<int>, now: int, t: int)
    requires var ps := Sort(played); t == if ps == [] then now else Max(now, ps[|ps| - 1])
    ensures Latest(played, now, t)
  {
    SortedLength(played);
    forall i | 0 <= i < |played| ensures played[i] <= t {
      assert played[i] in played;
    }
  }

  lemma WaitMeans(r: Rules, played: seq<int>, now: int)
    requires r.mode != Disabled
    ensures WaitIs(r, played, now, Waiting(r, Sort(played), now))
  {
    SortedLength(played);
    var ps := Sort(played);
    if played != [] {
      var last := ps[|ps| - 1];
      assert last in played;
      assert forall p :: p in played ==> p in ps && p <= last;
    }
  }

  /** The state says all this of the plays, whatever their order. */
  lemma StateSays(r: Rules, start: int, played: seq<int>, now: int)
    ensures StateMeans(r, start, played, now, StateAt(r, start, Sort(played), now))
  {
    SortedLength(played);
    if r.mode != Disabled {
      WaitMeans(r, played, now);
    }
    if r.mode == Finite {
      PoolMeans(r, start, played, now);
    }
  }

  /** When a token can be played. */
  lemma CanPlayExactly(r: Rules, start: int, played: seq<int>, now: int)
    ensures var s := StateAt(r, start, Sort(played), now);
            CanPlay(s) <==>
              && r.mode != Disabled && (r.maxNumber.Some? ==> |played| < r.maxNumber.value)
              && (r.minInterval > 0 ==> forall p :: p in played ==> p + r.minInterval <= now)
              && (r.mode == Infinite || s.available > 0)
  {
    StateSays(r, start, played, now);
    HeadIn(played);
  }

  // ------------------------------------------------------------ an extra play

  /** The pool with one more play at p, seen from a later instant t, is at most one token lower. */
  lemma {:induction false} ExtraPlay(r: Rules, c: Clock, xs: seq<int>, p: int, ys: seq<int>, t: int)
    requires Monotone(c) && (forall i :: 0 <= i < |ys| ==> p <= ys[i]) && (ys == [] ==> p <= t)
    ensures var m, m' := RefillTo(r, After(r, c, xs + ys), c(t)), RefillTo(r, After(r, c, xs + [p] + ys), c(t));
            m'.gens == m.gens && m'.level <= m.level <= m'.level + 1
    decreases |ys|
  {
    if ys == [] {
      assert xs + [] == xs && xs + [p] + [] == xs + [p] && (xs + [p])[..|xs|] == xs;
      var m := After(r, c, xs);
      var m' := RefillTo(r, m, c(p));
      RefillToTwice(r, m, c(p), c(t));
      RefillToGap(r, m', Meter(m'.level - 1, m'.gens), c(t));
    } else {
      var n := |ys| - 1;
      assert (xs + ys)[..|xs + ys| - 1] == xs + ys[..n];
      assert (xs + [p] + ys)[..|xs + [p] + ys| - 1] == xs + [p] + ys[..n];
      ExtraPlay(r, c, xs, p, ys[..n], ys[n]);
      RefillToGap(r, After(r, c, xs + ys), After(r, c, xs + [p] + ys), c(t));
    }
  }

  lemma AvailableIsLevel(r: Rules, start: int, ps: seq<int>, now: int)
    requires r.mode == Finite
    ensures StateAt(r, start, ps, now).available == Max(Level(r, ClockOf(r, start), ps, now), 0)
  {
  }

  lemma ExtraPlayLevel(r: Rules, c: Clock, ps: seq<int>, p: int, now: int)
    requires Monotone(c) && Sorted(ps) && p <= now
    ensures Level(r, c, Insert(p, ps), now) <= Level(r, c, ps, now) <= Level(r, c, Insert(p, ps), now) + 1
  {
    var k := InsertSplits(p, ps);
    var xs, ys := ps[..k], ps[k..];
    assert ps == xs + ys;
    ExtraPlay(r, c, xs, p, ys, now);
  }

  /** One more play, whenever it was made, never raises availability and lowers it by at most one. */
  lemma ExtraPlayAvailable(r: Rules, start: int, played: seq<int>, p: int, now: int)
    requires r.mode == Finite && p <= now
    ensures var s, s' := StateAt(r, start, Sort(played), now), StateAt(r, start, Sort([p] + played), now);
            s'.available <= s.available <= s'.available + 1
  {
    var ps, ps' := Sort(played), Sort([p] + played);
    assert ([p] + played)[1..] == played;
    assert ps' == Insert(p, ps);
    SortSorts(played);
    ClockMonotone(r, start);
    ExtraPlayLevel(r, ClockOf(r, start), ps, p, now);
    AvailableIsLevel(r, start, ps, now);
    AvailableIsLevel(r, start, ps', now);
  }

  // ---------------------------------------------------------- the next token

  /** The next generation is in the future, and nothing is generated before it. */
  lemma NextGeneration(r: Rules, start: int, now: int, t: int)
    requires Generates(r) && now <= t
    ensures var next := GenAt(r, start, Gens(r, start, now) + 1);
            && now < next
            && (t < next ==> Gens(r, start, t) == Gens(r, start, now))
            && Gens(r, start, next) == Gens(r, start, now) + 1
  {
    var k := Gens(r, start, now) + 1;
    GenAtReached(r, start, k, now);
    GenAtReached(r, start, k, t);
    ClockMonotone(r, start);
    assert ClockOf(r, start)(now) <= ClockOf(r, start)(t);
    GenAtReached(r, start, k, GenAt(r, start, k));
    GenAtReached(r, start, k + 1, GenAt(r, start, k));
    GenAtNext(r, start, k);
  }

  /** Without a play the level only follows the generations. */
  lemma LevelLater(r: Rules, start: int, ps: seq<int>, now: int, t: int)
    requires Sorted(ps) && (ps == [] || ps[|ps| - 1] <= now) && now <= t
    ensures var c := ClockOf(r, start);
            && RefillTo(r, After(r, c, ps), c(now)).gens == c(now) <= c(t)
            && Level(r, c, ps, t) == Refill(r, Level(r, c, ps, now), c(t) - c(now))
  {
    var c := ClockOf(r, start);
    ClockMonotone(r, start);
    GensAfter(r, c, ps);
    assert c(now) <= c(t) && (ps != [] ==> c(ps[|ps| - 1]) <= c(now));
    RefillToTwice(r, After(r, c, ps), c(now), c(t));
  }

  /** Until `next` nothing changes; without a `next` nothing ever changes (as long as nobody plays). */
  lemma NothingBeforeNext(r: Rules, start: int, ps: seq<int>, now: int, t: int)
    requires r.mode == Finite && Sorted(ps) && (ps == [] || ps[|ps| - 1] <= now) && now <= t
    ensures var s := StateAt(r, start, ps, now);
            && (s.next.Some? ==> now < s.next.value)
            && (s.next.None? || t < s.next.value ==> StateAt(r, start, ps, t).available == s.available)
  {
    LevelLater(r, start, ps, now, t);
    if Generates(r) {
      NextGeneration(r, start, now, t);
      var c := ClockOf(r, start);
      var v, n := Level(r, c, ps, now), c(t) - c(now);
      if r.genMax.Some? {
        LevelCapped(r, c, ps, now);
        RefillCapped(r, v, n);
        RefillGains(r, v, n);
      }
    }
  }

  /**
   At `next` availability grows exactly when the level is above -genNumber: always
   after a legitimate history, but not when more tokens were played than existed.
   */
  lemma GrowsAtNext(r: Rules, start: int, ps: seq<int>, now: int)
    requires r.mode == Finite && Sorted(ps) && (ps == [] || ps[|ps| - 1] <= now)
    requires StateAt(r, start, ps, now).next.Some?
    ensures var s := StateAt(r, start, ps, now);
            StateAt(r, start, ps, s.next.value).available > s.available
            <==> Level(r, ClockOf(r, start), ps, now) + r.genNumber > 0
  {
    LevelLater(r, start, ps, now, now);
    NextGeneration(r, start, now, now);
    var next := StateAt(r, start, ps, now).next.value;
    assert next == GenAt(r, start, Gens(r, start, now) + 1);
    LevelLater(r, start, ps, now, next);
  }

  /** It may not grow: two tokens played at once where none was there yet, one token every ten units. */
  lemma NextBringsNothing()
    ensures var r := Rules(Finite, None, 0, 0, 1, 10, None);
            var s := StateAt(r, 0, [1, 1], 1);
            s.next == Some(10) && s.available == 0 && StateAt(r, 0, [1, 1], 10).available == 0
  {
    var r, ps := Rules(Finite, None, 0, 0, 1, 10, None), [1, 1];
    var c := ClockOf(r, 0);
    assert ps[..1] == [1] && ps[..1][..0] == [];
    assert c(1) == 0 && c(10) == 1;
    assert After(r, c, ps[..1]) == Meter(-1, 0) && After(r, c, ps) == Meter(-2, 0);
    assert Refill(r, -2, 1) == -1;
  }

  /** After a legitimate history `next`, if any, is the first instant at which availability grows. */
  lemma LegitimateGrowsAtNext(r: Rules, start: int, ps: seq<int>, now: int)
    requires r.mode == Finite && Legitimate(r, start, ps) && (ps == [] || ps[|ps| - 1] <= now) && r.genInitial >= 0
    requires StateAt(r, start, ps, now).next.Some?
    ensures var s := StateAt(r, start, ps, now);
            StateAt(r, start, ps, s.next.value).available > s.available
  {
    if ps == [] {
      var c := ClockOf(r, start);
      if r.genMax.Some? {
        LevelCapped(r, c, ps, now);
      }
      RefillGains(r, Capped(r, r.genInitial), c(now));
    } else {
      NeverNegative(r, start, ps, now);
    }
    GrowsAtNext(r, start, ps, now);
  }
}
