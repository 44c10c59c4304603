/**
 The line diff of internal/adminweb/diff.go: Myers' greedy search over an array of
 furthest-reaching points, with one snapshot of the array per round, a backtrack
 over the snapshots, and the common prefix and suffix trimmed first.
 */
module LineDiff {
  import opened Common
  import opened EditScripts

  // ------------------------------------------------------------ the edit grid

  /**
   Some path from (0, 0) to (x, y) uses exactly `d` horizontal and vertical edges.
   Those edges may leave the |a| by |b| grid, as the search does; a diagonal edge
   needs two equal lines, so there are none outside the grid.
   */
  ghost predicate Reach(a: seq<string>, b: seq<string>, d: nat, x: nat, y: nat)
    decreases x + y
  {
    || (d == 0 && x == 0 && y == 0)
    || (0 < x <= |a| && 0 < y <= |b| && a[x - 1] == b[y - 1] && Reach(a, b, d, x - 1, y - 1))
    || (0 < d && 0 < x && Reach(a, b, d - 1, x - 1, y))
    || (0 < d && 0 < y && Reach(a, b, d - 1, x, y - 1))
  }

  lemma ReachDiag(a: seq<string>, b: seq<string>, d: nat, x: nat, y: nat)
    requires Reach(a, b, d, x, y) && x < |a| && y < |b| && a[x] == b[y]
    ensures Reach(a, b, d, x + 1, y + 1)
  {
  }

  lemma ReachRight(a: seq<string>, b: seq<string>, d: nat, x: nat, y: nat)
    requires Reach(a, b, d, x, y)
    ensures Reach(a, b, d + 1, x + 1, y)
  {
  }

  lemma ReachDown(a: seq<string>, b: seq<string>, d: nat, x: nat, y: nat)
    requires Reach(a, b, d, x, y)
    ensures Reach(a, b, d + 1, x, y + 1)
  {
  }

  /**
   A d-edit point lies on a diagonal x - y == 2 * i - d, where i is the number of
   deletions (horizontal edges) of the path.
   */
  lemma {:induction false} ReachIndex(a: seq<string>, b: seq<string>, d: nat, x: nat, y: nat) returns (i: nat)
    requires Reach(a, b, d, x, y)
    ensures i <= d && x - y == 2 * i - d
    decreases x + y
  {
    if d == 0 && x == 0 && y == 0 {
      i := 0;
    } else if 0 < x <= |a| && 0 < y <= |b| && a[x - 1] == b[y - 1] && Reach(a, b, d, x - 1, y - 1) {
      i := ReachIndex(a, b, d, x - 1, y - 1);
    } else if 0 < d && 0 < x && Reach(a, b, d - 1, x - 1, y) {
      i := ReachIndex(a, b, d - 1, x - 1, y);
      i := i + 1;
    } else {
      i := ReachIndex(a, b, d - 1, x, y - 1);
    }
  }

  function Min(x: int, y: int): int { if x < y then x else y }

  function Excess(x: int, n: int): (e: nat) { if x > n then x - n else 0 }

  /** Edges outside the grid are wasted: pulling a point back inside saves exactly that many. */
  lemma {:induction false} Clip(a: seq<string>, b: seq<string>, d: nat, x: nat, y: nat)
    requires Reach(a, b, d, x, y)
    ensures Excess(x, |a|) + Excess(y, |b|) <= d
    ensures Reach(a, b, d - Excess(x, |a|) - Excess(y, |b|), Min(x, |a|), Min(y, |b|))
    decreases x + y
  {
    if d == 0 && x == 0 && y == 0 {
    } else if 0 < x <= |a| && 0 < y <= |b| && a[x - 1] == b[y - 1] && Reach(a, b, d, x - 1, y - 1) {
    } else if 0 < d && 0 < x && Reach(a, b, d - 1, x - 1, y) {
      Clip(a, b, d - 1, x - 1, y);
    } else {
      Clip(a, b, d - 1, x, y - 1);
    }
  }

  /** Following a script for the rest of both texts reaches the far corner. */
  lemma {:induction false} ScriptReaches(a: seq<string>, b: seq<string>, d: nat, x: nat, y: nat, t: Script)
    requires x <= |a| && y <= |b|
    requires Reach(a, b, d, x, y) && Spells(t, a[x..], b[y..])
    ensures Reach(a, b, d + Cost(t), |a|, |b|)
    decreases |t|
  {
    if t == [] {
      assert x == |a| && y == |b|;
    } else {
      var x', y' := FirstLine(a, b, x, y, t);
      var d' := if t[0].op == Same then d else d + 1;
      match t[0].op {
        case Same => ReachDiag(a, b, d, x, y);
        case Del => ReachRight(a, b, d, x, y);
        case Ins => ReachDown(a, b, d, x, y);
      }
      ScriptReaches(a, b, d', x', y', t[1..]);
    }
  }

  /** What the first line of a script consumes. */
  lemma FirstLine(a: seq<string>, b: seq<string>, x: nat, y: nat, t: Script) returns (x': nat, y': nat)
    requires x <= |a| && y <= |b| && t != [] && Spells(t, a[x..], b[y..])
    ensures x' == (if t[0].op == Ins then x else x + 1) && y' == (if t[0].op == Del then y else y + 1)
    ensures x' <= |a| && y' <= |b| && Spells(t[1..], a[x'..], b[y'..])
    ensures t[0].op == Same ==> a[x] == b[y]
  {
    x', y' := x, y;
    if t[0].op != Ins {
      assert a[x] == a[x..][0] == t[0].text && a[x + 1..] == a[x..][1..] == OldSide(t[1..]);
      x' := x + 1;
    }
    if t[0].op != Del {
      assert b[y] == b[y..][0] == t[0].text && b[y + 1..] == b[y..][1..] == NewSide(t[1..]);
      y' := y + 1;
    }
  }

  // ------------------------------------------------- furthest-reaching points

  /** The diagonal edge of diagonal k that leaves column j exists. */
  predicate Match(a: seq<string>, b: seq<string>, k: int, j: int) {
    0 <= j < |a| && 0 <= j - k < |b| && a[j] == b[j - k]
  }

  /** The end of the run of equal lines that starts at column x of diagonal k. */
  function Snake(a: seq<string>, b: seq<string>, k: int, x: nat): (e: nat)
    ensures x <= e
    ensures forall j :: x <= j < e ==> Match(a, b, k, j)
    ensures !Match(a, b, k, e)
    decreases |a| - x
  {
    if Match(a, b, k, x) then Snake(a, b, k, x + 1) else x
  }

  /** Whether round d reaches its i-th diagonal from above (an insertion) rather than from the left. */
  predicate FromAbove(d: nat, i: nat, left: nat, above: nat) {
    i == 0 || (i != d && left < above)
  }

  /**
   Where round d enters its i-th diagonal, before following equal lines; `left` and
   `above` are the points of round d - 1 on the diagonals before and after it.
   */
  function Entry(d: nat, i: nat, left: nat, above: nat): nat {
    if d == 0 then 0 else if FromAbove(d, i, left, above) then above else left + 1
  }

  /**
   The columns of the points of one round. Point i of round d lies on diagonal
   2 * i - d, where i is the number of deletions on the way to it.
   */
  type Front = seq<nat>

  ghost function At(f: Front, i: int): nat {
    if 0 <= i < |f| then f[i] else 0
  }

  /** Column x is the point the round after `prev` records on its i-th diagonal. */
  ghost predicate Records(a: seq<string>, b: seq<string>, prev: Front, i: nat, x: nat) {
    var d, entry := |prev|, Entry(|prev|, i, At(prev, i - 1), At(prev, i));
    0 <= entry - (2 * i - d) && x == Snake(a, b, 2 * i - d, entry)
  }

  ghost predicate Follows(a: seq<string>, b: seq<string>, prev: Front, next: Front) {
    |next| == |prev| + 1 && forall i {:trigger Records(a, b, prev, i, next[i])} :: 0 <= i < |next| ==>
      Records(a, b, prev, i, next[i])
  }

  /** The fronts of rounds 0, 1, … of the search. */
  ghost predicate Rounds(a: seq<string>, b: seq<string>, fs: seq<Front>) {
    forall d :: 0 <= d < |fs| ==> IsRound(a, b, fs, d)
  }

  ghost predicate IsRound(a: seq<string>, b: seq<string>, fs: seq<Front>, d: nat)
    requires d < |fs|
  {
    Follows(a, b, Before(fs, d), fs[d]) && |fs[d]| == d + 1
  }

  ghost function Before(fs: seq<Front>, d: nat): Front
    requires d <= |fs|
  {
    if d == 0 then [] else fs[d - 1]
  }

  /** The points of a front have no negative coordinate. */
  ghost predicate InQuadrant(f: Front) {
    forall i {:trigger f[i]} :: 0 <= i < |f| ==> 0 <= f[i] - (2 * i - (|f| - 1))
  }

  lemma FrontInQuadrant(a: seq<string>, b: seq<string>, fs: seq<Front>, d: nat)
    requires Rounds(a, b, fs) && d < |fs|
    ensures InQuadrant(fs[d]) && |fs[d]| == d + 1
  {
    assert IsRound(a, b, fs, d);
    forall i {:trigger fs[d][i]} | 0 <= i < |fs[d]|
      ensures 0 <= fs[d][i] - (2 * i - d)
    {
      assert Records(a, b, Before(fs, d), i, fs[d][i]);
    }
  }

  ghost function Recorded(a: seq<string>, b: seq<string>, prev: Front, i: nat): (x: nat)
    requires InQuadrant(prev) && i <= |prev|
    ensures Records(a, b, prev, i, x)
  {
    Snake(a, b, 2 * i - |prev|, Entry(|prev|, i, At(prev, i - 1), At(prev, i)))
  }

  ghost function NextFront(a: seq<string>, b: seq<string>, prev: Front): (f: Front)
    requires InQuadrant(prev)
    ensures Follows(a, b, prev, f)
  {
    seq(|prev| + 1, i requires 0 <= i < |prev| + 1 => Recorded(a, b, prev, i))
  }

  // ---------------------------------- the points of a round are the furthest

  lemma {:induction false} ReachAlong(a: seq<string>, b: seq<string>, d: nat, k: int, x: nat, e: nat)
    requires 0 <= x - k && x <= e && Reach(a, b, d, x, x - k)
    requires forall j :: x <= j < e ==> Match(a, b, k, j)
    ensures Reach(a, b, d, e, e - k)
    decreases e - x
  {
    if x < e {
      assert Match(a, b, k, x);
      ReachDiag(a, b, d, x, x - k);
      ReachAlong(a, b, d, k, x + 1, e);
    }
  }

  /** The recorded point is a d-edit point. */
  lemma {:induction false} PointReached(a: seq<string>, b: seq<string>, fs: seq<Front>, d: nat, i: nat)
    requires Rounds(a, b, fs) && d < |fs| && i < |fs[d]|
    ensures 0 <= fs[d][i] - (2 * i - d) && Reach(a, b, d, fs[d][i], fs[d][i] - (2 * i - d))
    decreases d
  {
    assert IsRound(a, b, fs, d);
    var prev, x, k := Before(fs, d), fs[d][i], 2 * i - d;
    var left, above := At(prev, i - 1), At(prev, i);
    var entry := Entry(d, i, left, above);
    assert Records(a, b, prev, i, x);
    if d > 0 {
      assert IsRound(a, b, fs, d - 1);
      if FromAbove(d, i, left, above) {
        PointReached(a, b, fs, d - 1, i);
        ReachDown(a, b, d - 1, entry, entry - k - 1);
      } else {
        PointReached(a, b, fs, d - 1, i - 1);
        ReachRight(a, b, d - 1, entry - 1, entry - k);
      }
    }
    ReachAlong(a, b, d, k, entry, x);
  }

  /** No d-edit point lies further along its diagonal than the recorded one. */
  lemma {:induction false} PointFurthest(a: seq<string>, b: seq<string>, fs: seq<Front>, d: nat, i: nat, x: nat, y: nat)
    requires Rounds(a, b, fs) && d < |fs| && i <= d && x - y == 2 * i - d && Reach(a, b, d, x, y)
    ensures i < |fs[d]| && x <= fs[d][i]
    decreases x + y
  {
    assert IsRound(a, b, fs, d);
    assert Records(a, b, Before(fs, d), i, fs[d][i]);
    if d == 0 && x == 0 && y == 0 {
    } else if 0 < x <= |a| && 0 < y <= |b| && a[x - 1] == b[y - 1] && Reach(a, b, d, x - 1, y - 1) {
      PointFurthest(a, b, fs, d, i, x - 1, y - 1);
      assert Match(a, b, 2 * i - d, x - 1);
    } else if 0 < d && 0 < x && Reach(a, b, d - 1, x - 1, y) {
      var _ := ReachIndex(a, b, d - 1, x - 1, y);
      PointFurthest(a, b, fs, d - 1, i - 1, x - 1, y);
    } else {
      var _ := ReachIndex(a, b, d - 1, x, y - 1);
      PointFurthest(a, b, fs, d - 1, i, x, y - 1);
    }
  }

  /** Point i of a front is at or beyond the far corner. */
  ghost predicate Beyond(a: seq<string>, b: seq<string>, f: Front, i: int) {
    0 <= i < |f| && f[i] >= |a| && f[i] - (2 * i - (|f| - 1)) >= |b|
  }

  ghost predicate Hit(a: seq<string>, b: seq<string>, f: Front) {
    exists i :: Beyond(a, b, f, i)
  }

  /** A d-edit path to the far corner makes round d hit. */
  lemma ReachHits(a: seq<string>, b: seq<string>, fs: seq<Front>, d: nat)
    requires Rounds(a, b, fs) && d < |fs| && Reach(a, b, d, |a|, |b|)
    ensures Hit(a, b, fs[d])
  {
    var i := ReachIndex(a, b, d, |a|, |b|);
    PointFurthest(a, b, fs, d, i, |a|, |b|);
    assert IsRound(a, b, fs, d);
    assert Beyond(a, b, fs[d], i);
  }

  /** A script with d edits makes round d hit. */
  lemma ScriptHits(a: seq<string>, b: seq<string>, fs: seq<Front>, t: Script)
    requires Spells(t, a, b) && Rounds(a, b, fs)
    ensures Cost(t) <= |a| + |b|
    ensures Cost(t) < |fs| ==> Hit(a, b, fs[Cost(t)])
  {
    assert a[0..] == a && b[0..] == b;
    ScriptReaches(a, b, 0, 0, 0, t);
    CostAtMostLengths(t);
    if Cost(t) < |fs| {
      ReachHits(a, b, fs, Cost(t));
    }
  }

  /** The first hit is the far corner itself, although points may leave the grid. */
  lemma FirstHitIsCorner(a: seq<string>, b: seq<string>, fs: seq<Front>, d: nat) returns (i: nat)
    requires Rounds(a, b, fs) && d < |fs| && Hit(a, b, fs[d])
    requires NoHit(a, b, fs[..d])
    ensures i < |fs[d]| == d + 1 && 2 * i - d == |a| - |b| && fs[d][i] == |a|
  {
    assert IsRound(a, b, fs, d);
    i :| Beyond(a, b, fs[d], i);
    var x, y := fs[d][i], fs[d][i] - (2 * i - d);
    PointReached(a, b, fs, d, i);
    Clip(a, b, d, x, y);
    var e := d - Excess(x, |a|) - Excess(y, |b|);
    ReachHits(a, b, fs, e);
  }

  // ------------------------------------------------------------ the algorithm

  /** Array `v` holds the points of a round (before round 0, the initial 0 next to the middle). */
  ghost predicate Holds(offset: nat, v: seq<int>, f: Front) {
    && |v| == 2 * offset + 2 && |f| <= offset + 1
    && (f == [] ==> 0 < offset && v[offset + 1] == 0)
    && forall i {:trigger f[i]} :: 0 <= i < |f| ==> v[offset + 2 * i - (|f| - 1)] == f[i]
  }

  /** The point round d records on diagonal k, from the points of the round before in `v`. */
  method Advance(a: seq<string>, b: seq<string>, v: array<int>, d: nat, k: int, ghost i: nat, ghost left: nat,
                 ghost above: nat)
    returns (x: nat)
    requires 0 < |a| + |b| && d <= |a| + |b| && v.Length == 2 * (|a| + |b|) + 2 && i <= d && k == 2 * i - d
    requires d == 0 ==> v[|a| + |b| + 1] == 0
    requires 0 < i ==> v[|a| + |b| + k - 1] == left
    requires i < d ==> v[|a| + |b| + k + 1] == above
    requires 0 <= Entry(d, i, left, above) - k
    ensures x == Snake(a, b, k, Entry(d, i, left, above))
  {
    var offset := |a| + |b|;
    if k + d == 0 || (k != d && v[offset + k - 1] < v[offset + k + 1]) {
      x := v[offset + k + 1];
    } else {
      x := v[offset + k - 1] + 1;
    }
    assert x == Entry(d, i, left, above);
    var y := x - k;
    while x < |a| && y < |b| && a[x] == b[y]
      invariant y == x - k && 0 <= y
      invariant Snake(a, b, k, x) == Snake(a, b, k, Entry(d, i, left, above))
      decreases |a| - x
    {
      assert Match(a, b, k, x);
      x, y := x + 1, y + 1;
    }
  }

  /** Records the point of one diagonal in the array. */
  method Record(a: seq<string>, b: seq<string>, v: array<int>, d: nat, k: int, ghost i: nat, ghost prev: Front)
    returns (x: nat)
    requires 0 < |a| + |b| && d == |prev| <= |a| + |b| && v.Length == 2 * (|a| + |b|) + 2 && i <= d && k == 2 * i - d
    requires d == 0 ==> v[|a| + |b| + 1] == 0
    requires 0 < i ==> v[|a| + |b| + k - 1] == prev[i - 1]
    requires i < d ==> v[|a| + |b| + k + 1] == prev[i]
    requires exists x :: Records(a, b, prev, i, x)
    modifies v
    ensures Records(a, b, prev, i, x) && v[|a| + |b| + k] == x
    ensures forall c :: 0 <= c < v.Length && c != |a| + |b| + k ==> v[c] == old(v[c])
  {
    x := Advance(a, b, v, d, k, i, At(prev, i - 1), At(prev, i));
    v[|a| + |b| + k] := x;
  }

  /** One round of the search: `hit` when a recorded point is at or beyond the far corner. */
  method Round(a: seq<string>, b: seq<string>, v: array<int>, d: nat, ghost prev: Front, ghost next: Front)
    returns (hit: bool)
    requires 0 < |a| + |b| && d == |prev| <= |a| + |b| && Follows(a, b, prev, next)
    requires Holds(|a| + |b|, v[..], prev)
    modifies v
    ensures hit <==> Hit(a, b, next)
    ensures !hit ==> Holds(|a| + |b|, v[..], next)
  {
    var offset := |a| + |b|;
    var k := 0 - d;
    ghost var i: nat := 0;
    while k <= d
      invariant i <= d + 1 && k == 2 * i - d
      invariant d == 0 && i == 0 ==> v[offset + 1] == 0
      invariant forall j {:trigger prev[j]} :: 0 <= j < d ==> v[offset + 2 * j - (d - 1)] == prev[j]
      invariant forall j {:trigger next[j]} :: 0 <= j < i ==> v[offset + 2 * j - d] == next[j]
      invariant forall j :: 0 <= j < i ==> !Beyond(a, b, next, j)
      decreases d - k
    {
      assert Records(a, b, prev, i, next[i]);
      var x := Record(a, b, v, d, k, i, prev);
      if x >= |a| && x - k >= |b| {
        assert Beyond(a, b, next, i);
        return true;
      }
      k := k + 2;
      i := i + 1;
    }
    hit := false;
  }

  /** One snapshot per round, of the array at its start. */
  ghost predicate Traced(a: seq<string>, b: seq<string>, fs: seq<Front>, trace: seq<seq<int>>) {
    && |fs| == |trace| <= |a| + |b| + 1 && Rounds(a, b, fs)
    && forall e :: 0 <= e < |trace| ==> Holds(|a| + |b|, trace[e], Before(fs, e))
  }

  ghost predicate NoHit(a: seq<string>, b: seq<string>, fs: seq<Front>) {
    forall e :: 0 <= e < |fs| ==> !Hit(a, b, fs[e])
  }

  /** The rounds can always be continued. */
  lemma ExtendRounds(a: seq<string>, b: seq<string>, fs: seq<Front>) returns (next: Front)
    requires Rounds(a, b, fs)
    ensures Follows(a, b, Before(fs, |fs|), next) && |Before(fs, |fs|)| == |fs|
    ensures Rounds(a, b, fs + [next])
  {
    var d := |fs|;
    if d > 0 {
      FrontInQuadrant(a, b, fs, d - 1);
    }
    next := NextFront(a, b, Before(fs, d));
    var gs := fs + [next];
    forall e | 0 <= e < |gs|
      ensures IsRound(a, b, gs, e)
    {
      if e < d {
        assert IsRound(a, b, fs, e);
      }
      assert Before(gs, e) == Before(fs, e);
    }
  }

  lemma ExtendTrace(a: seq<string>, b: seq<string>, fs: seq<Front>, trace: seq<seq<int>>, next: Front, snap: seq<int>)
    requires Traced(a, b, fs, trace) && |fs| <= |a| + |b| && Rounds(a, b, fs + [next])
    requires Holds(|a| + |b|, snap, Before(fs, |fs|))
    ensures Traced(a, b, fs + [next], trace + [snap])
  {
    forall e | 0 <= e < |trace| + 1
      ensures Holds(|a| + |b|, (trace + [snap])[e], Before(fs + [next], e))
    {
      assert Before(fs + [next], e) == Before(fs, e);
      assert e < |trace| ==> Holds(|a| + |b|, trace[e], Before(fs, e));
    }
  }

  /** The forward search: a snapshot per round, until a round hits or the bound is passed. */
  method Search(a: seq<string>, b: seq<string>, maxD: int)
    returns (found: bool, trace: seq<seq<int>>, ghost fs: seq<Front>)
    requires 0 < |a| + |b|
    ensures Traced(a, b, fs, trace)
    ensures found ==> 0 < |fs| <= maxD + 1 && Hit(a, b, fs[|fs| - 1]) && NoHit(a, b, fs[..|fs| - 1])
    ensures !found ==> !Within(a, b, maxD)
  {
    var n, m := |a|, |b|;
    var v := new int[2 * (n + m) + 2](_ => 0);
    trace, found, fs := [], false, [];
    var d := 0;
    while d <= n + m && d <= maxD
      invariant 0 <= d <= n + m + 1 && |fs| == d && Traced(a, b, fs, trace) && NoHit(a, b, fs)
      invariant Holds(n + m, v[..], Before(fs, d))
      decreases n + m + 1 - d
    {
      ghost var next := ExtendRounds(a, b, fs);
      ExtendTrace(a, b, fs, trace, next, v[..]);
      trace := trace + [v[..]];
      found := Round(a, b, v, d, Before(fs, d), next);
      assert (fs + [next])[..d] == fs;
      fs := fs + [next];
      if found {
        return;
      }
      d := d + 1;
    }
    forall t | Spells(t, a, b)
      ensures Cost(t) > maxD
    {
      ScriptHits(a, b, fs, t);
    }
  }

  /** In every block of changes the deletions come before the insertions. */
  ghost predicate DeletionsFirst(s: Script) {
    forall i :: 0 <= i < |s| - 1 && s[i].op == Ins ==> s[i + 1].op != Del
  }

  /** The same, read backwards. */
  ghost predicate InsertionsFirst(rev: Script) {
    forall s {:trigger Unsealed(s)} :: Unsealed(s) ==>
      forall i {:trigger rev[i]} :: 0 <= i < |rev| - 1 && rev[i].op == Del ==> rev[i + 1].op != Ins
  }

  lemma OneMoreLine(rev: Script, l: DiffLine)
    requires InsertionsFirst(rev) && (l.op == Ins ==> !EndsInDel(rev))
    ensures InsertionsFirst(rev + [l]) && (EndsInDel(rev + [l]) <==> l.op == Del)
  {
    assert Unsealed(Seal);
  }

  predicate EndsInDel(rev: Script) { rev != [] && rev[|rev| - 1].op == Del }

  lemma BackwardsFirst(rev: Script)
    requires InsertionsFirst(rev)
    ensures DeletionsFirst(Rev(rev))
  {
    var s := Rev(rev);
    assert Unsealed(Seal);
    forall i | 0 <= i < |s| - 1 && s[i].op == Ins
      ensures s[i + 1].op != Del
    {
      assert s[i + 1] == rev[|rev| - 2 - i] && s[i] == rev[|rev| - 2 - i + 1];
    }
  }

  /** The next round goes to the right from point i, as that of the next diagonal is no further. */
  ghost predicate GoesRight(f: Front, i: int) { 0 <= i < |f| && (i + 1 == |f| || f[i] >= f[i + 1]) }

  /** It does not from a point that was entered from above without equal lines since. */
  lemma EnteredFromAbove(a: seq<string>, b: seq<string>, prev: Front, f: Front, i: nat)
    requires Follows(a, b, prev, f)
    ensures i < |prev| && f[i] == prev[i] ==> !GoesRight(f, i)
  {
    if i < |prev| {
      assert Records(a, b, prev, i + 1, f[i + 1]);
    }
  }

  /** The diagonal a round came from to its i-th diagonal, k, and the point it left there. */
  method Previous(a: seq<string>, b: seq<string>, vv: seq<int>, d: nat, k: int, ghost prev: Front, ghost i: nat,
                  ghost x: nat)
    returns (prevK: int, prevX: int, ghost entry: nat)
    requires d == |prev| <= |a| + |b| && i <= d && k == 2 * i - d && Holds(|a| + |b|, vv, prev)
             && Records(a, b, prev, i, x)
    ensures 0 <= entry - k && entry <= x && forall j :: entry <= j < x ==> Match(a, b, k, j)
    ensures d == 0 ==> prevX == entry == 0 && prevK == 1
    ensures d > 0 ==> || (prevK == k + 1 && i < d && prevX == entry == prev[i])
                      || (prevK == k - 1 && 0 < i && prevX == entry - 1 == prev[i - 1] && GoesRight(prev, i - 1))
  {
    var offset := |a| + |b|;
    assert 0 < i ==> vv[offset + k - 1] == prev[i - 1];
    assert i < d ==> vv[offset + k + 1] == prev[i];
    if k + d == 0 || (k != d && vv[offset + k - 1] < vv[offset + k + 1]) {
      prevK := k + 1;
    } else {
      prevK := k - 1;
    }
    prevX := vv[offset + prevK];
    entry := Entry(d, i, At(prev, i - 1), At(prev, i));
  }

  /** The lines collected so far, read backwards, turn the rest of `a` from x into the rest of `b` from y. */
  ghost predicate Collected(a: seq<string>, b: seq<string>, x: int, y: int, rev: Script) {
    && 0 <= x <= |a| && 0 <= y <= |b|
    && Spells(Rev(rev), a[x..], b[y..]) && Numbered(Rev(rev), x, y)
  }

  lemma CollectSame(a: seq<string>, b: seq<string>, x: nat, y: nat, rev: Script)
    requires Collected(a, b, x + 1, y + 1, rev) && a[x] == b[y]
    ensures var r := rev + [DiffLine(Same, a[x], x + 1, y + 1)];
            Collected(a, b, x, y, r) && Cost(Rev(r)) == Cost(Rev(rev))
  {
    assert Rev(rev + [DiffLine(Same, a[x], x + 1, y + 1)])[1..] == Rev(rev);
  }

  lemma CollectDel(a: seq<string>, b: seq<string>, x: nat, y: nat, rev: Script)
    requires Collected(a, b, x + 1, y, rev)
    ensures var r := rev + [DiffLine(Del, a[x], x + 1, 0)];
            Collected(a, b, x, y, r) && Cost(Rev(r)) == Cost(Rev(rev)) + 1
  {
    assert Rev(rev + [DiffLine(Del, a[x], x + 1, 0)])[1..] == Rev(rev);
  }

  lemma CollectIns(a: seq<string>, b: seq<string>, x: nat, y: nat, rev: Script)
    requires Collected(a, b, x, y + 1, rev)
    ensures var r := rev + [DiffLine(Ins, b[y], 0, y + 1)];
            Collected(a, b, x, y, r) && Cost(Rev(r)) == Cost(Rev(rev)) + 1
  {
    assert Rev(rev + [DiffLine(Ins, b[y], 0, y + 1)])[1..] == Rev(rev);
  }

  /** Walks back over the equal lines of diagonal k, from column x0 to the entry point of the round. */
  method WalkBack(a: seq<string>, b: seq<string>, ghost entry: nat, k: int, x0: nat, rev0: Script, prevX: int,
                  prevY: int)
    returns (x: nat, rev: Script)
    requires entry <= x0 && 0 <= entry - k && prevX <= entry && prevY <= entry - k
    requires prevX == entry || prevY == entry - k
    requires forall j :: entry <= j < x0 ==> Match(a, b, k, j)
    requires Collected(a, b, x0, x0 - k, rev0) && InsertionsFirst(rev0)
    ensures x == entry && Collected(a, b, x, x - k, rev) && Cost(Rev(rev)) == Cost(Rev(rev0))
    ensures InsertionsFirst(rev) && (EndsInDel(rev) ==> EndsInDel(rev0) && x == x0)
  {
    x, rev := x0, rev0;
    var y := x - k;
    while x > prevX && y > prevY
      invariant entry <= x <= x0 && y == x - k
      invariant Collected(a, b, x, y, rev) && Cost(Rev(rev)) == Cost(Rev(rev0))
      invariant InsertionsFirst(rev) && (EndsInDel(rev) ==> EndsInDel(rev0) && x == x0)
    {
      x, y := x - 1, y - 1;
      assert Match(a, b, k, x);
      CollectSame(a, b, x, y, rev);
      OneMoreLine(rev, DiffLine(Same, a[x], x + 1, y + 1));
      rev := rev + [DiffLine(Same, a[x], x + 1, y + 1)];
    }
  }

  /** Point i of the front is on the path being walked back, at (x, y). */
  ghost predicate OnPath(f: Front, i: nat, x: int, y: int) {
    i < |f| && f[i] == x && x - y == 2 * i - (|f| - 1)
  }

  /** One step of the backtrack: from the point of round d to the point of round d - 1 it came from. */
  method StepBack(a: seq<string>, b: seq<string>, vv: seq<int>, d: nat, ghost prev: Front, x0: nat, y0: nat,
                  rev0: Script, ghost i: nat)
    returns (x: nat, y: nat, rev: Script, ghost i': nat)
    requires d == |prev| <= |a| + |b| && InQuadrant(prev) && i <= d && x0 - y0 == 2 * i - d
    requires Holds(|a| + |b|, vv, prev) && Records(a, b, prev, i, x0) && Collected(a, b, x0, y0, rev0)
    requires InsertionsFirst(rev0) && (EndsInDel(rev0) && i < d ==> x0 != prev[i])
    ensures Collected(a, b, x, y, rev)
    ensures InsertionsFirst(rev) && (EndsInDel(rev) && d > 0 ==> GoesRight(prev, i'))
    ensures if d == 0 then x == 0 && y == 0 else OnPath(prev, i', x, y)
    ensures Cost(Rev(rev)) == Cost(Rev(rev0)) + if d == 0 then 0 else 1
  {
    var k := x0 - y0;
    var prevK, prevX, entry := Previous(a, b, vv, d, k, prev, i, x0);
    var prevY := prevX - prevK;
    x, rev := WalkBack(a, b, entry, k, x0, rev0, prevX, prevY);
    y := x - k;
    i' := i;
    if d == 0 {
      return;
    }
    if x == prevX {
      y := y - 1;
      CollectIns(a, b, x, y, rev);
      OneMoreLine(rev, DiffLine(Ins, b[y], 0, y + 1));
      rev := rev + [DiffLine(Ins, b[y], 0, y + 1)];
    } else {
      x := x - 1;
      CollectDel(a, b, x, y, rev);
      OneMoreLine(rev, DiffLine(Del, a[x], x + 1, 0));
      rev := rev + [DiffLine(Del, a[x], x + 1, 0)];
      i' := i - 1;
    }
  }

  /** Walks the snapshots backwards, collecting the script in reverse. */
  method Backtrack(a: seq<string>, b: seq<string>, trace: seq<seq<int>>, ghost fs: seq<Front>, ghost deletions: nat)
    returns (out: Script)
    requires 0 < |a| + |b| && 0 < |fs| && Traced(a, b, fs, trace)
    requires OnPath(fs[|fs| - 1], deletions, |a|, |b|)
    ensures Spells(out, a, b) && Numbered(out, 0, 0) && Cost(out) == |trace| - 1 && DeletionsFirst(out)
  {
    var rev: Script := [];
    var x, y := |a|, |b|;
    var d := |trace| - 1;
    ghost var i := deletions;
    while d >= 0 && (x > 0 || y > 0)
      invariant -1 <= d < |trace| && Collected(a, b, x, y, rev)
      invariant if d == -1 then x == 0 && y == 0 else OnPath(fs[d], i, x, y)
      invariant Cost(Rev(rev)) == |trace| - 1 - (if d < 0 then 0 else d)
      invariant InsertionsFirst(rev) && (EndsInDel(rev) && d >= 0 ==> GoesRight(fs[d], i))
      decreases d
    {
      RoundTraced(a, b, fs, trace, d, i);
      EnteredFromAbove(a, b, Before(fs, d), fs[d], i);
      x, y, rev, i := StepBack(a, b, trace[d], d, Before(fs, d), x, y, rev, i);
      d := d - 1;
    }
    if d >= 0 {
      assert IsRound(a, b, fs, d);
      PointReached(a, b, fs, d, i);
      assert d == 0;
    }
    assert a[0..] == a && b[0..] == b;
    BackwardsFirst(rev);
    out := Reverse(rev);
  }

  /** What a snapshot tells of the round it was taken for. */
  lemma RoundTraced(a: seq<string>, b: seq<string>, fs: seq<Front>, trace: seq<seq<int>>, d: nat, i: nat)
    requires Traced(a, b, fs, trace) && d < |trace| && i < |fs[d]|
    ensures d == |Before(fs, d)| <= |a| + |b| && |fs[d]| == d + 1 && InQuadrant(Before(fs, d))
    ensures Holds(|a| + |b|, trace[d], Before(fs, d)) && Records(a, b, Before(fs, d), i, fs[d][i])
    ensures Follows(a, b, Before(fs, d), fs[d])
  {
    assert IsRound(a, b, fs, d);
    if d > 0 {
      FrontInQuadrant(a, b, fs, d - 1);
    }
  }

  method Reverse(rev: Script) returns (out: Script)
    ensures out == Rev(rev)
  {
    out := [];
    for i := 0 to |rev|
      invariant out == Rev(rev)[..i]
    {
      out := out + [rev[|rev| - 1 - i]];
    }
  }

  /** All of `a` deleted, then all of `b` inserted. */
  function Replaced(a: seq<string>, b: seq<string>): Script {
    Deletions(a) + Insertions(b)
  }

  function Deletions(a: seq<string>): Script {
    seq(|a|, i requires 0 <= i < |a| => DiffLine(Del, a[i], i + 1, 0))
  }

  function Insertions(b: seq<string>): Script {
    seq(|b|, i requires 0 <= i < |b| => DiffLine(Ins, b[i], 0, i + 1))
  }

  lemma {:induction false} DeletionsFrom(a: seq<string>, i: nat)
    requires i <= |a|
    ensures Spells(Deletions(a)[i..], a[i..], []) && Numbered(Deletions(a)[i..], i, 0)
    ensures Cost(Deletions(a)[i..]) == |a| - i
    decreases |a| - i
  {
    if i < |a| {
      DeletionsFrom(a, i + 1);
      assert Deletions(a)[i..][1..] == Deletions(a)[i + 1..];
    }
  }

  lemma {:induction false} InsertionsFrom(b: seq<string>, i: nat, j: nat)
    requires i <= |b|
    ensures Spells(Insertions(b)[i..], [], b[i..]) && Numbered(Insertions(b)[i..], j, i)
    ensures Cost(Insertions(b)[i..]) == |b| - i
    decreases |b| - i
  {
    if i < |b| {
      InsertionsFrom(b, i + 1, j);
      assert Insertions(b)[i..][1..] == Insertions(b)[i + 1..];
    }
  }

  lemma ReplacedSpells(a: seq<string>, b: seq<string>)
    ensures Spells(Replaced(a, b), a, b) && Numbered(Replaced(a, b), 0, 0)
    ensures Cost(Replaced(a, b)) == |a| + |b|
  {
    DeletionsFrom(a, 0);
    InsertionsFrom(b, 0, |a|);
    assert Deletions(a)[0..] == Deletions(a) && Insertions(b)[0..] == Insertions(b);
    assert a[0..] == a && b[0..] == b;
    assert Unsealed(Seal);
    Join(Deletions(a), a, [], 0, 0, Insertions(b), [], b, |a|, 0);
    assert a + [] == a && [] + b == b;
  }

  method Replace(a: seq<string>, b: seq<string>) returns (out: Script)
    ensures out == Replaced(a, b)
  {
    out := [];
    for i := 0 to |a|
      invariant out == Deletions(a)[..i]
    {
      out := out + [DiffLine(Del, a[i], i + 1, 0)];
    }
    for i := 0 to |b|
      invariant out == Deletions(a) + Insertions(b)[..i]
    {
      out := out + [DiffLine(Ins, b[i], 0, i + 1)];
    }
  }

  method Myers(a: seq<string>, b: seq<string>, maxD: int) returns (out: Script)
    ensures Spells(out, a, b) && Numbered(out, 0, 0)
    ensures Within(a, b, maxD) ==> Minimal(out, a, b)
    ensures !Within(a, b, maxD) ==> out == Replaced(a, b)
    ensures DeletionsFirst(out)
  {
    ReplacedSpells(a, b);
    ReplacedMeans(a, b);
    if |a| == 0 || |b| == 0 {
      out := Replace(a, b);
      forall t | Spells(t, a, b)
        ensures Cost(out) <= Cost(t)
      {
        CostAtLeastDifference(t);
      }
      return;
    }
    var found, trace, fs := Search(a, b, maxD);
    if !found {
      out := Replace(a, b);
      return;
    }
    ghost var i := FirstHitIsCorner(a, b, fs, |fs| - 1);
    out := Backtrack(a, b, trace, fs, i);
    forall t | Spells(t, a, b)
      ensures Cost(out) <= Cost(t)
    {
      ScriptHits(a, b, fs, t);
    }
    assert Minimal(out, a, b) && Cost(out) <= maxD;
  }

  // ---------------------------------------------------------- the whole diff

  /** The number of leading lines two texts share. */
  function CommonPrefix(a: seq<string>, b: seq<string>): (p: nat)
    ensures p <= |a| && p <= |b| && a[..p] == b[..p]
    ensures p < |a| && p < |b| ==> a[p] != b[p]
  {
    if a != [] && b != [] && a[0] == b[0] then
      var p := CommonPrefix(a[1..], b[1..]);
      assert a[..p + 1] == [a[0]] + a[1..][..p] && b[..p + 1] == [b[0]] + b[1..][..p];
      p + 1
    else 0
  }

  lemma CommonPrefixFrom(a: seq<string>, b: seq<string>, i: nat)
    requires i <= |a| && i <= |b|
    ensures CommonPrefix(a[i..], b[i..]) ==
            if i < |a| && i < |b| && a[i] == b[i] then 1 + CommonPrefix(a[i + 1..], b[i + 1..]) else 0
  {
    if i < |a| && i < |b| {
      assert a[i..][1..] == a[i + 1..] && b[i..][1..] == b[i + 1..];
    }
  }

  /** `count` kept lines, from line i of the old text and line j of the new one. */
  function Kept(a: seq<string>, i: nat, j: nat, count: nat): (s: Script)
    requires i + count <= |a|
    ensures |s| == count
  {
    seq(count, c requires 0 <= c < count => DiffLine(Same, a[i + c], i + c + 1, j + c + 1))
  }

  function ShiftLine(l: DiffLine, p: nat): DiffLine {
    l.(a := if l.a > 0 then l.a + p else l.a, b := if l.b > 0 then l.b + p else l.b)
  }

  function Shift(s: Script, p: nat): (r: Script)
    ensures |r| == |s|
  {
    seq(|s|, i requires 0 <= i < |s| => ShiftLine(s[i], p))
  }

  lemma {:induction false} KeptSpells(a: seq<string>, i: nat, j: nat, count: nat)
    requires i + count <= |a|
    ensures Spells(Kept(a, i, j, count), a[i..i + count], a[i..i + count])
    ensures Numbered(Kept(a, i, j, count), i, j) && Cost(Kept(a, i, j, count)) == 0
    decreases count
  {
    if count > 0 {
      KeptSpells(a, i + 1, j + 1, count - 1);
      assert Kept(a, i, j, count)[1..] == Kept(a, i + 1, j + 1, count - 1);
      assert a[i..i + count] == [a[i]] + a[i + 1..i + count];
    }
  }

  lemma {:induction false} ShiftSides(s: Script, p: nat)
    ensures OldSide(Shift(s, p)) == OldSide(s) && NewSide(Shift(s, p)) == NewSide(s) && Cost(Shift(s, p)) == Cost(s)
  {
    if s != [] {
      assert Shift(s, p)[1..] == Shift(s[1..], p);
      ShiftSides(s[1..], p);
    }
  }

  lemma {:induction false} ShiftNumbered(s: Script, p: nat, i: nat, j: nat)
    requires Numbered(s, i, j)
    ensures Numbered(Shift(s, p), i + p, j + p)
  {
    if s != [] {
      assert Shift(s, p)[1..] == Shift(s[1..], p);
      match s[0].op
      case Same => ShiftNumbered(s[1..], p, i + 1, j + 1);
      case Del => ShiftNumbered(s[1..], p, i + 1, j);
      case Ins => ShiftNumbered(s[1..], p, i, j + 1);
    }
  }

  /** The diff assembled around a script for the lines between the common prefix and suffix. */
  function Assembled(a: seq<string>, b: seq<string>, pre: nat, suf: nat, mid: Script): Script
    requires pre + suf <= |a| && pre + suf <= |b|
  {
    Kept(a, 0, 0, pre) + Shift(mid, pre) + Kept(a, |a| - suf, |b| - suf, suf)
  }

  lemma Cut<T>(a: seq<T>, pre: nat, suf: nat)
    requires pre + suf <= |a|
    ensures a == a[..pre] + a[pre..|a| - suf] + a[|a| - suf..]
  {
  }

  lemma AssembledSpells(a: seq<string>, b: seq<string>, pre: nat, suf: nat, mid: Script)
    requires pre + suf <= |a| && pre + suf <= |b|
    requires a[..pre] == b[..pre] && a[|a| - suf..] == b[|b| - suf..]
    requires Turns(mid, a[pre..|a| - suf], b[pre..|b| - suf], 0, 0)
    ensures Turns(Assembled(a, b, pre, suf, mid), a, b, 0, 0)
    ensures Cost(Assembled(a, b, pre, suf, mid)) == Cost(mid)
  {
    PrefixTurns(a, pre);
    MiddleTurns(mid, a[pre..|a| - suf], b[pre..|b| - suf], pre);
    SuffixTurns(a, |a| - suf, |b| - suf, suf);
    JoinWhole(a, b, pre, suf, Kept(a, 0, 0, pre), Shift(mid, pre), Kept(a, |a| - suf, |b| - suf, suf));
  }

  lemma JoinWhole(a: seq<string>, b: seq<string>, pre: nat, suf: nat, p: Script, m: Script, q: Script)
    requires pre + suf <= |a| && pre + suf <= |b|
    requires a[..pre] == b[..pre] && a[|a| - suf..] == b[|b| - suf..]
    requires Turns(p, a[..pre], a[..pre], 0, 0)
    requires Turns(m, a[pre..|a| - suf], b[pre..|b| - suf], pre, pre)
    requires Turns(q, a[|a| - suf..], a[|a| - suf..], |a| - suf, |b| - suf)
    ensures Turns(p + m + q, a, b, 0, 0)
    ensures Cost(p + m + q) == Cost(p) + Cost(m) + Cost(q)
  {
    JoinThree(p, a[..pre], m, a[pre..|a| - suf], b[pre..|b| - suf], pre, q, a[|a| - suf..], |a| - suf, |b| - suf);
    Cut(a, pre, suf);
    Cut(b, pre, suf);
  }

  lemma PrefixTurns(a: seq<string>, n: nat)
    requires n <= |a|
    ensures Turns(Kept(a, 0, 0, n), a[..n], a[..n], 0, 0) && Cost(Kept(a, 0, 0, n)) == 0
  {
    KeptSpells(a, 0, 0, n);
    assert a[0..0 + n] == a[..n];
  }

  lemma SuffixTurns(a: seq<string>, i: nat, j: nat, n: nat)
    requires i + n == |a|
    ensures Turns(Kept(a, i, j, n), a[i..], a[i..], i, j) && Cost(Kept(a, i, j, n)) == 0
  {
    KeptSpells(a, i, j, n);
    assert a[i..i + n] == a[i..];
  }

  lemma MiddleTurns(mid: Script, ma: seq<string>, mb: seq<string>, pre: nat)
    requires Turns(mid, ma, mb, 0, 0)
    ensures Turns(Shift(mid, pre), ma, mb, pre, pre) && Cost(Shift(mid, pre)) == Cost(mid)
  {
    assert Unsealed(Seal);
    ShiftSides(mid, pre);
    ShiftNumbered(mid, pre, 0, 0);
  }

  lemma JoinThree(p: Script, pt: seq<string>, m: Script, ma: seq<string>, mb: seq<string>, pre: nat,
                  q: Script, qt: seq<string>, i: nat, j: nat)
    requires pre == |pt| && i == pre + |ma| && j == pre + |mb|
    requires Turns(p, pt, pt, 0, 0) && Turns(m, ma, mb, pre, pre) && Turns(q, qt, qt, i, j)
    ensures Turns(p + m + q, pt + ma + qt, pt + mb + qt, 0, 0)
    ensures Cost(p + m + q) == Cost(p) + Cost(m) + Cost(q)
  {
    Join(p, pt, pt, 0, 0, m, ma, mb, pre, pre);
    Join(p + m, pt + ma, pt + mb, 0, 0, q, qt, qt, i, j);
  }

  /** No script for the whole texts is cheaper than the cheapest one for the lines between. */
  lemma TrimmedScript(a: seq<string>, b: seq<string>, pre: nat, suf: nat, s: Script) returns (t: Script)
    requires pre + suf <= |a| && pre + suf <= |b| && Spells(s, a, b)
    requires a[..pre] == b[..pre] && a[|a| - suf..] == b[|b| - suf..]
    ensures Spells(t, a[pre..|a| - suf], b[pre..|b| - suf]) && Cost(t) <= Cost(s)
  {
    var ma, mb, q := a[pre..|a| - suf], b[pre..|b| - suf], a[|a| - suf..];
    assert a == a[..pre] + (ma + q) && b == a[..pre] + (mb + q);
    t := TrimPrefix(s, a[..pre], ma + q, mb + q);
    t := TrimSuffix(t, ma, mb, q);
  }

  /** The lengths of the prefix and suffix the diff takes off. */
  function Trimmed(a: seq<string>, b: seq<string>): (r: (nat, nat))
    ensures r.0 + r.1 <= |a| && r.0 + r.1 <= |b|
  {
    var pre := CommonPrefix(a, b);
    (pre, CommonPrefix(Rev(a[pre..]), Rev(b[pre..])))
  }

  /** What is taken off at the front is all the texts share there, and at the back all they share of the rest. */
  lemma TrimmedLongest(a: seq<string>, b: seq<string>)
    ensures var (pre, suf) := Trimmed(a, b); SharedEnds(a, b, pre, suf)
  {
    var (pre, suf) := Trimmed(a, b);
    var ra, rb := Rev(a[pre..]), Rev(b[pre..]);
    assert CommonPrefix(ra, rb) == suf;
    TrimmedCommon(a, b);
  }

  method CountPrefix(a: seq<string>, b: seq<string>) returns (pre: nat)
    ensures pre == CommonPrefix(a, b)
  {
    pre := 0;
    assert a[0..] == a && b[0..] == b;
    while pre < |a| && pre < |b| && a[pre] == b[pre]
      invariant pre <= |a| && pre <= |b|
      invariant pre + CommonPrefix(a[pre..], b[pre..]) == CommonPrefix(a, b)
    {
      CommonPrefixFrom(a, b, pre);
      pre := pre + 1;
    }
    CommonPrefixFrom(a, b, pre);
  }

  method CountSuffix(a: seq<string>, b: seq<string>, pre: nat) returns (suf: nat)
    requires pre <= |a| && pre <= |b|
    ensures suf == CommonPrefix(Rev(a[pre..]), Rev(b[pre..]))
  {
    var n, m := |a|, |b|;
    suf := 0;
    ghost var ra, rb := Rev(a[pre..]), Rev(b[pre..]);
    assert ra[0..] == ra && rb[0..] == rb;
    while suf < n - pre && suf < m - pre && a[n - 1 - suf] == b[m - 1 - suf]
      invariant suf <= |ra| && suf <= |rb|
      invariant suf + CommonPrefix(ra[suf..], rb[suf..]) == CommonPrefix(ra, rb)
    {
      CommonSuffixFrom(a, b, pre, ra, rb, suf);
      suf := suf + 1;
    }
    CommonSuffixFrom(a, b, pre, ra, rb, suf);
  }

  lemma CommonSuffixFrom(a: seq<string>, b: seq<string>, pre: nat, ra: seq<string>, rb: seq<string>, i: nat)
    requires pre <= |a| && pre <= |b| && ra == Rev(a[pre..]) && rb == Rev(b[pre..]) && i <= |ra| && i <= |rb|
    ensures CommonPrefix(ra[i..], rb[i..]) ==
            if i < |a| - pre && i < |b| - pre && a[|a| - 1 - i] == b[|b| - 1 - i]
            then 1 + CommonPrefix(ra[i + 1..], rb[i + 1..]) else 0
  {
    CommonPrefixFrom(ra, rb, i);
  }

  /** What is taken off is common to both texts. */
  lemma TrimmedCommon(a: seq<string>, b: seq<string>)
    ensures var (pre, suf) := Trimmed(a, b);
            a[..pre] == b[..pre] && a[|a| - suf..] == b[|b| - suf..]
  {
    var (pre, suf) := Trimmed(a, b);
    var n, m, ra, rb := |a|, |b|, Rev(a[pre..]), Rev(b[pre..]);
    var x, y := a[n - suf..], b[m - suf..];
    assert |x| == suf && |y| == suf;
    forall i | 0 <= i < suf
      ensures x[i] == y[i]
    {
      assert ra[..suf][suf - 1 - i] == rb[..suf][suf - 1 - i];
    }
    assert x == y;
  }

  method Assemble(a: seq<string>, b: seq<string>, pre: nat, suf: nat, mid: Script) returns (out: Script)
    requires pre + suf <= |a| && pre + suf <= |b|
    ensures out == Assembled(a, b, pre, suf, mid)
  {
    var n, m := |a|, |b|;
    out := [];
    for i := 0 to pre
      invariant out == Kept(a, 0, 0, pre)[..i]
    {
      out := out + [DiffLine(Same, a[i], i + 1, i + 1)];
    }
    for i := 0 to |mid|
      invariant out == Kept(a, 0, 0, pre) + Shift(mid, pre)[..i]
    {
      out := out + [ShiftLine(mid[i], pre)];
    }
    for i := 0 to suf
      invariant out == Kept(a, 0, 0, pre) + Shift(mid, pre) + Kept(a, n - suf, m - suf, suf)[..i]
    {
      out := out + [DiffLine(Same, a[n - suf + i], n - suf + i + 1, m - suf + i + 1)];
    }
  }

  /** Trimming keeps both the bound and minimality. */
  lemma TrimPreservesDistance(a: seq<string>, b: seq<string>, pre: nat, suf: nat, maxD: int, mid: Script, out: Script)
    requires pre + suf <= |a| && pre + suf <= |b|
    requires a[..pre] == b[..pre] && a[|a| - suf..] == b[|b| - suf..]
    requires Spells(out, a, b) && Cost(out) == Cost(mid)
    requires Within(a[pre..|a| - suf], b[pre..|b| - suf], maxD) ==> Minimal(mid, a[pre..|a| - suf], b[pre..|b| - suf])
    ensures Within(a, b, maxD) <==> Within(a[pre..|a| - suf], b[pre..|b| - suf], maxD)
    ensures Within(a, b, maxD) ==> Minimal(out, a, b)
  {
    var ma, mb := a[pre..|a| - suf], b[pre..|b| - suf];
    forall s | Spells(s, a, b)
      ensures Cost(s) <= maxD ==> Within(ma, mb, maxD)
      ensures Within(ma, mb, maxD) ==> Cost(out) <= Cost(s)
    {
      var t := TrimmedScript(a, b, pre, suf, s);
    }
  }

  /** Everything between the common prefix and suffix is replaced. */
  function AllReplaced(a: seq<string>, b: seq<string>): Script {
    ReplacedBetween(a, b, Trimmed(a, b).0, Trimmed(a, b).1)
  }

  function ReplacedBetween(a: seq<string>, b: seq<string>, pre: nat, suf: nat): Script
    requires pre + suf <= |a| && pre + suf <= |b|
  {
    Assembled(a, b, pre, suf, Replaced(a[pre..|a| - suf], b[pre..|b| - suf]))
  }

  /** All that the texts share at the front, and all that they share at the back of what follows. */
  ghost predicate SharedEnds(a: seq<string>, b: seq<string>, k: nat, l: nat) {
    && k + l <= |a| && k + l <= |b| && a[..k] == b[..k] && a[|a| - l..] == b[|b| - l..]
    && (k == |a| || k == |b| || a[k] != b[k])
    && (k + l == |a| || k + l == |b| || a[|a| - 1 - l] != b[|b| - 1 - l])
  }

  /** The first k and the last l lines are kept. */
  ghost predicate EndsKept(out: Script, k: nat, l: nat) {
    && k + l <= |out|
    && (forall i :: 0 <= i < k ==> out[i].op == Same)
    && (forall i :: |out| - l <= i < |out| ==> out[i].op == Same)
  }

  /** Between them every old line is deleted, and then every new one inserted. */
  ghost predicate MiddleReplaced(out: Script, a: seq<string>, b: seq<string>, k: nat, l: nat) {
    && |out| + k + l == |a| + |b|
    && (forall i :: k <= i < |a| - l && i < |out| ==> out[i].op == Del)
    && (forall i :: k <= i && |a| - l <= i < |out| - l ==> out[i].op == Ins)
  }

  lemma AssembledKeepsEnds(a: seq<string>, b: seq<string>, k: nat, l: nat, mid: Script)
    requires k + l <= |a| && k + l <= |b|
    ensures var out := Assembled(a, b, k, l, mid);
            && EndsKept(out, k, l) && |out| == k + |mid| + l
            && forall i :: k <= i < |out| - l ==> out[i].op == mid[i - k].op
    ensures DeletionsFirst(mid) ==> DeletionsFirst(Assembled(a, b, k, l, mid))
  {
    var out := Assembled(a, b, k, l, mid);
    assert EndsKept(out, k, l) && forall i :: k <= i < |out| - l ==> out[i].op == mid[i - k].op;
    if DeletionsFirst(mid) {
      forall i | 0 <= i < |out| - 1 && out[i].op == Ins
        ensures out[i + 1].op != Del
      {
        assert k <= i < |out| - l;
      }
    }
  }

  lemma ReplacedMeans(a: seq<string>, b: seq<string>)
    ensures |Replaced(a, b)| == |a| + |b|
    ensures forall i :: 0 <= i < |a| + |b| ==> Replaced(a, b)[i].op == if i < |a| then Del else Ins
  {
  }

  lemma AllReplacedMeans(a: seq<string>, b: seq<string>)
    ensures var (k, l) := Trimmed(a, b); MiddleReplaced(AllReplaced(a, b), a, b, k, l)
  {
    var (k, l) := Trimmed(a, b);
    var old', new' := a[k..|a| - l], b[k..|b| - l];
    ReplacedMeans(old', new');
    AssembledKeepsEnds(a, b, k, l, Replaced(old', new'));
  }

  /**
   The line diff. It always turns `a` into `b` with correct line numbers; it is
   minimal whenever some script stays within `maxD` edits, and otherwise replaces
   everything between the common prefix and suffix.
   */
  method Diff(a: seq<string>, b: seq<string>, maxD: int) returns (out: Script)
    ensures Spells(out, a, b) && Numbered(out, 0, 0)
    ensures Within(a, b, maxD) ==> Minimal(out, a, b)
    ensures !Within(a, b, maxD) ==> out == AllReplaced(a, b)
    ensures exists k, l :: SharedEnds(a, b, k, l) && EndsKept(out, k, l)
                           && (!Within(a, b, maxD) ==> MiddleReplaced(out, a, b, k, l))
    ensures DeletionsFirst(out)
  {
    var pre := CountPrefix(a, b);
    var suf := CountSuffix(a, b, pre);
    var ma, mb := a[pre..|a| - suf], b[pre..|b| - suf];
    var mid := Myers(ma, mb, maxD);
    out := Assemble(a, b, pre, suf, mid);
    WholeDiff(a, b, pre, suf, maxD, ma, mb, mid, out);
    TrimmedLongest(a, b);
    AssembledKeepsEnds(a, b, pre, suf, mid);
    AllReplacedMeans(a, b);
  }

  lemma WholeDiff(a: seq<string>, b: seq<string>, pre: nat, suf: nat, maxD: int, ma: seq<string>, mb: seq<string>,
                  mid: Script, out: Script)
    requires Trimmed(a, b) == (pre, suf) && ma == a[pre..|a| - suf] && mb == b[pre..|b| - suf]
    requires Spells(mid, ma, mb) && Numbered(mid, 0, 0) && out == Assembled(a, b, pre, suf, mid)
    requires Within(ma, mb, maxD) ==> Minimal(mid, ma, mb)
    requires !Within(ma, mb, maxD) ==> mid == Replaced(ma, mb)
    ensures Spells(out, a, b) && Numbered(out, 0, 0)
    ensures Within(a, b, maxD) ==> Minimal(out, a, b)
    ensures !Within(a, b, maxD) ==> out == AllReplaced(a, b)
  {
    TrimmedCommon(a, b);
    AroundMiddle(a, b, pre, suf, ma, mb, mid, out);
    ReplacedMiddle(a, b, pre, suf, ma, mb, mid, out);
    MiddleDecides(a, b, pre, suf, maxD, ma, mb, mid, out);
  }

  /** The common ends around a script of the lines between make a script of the whole texts. */
  lemma AroundMiddle(a: seq<string>, b: seq<string>, pre: nat, suf: nat, ma: seq<string>, mb: seq<string>, mid: Script,
                     out: Script)
    requires pre + suf <= |a| && pre + suf <= |b| && ma == a[pre..|a| - suf] && mb == b[pre..|b| - suf]
    requires a[..pre] == b[..pre] && a[|a| - suf..] == b[|b| - suf..]
    requires Spells(mid, ma, mb) && Numbered(mid, 0, 0) && out == Assembled(a, b, pre, suf, mid)
    ensures Spells(out, a, b) && Numbered(out, 0, 0) && Cost(out) == Cost(mid)
  {
    assert Turns(mid, ma, mb, 0, 0);
    AssembledSpells(a, b, pre, suf, mid);
    assert Unsealed(Seal);
  }

  /** Around a replaced middle they make the replacement of everything between. */
  lemma ReplacedMiddle(a: seq<string>, b: seq<string>, pre: nat, suf: nat, ma: seq<string>, mb: seq<string>,
                       mid: Script, out: Script)
    requires pre + suf <= |a| && pre + suf <= |b| && ma == a[pre..|a| - suf] && mb == b[pre..|b| - suf]
    requires out == Assembled(a, b, pre, suf, mid)
    ensures mid == Replaced(ma, mb) ==> out == ReplacedBetween(a, b, pre, suf)
  {
  }

  /** What holds of the script between the common ends holds of the whole. */
  lemma MiddleDecides(a: seq<string>, b: seq<string>, pre: nat, suf: nat, maxD: int, ma: seq<string>, mb: seq<string>,
                      mid: Script, out: Script)
    requires pre + suf <= |a| && pre + suf <= |b| && ma == a[pre..|a| - suf] && mb == b[pre..|b| - suf]
    requires a[..pre] == b[..pre] && a[|a| - suf..] == b[|b| - suf..] && Spells(out, a, b) && Cost(out) == Cost(mid)
    requires Within(ma, mb, maxD) ==> Minimal(mid, ma, mb)
    requires !Within(ma, mb, maxD) ==> mid == Replaced(ma, mb)
    requires mid == Replaced(ma, mb) ==> out == ReplacedBetween(a, b, pre, suf)
    ensures Within(a, b, maxD) ==> Minimal(out, a, b)
    ensures !Within(a, b, maxD) ==> out == ReplacedBetween(a, b, pre, suf)
  {
    TrimPreservesDistance(a, b, pre, suf, maxD, mid, out);
  }
}
