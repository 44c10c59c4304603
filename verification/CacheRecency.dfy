/**
 The order of the blob cache's list (internal/blob/cache.go), stated of the lists themselves:
 what every operation does to it, and that over a run it is the order of last use.
 */
module CacheRecency {
  import opened Common
  import opened BlobStore
  import opened CacheList
  import opened CacheView

  ghost predicate Has(lru: seq<Entry>, d: string) { exists i :: 0 <= i < |lru| && lru[i].digest == d }

  /** The list without the entry of a digest, if it has one: the others stay as they are. */
  ghost predicate TakenOut(before: seq<Entry>, d: string, rest: seq<Entry>) {
    if Has(before, d)
    then exists p :: 0 <= p < |before| && before[p].digest == d && rest == before[..p] + before[p + 1..]
    else rest == before
  }

  /** The entry goes to the front of the others, and of that list the longest prefix that fits is kept. */
  ghost predicate Fronted(before: seq<Entry>, max: int, e: Entry, after: seq<Entry>) {
    exists rest :: TakenOut(before, e.digest, rest) && LongestFitting([e] + rest, max, after)
  }

  /** What an operation does to the list, given its reply. */
  ghost predicate ListStep(hash: Hash, max: int, op: Op, reply: Reply, before: seq<Entry>, after: seq<Entry>) {
    forall s {:trigger Unsealed(s)} :: Unsealed(s) ==>
      match op
      case Put(b) => if Has(before, hash(b)) then after == before else Fronted(before, max, Entry(hash(b), |b|), after)
      case Open(d) =>
        reply.Content? && if reply.content.Ok? then Fronted(before, max, Entry(d, |reply.content.value|), after)
                          else after == before
      case Stat(d) => after == before
      case Delete(d) => if ValidDigest(d) then TakenOut(before, d, after) else after == before
  }

  // ---------------------------------------------------------------- last use

  /** A run with the list before every operation and after the last. */
  datatype Trace = Trace(hash: Hash, max: int, ops: seq<Op>, replies: seq<Reply>, lists: seq<seq<Entry>>)

  ghost predicate Traces(t: Trace) {
    && |t.replies| == |t.ops| && |t.lists| == |t.ops| + 1
    && (forall i :: 0 <= i < |t.lists| ==> NoRepeats(t.lists[i]))
    && (forall i :: 0 <= i < |t.ops| ==> StepAt(t, i))
  }

  ghost predicate StepAt(t: Trace, i: nat)
    requires i < |t.ops| && i < |t.replies| && i + 1 < |t.lists|
  {
    ListStep(t.hash, t.max, t.ops[i], t.replies[i], t.lists[i], t.lists[i + 1])
  }

  /** A content is used when it is opened, and when it is put while it is not in the list. */
  ghost predicate UsedAt(t: Trace, i: nat, d: string)
    requires Traces(t)
  {
    && i < |t.ops|
    && match t.ops[i]
       case Put(b) => t.hash(b) == d && !Has(t.lists[i], d)
       case Open(d') => d' == d && t.replies[i].Content? && t.replies[i].content.Ok?
       case _ => false
  }

  ghost predicate Before(lru: seq<Entry>, x: string, y: string) {
    exists i, j :: 0 <= i < j < |lru| && lru[i].digest == x && lru[j].digest == y
  }

  /** Within the first n operations x was used after the last use of y, or neither was and x was ahead at the start. */
  ghost predicate MoreRecent(t: Trace, n: nat, x: string, y: string)
    requires Traces(t)
  {
    || (exists k :: 0 <= k < n && UsedAt(t, k, x) && forall m :: k <= m < n ==> !UsedAt(t, m, y))
    || (Before(t.lists[0], x, y) && forall m :: 0 <= m < n ==> !UsedAt(t, m, x) && !UsedAt(t, m, y))
  }

  /** Over every run the list is in the order of last use. */
  lemma {:induction false} OrderOfUse(t: Trace, n: nat, x: string, y: string)
    requires Traces(t) && n <= |t.ops| && Before(t.lists[n], x, y)
    ensures MoreRecent(t, n, x, y)
  {
    if n > 0 {
      var m := n - 1;
      StepOrder(t, m, x, y);
      if !UsedAt(t, m, x) {
        OrderOfUse(t, m, x, y);
      }
    }
  }

  /** What an operation uses comes first, and it keeps the order of the rest. */
  lemma StepOrder(t: Trace, m: nat, x: string, y: string)
    requires Traces(t) && m < |t.ops| && Before(t.lists[m + 1], x, y)
    ensures !UsedAt(t, m, y) && (UsedAt(t, m, x) || Before(t.lists[m], x, y))
  {
    var before, after := t.lists[m], t.lists[m + 1];
    assert StepAt(t, m) && Unsealed(Seal);
    match t.ops[m]
    case Put(b) =>
      if !Has(before, t.hash(b)) {
        FrontedOrder(before, t.max, Entry(t.hash(b), |b|), after, x, y);
      }
    case Open(d) =>
      if t.replies[m].content.Ok? {
        FrontedOrder(before, t.max, Entry(d, |t.replies[m].content.value|), after, x, y);
      }
    case Stat(d) =>
    case Delete(d) =>
      if ValidDigest(d) {
        TakenOutOrder(before, d, after, x, y);
      }
  }

  lemma FrontedOrder(before: seq<Entry>, max: int, e: Entry, after: seq<Entry>, x: string, y: string)
    requires NoRepeats(after) && Fronted(before, max, e, after) && Before(after, x, y)
    ensures y != e.digest && (x == e.digest || Before(before, x, y))
  {
    var rest :| TakenOut(before, e.digest, rest) && LongestFitting([e] + rest, max, after);
    var i, j :| 0 <= i < j < |after| && after[i].digest == x && after[j].digest == y;
    FrontedAt(e, rest, after, max, i, j);
    if i > 0 {
      assert Before(rest, x, y);
      TakenOutOrder(before, e.digest, rest, x, y);
    }
  }

  lemma FrontedAt(e: Entry, rest: seq<Entry>, after: seq<Entry>, max: int, i: nat, j: nat)
    requires LongestFitting([e] + rest, max, after) && NoRepeats(after) && i < j < |after|
    ensures after[0] == e && after[j].digest != e.digest && |after| <= |rest| + 1
    ensures i > 0 ==> after[i] == rest[i - 1] && after[j] == rest[j - 1]
  {
    var all := [e] + rest;
    assert after == all[..|after|];
    assert after[i] == all[i] && after[j] == all[j];
  }

  lemma TakenOutOrder(before: seq<Entry>, d: string, rest: seq<Entry>, x: string, y: string)
    requires TakenOut(before, d, rest) && Before(rest, x, y)
    ensures Before(before, x, y)
  {
    if Has(before, d) {
      var p :| 0 <= p < |before| && before[p].digest == d && rest == before[..p] + before[p + 1..];
      var i, j :| 0 <= i < j < |rest| && rest[i].digest == x && rest[j].digest == y;
      TakenAt(before, p, rest, i);
      TakenAt(before, p, rest, j);
    }
  }

  lemma TakenAt(before: seq<Entry>, p: nat, rest: seq<Entry>, i: nat)
    requires p < |before| && rest == before[..p] + before[p + 1..] && i < |rest|
    ensures before[if i < p then i else i + 1] == rest[i]
  {
  }

  /** A record of a run from one list to another. */
  ghost predicate Recorded(t: Trace, first: seq<Entry>, last: seq<Entry>) {
    forall s {:trigger Unsealed(s)} :: Unsealed(s) ==>
      Traces(t) && t.lists[0] == first && t.lists[|t.ops|] == last
  }

  /** Of any two entries left, the one used last, or else the one ahead at the start, comes first. */
  ghost predicate InOrderOfUse(t: Trace) {
    forall s {:trigger Unsealed(s)} :: Unsealed(s) ==>
      && Traces(t)
      && var n := |t.ops|;
         forall i, j :: 0 <= i < j < |t.lists[n]| ==> MoreRecent(t, n, t.lists[n][i].digest, t.lists[n][j].digest)
  }

  lemma RecordBegins(hash: Hash, max: int, lru: seq<Entry>)
    requires NoRepeats(lru)
    ensures Recorded(Trace(hash, max, [], [], [lru]), lru, lru)
  {
  }

  lemma RecordGrows(t: Trace, first: seq<Entry>, last: seq<Entry>, op: Op, reply: Reply, after: seq<Entry>)
    returns (u: Trace)
    requires Recorded(t, first, last) && NoRepeats(after) && ListStep(t.hash, t.max, op, reply, last, after)
    ensures u.hash == t.hash && u.max == t.max && u.ops == t.ops + [op] && u.replies == t.replies + [reply]
    ensures Recorded(u, first, after)
  {
    assert Unsealed(Seal);
    u := Trace(t.hash, t.max, t.ops + [op], t.replies + [reply], t.lists + [after]);
    forall i | 0 <= i < |u.ops| ensures StepAt(u, i) {
      assert i < |t.ops| ==> StepAt(t, i);
    }
  }

  lemma RecordInOrder(t: Trace, first: seq<Entry>, last: seq<Entry>)
    requires Recorded(t, first, last)
    ensures InOrderOfUse(t)
  {
    assert Unsealed(Seal);
    var n := |t.ops|;
    forall i, j | 0 <= i < j < |last| ensures MoreRecent(t, n, last[i].digest, last[j].digest) {
      OrderOfUse(t, n, last[i].digest, last[j].digest);
    }
  }

  // ---------------------------------------------- what the steps of the cache do

  lemma {:induction false} WithoutTakesOut(lru: seq<Entry>, d: string)
    requires NoRepeats(lru)
    ensures TakenOut(lru, d, Without(lru, d))
  {
    if !Has(lru, d) {
      WithoutAbsent(lru, d);
    } else {
      var p :| 0 <= p < |lru| && lru[p].digest == d;
      WithoutAt(lru, p);
    }
  }

  lemma {:induction false} WithoutAt(lru: seq<Entry>, p: nat)
    requires NoRepeats(lru) && p < |lru|
    ensures Without(lru, lru[p].digest) == lru[..p] + lru[p + 1..]
  {
    var rest, n := lru[..|lru| - 1], |lru| - 1;
    assert lru == rest + [lru[n]];
    if p < n {
      WithoutAt(rest, p);
      assert lru[p].digest != lru[n].digest;
    } else {
      WithoutAbsent(rest, lru[p].digest);
    }
  }

  lemma MovedFronts(v: View, max: int, d: string)
    requires Indexes(v.items, v.lru) && v.size == Total(v.lru) && (v.size <= max || |v.lru| <= 1) && d in v.items
    ensures Fronted(v.lru, max, v.items[d], Moved(v, d).lru)
  {
    var all := Moved(v, d).lru;
    WithoutTakesOut(v.lru, d);
    IndexMoved(v.items, v.lru, d);
    assert all[..|all|] == all;
  }

  lemma PushedFronts(v: View, max: int, d: string, n: nat)
    requires Indexes(v.items, v.lru) && d !in v.items
    ensures Fronted(v.lru, max, Entry(d, n), Shrunk(Pushed(v, d, n), max).lru)
  {
    EvictedFits([Entry(d, n)] + v.lru, max);
    assert TakenOut(v.lru, d, v.lru) by {
      assert forall i :: 0 <= i < |v.lru| ==> v.lru[i] in v.lru;
    }
  }

  lemma ListedExactly(items: map<string, Entry>, lru: seq<Entry>, d: string)
    requires Indexes(items, lru)
    ensures Has(lru, d) <==> d in items
  {
    if d in items {
      var i :| 0 <= i < |lru| && lru[i] == items[d];
    }
    assert forall i :: 0 <= i < |lru| ==> lru[i] in lru;
  }
}
