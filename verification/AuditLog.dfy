/**
 The verification of the hash-chained audit log (internal/auditlog/verify.go, with the
 queries of internal/db/queries/admin.sql and the trigger of migration 0021).
 */
module AuditLog {
  import opened Common

  /** What an entry records. */
  datatype Content = Content(actor: string, action: string, targetType: string, targetId: Option<int>, details: string,
                             ip: string, createdAt: int)

  /** A row with a place in the chain; a missing hash reads as "". */
  datatype Row = Row(place: int, id: int, prev: string, hash: string, content: Content)

  /** The rows with a place, in order, and how many rows lack a place or a hash. */
  datatype Log = Log(chain: seq<Row>, unchained: nat)

  type RowHash = (string, int, Content) -> string

  datatype Problem = Outside(n: nat) | Missing(from: int, to: int) | NotFollowing(place: int, id: int)
    | Modified(place: int, id: int)

  datatype Report = Report(entries: nat, headSeq: int, headHash: string, problems: seq<Problem>, more: nat)

  const MAX_PROBLEMS: nat := 20

  /** The unique index: places grow. */
  ghost predicate Ordered(rows: seq<Row>) {
    forall i, j :: 0 <= i < j < |rows| ==> rows[i].place < rows[j].place
  }

  // ------------------------------------------------------------ one whole walk

  /** What is wrong with a row after one with place `last` and hash `prev`. */
  function RowProblems(hash: RowHash, last: int, prev: string, r: Row): seq<Problem> {
    (if r.place != last + 1 then [Missing(last + 1, r.place - 1)] else [])
    + (if r.prev != prev then [NotFollowing(r.place, r.id)] else [])
    + (if r.hash != hash(r.prev, r.place, r.content) then [Modified(r.place, r.id)] else [])
  }

  function LastSeq(rows: seq<Row>): int { if rows == [] then 0 else rows[|rows| - 1].place }

  function LastHash(rows: seq<Row>): string { if rows == [] then "" else rows[|rows| - 1].hash }

  function Problems(hash: RowHash, rows: seq<Row>): seq<Problem> {
    if rows == [] then []
    else
      var before := rows[..|rows| - 1];
      Problems(hash, before) + RowProblems(hash, LastSeq(before), LastHash(before), rows[|rows| - 1])
  }

  /** The first row from the i-th on after a place. */
  function FirstFrom(rows: seq<Row>, after: int, i: nat): (k: nat)
    requires i <= |rows|
    ensures i <= k <= |rows| && (forall j :: i <= j < k ==> rows[j].place <= after)
            && (k < |rows| ==> rows[k].place > after)
    decreases |rows| - i
  {
    if i == |rows| || rows[i].place > after then i else FirstFrom(rows, after, i + 1)
  }

  function FirstAfter(rows: seq<Row>, after: int): (k: nat)
    ensures k <= |rows|
  {
    FirstFrom(rows, after, 0)
  }

  /** The rows a verification walks: those with a positive place. */
  function Walked(log: Log): seq<Row> { log.chain[FirstAfter(log.chain, 0)..] }

  /** Every inconsistency of a log. */
  function AllProblems(hash: RowHash, log: Log): seq<Problem> {
    (if log.unchained > 0 then [Outside(log.unchained)] else []) + Problems(hash, Walked(log))
  }

  function Listed(all: seq<Problem>): seq<Problem> { if |all| <= MAX_PROBLEMS then all else all[..MAX_PROBLEMS] }

  // ----------------------------------------------------------- the paged walk

  /** A page of the chain after a place. */
  function AuditChain(rows: seq<Row>, after: int, max: nat): seq<Row> {
    var i := FirstAfter(rows, after);
    if i + max <= |rows| then rows[i..i + max] else rows[i..]
  }

  /** The problems listed so far and the number of the others. */
  datatype Tally = Tally(listed: seq<Problem>, more: nat)

  ghost predicate Tallies(t: Tally, all: seq<Problem>) {
    t.listed == Listed(all) && |t.listed| + t.more == |all|
  }

  /** Keeps the first problems and counts the others. */
  method Add(t: Tally, p: Problem, ghost all: seq<Problem>) returns (t': Tally)
    requires Tallies(t, all)
    ensures Tallies(t', all + [p])
  {
    if |t.listed| < MAX_PROBLEMS {
      return t.(listed := t.listed + [p]);
    }
    return t.(more := t.more + 1);
  }

  /** Adds what is wrong with one row. */
  method CheckRow(hash: RowHash, last: int, prev: string, r: Row, t: Tally, ghost all: seq<Problem>) returns (t': Tally)
    requires Tallies(t, all)
    ensures Tallies(t', all + RowProblems(hash, last, prev, r))
  {
    t' := t;
    ghost var sofar := all;
    if r.place != last + 1 {
      t' := Add(t', Missing(last + 1, r.place - 1), sofar);
      sofar := sofar + [Missing(last + 1, r.place - 1)];
    }
    if r.prev != prev {
      t' := Add(t', NotFollowing(r.place, r.id), sofar);
      sofar := sofar + [NotFollowing(r.place, r.id)];
    }
    if r.hash != hash(r.prev, r.place, r.content) {
      t' := Add(t', Modified(r.place, r.id), sofar);
      sofar := sofar + [Modified(r.place, r.id)];
    }
    assert sofar == all + RowProblems(hash, last, prev, r);
  }

  /** A walk in progress: the place and hash of the last row, and the problems. */
  datatype Walk = Walk(last: int, prev: string, tally: Tally)

  /** The walk has seen exactly these rows. */
  ghost predicate HasSeen(hash: RowHash, w: Walk, outside: seq<Problem>, rows: seq<Row>) {
    forall s {:trigger Unsealed(s)} :: Unsealed(s) ==>
      w.last == LastSeq(rows) && w.prev == LastHash(rows) && Tallies(w.tally, outside + Problems(hash, rows))
  }

  lemma FirstSeen(hash: RowHash, t: Tally, outside: seq<Problem>)
    requires Tallies(t, outside)
    ensures HasSeen(hash, Walk(0, "", t), outside, [])
  {
    assert outside + [] == outside;
  }

  lemma LastSeen(hash: RowHash, w: Walk, outside: seq<Problem>, rows: seq<Row>)
    requires HasSeen(hash, w, outside, rows)
    ensures w.last == LastSeq(rows) && Tallies(w.tally, outside + Problems(hash, rows))
  {
    assert Unsealed(Seal);
  }

  /** Walks one row. */
  method WalkRow(hash: RowHash, w: Walk, r: Row, ghost outside: seq<Problem>, ghost rows: seq<Row>) returns (w': Walk)
    requires HasSeen(hash, w, outside, rows)
    ensures HasSeen(hash, w', outside, rows + [r])
  {
    assert Unsealed(Seal);
    var tally := CheckRow(hash, w.last, w.prev, r, w.tally, outside + Problems(hash, rows));
    ProblemsAfter(hash, rows, r);
    assert outside + Problems(hash, rows + [r]) == outside + Problems(hash, rows)
           + RowProblems(hash, w.last, w.prev, r);
    w' := Walk(r.place, r.hash, tally);
  }

  lemma ProblemsAfter(hash: RowHash, rows: seq<Row>, r: Row)
    ensures Problems(hash, rows + [r]) == Problems(hash, rows) + RowProblems(hash, LastSeq(rows), LastHash(rows), r)
    ensures LastSeq(rows + [r]) == r.place && LastHash(rows + [r]) == r.hash
  {
    assert (rows + [r])[..|rows|] == rows;
  }

  /** Walks one page. */
  method WalkPage(hash: RowHash, w: Walk, page: seq<Row>, ghost outside: seq<Problem>, ghost rows: seq<Row>)
    returns (w': Walk)
    requires HasSeen(hash, w, outside, rows)
    ensures HasSeen(hash, w', outside, rows + page)
  {
    w' := w;
    ghost var seen := rows;
    for i := 0 to |page|
      invariant seen == rows + page[..i] && HasSeen(hash, w', outside, seen)
    {
      w' := WalkRow(hash, w', page[i], outside, seen);
      seen := seen + [page[i]];
      assert page[..i + 1] == page[..i] + [page[i]];
    }
    assert seen == rows + page;
  }

  lemma FirstAfterIs(rows: seq<Row>, after: int, i: nat)
    requires Ordered(rows) && i <= |rows| && (i > 0 ==> rows[i - 1].place <= after)
             && (i < |rows| ==> rows[i].place > after)
    ensures FirstAfter(rows, after) == i
  {
    var k := FirstFrom(rows, after, 0);
  }

  /** The next page begins where the last one ended. */
  lemma NextPage(rows: seq<Row>, start: nat, i: nat)
    requires Ordered(rows) && start == FirstAfter(rows, 0) <= i <= |rows|
    ensures FirstAfter(rows, LastSeq(rows[start..i])) == i
  {
    assert FirstFrom(rows, 0, 0) == start;
    if i > start {
      assert rows[start..i][i - start - 1] == rows[i - 1];
      FirstAfterIs(rows, rows[i - 1].place, i);
    }
  }

  /** The walk over the ordered rows has come from their first positive place to the i-th row. */
  ghost predicate Placed(rows: seq<Row>, i: nat, seen: seq<Row>) {
    forall s {:trigger Unsealed(s)} :: Unsealed(s) ==>
      Ordered(rows) && FirstAfter(rows, 0) <= i <= |rows| && seen == rows[FirstAfter(rows, 0)..i]
  }

  /** Reads the next page; a short one is the last. */
  method ReadPage(rows: seq<Row>, after: int, page: nat, ghost i: nat, ghost seen: seq<Row>) returns (part: seq<Row>)
    requires Placed(rows, i, seen) && after == LastSeq(seen)
    ensures Placed(rows, i + |part|, seen + part) && i + |part| <= |rows| && (|part| < page ==> i + |part| == |rows|)
  {
    assert Unsealed(Seal);
    part := AuditChain(rows, after, page);
    PageIs(rows, FirstAfter(rows, 0), i, page, seen, part);
  }

  /** Walks the rest of the rows, a page at a time. */
  method WalkPages(hash: RowHash, rows: seq<Row>, page: nat, w0: Walk, ghost outside: seq<Problem>, ghost start: nat)
    returns (entries: nat, w: Walk, ghost seen: seq<Row>)
    requires page >= 1 && Placed(rows, start, []) && start <= |rows| && HasSeen(hash, w0, outside, [])
    ensures Placed(rows, |rows|, seen) && entries == |seen| && HasSeen(hash, w, outside, seen)
  {
    ghost var i := start;
    w, entries, seen := w0, 0, [];
    while true
      invariant entries == |seen| && Placed(rows, i, seen) && i <= |rows| && HasSeen(hash, w, outside, seen)
      decreases |rows| - i
    {
      LastSeen(hash, w, outside, seen);
      var part := ReadPage(rows, w.last, page, i, seen);
      w := WalkPage(hash, w, part, outside, seen);
      seen, i, entries := seen + part, i + |part|, entries + |part|;
      if |part| < page {
        return;
      }
    }
  }

  lemma StartPlaced(rows: seq<Row>, start: nat)
    requires Ordered(rows) && start == FirstAfter(rows, 0)
    ensures Placed(rows, start, [])
  {
  }

  lemma EndPlaced(rows: seq<Row>, seen: seq<Row>)
    requires Placed(rows, |rows|, seen)
    ensures seen == rows[FirstAfter(rows, 0)..]
  {
    assert Unsealed(Seal);
  }

  /** The paged walk reports exactly what one walk over the whole chain finds, for every page size. */
  method Verify(hash: RowHash, log: Log, page: nat) returns (report: Report)
    requires page >= 1 && Ordered(log.chain)
    ensures report.problems == Listed(AllProblems(hash, log))
            && |report.problems| + report.more == |AllProblems(hash, log)|
    ensures Reports(hash, log, report.problems, report.more)
    ensures report.entries == |Walked(log)| && exists k :: StartsAt(log.chain, k) && report.entries == |log.chain| - k
    ensures report.headSeq == LastSeq(log.chain) && report.headHash == LastHash(log.chain)
  {
    AllProblemsListed(hash, log);
    WalkStarts(log.chain);
    var rows := log.chain;
    var t := Tally([], 0);
    if log.unchained > 0 {
      t := Add(t, Outside(log.unchained), []);
    }
    ghost var outside, start := if log.unchained > 0 then [Outside(log.unchained)] else [], FirstAfter(rows, 0);
    FirstSeen(hash, t, outside);
    StartPlaced(rows, start);
    var entries, w, seen := WalkPages(hash, rows, page, Walk(0, "", t), outside, start);
    EndPlaced(rows, seen);
    LastSeen(hash, w, outside, seen);
    var headSeq, headHash := 0, "";
    if |rows| > 0 {
      headSeq, headHash := rows[|rows| - 1].place, rows[|rows| - 1].hash;
    }
    report := Report(entries, headSeq, headHash, w.tally.listed, w.tally.more);
  }

  /** A page continues the walk; a short one ends it. */
  lemma PageIs(rows: seq<Row>, start: nat, i: nat, page: nat, walked: seq<Row>, part: seq<Row>)
    requires Ordered(rows) && start == FirstAfter(rows, 0) <= i <= |rows| && walked == rows[start..i]
    requires part == AuditChain(rows, LastSeq(walked), page)
    ensures i + |part| <= |rows| && walked + part == rows[start..i + |part|]
    ensures |part| < page ==> i + |part| == |rows|
  {
    NextPage(rows, start, i);
    PageFrom(rows, LastSeq(walked), i, page, part);
    SlicesJoin(rows, start, i, i + |part|);
  }

  lemma PageFrom(rows: seq<Row>, after: int, i: nat, page: nat, part: seq<Row>)
    requires FirstAfter(rows, after) == i && part == AuditChain(rows, after, page)
    ensures i + |part| <= |rows| && part == rows[i..i + |part|] && (|part| < page ==> i + |part| == |rows|)
  {
  }

  lemma SlicesJoin(rows: seq<Row>, start: nat, i: nat, j: nat)
    requires start <= i <= j <= |rows|
    ensures rows[start..i] + rows[i..j] == rows[start..j]
  {
  }

  // --------------------------------------------------- which problems there are

  /** The place a row must have and the hash it must follow, given the row before; only places above 0 count. */
  function PlaceDue(rows: seq<Row>, i: nat): int
    requires i < |rows|
  {
    if i > 0 && rows[i - 1].place > 0 then rows[i - 1].place + 1 else 1
  }

  function HashDue(rows: seq<Row>, i: nat): string
    requires i < |rows|
  {
    if i > 0 && rows[i - 1].place > 0 then rows[i - 1].hash else ""
  }

  /** What is wrong with one row. */
  ghost predicate WrongAt(hash: RowHash, rows: seq<Row>, i: nat, p: Problem)
    requires i < |rows|
  {
    var r := rows[i];
    && r.place > 0
    && match p
       case Outside(n) => false
       case Missing(from, to) => from == PlaceDue(rows, i) != r.place && to == r.place - 1
       case NotFollowing(place, id) => place == r.place && id == r.id && r.prev != HashDue(rows, i)
       case Modified(place, id) => place == r.place && id == r.id && r.hash != hash(r.prev, r.place, r.content)
  }

  ghost predicate Wrong(hash: RowHash, rows: seq<Row>, p: Problem) {
    exists i: nat :: i < |rows| && WrongAt(hash, rows, i, p)
  }

  /** The place a problem is at, rows outside the chain coming first. */
  function At(p: Problem): int {
    match p
    case Outside(_) => 0
    case Missing(_, to) => to + 1
    case NotFollowing(place, _) => place
    case Modified(place, _) => place
  }

  function Kind(p: Problem): nat {
    match p
    case Outside(_) => 0
    case Missing(_, _) => 1
    case NotFollowing(_, _) => 2
    case Modified(_, _) => 3
  }

  predicate Precedes(p: Problem, q: Problem) { At(p) < At(q) || (At(p) == At(q) && Kind(p) < Kind(q)) }

  ghost predicate InTurn(ps: seq<Problem>) { forall i, j :: 0 <= i < j < |ps| ==> Precedes(ps[i], ps[j]) }

  /** These are all the problems of a log, in order: rows outside the chain, and what is wrong with each row of it. */
  ghost predicate ListsAll(hash: RowHash, log: Log, all: seq<Problem>) {
    && InTurn(all)
    && forall p :: p in all <==> (log.unchained > 0 && p == Outside(log.unchained)) || Wrong(hash, log.chain, p)
  }

  /** A report lists the first twenty problems and counts the others. */
  ghost predicate Reports(hash: RowHash, log: Log, problems: seq<Problem>, more: nat) {
    exists all :: ListsAll(hash, log, all) && |problems| + more == |all|
                  && problems == if |all| <= 20 then all else all[..20]
  }

  /** The rows from the first positive place on. */
  ghost predicate StartsAt(rows: seq<Row>, k: nat) {
    k <= |rows| && (forall i :: 0 <= i < k ==> rows[i].place <= 0) && forall i :: k <= i < |rows| ==> rows[i].place > 0
  }

  lemma WrongNext(hash: RowHash, rows: seq<Row>, p: Problem)
    requires rows != []
    ensures Wrong(hash, rows, p) <==>
              Wrong(hash, rows[..|rows| - 1], p) || WrongAt(hash, rows, |rows| - 1, p)
  {
    var n := |rows| - 1;
    forall i: nat | i < n ensures WrongAt(hash, rows, i, p) <==> WrongAt(hash, rows[..n], i, p) {
    }
    if i: nat :| i < |rows| && WrongAt(hash, rows, i, p) {
      assert i < n ==> WrongAt(hash, rows[..n], i, p);
    }
    if i: nat :| i < n && WrongAt(hash, rows[..n], i, p) {
      assert WrongAt(hash, rows, i, p);
    }
  }

  lemma RowProblemsMean(hash: RowHash, rows: seq<Row>)
    requires rows != [] && Ordered(rows) && forall i :: 0 <= i < |rows| ==> rows[i].place > 0
    ensures var n := |rows| - 1; var ps := RowProblems(hash, LastSeq(rows[..n]), LastHash(rows[..n]), rows[n]);
            && InTurn(ps) && (forall p :: p in ps ==> At(p) == rows[n].place)
            && forall p :: p in ps <==> WrongAt(hash, rows, n, p)
  {
  }

  lemma {:induction false} ProblemsMean(hash: RowHash, rows: seq<Row>)
    requires Ordered(rows) && forall i :: 0 <= i < |rows| ==> rows[i].place > 0
    ensures var ps := Problems(hash, rows);
            && InTurn(ps) && (forall p :: p in ps ==> 0 < At(p) <= LastSeq(rows))
            && forall p :: p in ps <==> Wrong(hash, rows, p)
  {
    if rows != [] {
      var n := |rows| - 1;
      var before := rows[..n];
      ProblemsMean(hash, before);
      RowProblemsMean(hash, rows);
      assert LastSeq(before) < rows[n].place;
      TurnsJoin(Problems(hash, before), RowProblems(hash, LastSeq(before), LastHash(before), rows[n]));
      forall p ensures p in Problems(hash, rows) <==> Wrong(hash, rows, p) {
        WrongNext(hash, rows, p);
      }
    }
  }

  lemma TurnsJoin(ps: seq<Problem>, qs: seq<Problem>)
    requires InTurn(ps) && InTurn(qs) && forall p, q :: p in ps && q in qs ==> At(p) < At(q)
    ensures InTurn(ps + qs)
  {
    forall i, j | 0 <= i < j < |ps + qs| ensures Precedes((ps + qs)[i], (ps + qs)[j]) {
      if i < |ps| <= j {
        assert ps[i] in ps && qs[j - |ps|] in qs;
      }
    }
  }

  /** The rows before the first positive place change nothing. */
  lemma WalkedWrong(hash: RowHash, rows: seq<Row>, k: nat, p: Problem)
    requires StartsAt(rows, k)
    ensures Wrong(hash, rows, p) <==> Wrong(hash, rows[k..], p)
  {
    forall i: nat | k <= i < |rows| ensures WrongAt(hash, rows, i, p) <==> WrongAt(hash, rows[k..], i - k, p) {
    }
    if i: nat :| i < |rows| && WrongAt(hash, rows, i, p) {
      assert WrongAt(hash, rows[k..], i - k, p);
    }
    if i: nat :| i < |rows[k..]| && WrongAt(hash, rows[k..], i, p) {
      assert WrongAt(hash, rows, i + k, p);
    }
  }

  lemma WalkStarts(rows: seq<Row>)
    requires Ordered(rows)
    ensures StartsAt(rows, FirstAfter(rows, 0))
  {
    var k := FirstFrom(rows, 0, 0);
    assert forall i :: k < i < |rows| ==> rows[i].place > rows[k].place;
  }

  /** The walk finds every problem there is, each once and in order. */
  lemma AllProblemsListed(hash: RowHash, log: Log)
    requires Ordered(log.chain)
    ensures ListsAll(hash, log, AllProblems(hash, log))
  {
    var k := FirstAfter(log.chain, 0);
    WalkStarts(log.chain);
    var w := Walked(log);
    ProblemsMean(hash, w);
    forall p ensures Wrong(hash, log.chain, p) <==> Wrong(hash, w, p) {
      WalkedWrong(hash, log.chain, k, p);
    }
    var outside := if log.unchained > 0 then [Outside(log.unchained)] else [];
    TurnsJoin(outside, Problems(hash, w));
  }

  // ------------------------------------------------------- what a report means

  /** Different fields, the same hash. */
  predicate Collide(hash: RowHash, x: Row, y: Row) {
    && (x.prev != y.prev || x.place != y.place || x.content != y.content)
    && hash(x.prev, x.place, x.content) == hash(y.prev, y.place, y.content)
  }

  ghost predicate NoCollision(hash: RowHash, a: seq<Row>, b: seq<Row>) {
    forall i, j :: 0 <= i < |a| && 0 <= j < |b| ==> !Collide(hash, a[i], b[j])
  }

  /** Places count from 1, each row follows the previous one, and each hash is right. */
  ghost predicate Chained(hash: RowHash, rows: seq<Row>) {
    rows == [] ||
    (var n := |rows| - 1;
     && rows[n].place == n + 1 && rows[n].prev == LastHash(rows[..n])
     && rows[n].hash == hash(rows[n].prev, rows[n].place, rows[n].content)
     && Chained(hash, rows[..n]))
  }

  /** A walk finds nothing exactly when the rows are chained. */
  lemma {:induction false} NoProblemsIffChained(hash: RowHash, rows: seq<Row>)
    ensures Problems(hash, rows) == [] <==> Chained(hash, rows)
    ensures Chained(hash, rows) ==> LastSeq(rows) == |rows|
  {
    if rows != [] {
      NoProblemsIffChained(hash, rows[..|rows| - 1]);
    }
  }

  /** The same entry, apart from its row id. */
  predicate SameEntry(a: Row, b: Row) {
    a.place == b.place && a.prev == b.prev && a.hash == b.hash && a.content == b.content
  }

  ghost predicate SameEntries(a: seq<Row>, b: seq<Row>) {
    |a| == |b| && forall i :: 0 <= i < |a| ==> SameEntry(a[i], b[i])
  }

  lemma {:induction false} SameHeadSameChain(hash: RowHash, a: seq<Row>, b: seq<Row>)
    requires NoCollision(hash, a, b) && Chained(hash, a) && Chained(hash, b)
    requires |a| == |b| && LastHash(a) == LastHash(b)
    ensures SameEntries(a, b)
  {
    if a != [] {
      var n := |a| - 1;
      assert !Collide(hash, a[n], b[n]);
      ShorterApart(hash, a, b, n);
      SameHeadSameChain(hash, a[..n], b[..n]);
      SameToo(a, b, n);
    }
  }

  lemma ShorterApart(hash: RowHash, a: seq<Row>, b: seq<Row>, n: nat)
    requires NoCollision(hash, a, b) && n <= |a| && n <= |b|
    ensures NoCollision(hash, a[..n], b[..n])
  {
  }

  lemma SameToo(a: seq<Row>, b: seq<Row>, n: nat)
    requires |a| == |b| == n + 1 && SameEntries(a[..n], b[..n]) && SameEntry(a[n], b[n])
    ensures SameEntries(a, b)
  {
    assert forall i :: 0 <= i < n ==> a[i] == a[..n][i] && b[i] == b[..n][i];
  }

  /**
   Two logs that both verify and report the same head have walked the same entries:
   a published head pins down everything before it.
   */
  lemma SameHeadSameLog(hash: RowHash, a: Log, b: Log)
    requires NoCollision(hash, a.chain, b.chain) && Ordered(a.chain) && Ordered(b.chain)
    requires AllProblems(hash, a) == [] && AllProblems(hash, b) == []
    requires LastSeq(a.chain) == LastSeq(b.chain) && LastHash(a.chain) == LastHash(b.chain)
    ensures SameEntries(Walked(a), Walked(b))
    ensures Positive(a) && Positive(b) ==> SameEntries(a.chain, b.chain)
  {
    NoProblemsIffChained(hash, Walked(a));
    NoProblemsIffChained(hash, Walked(b));
    HeadOfWalk(hash, a);
    HeadOfWalk(hash, b);
    assert NoCollision(hash, Walked(a), Walked(b));
    SameHeadSameChain(hash, Walked(a), Walked(b));
    PositiveWalked(a);
    PositiveWalked(b);
  }

  /** Every place is positive. */
  ghost predicate Positive(log: Log) { forall i :: 0 <= i < |log.chain| ==> log.chain[i].place > 0 }

  lemma PositiveWalked(log: Log)
    requires Ordered(log.chain)
    ensures Positive(log) ==> Walked(log) == log.chain
  {
    var k := FirstFrom(log.chain, 0, 0);
  }

  /** The length and last hash of the walked rows can be read off the head. */
  lemma HeadOfWalk(hash: RowHash, log: Log)
    requires Ordered(log.chain) && Chained(hash, Walked(log))
    ensures |Walked(log)| == if LastSeq(log.chain) > 0 then LastSeq(log.chain) else 0
    ensures LastHash(Walked(log)) == if LastSeq(log.chain) > 0 then LastHash(log.chain) else ""
  {
    var k := FirstFrom(log.chain, 0, 0);
    var w := Walked(log);
    if w != [] {
      assert w[|w| - 1] == log.chain[|log.chain| - 1];
    }
  }

  /** Positive places are needed: an entry at place 0 escapes the walk, and the head does not show it. */
  lemma ZeroEntryEscapes(hash: RowHash, stray: Row, first: Row)
    requires stray.place == 0 && first.place == 1 && first.prev == "" && first.hash == hash("", 1, first.content)
    ensures var a, b := Log([first], 0), Log([stray, first], 0);
            && Ordered(a.chain) && Ordered(b.chain) && AllProblems(hash, a) == [] && AllProblems(hash, b) == []
            && LastSeq(a.chain) == LastSeq(b.chain) && LastHash(a.chain) == LastHash(b.chain) && |a.chain| != |b.chain|
  {
    var rows := [stray, first];
    FirstAfterIs(rows, 0, 1);
    FirstAfterIs([first], 0, 0);
    assert rows[1..] == [first] && [first][0..] == [first];
    assert [first][..0] == [];
    NoProblemsIffChained(hash, [first]);
  }

  // --------------------------------------------------------------- appending

  /** The row the database's trigger makes of a new entry. */
  function Appended(hash: RowHash, log: Log, id: int, c: Content): Log {
    var n, prev := LastSeq(log.chain) + 1, LastHash(log.chain);
    log.(chain := log.chain + [Row(n, id, prev, hash(prev, n, c), c)])
  }

  /** An entry added by the trigger keeps a verified log verified. */
  lemma AppendVerifies(hash: RowHash, log: Log, id: int, c: Content)
    requires Ordered(log.chain) && Positive(log) && AllProblems(hash, log) == []
    ensures var log' := Appended(hash, log, id, c);
            Ordered(log'.chain) && Positive(log') && AllProblems(hash, log') == []
    ensures var rows, n := Appended(hash, log, id, c).chain, |log.chain|;
            |rows| == n + 1 && rows[..n] == log.chain && rows[n].id == id && rows[n].content == c
  {
    var log' := Appended(hash, log, id, c);
    PositiveWalked(log);
    AppendedFollows(hash, log.chain, log'.chain[|log.chain|]);
    AppendedOrdered(log, log');
    PositiveWalked(log');
  }

  lemma AppendedFollows(hash: RowHash, rows: seq<Row>, r: Row)
    requires Problems(hash, rows) == [] && RowProblems(hash, LastSeq(rows), LastHash(rows), r) == []
    ensures Problems(hash, rows + [r]) == [] && LastSeq(rows) >= 0
  {
    NoProblemsIffChained(hash, rows);
    ProblemsAfter(hash, rows, r);
  }

  lemma AppendedOrdered(log: Log, log': Log)
    requires Ordered(log.chain) && Positive(log) && LastSeq(log.chain) >= 0
    requires |log'.chain| == |log.chain| + 1 && log'.chain[..|log.chain|] == log.chain
             && LastSeq(log'.chain) == LastSeq(log.chain) + 1
    ensures Ordered(log'.chain) && Positive(log')
  {
    assert forall i :: 0 <= i < |log.chain| ==> log'.chain[i] == log.chain[i];
  }
}
