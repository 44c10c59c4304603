/**
 Edit scripts between two texts: what a line diff is, independently of how one
 is computed. A script is a list of kept, deleted and inserted lines; its cost is
 the number of deleted and inserted ones.
 */
module EditScripts {
  import opened Common

  datatype Op = Same | Del | Ins

  /** One line of a diff; `a` and `b` are 1-based line numbers, 0 when absent. */
  datatype DiffLine = DiffLine(op: Op, text: string, a: nat, b: nat)

  type Script = seq<DiffLine>

  /** The lines of the old text a script mentions, in order. */
  function OldSide(s: Script): seq<string> {
    if s == [] then [] else (if s[0].op == Ins then [] else [s[0].text]) + OldSide(s[1..])
  }

  /** The lines of the new text a script mentions, in order. */
  function NewSide(s: Script): seq<string> {
    if s == [] then [] else (if s[0].op == Del then [] else [s[0].text]) + NewSide(s[1..])
  }

  /** The number of deleted and inserted lines. */
  function Cost(s: Script): nat {
    if s == [] then 0 else (if s[0].op == Same then 0 else 1) + Cost(s[1..])
  }

  /** The script turns `a` into `b`. */
  ghost predicate Spells(s: Script, a: seq<string>, b: seq<string>) {
    OldSide(s) == a && NewSide(s) == b
  }

  /** No script turning `a` into `b` has fewer deletions and insertions. */
  ghost predicate Minimal(s: Script, a: seq<string>, b: seq<string>) {
    && Spells(s, a, b)
    && forall t :: Spells(t, a, b) ==> Cost(s) <= Cost(t)
  }

  /** Some script turns `a` into `b` with at most `d` deletions and insertions. */
  ghost predicate Within(a: seq<string>, b: seq<string>, d: int) {
    exists t :: Spells(t, a, b) && Cost(t) <= d
  }

  /**
   The line numbers continue a script that has already consumed `i` old and `j`
   new lines: old lines are numbered i+1, i+2, … in order, new lines j+1, j+2, …,
   and the number of an absent side is 0.
   */
  ghost predicate Numbered(s: Script, i: nat, j: nat) {
    s == [] ||
    match s[0].op
    case Same => s[0].a == i + 1 && s[0].b == j + 1 && Numbered(s[1..], i + 1, j + 1)
    case Del => s[0].a == i + 1 && s[0].b == 0 && Numbered(s[1..], i + 1, j)
    case Ins => s[0].a == 0 && s[0].b == j + 1 && Numbered(s[1..], i, j + 1)
  }

  function Rev<T>(s: seq<T>): (r: seq<T>)
    ensures |r| == |s|
  {
    seq(|s|, i requires 0 <= i < |s| => s[|s| - 1 - i])
  }

  lemma {:induction false} OldSideConcat(s: Script, t: Script)
    ensures OldSide(s + t) == OldSide(s) + OldSide(t)
  {
    if s == [] {
      assert s + t == t;
    } else {
      assert (s + t)[1..] == s[1..] + t;
      OldSideConcat(s[1..], t);
    }
  }

  lemma {:induction false} NewSideConcat(s: Script, t: Script)
    ensures NewSide(s + t) == NewSide(s) + NewSide(t)
  {
    if s == [] {
      assert s + t == t;
    } else {
      assert (s + t)[1..] == s[1..] + t;
      NewSideConcat(s[1..], t);
    }
  }

  lemma {:induction false} CostConcat(s: Script, t: Script)
    ensures Cost(s + t) == Cost(s) + Cost(t)
  {
    if s == [] {
      assert s + t == t;
    } else {
      assert (s + t)[1..] == s[1..] + t;
      CostConcat(s[1..], t);
    }
  }

  /** What scripts spell and cost adds up. */
  lemma SidesConcat(s: Script, t: Script)
    ensures OldSide(s + t) == OldSide(s) + OldSide(t)
    ensures NewSide(s + t) == NewSide(s) + NewSide(t)
    ensures Cost(s + t) == Cost(s) + Cost(t)
  {
    OldSideConcat(s, t);
    NewSideConcat(s, t);
    CostConcat(s, t);
  }

  lemma {:induction false} NumberedConcat(s: Script, i: nat, j: nat, t: Script, i': nat, j': nat)
    requires Numbered(s, i, j) && i' == i + |OldSide(s)| && j' == j + |NewSide(s)|
    requires Numbered(t, i', j')
    ensures Numbered(s + t, i, j)
  {
    if s == [] {
      assert s + t == t;
    } else {
      assert (s + t)[1..] == s[1..] + t;
      NumberedConcat(s[1..], if s[0].op == Ins then i else i + 1, if s[0].op == Del then j else j + 1, t, i', j');
    }
  }

  /** The script turns `a` into `b` with line numbers that follow i old and j new lines. */
  ghost predicate Turns(s: Script, a: seq<string>, b: seq<string>, i: nat, j: nat) {
    forall seal {:trigger Unsealed(seal)} :: Unsealed(seal) ==> Spells(s, a, b) && Numbered(s, i, j)
  }

  /** Scripts for two halves of both texts make a script for the whole. */
  lemma Join(s: Script, a: seq<string>, b: seq<string>, i: nat, j: nat,
             t: Script, a': seq<string>, b': seq<string>, i': nat, j': nat)
    requires Turns(s, a, b, i, j) && i' == i + |a| && j' == j + |b| && Turns(t, a', b', i', j')
    ensures Turns(s + t, a + a', b + b', i, j) && Cost(s + t) == Cost(s) + Cost(t)
  {
    assert Unsealed(Seal);
    SidesConcat(s, t);
    NumberedConcat(s, i, j, t, i', j');
  }

  lemma RevConcat<T>(s: seq<T>, t: seq<T>)
    ensures Rev(s + t) == Rev(t) + Rev(s)
  {
  }

  lemma {:induction false} SidesRev(s: Script)
    ensures OldSide(Rev(s)) == Rev(OldSide(s))
    ensures NewSide(Rev(s)) == Rev(NewSide(s))
    ensures Cost(Rev(s)) == Cost(s)
  {
    if s != [] {
      var h, t := [s[0]], s[1..];
      assert s == h + t;
      SidesRev(t);
      RevConcat(h, t);
      SidesConcat(Rev(t), Rev(h));
      SidesConcat(h, t);
      RevConcat(OldSide(h), OldSide(t));
      RevConcat(NewSide(h), NewSide(t));
      assert Rev(h) == h;
      assert Rev(OldSide(h)) == OldSide(h) && Rev(NewSide(h)) == NewSide(h);
    }
  }

  lemma {:induction false} CostAtMostLengths(s: Script)
    ensures Cost(s) <= |OldSide(s)| + |NewSide(s)|
  {
    if s != [] {
      CostAtMostLengths(s[1..]);
    }
  }

  /** Every script pays at least the difference of the lengths. */
  lemma {:induction false} CostAtLeastDifference(s: Script)
    ensures |OldSide(s)| - |NewSide(s)| <= Cost(s)
    ensures |NewSide(s)| - |OldSide(s)| <= Cost(s)
  {
    if s != [] {
      CostAtLeastDifference(s[1..]);
    }
  }

  // ---------------------------------------------------------------- trimming

  /** Dropping the first new line costs at most one more edit. */
  lemma {:induction false} DropNewHead(s: Script, a: seq<string>, h: string, b: seq<string>) returns (t: Script)
    requires Spells(s, a, [h] + b)
    ensures Spells(t, a, b) && Cost(t) <= Cost(s) + 1
  {
    assert s != [];
    match s[0].op
    case Ins =>
      t := s[1..];
      assert NewSide(t) == NewSide(s)[1..] == b;
    case Same =>
      t := [s[0].(op := Del)] + s[1..];
      assert t[1..] == s[1..];
      assert NewSide(t) == NewSide(s)[1..] == b;
    case Del =>
      assert a[1..] == OldSide(s[1..]);
      var r := DropNewHead(s[1..], a[1..], h, b);
      t := [s[0]] + r;
      assert t[1..] == r;
  }

  /** Dropping the first old line costs at most one more edit. */
  lemma {:induction false} DropOldHead(s: Script, h: string, a: seq<string>, b: seq<string>) returns (t: Script)
    requires Spells(s, [h] + a, b)
    ensures Spells(t, a, b) && Cost(t) <= Cost(s) + 1
  {
    assert s != [];
    match s[0].op
    case Del =>
      t := s[1..];
      assert OldSide(t) == OldSide(s)[1..] == a;
    case Same =>
      t := [s[0].(op := Ins)] + s[1..];
      assert t[1..] == s[1..];
      assert OldSide(t) == OldSide(s)[1..] == a;
    case Ins =>
      assert b[1..] == NewSide(s[1..]);
      var r := DropOldHead(s[1..], h, a, b[1..]);
      t := [s[0]] + r;
      assert t[1..] == r;
  }

  /** A common prefix can be taken off without making the cheapest script dearer. */
  lemma {:induction false} TrimPrefix(s: Script, p: seq<string>, a: seq<string>, b: seq<string>) returns (t: Script)
    requires Spells(s, p + a, p + b)
    ensures Spells(t, a, b) && Cost(t) <= Cost(s)
    decreases |p|
  {
    if p == [] {
      assert p + a == a && p + b == b;
      t := s;
    } else {
      var h, q := p[0], p[1..];
      assert p + a == [h] + (q + a) && p + b == [h] + (q + b);
      var r := s[1..];
      assert s != [];
      if s[0].op == Same {
        assert OldSide(r) == OldSide(s)[1..] && NewSide(r) == NewSide(s)[1..];
      } else if s[0].op == Del {
        assert OldSide(r) == OldSide(s)[1..];
        r := DropNewHead(r, q + a, h, q + b);
      } else {
        assert NewSide(r) == NewSide(s)[1..];
        r := DropOldHead(r, h, q + a, q + b);
      }
      t := TrimPrefix(r, q, a, b);
    }
  }

  /** A common suffix can be taken off without making the cheapest script dearer. */
  lemma TrimSuffix(s: Script, a: seq<string>, b: seq<string>, q: seq<string>) returns (t: Script)
    requires Spells(s, a + q, b + q)
    ensures Spells(t, a, b) && Cost(t) <= Cost(s)
  {
    SidesRev(s);
    assert Rev(a + q) == Rev(q) + Rev(a) && Rev(b + q) == Rev(q) + Rev(b);
    var r := TrimPrefix(Rev(s), Rev(q), Rev(a), Rev(b));
    t := Rev(r);
    SidesRev(r);
    assert Rev(Rev(a)) == a && Rev(Rev(b)) == b;
  }
}
