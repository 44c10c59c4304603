/**
 Words and lines of an output file, as the comparators of
 internal/checkers/checkers.go see them. A byte is a character.
 */
module Words {
  import opened Common

  type Text = seq<char>

  predicate IsSpace(c: char) {
    c == ' ' || c == '\t' || c == '\n' || c == '\r' || c == '\U{0B}' || c == '\U{0C}'
  }

  /** A scan in progress: the finished words and the one being read. */
  datatype Scan = Scan(words: seq<Text>, partial: Text)

  const START := Scan([], [])

  function Feed(s: Scan, c: char): Scan {
    if !IsSpace(c) then Scan(s.words, s.partial + [c])
    else Scan(Finish(s), [])
  }

  function Finish(s: Scan): seq<Text> {
    if s.partial == [] then s.words else s.words + [s.partial]
  }

  function Read(s: Scan, t: Text): Scan {
    if t == [] then s else Feed(Read(s, t[..|t| - 1]), t[|t| - 1])
  }

  /** The words of a text: the longest runs of characters that are not spaces. */
  function WordsOf(t: Text): seq<Text> { Finish(Read(START, t)) }

  // -------------------------------------------------------------- reading on

  lemma ReadNext(s: Scan, t: Text, i: nat)
    requires i < |t|
    ensures Read(s, t[..i + 1]) == Feed(Read(s, t[..i]), t[i])
  {
    assert t[..i + 1][..i] == t[..i];
  }

  lemma {:induction false} ReadConcat(s: Scan, t: Text, u: Text)
    ensures Read(s, t + u) == Read(Read(s, t), u)
  {
    if u == [] {
      assert t + u == t;
    } else {
      assert (t + u)[..|t + u| - 1] == t + u[..|u| - 1];
      ReadConcat(s, t, u[..|u| - 1]);
    }
  }

  /** Finished words stay in front. */
  lemma {:induction false} ReadAfter(ws: seq<Text>, q: Text, t: Text)
    ensures Read(Scan(ws, q), t) == Scan(ws + Read(Scan([], q), t).words, Read(Scan([], q), t).partial)
  {
    if t != [] {
      ReadAfter(ws, q, t[..|t| - 1]);
      var r := Read(Scan([], q), t[..|t| - 1]);
      assert ws + r.words + [r.partial] == ws + (r.words + [r.partial]);
    } else {
      assert ws + [] == ws;
    }
  }

  /** A text can be cut wherever no word is being read. */
  lemma WordsSplit(t: Text, u: Text)
    requires Read(START, t).partial == []
    ensures WordsOf(t + u) == WordsOf(t) + WordsOf(u)
  {
    ReadConcat(START, t, u);
    ReadAfter(Read(START, t).words, [], u);
    var ws, r := Read(START, t).words, Read(START, u);
    assert ws + r.words + [r.partial] == ws + (r.words + [r.partial]);
  }

  /** A word once begun only grows. */
  lemma {:induction false} WordGrows(q: Text, t: Text)
    requires q != []
    ensures var r := Read(Scan([], q), t);
            && Finish(r) != [] && |Finish(r)[0]| >= |q|
            && (r.words == [] ==> |r.partial| >= |q|) && (r.words != [] ==> r.words[0] == Finish(r)[0])
  {
    if t != [] {
      WordGrows(q, t[..|t| - 1]);
    }
  }

  // ------------------------------------------------------------ what words are

  ghost predicate IsWord(w: Text) { w != [] && forall i :: 0 <= i < |w| ==> !IsSpace(w[i]) }

  function Join(ws: seq<Text>): Text { if ws == [] then [] else Join(ws[..|ws| - 1]) + ws[|ws| - 1] }

  /** A text without its spaces. */
  function Solid(t: Text): Text {
    if t == [] then [] else Solid(t[..|t| - 1]) + (if IsSpace(t[|t| - 1]) then [] else [t[|t| - 1]])
  }

  lemma JoinLast(ws: seq<Text>, w: Text)
    ensures Join(ws + [w]) == Join(ws) + w
  {
    assert (ws + [w])[..|ws|] == ws;
  }

  /** Words are non-empty, without spaces, and together spell the text without its spaces. */
  lemma {:induction false} WordsShape(t: Text)
    ensures forall w :: w in WordsOf(t) ==> IsWord(w)
    ensures Join(WordsOf(t)) == Solid(t)
  {
    ReadShape(t);
    var r := Read(START, t);
    JoinLast(r.words, r.partial);
  }

  lemma {:induction false} ReadShape(t: Text)
    ensures var r := Read(START, t);
            && (forall w :: w in r.words ==> IsWord(w)) && (r.partial != [] ==> IsWord(r.partial))
            && Join(r.words) + r.partial == Solid(t)
  {
    if t != [] {
      ReadShape(t[..|t| - 1]);
      var r := Read(START, t[..|t| - 1]);
      JoinLast(r.words, r.partial);
    }
  }

  const SPACES: Text := " \t\n\r\U{0B}\U{0C}"

  /** Words apart from each other: only spaces around them, and at least one between two. */
  ghost predicate Separated(gaps: seq<Text>, ws: seq<Text>) {
    && |gaps| == |ws| + 1
    && (forall i, c :: 0 <= i < |gaps| && c in gaps[i] ==> c in SPACES)
    && (forall i :: 0 < i < |ws| ==> gaps[i] != [])
    && (forall i :: 0 <= i < |ws| ==> ws[i] != [] && forall c :: c in ws[i] ==> c !in SPACES)
  }

  /** The text with these words and these gaps around them. */
  function Weave(gaps: seq<Text>, ws: seq<Text>): Text
    requires |gaps| == |ws| + 1
  {
    if ws == [] then gaps[0] else Weave(gaps[..|ws|], ws[..|ws| - 1]) + ws[|ws| - 1] + gaps[|ws|]
  }

  lemma SpaceMeans(c: char)
    ensures IsSpace(c) <==> c in SPACES
  {
    assert SPACES == [' ', '\t', '\n', '\r', '\U{0B}', '\U{0C}'];
  }

  lemma {:induction false} ReadGap(s: Scan, g: Text)
    requires forall c :: c in g ==> c in SPACES
    ensures Read(s, g) == if g == [] then s else Scan(Finish(s), [])
  {
    if g != [] {
      SpaceMeans(g[|g| - 1]);
      ReadGap(s, g[..|g| - 1]);
    }
  }

  lemma {:induction false} ReadWord(s: Scan, w: Text)
    requires forall c :: c in w ==> c !in SPACES
    ensures Read(s, w) == Scan(s.words, s.partial + w)
  {
    if w == [] {
      assert s.partial + w == s.partial;
    } else {
      SpaceMeans(w[|w| - 1]);
      ReadWord(s, w[..|w| - 1]);
      assert s.partial + w == s.partial + w[..|w| - 1] + [w[|w| - 1]];
    }
  }

  /** The words of a text are the ones it was put together from. */
  lemma {:induction false} WovenWords(gaps: seq<Text>, ws: seq<Text>)
    requires Separated(gaps, ws)
    ensures WordsOf(Weave(gaps, ws)) == ws
    ensures Read(START, Weave(gaps, ws)).partial != [] ==> ws != [] && gaps[|ws|] == []
  {
    var n := |ws|;
    if n == 0 {
      ReadGap(START, gaps[0]);
    } else {
      SeparatedFront(gaps, ws);
      WovenWords(gaps[..n], ws[..n - 1]);
      ReadOneMore(Weave(gaps[..n], ws[..n - 1]), ws[n - 1], gaps[n]);
      assert ws[..n - 1] + [ws[n - 1]] == ws;
    }
  }

  lemma SeparatedFront(gaps: seq<Text>, ws: seq<Text>)
    requires Separated(gaps, ws) && ws != []
    ensures Separated(gaps[..|ws|], ws[..|ws| - 1]) && (|ws| > 1 ==> gaps[..|ws|][|ws| - 1] != [])
  {
  }

  lemma ReadOneMore(front: Text, w: Text, g: Text)
    requires Read(START, front).partial == [] && w != []
    requires (forall c :: c in w ==> c !in SPACES) && forall c :: c in g ==> c in SPACES
    ensures WordsOf(front + w + g) == WordsOf(front) + [w]
    ensures g != [] ==> Read(START, front + w + g).partial == []
  {
    var s := Read(START, front);
    ReadFrontWord(front, w);
    ReadConcat(START, front + w, g);
    ReadGap(Scan(s.words, w), g);
  }

  lemma ReadFrontWord(front: Text, w: Text)
    requires Read(START, front).partial == [] && forall c :: c in w ==> c !in SPACES
    ensures Read(START, front + w) == Scan(Read(START, front).words, w)
  {
    ReadConcat(START, front, w);
    WordFrom(Read(START, front), w);
  }

  lemma WordFrom(s: Scan, w: Text)
    requires s.partial == [] && forall c :: c in w ==> c !in SPACES
    ensures Read(s, w) == Scan(s.words, w)
  {
    ReadWord(s, w);
    assert s.partial + w == w;
  }

  /** Every text is put together from its words in this way. */
  lemma TextWoven(t: Text) returns (gaps: seq<Text>)
    ensures Separated(gaps, WordsOf(t)) && t == Weave(gaps, WordsOf(t))
  {
    gaps := WovenFrom(t);
    assert Unsealed(Seal);
  }

  /** The text is woven of these words; the last gap is empty exactly while a word is being read. */
  ghost predicate Woven(t: Text, gaps: seq<Text>, ws: seq<Text>, open: bool) {
    && |gaps| == |ws| + 1
    && forall s {:trigger Unsealed(s)} :: Unsealed(s) ==>
         && Separated(gaps, ws) && t == Weave(gaps, ws)
         && (if open then gaps[|ws|] == [] else ws != [] ==> gaps[|ws|] != [])
  }

  lemma {:induction false} WovenFrom(t: Text) returns (gaps: seq<Text>)
    ensures Woven(t, gaps, WordsOf(t), Read(START, t).partial != [])
  {
    if t == [] {
      return [[]];
    }
    var n := |t| - 1;
    gaps := WovenFrom(t[..n]);
    gaps := MoreWoven(Read(START, t[..n]), t[n], t[..n], gaps);
    assert t == t[..n] + [t[n]];
  }

  lemma MoreWoven(s: Scan, c: char, t: Text, before: seq<Text>) returns (gaps: seq<Text>)
    requires Woven(t, before, Finish(s), s.partial != [])
    ensures Woven(t + [c], gaps, Finish(Feed(s, c)), Feed(s, c).partial != [])
  {
    SpaceMeans(c);
    if IsSpace(c) {
      gaps := SpaceAdded(t, before, Finish(s), s.partial != [], c);
    } else if s.partial == [] {
      gaps := WordBegins(t, before, s.words, c);
    } else {
      gaps := before;
      WordContinues(t, before, s.words, s.partial, c);
    }
  }

  lemma SpaceAdded(t: Text, gaps: seq<Text>, ws: seq<Text>, open: bool, c: char) returns (gaps': seq<Text>)
    requires Woven(t, gaps, ws, open) && c in SPACES
    ensures Woven(t + [c], gaps', ws, false)
  {
    assert Unsealed(Seal);
    var n := |ws|;
    gaps' := gaps[n := gaps[n] + [c]];
    assert gaps'[..n] == gaps[..n];
    assert forall i :: 0 <= i < n ==> gaps'[i] == gaps[i];
    assert forall d :: d in gaps'[n] ==> d in gaps[n] || d == c;
  }

  lemma WordBegins(t: Text, gaps: seq<Text>, ws: seq<Text>, c: char) returns (gaps': seq<Text>)
    requires Woven(t, gaps, ws, false) && c !in SPACES
    ensures Woven(t + [c], gaps', ws + [[c]], true)
  {
    assert Unsealed(Seal);
    gaps' := gaps + [[]];
    var ws', n := ws + [[c]], |ws|;
    assert gaps'[..n + 1] == gaps && ws'[..n] == ws;
    assert forall i :: 0 <= i <= n ==> gaps'[i] == gaps[i];
    assert forall i :: 0 <= i < n ==> ws'[i] == ws[i];
  }

  lemma WordContinues(t: Text, gaps: seq<Text>, ws: seq<Text>, w: Text, c: char)
    requires Woven(t, gaps, ws + [w], true) && c !in SPACES
    ensures Woven(t + [c], gaps, ws + [w + [c]], true)
  {
    assert Unsealed(Seal);
    var old', new' := ws + [w], ws + [w + [c]];
    assert old'[..|ws|] == ws && new'[..|ws|] == ws;
    assert forall i :: 0 <= i < |ws| ==> new'[i] == old'[i];
    assert w == old'[|ws|] && forall d :: d in w + [c] ==> d in w || d == c;
  }

  // ------------------------------------------------------------------- lines

  /** Where the line that starts at p ends, terminator included. */
  function LineEnd(t: Text, p: nat): (q: nat)
    requires p <= |t|
    ensures p <= q <= |t| && (p < |t| ==> p < q)
    decreases |t| - p
  {
    if p == |t| then p else if t[p] == '\n' then p + 1 else LineEnd(t, p + 1)
  }

  /** The words of each line from p on. */
  function Rows(t: Text, p: nat): seq<seq<Text>>
    requires p <= |t|
    decreases |t| - p
  {
    if p == |t| then [] else [WordsOf(t[p..LineEnd(t, p)])] + Rows(t, LineEnd(t, p))
  }

  /** Without the blank lines at the end. */
  function Trim(rows: seq<seq<Text>>): seq<seq<Text>> {
    if rows == [] then []
    else
      var rest := Trim(rows[1..]);
      if rest == [] && rows[0] == [] then [] else [rows[0]] + rest
  }

  /** The words of every line after dropping trailing blank lines. */
  function Normal(t: Text): seq<seq<Text>> { Trim(Rows(t, 0)) }

  /** What is trimmed is blank, and what is left does not end in a blank line. */
  lemma {:induction false} TrimShape(rows: seq<seq<Text>>)
    ensures var kept := Trim(rows);
            && |kept| <= |rows| && kept == rows[..|kept|] && (kept != [] ==> kept[|kept| - 1] != [])
            && forall i :: |kept| <= i < |rows| ==> rows[i] == []
  {
    if rows != [] {
      TrimShape(rows[1..]);
    }
  }

  /** Trimmed lists agree exactly when their first rows do and the rest, trimmed, does. */
  lemma TrimCons(x: seq<Text>, xs: seq<seq<Text>>, y: seq<Text>, ys: seq<seq<Text>>)
    ensures Trim([x] + xs) == Trim([y] + ys) <==> x == y && Trim(xs) == Trim(ys)
    ensures Trim([x] + xs) == [] <==> x == [] && Trim(xs) == []
  {
    assert ([x] + xs)[1..] == xs && ([y] + ys)[1..] == ys;
    var a, b := Trim([x] + xs), Trim([y] + ys);
    assert a == [] || (a[0] == x && a[1..] == Trim(xs));
    assert b == [] || (b[0] == y && b[1..] == Trim(ys));
  }

  function Flatten(rows: seq<seq<Text>>): seq<Text> {
    if rows == [] then [] else rows[0] + Flatten(rows[1..])
  }

  lemma {:induction false} FlattenTrim(rows: seq<seq<Text>>)
    ensures Flatten(Trim(rows)) == Flatten(rows)
  {
    if rows != [] {
      FlattenTrim(rows[1..]);
      var rest := Trim(rows[1..]);
      assert ([rows[0]] + rest)[1..] == rest;
    }
  }

  lemma ReadNewline(t: Text)
    requires t != [] && t[|t| - 1] == '\n'
    ensures Read(START, t).partial == []
  {
  }

  /** A line ends where no word is being read, or at the end of the text. */
  lemma {:induction false} LineEndsClean(t: Text, p: nat, i: nat)
    requires p <= i <= |t|
    ensures LineEnd(t, i) == |t| || Read(START, t[p..LineEnd(t, i)]).partial == []
    decreases |t| - i
  {
    if i < |t| {
      if t[i] == '\n' {
        ReadNewline(t[p..i + 1]);
      } else {
        LineEndsClean(t, p, i + 1);
      }
    }
  }

  /** The words of a text are those of its lines. */
  lemma {:induction false} RowsWords(t: Text, p: nat)
    requires p <= |t|
    ensures Flatten(Rows(t, p)) == WordsOf(t[p..])
    decreases |t| - p
  {
    if p < |t| {
      var q := LineEnd(t, p);
      RowsWords(t, q);
      FlattenCons(WordsOf(t[p..q]), Rows(t, q));
      LineThenRest(t, p);
    }
  }

  lemma FlattenCons(row: seq<Text>, rows: seq<seq<Text>>)
    ensures Flatten([row] + rows) == row + Flatten(rows)
  {
    assert ([row] + rows)[1..] == rows;
  }

  /** The words of a line, then those of what follows it. */
  lemma LineThenRest(t: Text, p: nat)
    requires p < |t|
    ensures var q := LineEnd(t, p); WordsOf(t[p..]) == WordsOf(t[p..q]) + WordsOf(t[q..])
  {
    var q := LineEnd(t, p);
    LineEndsClean(t, p, p);
    assert t[p..] == t[p..q] + t[q..];
    if q == |t| {
      assert t[p..q] == t[p..] && t[q..] == [];
    } else {
      WordsSplit(t[p..q], t[q..]);
    }
  }

  /** A text of lines, with a newline between any two. */
  function Lined(lines: seq<Text>): Text {
    if lines == [] then [] else if |lines| == 1 then lines[0] else lines[0] + "\n" + Lined(lines[1..])
  }

  /** The lines of a text; what follows the last newline is a line too, blank perhaps. */
  ghost predicate AreLines(lines: seq<Text>, t: Text) {
    lines != [] && t == Lined(lines) && forall i :: 0 <= i < |lines| ==> '\n' !in lines[i]
  }

  /** Every text has lines. */
  lemma {:induction false} HasLines(t: Text) returns (lines: seq<Text>)
    ensures AreLines(lines, t)
  {
    if t == [] {
      return [[]];
    }
    var rest := HasLines(t[1..]);
    if t[0] == '\n' {
      lines := [[]] + rest;
      assert lines[1..] == rest && t == lines[0] + "\n" + t[1..];
    } else {
      lines := [[t[0]] + rest[0]] + rest[1..];
      assert lines[1..] == rest[1..];
      assert t == [t[0]] + t[1..];
      assert |rest| > 1 ==> t == [t[0]] + rest[0] + "\n" + Lined(rest[1..]);
    }
  }

  /** The words on the i-th line; there are none beyond the last. */
  function WordsOn(lines: seq<Text>, i: nat): seq<Text> {
    if i < |lines| then WordsOf(lines[i]) else []
  }

  /** What a line is: up to its newline, or to the end of the text. */
  lemma {:induction false} LineEndsThere(t: Text, p: nat, q: nat)
    requires p < q <= |t| && forall k :: p <= k < q - 1 ==> t[k] != '\n'
    ensures t[q - 1] == '\n' || q == |t| ==> LineEnd(t, p) == q
    ensures t[q - 1] != '\n' ==> LineEnd(t, p) == LineEnd(t, q)
    decreases q - p
  {
    if p + 1 < q {
      LineEndsThere(t, p + 1, q);
    }
  }

  function RowAt(rows: seq<seq<Text>>, i: nat): seq<Text> {
    if i < |rows| then rows[i] else []
  }

  /** The rows are the words of the lines; a blank line at the end may have none. */
  ghost predicate RowsAre(rows: seq<seq<Text>>, lines: seq<Text>) {
    forall i: nat :: RowAt(rows, i) == WordsOn(lines, i)
  }

  lemma RowsNext(rows: seq<seq<Text>>, lines: seq<Text>)
    requires lines != [] && RowsAre(rows, lines[1..])
    ensures RowsAre([WordsOf(lines[0])] + rows, lines)
  {
    var all := [WordsOf(lines[0])] + rows;
    forall i: nat ensures RowAt(all, i) == WordsOn(lines, i) {
      if i > 0 {
        assert RowAt(all, i) == RowAt(rows, i - 1) && WordsOn(lines, i) == WordsOn(lines[1..], i - 1);
      }
    }
  }

  /** The rows of a text hold the words of its lines. */
  lemma {:induction false} RowsOfLines(pre: Text, lines: seq<Text>, t: Text)
    requires AreLines(lines, t)
    ensures RowsAre(Rows(pre + t, |pre|), lines)
    decreases |lines|
  {
    var l, rest := lines[0], Lined(lines[1..]);
    if |lines| == 1 {
      LastRow(pre, l);
    } else {
      var pre' := pre + l + "\n";
      assert pre + t == pre' + rest;
      RowsOfLines(pre', lines[1..], rest);
      FirstRow(pre, l, rest);
      RowsNext(Rows(pre' + rest, |pre'|), lines);
    }
  }

  lemma LastRow(pre: Text, l: Text)
    requires '\n' !in l
    ensures Rows(pre + l, |pre|) == if l == [] then [] else [WordsOf(l)]
  {
    var u, p := pre + l, |pre|;
    if l != [] {
      assert forall k :: p <= k < |u| ==> u[k] == l[k - p];
      LineEndsThere(u, p, |u|);
      assert u[p..|u|] == l && Rows(u, |u|) == [];
    }
  }

  lemma FirstRow(pre: Text, l: Text, rest: Text)
    requires '\n' !in l
    ensures var u := pre + l + "\n" + rest; Rows(u, |pre|) == [WordsOf(l)] + Rows(u, |pre + l + "\n"|)
  {
    var u, p, q := pre + l + "\n" + rest, |pre|, |pre + l + "\n"|;
    assert forall k :: p <= k < q - 1 ==> u[k] == l[k - p];
    assert u[q - 1] == '\n';
    LineEndsThere(u, p, q);
    assert u[p..q] == l + "\n";
    NewlineEnds(l);
  }

  lemma NewlineEnds(l: Text)
    ensures WordsOf(l + "\n") == WordsOf(l)
  {
    assert (l + "\n")[..|l|] == l;
  }

  /** Trimmed rows agree exactly when they agree place by place, rows that are missing being blank. */
  lemma TrimSame(xs: seq<seq<Text>>, ys: seq<seq<Text>>)
    ensures Trim(xs) == Trim(ys) <==> forall i :: RowAt(xs, i) == RowAt(ys, i)
  {
    TrimRows(xs);
    TrimRows(ys);
    if forall i :: RowAt(xs, i) == RowAt(ys, i) {
      ProperRowsSame(Trim(xs), Trim(ys));
    }
  }

  ghost predicate EndsInWords(rows: seq<seq<Text>>) { rows != [] ==> rows[|rows| - 1] != [] }

  lemma TrimRows(xs: seq<seq<Text>>)
    ensures EndsInWords(Trim(xs)) && forall i :: RowAt(Trim(xs), i) == RowAt(xs, i)
  {
    TrimShape(xs);
  }

  lemma ProperRowsSame(a: seq<seq<Text>>, b: seq<seq<Text>>)
    requires EndsInWords(a) && EndsInWords(b) && forall i :: RowAt(a, i) == RowAt(b, i)
    ensures a == b
  {
    if a != [] {
      assert RowAt(b, |a| - 1) != [];
    }
    if b != [] {
      assert RowAt(a, |b| - 1) != [];
    }
    assert forall i :: 0 <= i < |a| && i < |b| ==> a[i] == RowAt(a, i) == RowAt(b, i) == b[i];
  }

  /** Texts have the same rows of words exactly when their lines have the same words. */
  lemma NormalByLines(t: Text, u: Text, ls: seq<Text>, ms: seq<Text>)
    requires AreLines(ls, t) && AreLines(ms, u)
    ensures Normal(t) == Normal(u) <==> forall i :: WordsOn(ls, i) == WordsOn(ms, i)
  {
    assert [] + t == t && [] + u == u;
    RowsOfLines([], ls, t);
    RowsOfLines([], ms, u);
    TrimSame(Rows(t, 0), Rows(u, 0));
    if forall i :: RowAt(Rows(t, 0), i) == RowAt(Rows(u, 0), i) {
      forall i ensures WordsOn(ls, i) == WordsOn(ms, i) {
        assert RowAt(Rows(t, 0), i) == RowAt(Rows(u, 0), i);
      }
    }
  }

  /** Texts with the same lines of words have the same words. */
  lemma SameRowsSameWords(t: Text, u: Text)
    requires Normal(t) == Normal(u)
    ensures WordsOf(t) == WordsOf(u)
  {
    RowsWords(t, 0);
    RowsWords(u, 0);
    FlattenTrim(Rows(t, 0));
    FlattenTrim(Rows(u, 0));
    assert t[0..] == t && u[0..] == u;
  }
}
