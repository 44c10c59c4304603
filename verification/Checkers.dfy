/**
 The streaming comparators of internal/checkers/checkers.go, proved against simple
 normal forms: byte equality, equal lines of words, and matching words.
 */
module Checkers {
  import opened Common
  import opened Words

  // ------------------------------------------------------------------- exact

  /** Fills a buffer of n bytes from position p: fewer bytes mean the end was reached. */
  function Chunk(t: Text, p: nat, n: nat): Text
    requires p <= |t|
  {
    if p + n <= |t| then t[p..p + n] else t[p..]
  }

  /** The chunked loop decides equality, whatever the buffer size. */
  method CompareExact(expected: Text, actual: Text, bufSize: nat) returns (ok: bool)
    requires bufSize >= 1
    ensures ok <==> expected == actual
  {
    var p := 0;
    while true
      invariant p <= |expected| && p <= |actual| && expected[..p] == actual[..p]
      decreases |expected| - p
    {
      var a, b := Chunk(expected, p, bufSize), Chunk(actual, p, bufSize);
      if |a| != |b| || a != b {
        ChunksDiffer(expected, actual, p, bufSize);
        return false;
      }
      assert expected[..p + |a|] == expected[..p] + a && actual[..p + |b|] == actual[..p] + b;
      p := p + |a|;
      var endA, endB := |a| < bufSize, |b| < bufSize;
      if endA || endB {
        assert expected[..p] == expected && actual[..p] == actual;
        return endA && endB;
      }
    }
  }

  lemma ChunksDiffer(t: Text, u: Text, p: nat, n: nat)
    requires p <= |t| && p <= |u| && Chunk(t, p, n) != Chunk(u, p, n)
    ensures t != u
  {
  }

  // ------------------------------------------------------------------- white

  /** How a read that looks for the end of a line ends. */
  datatype ReadStatus = Found | BufferFull | EndOfFile

  /** A buffered reader handing out lines of arbitrary length. */
  class LineReader {
    const data: Text
    const size: nat
    var pos: nat
    var buf: Text

    constructor (data: Text, size: nat)
      requires size >= 1
      ensures this.data == data && this.size == size && pos == 0 && Valid()
    {
      this.data, this.size, pos, buf := data, size, 0, [];
    }

    ghost predicate Valid()
      reads this
    {
      size >= 1 && pos <= |data|
    }

    /** Reads up to and including the next newline, but no more than the buffer holds. */
    method ReadSlice() returns (chunk: Text, status: ReadStatus)
      requires Valid()
      modifies this`pos
      ensures Valid() && old(pos) <= pos && chunk == data[old(pos)..pos]
      ensures forall k :: old(pos) <= k < pos && (status == Found ==> k < pos - 1) ==> data[k] != '\n'
      ensures status == Found ==> old(pos) < pos && data[pos - 1] == '\n'
      ensures status == BufferFull ==> pos == old(pos) + size
      ensures status == EndOfFile ==> pos == |data|
    {
      var start := pos;
      while pos < |data| && pos - start < size
        invariant Valid() && start == old(pos) <= pos <= start + size
        invariant forall k :: start <= k < pos ==> data[k] != '\n'
        decreases |data| - pos
      {
        pos := pos + 1;
        if data[pos - 1] == '\n' {
          return data[start..pos], Found;
        }
      }
      chunk := data[start..pos];
      status := if pos - start == size then BufferFull else EndOfFile;
    }

    /** The next line, gathered chunk by chunk; `ok` is false at the end. */
    method Next() returns (line: Text, ok: bool)
      requires Valid()
      modifies this`pos, this`buf
      ensures Valid() && ok == (old(pos) < |data|)
      ensures pos == LineEnd(data, old(pos)) && line == data[old(pos)..pos]
    {
      buf := [];
      while true
        invariant Valid() && old(pos) <= pos && buf == data[old(pos)..pos]
        invariant LineEnd(data, pos) == LineEnd(data, old(pos)) && (old(pos) < |data| ==> pos < |data| || buf != [])
        decreases |data| - pos
      {
        ghost var p := pos;
        var chunk, status := ReadSlice();
        assert data[old(pos)..p] + data[p..pos] == data[old(pos)..pos];
        buf := buf + chunk;
        if p < pos {
          LineEndsThere(data, p, pos);
        }
        match status
        case Found => return buf, true;
        case BufferFull => {}
        case EndOfFile => return buf, |buf| > 0;
      }
    }
  }

  /** Where the word that starts at i ends. */
  method WordEnd(line: Text, i: nat, ghost words: seq<Text>) returns (j: nat)
    requires i <= |line| && words == Finish(Read(START, line[..i]))
    requires i < |line| && !IsSpace(line[i]) ==> Read(START, line[..i]).partial == []
    ensures i <= j <= |line| && (j < |line| ==> IsSpace(line[j]))
    ensures if j > i then Read(START, line[..j]) == Scan(words, line[i..j]) else i == |line| || IsSpace(line[i])
  {
    j := i;
    while j < |line| && !IsSpace(line[j])
      invariant i <= j <= |line|
      invariant j > i ==> Read(START, line[..j]) == Scan(words, line[i..j])
      invariant j == i < |line| && !IsSpace(line[i]) ==> Read(START, line[..j]) == Scan(words, [])
    {
      ReadNext(START, line, j);
      j := j + 1;
    }
  }

  /** Splits a line into words by two indices. */
  method Fields(line: Text) returns (words: seq<Text>)
    ensures words == WordsOf(line)
  {
    words := [];
    var i := 0;
    while i < |line|
      invariant i <= |line| && words == Finish(Read(START, line[..i]))
      invariant Read(START, line[..i]).partial != [] ==> i == |line| || IsSpace(line[i])
    {
      var start := i;
      while i < |line| && IsSpace(line[i])
        invariant start <= i <= |line| && words == Finish(Read(START, line[..i]))
        invariant Read(START, line[..i]).partial != [] ==> i == |line| || IsSpace(line[i])
      {
        ReadNext(START, line, i);
        i := i + 1;
      }
      var j := WordEnd(line, i, words);
      if j > i {
        words := words + [line[i..j]];
      }
      i := j;
    }
    assert line[..|line|] == line;
  }

  method Blank(line: Text) returns (blank: bool)
    ensures blank <==> WordsOf(line) == []
  {
    for i := 0 to |line|
      invariant Read(START, line[..i]) == START
    {
      ReadNext(START, line, i);
      if !IsSpace(line[i]) {
        WordAhead(line, i + 1);
        return false;
      }
    }
    assert line[..|line|] == line;
    blank := true;
  }

  lemma WordAhead(t: Text, i: nat)
    requires i <= |t| && Read(START, t[..i]).words == [] && Read(START, t[..i]).partial != []
    ensures WordsOf(t) != []
  {
    assert t == t[..i] + t[i..];
    ReadConcat(START, t[..i], t[i..]);
    WordGrows(Read(START, t[..i]).partial, t[i..]);
  }

  method SameWords(a: seq<Text>, b: seq<Text>) returns (same: bool)
    ensures same <==> a == b
  {
    if |a| != |b| {
      return false;
    }
    for i := 0 to |a|
      invariant a[..i] == b[..i]
    {
      if a[i] != b[i] {
        return false;
      }
    }
    assert a[..|a|] == a && b[..|b|] == b;
    same := true;
  }

  /**
   Accepts exactly the texts with the same words on every line, lines that are missing having none, whatever
   the buffer size.
   */
  method CompareWhite(expected: Text, actual: Text, bufSize: nat) returns (ok: bool)
    requires bufSize >= 1
    ensures ok <==> Normal(expected) == Normal(actual)
    ensures forall ls, ms :: AreLines(ls, expected) && AreLines(ms, actual) ==>
                               (ok <==> forall i :: WordsOn(ls, i) == WordsOn(ms, i))
  {
    forall ls, ms | AreLines(ls, expected) && AreLines(ms, actual)
      ensures Normal(expected) == Normal(actual) <==> forall i :: WordsOn(ls, i) == WordsOn(ms, i)
    {
      NormalByLines(expected, actual, ls, ms);
    }
    var a := new LineReader(expected, bufSize);
    var b := new LineReader(actual, bufSize);
    while true
      invariant a.data == expected && b.data == actual && a.Valid() && b.Valid() && fresh(a) && fresh(b) && a != b
      invariant Normal(expected) == Normal(actual) <==> Trim(Rows(expected, a.pos)) == Trim(Rows(actual, b.pos))
      decreases |expected| - a.pos + |actual| - b.pos
    {
      ghost var p, q := a.pos, b.pos;
      var la, okA := a.Next();
      var lb, okB := b.Next();
      ghost var rest, rest' := Rows(expected, a.pos), Rows(actual, b.pos);
      TrimCons(WordsOf(la), rest, WordsOf(lb), rest');
      TrimCons(WordsOf(lb), rest', WordsOf(la), rest);
      if !okA && !okB {
        return true;
      } else if !okA {
        var blank := Blank(lb);
        if !blank {
          return false;
        }
      } else if !okB {
        var blank := Blank(la);
        if !blank {
          return false;
        }
      } else {
        var fa := Fields(la);
        var fb := Fields(lb);
        var same := SameWords(fa, fb);
        if !same {
          return false;
        }
      }
    }
  }

  // ------------------------------------------------------------------- float

  const TOKEN_LIMIT: nat := 0x10_0000

  /** The next token, the end, or a token over the limit. */
  datatype Token = Token(text: Text) | NoToken | TooLong

  /** What reading the first of some words gives. */
  function First(words: seq<Text>): Token {
    if words == [] then NoToken else if |words[0]| > TOKEN_LIMIT then TooLong else Token(words[0])
  }

  /** A reader handing out the words of a text. */
  class TokenReader {
    const data: Text
    var pos: nat
    var buf: Text

    constructor (data: Text)
      ensures this.data == data && pos == 0
    {
      this.data, pos, buf := data, 0, [];
    }

    /** Reads byte by byte up to the end of the next word. */
    method Next() returns (r: Token)
      requires pos <= |data|
      modifies this`pos, this`buf
      ensures old(pos) <= pos <= |data| && r == First(WordsOf(data[old(pos)..]))
      ensures r.Token? ==> pos > old(pos) && WordsOf(data[pos..]) == WordsOf(data[old(pos)..])[1..]
      ensures r.NoToken? ==> WordsOf(data[pos..]) == []
    {
      buf := [];
      ghost var start, all := pos, data[pos..];
      while true
        invariant start == old(pos) <= pos <= |data| && all == data[start..] && |buf| <= TOKEN_LIMIT
        invariant Read(START, all[..pos - start]) == Scan([], buf)
        decreases |data| - pos
      {
        if pos == |data| {
          assert all[..pos - start] == all;
          assert data[pos..] == [];
          return if |buf| > 0 then Token(buf) else NoToken;
        }
        var c := data[pos];
        ReadNext(START, all, pos - start);
        pos := pos + 1;
        if IsSpace(c) {
          if |buf| > 0 {
            TokenEnds(data, start, pos, buf);
            return Token(buf);
          }
        } else {
          buf := buf + [c];
          if |buf| > TOKEN_LIMIT {
            TokenBegun(all, pos - start, buf);
            return TooLong;
          }
        }
      }
    }
  }

  lemma TokenEnds(t: Text, p: nat, q: nat, w: Text)
    requires p <= q <= |t| && Read(START, t[p..][..q - p]) == Scan([w], [])
    ensures WordsOf(t[p..]) == [w] + WordsOf(t[q..])
  {
    assert t[p..] == t[p..][..q - p] + t[q..];
    WordsSplit(t[p..][..q - p], t[q..]);
  }

  lemma TokenBegun(t: Text, i: nat, w: Text)
    requires i <= |t| && w != [] && Read(START, t[..i]) == Scan([], w)
    ensures WordsOf(t) != [] && |WordsOf(t)[0]| >= |w|
  {
    assert t == t[..i] + t[i..];
    ReadConcat(START, t[..i], t[i..]);
    WordGrows(w, t[i..]);
  }

  /**
   The floating-point arithmetic, with whatever rounding it has: how tokens become numbers,
   which of those are finite, the operations and comparison the checker uses, the tolerances.
   */
  datatype Numbers<!F> = Numbers(
    parse: Text -> Option<F>, finite: F -> bool, sub: (F, F) -> F, mul: (F, F) -> F, abs: F -> F, leq: (F, F) -> bool,
    absTol: F, relTol: F)

  /** Two numbers are within the tolerances, the second of them relative to the first. */
  predicate Close<F>(n: Numbers<F>, x: F, y: F) {
    var d := n.abs(n.sub(x, y));
    n.leq(d, n.absTol) || n.leq(d, n.mul(n.relTol, n.abs(x)))
  }

  predicate Matches<F>(n: Numbers<F>, a: Text, b: Text) {
    a == b || (n.parse(a).Some? && n.parse(b).Some? &&
               var x, y := n.parse(a).value, n.parse(b).value;
               n.finite(x) && n.finite(y) && Close(n, x, y))
  }

  /** The verdict on two lists of words; None is the error of an overlong token. */
  function Verdict<F>(n: Numbers<F>, a: seq<Text>, b: seq<Text>): Option<bool> {
    if First(a) == TooLong || First(b) == TooLong then None
    else if a == [] || b == [] then Some(a == [] && b == [])
    else if !Matches(n, a[0], b[0]) then Some(false)
    else Verdict(n, a[1..], b[1..])
  }

  /** Two words are one, or finite numbers within the tolerance, absolute or relative to the expected number. */
  ghost predicate Agree<F>(n: Numbers<F>, expected: Text, actual: Text) {
    expected != actual ==>
      match (n.parse(expected), n.parse(actual))
      case (Some(x), Some(y)) =>
        && n.finite(x) && n.finite(y)
        && (n.leq(n.abs(n.sub(x, y)), n.absTol) || n.leq(n.abs(n.sub(x, y)), n.mul(n.relTol, n.abs(x))))
      case _ => false
  }

  /** The first k words on both sides agree. */
  ghost predicate AgreeUpTo<F>(n: Numbers<F>, a: seq<Text>, b: seq<Text>, k: nat) {
    k <= |a| && k <= |b| && forall i :: 0 <= i < k ==> Agree(n, a[i], b[i])
  }

  /** After so many words that agree there is one of more than a mebibyte. */
  ghost predicate OverlongAt<F>(n: Numbers<F>, a: seq<Text>, b: seq<Text>, k: nat) {
    AgreeUpTo(n, a, b, k) && ((k < |a| && |a[k]| > 1048576) || (k < |b| && |b[k]| > 1048576))
  }

  /** The verdict in full: the error, or whether there are as many words and all agree. */
  lemma {:induction false} VerdictExactly<F>(n: Numbers<F>, a: seq<Text>, b: seq<Text>)
    ensures Verdict(n, a, b) == None <==> exists k: nat :: OverlongAt(n, a, b, k)
    ensures Verdict(n, a, b) == Some(true) <==>
            |a| == |b| && AgreeUpTo(n, a, b, |a|) && !exists k: nat :: OverlongAt(n, a, b, k)
  {
    if First(a) == TooLong || First(b) == TooLong {
      assert OverlongAt(n, a, b, 0);
    } else if a == [] || b == [] {
      assert forall k :: AgreeUpTo(n, a, b, k) ==> k == 0;
    } else if !Matches(n, a[0], b[0]) {
      assert forall k :: AgreeUpTo(n, a, b, k) ==> k == 0;
    } else {
      VerdictExactly(n, a[1..], b[1..]);
      AgreeNext(n, a, b, |a| - 1);
      forall k: nat ensures OverlongAt(n, a, b, k + 1) <==> OverlongAt(n, a[1..], b[1..], k) {
        AgreeNext(n, a, b, k);
      }
      if k: nat :| OverlongAt(n, a, b, k) {
        assert OverlongAt(n, a[1..], b[1..], k - 1);
      }
    }
  }

  lemma AgreeNext<F>(n: Numbers<F>, a: seq<Text>, b: seq<Text>, k: nat)
    requires a != [] && b != [] && Agree(n, a[0], b[0])
    ensures AgreeUpTo(n, a, b, k + 1) <==> AgreeUpTo(n, a[1..], b[1..], k)
  {
    if AgreeUpTo(n, a, b, k + 1) {
      assert forall i :: 0 <= i < k ==> a[1..][i] == a[i + 1] && b[1..][i] == b[i + 1];
    }
  }

  method CompareFloat<F>(expected: Text, actual: Text, n: Numbers<F>) returns (ok: Option<bool>)
    ensures ok == Verdict(n, WordsOf(expected), WordsOf(actual))
    ensures ok == None <==> exists k: nat :: OverlongAt(n, WordsOf(expected), WordsOf(actual), k)
    ensures ok == Some(true) <==>
            && |WordsOf(expected)| == |WordsOf(actual)|
            && AgreeUpTo(n, WordsOf(expected), WordsOf(actual), |WordsOf(expected)|)
            && !exists k: nat :: OverlongAt(n, WordsOf(expected), WordsOf(actual), k)
  {
    VerdictExactly(n, WordsOf(expected), WordsOf(actual));
    var a := new TokenReader(expected);
    var b := new TokenReader(actual);
    assert expected[0..] == expected && actual[0..] == actual;
    while true
      invariant a.data == expected && b.data == actual && a.pos <= |expected| && b.pos <= |actual|
      invariant fresh(a) && fresh(b) && a != b
      invariant Verdict(n, WordsOf(expected), WordsOf(actual))
                == Verdict(n, WordsOf(expected[a.pos..]), WordsOf(actual[b.pos..]))
      decreases |expected| - a.pos
    {
      var ta := a.Next();
      if ta == TooLong {
        return None;
      }
      var tb := b.Next();
      if tb == TooLong {
        return None;
      }
      if ta.NoToken? || tb.NoToken? {
        return Some(ta == tb);
      }
      if ta.text != tb.text {
        var x, y := n.parse(ta.text), n.parse(tb.text);
        if x.None? || y.None? || !n.finite(x.value) || !n.finite(y.value) {
          return Some(false);
        }
        var d := n.abs(n.sub(x.value, y.value));
        if !(n.leq(d, n.absTol) || n.leq(d, n.mul(n.relTol, n.abs(x.value)))) {
          return Some(false);
        }
      }
    }
  }

  ghost predicate WithinLimit(words: seq<Text>) { forall i :: 0 <= i < |words| ==> |words[i]| <= TOKEN_LIMIT }

  /** Without overlong tokens the verdict is that the words match one by one. */
  lemma {:induction false} VerdictMatches<F>(n: Numbers<F>, a: seq<Text>, b: seq<Text>)
    requires WithinLimit(a) && WithinLimit(b)
    ensures Verdict(n, a, b) == Some(|a| == |b| && forall i :: 0 <= i < |a| && i < |b| ==> Matches(n, a[i], b[i]))
  {
    if a != [] && b != [] {
      VerdictMatches(n, a[1..], b[1..]);
      assert forall i :: 0 < i < |a| ==> a[i] == a[1..][i - 1];
      assert forall i :: 0 < i < |b| ==> b[i] == b[1..][i - 1];
      if Verdict(n, a, b) == Some(false) && |a| == |b| && Matches(n, a[0], b[0]) {
        var i :| 0 <= i < |a[1..]| && !Matches(n, a[1..][i], b[1..][i]);
        assert !Matches(n, a[i + 1], b[i + 1]);
      }
    }
  }

  /** A list of words matches itself exactly when no word is too long. */
  lemma {:induction false} VerdictSelf<F>(n: Numbers<F>, a: seq<Text>)
    ensures Verdict(n, a, a) == if WithinLimit(a) then Some(true) else None
  {
    if a != [] {
      VerdictSelf(n, a[1..]);
      assert WithinLimit(a) <==> |a[0]| <= TOKEN_LIMIT && WithinLimit(a[1..]) by {
        assert forall i :: 0 < i < |a| ==> a[i] == a[1..][i - 1];
      }
    }
  }

  /** Whatever the white comparator accepts the float one accepts too, unless it meets an overlong token. */
  lemma WhiteImpliesFloat<F>(n: Numbers<F>, expected: Text, actual: Text)
    requires Normal(expected) == Normal(actual)
    ensures Verdict(n, WordsOf(expected), WordsOf(actual)) ==
            if WithinLimit(WordsOf(expected)) then Some(true) else None
  {
    SameRowsSameWords(expected, actual);
    VerdictSelf(n, WordsOf(expected));
  }
}
