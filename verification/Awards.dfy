/** The award bands of a certificate template and their text form (internal/certificate/certificate.go). */
module Awards {
  import opened Common
  import opened Decimal

  datatype Award = Award(name: string, upToRank: int)

  datatype Result = Ok(awards: seq<Award>) | BadLine(line: string)

  const MAX_INT: int := 0x7fff_ffff_ffff_ffff

  // ------------------------------------------------------------------ strings

  /** Unicode white space. */
  predicate IsSpace(c: char) {
    || '\t' <= c <= '\r' || c == ' ' || c == '\U{85}' || c == '\U{A0}' || c == '\U{1680}'
       || '\U{2000}' <= c <= '\U{200A}'
    || c == '\U{2028}' || c == '\U{2029}' || c == '\U{202F}' || c == '\U{205F}' || c == '\U{3000}'
  }

  function TrimLeft(s: string): string { if s != [] && IsSpace(s[0]) then TrimLeft(s[1..]) else s }

  function TrimRight(s: string): string { if s != [] && IsSpace(s[|s| - 1]) then TrimRight(s[..|s| - 1]) else s }

  function Trim(s: string): string { TrimRight(TrimLeft(s)) }

  predicate Trimmed(s: string) { s == [] || (!IsSpace(s[0]) && !IsSpace(s[|s| - 1])) }

  /** The pieces between newlines. */
  function Split(s: string): (lines: seq<string>)
    ensures lines != []
  {
    if s == [] then [[]]
    else
      var before, c := Split(s[..|s| - 1]), s[|s| - 1];
      if c == '\n' then before + [[]] else before[..|before| - 1] + [before[|before| - 1] + [c]]
  }

  function LastColon(s: string): (i: Option<nat>)
    ensures i.Some? ==> i.value < |s| && s[i.value] == ':'
  {
    if s == [] then None else if s[|s| - 1] == ':' then Some(|s| - 1) else LastColon(s[..|s| - 1])
  }

  /** A decimal integer with an optional sign, within 64 bits. */
  function Atoi(s: string): Option<int> {
    var signed := s != [] && (s[0] == '+' || s[0] == '-');
    var digits := if signed then s[1..] else s;
    if digits == [] || !AllDigits(digits) then None
    else
      var v := if signed && s[0] == '-' then 0 - Value(digits) else Value(digits);
      if -MAX_INT - 1 <= v <= MAX_INT then Some(v) else None
  }

  // ------------------------------------------------------------------ parsing

  /** The award of a trimmed line, after awards that end at rank `last`. */
  function ParseLine(line: string, last: int): Option<Award> {
    var i := LastColon(line);
    if i.None? then None
    else
      var n, name := Atoi(Trim(line[i.value + 1..])), Trim(line[..i.value]);
      if n.None? || n.value <= 0 || name == [] || n.value <= last then None else Some(Award(name, n.value))
  }

  /** The rank the last award ends at; 0 before the first. */
  function LastRank(awards: seq<Award>): int { if awards == [] then 0 else awards[|awards| - 1].upToRank }

  /** One more line. */
  function ParseNext(before: Result, text: string): Result {
    var line := Trim(text);
    if before.BadLine? || line == [] then before
    else
      var a := ParseLine(line, LastRank(before.awards));
      if a.None? then BadLine(line) else Ok(before.awards + [a.value])
  }

  function Parsed(lines: seq<string>): Result {
    if lines == [] then Ok([]) else ParseNext(Parsed(lines[..|lines| - 1]), lines[|lines| - 1])
  }

  lemma ParsedStep(lines: seq<string>, k: nat)
    requires k < |lines|
    ensures Parsed(lines[..k + 1]) == ParseNext(Parsed(lines[..k]), lines[k])
  {
    assert lines[..k + 1][..k] == lines[..k];
  }

  method ParseAwards(s: string) returns (r: Result)
    ensures r == Parsed(Split(s))
    ensures forall lines :: ArePieces(lines, s) ==> ParseSays(lines, r)
  {
    forall lines | ArePieces(lines, s)
      ensures ParseSays(lines, Parsed(Split(s)))
    {
      SplitJoined(lines);
      ParsedSays(lines, 0);
    }
    var lines := Split(s);
    var out := [];
    for k := 0 to |lines|
      invariant Parsed(lines[..k]) == Ok(out)
    {
      ParsedStep(lines, k);
      var line := Trim(lines[k]);
      if line != [] {
        var a := ParseLine(line, LastRank(out));
        if a.None? {
          BadStays(lines, k + 1);
          return BadLine(line);
        }
        out := out + [a.value];
      }
    }
    assert lines[..|lines|] == lines;
    r := Ok(out);
  }

  /** The first bad line decides. */
  lemma {:induction false} BadStays(lines: seq<string>, k: nat)
    requires k <= |lines| && Parsed(lines[..k]).BadLine?
    ensures Parsed(lines) == Parsed(lines[..k])
  {
    if k < |lines| {
      var init := lines[..|lines| - 1];
      assert init[..k] == lines[..k];
      BadStays(init, k);
    } else {
      assert lines[..k] == lines;
    }
  }

  function FormatLine(a: Award): string { a.name + ": " + Signed(a.upToRank) }

  function Formatted(awards: seq<Award>): string {
    if awards == [] then [] else Formatted(awards[..|awards| - 1]) + FormatLine(awards[|awards| - 1]) + "\n"
  }

  method FormatAwards(awards: seq<Award>) returns (s: string)
    ensures s == Formatted(awards) && s == Joined(TextLines(awards) + [[]])
  {
    FormattedText(awards);
    s := [];
    for i := 0 to |awards|
      invariant s == Formatted(awards[..i])
    {
      assert awards[..i + 1][..i] == awards[..i];
      s := s + FormatLine(awards[i]) + "\n";
    }
    assert awards[..|awards|] == awards;
  }

  // -------------------------------------------------------------------- shape

  predicate NoNewline(s: string) { forall i :: 0 <= i < |s| ==> s[i] != '\n' }

  predicate ProperName(s: string) { s != [] && Trimmed(s) && NoNewline(s) }

  /** Proper names and strictly growing positive ranks of 64 bits. */
  ghost predicate Proper(awards: seq<Award>) {
    && (forall i :: 0 <= i < |awards| ==> ProperName(awards[i].name) && 0 < awards[i].upToRank <= MAX_INT)
    && (forall i, j :: 0 <= i < j < |awards| ==> awards[i].upToRank < awards[j].upToRank)
  }

  lemma {:induction false} TrimLeftShape(s: string)
    ensures var t := TrimLeft(s); |t| <= |s| && t == s[|s| - |t|..] && (t != [] ==> !IsSpace(t[0]))
  {
    if s != [] && IsSpace(s[0]) {
      TrimLeftShape(s[1..]);
    }
  }

  lemma {:induction false} TrimRightShape(s: string)
    ensures var t := TrimRight(s); |t| <= |s| && t == s[..|t|] && (t != [] ==> !IsSpace(t[|t| - 1]))
  {
    if s != [] && IsSpace(s[|s| - 1]) {
      TrimRightShape(s[..|s| - 1]);
    }
  }

  /** Trimming gives a trimmed part of the string. */
  lemma TrimShape(s: string)
    ensures Trimmed(Trim(s)) && (NoNewline(s) ==> NoNewline(Trim(s)))
  {
    TrimLeftShape(s);
    TrimRightShape(TrimLeft(s));
  }

  lemma {:induction false} SplitNoNewline(s: string)
    ensures forall i :: 0 <= i < |Split(s)| ==> NoNewline(Split(s)[i])
  {
    if s != [] {
      SplitNoNewline(s[..|s| - 1]);
    }
  }

  lemma ParseLineProper(line: string, last: int)
    requires NoNewline(line)
    ensures var a := ParseLine(line, last);
            a.Some? ==> ProperName(a.value.name) && 0 < a.value.upToRank <= MAX_INT && last < a.value.upToRank
  {
    var i := LastColon(line);
    if i.Some? {
      TrimShape(line[..i.value]);
    }
  }

  lemma {:induction false} ParsedProper(lines: seq<string>)
    requires forall i :: 0 <= i < |lines| ==> NoNewline(lines[i])
    ensures Parsed(lines).Ok? ==> Proper(Parsed(lines).awards)
  {
    if lines != [] {
      var before, line := lines[..|lines| - 1], lines[|lines| - 1];
      ParsedProper(before);
      TrimShape(line);
      if Parsed(before).Ok? {
        var awards := Parsed(before).awards;
        ParseLineProper(Trim(line), LastRank(awards));
        if ParseLine(Trim(line), LastRank(awards)).Some? {
          ProperNext(awards, ParseLine(Trim(line), LastRank(awards)).value);
        }
      }
    }
  }

  lemma ProperNext(awards: seq<Award>, a: Award)
    requires Proper(awards) && ProperName(a.name) && 0 < a.upToRank <= MAX_INT && LastRank(awards) < a.upToRank
    ensures Proper(awards + [a])
  {
  }

  /** Every list that parsing returns is proper. */
  lemma ParseGivesProper(s: string)
    ensures Parsed(Split(s)).Ok? ==> Proper(Parsed(Split(s)).awards)
  {
    SplitNoNewline(s);
    ParsedProper(Split(s));
  }

  // --------------------------------------------------------------- round trip

  lemma TrimIsId(s: string)
    requires Trimmed(s)
    ensures Trim(s) == s
  {
  }

  lemma {:induction false} LastColonIs(name: string, rest: string)
    requires forall i :: 0 <= i < |rest| ==> rest[i] != ':'
    ensures LastColon(name + ":" + rest) == Some(|name|)
  {
    var s := name + ":" + rest;
    if rest == [] {
      assert s == name + ":";
    } else {
      assert s[..|s| - 1] == name + ":" + rest[..|rest| - 1];
      LastColonIs(name, rest[..|rest| - 1]);
    }
  }

  /** Digits after a space read back as the number. */
  lemma NumberRoundTrip(n: nat)
    requires n <= MAX_INT
    ensures Atoi(Trim(" " + Itoa(n))) == Some(n)
    ensures forall i :: 0 <= i < |" " + Itoa(n)| ==> (" " + Itoa(n))[i] != ':' && (" " + Itoa(n))[i] != '\n'
  {
    var digits := Itoa(n);
    assert (" " + digits)[1..] == digits;
    assert IsDigit(digits[0]) && IsDigit(digits[|digits| - 1]);
    TrimIsId(digits);
    ValueItoa(n);
  }

  lemma LinePieces(a: Award)
    requires ProperName(a.name) && a.upToRank >= 0
    ensures var line, rest := FormatLine(a), " " + Itoa(a.upToRank);
            && line == a.name + ":" + rest && line[..|a.name|] == a.name && line[|a.name| + 1..] == rest
            && line != [] && Trimmed(line)
  {
    var line, digits := FormatLine(a), Itoa(a.upToRank);
    assert line[|line| - 1] == digits[|digits| - 1] && IsDigit(digits[|digits| - 1]);
    assert line[0] == a.name[0];
  }

  /** A formatted line is trimmed and parses to its award. */
  lemma LineRoundTrip(a: Award, last: int)
    requires ProperName(a.name) && 0 < a.upToRank <= MAX_INT && last < a.upToRank
    ensures Trim(FormatLine(a)) == FormatLine(a) && FormatLine(a) != [] && NoNewline(FormatLine(a))
    ensures ParseLine(FormatLine(a), last) == Some(a)
  {
    LinePieces(a);
    NumberRoundTrip(a.upToRank);
    LastColonIs(a.name, " " + Itoa(a.upToRank));
    TrimIsId(FormatLine(a));
    TrimIsId(a.name);
  }

  /** A line appended to a text that ends in a newline is its last piece. */
  lemma {:induction false} SplitLine(s: string, line: string)
    requires NoNewline(line) && Split(s)[|Split(s)| - 1] == []
    ensures Split(s + line) == Split(s)[..|Split(s)| - 1] + [line]
  {
    if line == [] {
      assert s + line == s;
    } else {
      var t := line[..|line| - 1];
      assert (s + line)[..|s + line| - 1] == s + t;
      SplitLine(s, t);
      var u := Split(s)[..|Split(s)| - 1];
      assert (u + [t])[..|u|] == u && t + [line[|line| - 1]] == line;
    }
  }

  lemma SplitNewline(s: string)
    ensures Split(s + "\n") == Split(s) + [[]]
  {
    assert (s + "\n")[..|s|] == s;
  }

  lemma ParsedBlank(lines: seq<string>)
    ensures Parsed(lines + [[]]) == Parsed(lines)
  {
    assert (lines + [[]])[..|lines|] == lines;
  }

  /** The formatted text of a proper list splits into its lines and an empty one, and these parse to the list. */
  lemma {:induction false} FormattedParses(awards: seq<Award>) returns (lines: seq<string>)
    requires Proper(awards)
    ensures Split(Formatted(awards)) == lines + [[]] && Parsed(lines) == Ok(awards)
  {
    if awards == [] {
      lines := [];
    } else {
      var n := |awards| - 1;
      var before, a := awards[..n], awards[n];
      ProperPrefix(awards);
      var init := FormattedParses(before);
      LineRoundTrip(a, LastRank(before));
      lines := init + [FormatLine(a)];
      SplitNext(Formatted(before), init, FormatLine(a));
      ParsedNext(init, FormatLine(a), before, a);
    }
  }

  lemma ProperPrefix(awards: seq<Award>)
    requires Proper(awards) && awards != []
    ensures Proper(awards[..|awards| - 1]) && LastRank(awards[..|awards| - 1]) < awards[|awards| - 1].upToRank
    ensures awards == awards[..|awards| - 1] + [awards[|awards| - 1]]
  {
  }

  lemma SplitNext(s: string, lines: seq<string>, line: string)
    requires Split(s) == lines + [[]] && NoNewline(line)
    ensures Split(s + line + "\n") == lines + [line] + [[]]
  {
    assert (lines + [[]])[..|lines|] == lines;
    SplitLine(s, line);
    SplitNewline(s + line);
  }

  lemma ParsedNext(lines: seq<string>, line: string, before: seq<Award>, a: Award)
    requires Parsed(lines) == Ok(before) && Trim(line) == line && line != []
             && ParseLine(line, LastRank(before)) == Some(a)
    ensures Parsed(lines + [line]) == Ok(before + [a])
  {
    assert (lines + [line])[..|lines|] == lines;
  }

  /** Parsing gives back what was formatted exactly when the list is proper. */
  lemma RoundTrip(awards: seq<Award>)
    ensures Parsed(Split(Formatted(awards))) == Ok(awards) <==> Proper(awards)
  {
    ParseGivesProper(Formatted(awards));
    if Proper(awards) {
      var lines := FormattedParses(awards);
      ParsedBlank(lines);
    }
  }

  // --------------------------------------------------- what parsing means

  /** The text with white space around it taken off. */
  ghost predicate Bare(s: string, t: string) {
    && (exists pre, post :: s == pre + t + post && Blank(pre) && Blank(post))
    && (t != [] ==> !IsSpace(t[0]) && !IsSpace(t[|t| - 1]))
  }

  ghost predicate Blank(s: string) {
    forall x {:trigger Unsealed(x)} :: Unsealed(x) ==> forall i :: 0 <= i < |s| ==> IsSpace(s[i])
  }

  /** A numeral of 64 bits, perhaps with a plus sign, of a positive number. */
  ghost predicate Denotes(num: string, n: int) {
    && 0 < n <= 0x7fff_ffff_ffff_ffff
    && exists digits ::
         digits != [] && AllDigits(digits) && (num == digits || num == "+" + digits) && n == Value(digits)
  }

  /** The line is a name, a colon and the rank. */
  ghost predicate AwardOn(line: string, a: Award) {
    forall s {:trigger Unsealed(s, Outer)} :: Unsealed(s, Outer) ==>
      exists x, y, num :: Bare(line, x + ":" + y) && ':' !in y && Bare(x, a.name) && a.name != []
                          && Bare(y, num) && Denotes(num, a.upToRank)
  }

  /** Every line that is not blank is the next award, each with a greater rank than the one before. */
  ghost predicate Holds(lines: seq<string>, awards: seq<Award>) {
    if lines == [] then awards == []
    else
      var n, k := |lines| - 1, |awards| - 1;
      if Blank(lines[n]) then Holds(lines[..n], awards)
      else k >= 0 && AwardOn(lines[n], awards[k]) && (k > 0 ==> awards[k - 1].upToRank < awards[k].upToRank)
           && Holds(lines[..n], awards[..k])
  }

  /** The lines before the k-th hold awards, and this one is neither blank nor an award with a greater rank. */
  ghost predicate FirstBad(lines: seq<string>, k: nat, line: string) {
    && k < |lines| && !Blank(lines[k]) && Bare(lines[k], line)
    && exists awards: seq<Award> :: Holds(lines[..k], awards)
                        && forall a :: AwardOn(lines[k], a) && awards != [] ==>
                                         a.upToRank <= awards[|awards| - 1].upToRank
  }

  lemma {:induction false} TrimLeftBlank(s: string)
    ensures var t := TrimLeft(s); |t| <= |s| && Blank(s[..|s| - |t|]) && s[|s| - |t|..] == t
  {
    assert Unsealed(Seal);
    TrimLeftShape(s);
    if s != [] && IsSpace(s[0]) {
      TrimLeftBlank(s[1..]);
      var n := |s| - |TrimLeft(s)|;
      assert forall i :: 0 < i < n ==> s[..n][i] == s[1..][..n - 1][i - 1];
    }
  }

  lemma {:induction false} TrimRightBlank(s: string)
    ensures var t := TrimRight(s); |t| <= |s| && Blank(s[|t|..]) && s[..|t|] == t
  {
    assert Unsealed(Seal);
    TrimRightShape(s);
    if s != [] && IsSpace(s[|s| - 1]) {
      TrimRightBlank(s[..|s| - 1]);
      var n := |TrimRight(s)|;
      assert forall i :: 0 <= i < |s| - 1 - n ==> s[n..][i] == s[..|s| - 1][n..][i];
    }
  }

  lemma TrimBare(s: string)
    ensures Bare(s, Trim(s))
  {
    var left := TrimLeft(s);
    TrimLeftBlank(s);
    TrimRightBlank(left);
    TrimShape(s);
    CutThree(s, left, Trim(s));
  }

  lemma CutThree(s: string, left: string, t: string)
    requires |t| <= |left| <= |s| && s[|s| - |left|..] == left && left[..|t|] == t
    ensures s == s[..|s| - |left|] + t + left[|t|..]
  {
  }

  lemma {:induction false} TrimLeftIs(pre: string, s: string)
    requires Blank(pre) && (s != [] ==> !IsSpace(s[0]))
    ensures TrimLeft(pre + s) == s
  {
    assert Unsealed(Seal);
    if pre == [] {
      assert pre + s == s;
    } else {
      assert (pre + s)[1..] == pre[1..] + s;
      TrimLeftIs(pre[1..], s);
    }
  }

  lemma {:induction false} TrimRightIs(s: string, post: string)
    requires Blank(post) && (s != [] ==> !IsSpace(s[|s| - 1]))
    ensures TrimRight(s + post) == s
  {
    assert Unsealed(Seal);
    if post == [] {
      assert s + post == s;
    } else {
      assert (s + post)[..|s + post| - 1] == s + post[..|post| - 1];
      TrimRightIs(s, post[..|post| - 1]);
    }
  }

  /** Nothing else is left when the white space is taken off. */
  lemma BareIsTrim(s: string, t: string)
    requires Bare(s, t)
    ensures t == Trim(s)
  {
    assert Unsealed(Seal);
    var pre, post :| s == pre + t + post && Blank(pre) && Blank(post);
    if t == [] {
      TrimLeftIs(pre + post, []);
      assert s == (pre + post) + [];
    } else {
      assert s == pre + (t + post);
      TrimLeftIs(pre, t + post);
      TrimRightIs(t, post);
    }
  }

  lemma BlankIsTrimmed(s: string)
    ensures Blank(s) <==> Trim(s) == []
  {
    assert Unsealed(Seal);
    TrimBare(s);
    if Blank(s) {
      var none: string := [];
      assert s == s + none + none && Blank(none);
      BareIsTrim(s, none);
    }
  }

  lemma AtoiMeans(num: string, n: int)
    requires n > 0
    ensures Atoi(num) == Some(n) <==> Denotes(num, n)
  {
    if Denotes(num, n) {
      var digits :| digits != [] && AllDigits(digits) && (num == digits || num == "+" + digits) && n == Value(digits);
      assert IsDigit(digits[0]);
      assert num == "+" + digits ==> num[1..] == digits;
    }
    if Atoi(num) == Some(n) {
      var digits := if num[0] == '+' then num[1..] else num;
      assert num == digits || num == "+" + digits;
    }
  }

  lemma {:induction false} ColonIsLast(s: string)
    ensures match LastColon(s)
            case Some(i) => ':' !in s[i + 1..]
            case None => ':' !in s
  {
    if s != [] && s[|s| - 1] != ':' {
      ColonIsLast(s[..|s| - 1]);
    }
  }

  /** A trimmed line is cut at its last colon. */
  lemma ParsedPieces(t: string, last: int, a: Award) returns (x: string, y: string)
    requires ParseLine(t, last) == Some(a) && last >= 0
    ensures t == x + ":" + y && ':' !in y && Trim(x) == a.name != [] && Atoi(Trim(y)) == Some(a.upToRank)
    ensures a.upToRank > last
  {
    ColonIsLast(t);
    var i := LastColon(t).value;
    x, y := t[..i], t[i + 1..];
    assert t == x + ":" + y;
  }

  lemma PiecesParse(x: string, y: string, last: int, a: Award)
    requires ':' !in y && Trim(x) == a.name != [] && Atoi(Trim(y)) == Some(a.upToRank) && a.upToRank > last >= 0
    ensures ParseLine(x + ":" + y, last) == Some(a)
  {
    var t := x + ":" + y;
    LastColonIs(x, y);
    assert t[..|x|] == x && t[|x| + 1..] == y;
  }

  lemma PiecesAward(line: string, x: string, y: string, a: Award)
    requires Trim(line) == x + ":" + y && ':' !in y && Trim(x) == a.name != [] && Atoi(Trim(y)) == Some(a.upToRank)
    requires a.upToRank > 0
    ensures AwardOn(line, a)
  {
    TrimBare(line);
    TrimBare(x);
    TrimBare(y);
    AtoiMeans(Trim(y), a.upToRank);
  }

  lemma AwardPieces(line: string, a: Award) returns (x: string, y: string)
    requires AwardOn(line, a)
    ensures Trim(line) == x + ":" + y && ':' !in y && Trim(x) == a.name != [] && Atoi(Trim(y)) == Some(a.upToRank)
    ensures a.upToRank > 0
  {
    assert Unsealed(Seal, Outer);
    var num;
    x, y, num :| Bare(line, x + ":" + y) && ':' !in y && Bare(x, a.name) && a.name != []
                 && Bare(y, num) && Denotes(num, a.upToRank);
    BareIsTrim(line, x + ":" + y);
    BareIsTrim(x, a.name);
    BareIsTrim(y, num);
    AtoiMeans(num, a.upToRank);
  }

  /** A line parses to an award exactly when it holds it and the rank is greater. */
  lemma ParseLineMeans(line: string, last: int, a: Award)
    requires last >= 0
    ensures ParseLine(Trim(line), last) == Some(a) <==> AwardOn(line, a) && a.upToRank > last
  {
    if ParseLine(Trim(line), last) == Some(a) {
      var x, y := ParsedPieces(Trim(line), last, a);
      PiecesAward(line, x, y, a);
    }
    if AwardOn(line, a) && a.upToRank > last {
      var x, y := AwardPieces(line, a);
      PiecesParse(x, y, last, a);
    }
  }

  lemma AwardRank(line: string, a: Award)
    requires AwardOn(line, a)
    ensures a.upToRank > 0
  {
    var x, y := AwardPieces(line, a);
  }

  /** A text is accepted exactly when its lines hold awards. */
  lemma {:induction false} AcceptsExactly(lines: seq<string>, awards: seq<Award>)
    ensures Parsed(lines) == Ok(awards) <==> Holds(lines, awards)
    ensures Holds(lines, awards) ==> LastRank(awards) >= 0
  {
    if lines != [] {
      var n, k := |lines| - 1, |awards| - 1;
      BlankIsTrimmed(lines[n]);
      if Trim(lines[n]) == [] {
        AcceptsExactly(lines[..n], awards);
      } else if k >= 0 {
        AcceptsExactly(lines[..n], awards[..k]);
        OneMoreAward(Parsed(lines[..n]), lines[n], awards);
      }
    }
  }

  lemma OneMoreAward(before: Result, line: string, awards: seq<Award>)
    requires awards != [] && Trim(line) != []
    requires before == Ok(awards[..|awards| - 1]) ==> LastRank(awards[..|awards| - 1]) >= 0
    ensures var k := |awards| - 1;
            ParseNext(before, line) == Ok(awards) <==>
              before == Ok(awards[..k]) && AwardOn(line, awards[k])
              && (k > 0 ==> awards[k - 1].upToRank < awards[k].upToRank)
    ensures ParseNext(before, line) == Ok(awards) ==> awards[|awards| - 1].upToRank > 0
  {
    var k := |awards| - 1;
    assert awards == awards[..k] + [awards[k]];
    if before == Ok(awards[..k]) {
      ParseLineMeans(line, LastRank(awards[..k]), awards[k]);
      if AwardOn(line, awards[k]) {
        AwardRank(line, awards[k]);
      }
    }
  }

  lemma NoFurtherAward(line: string, awards: seq<Award>)
    requires LastRank(awards) >= 0 && ParseLine(Trim(line), LastRank(awards)).None?
    ensures forall a :: AwardOn(line, a) && awards != [] ==> a.upToRank <= awards[|awards| - 1].upToRank
  {
    forall a | AwardOn(line, a) && awards != []
      ensures a.upToRank <= awards[|awards| - 1].upToRank
    {
      ParseLineMeans(line, LastRank(awards), a);
    }
  }

  lemma FirstBadMeans(lines: seq<string>, k: nat)
    requires k < |lines| && Parsed(lines[..k]).Ok? && Parsed(lines[..k + 1]).BadLine?
    ensures FirstBad(lines, k, Parsed(lines[..k + 1]).line)
  {
    ParsedStep(lines, k);
    var awards := Parsed(lines[..k]).awards;
    AcceptsExactly(lines[..k], awards);
    BlankIsTrimmed(lines[k]);
    TrimBare(lines[k]);
    NoFurtherAward(lines[k], awards);
  }

  /** What parsing says of the lines: the awards they hold, or the first line that is not blank and no further award. */
  ghost predicate ParseSays(lines: seq<string>, r: Result) {
    match r
    case Ok(awards) => Holds(lines, awards)
    case BadLine(line) => exists k: nat :: FirstBad(lines, k, line)
  }

  lemma {:induction false} ParsedSays(lines: seq<string>, k: nat)
    requires k <= |lines| && Parsed(lines[..k]).Ok?
    ensures ParseSays(lines, Parsed(lines))
    decreases |lines| - k
  {
    if k == |lines| {
      assert lines[..k] == lines;
      AcceptsExactly(lines, Parsed(lines).awards);
    } else if Parsed(lines[..k + 1]).Ok? {
      ParsedSays(lines, k + 1);
    } else {
      FirstBadMeans(lines, k);
      BadStays(lines, k + 1);
    }
  }

  /** The text with these lines, a newline between any two. */
  function Joined(lines: seq<string>): string {
    if lines == [] then [] else if |lines| == 1 then lines[0]
    else Joined(lines[..|lines| - 1]) + "\n" + lines[|lines| - 1]
  }

  /** The lines of a text: what stands between its newlines. */
  ghost predicate ArePieces(lines: seq<string>, s: string) {
    lines != [] && s == Joined(lines) && forall i :: 0 <= i < |lines| ==> '\n' !in lines[i]
  }

  lemma {:induction false} SplitJoined(lines: seq<string>)
    requires lines != [] && forall i :: 0 <= i < |lines| ==> '\n' !in lines[i]
    ensures Split(Joined(lines)) == lines
  {
    var n := |lines| - 1;
    assert NoNewline(lines[n]) && lines == lines[..n] + [lines[n]];
    if n == 0 {
      SplitLine([], lines[0]);
      assert [] + lines[0] == lines[0];
    } else {
      var front := Joined(lines[..n]);
      SplitJoined(lines[..n]);
      SplitNewline(front);
      SplitLine(front + "\n", lines[n]);
    }
  }

  lemma {:induction false} JoinedSplit(s: string)
    ensures Joined(Split(s)) == s
  {
    if s != [] {
      var before, c := Split(s[..|s| - 1]), s[|s| - 1];
      JoinedSplit(s[..|s| - 1]);
      JoinedBreak(before);
      JoinedChar(before, c);
      assert s == s[..|s| - 1] + [c];
    }
  }

  lemma JoinedBreak(lines: seq<string>)
    requires lines != []
    ensures Joined(lines + [[]]) == Joined(lines) + "\n"
  {
    assert (lines + [[]])[..|lines|] == lines;
  }

  lemma JoinedChar(lines: seq<string>, c: char)
    requires lines != []
    ensures Joined(lines[..|lines| - 1] + [lines[|lines| - 1] + [c]]) == Joined(lines) + [c]
  {
    var n := |lines| - 1;
    var front, last := lines[..n], lines[n];
    var all := front + [last + [c]];
    assert all[..n] == front && all[n] == last + [c];
    if n > 0 {
      Grouped(Joined(front) + "\n", last, [c]);
    }
  }

  lemma Grouped(a: string, b: string, c: string)
    ensures a + (b + c) == a + b + c
  {
  }

  /** A line for each award: its name, a colon, a space and the rank. */
  function TextLines(awards: seq<Award>): (lines: seq<string>)
    ensures |lines| == |awards|
  {
    seq(|awards|, i requires 0 <= i < |awards| => awards[i].name + ": " + Signed(awards[i].upToRank))
  }

  lemma TextLinesNext(awards: seq<Award>)
    requires awards != []
    ensures var n := |awards| - 1; TextLines(awards) == TextLines(awards[..n]) + [FormatLine(awards[n])]
  {
  }

  lemma {:induction false} FormattedText(awards: seq<Award>)
    ensures Formatted(awards) == Joined(TextLines(awards) + [[]])
  {
    if awards == [] {
      assert TextLines(awards) + [[]] == [[]];
    } else {
      var n := |awards| - 1;
      FormattedText(awards[..n]);
      TextLinesNext(awards);
      JoinedLine(TextLines(awards[..n]), FormatLine(awards[n]));
    }
  }

  lemma JoinedLine(lines: seq<string>, line: string)
    ensures Joined(lines + [line] + [[]]) == Joined(lines + [[]]) + line + "\n"
  {
    assert (lines + [[]])[..|lines|] == lines && (lines + [line])[..|lines|] == lines;
    JoinedBreak(lines + [line]);
  }

  /** Every text has lines. */
  lemma HasPieces(s: string) returns (lines: seq<string>)
    ensures ArePieces(lines, s)
  {
    lines := Split(s);
    JoinedSplit(s);
    SplitNoNewline(s);
    forall i | 0 <= i < |lines| ensures '\n' !in lines[i] {
      assert NoNewline(lines[i]);
    }
  }

  // -------------------------------------------------------------------- bands

  /** The band of ranks an award covers. */
  predicate InBand(awards: seq<Award>, i: nat, rank: int)
    requires i < |awards|
  {
    LastRank(awards[..i]) < rank <= awards[i].upToRank
  }

  method AwardFor(awards: seq<Award>, rank: int) returns (name: string)
    ensures name == [] || exists i :: 0 <= i < |awards| && awards[i].name == name && rank <= awards[i].upToRank
    ensures Proper(awards) && rank >= 1 ==> (name == [] <==> rank > LastRank(awards))
    ensures rank < 1 && Proper(awards) && awards != [] ==> name == awards[0].name
    ensures Proper(awards) && rank >= 1 && name != [] ==>
              exists i :: 0 <= i < |awards| && awards[i].name == name && InBand(awards, i, rank)
  {
    for i := 0 to |awards|
      invariant rank >= 1 ==> LastRank(awards[..i]) < rank
      invariant rank < 1 && Proper(awards) ==> i == 0
    {
      if rank <= awards[i].upToRank {
        assert rank >= 1 ==> InBand(awards, i, rank);
        assert Proper(awards) ==> awards[i].upToRank <= LastRank(awards);
        return awards[i].name;
      }
      assert LastRank(awards[..i + 1]) == awards[i].upToRank;
    }
    assert awards[..|awards|] == awards;
    name := [];
  }

  /** A rank lies in at most one band. */
  lemma BandUnique(awards: seq<Award>, i: nat, j: nat, rank: int)
    requires Proper(awards) && i < |awards| && j < |awards| && InBand(awards, i, rank) && InBand(awards, j, rank)
    ensures i == j
  {
    if i < j {
      BandsApart(awards, i, j);
    } else if j < i {
      BandsApart(awards, j, i);
    }
  }

  lemma BandsApart(awards: seq<Award>, i: nat, j: nat)
    requires Proper(awards) && i < j < |awards|
    ensures awards[i].upToRank <= LastRank(awards[..j])
  {
    assert awards[..j][j - 1] == awards[j - 1];
  }
}
