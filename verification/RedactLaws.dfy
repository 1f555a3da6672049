/**
 Laws of whole commands, with the keywords and the mask spelled out: what is masked, what is not, and
 what comments, line prefixes, gaps and continued lines have to do with it.
 */
module RedactLaws {
  import opened Basics
  import opened GoStrings
  import opened RedactSpec
  import opened RedactPieces
  import opened RedactTheorems
  import opened RedactValues
  import opened RedactVerbs

  predicate IsKeyword(w: string) {
    w == "LDAPPWD" || w == "PASSWORD" || w == "SSLCRYP"
  }

  /** The same letter in either case; the long s and the dotless i count too. */
  predicate SameLetter(c: char, d: char) {
    || c == d
    || ('A' <= d <= 'Z' && c == d - 'A' + 'a')
    || (c == '\U{017F}' && d == 'S')
    || (c == '\U{0131}' && d == 'I')
  }

  /** The keyword stands at `i` of the text, in any case. */
  predicate KeywordAt(t: string, i: nat, w: string) {
    IsKeyword(w) && i + |w| <= |t| && forall n :: 0 <= n < |w| ==> SameLetter(t[i + n], w[n])
  }

  lemma KeywordIff(w: string)
    ensures IsKeyword(w) <==> exists k :: 0 <= k < |SENSITIVE_PARAMETERS| && SENSITIVE_PARAMETERS[k] == w
  {
    assert SENSITIVE_PARAMETERS[0] == "LDAPPWD" && SENSITIVE_PARAMETERS[1] == "PASSWORD";
    assert SENSITIVE_PARAMETERS[2] == "SSLCRYP";
  }

  lemma KeywordLetters(w: string, n: nat)
    requires IsKeyword(w) && n < |w|
    ensures 'A' <= w[n] <= 'Z'
  {
    var a, b, c := "LDAPPWD", "PASSWORD", "SSLCRYP";
  }

  lemma UpperIff(c: char, d: char)
    requires 'A' <= d <= 'Z'
    ensures UpperChar(c) == d <==> SameLetter(c, d)
  {
  }

  lemma OccursIff(t: string, i: nat, w: string)
    requires IsKeyword(w) && i + |w| <= |t|
    ensures OccursAt(ToUpper(t), w, i) <==> KeywordAt(t, i, w)
  {
    var u := ToUpper(t)[i..i + |w|];
    forall n | 0 <= n < |w| ensures u[n] == w[n] <==> SameLetter(t[i + n], w[n]) {
      KeywordLetters(w, n);
      UpperIff(t[i + n], w[n]);
    }
  }

  /** A string is sensitive exactly when a keyword stands somewhere in it, in any case. */
  lemma SensitiveIff(t: string)
    ensures IsSensitive(t) <==> exists i: nat, w: string :: KeywordAt(t, i, w)
  {
    var u := ToUpper(t);
    if IsSensitive(t) {
      var k :| 0 <= k < |SENSITIVE_PARAMETERS| && Contains(u, SENSITIVE_PARAMETERS[k]);
      var w := SENSITIVE_PARAMETERS[k];
      KeywordIff(w);
      var i :| 0 <= i <= |u| - |w| && OccursAt(u, w, i);
      OccursIff(t, i, w);
    }
    if i: nat, w: string :| KeywordAt(t, i, w) {
      KeywordIff(w);
      OccursIff(t, i, w);
      assert Contains(u, w);
    }
  }

  // ---- Text that is passed over ----

  /** Line prefixes and whole comment lines. */
  predicate IsFiller(f: string)
    decreases |f|
  {
    || f == ""
    || (IsPrefixChar(f[0]) && IsFiller(f[1..]))
    || exists n :: 0 < n < |f| && IsComment(f[..n]) && f[n] == '\n' && IsFiller(f[n + 1..])
  }

  predicate IsComment(c: string) {
    c != "" && c[0] == '*' && forall i :: 0 < i < |c| ==> c[i] != '\n'
  }

  /** The text `t` has no parameter, and takes the scanner from `st` to `end`. */
  predicate Reads(t: string, st: Scan, end: Scan) {
    ScanAfter(t, st) == end && TextLen(t, st.mode) == |t|
  }

  lemma ReadsCons(c: char, t: string, st: Scan, end: Scan)
    requires !Opens(st.mode, c) && Reads(t, NextScan(st, c), end)
    ensures Reads([c] + t, st, end)
  {
    assert ([c] + t)[1..] == t;
  }

  lemma {:induction false} ReadsJoin(a: string, b: string, st: Scan, mid: Scan, end: Scan)
    requires Reads(a, st, mid) && Reads(b, mid, end)
    ensures Reads(a + b, st, end)
  {
    if a == "" {
      Unit(b);
    } else {
      assert a + b == [a[0]] + (a[1..] + b);
      ReadsJoin(a[1..], b, NextScan(st, a[0]), mid, end);
      ReadsCons(a[0], a[1..] + b, st, end);
    }
  }

  lemma {:induction false} InsideComment(x: string, st: Scan)
    requires st.mode == LineStart && forall i :: 0 <= i < |x| ==> x[i] != '\n'
    ensures Reads(x + "\n", st.(mode := InComment), st)
  {
    var inside := st.(mode := InComment);
    if x == "" {
      ReadsCons('\n', "", inside, st);
    } else {
      InsideComment(x[1..], st);
      ReadsCons(x[0], x[1..] + "\n", inside, st);
      assert [x[0]] + (x[1..] + "\n") == x + "\n";
    }
  }

  /** A comment at the start of a line is text up to the end of the line, and no verb. */
  lemma CommentLine(c: string, st: Scan)
    requires IsComment(c) && st.mode == LineStart
    ensures Reads(c + "\n", st, st)
  {
    InsideComment(c[1..], st);
    ReadsCons('*', c[1..] + "\n", st, st);
    assert ['*'] + (c[1..] + "\n") == c + "\n";
  }

  lemma PrefixIsPassed(c: char, t: string, st: Scan)
    requires IsPrefixChar(c) && st.mode == LineStart && st.tail != Adjacent && Reads(t, st, st)
    ensures Reads([c] + t, st, st)
  {
    PrefixCharIff(c);
    ReadsCons(c, t, st, st);
  }

  lemma CutAt(f: string, n: nat, c: char)
    requires n < |f| && f[n] == c
    ensures f == (f[..n] + [c]) + f[n + 1..]
  {
  }

  lemma {:induction false} FillerIsPassed(f: string, st: Scan)
    requires IsFiller(f) && st.mode == LineStart && st.tail != Adjacent
    ensures Reads(f, st, st)
    decreases |f|
  {
    if f == "" {
    } else if IsPrefixChar(f[0]) && IsFiller(f[1..]) {
      FillerIsPassed(f[1..], st);
      PrefixIsPassed(f[0], f[1..], st);
      Head(f, 0);
    } else {
      var n :| 0 < n < |f| && IsComment(f[..n]) && f[n] == '\n' && IsFiller(f[n + 1..]);
      var line, rest := f[..n] + "\n", f[n + 1..];
      FillerIsPassed(rest, st);
      assert Reads(line, st, st) by { CommentLine(f[..n], st); }
      CutAt(f, n, '\n');
      ReadsJoin(line, rest, st, st, st);
    }
  }

  // ---- Words and what joins them ----

  predicate IsLetter(c: char) {
    'A' <= c <= 'Z' || 'a' <= c <= 'z' || c == '\U{017F}' || c == '\U{0131}'
  }

  predicate AllLetters(w: string) {
    forall i :: 0 <= i < |w| ==> IsLetter(w[i])
  }

  predicate IsBlank(c: char) {
    c == ' ' || c == '\t' || c == '\r'
  }

  /** A continuation character, blanks, and then perhaps a new line with line prefixes and comment lines. */
  predicate IsJoint(j: string) {
    exists n :: 1 <= n <= |j| && (j[0] == '+' || j[0] == '-') && Blanks(j[1..n])
                && (n == |j| || (j[n] == '\n' && IsFiller(j[n + 1..])))
  }

  predicate Blanks(b: string) {
    forall i :: 0 <= i < |b| ==> IsBlank(b[i])
  }

  /** After letters the verb is longer by them. */
  predicate Spelt(st: Scan, w: string, end: Scan) {
    && end.mode == Word && end.tail == Adjacent
    && (st.tail != Gap ==> end.current == st.current + w)
    && (st.tail == Gap ==> end.current == w)
  }

  lemma LetterIsVerb(c: char, st: Scan)
    requires IsLetter(c) && st.mode != InComment
    ensures !Opens(st.mode, c) && Spelt(st, [c], NextScan(st, c))
  {
  }

  lemma {:induction false} WordIsSpelt(w: string, st: Scan) returns (end: Scan)
    requires w != "" && AllLetters(w) && st.mode != InComment
    ensures Reads(w, st, end) && Spelt(st, w, end)
  {
    var next := NextScan(st, w[0]);
    LetterIsVerb(w[0], st);
    Head(w, 0);
    if |w| == 1 {
      end := next;
      ReadsCons(w[0], "", st, next);
    } else {
      end := WordIsSpelt(w[1..], next);
      ReadsCons(w[0], w[1..], st, end);
      Assoc(st.current, [w[0]], w[1..]);
    }
  }

  lemma {:induction false} BlanksArePassed(b: string, st: Scan)
    requires Blanks(b) && st.mode == Word && st.tail == Glued
    ensures Reads(b, st, st)
  {
    if b == "" {
    } else {
      BlanksArePassed(b[1..], st);
      ReadsCons(b[0], b[1..], st, st);
      Head(b, 0);
    }
  }

  lemma SameLineJoint(c: char, b: string, st: Scan)
    requires (c == '+' || c == '-') && Blanks(b) && st.mode == Word
    ensures var glued := st.(tail := Glued); Reads([c] + b, st, glued)
  {
    var glued := st.(tail := Glued);
    BlanksArePassed(b, glued);
    ReadsCons(c, b, st, glued);
  }

  lemma NewLineJoint(f: string, st: Scan)
    requires IsFiller(f) && st.mode == Word && st.tail == Glued
    ensures Reads("\n" + f, st, st.(mode := LineStart))
  {
    var next := st.(mode := LineStart);
    FillerIsPassed(f, next);
    ReadsCons('\n', f, st, next);
  }

  /** A joint glues what it separates, and leaves the verb as it is. */
  lemma JointIsPassed(j: string, st: Scan) returns (end: Scan)
    requires IsJoint(j) && st.mode == Word
    ensures Reads(j, st, end) && end.tail == Glued && end.mode != InComment && end.current == st.current
  {
    var n :| 1 <= n <= |j| && (j[0] == '+' || j[0] == '-') && Blanks(j[1..n])
             && (n == |j| || (j[n] == '\n' && IsFiller(j[n + 1..])));
    end := st.(tail := Glued);
    SameLineJoint(j[0], j[1..n], st);
    assert [j[0]] + j[1..n] == j[..n];
    if n == |j| {
      assert j[..n] == j;
    } else {
      NewLineJoint(j[n + 1..], end);
      assert j == j[..n] + ("\n" + j[n + 1..]);
      ReadsJoin(j[..n], "\n" + j[n + 1..], st, end, end.(mode := LineStart));
      end := end.(mode := LineStart);
    }
  }

  /** A keyword in any case, whole or split at a joint. */
  ghost predicate IsSplitKeyword(a: string, j: string, b: string) {
    && a != "" && AllLetters(a) && AllLetters(b)
    && (if j == "" then b == "" else b != "" && IsJoint(j))
    && exists w: string :: |w| == |a + b| && KeywordAt(a + b, 0, w)
  }

  /** Wherever it stands outside comments and parameters, a keyword makes the next parameter secret. */
  lemma KeywordIsCaught(a: string, j: string, b: string, st: Scan) returns (end: Scan)
    requires IsSplitKeyword(a, j, b) && st.mode != InComment
    ensures Reads(a + (j + b), st, end) && end.mode != InComment && Condemned(end)
  {
    var mid := WordIsSpelt(a, st);
    end := mid;
    if j == "" {
      Unit(a);
      Unit(j);
    } else {
      var joint := JointIsPassed(j, mid);
      end := WordIsSpelt(b, joint);
      ReadsJoin(j, b, mid, joint, end);
      ReadsJoin(a, j + b, st, mid, end);
    }
    var before := if st.tail == Gap then "" else st.current;
    Assoc(before, a, b);
    Unit(a + b);
    Unit(before + a);
    assert end.current == before + (a + b);
    EndsSensitive(before, a + b);
  }

  lemma EndsSensitive(before: string, x: string)
    requires exists w: string :: |w| == |x| && KeywordAt(x, 0, w)
    ensures IsSensitive(before + x)
  {
    var w: string :| |w| == |x| && KeywordAt(x, 0, w);
    assert KeywordAt(before + x, |before|, w);
    SensitiveIff(before + x);
  }

  // ---- Laws ----

  lemma PieceBefore(t: string, text: string, param: string, tail: string, m: Mode, n: Mode)
    requires Reads(t, Start(m), Start(n)) && IsFirstPiece(text, param, tail, n)
    ensures RedactText(t + (text + (param + tail)), m) == t + RedactText(text + (param + tail), n)
  {
    ReadsJoin(t, text, Start(m), Start(n), ScanAfter(text, Start(n)));
    RedactPiece(text, param, tail, n);
    RedactPiece(t + text, param, tail, m);
    Assoc(t, text, param + tail);
    Assoc(t, text, Mask(Piece(text, param), n) + RedactText(tail, Fresh));
  }

  /** Text that leaves no verb behind is printed, and redaction goes on as if it were not there. */
  lemma TextBefore(t: string, s: string, m: Mode, n: Mode)
    requires Reads(t, Start(m), Start(n))
    ensures RedactText(t + s, m) == t + RedactText(s, n)
  {
    if TextLen(s, n) == |s| {
      ReadsJoin(t, s, Start(m), Start(n), ScanAfter(s, Start(n)));
      RedactLastText(s, n);
      RedactLastText(t + s, m);
    } else {
      var text, param, tail := FirstPiece(s, n);
      PieceBefore(t, text, param, tail, m, n);
    }
  }

  /** Line prefixes and comment lines at the start, with whatever keywords and parentheses, are printed as
      they are and make nothing secret. */
  lemma FillerIsPrinted(f: string, s: string)
    requires IsFiller(f)
    ensures RedactText(f + s, LineStart) == f + RedactText(s, LineStart)
  {
    FillerIsPassed(f, Start(LineStart));
    TextBefore(f, s, LineStart, LineStart);
  }

  /** Right after a parameter a star also starts a comment. */
  lemma CommentAfterParameter(c: string, s: string)
    requires IsComment(c)
    ensures RedactText((c + "\n") + s, Fresh) == (c + "\n") + RedactText(s, LineStart)
  {
    var st := Start(Fresh);
    InsideComment(c[1..], Start(LineStart));
    ReadsCons('*', c[1..] + "\n", st, Start(LineStart));
    assert ['*'] + (c[1..] + "\n") == c + "\n";
    TextBefore(c + "\n", s, Fresh, LineStart);
  }

  /** Within a word a star is a character like any other. */
  lemma StarInWord(a: string, st: Scan) returns (end: Scan)
    requires a != "" && AllLetters(a) && st.mode != InComment
    ensures Reads(a + "*", st, end) && Spelt(st, a + "*", end)
  {
    var mid := WordIsSpelt(a, st);
    end := NextScan(mid, '*');
    ReadsCons('*', "", mid, end);
    ReadsJoin(a, "*", st, mid, end);
    Assoc(st.current, a, "*");
  }

  lemma {:induction false} StandingMore(p: string, t: string, m: Mode, end: Scan)
    requires ExpectsParameter(p, m) && Reads(t, Standing(p, m).value, end)
    ensures Standing(p + t, m) == Some(end) && RedactText(p + t, m) == RedactText(p, m) + t
    decreases |p|
  {
    if TextLen(p, m) == |p| {
      ReadsJoin(p, t, Start(m), Standing(p, m).value, end);
      RedactLastText(p, m);
      RedactLastText(p + t, m);
    } else {
      var text, param, tail := FirstPiece(p, m);
      StandingPiece(text, param, tail, m);
      StandingMore(tail, t, Fresh, end);
      StandingPiece(text, param, tail + t, m);
      RedactPiece(text, param, tail, m);
      RedactPiece(text, param, tail + t, m);
      var mask := Mask(Piece(text, param), m);
      Assoc(param, tail, t);
      Assoc(text, param + tail, t);
      Assoc(mask, RedactText(tail, Fresh), t);
      Assoc(text, mask + RedactText(tail, Fresh), t);
    }
  }

  /** A keyword anywhere outside comments and parameters, whole or split, masks the parameter after it. */
  lemma KeywordMasks(p: string, a: string, j: string, b: string, v: string, q: string)
    requires ExpectsParameter(p, LineStart) && IsSplitKeyword(a, j, b) && IsValue(v)
    ensures RedactText((p + (a + (j + b))) + (("(" + v + ")") + q), LineStart)
            == (RedactText(p, LineStart) + (a + (j + b))) + ("(*********)" + RedactText(q, Fresh))
  {
    var word := a + (j + b);
    var end := KeywordIsCaught(a, j, b, Standing(p, LineStart).value);
    StandingMore(p, word, LineStart, end);
    ValueIsParameter(v);
    ParameterAfter(p + word, LineStart, "(" + v + ")", q);
  }

  /** A whole command that is one secret parameter. */
  lemma SecretCommand(a: string, j: string, b: string, v: string)
    requires IsSplitKeyword(a, j, b) && IsValue(v)
    ensures Redacted((a + (j + b)) + ("(" + v + ")")) == (a + (j + b)) + "(*********)"
  {
    var word, param := a + (j + b), "(" + v + ")";
    assert TextLen("", LineStart) == 0 && Standing("", LineStart) == Some(Start(LineStart));
    KeywordMasks("", a, j, b, v, "");
    RedactLastText("", LineStart);
    RedactLastText("", Fresh);
    Unit(word);
    Unit(param);
    Unit("(*********)");
    assert word[0] == a[0] && IsLetter(a[0]);
    TrimmedIsFixed(word + param);
  }

  lemma WholeKeyword(w: string)
    requires IsKeyword(w)
    ensures IsSplitKeyword(w, "", "") && w + ("" + "") == w
  {
    Unit(w);
    forall n | 0 <= n < |w| ensures IsLetter(w[n]) {
      KeywordLetters(w, n);
    }
    assert KeywordAt(w + "", 0, w);
  }

  /** No end of a quoted secret shows, whatever parentheses and other quotes it holds. */
  lemma QuotedSecret(w: string, q: char, b: string)
    requires IsKeyword(w) && IsQuote(q) && q !in b && '\n' !in b
    ensures Redacted(w + ("(" + ([q] + b + [q]) + ")")) == w + "(*********)"
  {
    QuotedIsValue(q, b);
    WholeKeyword(w);
    SecretCommand(w, "", "", [q] + b + [q]);
  }

  lemma {:induction false} OneLineStart(s: string, i: nat)
    requires i <= |s| && forall g :: 0 <= g < i ==> s[g] != '\n'
    ensures LineFrom(s, i) == 0
  {
    if i == 0 {
    } else {
      OneLineStart(s, i - 1);
    }
  }

  lemma QuotedIsValue(q: char, b: string)
    requires IsQuote(q) && q !in b && '\n' !in b
    ensures IsValue([q] + b + [q])
  {
    var v, s := [q] + b + [q], b + [q];
    assert v[1..] == s && v[..0] == "" && v[|b| + 2..] == "";
    OneLineStart(s, |b|);
    assert QuoteAt(s, q, |b|);
    assert StringAt(v, 0, |b|);
    assert AllPlain("");
    assert IsValue(v[0 + |b| + 2..]);
  }

  // ---- Text on one line ----

  /** No continuation, comment, parenthesis or new line. */
  predicate IsSimple(t: string) {
    forall i :: 0 <= i < |t| ==> t[i] !in "+-*(\n"
  }

  lemma SimpleStep(c: char, st: Scan)
    requires IsSimple([c]) && st.mode != InComment
    ensures NextScan(st, c).mode != InComment && MarkOf(st.mode, c) != Continuation && !Opens(st.mode, c)
    ensures IsLetter(c) ==> MarkOf(st.mode, c) == Verb
  {
    assert [c][0] !in "+-*(\n";
  }

  predicate SimpleMark(c: char, mark: Mark) {
    mark != Continuation && (IsLetter(c) ==> mark == Verb)
  }

  lemma {:induction false} SimpleModes(t: string, m: Mode)
    requires IsSimple(t) && m != InComment
    ensures ScanAfter(t, Start(m)).mode != InComment
    ensures forall i :: 0 <= i < |t| ==> SimpleMark(t[i], Marks(t, m)[i])
  {
    if t == "" {
    } else {
      var u, c := t[..|t| - 1], t[|t| - 1];
      SimpleModes(u, m);
      ScanLast(t, Start(m), u, c);
      SimpleStep(c, ScanAfter(u, Start(m)));
    }
  }

  lemma {:induction false} SimpleChain(ms: seq<Mark>, ps: seq<nat>, n: nat)
    requires IsChain(ms, ps) && n < |ps| && forall i :: 0 <= i < |ms| ==> ms[i] != Continuation
    ensures ps[n] == ps[0] + n
  {
    if n == 0 {
    } else {
      SimpleChain(ms, ps, n - 1);
      assert GluedAt(ms, ps[n - 1], ps[n - 1 + 1]);
    }
  }

  lemma SpelledStands(t: string, m: Mode, ps: seq<nat>, w: string)
    requires IsSimple(t) && m != InComment && IsKeyword(w) && SpelledAlong(t, m, ps, w)
    ensures KeywordAt(t, ps[0], w)
  {
    var ms, letters := Marks(t, m), Letters(t, ps);
    SimpleModes(t, m);
    assert |ps| == |w|;
    SimpleChain(ms, ps, |w| - 1);
    forall n | 0 <= n < |w| ensures SameLetter(t[ps[0] + n], w[n]) {
      SimpleChain(ms, ps, n);
      KeywordLetters(w, n);
      UpperIff(letters[n], w[n]);
    }
  }

  /** Such a text makes the next parameter secret exactly when a keyword stands in it, in any case and with
      nothing between its letters. */
  lemma SimpleTextIff(t: string, m: Mode)
    requires IsSimple(t) && m != InComment
    ensures Sensitive(t, m) <==> exists i: nat, w: string :: KeywordAt(t, i, w)
  {
    SensitiveIffSpelled(t, m);
    if ps :| SpellsKeyword(t, m, ps) {
      var k :| 0 <= k < |SENSITIVE_PARAMETERS| && SpelledAlong(t, m, ps, SENSITIVE_PARAMETERS[k]);
      KeywordIff(SENSITIVE_PARAMETERS[k]);
      SpelledStands(t, m, ps, SENSITIVE_PARAMETERS[k]);
    }
    if i: nat, w: string :| KeywordAt(t, i, w) {
      KeywordSpelled(t, m, i, w, seq(|w|, n requires 0 <= n < |w| => i + n));
    }
  }

  lemma KeywordSpelled(t: string, m: Mode, i: nat, w: string, ps: seq<nat>)
    requires IsSimple(t) && m != InComment && KeywordAt(t, i, w)
    requires |ps| == |w| && forall n :: 0 <= n < |w| ==> ps[n] == i + n
    ensures SpellsKeyword(t, m, ps)
  {
    var ms := Marks(t, m);
    SimpleModes(t, m);
    forall n | 0 <= n < |w| ensures VerbAt(ms, ps[n]) && UpperChar(t[ps[n]]) == w[n] {
      KeywordLetters(w, n);
      UpperIff(t[ps[n]], w[n]);
      assert SameLetter(t[i + n], w[n]);
    }
    forall n | 0 <= n < |ps| - 1 ensures GluedAt(ms, ps[n], ps[n + 1]) {
      assert VerbAt(ms, ps[n]) && VerbAt(ms, ps[n + 1]);
    }
    KeywordIff(w);
    var k :| 0 <= k < |SENSITIVE_PARAMETERS| && SENSITIVE_PARAMETERS[k] == w;
    assert ToUpper(Letters(t, ps)) == w;
    assert SpelledAlong(t, m, ps, SENSITIVE_PARAMETERS[k]);
  }

  /** The parameter after such a text is masked exactly then, and printed as it is otherwise. */
  lemma SimpleCommand(t: string, v: string, q: string, m: Mode)
    requires IsSimple(t) && (m == LineStart || m == Fresh) && IsValue(v)
    ensures RedactText(t + (("(" + v + ")") + q), m) ==
            t + ((if exists i: nat, w: string :: KeywordAt(t, i, w) then "(*********)" else "(" + v + ")")
                 + RedactText(q, Fresh))
  {
    SimpleTextIff(t, m);
    SimpleModes(t, m);
    SimpleIsText(t, Start(m));
    ValueIsParameter(v);
    RedactPiece(t, "(" + v + ")", q, m);
  }

  lemma {:induction false} SimpleIsText(t: string, st: Scan)
    requires IsSimple(t) && st.mode != InComment
    ensures TextLen(t, st.mode) == |t|
  {
    if t == "" {
    } else {
      SimpleStep(t[0], st);
      SimpleIsText(t[1..], NextScan(st, t[0]));
    }
  }

  // ---- White space around a command ----

  predicate IsWhite(c: char) {
    c == ' ' || c == '\t' || c == '\n' || c == '\r'
  }

  predicate AllWhite(a: string) {
    forall i :: 0 <= i < |a| ==> IsWhite(a[i])
  }

  lemma DropFirst(t: string, s: string)
    requires t != "" && IsWhite(t[0]) && t[1..] == s
    ensures TrimLeft(t) == TrimLeft(s)
  {
    assert IsSpace(t[0]);
  }

  lemma DropLast(t: string, s: string)
    requires t != "" && IsWhite(t[|t| - 1]) && t[..|t| - 1] == s
    ensures TrimRight(t) == TrimRight(s)
  {
    assert IsSpace(t[|t| - 1]);
  }

  lemma {:induction false} WhiteBefore(a: string, s: string)
    requires AllWhite(a)
    ensures TrimLeft(a + s) == TrimLeft(s)
  {
    if a == "" {
      Unit(s);
    } else {
      WhiteBefore(a[1..], s);
      assert (a + s)[1..] == a[1..] + s;
      DropFirst(a + s, a[1..] + s);
    }
  }

  lemma {:induction false} WhiteAfter(s: string, b: string)
    requires AllWhite(b)
    ensures TrimRight(s + b) == TrimRight(s)
    decreases |b|
  {
    if b == "" {
      Unit(s);
    } else {
      var h := b[..|b| - 1];
      WhiteAfter(s, h);
      assert (s + b)[..|s| + |h|] == s + h;
      DropLast(s + b, s + h);
    }
  }

  /** White space around a command is dropped, and the rest is redacted from the start of a line. */
  lemma TrimmedCommand(a: string, s: string, b: string)
    requires AllWhite(a) && AllWhite(b) && s != "" && !IsSpace(s[0]) && !IsSpace(s[|s| - 1])
    ensures Redacted(a + (s + b)) == RedactText(s, LineStart)
  {
    WhiteBefore(a, s + b);
    assert (s + b)[0] == s[0];
    WhiteAfter(s, b);
  }
}
