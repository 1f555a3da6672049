/** Which texts are sensitive: those in which the letters of a keyword can be picked out, in any case,
    one verb character after another, with only continued lines and comments between them. */
module RedactVerbs {
  import opened Basics
  import opened GoStrings
  import opened RedactSpec

  /** What each character of a text is. */
  function Marks(t: string, m: Mode): (ms: seq<Mark>)
    ensures |ms| == |t|
  {
    if t == "" then []
    else Marks(t[..|t| - 1], m) + [MarkOf(ScanAfter(t[..|t| - 1], Start(m)).mode, t[|t| - 1])]
  }

  predicate VerbAt(ms: seq<Mark>, i: nat) {
    i < |ms| && ms[i] == Verb
  }

  predicate ContinuationAt(ms: seq<Mark>, i: nat) {
    i < |ms| && ms[i] == Continuation
  }

  predicate NoVerb(ms: seq<Mark>, i: nat, j: nat) {
    forall x: nat :: i <= x < j ==> !VerbAt(ms, x)
  }

  predicate Continued(ms: seq<Mark>, i: nat, j: nat) {
    exists x: nat :: i <= x < j && ContinuationAt(ms, x)
  }

  /** `i` and `j` are successive verb characters, side by side or with a continuation character between. */
  predicate GluedAt(ms: seq<Mark>, i: nat, j: nat) {
    && i < j && VerbAt(ms, i) && VerbAt(ms, j) && NoVerb(ms, i + 1, j)
    && (j == i + 1 || Continued(ms, i + 1, j))
  }

  predicate IsChain(ms: seq<Mark>, ps: seq<nat>) {
    && (forall n :: 0 <= n < |ps| ==> VerbAt(ms, ps[n]))
    && (forall n :: 0 <= n < |ps| - 1 ==> GluedAt(ms, ps[n], ps[n + 1]))
  }

  function Letters(t: string, ps: seq<nat>): (r: string)
    requires forall n :: 0 <= n < |ps| ==> ps[n] < |t|
    ensures |r| == |ps| && forall n :: 0 <= n < |ps| ==> r[n] == t[ps[n]]
  {
    seq(|ps|, n requires 0 <= n < |ps| => t[ps[n]])
  }

  /** The keyword is spelled along the positions `ps` of the text. */
  predicate SpelledAlong(t: string, m: Mode, ps: seq<nat>, word: string) {
    IsChain(Marks(t, m), ps) && ToUpper(Letters(t, ps)) == word
  }

  predicate SpellsKeyword(t: string, m: Mode, ps: seq<nat>) {
    exists k :: 0 <= k < |SENSITIVE_PARAMETERS| && SpelledAlong(t, m, ps, SENSITIVE_PARAMETERS[k])
  }

  // ---- Chains ----

  lemma GluedInPrefix(ms: seq<Mark>, e: nat, i: nat, j: nat)
    requires j < e <= |ms|
    ensures GluedAt(ms[..e], i, j) == GluedAt(ms, i, j)
  {
    assert forall x: nat :: x < e ==> VerbAt(ms[..e], x) == VerbAt(ms, x);
    assert forall x: nat :: x < e ==> ContinuationAt(ms[..e], x) == ContinuationAt(ms, x);
  }

  lemma ChainInPrefix(ms: seq<Mark>, e: nat, ps: seq<nat>)
    requires e <= |ms| && forall n :: 0 <= n < |ps| ==> ps[n] < e
    ensures IsChain(ms[..e], ps) == IsChain(ms, ps)
  {
    forall n | 0 <= n < |ps| - 1 ensures GluedAt(ms[..e], ps[n], ps[n + 1]) == GluedAt(ms, ps[n], ps[n + 1]) {
      GluedInPrefix(ms, e, ps[n], ps[n + 1]);
    }
    assert forall x: nat :: x < e ==> VerbAt(ms[..e], x) == VerbAt(ms, x);
  }

  lemma SubChain(ms: seq<Mark>, ps: seq<nat>, a: nat, b: nat)
    requires a <= b <= |ps| && IsChain(ms, ps)
    ensures IsChain(ms, ps[a..b])
  {
    var qs := ps[a..b];
    forall n | 0 <= n < |qs| - 1 ensures GluedAt(ms, qs[n], qs[n + 1]) {
      assert GluedAt(ms, ps[a + n], ps[a + n + 1]);
    }
  }

  lemma LastGlued(ms: seq<Mark>, ps: seq<nat>)
    requires |ps| > 1 && IsChain(ms, ps)
    ensures GluedAt(ms, ps[|ps| - 2], ps[|ps| - 1])
  {
    var n := |ps| - 2;
    assert GluedAt(ms, ps[n], ps[n + 1]);
  }

  lemma {:induction false} ChainIncreases(ms: seq<Mark>, ps: seq<nat>)
    requires ps != [] && IsChain(ms, ps)
    ensures forall n :: 0 <= n < |ps| ==> ps[n] <= ps[|ps| - 1]
  {
    if |ps| > 1 {
      LastGlued(ms, ps);
      SubChain(ms, ps, 0, |ps| - 1);
      ChainIncreases(ms, ps[0..|ps| - 1]);
      assert forall n :: 0 <= n < |ps| - 1 ==> ps[0..|ps| - 1][n] == ps[n];
    }
  }

  // ---- The verb being read, by position ----

  function NextTail(before: Tail, mark: Mark): Tail {
    match mark
    case Verb => Adjacent
    case Continuation => Glued
    case Blank => if before == Glued then Glued else Gap
    case Comment => before
  }

  function TailOf(ms: seq<Mark>): Tail {
    if ms == [] then Gap else NextTail(TailOf(ms[..|ms| - 1]), ms[|ms| - 1])
  }

  /** The positions of the characters of the verb being read. */
  function Current(ms: seq<Mark>): (ps: seq<nat>)
    ensures forall n :: 0 <= n < |ps| ==> ps[n] < |ms|
  {
    if ms == [] then []
    else
      var before := ms[..|ms| - 1];
      if ms[|ms| - 1] != Verb then Current(before)
      else if TailOf(before) == Gap then [|before|]
      else Current(before) + [|before|]
  }

  lemma CurrentSnoc(ms: seq<Mark>, mark: Mark)
    ensures Current(ms + [mark]) ==
            if mark != Verb then Current(ms) else if TailOf(ms) == Gap then [|ms|] else Current(ms) + [|ms|]
  {
    Front(ms, mark);
  }

  /** A comment does not start right after a verb character. */
  predicate WellMarked(ms: seq<Mark>) {
    forall i :: 0 < i < |ms| && ms[i] == Comment ==> ms[i - 1] != Verb
  }

  lemma {:induction false} TailAdjacent(ms: seq<Mark>)
    requires WellMarked(ms)
    ensures TailOf(ms) == Adjacent <==> ms != [] && ms[|ms| - 1] == Verb
  {
    if ms == [] {
    } else {
      TailAdjacent(ms[..|ms| - 1]);
    }
  }

  /** The tail tells what follows the last verb character. */
  lemma {:induction false} TailAfterLast(ms: seq<Mark>, last: nat)
    requires WellMarked(ms) && VerbAt(ms, last) && NoVerb(ms, last + 1, |ms|)
    ensures TailOf(ms) == Gap <==> last + 1 < |ms| && !Continued(ms, last + 1, |ms|)
    ensures TailOf(ms) == Glued <==> Continued(ms, last + 1, |ms|)
  {
    var e := |ms| - 1;
    if last < e {
      var before := ms[..e];
      assert forall x: nat :: x < e ==> VerbAt(before, x) == VerbAt(ms, x);
      assert forall x: nat :: x < e ==> ContinuationAt(before, x) == ContinuationAt(ms, x);
      TailAfterLast(before, last);
      TailAdjacent(before);
      assert !VerbAt(ms, e);
      if ms[e] == Continuation {
        assert ContinuationAt(ms, e);
      }
    }
  }

  /** Nothing but verb characters changes the verb being read. */
  lemma {:induction false} CurrentAcross(ms: seq<Mark>, e: nat, f: nat)
    requires e <= f <= |ms| && NoVerb(ms, e, f)
    ensures Current(ms[..f]) == Current(ms[..e])
    decreases f
  {
    if e < f {
      CurrentAcross(ms, e, f - 1);
      assert ms[..f][..f - 1] == ms[..f - 1];
      assert !VerbAt(ms, f - 1);
    }
  }

  /** The verb being read ends at the last verb character. */
  lemma {:induction false} CurrentLast(ms: seq<Mark>)
    requires Current(ms) != []
    ensures var last := Current(ms)[|Current(ms)| - 1]; VerbAt(ms, last) && NoVerb(ms, last + 1, |ms|)
  {
    var before := ms[..|ms| - 1];
    if ms[|ms| - 1] != Verb {
      CurrentLast(before);
      assert forall x: nat :: x < |before| ==> VerbAt(before, x) == VerbAt(ms, x);
    }
  }

  lemma GrowsChain(ms: seq<Mark>, ps: seq<nat>)
    requires WellMarked(ms) && ps != [] && IsChain(ms, ps) && ms != []
    requires var e, last := |ms| - 1, ps[|ps| - 1];
             last < e && VerbAt(ms, e) && NoVerb(ms[..e], last + 1, e) && TailOf(ms[..e]) != Gap
    ensures IsChain(ms, ps + [|ms| - 1])
  {
    var e, last := |ms| - 1, ps[|ps| - 1];
    var before, qs := ms[..e], ps + [e];
    assert forall x: nat :: x < e ==> VerbAt(before, x) == VerbAt(ms, x);
    assert forall x: nat :: x < e ==> ContinuationAt(before, x) == ContinuationAt(ms, x);
    TailAfterLast(before, last);
    assert GluedAt(ms, last, e);
    forall n | 0 <= n < |qs| - 1 ensures GluedAt(ms, qs[n], qs[n + 1]) {
      if n < |ps| - 1 { assert GluedAt(ms, ps[n], ps[n + 1]); }
    }
  }

  /** The verb being read is still a chain after one more verb character. */
  lemma NextChain(ms: seq<Mark>, ps: seq<nat>, gap: bool)
    requires WellMarked(ms) && ms != [] && VerbAt(ms, |ms| - 1) && gap == (TailOf(ms[..|ms| - 1]) == Gap)
    requires IsChain(ms, ps) && forall n :: 0 <= n < |ps| ==> ps[n] < |ms| - 1
    requires ps != [] ==> NoVerb(ms[..|ms| - 1], ps[|ps| - 1] + 1, |ms| - 1)
    ensures IsChain(ms, if gap then [|ms| - 1] else ps + [|ms| - 1])
  {
    if !gap && ps != [] {
      GrowsChain(ms, ps);
    }
  }

  lemma CurrentStaysChain(before: seq<Mark>, mark: Mark)
    requires WellMarked(before + [mark]) && IsChain(before, Current(before))
    ensures IsChain(before + [mark], Current(before + [mark]))
  {
    var ms, e, ps := before + [mark], |before|, Current(before);
    Front(before, mark);
    assert IsChain(ms, ps) by { ChainInPrefix(ms, e, ps); }
    CurrentSnoc(before, mark);
    if mark == Verb {
      if ps != [] {
        CurrentLast(before);
      }
      NextChain(ms, ps, TailOf(before) == Gap);
    }
  }

  /** The verb being read is a chain. */
  lemma {:induction false} CurrentIsChain(ms: seq<Mark>)
    requires WellMarked(ms)
    ensures IsChain(ms, Current(ms))
  {
    if ms == [] {
    } else {
      var before := ms[..|ms| - 1];
      CurrentIsChain(before);
      Last(ms);
      CurrentStaysChain(before, ms[|ms| - 1]);
    }
  }

  /** A character glued to the one before it is not read after a gap. */
  lemma NoGapBeforeGlued(ms: seq<Mark>, i: nat)
    requires WellMarked(ms) && ms != [] && GluedAt(ms, i, |ms| - 1)
    ensures TailOf(ms[..|ms| - 1]) != Gap
  {
    var e := |ms| - 1;
    var before := ms[..e];
    assert forall x: nat :: x < e ==> VerbAt(before, x) == VerbAt(ms, x);
    TailAfterLast(before, i);
    if e > i + 1 {
      var x: nat :| i + 1 <= x < e && ContinuationAt(ms, x);
      assert ContinuationAt(before, x);
    }
  }

  lemma LongerBy(ms: seq<Mark>, before: seq<Mark>, earlier: seq<nat>)
    requires ms == before + [Verb] && TailOf(before) != Gap && Current(before) == earlier
    ensures Current(ms) == earlier + [|ms| - 1]
  {
    CurrentSnoc(before, Verb);
  }

  /** The verb being read grows by a character glued to its last one. */
  lemma CurrentGrows(ms: seq<Mark>, i: nat)
    requires WellMarked(ms) && ms != [] && GluedAt(ms, i, |ms| - 1)
    ensures Current(ms) == Current(ms[..i + 1]) + [|ms| - 1]
  {
    var e := |ms| - 1;
    var before := ms[..e];
    assert TailOf(before) != Gap by { NoGapBeforeGlued(ms, i); }
    assert Current(before) == Current(ms[..i + 1]) by { CurrentAcross(ms, i + 1, e); }
    assert ms == before + [Verb] by { Last(ms); }
    LongerBy(ms, before, Current(ms[..i + 1]));
  }

  lemma CurrentEnds(ms: seq<Mark>)
    requires ms != [] && ms[|ms| - 1] == Verb
    ensures Current(ms) != [] && Current(ms)[|Current(ms)| - 1] == |ms| - 1
  {
  }

  lemma SuffixSnoc(cs: seq<nat>, qs: seq<nat>, e: nat)
    requires |qs| <= |cs| && cs[|cs| - |qs|..] == qs
    ensures (cs + [e])[|cs| - |qs|..] == qs + [e]
  {
  }

  /** A chain without its last position ends at the position before it. */
  lemma ShorterChain(ms: seq<Mark>, ps: seq<nat>)
    requires WellMarked(ms) && |ps| > 1 && IsChain(ms, ps) && ps[|ps| - 1] == |ms| - 1
    ensures var i, qs := ps[|ps| - 2], ps[..|ps| - 1];
            && i + 1 < |ms| && GluedAt(ms, i, |ms| - 1)
            && WellMarked(ms[..i + 1]) && IsChain(ms[..i + 1], qs)
  {
    var i, qs := ps[|ps| - 2], ps[..|ps| - 1];
    LastGlued(ms, ps);
    assert qs == ps[0..|ps| - 1];
    SubChain(ms, ps, 0, |ps| - 1);
    ChainIncreases(ms, qs);
    ChainInPrefix(ms, i + 1, qs);
  }

  lemma LongerEnd(ms: seq<Mark>, i: nat, qs: seq<nat>)
    requires WellMarked(ms) && ms != [] && GluedAt(ms, i, |ms| - 1)
    requires var cs := Current(ms[..i + 1]); |qs| <= |cs| && cs[|cs| - |qs|..] == qs
    ensures var cs, ps := Current(ms), qs + [|ms| - 1]; |ps| <= |cs| && cs[|cs| - |ps|..] == ps
  {
    CurrentGrows(ms, i);
    SuffixSnoc(Current(ms[..i + 1]), qs, |ms| - 1);
  }

  /** A chain that ends at the last character is the end of the verb being read. */
  lemma {:induction false} ChainEndsCurrent(ms: seq<Mark>, ps: seq<nat>)
    requires WellMarked(ms) && ps != [] && IsChain(ms, ps) && ps[|ps| - 1] == |ms| - 1
    ensures var cs := Current(ms); |ps| <= |cs| && cs[|cs| - |ps|..] == ps
    decreases |ps|
  {
    if |ps| == 1 {
      CurrentEnds(ms);
    } else {
      var i, qs := ps[|ps| - 2], ps[..|ps| - 1];
      ShorterChain(ms, ps);
      ChainEndsCurrent(ms[..i + 1], qs);
      LongerEnd(ms, i, qs);
      Last(ps);
    }
  }

  // ---- The scan, by position ----

  lemma {:induction false} ScanOne(t: string, c: char, st: Scan)
    ensures ScanAfter(t + [c], st) == NextScan(ScanAfter(t, st), c)
  {
    if t == "" {
      assert t + [c] == [c] && [c][1..] == "";
    } else {
      assert (t + [c])[1..] == t[1..] + [c];
      ScanOne(t[1..], c, NextScan(st, t[0]));
    }
  }

  lemma ScanLast(t: string, st: Scan, u: string, c: char)
    requires t == u + [c]
    ensures ScanAfter(t, st) == NextScan(ScanAfter(u, st), c)
  {
    ScanOne(u, c, st);
  }

  lemma {:induction false} MarksInPrefix(t: string, m: Mode, e: nat)
    requires e <= |t|
    ensures Marks(t[..e], m) == Marks(t, m)[..e]
  {
    if e == |t| {
      assert t[..e] == t && Marks(t, m)[..e] == Marks(t, m);
    } else {
      var u := t[..|t| - 1];
      MarksInPrefix(u, m, e);
      assert u[..e] == t[..e];
    }
  }

  /** One character changes the scan as its mark says. */
  lemma ScanByMark(st: Scan, c: char)
    ensures var mark, next := MarkOf(st.mode, c), NextScan(st, c);
            && next.tail == NextTail(st.tail, mark)
            && next.current == (if mark != Verb then st.current else if st.tail == Gap then [c] else st.current + [c])
            && (mark == Verb ==> next.mode == Word)
            && (mark == Comment ==> st.mode != Word)
  {
  }

  lemma WellMarkedSnoc(ms: seq<Mark>, mark: Mark)
    requires WellMarked(ms) && (mark == Comment ==> ms == [] || ms[|ms| - 1] != Verb)
    ensures WellMarked(ms + [mark]) && TailOf(ms + [mark]) == NextTail(TailOf(ms), mark)
  {
    Front(ms, mark);
  }

  lemma {:induction false} TailByPosition(t: string, m: Mode)
    ensures ScanAfter(t, Start(m)).tail == TailOf(Marks(t, m)) && WellMarked(Marks(t, m))
    ensures t != "" && Marks(t, m)[|t| - 1] == Verb ==> ScanAfter(t, Start(m)).mode == Word
  {
    if t == "" {
    } else {
      var u, c := t[..|t| - 1], t[|t| - 1];
      var st := ScanAfter(u, Start(m));
      TailByPosition(u, m);
      ScanLast(t, Start(m), u, c);
      ScanByMark(st, c);
      WellMarkedSnoc(Marks(u, m), MarkOf(st.mode, c));
    }
  }

  /** Letters at old positions are unchanged, and a new position adds a letter. */
  lemma LettersSnoc(u: string, c: char, ps: seq<nat>)
    requires forall n :: 0 <= n < |ps| ==> ps[n] < |u|
    ensures Letters(u + [c], ps) == Letters(u, ps)
    ensures Letters(u + [c], ps + [|u|]) == Letters(u, ps) + [c]
    ensures Letters(u + [c], [|u|]) == [c]
  {
  }

  lemma {:induction false} CurrentByPosition(t: string, m: Mode)
    ensures ScanAfter(t, Start(m)).current == Letters(t, Current(Marks(t, m)))
  {
    if t == "" {
    } else {
      var u, c := t[..|t| - 1], t[|t| - 1];
      var st := ScanAfter(u, Start(m));
      CurrentByPosition(u, m);
      assert st.tail == TailOf(Marks(u, m)) by { TailByPosition(u, m); }
      assert ScanAfter(t, Start(m)) == NextScan(st, c) by { ScanLast(t, Start(m), u, c); }
      ScanByMark(st, c);
      CurrentSnoc(Marks(u, m), MarkOf(st.mode, c));
      Last(t);
      LettersSnoc(u, c, Current(Marks(u, m)));
    }
  }

  // ---- The theorem ----

  lemma UpperLetters(t: string, ps: seq<nat>, a: nat, b: nat)
    requires a <= b <= |ps| && forall n :: 0 <= n < |ps| ==> ps[n] < |t|
    ensures ToUpper(Letters(t, ps))[a..b] == ToUpper(Letters(t, ps[a..b]))
  {
  }

  lemma ChainSpells(t: string, m: Mode, cs: seq<nat>) returns (ps: seq<nat>)
    requires IsChain(Marks(t, m), cs) && IsSensitive(Letters(t, cs))
    ensures SpellsKeyword(t, m, ps)
  {
    var up := ToUpper(Letters(t, cs));
    var k :| 0 <= k < |SENSITIVE_PARAMETERS| && Contains(up, SENSITIVE_PARAMETERS[k]);
    var word := SENSITIVE_PARAMETERS[k];
    var a :| 0 <= a <= |up| - |word| && OccursAt(up, word, a);
    ps := cs[a..a + |word|];
    UpperLetters(t, cs, a, a + |word|);
    SubChain(Marks(t, m), cs, a, a + |word|);
    assert SpelledAlong(t, m, ps, word);
  }

  /** A keyword in the verb being read is spelled along some of its positions. */
  lemma CurrentSpells(t: string, m: Mode) returns (ps: seq<nat>)
    requires IsSensitive(ScanAfter(t, Start(m)).current)
    ensures SpellsKeyword(t, m, ps)
  {
    TailByPosition(t, m);
    CurrentByPosition(t, m);
    CurrentIsChain(Marks(t, m));
    ps := ChainSpells(t, m, Current(Marks(t, m)));
  }

  lemma SpelledInPrefix(t: string, m: Mode, e: nat, ps: seq<nat>, word: string)
    requires e <= |t| && forall n :: 0 <= n < |ps| ==> ps[n] < e
    ensures SpelledAlong(t[..e], m, ps, word) == SpelledAlong(t, m, ps, word)
  {
    MarksInPrefix(t, m, e);
    ChainInPrefix(Marks(t, m), e, ps);
    assert Letters(t[..e], ps) == Letters(t, ps);
  }

  lemma {:induction false} CondemnedSpells(t: string, m: Mode) returns (ps: seq<nat>)
    requires Sensitive(t, m)
    ensures SpellsKeyword(t, m, ps)
  {
    if IsSensitive(ScanAfter(t, Start(m)).current) {
      ps := CurrentSpells(t, m);
    } else {
      var u := t[..|t| - 1];
      ScanLast(t, Start(m), u, t[|t| - 1]);
      ps := CondemnedSpells(u, m);
      var k :| 0 <= k < |SENSITIVE_PARAMETERS| && SpelledAlong(u, m, ps, SENSITIVE_PARAMETERS[k]);
      SpelledInPrefix(t, m, |t| - 1, ps, SENSITIVE_PARAMETERS[k]);
    }
  }

  lemma ContainsMore(s: string, t: string, word: string)
    requires Contains(s, word)
    ensures Contains(s + t, word)
  {
    var a :| 0 <= a <= |s| - |word| && OccursAt(s, word, a);
    assert OccursAt(s + t, word, a);
  }

  lemma StaysCondemned(st: Scan, c: char)
    requires Condemned(st)
    ensures Condemned(NextScan(st, c))
  {
    if !st.condemned && MarkOf(st.mode, c) == Verb && st.tail != Gap {
      var k :| 0 <= k < |SENSITIVE_PARAMETERS| && Contains(ToUpper(st.current), SENSITIVE_PARAMETERS[k]);
      ContainsMore(ToUpper(st.current), ToUpper([c]), SENSITIVE_PARAMETERS[k]);
      assert ToUpper(st.current + [c]) == ToUpper(st.current) + ToUpper([c]);
    }
  }

  lemma SuffixIsSensitive(verb: string, a: nat, k: nat)
    requires a <= |verb| && k < |SENSITIVE_PARAMETERS| && ToUpper(verb)[a..|verb|] == SENSITIVE_PARAMETERS[k]
    ensures IsSensitive(verb)
  {
    assert OccursAt(ToUpper(verb), SENSITIVE_PARAMETERS[k], a);
  }

  /** A keyword along a chain that ends with the text is in the verb being read. */
  lemma SpelledAtEnd(t: string, m: Mode, ps: seq<nat>, k: nat)
    requires k < |SENSITIVE_PARAMETERS| && SpelledAlong(t, m, ps, SENSITIVE_PARAMETERS[k])
    requires ps != [] && ps[|ps| - 1] == |t| - 1
    ensures IsSensitive(Letters(t, Current(Marks(t, m))))
  {
    var cs := Current(Marks(t, m));
    TailByPosition(t, m);
    ChainEndsCurrent(Marks(t, m), ps);
    var a := |cs| - |ps|;
    assert cs[a..|cs|] == ps;
    UpperLetters(t, cs, a, |cs|);
    SuffixIsSensitive(Letters(t, cs), a, k);
  }

  lemma KeywordsAreNotEmpty(k: nat)
    requires k < |SENSITIVE_PARAMETERS|
    ensures |SENSITIVE_PARAMETERS[k]| > 0
  {
    assert |"LDAPPWD"| == 7 && |"PASSWORD"| == 8 && |"SSLCRYP"| == 7;
  }

  lemma {:induction false} SpellingCondemns(t: string, m: Mode, ps: seq<nat>, k: nat)
    requires k < |SENSITIVE_PARAMETERS| && SpelledAlong(t, m, ps, SENSITIVE_PARAMETERS[k])
    ensures Sensitive(t, m)
  {
    KeywordsAreNotEmpty(k);
    ChainIncreases(Marks(t, m), ps);
    var e := |t| - 1;
    if ps[|ps| - 1] == e {
      SpelledAtEnd(t, m, ps, k);
      CurrentByPosition(t, m);
    } else {
      SpelledInPrefix(t, m, e, ps, SENSITIVE_PARAMETERS[k]);
      SpellingCondemns(t[..e], m, ps, k);
      ScanLast(t, Start(m), t[..e], t[e]);
      StaysCondemned(ScanAfter(t[..e], Start(m)), t[e]);
    }
  }

  /** A parameter is masked exactly when its text spells a keyword, however it is split over lines. */
  lemma SensitiveIffSpelled(t: string, m: Mode)
    ensures Sensitive(t, m) <==> exists ps :: SpellsKeyword(t, m, ps)
  {
    if Sensitive(t, m) {
      var ps := CondemnedSpells(t, m);
    }
    if ps :| SpellsKeyword(t, m, ps) {
      var k: nat :| k < |SENSITIVE_PARAMETERS| && SpelledAlong(t, m, ps, SENSITIVE_PARAMETERS[k]);
      SpellingCondemns(t, m, ps, k);
    }
  }
}
