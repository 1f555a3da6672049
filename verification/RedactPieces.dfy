/** The division of a command into pieces, one piece at a time. */
module RedactPieces {
  import opened Basics
  import opened GoStrings
  import opened RedactSpec

  // ---- Concatenation ----

  /** `a + b + c`, taken apart. */
  lemma TakeApart(a: string, b: string, c: string)
    ensures var s := a + (b + c);
            && |s| == |a| + |b| + |c| && s[..|a|] == a && s[|a|..|a| + |b|] == b
            && s[|a| + |b|..] == c && s[|a|..] == b + c
  {
  }

  // ---- A scanner's answer depends only on what it has read ----

  lemma {:induction false} TextLenLocal(t: string, q: string, m: Mode)
    requires TextLen(t, m) < |t|
    ensures TextLen(t + q, m) == TextLen(t, m)
  {
    if !Opens(m, t[0]) {
      assert (t + q)[1..] == t[1..] + q;
      TextLenLocal(t[1..], q, NextMode(m, t[0]));
    }
  }

  /** The mode after a text: it does not depend on the verbs. */
  function ModeAfter(t: string, m: Mode): Mode {
    if t == "" then m else ModeAfter(t[1..], NextMode(m, t[0]))
  }

  lemma {:induction false} ScanMode(t: string, st: Scan)
    ensures ScanAfter(t, st).mode == ModeAfter(t, st.mode)
  {
    if t == "" {
    } else {
      ScanMode(t[1..], NextScan(st, t[0]));
    }
  }

  lemma {:induction false} TextLenGoesOn(t: string, q: string, m: Mode)
    requires TextLen(t, m) == |t|
    ensures TextLen(t + q, m) == |t| + TextLen(q, ModeAfter(t, m))
  {
    if t == "" {
      assert t + q == q;
    } else {
      assert (t + q)[1..] == t[1..] + q;
      TextLenGoesOn(t[1..], q, NextMode(m, t[0]));
    }
  }

  lemma TextLenWhole(t: string, q: string, st: Scan)
    requires TextLen(t, st.mode) == |t|
    ensures TextLen(t + q, st.mode) == |t| + TextLen(q, ScanAfter(t, st).mode)
  {
    ScanMode(t, st);
    TextLenGoesOn(t, q, st.mode);
  }

  lemma {:induction false} TextLenPrefix(s: string, m: Mode)
    ensures var k := TextLen(s, m); TextLen(s[..k], m) == k
  {
    var k := TextLen(s, m);
    if k == 0 {
    } else {
      TextLenPrefix(s[1..], NextMode(m, s[0]));
      assert s[..k][1..] == s[1..][..k - 1];
    }
  }

  lemma {:induction false} ValueLocal(v: string, q: string, w: ValueMode)
    ensures Closes(v, w) ==> ValueLen(v + q, w) == ValueLen(v, w) && Closes(v + q, w)
    ensures !Closes(v, w) ==> ValueLen(v, w) == |v|
  {
    if v != "" && !(w.Plain? && v[0] == ')') {
      assert (v + q)[1..] == v[1..] + q;
      ValueLocal(v[1..], q, NextValueMode(w, v[0]));
    }
  }

  /** What is read as a value is, by itself, a whole value, closed exactly when it was. */
  lemma {:induction false} ValuePrefix(s: string, w: ValueMode)
    ensures var n := ValueLen(s, w); ValueLen(s[..n], w) == n && Closes(s[..n], w) == Closes(s, w)
  {
    if s != "" && !(w.Plain? && s[0] == ')') {
      var n := ValueLen(s, w);
      assert s[..n][1..] == s[1..][..n - 1];
      ValuePrefix(s[1..], NextValueMode(w, s[0]));
    }
  }

  // ---- The first piece ----

  predicate IsParameter(p: string) {
    p != "" && p[0] == '(' && ValueLen(p[1..], Plain) == |p| - 1
  }

  /** `t` then `param` make a first piece before `tail`. */
  predicate IsFirstPiece(t: string, param: string, tail: string, m: Mode) {
    && TextLen(t, m) == |t| && ScanAfter(t, Start(m)).mode != InComment
    && IsParameter(param) && (Closes(param[1..], Plain) || tail == "")
  }

  lemma FirstPieceEnds(t: string, param: string, tail: string, m: Mode)
    requires IsFirstPiece(t, param, tail, m)
    ensures var s := t + (param + tail); TextLen(s, m) == |t| && ParamEnd(s, |t|) == |t| + |param|
  {
    var v, s := param[1..], t + (param + tail);
    TakeApart(t, param, tail);
    assert TextLen(s, m) == |t| by { TextLenWhole(t, param + tail, Start(m)); }
    assert ParamEnd(s, |t|) == |t| + |param| by {
      assert (param + tail)[1..] == v + tail;
      assert s[|t| + 1..] == s[|t|..][1..];
      ValueLocal(v, tail, Plain);
      if tail == "" {
        assert v + tail == v;
      }
    }
  }

  lemma SplitHead(s: string, m: Mode)
    requires TextLen(s, m) < |s|
    ensures var k := TextLen(s, m); var e := ParamEnd(s, k);
            && TextLen(s[..k], m) == k
            && ScanAfter(s[..k], Start(m)).mode != InComment
            && IsParameter(s[k..e])
            && (Closes(s[k..e][1..], Plain) || s[e..] == "")
  {
    var k := TextLen(s, m);
    var e, rest := ParamEnd(s, k), s[k + 1..];
    TextLenPrefix(s, m);
    assert ScanAfter(s[..k], Start(m)).mode != InComment by {
      assert s == s[..k] + s[k..];
      TextLenWhole(s[..k], s[k..], Start(m));
    }
    var v := rest[..e - k - 1];
    assert s[k..e][1..] == v;
    assert ValueLen(v, Plain) == |v| && Closes(v, Plain) == Closes(rest, Plain) by { ValuePrefix(rest, Plain); }
    assert !Closes(rest, Plain) ==> s[e..] == "" by { ValueLocal(rest, "", Plain); }
  }

  lemma FirstPiece(s: string, m: Mode) returns (t: string, param: string, tail: string)
    requires TextLen(s, m) < |s|
    ensures s == t + (param + tail) && |tail| < |s| && IsFirstPiece(t, param, tail, m)
  {
    var k := TextLen(s, m);
    var e := ParamEnd(s, k);
    t, param, tail := s[..k], s[k..e], s[e..];
    SplitHead(s, m);
    Assoc(t, param, tail);
  }

  lemma SplitPiece(t: string, param: string, tail: string, m: Mode)
    requires IsFirstPiece(t, param, tail, m)
    ensures Split(t + (param + tail), m) == [Piece(t, param)] + Split(tail, Fresh)
  {
    TakeApart(t, param, tail);
    FirstPieceEnds(t, param, tail, m);
  }

  lemma SplitLast(s: string, m: Mode)
    requires TextLen(s, m) == |s|
    ensures Split(s, m) == [Piece(s, "")]
  {
  }

  lemma RenderCons(p: Piece, ps: seq<Piece>, m: Mode)
    ensures Render([p] + ps, m) == p.text + (Mask(p, m) + Render(ps, Fresh))
  {
    assert ([p] + ps)[1..] == ps;
    Assoc(p.text, Mask(p, m), Render(ps, Fresh));
  }

  lemma RedactPiece(t: string, param: string, tail: string, m: Mode)
    requires IsFirstPiece(t, param, tail, m)
    ensures RedactText(t + (param + tail), m) == t + (Mask(Piece(t, param), m) + RedactText(tail, Fresh))
  {
    SplitPiece(t, param, tail, m);
    RenderCons(Piece(t, param), Split(tail, Fresh), m);
  }

  lemma RedactLastText(s: string, m: Mode)
    requires TextLen(s, m) == |s|
    ensures RedactText(s, m) == s
  {
    SplitLast(s, m);
    assert [Piece(s, "")] + [] == [Piece(s, "")];
    RenderCons(Piece(s, ""), [], m);
  }
}
