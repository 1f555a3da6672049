/** What redaction promises of every command, whatever its text and parameter values. */
module RedactTheorems {
  import opened Basics
  import opened GoStrings
  import opened RedactSpec
  import opened RedactPieces
  import opened RedactValues

  // ---- The division into text and parameters ----

  function Flatten(ps: seq<Piece>): string {
    if ps == [] then "" else ps[0].text + ps[0].param + Flatten(ps[1..])
  }

  /** Texts free of parameters alternate with whole parameters, and only a parameter that reaches
      the end of the input may be unclosed. */
  predicate IsDivision(ps: seq<Piece>, m: Mode) {
    ps != [] &&
    if |ps| == 1 then ps[0].param == "" && TextLen(ps[0].text, m) == |ps[0].text|
    else IsFirstPiece(ps[0].text, ps[0].param, Flatten(ps[1..]), m) && IsDivision(ps[1..], Fresh)
  }

  lemma FlattenCons(p: Piece, ps: seq<Piece>)
    ensures Flatten([p] + ps) == p.text + (p.param + Flatten(ps))
  {
    assert ([p] + ps)[1..] == ps;
    Assoc(p.text, p.param, Flatten(ps));
  }

  lemma {:induction false} SplitIsDivision(s: string, m: Mode)
    ensures IsDivision(Split(s, m), m) && Flatten(Split(s, m)) == s
    decreases |s|
  {
    if TextLen(s, m) == |s| {
      SplitLast(s, m);
      FlattenCons(Piece(s, ""), []);
      assert [Piece(s, "")] + [] == [Piece(s, "")];
    } else {
      var t, param, tail := FirstPiece(s, m);
      var rest := Split(tail, Fresh);
      SplitIsDivision(tail, Fresh);
      SplitPiece(t, param, tail, m);
      FlattenCons(Piece(t, param), rest);
      assert ([Piece(t, param)] + rest)[1..] == rest;
    }
  }

  lemma {:induction false} DivisionIsSplit(ps: seq<Piece>, m: Mode)
    requires IsDivision(ps, m)
    ensures ps == Split(Flatten(ps), m)
  {
    assert ps == [ps[0]] + ps[1..];
    FlattenCons(ps[0], ps[1..]);
    if |ps| == 1 {
      assert Flatten(ps) == ps[0].text;
      SplitLast(ps[0].text, m);
    } else {
      DivisionIsSplit(ps[1..], Fresh);
      SplitPiece(ps[0].text, ps[0].param, Flatten(ps[1..]), m);
    }
  }

  /** The trimmed command divides into text and parameters in exactly one way. */
  lemma DivisionIsUnique(s: string, m: Mode, ps: seq<Piece>)
    ensures (IsDivision(ps, m) && Flatten(ps) == s) <==> ps == Split(s, m)
  {
    SplitIsDivision(s, m);
    if IsDivision(ps, m) && Flatten(ps) == s {
      DivisionIsSplit(ps, m);
    }
  }

  // ---- Secrets ----

  /** Where the scanner stands after `s`; nowhere when a parameter is still open. */
  function Standing(s: string, m: Mode): Option<Scan>
    decreases |s|
  {
    var k := TextLen(s, m);
    if k == |s| then Some(ScanAfter(s, Start(m)))
    else if Closes(s[k + 1..], Plain) then Standing(s[ParamEnd(s, k)..], Fresh)
    else None
  }

  /** The next `(` opens a parameter. */
  predicate ExpectsParameter(p: string, m: Mode) {
    Standing(p, m).Some? && Standing(p, m).value.mode != InComment
  }

  lemma ValueIsParameter(v: string)
    requires IsValue(v)
    ensures IsParameter("(" + v + ")") && Closes(("(" + v + ")")[1..], Plain)
  {
    ValueIsRead(v, "");
    assert ("(" + v + ")")[1..] == v + (")" + "");
  }

  /** Whether a value is closed does not depend on what comes after its parameter. */
  lemma ValueCloses(v: string, tail: string)
    requires Closes(v, Plain) || tail == ""
    ensures Closes(v + tail, Plain) == Closes(v, Plain)
  {
    if tail == "" {
      Unit(v);
    } else {
      ValueLocal(v, tail, Plain);
    }
  }

  lemma StandingAfter(s: string, m: Mode, k: nat, v: string, tail: string)
    requires k == TextLen(s, m) < |s| && s[k + 1..] == v && s[ParamEnd(s, k)..] == tail
    ensures Standing(s, m) == if Closes(v, Plain) then Standing(tail, Fresh) else None
  {
  }

  lemma AfterParenthesis(t: string, param: string, tail: string)
    requires param != ""
    ensures (t + (param + tail))[|t| + 1..] == param[1..] + tail
  {
  }

  lemma StandingPiece(t: string, param: string, tail: string, m: Mode)
    requires IsFirstPiece(t, param, tail, m)
    ensures Standing(t + (param + tail), m) == if Closes(param[1..], Plain) then Standing(tail, Fresh) else None
  {
    TakeApart(t, param, tail);
    FirstPieceEnds(t, param, tail, m);
    AfterParenthesis(t, param, tail);
    StandingAfter(t + (param + tail), m, |t|, param[1..] + tail, tail);
    ValueCloses(param[1..], tail);
  }

  lemma {:induction false} ParameterAfter(p: string, m: Mode, param: string, q: string)
    requires ExpectsParameter(p, m) && IsParameter(param) && (Closes(param[1..], Plain) || q == "")
    ensures RedactText(p + (param + q), m) ==
            RedactText(p, m)
            + ((if Condemned(Standing(p, m).value) then REDACTION else param) + RedactText(q, Fresh))
    decreases |p|
  {
    var masked := (if Condemned(Standing(p, m).value) then REDACTION else param) + RedactText(q, Fresh);
    if TextLen(p, m) == |p| {
      RedactPiece(p, param, q, m);
      RedactLastText(p, m);
    } else {
      var t, first, tail := FirstPiece(p, m);
      StandingPiece(t, first, tail, m);
      RedactPiece(t, first, tail, m);
      var r := param + q;
      ParameterAfter(tail, Fresh, param, q);
      RedactPiece(t, first, tail + r, m);
      assert t + (first + (tail + r)) == p + r by { Assoc(first, tail, r); Assoc(t, first + tail, r); }
      var mask := Mask(Piece(t, first), m);
      Regroup(t, mask, RedactText(tail, Fresh), masked);
    }
  }

  lemma Regroup(a: string, b: string, c: string, d: string)
    ensures a + (b + (c + d)) == a + (b + c) + d
  {
  }

  lemma {:induction false} TrimBefore(p: string, r: string)
    requires r != "" && !IsSpace(r[0])
    ensures TrimLeft(p + r) == TrimLeft(p) + r
  {
    if p == "" {
      assert p + r == r;
    } else if IsSpace(p[0]) {
      assert (p + r)[1..] == p[1..] + r;
      TrimBefore(p[1..], r);
    }
  }

  lemma TrimAround(p: string, r: string, q: string)
    requires r != "" && !IsSpace(r[0]) && !IsSpace(r[|r| - 1])
    ensures TrimSpace(p + (r + q)) == TrimLeft(p) + (r + TrimRight(q))
  {
    TrimBefore(p, r + q);
    var l := TrimLeft(p);
    Assoc(l, r, q);
    assert (l + r)[|l + r| - 1] == r[|r| - 1];
    TrimRightAppend(l + r, q);
    Assoc(l, r, TrimRight(q));
  }

  /** The whole output around one parameter: masked exactly when a sensitive verb stands before it,
      and the rest redacted as if the parameter were not there. */
  lemma ParameterInContext(p: string, v: string, q: string)
    requires ExpectsParameter(TrimLeft(p), LineStart) && IsValue(v)
    ensures Redacted(p + ("(" + v + ")" + q)) ==
            RedactText(TrimLeft(p), LineStart)
            + ((if Condemned(Standing(TrimLeft(p), LineStart).value) then REDACTION else "(" + v + ")")
               + RedactText(TrimRight(q), Fresh))
  {
    TrimAround(p, "(" + v + ")", q);
    ValueIsParameter(v);
    ParameterAfter(TrimLeft(p), LineStart, "(" + v + ")", TrimRight(q));
  }

  /** Noninterference: the output tells nothing of the value of a sensitive parameter. */
  lemma SecretsDoNotShow(p: string, v: string, w: string, q: string)
    requires ExpectsParameter(TrimLeft(p), LineStart) && Condemned(Standing(TrimLeft(p), LineStart).value)
    requires IsValue(v) && IsValue(w)
    ensures Redacted(p + ("(" + v + ")" + q)) == Redacted(p + ("(" + w + ")" + q))
  {
    ParameterInContext(p, v, q);
    ParameterInContext(p, w, q);
  }

  /** A value that is never closed reaches the end of the trimmed command. */
  lemma UnclosedParameter(v: string)
    requires NeverEnds(v)
    ensures IsParameter("(" + TrimRight(v))
  {
    NeverEndsIff(v);
    var w := TrimRight(v);
    assert v == w + v[|w|..];
    ValueLocal(w, v[|w|..], Plain);
    assert ("(" + w)[1..] == w;
  }

  lemma UnclosedInContext(p: string, v: string)
    requires ExpectsParameter(TrimLeft(p), LineStart) && NeverEnds(v)
    ensures Redacted(p + ("(" + v)) ==
            RedactText(TrimLeft(p), LineStart)
            + if Condemned(Standing(TrimLeft(p), LineStart).value) then REDACTION else "(" + TrimRight(v)
  {
    var w := TrimRight(v);
    TrimAround(p, "(", v);
    UnclosedParameter(v);
    Unit("(" + w);
    ParameterAfter(TrimLeft(p), LineStart, "(" + w, "");
    RedactLastText("", Fresh);
    Unit(if Condemned(Standing(TrimLeft(p), LineStart).value) then REDACTION else "(" + w);
  }

  /** Nor of a value that is never closed: everything after the parenthesis is masked. */
  lemma UnclosedSecretsDoNotShow(p: string, v: string, w: string)
    requires ExpectsParameter(TrimLeft(p), LineStart) && Condemned(Standing(TrimLeft(p), LineStart).value)
    requires NeverEnds(v) && NeverEnds(w)
    ensures Redacted(p + ("(" + v)) == Redacted(p + ("(" + w))
    ensures Redacted(p + ("(" + v)) == RedactText(TrimLeft(p), LineStart) + REDACTION
  {
    UnclosedInContext(p, v);
    UnclosedInContext(p, w);
  }

  // ---- Redacting twice, and not at all ----

  lemma {:induction false} PlainValue(v: string, q: string)
    requires forall i :: 0 <= i < |v| ==> v[i] !in ")'\""
    ensures ValueLen(v + ")" + q, Plain) == |v| + 1 && Closes(v + ")" + q, Plain)
  {
    if v == "" {
      assert v + ")" + q == ")" + q;
    } else {
      assert (v + ")" + q)[1..] == v[1..] + ")" + q;
      PlainValue(v[1..], q);
    }
  }

  /** The mask is itself a parameter: nothing after it is taken for its value. */
  lemma MaskIsParameter()
    ensures IsParameter(REDACTION) && Closes(REDACTION[1..], Plain)
  {
    var stars := "*********";
    PlainValue(stars, "");
    assert stars + ")" + "" == REDACTION[1..];
  }

  /** Masking keeps the shape, and masking again changes nothing. */
  lemma MaskedPiece(t: string, param: string, tail: string, rest: string, m: Mode)
    requires IsFirstPiece(t, param, tail, m) && (tail == "" ==> rest == "")
    ensures var p := Mask(Piece(t, param), m); IsFirstPiece(t, p, rest, m) && Mask(Piece(t, p), m) == p
  {
    MaskIsParameter();
  }

  lemma {:induction false} RedactTextTwice(s: string, m: Mode)
    ensures RedactText(RedactText(s, m), m) == RedactText(s, m)
    decreases |s|
  {
    if TextLen(s, m) == |s| {
      RedactLastText(s, m);
    } else {
      var t, param, tail := FirstPiece(s, m);
      var p, rest := Mask(Piece(t, param), m), RedactText(tail, Fresh);
      assert RedactText(s, m) == t + (p + rest) by { RedactPiece(t, param, tail, m); }
      assert tail == "" ==> rest == "" by { RedactLastText("", Fresh); }
      MaskedPiece(t, param, tail, rest, m);
      RedactPiece(t, p, rest, m);
      RedactTextTwice(tail, Fresh);
    }
  }

  /** `r` starts like `s`, and ends like it or with a parenthesis. */
  predicate SameEnds(s: string, r: string) {
    s != "" && r != "" && r[0] == s[0] && (r[|r| - 1] == s[|s| - 1] || r[|r| - 1] == ')')
  }

  lemma JoinEnds(t: string, param: string, p: string, tail: string, rest: string)
    requires SameEnds(param, p)
    requires if tail == "" then rest == "" else SameEnds(tail, rest)
    ensures SameEnds(t + (param + tail), t + (p + rest))
  {
    var s, r := t + (param + tail), t + (p + rest);
    if tail == "" {
      assert s == t + param && r == t + p;
    }
  }

  lemma MaskEnds(t: string, param: string, m: Mode)
    requires IsParameter(param)
    ensures SameEnds(param, Mask(Piece(t, param), m))
  {
  }

  lemma {:induction false} RedactedEnds(s: string, m: Mode)
    requires s != ""
    ensures SameEnds(s, RedactText(s, m))
    decreases |s|
  {
    if TextLen(s, m) == |s| {
      RedactLastText(s, m);
    } else {
      var t, param, tail := FirstPiece(s, m);
      var p, rest := Mask(Piece(t, param), m), RedactText(tail, Fresh);
      assert RedactText(s, m) == t + (p + rest) by { RedactPiece(t, param, tail, m); }
      MaskEnds(t, param, m);
      if tail == "" {
        RedactLastText("", Fresh);
      } else {
        RedactedEnds(tail, Fresh);
      }
      JoinEnds(t, param, p, tail, rest);
    }
  }

  lemma StaysTrimmed(input: string, r: string)
    requires TrimSpace(input) != "" && SameEnds(TrimSpace(input), r)
    ensures TrimSpace(r) == r
  {
    TrimSpaceEnds(input);
    TrimmedIsFixed(r);
  }

  /** Redacting what has been redacted changes nothing. */
  lemma RedactIsIdempotent(input: string)
    ensures Redacted(Redacted(input)) == Redacted(input)
  {
    var s := TrimSpace(input);
    if s == "" {
      RedactLastText("", LineStart);
    } else {
      RedactedEnds(s, LineStart);
      StaysTrimmed(input, RedactText(s, LineStart));
    }
    RedactTextTwice(s, LineStart);
  }

  /** No parameter of the division has to be masked, or it shows the mask already. */
  predicate Settled(ps: seq<Piece>, m: Mode) {
    ps == [] || (Mask(ps[0], m) == ps[0].param && Settled(ps[1..], Fresh))
  }

  lemma SettledCons(p: Piece, ps: seq<Piece>, m: Mode)
    ensures Settled([p] + ps, m) == (Mask(p, m) == p.param && Settled(ps, Fresh))
  {
    assert ([p] + ps)[1..] == ps;
  }

  lemma {:induction false} UnchangedIffSettled(s: string, m: Mode)
    ensures RedactText(s, m) == s <==> Settled(Split(s, m), m)
    decreases |s|
  {
    if TextLen(s, m) == |s| {
      RedactLastText(s, m);
      SplitLast(s, m);
      assert [Piece(s, "")] + [] == [Piece(s, "")];
      SettledCons(Piece(s, ""), [], m);
    } else {
      var t, param, tail := FirstPiece(s, m);
      RedactPiece(t, param, tail, m);
      SplitPiece(t, param, tail, m);
      SettledCons(Piece(t, param), Split(tail, Fresh), m);
      SameStart(t, param, tail, m);
      UnchangedIffSettled(tail, Fresh);
    }
  }

  /** A masked parameter never looks like the original. */
  lemma SameStart(t: string, param: string, tail: string, m: Mode)
    requires IsFirstPiece(t, param, tail, m)
    ensures var p, rest := Mask(Piece(t, param), m), RedactText(tail, Fresh);
            t + (p + rest) == t + (param + tail) <==> p == param && rest == tail
  {
    var p, rest := Mask(Piece(t, param), m), RedactText(tail, Fresh);
    if t + (p + rest) == t + (param + tail) && p != param {
      MaskIsParameter();
      FirstPieceEnds(t, param, tail, m);
      if tail == "" { RedactLastText("", Fresh); }
      FirstPieceEnds(t, p, rest, m);
      assert |p| == |param|;
      TakeApart(t, p, rest);
      TakeApart(t, param, tail);
    } else if t + (p + rest) == t + (param + tail) {
      TakeApart(t, p, rest);
      TakeApart(t, param, tail);
    }
  }

  /** The output is the trimmed command, nothing lost, duplicated or reordered, exactly when no
      parameter is masked. */
  lemma UnchangedCommand(input: string)
    ensures Redacted(input) == TrimSpace(input) <==> Settled(Split(TrimSpace(input), LineStart), LineStart)
  {
    UnchangedIffSettled(TrimSpace(input), LineStart);
  }
}
