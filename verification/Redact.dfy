/** The redactor as the program runs it: one character at a time through a buffered reader. */
module Redact {
  import opened Basics
  import opened GoStrings
  import opened RedactSpec
  import opened RedactPieces
  import opened RedactValues

  /** `bufio.Reader` over a string: what is still to be read. */
  class RuneReader {
    var unread: string

    constructor (s: string)
      ensures unread == s
    {
      unread := s;
    }

    method ReadRune() returns (ok: bool, c: char)
      modifies this
      ensures ok == (old(unread) != [])
      ensures ok ==> [c] + unread == old(unread)
      ensures !ok ==> unread == []
    {
      ok, c := unread != [], ' ';
      if ok {
        c, unread := unread[0], unread[1..];
      }
    }

    /** Looks at the next character without moving. */
    method Peek() returns (ok: bool, c: char)
      ensures ok == (unread != [])
      ensures ok ==> c == unread[0]
    {
      ok, c := unread != [], ' ';
      if ok {
        c := unread[0];
      }
    }
  }

  // ---- Parameter values ----

  /** Having read `x` of the value `all`, which began in mode `v`, the reader is in mode `w` before `rest`. */
  ghost predicate Reading(all: string, v: ValueMode, x: string, rest: string, w: ValueMode) {
    && all == x + rest
    && ValueLen(all, v) == |x| + ValueLen(rest, w)
    && Closes(all, v) == Closes(rest, w)
  }

  lemma ReadOne(all: string, v: ValueMode, x: string, c: char, rest: string, w: ValueMode)
    requires Reading(all, v, x, [c] + rest, w)
    requires !(w.Plain? && c == ')')
    ensures Reading(all, v, x + [c], rest, NextValueMode(w, c))
  {
    assert x + [c] + rest == x + ([c] + rest);
    assert ([c] + rest)[1..] == rest;
  }

  lemma ReadMore(all: string, x: string, rest: string, q: char, tail: string, rest': string)
    requires Reading(all, Plain, x, rest, Quoted(q))
    requires Reading(rest, Quoted(q), tail, rest', Plain)
    ensures Reading(all, Plain, x + tail, rest', Plain)
  {
  }

  /** Reading stops for good when nothing is left, whatever the mode. */
  lemma ReadOut(all: string, v: ValueMode, x: string, w: ValueMode)
    requires Reading(all, v, x, "", w)
    ensures Reading(all, v, x, "", Plain)
  {
  }

  /** At the first significant character of a continued line: a comment, or more of the string. */
  lemma PrefixEnds(all: string, v: ValueMode, x: string, rest: string, q: char)
    requires q != '*' && Reading(all, v, x, rest, Prefix(q))
    requires rest != "" && StartsOutput(rest[0])
    ensures Reading(all, v, x, rest, if rest[0] == '*' then Remark(q) else Quoted(q))
  {
  }

  method FindEndOfParameterString(stringDenoter: char, r: RuneReader) returns (parameter: string)
    requires stringDenoter == '\'' || stringDenoter == '"'
    modifies r
    ensures Reading(old(r.unread), Quoted(stringDenoter), parameter, r.unread, Plain)
  {
    parameter := "";
    ghost var all, q := r.unread, stringDenoter;
    while true
      invariant Reading(all, Quoted(q), parameter, r.unread, Quoted(q))
      decreases |r.unread|
    {
      ghost var left, x := |r.unread|, parameter;
      var ok, c := r.ReadRune();
      if !ok { ReadOut(all, Quoted(q), parameter, Quoted(q)); return; }
      parameter := parameter + [c];
      ReadOne(all, Quoted(q), x, c, r.unread, Quoted(q));
      if c == stringDenoter {
        break;
      } else if c == '\n' {
        label NewLineLoop:
        while true
          invariant Reading(all, Quoted(q), parameter, r.unread, Prefix(q))
          invariant |r.unread| < left
          decreases |r.unread|
        {
          var ok, next := r.Peek();
          if !ok { ReadOut(all, Quoted(q), parameter, Prefix(q)); return; }
          if StartsOutput(next) {
            PrefixEnds(all, Quoted(q), parameter, r.unread, q);
            if next == '*' {
              ghost var left := |r.unread|;
              label CommentLoop:
              while true
                invariant Reading(all, Quoted(q), parameter, r.unread, Remark(q))
                invariant |r.unread| <= left
                invariant |r.unread| == left ==> r.unread != "" && r.unread[0] == '*'
                decreases |r.unread|
              {
                x := parameter;
                ok, c := r.ReadRune();
                if !ok { ReadOut(all, Quoted(q), parameter, Remark(q)); return; }
                parameter := parameter + [c];
                ReadOne(all, Quoted(q), x, c, r.unread, Remark(q));
                if c == '\n' {
                  break CommentLoop;
                }
              }
              continue NewLineLoop;
            }
            break NewLineLoop;
          }
          x := parameter;
          ok, c := r.ReadRune();
          parameter := parameter + [c];
          ReadOne(all, Quoted(q), x, c, r.unread, Prefix(q));
        }
      }
    }
  }

  /** Reading stops at a closing parenthesis, or with nothing left to read. */
  lemma ReadAll(all: string, v: ValueMode, x: string, rest: string, w: ValueMode)
    requires Reading(all, v, x, rest, w)
    requires rest == "" || (w.Plain? && rest[0] == ')')
    ensures var n := if rest == "" then |x| else |x| + 1;
            ValueLen(all, v) == n && all[..n] == x + rest[..n - |x|] && all[n..] == rest[n - |x|..]
  {
  }

  method GetParameterString(r: RuneReader) returns (parameter: string)
    modifies r
    ensures var n := ValueLen(old(r.unread), Plain);
            parameter == "(" + old(r.unread)[..n] && r.unread == old(r.unread)[n..]
    ensures IsParameterOf(old(r.unread), parameter)
  {
    parameter := "(";
    ghost var all, x := r.unread, "";
    ParameterOf(all);
    while true
      invariant parameter == "(" + x
      invariant Reading(all, Plain, x, r.unread, Plain)
      decreases |r.unread|
    {
      ghost var rest := r.unread;
      var ok, c := r.ReadRune();
      if !ok {
        ReadAll(all, Plain, x, rest, Plain);
        return;
      }
      parameter := parameter + [c];
      if c == ')' {
        ReadAll(all, Plain, x, rest, Plain);
        Assoc("(", x, [c]);
        break;
      }
      ReadOne(all, Plain, x, c, r.unread, Plain);
      Assoc("(", x, [c]);
      x := x + [c];
      if c == '\'' || c == '"' {
        ghost var rest := r.unread;
        var tail := FindEndOfParameterString(c, r);
        ReadMore(all, x, rest, c, tail, r.unread);
        Assoc("(", x, tail);
        parameter, x := parameter + tail, x + tail;
      }
    }
  }

  // ---- Text ----

  method IsSensitiveCommand(command: string) returns (sensitive: bool)
    ensures sensitive == IsSensitiveUpper(command)
  {
    for k := 0 to |SENSITIVE_PARAMETERS|
      invariant forall j :: 0 <= j < k ==> !Contains(command, SENSITIVE_PARAMETERS[j])
    {
      if Contains(command, SENSITIVE_PARAMETERS[k]) { return true; }
    }
    return false;
  }

  /** Redaction, read from left to right: what is printed for `s` when the scanner stands at `st`. */
  ghost function Stream(s: string, st: Scan): string
    decreases |s|
  {
    if s == "" then ""
    else if Opens(st.mode, s[0]) then Masked(s[1..], Condemned(st))
    else [s[0]] + Stream(s[1..], NextScan(st, s[0]))
  }

  /** The same just after an opening parenthesis. */
  ghost function Masked(s: string, redacting: bool): string
    decreases |s|
  {
    var n := ValueLen(s, Plain);
    (if redacting then REDACTION else "(" + s[..n]) + (if s == "" then "" else Stream(s[n..], Start(Fresh)))
  }

  /** Text is printed as it stands. */
  lemma {:induction false} StreamText(t: string, rest: string, st: Scan)
    requires |t| <= TextLen(t + rest, st.mode)
    ensures Stream(t + rest, st) == t + Stream(rest, ScanAfter(t, st))
    ensures TextLen(t + rest, st.mode) == |t| + TextLen(rest, ScanAfter(t, st).mode)
  {
    if t == "" {
      assert t + rest == rest;
    } else {
      var c, u, next := t[0], t[1..], NextScan(st, t[0]);
      assert (t + rest)[1..] == u + rest;
      StreamText(u, rest, next);
      calc {
        Stream(t + rest, st);
        [c] + Stream(u + rest, next);
        [c] + (u + Stream(rest, ScanAfter(u, next)));
        [c] + u + Stream(rest, ScanAfter(u, next));
        t + Stream(rest, ScanAfter(t, st));
      }
    }
  }

  /** A parameter is printed or masked, and reading goes on after it. */
  lemma StreamParameter(param: string, tail: string, st: Scan)
    requires IsParameter(param) && (Closes(param[1..], Plain) || tail == "") && st.mode != InComment
    ensures Stream(param + tail, st) ==
            (if Condemned(st) then REDACTION else param) + Stream(tail, Start(Fresh))
  {
    var v := param[1..];
    assert (param + tail)[0] == '(' && (param + tail)[1..] == v + tail;
    ValueLocal(v, tail, Plain);
    assert tail == "" ==> v + tail == v;
    assert ValueLen(v + tail, Plain) == |v|;
    assert (v + tail)[..|v|] == v && (v + tail)[|v|..] == tail;
    assert "(" + v == param;
  }

  /** Reading from left to right gives what the division into pieces gives. */
  lemma {:induction false} StreamIsRedactText(s: string, m: Mode)
    ensures Stream(s, Start(m)) == RedactText(s, m)
    decreases |s|
  {
    if TextLen(s, m) == |s| {
      assert s + "" == s;
      StreamText(s, "", Start(m));
      RedactLastText(s, m);
    } else {
      var t, param, tail := FirstPiece(s, m);
      assert |t| <= TextLen(s, m) by { FirstPieceEnds(t, param, tail, m); }
      StreamText(t, param + tail, Start(m));
      StreamParameter(param, tail, ScanAfter(t, Start(m)));
      StreamIsRedactText(tail, Fresh);
      RedactPiece(t, param, tail, m);
      assert Mask(Piece(t, param), m) == if Sensitive(t, m) then REDACTION else param;
    }
  }

  /** The verb variables of the scanner when it stands at `st`. */
  ghost predicate VerbTracked(st: Scan, currentVerb: string, lineContinuation: bool, foundGap: bool, redacting: bool) {
    && (st.mode != Word ==> st.tail != Adjacent)
    && lineContinuation == (st.tail == Glued)
    && currentVerb == st.current
    && redacting == st.condemned
    && (st.current != "" ==> foundGap == (st.tail == Gap))
  }

  /** Its line variables. */
  ghost predicate LineTracked(st: Scan, checkComment: bool, newline: bool) {
    st.mode != InComment && newline == (st.mode == LineStart) && checkComment == (st.mode != Word)
  }

  lemma EmptyVerbIsHarmless()
    ensures !IsSensitive("")
  {
    forall k | 0 <= k < |SENSITIVE_PARAMETERS| ensures !Contains(ToUpper(""), SENSITIVE_PARAMETERS[k]) {
      assert |"LDAPPWD"| == 7 && |"PASSWORD"| == 8 && |"SSLCRYP"| == 7;
    }
  }

  /** Printing one more character of text. */
  lemma PrintOne(goal: string, printed: string, held: string, c: char, unread: string, st: Scan)
    requires goal == printed + held + Stream([c] + unread, st) && !Opens(st.mode, c)
    ensures goal == printed + (held + [c]) + Stream(unread, NextScan(st, c))
  {
    assert ([c] + unread)[1..] == unread;
    var rest := Stream(unread, NextScan(st, c));
    assert printed + held + ([c] + rest) == printed + (held + [c]) + rest;
  }

  lemma OpenOne(goal: string, printed: string, unread: string, st: Scan)
    requires goal == printed + "" + Stream("(" + unread, st) && st.mode != InComment
    ensures goal == printed + Masked(unread, Condemned(st))
  {
    assert printed + "" == printed;
    assert ("(" + unread)[1..] == unread;
  }

  lemma CloseOne(goal: string, printed: string, redacting: bool, unread: string)
    requires goal == printed + Masked(unread, redacting)
    ensures var n := ValueLen(unread, Plain);
            goal == printed + (if redacting then REDACTION else "(" + unread[..n]) + ""
                    + Stream(unread[n..], Start(Fresh))
  {
  }

  /** The variables after a verb character: a gap before it has completed the verb. */
  lemma VerbCharacter(st: Scan, c: char, currentVerb: string, lineContinuation: bool, foundGap: bool, redacting: bool)
    requires VerbTracked(st, currentVerb, lineContinuation, foundGap, redacting) && MarkOf(st.mode, c) == Verb
    ensures var judged := redacting || (foundGap && IsSensitive(currentVerb));
            VerbTracked(NextScan(st, c), (if foundGap then "" else currentVerb) + [c], false, false, judged)
    ensures NextScan(st, c).mode == Word
  {
    EmptyVerbIsHarmless();
  }

  /** At an opening parenthesis the verb is complete: the parameter is masked when a verb was sensitive. */
  lemma OpeningParenthesis(st: Scan, currentVerb: string, lineContinuation: bool, foundGap: bool, redacting: bool)
    requires VerbTracked(st, currentVerb, lineContinuation, foundGap, redacting)
    ensures (redacting || IsSensitive(currentVerb)) == Condemned(st)
  {
  }

  /** The reader and the variables of `Redact`. */
  class Redactor {
    const r: RuneReader
    var returnStr: string
    var currentVerb: string
    var originalString: string
    var lineContinuation: bool
    var foundGap: bool
    var parameterNext: bool
    var redacting: bool
    var checkComment: bool
    var newline: bool
    ghost const goal: string
    ghost var st: Scan

    constructor (input: string)
      ensures InText() && fresh(r) && goal == Redacted(input) && r.unread == TrimSpace(input)
    {
      var out := TrimSpace(input);
      r := new RuneReader(out);
      returnStr, currentVerb, originalString := "", "", "";
      lineContinuation, foundGap, parameterNext, redacting, checkComment := false, false, false, false, true;
      newline := true;
      goal, st := Redacted(input), Start(LineStart);
      new;
      StreamIsRedactText(out, LineStart);
    }

    /** What has been printed and held back, then what the unread input gives, is the whole result. */
    ghost predicate Owing(unread: string)
      reads this`returnStr, this`originalString, this`st
    {
      goal == returnStr + originalString + Stream(unread, st)
    }

    ghost predicate Tracked()
      reads this
    {
      && LineTracked(st, checkComment, newline)
      && VerbTracked(st, currentVerb, lineContinuation, foundGap, redacting)
    }

    ghost predicate InText()
      reads this, r
    {
      Owing(r.unread) && Tracked() && !parameterNext
    }

    ghost predicate AtParameter()
      reads this, r
    {
      goal == returnStr + Masked(r.unread, redacting) && parameterNext && !newline
    }

    ghost predicate Valid()
      reads this, r
    {
      if parameterNext then AtParameter() else InText()
    }

    method ResetAllParameters()
      modifies this
      ensures currentVerb == "" && originalString == ""
      ensures !lineContinuation && !foundGap && !parameterNext && !redacting && checkComment
      ensures returnStr == old(returnStr) && newline == old(newline) && st == Start(Fresh)
    {
      currentVerb := "";
      originalString := "";
      lineContinuation := false;
      foundGap := false;
      parameterNext := false;
      redacting := false;
      checkComment := true;
      st := Start(Fresh);
    }

    method ReadParameter()
      requires AtParameter()
      modifies this, r
      ensures InText() && |r.unread| <= old(|r.unread|)
    {
      CloseOne(goal, returnStr, redacting, r.unread);
      var parameterStr := GetParameterString(r);
      if !redacting {
        returnStr := returnStr + parameterStr;
      } else {
        returnStr := returnStr + REDACTION;
      }
      ResetAllParameters();
    }

    /** A character that is printed unchanged. */
    method Hold(c: char)
      requires Owing([c] + r.unread) && !Opens(st.mode, c)
      modifies this`originalString, this`st
      ensures Owing(r.unread) && st == NextScan(old(st), c)
    {
      PrintOne(goal, returnStr, originalString, c, r.unread, st);
      originalString := originalString + [c];
      st := NextScan(st, c);
    }

    /** Reads a comment whose first character has been read, up to the end of its line. */
    method ReadComment() returns (more: bool)
      requires Owing(r.unread) && st.mode == InComment && !parameterNext
      requires VerbTracked(st, currentVerb, lineContinuation, foundGap, redacting)
      modifies this, r
      ensures more ==> InText() && |r.unread| < old(|r.unread|)
      ensures !more ==> returnStr == goal
    {
      while true
        invariant Owing(r.unread) && st.mode == InComment && !parameterNext
        invariant VerbTracked(st, currentVerb, lineContinuation, foundGap, redacting)
        invariant |r.unread| <= old(|r.unread|)
        decreases |r.unread|
      {
        var ok, c := r.ReadRune();
        if !ok {
          Finish();
          return false;
        }
        Hold(c);
        if c == '\n' {
          break;
        }
      }
      checkComment := true;
      newline := true;
      return true;
    }

    method Finish()
      requires Owing("")
      modifies this`returnStr
      ensures returnStr == goal
    {
      if originalString != "" {
        returnStr := returnStr + originalString;
      }
    }

    /** A verb ends at `(` or after a gap; only then is it judged. */
    method CompleteVerb(ghost unread: string)
      requires Owing(unread)
      modifies this`returnStr, this`originalString, this`currentVerb
      modifies this`foundGap, this`lineContinuation, this`redacting
      ensures Owing(unread) && originalString == "" && currentVerb == ""
      ensures !foundGap && !lineContinuation && redacting == old(redacting || IsSensitive(currentVerb))
    {
      currentVerb := ToUpper(currentVerb);
      var sensitive := IsSensitiveCommand(currentVerb);
      if sensitive {
        redacting := true;
      }
      returnStr := returnStr + originalString;
      originalString := "";
      currentVerb := "";
      foundGap := false;
      lineContinuation := false;
    }

    method ReadContinuation(c: char)
      requires Owing([c] + r.unread) && Tracked() && !parameterNext
      requires c == '+' || c == '-'
      modifies this
      ensures InText()
    {
      newline := false;
      lineContinuation := true;
      foundGap := false;
      Hold(c);
    }

    method ReadBlank(c: char)
      requires Owing([c] + r.unread) && Tracked() && !parameterNext && !newline
      requires c == '\n' || c == '\t' || c == '\r' || c == ' '
      modifies this
      ensures InText()
    {
      if c == '\n' {
        checkComment := true;
        newline := true;
      }
      if !lineContinuation {
        foundGap := true;
      }
      Hold(c);
    }

    /** Reads on from the character `c`; false when the input ran out within a comment. */
    method ReadText(c: char) returns (more: bool)
      requires Owing([c] + r.unread) && Tracked() && !parameterNext
      modifies this, r
      ensures more ==> Valid() && |r.unread| <= old(|r.unread|)
      ensures !more ==> returnStr == goal
    {
      /* Push forward to a character that is not line prefix. */
      if newline && !StartsOutput(c) {
        Hold(c);
        return true;
      }
      if c == '+' || c == '-' {
        ReadContinuation(c);
        return true;
      } else if c == '\n' || c == '\t' || c == '\r' || c == ' ' {
        ReadBlank(c);
        return true;
      } else if c == '*' && checkComment {
        Hold(c);
        more := ReadComment();
        return more;
      }
      ReadVerb(c);
      return true;
    }

    /** A verb character, or the parenthesis after a verb. */
    method ReadVerb(c: char)
      requires Owing([c] + r.unread) && Tracked() && !parameterNext
      requires c == '(' || MarkOf(st.mode, c) == Verb
      modifies this
      ensures Valid()
      ensures r.unread == old(r.unread)
    {
      newline := false;
      checkComment := false;
      if c == '(' {
        parameterNext := true;
        OpenParameter();
      } else {
        ReadVerbCharacter(c);
      }
    }

    method OpenParameter()
      requires Owing("(" + r.unread) && st.mode != InComment && parameterNext && !newline
      requires VerbTracked(st, currentVerb, lineContinuation, foundGap, redacting)
      modifies this
      ensures AtParameter()
    {
      OpeningParenthesis(st, currentVerb, lineContinuation, foundGap, redacting);
      lineContinuation := false;
      CompleteVerb("(" + r.unread);
      OpenOne(goal, returnStr, r.unread, st);
      originalString := originalString + "(";
      currentVerb := currentVerb + "(";
    }

    method ReadVerbCharacter(c: char)
      requires Owing([c] + r.unread) && MarkOf(st.mode, c) == Verb && !Opens(st.mode, c)
      requires !parameterNext && !newline && !checkComment
      requires VerbTracked(st, currentVerb, lineContinuation, foundGap, redacting)
      modifies this
      ensures InText()
    {
      VerbCharacter(st, c, currentVerb, lineContinuation, foundGap, redacting);
      lineContinuation := false;
      if foundGap {
        CompleteVerb([c] + r.unread);
      }
      Hold(c);
      currentVerb := currentVerb + [c];
    }
  }

  method Redact(input: string) returns (returnStr: string)
    ensures returnStr == Redacted(input)
  {
    var s := new Redactor(input);
    while true
      invariant s.goal == Redacted(input)
      invariant s.Valid()
      decreases |s.r.unread|
    {
      if s.parameterNext {
        s.ReadParameter();
      }
      var ok, c := s.r.ReadRune();
      if !ok {
        s.Finish();
        break;
      }
      var more := s.ReadText(c);
      if !more {
        break;
      }
    }
    returnStr := s.returnStr;
  }
}
