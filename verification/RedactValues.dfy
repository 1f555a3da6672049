/**
 Where a parameter value ends, said of positions and lines: at the first closing parenthesis outside
 strings. A string ends at the first quote like the one it began with that is not on a comment line.
 */
module RedactValues {
  import opened Basics
  import opened RedactSpec
  import opened RedactPieces

  // ---- Strings ----

  predicate IsPrefixChar(c: char) {
    '0' <= c <= '9' || c == ':' || c == ' ' || c == '\t' || c == '\n' || c == '\r' || c == '\U{000C}'
  }

  function LineFrom(s: string, i: nat): (a: nat)
    requires i <= |s|
    ensures a <= i
  {
    if i == 0 || s[i - 1] == '\n' then i else LineFrom(s, i - 1)
  }

  /** The first character from `a` that is no line prefix is the star at `f`. */
  predicate StarAt(s: string, a: nat, f: nat)
    requires a <= f < |s|
  {
    s[f] == '*' && forall g :: a <= g < f ==> IsPrefixChar(s[g])
  }

  /** The position is in the comment of a line after the first. */
  predicate OnCommentLine(s: string, i: nat)
    requires i <= |s|
  {
    var a := LineFrom(s, i);
    a > 0 && exists f :: a <= f < i && StarAt(s, a, f)
  }

  predicate QuoteAt(s: string, q: char, i: nat) {
    i < |s| && s[i] == q && !OnCommentLine(s, i)
  }

  /** The string whose text after the opening quote is `s` ends at `k`. */
  predicate StringEnds(s: string, q: char, k: nat) {
    QuoteAt(s, q, k) && forall j: nat :: j < k ==> !QuoteAt(s, q, j)
  }

  // ---- Values ----

  predicate IsQuote(c: char) {
    c == '\'' || c == '"'
  }

  predicate IsPlainChar(c: char) {
    c != ')' && !IsQuote(c)
  }

  predicate AllPlain(v: string) {
    forall i :: 0 <= i < |v| ==> IsPlainChar(v[i])
  }

  /** The first string of `v` has its quotes at `p` and `p + 1 + k`. */
  predicate StringAt(v: string, p: nat, k: nat) {
    p < |v| && AllPlain(v[..p]) && IsQuote(v[p]) && StringEnds(v[p + 1..], v[p], k)
  }

  /** Plain characters and whole strings. */
  ghost predicate IsValue(v: string)
    decreases |v|
  {
    AllPlain(v) || exists p: nat, k: nat :: StringAt(v, p, k) && IsValue(v[p + k + 2..])
  }

  /** `n` characters of `s` are a value and the parenthesis after it. */
  ghost predicate ValueEnds(s: string, n: nat) {
    0 < n <= |s| && s[n - 1] == ')' && IsValue(s[..n - 1])
  }

  /** No parenthesis of `s` ends a value. */
  ghost predicate NeverEnds(s: string) {
    forall n: nat :: !ValueEnds(s, n)
  }

  // ---- The scanner inside a string, by position ----

  lemma PrefixCharIff(c: char)
    ensures IsPrefixChar(c) <==> !StartsOutput(c)
  {
  }

  predicate AllPrefix(s: string, a: nat, i: nat)
    requires i <= |s|
  {
    forall g :: a <= g < i ==> IsPrefixChar(s[g])
  }

  /** The scanner's mode before position `i` of a string that has not ended. */
  function ModeAt(s: string, q: char, i: nat): ValueMode
    requires i <= |s|
  {
    var a := LineFrom(s, i);
    if a == 0 then Quoted(q)
    else if AllPrefix(s, a, i) then Prefix(q)
    else if OnCommentLine(s, i) then Remark(q)
    else Quoted(q)
  }

  lemma CommentGrows(s: string, i: nat)
    requires i < |s| && s[i] != '\n'
    ensures var a := LineFrom(s, i);
            && LineFrom(s, i + 1) == a
            && (AllPrefix(s, a, i + 1) <==> AllPrefix(s, a, i) && IsPrefixChar(s[i]))
            && (OnCommentLine(s, i + 1) <==> OnCommentLine(s, i) || (a > 0 && AllPrefix(s, a, i) && s[i] == '*'))
  {
    var a := LineFrom(s, i);
    if a > 0 && AllPrefix(s, a, i) && s[i] == '*' {
      assert StarAt(s, a, i);
    }
    if OnCommentLine(s, i) {
      var f :| a <= f < i && StarAt(s, a, f);
      assert a <= f < i + 1 && StarAt(s, a, f);
    }
  }

  lemma CommentIsNotPrefix(s: string, i: nat)
    requires i <= |s| && OnCommentLine(s, i)
    ensures !AllPrefix(s, LineFrom(s, i), i)
  {
    var a := LineFrom(s, i);
    var f :| a <= f < i && StarAt(s, a, f);
    assert !IsPrefixChar(s[f]);
  }

  lemma ModeStep(s: string, q: char, i: nat)
    requires i < |s| && IsQuote(q) && !QuoteAt(s, q, i)
    ensures ModeAt(s, q, i + 1) == NextValueMode(ModeAt(s, q, i), s[i])
  {
    PrefixCharIff(s[i]);
    if OnCommentLine(s, i) {
      CommentIsNotPrefix(s, i);
    }
    if s[i] == '\n' {
      assert LineFrom(s, i + 1) == i + 1;
    } else {
      CommentGrows(s, i);
      if OnCommentLine(s, i + 1) {
        CommentIsNotPrefix(s, i + 1);
      }
    }
  }

  lemma {:induction false} StringReads(s: string, q: char, i: nat)
    requires i <= |s| && IsQuote(q) && forall j: nat :: j < i ==> !QuoteAt(s, q, j)
    ensures ValueLen(s, Quoted(q)) == i + ValueLen(s[i..], ModeAt(s, q, i))
    ensures Closes(s, Quoted(q)) == Closes(s[i..], ModeAt(s, q, i))
  {
    if i == 0 {
      assert s[0..] == s;
    } else {
      StringReads(s, q, i - 1);
      ModeStep(s, q, i - 1);
      assert s[i - 1..][1..] == s[i..] && s[i - 1..][0] == s[i - 1];
    }
  }

  /** A string that ends is read up to its closing quote. */
  lemma StringIsRead(s: string, q: char, k: nat)
    requires IsQuote(q) && StringEnds(s, q, k)
    ensures ValueLen(s, Quoted(q)) == k + 1 + ValueLen(s[k + 1..], Plain)
    ensures Closes(s, Quoted(q)) == Closes(s[k + 1..], Plain)
  {
    StringReads(s, q, k);
    PrefixCharIff(q);
    assert s[k..][1..] == s[k + 1..] && s[k..][0] == q;
    assert NextValueMode(ModeAt(s, q, k), q) == Plain;
  }

  lemma UnendedString(s: string, q: char)
    requires IsQuote(q) && forall j: nat :: !QuoteAt(s, q, j)
    ensures ValueLen(s, Quoted(q)) == |s| && !Closes(s, Quoted(q))
  {
    StringReads(s, q, |s|);
    assert s[|s|..] == "";
  }

  lemma {:induction false} FindEnd(s: string, q: char, i: nat) returns (ends: bool, k: nat)
    requires i <= |s| && forall j: nat :: j < i ==> !QuoteAt(s, q, j)
    ensures if ends then StringEnds(s, q, k) else forall j: nat :: !QuoteAt(s, q, j)
    decreases |s| - i
  {
    if i == |s| {
      ends, k := false, 0;
    } else if QuoteAt(s, q, i) {
      ends, k := true, i;
    } else {
      ends, k := FindEnd(s, q, i + 1);
    }
  }

  // ---- What comes after does not matter ----

  lemma {:induction false} LineFromLocal(s: string, t: string, i: nat)
    requires i <= |s|
    ensures LineFrom(s + t, i) == LineFrom(s, i)
  {
    if i == 0 || s[i - 1] == '\n' {
    } else {
      LineFromLocal(s, t, i - 1);
    }
  }

  lemma QuoteLocal(s: string, t: string, q: char, i: nat)
    requires i < |s|
    ensures QuoteAt(s + t, q, i) == QuoteAt(s, q, i)
  {
    LineFromLocal(s, t, i);
    var a, u := LineFrom(s, i), s + t;
    assert forall g :: 0 <= g <= i ==> u[g] == s[g];
    forall f | a <= f < i ensures StarAt(u, a, f) == StarAt(s, a, f) {
    }
  }

  lemma StringEndsLocal(s: string, t: string, q: char, k: nat)
    requires k < |s|
    ensures StringEnds(s + t, q, k) == StringEnds(s, q, k)
  {
    forall j: nat | j <= k ensures QuoteAt(s + t, q, j) == QuoteAt(s, q, j) {
      QuoteLocal(s, t, q, j);
    }
  }

  // ---- The scanner finds the end of a value ----

  lemma {:induction false} PlainIsRead(s: string, p: nat)
    requires p <= |s| && AllPlain(s[..p])
    ensures ValueLen(s, Plain) == p + ValueLen(s[p..], Plain) && Closes(s, Plain) == Closes(s[p..], Plain)
  {
    if p == 0 {
      assert s[0..] == s;
    } else {
      assert s[..p - 1] == s[..p][..p - 1];
      PlainIsRead(s, p - 1);
      assert s[p - 1..][1..] == s[p..] && s[p - 1..][0] == s[..p][p - 1];
    }
  }

  /** A string between plain characters is read whole. */
  lemma StringAtIsRead(s: string, p: nat, k: nat)
    requires StringAt(s, p, k)
    ensures p + k + 2 <= |s|
    ensures ValueLen(s, Plain) == p + k + 2 + ValueLen(s[p + k + 2..], Plain)
    ensures Closes(s, Plain) == Closes(s[p + k + 2..], Plain)
  {
    PlainIsRead(s, p);
    assert s[p..][0] == s[p] && s[p..][1..] == s[p + 1..];
    StringIsRead(s[p + 1..], s[p], k);
    assert s[p + 1..][k + 1..] == s[p + k + 2..];
  }

  lemma StringAtLocal(v: string, t: string, p: nat, k: nat)
    requires p + k + 2 <= |v|
    ensures StringAt(v + t, p, k) == StringAt(v, p, k)
  {
    assert (v + t)[..p] == v[..p] && (v + t)[p + 1..] == v[p + 1..] + t;
    StringEndsLocal(v[p + 1..], t, v[p], k);
  }

  /** A value and the parenthesis after it are read as one parameter, whatever follows. */
  lemma {:induction false} ValueIsRead(v: string, rest: string)
    requires IsValue(v)
    ensures ValueLen(v + (")" + rest), Plain) == |v| + 1 && Closes(v + (")" + rest), Plain)
    decreases |v|
  {
    var s := v + (")" + rest);
    if AllPlain(v) {
      assert s[..|v|] == v && s[|v|..] == ")" + rest;
      PlainIsRead(s, |v|);
    } else {
      var p: nat, k: nat :| StringAt(v, p, k) && IsValue(v[p + k + 2..]);
      StringAtLocal(v, ")" + rest, p, k);
      StringAtIsRead(s, p, k);
      assert s[p + k + 2..] == v[p + k + 2..] + (")" + rest);
      ValueIsRead(v[p + k + 2..], rest);
    }
  }

  lemma {:induction false} FirstSpecial(s: string) returns (p: nat)
    ensures p <= |s| && AllPlain(s[..p]) && (p < |s| ==> !IsPlainChar(s[p]))
  {
    if s == "" || !IsPlainChar(s[0]) {
      p := 0;
    } else {
      p := FirstSpecial(s[1..]);
      p := p + 1;
      assert forall i :: 0 < i < p ==> s[..p][i] == s[1..][..p - 1][i - 1];
    }
  }

  /** What the scanner takes for a closed parameter is a value and a parenthesis. */
  lemma {:induction false} ReadIsValue(s: string)
    requires Closes(s, Plain)
    ensures ValueEnds(s, ValueLen(s, Plain))
    decreases |s|
  {
    var p := FirstSpecial(s);
    PlainIsRead(s, p);
    if s[p] != ')' {
      var ends, k := FindEnd(s[p + 1..], s[p], 0);
      assert s[p..][0] == s[p] && s[p..][1..] == s[p + 1..];
      if !ends {
        UnendedString(s[p + 1..], s[p]);
      }
      StringAtIsRead(s, p, k);
      var m, n := p + k + 2, ValueLen(s, Plain);
      ReadIsValue(s[m..]);
      StringGoesOn(s, p, k, n);
    }
  }

  lemma StringGoesOn(s: string, p: nat, k: nat, n: nat)
    requires StringAt(s, p, k) && p + k + 2 < n <= |s| && ValueEnds(s[p + k + 2..], n - (p + k + 2))
    ensures ValueEnds(s, n)
  {
    var m, v := p + k + 2, s[..n - 1];
    assert s == v + s[n - 1..];
    StringAtLocal(v, s[n - 1..], p, k);
    assert v[m..] == s[m..][..n - 1 - m];
    assert StringAt(v, p, k) && IsValue(v[p + k + 2..]);
  }

  /** The scanner closes a parameter after `n` characters exactly when they are a value and a parenthesis. */
  lemma ValueEndsIff(s: string, n: nat)
    ensures Closes(s, Plain) && ValueLen(s, Plain) == n <==> ValueEnds(s, n)
  {
    if Closes(s, Plain) {
      ReadIsValue(s);
    }
    if ValueEnds(s, n) {
      assert s == s[..n - 1] + (")" + s[n..]);
      ValueIsRead(s[..n - 1], s[n..]);
    }
  }

  lemma NeverEndsIff(s: string)
    ensures !Closes(s, Plain) <==> NeverEnds(s)
  {
    if Closes(s, Plain) {
      ValueEndsIff(s, ValueLen(s, Plain));
    } else {
      forall n: nat ensures !ValueEnds(s, n) {
        ValueEndsIff(s, n);
      }
    }
  }

  /** What is read after an opening parenthesis: a value and its parenthesis, or everything. */
  ghost predicate IsParameterOf(s: string, parameter: string) {
    || (exists n: nat :: ValueEnds(s, n) && parameter == "(" + s[..n])
    || (NeverEnds(s) && parameter == "(" + s)
  }

  lemma ParameterOf(s: string)
    ensures IsParameterOf(s, "(" + s[..ValueLen(s, Plain)])
  {
    NeverEndsIff(s);
    if Closes(s, Plain) {
      ValueEndsIff(s, ValueLen(s, Plain));
    } else {
      ValueLocal(s, "", Plain);
      assert s[..|s|] == s;
    }
  }
}
