/**
 The functions of Go's `strings` and `unicode` packages that the modelled code calls.
 A string is a sequence of Unicode code points: the model's inputs are well-formed UTF-8.
 */
module GoStrings {

  /** `unicode.IsSpace`: the code points with the White_Space property. */
  predicate IsSpace(c: char) {
    || '\t' <= c <= '\r' || c == ' ' || c == '\U{0085}' || c == '\U{00A0}' || c == '\U{1680}'
    || '\U{2000}' <= c <= '\U{200A}' || c == '\U{2028}' || c == '\U{2029}' || c == '\U{202F}'
    || c == '\U{205F}' || c == '\U{3000}'
  }

  function TrimLeft(s: string): (r: string)
    ensures r == [] || !IsSpace(r[0])
    ensures |r| <= |s| && r == s[|s| - |r|..]
  {
    if s != [] && IsSpace(s[0]) then TrimLeft(s[1..]) else s
  }

  function TrimRight(s: string): (r: string)
    ensures r == [] || !IsSpace(r[|r| - 1])
    ensures r <= s
  {
    if s != [] && IsSpace(s[|s| - 1]) then TrimRight(s[..|s| - 1]) else s
  }

  /** `strings.TrimSpace`. */
  function TrimSpace(s: string): string {
    TrimRight(TrimLeft(s))
  }

  /** `strings.Contains`. */
  predicate Contains(s: string, sub: string) {
    exists i :: 0 <= i <= |s| - |sub| && OccursAt(s, sub, i)
  }

  predicate OccursAt(s: string, sub: string, i: nat)
    requires i <= |s| - |sub|
  {
    s[i..i + |sub|] == sub
  }

  /** `unicode.ToUpper` as far as an ASCII keyword can tell: the long s and the dotless i are the
      only code points outside ASCII whose upper-case form is an ASCII letter. */
  function UpperChar(c: char): char {
    if 'a' <= c <= 'z' then c - 'a' + 'A'
    else if c == '\U{017F}' then 'S'
    else if c == '\U{0131}' then 'I'
    else c
  }

  /** `strings.ToUpper`. */
  function ToUpper(s: string): (r: string)
    ensures |r| == |s|
    ensures forall i :: 0 <= i < |s| ==> r[i] == UpperChar(s[i])
  {
    seq(|s|, i requires 0 <= i < |s| => UpperChar(s[i]))
  }

  lemma {:induction false} TrimLeftAppend(p: string, i: nat, q: string)
    requires i < |p| && !IsSpace(p[i])
    ensures TrimLeft(p + q) == TrimLeft(p) + q && TrimLeft(p) != []
  {
    if IsSpace(p[0]) {
      assert (p + q)[1..] == p[1..] + q;
      TrimLeftAppend(p[1..], i - 1, q);
    } else {
      assert TrimLeft(p) == p && (p + q)[0] == p[0];
    }
  }

  lemma {:induction false} TrimRightAppend(p: string, q: string)
    requires p != [] && !IsSpace(p[|p| - 1])
    ensures TrimRight(p + q) == p + TrimRight(q)
  {
    if q == [] {
      assert p + q == p;
    } else if IsSpace(q[|q| - 1]) {
      assert (p + q)[..|p + q| - 1] == p + q[..|q| - 1];
      TrimRightAppend(p, q[..|q| - 1]);
    }
  }

  /** A string whose two ends are not white space is left alone. */
  lemma TrimmedIsFixed(s: string)
    requires s == [] || (!IsSpace(s[0]) && !IsSpace(s[|s| - 1]))
    ensures TrimSpace(s) == s
  {
  }

  lemma TrimSpaceEnds(s: string)
    ensures var t := TrimSpace(s); t == [] || (!IsSpace(t[0]) && !IsSpace(t[|t| - 1]))
  {
    var t := TrimSpace(s);
    assert t <= TrimLeft(s);
  }
}
