/**
 What redacting an MQSC command means: the text outside parameters is read by a four-mode
 automaton, a parameter value by another, and a parameter is masked when one of the verbs in
 the text before it holds a sensitive keyword.
 */
module RedactSpec {
  import opened GoStrings

  const REDACTION := "(*********)"
  const SENSITIVE_PARAMETERS := ["LDAPPWD", "PASSWORD", "SSLCRYP"]

  /** The regular expression `[^:0-9\s]`; `\s` is tab, newline, form feed, carriage return, space. */
  predicate StartsOutput(c: char) {
    !(c == ':' || '0' <= c <= '9' || c == '\t' || c == '\n' || c == '\U{000C}' || c == '\r' || c == ' ')
  }

  // ---- Text outside parameters ----

  /** LineStart: only line prefix read so far on this line. Fresh: a `*` would still start a
      comment. Word: it would not. */
  datatype Mode = LineStart | Fresh | Word | InComment

  datatype Mark = Verb | Continuation | Blank | Comment

  /** A parenthesis outside a comment opens a parameter. */
  predicate Opens(m: Mode, c: char) {
    m != InComment && c == '('
  }

  function MarkOf(m: Mode, c: char): Mark {
    if m == InComment then Comment
    else if m == LineStart && !StartsOutput(c) then Blank
    else if c == '+' || c == '-' then Continuation
    else if c == '\n' || c == '\t' || c == '\r' || c == ' ' then Blank
    else if c == '*' && m != Word then Comment
    else Verb
  }

  function NextMode(m: Mode, c: char): Mode {
    if m == InComment then (if c == '\n' then LineStart else InComment)
    else if m == LineStart && !StartsOutput(c) then LineStart
    else match MarkOf(m, c)
      case Continuation => (if m == LineStart then Fresh else m)
      case Blank => (if c == '\n' then LineStart else m)
      case Comment => InComment
      case Verb => Word
  }

  /** How many characters come before the first parameter. */
  function TextLen(s: string, m: Mode): (k: nat)
    ensures k <= |s|
    ensures k < |s| ==> s[k] == '('
  {
    if s == [] || Opens(m, s[0]) then 0 else 1 + TextLen(s[1..], NextMode(m, s[0]))
  }

  // ---- Verbs ----

  /** What has been read since the last verb character. */
  datatype Tail = Adjacent | Gap | Glued

  /** What a text has shown so far: whether a verb that is complete is sensitive, and the verb being read. */
  datatype Scan = Scan(mode: Mode, tail: Tail, condemned: bool, current: string)

  function Start(m: Mode): Scan {
    Scan(m, Gap, false, "")
  }

  /** A gap ends a verb; a continuation character glues what it separates. */
  function NextScan(st: Scan, c: char): Scan {
    var mode := NextMode(st.mode, c);
    match MarkOf(st.mode, c)
    case Verb =>
      if st.tail == Gap then Scan(mode, Adjacent, Condemned(st), [c])
      else Scan(mode, Adjacent, st.condemned, st.current + [c])
    case Continuation => st.(mode := mode, tail := Glued)
    case Blank => st.(mode := mode, tail := if st.tail == Glued then Glued else Gap)
    case Comment => st.(mode := mode)
  }

  predicate Condemned(st: Scan) {
    st.condemned || IsSensitive(st.current)
  }

  function ScanAfter(t: string, st: Scan): Scan {
    if t == [] then st else ScanAfter(t[1..], NextScan(st, t[0]))
  }

  predicate IsSensitiveUpper(command: string) {
    exists k :: 0 <= k < |SENSITIVE_PARAMETERS| && Contains(command, SENSITIVE_PARAMETERS[k])
  }

  predicate IsSensitive(verb: string) {
    IsSensitiveUpper(ToUpper(verb))
  }

  /** One of the verbs of the text `t`, begun in mode `m`, is sensitive. */
  predicate Sensitive(t: string, m: Mode) {
    Condemned(ScanAfter(t, Start(m)))
  }

  // ---- Parameter values ----

  /** Plain: outside quotes. The others are inside a string closed by `quote`: Quoted in its
      body, Prefix at the start of a continued line, Remark inside a comment line. */
  datatype ValueMode = Plain | Quoted(quote: char) | Prefix(quote: char) | Remark(quote: char)

  function NextValueMode(v: ValueMode, c: char): ValueMode {
    match v
    case Plain => if c == '\'' || c == '"' then Quoted(c) else Plain
    case Remark(q) => if c == '\n' then Prefix(q) else v
    case Quoted(q) => if c == q then Plain else if c == '\n' then Prefix(q) else v
    case Prefix(q) =>
      if !StartsOutput(c) then v
      else if c == '*' then Remark(q)
      else if c == q then Plain
      else Quoted(q)
  }

  /** How much of `s`, read after an opening parenthesis, belongs to the parameter: up to its
      closing parenthesis, or everything when there is none. */
  function ValueLen(s: string, v: ValueMode): (n: nat)
    ensures n <= |s|
    ensures s != [] ==> n > 0
  {
    if s == [] then 0
    else if v.Plain? && s[0] == ')' then 1
    else 1 + ValueLen(s[1..], NextValueMode(v, s[0]))
  }

  /** Whether the parameter has a closing parenthesis. */
  predicate Closes(s: string, v: ValueMode) {
    s != [] && ((v.Plain? && s[0] == ')') || Closes(s[1..], NextValueMode(v, s[0])))
  }

  // ---- Redaction ----

  /** A stretch of text and the parameter after it, parentheses included; the last piece has none. */
  datatype Piece = Piece(text: string, param: string)

  /** Where the parameter opened at `k` ends. */
  function ParamEnd(s: string, k: nat): (n: nat)
    requires k < |s|
    ensures k < n <= |s|
  {
    k + 1 + ValueLen(s[k + 1..], Plain)
  }

  function Split(s: string, m: Mode): (ps: seq<Piece>)
    ensures ps != []
    decreases |s|
  {
    var k := TextLen(s, m);
    if k == |s| then [Piece(s, "")]
    else [Piece(s[..k], s[k..ParamEnd(s, k)])] + Split(s[ParamEnd(s, k)..], Fresh)
  }

  function Mask(p: Piece, m: Mode): string {
    if p.param != "" && Sensitive(p.text, m) then REDACTION else p.param
  }

  function Render(ps: seq<Piece>, m: Mode): string {
    if ps == [] then "" else ps[0].text + Mask(ps[0], m) + Render(ps[1..], Fresh)
  }

  function RedactText(s: string, m: Mode): string {
    Render(Split(s, m), m)
  }

  function Redacted(out: string): string {
    RedactText(TrimSpace(out), LineStart)
  }
}
