/**
 The rotating logger. The directory is a map from instance number to contents; a missing file counts
 as empty. Strings are the bytes that are written.
 */
module LogRotation {
  import opened Basics
  import GoStrings

  type Bytes = seq<byte>

  const LF: byte := 10
  const CR: byte := 13

  // ---- White space in UTF-8 ----

  predicate IsAsciiSpace(b: byte) {
    9 <= b <= 13 || b == 32
  }

  predicate IsSpace2(a: byte, b: byte) {
    a == 0xC2 && (b == 0x85 || b == 0xA0)
  }

  predicate IsSpace3(a: byte, b: byte, c: byte) {
    || (a == 0xE1 && b == 0x9A && c == 0x80)
    || (a == 0xE2 && b == 0x80 && (0x80 <= c <= 0x8A || c == 0xA8 || c == 0xA9 || c == 0xAF))
    || (a == 0xE2 && b == 0x81 && c == 0x9F)
    || (a == 0xE3 && b == 0x80 && c == 0x80)
  }

  /** How many bytes the white space code point at the front of `s` takes; none if there is none. */
  function LeadingSpace(s: Bytes): (k: nat)
    ensures k <= |s|
  {
    if |s| >= 1 && IsAsciiSpace(s[0]) then 1
    else if |s| >= 2 && IsSpace2(s[0], s[1]) then 2
    else if |s| >= 3 && IsSpace3(s[0], s[1], s[2]) then 3
    else 0
  }

  function TrailingSpace(s: Bytes): (k: nat)
    ensures k <= |s|
  {
    var n := |s|;
    if n >= 1 && IsAsciiSpace(s[n - 1]) then 1
    else if n >= 2 && IsSpace2(s[n - 2], s[n - 1]) then 2
    else if n >= 3 && IsSpace3(s[n - 3], s[n - 2], s[n - 1]) then 3
    else 0
  }

  function TrimLeft(s: Bytes): (r: Bytes)
    ensures LeadingSpace(r) == 0
    decreases |s|
  {
    if LeadingSpace(s) == 0 then s else TrimLeft(s[LeadingSpace(s)..])
  }

  function TrimRight(s: Bytes): (r: Bytes)
    ensures TrailingSpace(r) == 0 && r <= s
    decreases |s|
  {
    if TrailingSpace(s) == 0 then s else TrimRight(s[..|s| - TrailingSpace(s)])
  }

  /** `strings.TrimSpace`. */
  function TrimSpace(s: Bytes): Bytes {
    TrimRight(TrimLeft(s))
  }

  /** The encoding of a code point in UTF-8. */
  function Utf8(c: char): (r: Bytes)
    ensures 1 <= |r| <= 4
  {
    var n := c as int;
    if n < 0x80 then [n]
    else if n < 0x800 then [0xC0 + n / 64, 0x80 + n % 64]
    else if n < 0x1_0000 then [0xE0 + n / 4096, 0x80 + n / 64 % 64, 0x80 + n % 64]
    else [0xF0 + n / 262144 % 8, 0x80 + n / 4096 % 64, 0x80 + n / 64 % 64, 0x80 + n % 64]
  }

  /** A code point in front or at the end is trimmed, whole, exactly when it is white space. */
  lemma TrimsWhiteSpace(c: char, s: Bytes)
    ensures LeadingSpace(Utf8(c) + s) == if GoStrings.IsSpace(c) then |Utf8(c)| else 0
    ensures TrailingSpace(s + Utf8(c)) == if GoStrings.IsSpace(c) then |Utf8(c)| else 0
  {
    TrimsInFront(c, s);
    TrimsAtEnd(c, s);
  }

  lemma TrimsInFront(c: char, s: Bytes)
    ensures LeadingSpace(Utf8(c) + s) == if GoStrings.IsSpace(c) then |Utf8(c)| else 0
  {
    assert forall i :: 0 <= i < |Utf8(c)| ==> (Utf8(c) + s)[i] == Utf8(c)[i];
  }

  lemma TrimsAtEnd(c: char, s: Bytes)
    ensures TrailingSpace(s + Utf8(c)) == if GoStrings.IsSpace(c) then |Utf8(c)| else 0
  {
    assert forall i :: 0 <= i < |Utf8(c)| ==> (s + Utf8(c))[|s| + i] == Utf8(c)[i];
  }

  predicate Trimmed(s: Bytes) {
    LeadingSpace(s) == 0 && TrailingSpace(s) == 0
  }

  lemma TrimSpaceTrims(s: Bytes)
    ensures Trimmed(TrimSpace(s))
  {
  }

  lemma TrimLine(t: Bytes)
    requires Trimmed(t)
    ensures TrimSpace(t + [LF]) == t && TrimSpace(t) == t
  {
    var s := t + [LF];
    assert s[..|s| - 1] == t && TrailingSpace(s) == 1;
    if t == [] {
      assert LeadingSpace(s) == 1 && s[1..] == t;
      assert TrimLeft(s) == t;
    } else {
      assert LeadingSpace(s) == 0;
      assert TrimLeft(s) == s && TrimRight(s) == TrimRight(t);
    }
  }

  /** `strings.ReplaceAll(s, "\n", " ")`. */
  function Flattened(s: Bytes): (r: Bytes)
    ensures |r| == |s| && ((forall i :: 0 <= i < |s| ==> s[i] != LF) ==> r == s)
  {
    seq(|s|, i requires 0 <= i < |s| => if s[i] == LF then 32 else s[i])
  }

  // ---- The last line ----

  predicate IsEol(b: byte) {
    b == LF || b == CR
  }

  predicate OneLine(s: Bytes) {
    forall i :: 0 <= i < |s| ==> !IsEol(s[i])
  }

  /** A line feed or a carriage return. */
  predicate IsLineEnd(b: byte) {
    b == 10 || b == 13
  }

  /** `s[a..b]` is the last nonempty run of `s` without a line end, or empty when there is none. */
  predicate LastLineAt(s: Bytes, a: nat, b: nat) {
    && a <= b <= |s|
    && (forall i :: a <= i < b ==> !IsLineEnd(s[i]))
    && (forall i :: b <= i < |s| ==> IsLineEnd(s[i]))
    && (a > 0 ==> a < b && IsLineEnd(s[a - 1]))
  }

  /** The last line, found by scanning backwards. */
  function LastLine(s: Bytes): Bytes {
    if s != [] && IsEol(s[|s| - 1]) then LastLine(s[..|s| - 1]) else TrailingRun(s)
  }

  function TrailingRun(s: Bytes): Bytes {
    if s == [] || IsEol(s[|s| - 1]) then [] else TrailingRun(s[..|s| - 1]) + [s[|s| - 1]]
  }

  lemma {:induction false} TrailingRunIs(s: Bytes, a: nat)
    requires a <= |s| && (forall i :: a <= i < |s| ==> !IsEol(s[i])) && (a > 0 ==> IsEol(s[a - 1]))
    ensures TrailingRun(s) == s[a..]
    decreases |s|
  {
    if a < |s| {
      TrailingRunIs(s[..|s| - 1], a);
      assert s[a..] == s[..|s| - 1][a..] + [s[|s| - 1]];
    }
  }

  /** The backward scan finds the last line. */
  lemma {:induction false} LastLineIs(s: Bytes, a: nat, b: nat)
    requires LastLineAt(s, a, b)
    ensures LastLine(s) == s[a..b]
    decreases |s|
  {
    if b < |s| {
      LastLineIs(s[..|s| - 1], a, b);
      assert s[..|s| - 1][a..b] == s[a..b];
    } else {
      TrailingRunIs(s, a);
      assert s[a..b] == s[a..];
    }
  }

  /** The scan passes over a line end. */
  lemma ScanEol(s: Bytes, pos: nat)
    requires 0 < pos <= |s| && IsEol(s[pos - 1])
    ensures LastLine(s[..pos]) == LastLine(s[..pos - 1]) && TrailingRun(s[..pos]) == []
  {
    assert s[..pos][..pos - 1] == s[..pos - 1];
  }

  /** The scan keeps any other byte. */
  lemma ScanByte(s: Bytes, pos: nat)
    requires 0 < pos <= |s| && !IsEol(s[pos - 1])
    ensures LastLine(s[..pos]) == TrailingRun(s[..pos]) == TrailingRun(s[..pos - 1]) + [s[pos - 1]]
  {
    assert s[..pos][..pos - 1] == s[..pos - 1];
  }

  lemma {:induction false} LastLineExists(s: Bytes) returns (a: nat, b: nat)
    ensures LastLineAt(s, a, b)
  {
    if s == [] {
      a, b := 0, 0;
    } else {
      var u := s[..|s| - 1];
      a, b := LastLineExists(u);
      if !IsEol(s[|s| - 1]) {
        if b < |u| {
          a := |u|;
        }
        b := |s|;
      }
    }
  }

  function Reversed(s: Bytes): Bytes {
    if s == [] then [] else [s[|s| - 1]] + Reversed(s[..|s| - 1])
  }

  lemma ReversedSnoc(s: Bytes, c: byte)
    ensures Reversed(s + [c]) == [c] + Reversed(s)
  {
    assert (s + [c])[..|s|] == s;
  }

  // ---- The specification of one append ----

  type Dir = map<int, Bytes>

  function File(dir: Dir, i: int): Bytes {
    if i in dir then dir[i] else []
  }

  function Up(k: int): int {
    k + 1
  }

  /** Each file moves up by one, the last one is dropped, and the first one is empty. */
  function Rotated(dir: Dir, count: int): Dir {
    if count < 1 then (dir - {count})[1 := []]
    else
      var others := map i | i in dir && !(1 <= i <= count) :: dir[i];
      var ups := set k | k in dir.Keys && 1 <= k < count :: Up(k);
      var moved := map i | i in ups :: dir[i - 1];
      (others + moved)[1 := []]
  }

  lemma RotatedFile(dir: Dir, count: int, i: int)
    requires count >= 1
    ensures i in Rotated(dir, count)
            <==> i == 1 || (if 2 <= i <= count then i - 1 in dir else i in dir && !(1 <= i <= count))
    ensures File(Rotated(dir, count), i)
            == if i == 1 then [] else if 2 <= i <= count then File(dir, i - 1) else File(dir, i)
  {
    if 2 <= i <= count && i - 1 in dir {
      assert Up(i - 1) in (set k | k in dir.Keys && 1 <= k < count :: Up(k));
    }
  }

  /** With no room for any file, the rotation empties file 1 and removes the file whose number is the count. */
  lemma RotatedWithoutRoom(dir: Dir, count: int, i: int)
    requires count < 1
    ensures File(Rotated(dir, count), i) == if i == 1 || i == count then [] else File(dir, i)
    ensures i in Rotated(dir, count) <==> i == 1 || (i in dir && i != count)
  {
  }

  predicate Kept(dir: Dir, was: Dir, j: int) {
    (j in dir <==> j in was) && (j in dir ==> dir[j] == was[j])
  }

  predicate MovedUp(dir: Dir, was: Dir, j: int) {
    (j in dir <==> j - 1 in was) && (j in dir ==> dir[j] == was[j - 1])
  }

  /** The files above `i` have moved up, slot `i` is free, and the others are as they were. */
  ghost predicate Shifting(was: Dir, dir: Dir, count: int, i: int) {
    && i !in dir
    && (forall j :: i < j <= count ==> MovedUp(dir, was, j))
    && (forall j :: j < i || j > count ==> Kept(dir, was, j))
  }

  lemma Shift(was: Dir, dir: Dir, count: int, i: int)
    requires 2 <= i <= count && Shifting(was, dir, count, i)
    ensures Shifting(was, if i - 1 in dir then dir[i := dir[i - 1]] - {i - 1} else dir, count, i - 1)
  {
    var next := if i - 1 in dir then dir[i := dir[i - 1]] - {i - 1} else dir;
    assert Kept(dir, was, i - 1);
    forall j | i - 1 < j <= count ensures MovedUp(next, was, j) {
      assert j > i ==> MovedUp(dir, was, j);
    }
    forall j | j < i - 1 || j > count ensures Kept(next, was, j) {
      assert Kept(dir, was, j);
    }
  }

  lemma ShiftingDone(was: Dir, dir: Dir, count: int)
    requires count >= 1 && Shifting(was, dir, count, 1)
    ensures dir[1 := []] == Rotated(was, count)
  {
    var r, d := Rotated(was, count), dir[1 := []];
    forall j ensures (j in d <==> j in r) && (j in d ==> d[j] == r[j]) {
      RotatedFile(was, count, j);
      assert 2 <= j <= count ==> MovedUp(dir, was, j);
      assert j < 1 || j > count ==> Kept(dir, was, j);
    }
  }

  /** The same text, taking a line feed for a blank. */
  predicate SameText(s: Bytes, t: Bytes) {
    |s| == |t| && forall i :: 0 <= i < |s| ==> s[i] == t[i] || (s[i] in {10, 32} && t[i] in {10, 32})
  }

  lemma SameTextIff(s: Bytes, t: Bytes)
    ensures Flattened(s) == Flattened(t) <==> SameText(s, t)
  {
    var f, g := Flattened(s), Flattened(t);
    assert forall i :: 0 <= i < |s| ==> f[i] == if s[i] == 10 then 32 else s[i];
    assert forall i :: 0 <= i < |t| ==> g[i] == if t[i] == 10 then 32 else t[i];
    if f == g {
      forall i | 0 <= i < |s| ensures s[i] == t[i] || (s[i] in {10, 32} && t[i] in {10, 32}) {
        assert f[i] == g[i];
      }
    }
  }

  function Terminated(message: Bytes): Bytes {
    TrimSpace(message) + [LF]
  }

  predicate ShouldAppend(file: Bytes, line: Bytes, deduplicate: bool) {
    !deduplicate || Flattened(TrimSpace(line)) != Flattened(TrimSpace(LastLine(file)))
  }

  /** Without deduplication every line is appended; with it, one whose text is not that of the last line. */
  lemma ShouldAppendIff(file: Bytes, line: Bytes, deduplicate: bool)
    ensures ShouldAppend(file, line, deduplicate) <==>
            (deduplicate ==> !SameText(TrimSpace(line), TrimSpace(LastLine(file))))
  {
    SameTextIff(TrimSpace(line), TrimSpace(LastLine(file)));
  }

  predicate EndsWith(file: Bytes, line: Bytes) {
    |file| >= |line| && file[|file| - |line|..] == line
  }

  function Opened(dir: Dir): Dir {
    if 1 in dir then dir else dir[1 := []]
  }

  predicate Exceeds(file: Bytes, line: Bytes, max: int) {
    |file| + |line| >= max
  }

  function Appended(dir: Dir, max: int, count: int, message: Bytes, deduplicate: bool): Dir {
    var line, open := Terminated(message), Opened(dir);
    if !ShouldAppend(open[1], line, deduplicate) then open
    else
      var ready := if Exceeds(open[1], line, max) then Rotated(open, count) else open;
      ready[1 := ready[1] + line]
  }

  lemma AppendEndsWith(file: Bytes, line: Bytes)
    ensures EndsWith(file + line, line)
  {
  }

  lemma AppendedEnds(dir: Dir, max: int, count: int, message: Bytes)
    ensures var after := Appended(dir, max, count, message, false);
            1 in after && EndsWith(after[1], TrimSpace(message) + [10])
  {
    var line, open := Terminated(message), Opened(dir);
    var ready := if Exceeds(open[1], line, max) then Rotated(open, count) else open;
    AppendEndsWith(ready[1], line);
  }

  // ---- The logger ----

  class RotatingLogger {
    const maxFileBytes: int
    const logFilesCount: int
    var dir: Dir

    constructor (maxFileBytes: int, logFilesCount: int, dir: Dir)
      ensures this.maxFileBytes == maxFileBytes && this.logFilesCount == logFilesCount && this.dir == dir
    {
      this.maxFileBytes, this.logFilesCount, this.dir := maxFileBytes, logFilesCount, dir;
    }

    /** Creates the files that are missing. */
    method Init()
      modifies this`dir
      ensures forall i :: 1 <= i <= logFilesCount ==> i in dir
      ensures forall i :: File(dir, i) == File(old(dir), i)
    {
      var i := 1;
      while i <= logFilesCount
        invariant forall j :: 1 <= j < i ==> j in dir
        invariant forall j :: File(dir, j) == File(old(dir), j)
        decreases logFilesCount - i
      {
        if i !in dir {
          dir := dir[i := []];
        }
        i := i + 1;
      }
    }

    /** Renames from the last file down: the slot that a rename fills is always free. */
    method PerformLogRotation()
      modifies this`dir
      ensures dir == Rotated(old(dir), logFilesCount)
    {
      ghost var was := dir;
      dir := dir - {logFilesCount};
      var i := logFilesCount;
      assert logFilesCount >= 1 ==> forall j :: j != logFilesCount ==> Kept(dir, was, j);
      while i >= 2
        invariant logFilesCount < 1 ==> dir == was - {logFilesCount}
        invariant logFilesCount >= 1 ==> 1 <= i <= logFilesCount && Shifting(was, dir, logFilesCount, i)
        decreases i
      {
        Shift(was, dir, logFilesCount, i);
        if i - 1 in dir {
          dir := dir[i := dir[i - 1]] - {i - 1};
        }
        i := i - 1;
      }
      if logFilesCount >= 1 {
        ShiftingDone(was, dir, logFilesCount);
      }
      dir := dir[1 := []];
    }

    /** Scans the first file backwards, a byte at a time, and reverses what it has kept. */
    method GetLogLastLine() returns (line: Bytes)
      requires 1 in dir
      ensures line == LastLine(dir[1])
    {
      var file := dir[1];
      var backwards: Bytes := [];
      var pos := |file|;
      assert file[..pos] == file;
      while pos > 0
        invariant 0 <= pos <= |file|
        invariant LastLine(file) == if backwards == [] then LastLine(file[..pos])
                                    else TrailingRun(file[..pos]) + Reversed(backwards)
        decreases pos
      {
        var c := file[pos - 1];
        if IsEol(c) {
          ScanEol(file, pos);
          if |backwards| > 0 {
            Unit(Reversed(backwards));
            break;
          }
          pos := pos - 1;
          continue;
        }
        ScanByte(file, pos);
        ReversedSnoc(backwards, c);
        Assoc(TrailingRun(file[..pos - 1]), [c], Reversed(backwards));
        Unit([c]);
        backwards := backwards + [c];
        pos := pos - 1;
      }
      line := Reversed(backwards);
      Unit(line);
    }

    method CheckIfLogFileSizeExceeded(messageLineLength: nat) returns (exceeded: bool)
      requires 1 in dir
      ensures exceeded ==> forall line: Bytes :: |line| == messageLineLength ==> |dir[1] + line| >= maxFileBytes
      ensures !exceeded ==> forall line: Bytes :: |line| == messageLineLength ==> |dir[1] + line| < maxFileBytes
    {
      exceeded := |dir[1]| + messageLineLength >= maxFileBytes;
    }

    method CheckIfMessageShouldBeAppended(currentLogLine: Bytes, deduplicateLine: bool) returns (append: bool)
      requires 1 in dir
      ensures append == ShouldAppend(dir[1], currentLogLine, deduplicateLine)
      ensures !deduplicateLine ==> append
    {
      if !deduplicateLine {
        return true;
      }
      var lastLogLine := GetLogLastLine();
      var cleanedCurrent := Flattened(TrimSpace(currentLogLine));
      var cleanedLast := Flattened(TrimSpace(lastLogLine));
      return cleanedCurrent != cleanedLast;
    }

    method Append(messageLine: Bytes, deduplicateLine: bool)
      modifies this`dir
      ensures dir == Appended(old(dir), maxFileBytes, logFilesCount, messageLine, deduplicateLine)
      ensures !deduplicateLine ==> 1 in dir && EndsWith(dir[1], TrimSpace(messageLine) + [10])
    {
      if !deduplicateLine {
        AppendedEnds(dir, maxFileBytes, logFilesCount, messageLine);
      }
      var line := TrimSpace(messageLine) + [LF];
      if 1 !in dir {
        dir := dir[1 := []];
      }
      var shouldBeAppended := CheckIfMessageShouldBeAppended(line, deduplicateLine);
      if !shouldBeAppended {
        return;
      }
      var exceeded := CheckIfLogFileSizeExceeded(|line|);
      if exceeded {
        PerformLogRotation();
      }
      dir := dir[1 := dir[1] + line];
    }
  }
}
