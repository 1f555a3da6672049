/**
 The rotating logger against a log that is never rotated: what the files hold after any requests, how
 many bytes that is, and which messages deduplication lets through.
 */
module LogHistory {
  import opened LogRotation
  import opened Basics

  datatype Request = Request(message: Bytes, deduplicate: bool)

  /** The directory after some requests. */
  function DirAfter(dir: Dir, max: int, count: int, rs: seq<Request>): Dir {
    if rs == [] then dir
    else
      var r := rs[|rs| - 1];
      Appended(DirAfter(dir, max, count, rs[..|rs| - 1]), max, count, r.message, r.deduplicate)
  }

  predicate Accepts(dir: Dir, r: Request) {
    ShouldAppend(File(dir, 1), Terminated(r.message), r.deduplicate)
  }

  predicate Rotates(dir: Dir, max: int, r: Request) {
    Accepts(dir, r) && Exceeds(File(dir, 1), Terminated(r.message), max)
  }

  /** The chunks of text that go into a log, in order. */
  type Chunks = seq<Bytes>

  /** The lines that were accepted among some requests. */
  function Accepted(dir: Dir, max: int, count: int, rs: seq<Request>): Chunks {
    if rs == [] then []
    else
      var before, r := rs[..|rs| - 1], rs[|rs| - 1];
      Accepted(dir, max, count, before)
      + if Accepts(DirAfter(dir, max, count, before), r) then [Terminated(r.message)] else []
  }

  /** How many times the files were rotated. */
  function Rotations(dir: Dir, max: int, count: int, rs: seq<Request>): nat {
    if rs == [] then 0
    else
      var before, r := rs[..|rs| - 1], rs[|rs| - 1];
      Rotations(dir, max, count, before) + if Rotates(DirAfter(dir, max, count, before), max, r) then 1 else 0
  }

  /** The files `n` down to 1, one after the other. */
  function Retained(dir: Dir, n: nat): Bytes {
    if n == 0 then [] else File(dir, n) + Retained(dir, n - 1)
  }

  // ---- The unbounded log ----

  // A file of the unbounded log is a sequence of chunks: it holds `Joined(chunks)`. The chunks of all its
  // files, one after the other, are `Joined(gens)`, and the bytes of the whole log `Joined(Joined(gens))`.

  /** A log that never drops a file: the line goes to the last one, or to a new one when that is full. */
  function Grown(gens: seq<Chunks>, max: int, line: Bytes): (r: seq<Chunks>)
    requires gens != []
    ensures |gens| <= |r| <= |gens| + 1
  {
    var last := gens[|gens| - 1];
    if Exceeds(Joined(last), line, max) then gens + [[line]] else gens[..|gens| - 1] + [last + [line]]
  }

  function GensAfter(gens: seq<Chunks>, max: int, lines: Chunks): (r: seq<Chunks>)
    requires gens != []
    ensures |gens| <= |r|
  {
    if lines == [] then gens else Grown(GensAfter(gens, max, lines[..|lines| - 1]), max, lines[|lines| - 1])
  }

  function AsChunks(file: Bytes): Chunks {
    if file == [] then [] else [file]
  }

  /** The files that are there at the start, oldest first. */
  function Initial(dir: Dir, count: nat): (r: seq<Chunks>)
    ensures |r| == count
  {
    if count == 0 then [] else [AsChunks(File(dir, count))] + Initial(dir, count - 1)
  }

  // ---- Chunks and bytes ----

  /** Nothing is lost, repeated or reordered on the way into the unbounded log. */
  lemma GrownAll(gens: seq<Chunks>, max: int, line: Bytes)
    requires gens != []
    ensures Joined(Grown(gens, max, line)) == Joined(gens) + [line]
  {
    var h, last := gens[..|gens| - 1], gens[|gens| - 1];
    JoinedSnoc(gens, [line]);
    JoinedSnoc(h, last + [line]);
    Assoc(Joined(h), last, [line]);
  }

  lemma {:induction false} GensAfterAll(gens: seq<Chunks>, max: int, lines: Chunks)
    requires gens != []
    ensures Joined(GensAfter(gens, max, lines)) == Joined(gens) + lines
    decreases |lines|
  {
    if lines == [] {
      Unit(Joined(gens));
    } else {
      var before, line := lines[..|lines| - 1], lines[|lines| - 1];
      GensAfterAll(gens, max, before);
      GrownAll(GensAfter(gens, max, before), max, line);
      Last(lines);
      Assoc(Joined(gens), before, [line]);
    }
  }

  // ---- The files are the end of the unbounded log ----

  predicate Holds(dir: Dir, i: int, gens: seq<Chunks>)
    requires 1 <= i <= |gens|
  {
    File(dir, i) == Joined(gens[|gens| - i])
  }

  /** The directory holds the last `count` files of the unbounded log, newest first. */
  ghost predicate IsRing(dir: Dir, count: int, gens: seq<Chunks>) {
    && 1 <= count <= |gens|
    && forall i :: 1 <= i <= count ==> Holds(dir, i, gens)
  }

  lemma {:induction false} InitialIsRing(dir: Dir, count: nat, i: int)
    requires 1 <= i <= count
    ensures Holds(dir, i, Initial(dir, count))
  {
    if i < count {
      InitialIsRing(dir, count - 1, i);
    } else {
      JoinedOne(File(dir, count));
    }
  }

  lemma OpenedFile(dir: Dir, i: int)
    ensures File(Opened(dir), i) == File(dir, i) && 1 in Opened(dir)
  {
  }

  lemma WrittenFile(dir: Dir, line: Bytes, i: int)
    requires 1 in dir
    ensures File(dir[1 := dir[1] + line], i) == if i == 1 then File(dir, 1) + line else File(dir, i)
  {
  }

  /** What one request does to each file. */
  lemma AppendedFile(dir: Dir, max: int, count: int, r: Request, i: int)
    requires count >= 1
    ensures File(Appended(dir, max, count, r.message, r.deduplicate), i) ==
            if !Accepts(dir, r) then File(dir, i)
            else if Rotates(dir, max, r) then
              if i == 1 then Terminated(r.message) else File(dir, if 2 <= i <= count then i - 1 else i)
            else if i == 1 then File(dir, 1) + Terminated(r.message)
            else File(dir, i)
  {
    var open, line := Opened(dir), Terminated(r.message);
    OpenedFile(dir, 1);
    OpenedFile(dir, if 2 <= i <= count then i - 1 else i);
    OpenedFile(dir, i);
    if Rotates(dir, max, r) {
      RotatedFile(open, count, 1);
      RotatedFile(open, count, i);
      WrittenFile(Rotated(open, count), line, i);
      Unit(line);
    } else if Accepts(dir, r) {
      WrittenFile(open, line, i);
    }
  }

  /** The size check decides rightly: without a rotation file 1 stays below the limit, and with one its old
      contents, whole in file 2, would have reached the limit with the line. */
  lemma RotatesOnlyWhenFull(dir: Dir, max: int, count: int, r: Request)
    requires count >= 1 && Accepts(dir, r)
    ensures var after, line := Appended(dir, max, count, r.message, r.deduplicate), Terminated(r.message);
            if Rotates(dir, max, r) then
              && File(after, 1) == line
              && (count >= 2 ==> File(after, 2) == File(dir, 1))
              && |File(dir, 1) + line| >= max
            else File(after, 1) == File(dir, 1) + line && |File(after, 1)| < max
  {
    AppendedFile(dir, max, count, r, 1);
    AppendedFile(dir, max, count, r, 2);
  }

  /** What one line does to the files of the unbounded log, counted from the newest. */
  lemma GrownFile(gens: seq<Chunks>, max: int, line: Bytes, i: int)
    requires 1 <= i <= |gens|
    ensures var g, last := Grown(gens, max, line), Joined(gens[|gens| - 1]);
            Joined(g[|g| - i]) ==
            if Exceeds(last, line, max) then if i == 1 then line else Joined(gens[|gens| - (i - 1)])
            else if i == 1 then last + line
            else Joined(gens[|gens| - i])
  {
    JoinedOne(line);
    JoinedSnoc(gens[|gens| - 1], line);
  }

  lemma GrownHolds(dir: Dir, max: int, count: int, gens: seq<Chunks>, r: Request, i: int)
    requires IsRing(dir, count, gens) && Accepts(dir, r) && 1 <= i <= count
    ensures File(Appended(dir, max, count, r.message, r.deduplicate), i)
            == var g := Grown(gens, max, Terminated(r.message)); Joined(g[|g| - i])
  {
    GrownFile(gens, max, Terminated(r.message), i);
    AppendedFile(dir, max, count, r, i);
    assert Holds(dir, 1, gens) && Holds(dir, i, gens);
    assert i > 1 ==> Holds(dir, i - 1, gens);
  }

  /** Every request moves the files and the unbounded log together. */
  lemma {:induction false} RingAfter(dir: Dir, max: int, count: int, gens: seq<Chunks>, rs: seq<Request>)
    requires IsRing(dir, count, gens)
    ensures IsRing(DirAfter(dir, max, count, rs), count, GensAfter(gens, max, Accepted(dir, max, count, rs)))
    ensures |GensAfter(gens, max, Accepted(dir, max, count, rs))| == |gens| + Rotations(dir, max, count, rs)
    decreases |rs|
  {
    if rs == [] {
    } else {
      var before, r := rs[..|rs| - 1], rs[|rs| - 1];
      RingAfter(dir, max, count, gens, before);
      RingStep(DirAfter(dir, max, count, before), max, count, gens, Accepted(dir, max, count, before), r);
    }
  }

  lemma RingStep(dir: Dir, max: int, count: int, gens: seq<Chunks>, lines: Chunks, r: Request)
    requires gens != [] && IsRing(dir, count, GensAfter(gens, max, lines))
    ensures var lines' := lines + if Accepts(dir, r) then [Terminated(r.message)] else [];
            && IsRing(Appended(dir, max, count, r.message, r.deduplicate), count, GensAfter(gens, max, lines'))
            && |GensAfter(gens, max, lines')| == |GensAfter(gens, max, lines)| + if Rotates(dir, max, r) then 1 else 0
  {
    var now, line := GensAfter(gens, max, lines), Terminated(r.message);
    var dir' := Appended(dir, max, count, r.message, r.deduplicate);
    if Accepts(dir, r) {
      assert (lines + [line])[..|lines|] == lines;
      assert Holds(dir, 1, now);
      forall i | 1 <= i <= count ensures Holds(dir', i, Grown(now, max, line)) {
        GrownHolds(dir, max, count, now, r, i);
      }
    } else {
      assert lines + [] == lines;
      forall i | 1 <= i <= count ensures Holds(dir', i, now) {
        assert Holds(dir, i, now);
        AppendedFile(dir, max, count, r, i);
      }
    }
  }

  lemma JoinedCons(g: Chunks, rest: seq<Chunks>)
    ensures Joined([g] + rest) == g + Joined(rest)
  {
    JoinedAppend([g], rest);
    JoinedOne(g);
  }

  lemma {:induction false} RetainedIs(dir: Dir, count: int, gens: seq<Chunks>, n: nat)
    requires IsRing(dir, count, gens) && n <= count
    ensures Retained(dir, n) == Joined(Joined(gens[|gens| - n..]))
  {
    if n == 0 {
    } else {
      var g, rest := gens[|gens| - n], gens[|gens| - n + 1..];
      RetainedIs(dir, count, gens, n - 1);
      Head(gens, |gens| - n);
      JoinedCons(g, rest);
      JoinedAppend(g, Joined(rest));
      assert Holds(dir, n, gens);
    }
  }

  /**
   After any requests the files are the end of what was there at first followed by every accepted
   line, cut where one file of the unbounded log ends.
   */
  lemma FilesAreASuffix(dir: Dir, max: int, count: nat, rs: seq<Request>) returns (gens: seq<Chunks>, dropped: nat)
    requires count >= 1
    ensures gens == GensAfter(Initial(dir, count), max, Accepted(dir, max, count, rs))
    ensures dropped == Rotations(dir, max, count, rs) && |gens| == dropped + count
    ensures IsRing(DirAfter(dir, max, count, rs), count, gens)
    ensures Joined(gens) == Joined(Initial(dir, count)) + Accepted(dir, max, count, rs)
    ensures Retained(DirAfter(dir, max, count, rs), count) == Joined(Joined(gens[dropped..]))
    ensures Retained(dir, count) + Joined(Accepted(dir, max, count, rs))
            == Joined(Joined(gens[..dropped])) + Retained(DirAfter(dir, max, count, rs), count)
  {
    var first, lines := Initial(dir, count), Accepted(dir, max, count, rs);
    InitialRing(dir, count);
    RingAfter(dir, max, count, first, rs);
    gens, dropped := GensAfter(first, max, lines), Rotations(dir, max, count, rs);
    GensAfterAll(first, max, lines);
    Whole(dir, DirAfter(dir, max, count, rs), count, first, lines, gens, dropped);
  }

  lemma InitialRing(dir: Dir, count: nat)
    requires count >= 1
    ensures IsRing(dir, count, Initial(dir, count))
  {
    forall i | 1 <= i <= count ensures Holds(dir, i, Initial(dir, count)) {
      InitialIsRing(dir, count, i);
    }
  }

  lemma Whole(dir: Dir, after: Dir, count: nat, first: seq<Chunks>, lines: Chunks, gens: seq<Chunks>, dropped: nat)
    requires |first| == count && IsRing(dir, count, first) && |gens| == dropped + count && IsRing(after, count, gens)
    requires Joined(gens) == Joined(first) + lines
    ensures Retained(after, count) == Joined(Joined(gens[dropped..]))
    ensures Retained(dir, count) + Joined(lines) == Joined(Joined(gens[..dropped])) + Retained(after, count)
  {
    RetainedIs(dir, count, first, count);
    RetainedIs(after, count, gens, count);
    assert first[0..] == first;
    JoinedAppend(Joined(first), lines);
    JoinedCut(gens, dropped);
  }

  lemma JoinedCut(gens: seq<Chunks>, k: nat)
    requires k <= |gens|
    ensures Joined(Joined(gens)) == Joined(Joined(gens[..k])) + Joined(Joined(gens[k..]))
  {
    Cut(gens, k);
    JoinedAppend(gens[..k], gens[k..]);
    JoinedAppend(Joined(gens[..k]), Joined(gens[k..]));
  }

  // ---- How many bytes are kept ----

  predicate AllEmpty(dir: Dir, count: nat) {
    forall i :: 1 <= i <= count ==> File(dir, i) == []
  }

  lemma {:induction false} InitialFileEmpty(dir: Dir, count: nat, k: nat)
    requires AllEmpty(dir, count) && k < count
    ensures Initial(dir, count)[k] == []
    decreases count
  {
    if k == 0 {
      assert File(dir, count) == [];
    } else {
      InitialFileEmpty(dir, count - 1, k - 1);
    }
  }

  lemma {:induction false} JoinedEmpty(gens: seq<Chunks>)
    requires forall k :: 0 <= k < |gens| ==> gens[k] == []
    ensures Joined(gens) == []
  {
    if gens == [] {
    } else {
      JoinedEmpty(gens[..|gens| - 1]);
    }
  }

  lemma InitialEmpty(dir: Dir, count: nat)
    requires AllEmpty(dir, count)
    ensures forall k :: 0 <= k < count ==> Initial(dir, count)[k] == []
    ensures Joined(Initial(dir, count)) == []
  {
    forall k | 0 <= k < count ensures Initial(dir, count)[k] == [] {
      InitialFileEmpty(dir, count, k);
    }
    JoinedEmpty(Initial(dir, count));
  }

  ghost predicate Small(gens: seq<Chunks>, max: int) {
    forall k :: 0 <= k < |gens| ==> |gens[k]| <= 1 || |Joined(gens[k])| < max
  }

  /** Every file is smaller than `max`, and a file that was closed after the first `count - 1` is nearly full. */
  ghost predicate Bounded(gens: seq<Chunks>, max: int, m: int, count: nat) {
    && (forall k :: 0 <= k < |gens| ==> |Joined(gens[k])| < max)
    && (forall k :: 0 <= k < |gens| - 1 && count - 1 <= k ==> |Joined(gens[k])| >= max - m)
  }

  /** What is in each file of the unbounded log after one line. */
  lemma GrownChunks(gens: seq<Chunks>, max: int, line: Bytes, k: nat)
    requires gens != [] && k < |Grown(gens, max, line)|
    ensures var g, n, full := Grown(gens, max, line)[k], |gens| - 1, Exceeds(Joined(gens[|gens| - 1]), line, max);
            && |Grown(gens, max, line)| == (if full then n + 2 else n + 1)
            && (k < n || (k == n && full) ==> g == gens[k])
            && (k == n && !full ==> Joined(g) == Joined(gens[n]) + line)
            && (k == n + 1 ==> g == [line] && Joined(g) == line)
  {
    JoinedSnoc(gens[|gens| - 1], line);
    JoinedOne(line);
  }

  lemma GrownSmall(gens: seq<Chunks>, max: int, line: Bytes)
    requires gens != [] && Small(gens, max)
    ensures Small(Grown(gens, max, line), max)
  {
    var r := Grown(gens, max, line);
    forall k | 0 <= k < |r| ensures |r[k]| <= 1 || |Joined(r[k])| < max {
      GrownChunks(gens, max, line, k);
    }
  }

  lemma {:induction false} GensAfterSmall(gens: seq<Chunks>, max: int, lines: Chunks)
    requires gens != [] && Small(gens, max)
    ensures Small(GensAfter(gens, max, lines), max)
    decreases |lines|
  {
    if lines == [] {
    } else {
      GensAfterSmall(gens, max, lines[..|lines| - 1]);
      GrownSmall(GensAfter(gens, max, lines[..|lines| - 1]), max, lines[|lines| - 1]);
    }
  }

  lemma GrownBounded(gens: seq<Chunks>, max: int, m: int, count: nat, line: Bytes)
    requires gens != [] && Bounded(gens, max, m, count) && |line| <= m < max
    ensures Bounded(Grown(gens, max, line), max, m, count)
  {
    var r := Grown(gens, max, line);
    forall k | 0 <= k < |r|
      ensures |Joined(r[k])| < max
      ensures k < |r| - 1 && count - 1 <= k ==> |Joined(r[k])| >= max - m
    {
      GrownChunks(gens, max, line, k);
    }
  }

  lemma {:induction false} GensAfterBounded(gens: seq<Chunks>, max: int, m: int, count: nat, lines: Chunks)
    requires gens != [] && Bounded(gens, max, m, count) && m < max && forall line :: line in lines ==> |line| <= m
    ensures Bounded(GensAfter(gens, max, lines), max, m, count)
    decreases |lines|
  {
    if lines == [] {
    } else {
      GensAfterBounded(gens, max, m, count, lines[..|lines| - 1]);
      GrownBounded(GensAfter(gens, max, lines[..|lines| - 1]), max, m, count, lines[|lines| - 1]);
    }
  }

  lemma {:induction false} AcceptedLines(dir: Dir, max: int, count: int, rs: seq<Request>, line: Bytes)
    ensures line in Accepted(dir, max, count, rs) ==> exists r :: r in rs && line == Terminated(r.message)
    decreases |rs|
  {
    if rs == [] {
    } else {
      var before, r := rs[..|rs| - 1], rs[|rs| - 1];
      AcceptedLines(dir, max, count, before, line);
      if line in Accepted(dir, max, count, rs) && line !in Accepted(dir, max, count, before) {
        assert r in rs && line == Terminated(r.message);
      }
    }
  }

  lemma {:induction false} RetainedBytes(dir: Dir, n: nat, low: int, high: int)
    requires forall i :: 1 <= i <= n ==> |File(dir, i)| <= high
    requires forall i :: 2 <= i <= n ==> |File(dir, i)| >= low
    ensures |Retained(dir, n)| <= n * high
    ensures n >= 1 ==> |Retained(dir, n)| >= (n - 1) * low
    decreases n
  {
    if n == 0 {
    } else {
      RetainedBytes(dir, n - 1, low, high);
      assert (n - 1) * high + high == n * high;
      assert n > 1 ==> (n - 2) * low + low == (n - 1) * low;
    }
  }

  lemma {:induction false} InAll(gens: seq<Chunks>, k: nat, c: Bytes)
    requires k < |gens| && c in gens[k]
    ensures c in Joined(gens)
    decreases |gens|
  {
    if k < |gens| - 1 {
      InAll(gens[..|gens| - 1], k, c);
    }
  }

  lemma SmallFile(dir: Dir, count: int, gens: seq<Chunks>, max: int, i: int)
    requires IsRing(dir, count, gens) && Small(gens, max) && 1 <= i <= count
    ensures |File(dir, i)| < max || File(dir, i) == [] || File(dir, i) in Joined(gens)
  {
    var g := gens[|gens| - i];
    assert Holds(dir, i, gens);
    if |g| == 1 {
      InAll(gens, |gens| - i, g[0]);
      JoinedOne(g[0]);
      assert g == [g[0]];
    }
  }

  /** A file is below the limit unless it is empty or a single line that was too long for it. */
  lemma OnlyALongLineExceeds(dir: Dir, max: int, count: nat, rs: seq<Request>, i: int)
    requires AllEmpty(dir, count) && 1 <= i <= count
    ensures var file := File(DirAfter(dir, max, count, rs), i);
            |file| < max || file == [] || file in Accepted(dir, max, count, rs)
  {
    InitialEmpty(dir, count);
    GensAfterSmall(Initial(dir, count), max, Accepted(dir, max, count, rs));
    var gens, dropped := FilesAreASuffix(dir, max, count, rs);
    SmallFile(DirAfter(dir, max, count, rs), count, gens, max, i);
  }

  lemma RingBytes(dir: Dir, count: int, gens: seq<Chunks>, max: int, m: int)
    requires IsRing(dir, count, gens) && Bounded(gens, max, m, count)
    ensures forall i :: 1 <= i <= count ==> |File(dir, i)| < max
    ensures |Retained(dir, count)| < count * max
    ensures |gens| - count >= count - 1 ==> |Retained(dir, count)| >= (count - 1) * (max - m)
  {
    var full := |gens| - count >= count - 1;
    forall i | 1 <= i <= count
      ensures |File(dir, i)| <= max - 1
      ensures i >= 2 && full ==> |File(dir, i)| >= max - m
    {
      assert Holds(dir, i, gens);
    }
    RetainedBytes(dir, count, if full then max - m else 0, max - 1);
    assert count * (max - 1) == count * max - count;
  }

  /** With lines of at most `m` bytes the log keeps less than `count * max` bytes, and once full at least
      `(count - 1) * (max - m)`. */
  lemma ByteBounds(dir: Dir, max: int, count: nat, m: int, rs: seq<Request>)
    requires AllEmpty(dir, count) && count >= 1 && 0 <= m < max
    requires forall r :: r in rs ==> |Terminated(r.message)| <= m
    ensures forall i :: 1 <= i <= count ==> |File(DirAfter(dir, max, count, rs), i)| < max
    ensures |Retained(DirAfter(dir, max, count, rs), count)| < count * max
    ensures Rotations(dir, max, count, rs) >= count - 1
            ==> |Retained(DirAfter(dir, max, count, rs), count)| >= (count - 1) * (max - m)
  {
    var first, lines := Initial(dir, count), Accepted(dir, max, count, rs);
    InitialEmpty(dir, count);
    forall line | line in lines ensures |line| <= m {
      AcceptedLines(dir, max, count, rs, line);
    }
    GensAfterBounded(first, max, m, count, lines);
    var gens, dropped := FilesAreASuffix(dir, max, count, rs);
    RingBytes(DirAfter(dir, max, count, rs), count, gens, max, m);
  }

  // ---- Deduplication ----

  predicate Plain(r: Request) {
    r.deduplicate && TrimSpace(r.message) != [] && OneLine(TrimSpace(r.message))
  }

  function Lines(rs: seq<Request>): (r: Chunks)
    ensures |r| == |rs|
  {
    if rs == [] then [] else Lines(rs[..|rs| - 1]) + [Terminated(rs[|rs| - 1].message)]
  }

  /** Without the lines that repeat the one before. */
  function Destuttered(lines: Chunks): Chunks {
    if |lines| <= 1 then lines
    else
      var h := lines[..|lines| - 1];
      if lines[|lines| - 1] == h[|h| - 1] then Destuttered(h) else Destuttered(h) + [lines[|lines| - 1]]
  }

  predicate EndsInLine(file: Bytes, line: Bytes) {
    var k := |file| - |line|;
    k >= 0 && file[k..] == line && (k > 0 ==> IsEol(file[k - 1]))
  }

  /** The backward scan reads the newest line back. */
  lemma ReadsBack(file: Bytes, t: Bytes)
    requires t != [] && OneLine(t) && EndsInLine(file, t + [LF])
    ensures LastLine(file) == t
  {
    var k := |file| - |t| - 1;
    var tail := file[k..];
    assert forall i :: k <= i < |file| ==> file[i] == tail[i - k];
    LastLineIs(file, k, k + |t|);
    assert file[k..k + |t|] == tail[..|t|] == t;
  }

  lemma PlainAccepts(dir: Dir, r: Request, u: Request)
    requires Plain(r) && Plain(u)
    ensures File(dir, 1) == [] ==> Accepts(dir, r)
    ensures EndsInLine(File(dir, 1), Terminated(u.message))
            ==> (Accepts(dir, r) <==> Terminated(r.message) != Terminated(u.message))
  {
    var file, t, v := File(dir, 1), TrimSpace(r.message), TrimSpace(u.message);
    TrimSpaceTrims(r.message);
    TrimSpaceTrims(u.message);
    TrimLine(t);
    TrimLine(v);
    assert Flattened(t) == t && Flattened(v) == v;
    if file == [] {
      TrimLine([]);
      assert LastLine(file) == [] && Flattened([]) == [];
    }
    if EndsInLine(file, Terminated(u.message)) {
      ReadsBack(file, v);
      assert Terminated(r.message)[..|t|] == t && Terminated(u.message)[..|v|] == v;
    }
  }

  predicate NewestIs(file: Bytes, rs: seq<Request>) {
    if rs == [] then file == [] else EndsInLine(file, Terminated(rs[|rs| - 1].message))
  }

  predicate Repeats(before: seq<Request>, r: Request) {
    before != [] && Terminated(r.message) == Terminated(before[|before| - 1].message)
  }

  lemma Newest(dir: Dir, max: int, count: int, before: seq<Request>, r: Request)
    requires count >= 1 && NewestIs(File(dir, 1), before) && Plain(r) && forall q :: q in before ==> Plain(q)
    ensures Accepts(dir, r) <==> !Repeats(before, r)
    ensures EndsInLine(File(Appended(dir, max, count, r.message, r.deduplicate), 1), Terminated(r.message))
  {
    AppendedFile(dir, max, count, r, 1);
    PlainAccepts(dir, r, if before == [] then r else before[|before| - 1]);
  }

  lemma DestutteredSnoc(before: seq<Request>, r: Request)
    ensures Destuttered(Lines(before) + [Terminated(r.message)]) ==
            Destuttered(Lines(before)) + if Repeats(before, r) then [] else [Terminated(r.message)]
  {
    Front(Lines(before), Terminated(r.message));
    Unit(Destuttered(Lines(before)));
  }

  lemma {:induction false} FirstFileEndsInNewest(dir: Dir, max: int, count: int, rs: seq<Request>)
    requires count >= 1 && File(dir, 1) == [] && forall r :: r in rs ==> Plain(r)
    ensures NewestIs(File(DirAfter(dir, max, count, rs), 1), rs)
    ensures Accepted(dir, max, count, rs) == Destuttered(Lines(rs))
    decreases |rs|
  {
    if rs == [] {
    } else {
      var before, r := rs[..|rs| - 1], rs[|rs| - 1];
      assert r in rs;
      FirstFileEndsInNewest(dir, max, count, before);
      Newest(DirAfter(dir, max, count, before), max, count, before, r);
      DestutteredSnoc(before, r);
    }
  }

  /** When nothing is deduplicated, every message is accepted. */
  lemma {:induction false} EveryLineIsAccepted(dir: Dir, max: int, count: int, rs: seq<Request>)
    requires forall r :: r in rs ==> !r.deduplicate
    ensures Accepted(dir, max, count, rs) == Lines(rs)
    decreases |rs|
  {
    if rs == [] {
    } else {
      EveryLineIsAccepted(dir, max, count, rs[..|rs| - 1]);
      assert rs[|rs| - 1] in rs;
    }
  }

  /** Then the files are the end of the initial contents followed by all messages. */
  lemma NoMessageIsLost(dir: Dir, max: int, count: nat, rs: seq<Request>) returns (gens: seq<Chunks>, dropped: nat)
    requires count >= 1 && forall r :: r in rs ==> !r.deduplicate
    ensures Joined(gens) == Joined(Initial(dir, count)) + Lines(rs) && dropped <= |gens|
    ensures Retained(dir, count) + Joined(Lines(rs))
            == Joined(Joined(gens[..dropped])) + Retained(DirAfter(dir, max, count, rs), count)
  {
    EveryLineIsAccepted(dir, max, count, rs);
    gens, dropped := FilesAreASuffix(dir, max, count, rs);
  }

  lemma {:induction false} RetainedEmpty(dir: Dir, n: nat)
    requires AllEmpty(dir, n)
    ensures Retained(dir, n) == []
  {
    if n == 0 {
    } else {
      RetainedEmpty(dir, n - 1);
    }
  }

  /** With every request deduplicated, the files are the end of the messages with repeats collapsed. */
  lemma DeduplicatesAcrossRotations(dir: Dir, max: int, count: nat, rs: seq<Request>)
    returns (gens: seq<Chunks>, dropped: nat)
    requires count >= 1 && AllEmpty(dir, count) && forall r :: r in rs ==> Plain(r)
    ensures Joined(gens) == Destuttered(Lines(rs)) && dropped <= |gens|
    ensures Retained(DirAfter(dir, max, count, rs), count) == Joined(Joined(gens[dropped..]))
    ensures Joined(Destuttered(Lines(rs)))
            == Joined(Joined(gens[..dropped])) + Retained(DirAfter(dir, max, count, rs), count)
  {
    assert File(dir, 1) == [];
    FirstFileEndsInNewest(dir, max, count, rs);
    InitialEmpty(dir, count);
    RetainedEmpty(dir, count);
    gens, dropped := FilesAreASuffix(dir, max, count, rs);
    assert [] + Joined(Destuttered(Lines(rs))) == Joined(Destuttered(Lines(rs)));
  }
}
