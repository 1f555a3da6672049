/**
 The log tailer: a goroutine that mirrors the lines of the file at a path while a writer appends
 lines to it and rotates it. Each file that has been at the path is a generation, and its lines are
 written whole; the reader's place is a generation and a number of lines of it.
 */
module Tailer {
  import opened Basics

  type Line = string

  /** Where the reader stands in `mirrorLog`. The three drains are its calls of `mirrorAvailableMessages`. */
  datatype Pc = AwaitFirst | OpenFirst | Drain1 | Stat | Drain2 | Reopen | Drain3 | Select | Returned | Failed

  datatype Reader = Reader(
    pc: Pc,
    f: nat,            // generation of the open file
    pos: nat,          // how many of its lines have been read
    fi: nat,           // generation whose file information is remembered
    newFi: nat,        // generation last found at the path
    closing: bool,
    mirrored: seq<Line>)

  /** Every generation so far, the last one being where the writer writes; whether it is at the path. */
  datatype Files = Files(gens: seq<seq<Line>>, present: bool)

  /** `passes` counts the reader's selects since cancellation; `written` is what had been written by
      then, in so many generations. */
  datatype Cancel = Running | Cancelled(written: seq<Line>, gens: nat, passes: nat)

  /** `steady`: every open so far found the generation after the one before it. */
  datatype State = State(files: Files, r: Reader, cancel: Cancel, offset: nat, steady: bool)

  /** The file exists when mirroring is asked for. */
  function InitExisting(lines: seq<Line>, fromStart: bool): State {
    var pos := if fromStart then 0 else |lines|;
    State(Files([lines], true), Reader(Drain1, 0, pos, 0, 0, false, []), Running, pos, true)
  }

  const INIT_MISSING := State(Files([], false), Reader(AwaitFirst, 0, 0, 0, 0, false, []), Running, 0, true)

  ghost predicate IsInit(s: State) {
    s == INIT_MISSING || exists lines, fromStart :: s == InitExisting(lines, fromStart)
  }

  /** Mirroring is to begin at place `from` of the written history: at the end of a file that is there when it is
      asked for, unless all of it is wanted, and at the beginning of one that is not. */
  ghost predicate StartsAt(s: State, from: nat) {
    || (s == INIT_MISSING && from == 0)
    || exists lines, fromStart :: s == InitExisting(lines, fromStart) && from == if fromStart then 0 else |lines|
  }

  datatype Step =
    // the writer, and the cancellation
    | Write(line: Line) | MoveAway | Create | CancelContext
    // the reader
    | ReadLine | DrainEnds | FindFirst | OpenFirstFile | StatPath | ReopenPath | SelectNext

  predicate Draining(pc: Pc) {
    pc == Drain1 || pc == Drain2 || pc == Drain3
  }

  predicate CanStep(s: State, step: Step) {
    var r, files := s.r, s.files;
    match step
    case Write(_) => files.gens != []
    case MoveAway => files.present
    case Create => !files.present
    case CancelContext => s.cancel.Running?
    case ReadLine => Draining(r.pc) && r.f < |files.gens| && r.pos < |files.gens[r.f]|
    case DrainEnds => Draining(r.pc) && r.f < |files.gens| && r.pos == |files.gens[r.f]|
    // waiting for the file goes on until it is there or the context is cancelled
    case FindFirst => r.pc == AwaitFirst && (files.present || s.cancel.Cancelled?)
    case OpenFirstFile => r.pc == OpenFirst
    case StatPath => r.pc == Stat && (files.present || s.cancel.Cancelled?)
    case ReopenPath => r.pc == Reopen
    case SelectNext => r.pc == Select
  }

  function Write1(gens: seq<seq<Line>>, line: Line): seq<seq<Line>>
    requires gens != []
  {
    gens[..|gens| - 1] + [gens[|gens| - 1] + [line]]
  }

  function Apply(s: State, step: Step): State
    requires CanStep(s, step)
  {
    var r, gens := s.r, s.files.gens;
    match step
    case Write(line) => s.(files := s.files.(gens := Write1(gens, line)))
    case MoveAway => s.(files := s.files.(present := false))
    case Create => s.(files := Files(gens + [[]], true))
    case CancelContext => s.(cancel := Cancelled(Joined(gens), |gens|, 0))
    case ReadLine => s.(r := r.(pos := r.pos + 1, mirrored := r.mirrored + [gens[r.f][r.pos]]))
    case DrainEnds => s.(r := r.(pc := if r.pc == Drain1 then Stat else if r.pc == Drain2 then Reopen else Select))
    case FindFirst => s.(r := r.(pc := if s.files.present then OpenFirst else Failed))
    case OpenFirstFile =>
      if !s.files.present || gens == [] then s.(r := r.(pc := Failed))
      else
        var last := |gens| - 1;
        s.(r := r.(pc := Drain1, f := last, pos := 0, fi := last), steady := s.steady && last == 0)
    case StatPath =>
      if !s.files.present || gens == [] then s.(r := r.(pc := Failed))
      else
        var last := |gens| - 1;
        s.(r := r.(newFi := last, pc := if last == r.fi then Select else Drain2))
    case ReopenPath =>
      if !s.files.present || gens == [] then s.(r := r.(pc := Failed))
      else
        var last := |gens| - 1;
        s.(r := r.(pc := Drain3, f := last, pos := 0, fi := r.newFi), steady := s.steady && last == r.f + 1)
    case SelectNext =>
      if s.cancel.Running? then s.(r := r.(pc := Drain1))
      else
        s.(r := r.(pc := if r.closing then Returned else Drain1, closing := true),
           cancel := s.cancel.(passes := s.cancel.passes + 1))
  }

  // ---- History ----

  /** The lines of the generations, in the order in which they were written. */
  function Written(s: State): seq<Line> {
    Joined(s.files.gens)
  }

  /** The reader's place in the written history. */
  function Position(s: State): nat {
    var gens, r := s.files.gens, s.r;
    if r.f < |gens| then |Joined(gens[..r.f])| + r.pos else r.pos
  }

  predicate HasOpened(pc: Pc) {
    pc != AwaitFirst && pc != OpenFirst
  }

  /** What has been mirrored is the written history from `from` up to the reader's place. */
  predicate ExactFrom(s: State, from: nat) {
    from <= Position(s) <= |Written(s)| && s.r.mirrored == Written(s)[from..Position(s)]
  }

  predicate ExactlyOnce(s: State) {
    ExactFrom(s, s.offset)
  }

  lemma {:induction false} JoinedPrefix(gens: seq<seq<Line>>, n: nat)
    requires n <= |gens|
    ensures Joined(gens[..n]) <= Joined(gens)
    ensures n < |gens| ==> |Joined(gens[..n])| + |gens[n]| <= |Joined(gens)|
    ensures n < |gens| ==> Joined(gens[..n + 1]) == Joined(gens[..n]) + gens[n]
    decreases |gens|
  {
    if n == |gens| {
      assert gens[..n] == gens;
    } else {
      assert gens[..n + 1][..n] == gens[..n];
      if n + 1 == |gens| {
        assert gens[..n + 1] == gens;
      } else {
        var m := |gens| - 1;
        JoinedPrefix(gens[..m], n);
        assert gens[..m][..n] == gens[..n];
      }
    }
  }

  lemma JoinedWrite(gens: seq<seq<Line>>, line: Line)
    requires gens != []
    ensures Joined(Write1(gens, line)) == Joined(gens) + [line]
  {
    assert Write1(gens, line)[..|gens| - 1] == gens[..|gens| - 1];
    assert Joined(gens[..|gens| - 1]) + (gens[|gens| - 1] + [line]) == Joined(gens) + [line];
  }

  lemma JoinedCreate(gens: seq<seq<Line>>)
    ensures Joined(gens + [[]]) == Joined(gens)
  {
    assert (gens + [[]])[..|gens|] == gens;
  }

  /** The generations after a step of the writer. */
  function Grown(gens: seq<seq<Line>>, step: Step): seq<seq<Line>>
    requires step == Create || (step.Write? && gens != [])
  {
    if step == Create then gens + [[]] else Write1(gens, step.line)
  }

  lemma GrownHistory(gens: seq<seq<Line>>, step: Step)
    requires step == Create || (step.Write? && gens != [])
    ensures Joined(gens) <= Joined(Grown(gens, step))
  {
    if step == Create { JoinedCreate(gens); } else { JoinedWrite(gens, step.line); }
  }

  /** A generation that is not the last one is never written again. */
  lemma GrownKeeps(gens: seq<seq<Line>>, step: Step, n: nat)
    requires n < |gens| && (step == Create || step.Write?)
    ensures var gens' := Grown(gens, step);
            && |gens| <= |gens'| && gens'[..n] == gens[..n] && gens[n] <= gens'[n]
            && (n + 1 < |gens| ==> gens'[n] == gens[n])
  {
  }

  // ---- Exactly once, in order ----

  predicate Shape(s: State) {
    var gens, r := s.files.gens, s.r;
    && (s.files.present ==> gens != [])
    && (if r.f < |gens| then r.pos <= |gens[r.f]| else r.f == 0 && r.pos == 0 && (r.pc == Failed || !HasOpened(r.pc)))
    && (!HasOpened(r.pc) ==> r.f == 0 && r.pos == 0)
    && r.fi <= r.f
    && (r.pc == Drain2 || r.pc == Reopen ==> r.newFi < |gens|)
  }

  /** As long as every open finds the next generation, the reader remembers the generation it has open,
      and leaves one only after reading the whole of it. */
  predicate SteadyShape(s: State) {
    var gens, r := s.files.gens, s.r;
    && (HasOpened(r.pc) && r.pc != Failed ==> r.fi == r.f)
    && (r.pc == Drain2 || r.pc == Reopen ==> r.f < r.newFi < |gens|)
    && (r.pc == Reopen ==> r.pos == |gens[r.f]|)
  }

  predicate Inv(s: State) {
    Shape(s) && (s.steady ==> SteadyShape(s) && ExactlyOnce(s))
  }

  lemma InitInv(s: State)
    requires IsInit(s)
    ensures Inv(s)
  {
    if s != INIT_MISSING {
      var lines, fromStart :| s == InitExisting(lines, fromStart);
      assert [lines][..1] == [lines];
      assert Joined([lines]) == lines;
    }
  }

  /** A longer history with the reader at the same place. */
  lemma ExactlyOnceKept(s: State, t: State)
    requires ExactlyOnce(s) && s.r == t.r && s.offset == t.offset
    requires Position(t) == Position(s) && Written(s) <= Written(t)
    ensures ExactlyOnce(t)
  {
  }

  /** Nothing the writer does moves the reader's place or changes the history before it. */
  lemma WriterPlace(s: State, step: Step)
    requires Shape(s) && CanStep(s, step) && (step.Write? || step == Create)
    ensures Shape(Apply(s, step)) && Position(Apply(s, step)) == Position(s) && Written(s) <= Written(Apply(s, step))
  {
    var t, gens, f := Apply(s, step), s.files.gens, s.r.f;
    assert t.files.gens == Grown(gens, step) && t.r == s.r;
    GrownHistory(gens, step);
    if gens != [] {
      GrownKeeps(gens, step, f);
      assert t.files.gens[..f] == gens[..f];
    } else {
      assert t.files.gens == [[]] && t.files.gens[..0] == [];
    }
  }

  lemma JoinedAt(gens: seq<seq<Line>>, f: nat, pos: nat)
    requires f < |gens| && pos < |gens[f]|
    ensures var p := |Joined(gens[..f])| + pos; p < |Joined(gens)| && Joined(gens)[p] == gens[f][pos]
  {
    JoinedPrefix(gens, f);
    JoinedPrefix(gens, f + 1);
    var upto, p := Joined(gens[..f + 1]), |Joined(gens[..f])| + pos;
    assert upto[p] == gens[f][pos];
    assert upto == Joined(gens)[..|upto|];
  }

  lemma ReadLineExact(s: State)
    requires Shape(s) && ExactlyOnce(s) && CanStep(s, ReadLine)
    ensures ExactlyOnce(Apply(s, ReadLine))
  {
    JoinedAt(s.files.gens, s.r.f, s.r.pos);
    SliceSnoc(Written(s), s.offset, Position(s));
  }

  // ---- Which opens are exact ----

  /** An open at generation `last`, with `pos` lines of generation `f` read, passes over no line and goes
      back over none. */
  predicate NothingBetween(gens: seq<seq<Line>>, f: nat, pos: nat, last: nat)
    requires last < |gens|
  {
    if last <= f then pos == 0 else pos == |gens[f]| && forall g :: f < g < last ==> gens[g] == []
  }

  /** Every step but an open is exact, and so is an open that fails. */
  predicate OpenIsExact(s: State, step: Step) {
    var gens, r := s.files.gens, s.r;
    s.files.present && gens != [] ==>
      && (step == OpenFirstFile ==> forall g :: 0 <= g < |gens| - 1 ==> gens[g] == [])
      && (step == ReopenPath ==> NothingBetween(gens, r.f, r.pos, |gens| - 1))
  }

  lemma {:induction false} JoinedBetween(gens: seq<seq<Line>>, f: nat, last: nat)
    requires f < last < |gens|
    ensures |Joined(gens[..last])| >= |Joined(gens[..f])| + |gens[f]|
    ensures |Joined(gens[..last])| == |Joined(gens[..f])| + |gens[f]| <==> forall g :: f < g < last ==> gens[g] == []
    decreases last
  {
    JoinedPrefix(gens, last - 1);
    if last == f + 1 {
    } else {
      JoinedBetween(gens, f, last - 1);
    }
  }

  lemma FirstPlace(gens: seq<seq<Line>>)
    requires gens != []
    ensures |Joined(gens[..|gens| - 1])| == 0 <==> forall g :: 0 <= g < |gens| - 1 ==> gens[g] == []
  {
    assert gens[..0] == [];
    if |gens| > 1 {
      JoinedBetween(gens, 0, |gens| - 1);
    }
  }

  lemma ReopenPlace(gens: seq<seq<Line>>, f: nat, pos: nat, last: nat)
    requires f <= last < |gens| && pos <= |gens[f]|
    ensures |Joined(gens[..last])| == |Joined(gens[..f])| + pos <==> NothingBetween(gens, f, pos, last)
  {
    if f < last {
      JoinedBetween(gens, f, last);
    }
  }

  /** The reader's place after an open is its place before it exactly when the open is exact. */
  lemma OpenPlace(s: State, step: Step)
    requires Shape(s) && CanStep(s, step) && (step == OpenFirstFile || step == ReopenPath)
    ensures Position(Apply(s, step)) == Position(s) <==> OpenIsExact(s, step)
    ensures Position(Apply(s, step)) <= |Written(s)| || Position(Apply(s, step)) == Position(s)
  {
    var gens, last := s.files.gens, |s.files.gens| - 1;
    if s.files.present {
      JoinedPrefix(gens, last);
      if step == OpenFirstFile {
        assert gens[..0] == [];
        FirstPlace(gens);
      } else {
        ReopenPlace(gens, s.r.f, s.r.pos, last);
      }
    }
  }

  lemma OpenIsExactIff(s: State, step: Step)
    requires Shape(s) && ExactlyOnce(s) && CanStep(s, step) && (step == OpenFirstFile || step == ReopenPath)
    ensures ExactlyOnce(Apply(s, step)) <==> OpenIsExact(s, step)
  {
    var t := Apply(s, step);
    OpenPlace(s, step);
    assert t.r.mirrored == s.r.mirrored && Written(t) == Written(s) && t.offset == s.offset;
    if ExactlyOnce(t) {
      assert |t.r.mirrored| == Position(t) - t.offset;
      assert |s.r.mirrored| == Position(s) - s.offset;
    }
  }

  lemma ShapeStep(s: State, step: Step)
    requires Shape(s) && CanStep(s, step)
    ensures Shape(Apply(s, step))
  {
    if step.Write? || step == Create {
      WriterPlace(s, step);
    }
  }

  /** A step keeps the mirrored lines exact precisely when it is not an open that passes over a line or
      goes back over one. */
  lemma StepIsExactIff(s: State, step: Step)
    requires Shape(s) && ExactlyOnce(s) && CanStep(s, step)
    ensures ExactlyOnce(Apply(s, step)) <==> OpenIsExact(s, step)
  {
    match step
    case Write(_) | Create =>
      WriterPlace(s, step);
      ExactlyOnceKept(s, Apply(s, step));
    case ReadLine => ReadLineExact(s);
    case OpenFirstFile | ReopenPath => OpenIsExactIff(s, step);
    case MoveAway | CancelContext | DrainEnds | FindFirst | StatPath | SelectNext =>
      assert Position(Apply(s, step)) == Position(s);
  }

  // ---- Steady runs ----

  lemma SteadyOpens(s: State, step: Step)
    requires Shape(s) && SteadyShape(s) && CanStep(s, step) && Apply(s, step).steady
    ensures OpenIsExact(s, step)
  {
  }

  lemma SteadyShapeStep(s: State, step: Step)
    requires Shape(s) && SteadyShape(s) && CanStep(s, step) && Apply(s, step).steady
    ensures SteadyShape(Apply(s, step))
  {
    if (step.Write? || step == Create) && s.r.pc == Reopen {
      GrownKeeps(s.files.gens, step, s.r.f);
    }
  }

  lemma InvStep(s: State, step: Step)
    requires Inv(s) && CanStep(s, step)
    ensures Inv(Apply(s, step))
  {
    ShapeStep(s, step);
    if Apply(s, step).steady {
      SteadyOpens(s, step);
      SteadyShapeStep(s, step);
      StepIsExactIff(s, step);
    }
  }

  // ---- Shutdown ----

  /** What had been written when the context was cancelled stays where it is in the history. */
  predicate CancelShape(s: State) {
    var gens := s.files.gens;
    && s.offset <= |Written(s)|
    && (s.r.closing || s.r.pc == Returned ==> s.cancel.Cancelled?)
    && (s.r.pc == Returned ==> s.r.closing)
    && (s.cancel.Cancelled? ==>
         && s.cancel.gens <= |gens| && s.cancel.written <= Joined(gens[..s.cancel.gens])
         && s.offset <= |s.cancel.written|
         && s.cancel.passes == if s.r.pc == Returned then 2 else if s.r.closing then 1 else 0)
  }

  /** The pass after the one that saw the cancellation reaches everything written before it. */
  predicate Catching(s: State) {
    s.r.closing && s.cancel.Cancelled? ==>
      && (s.r.pc == Stat && s.cancel.gens <= s.r.f + 1 ==> |s.cancel.written| <= Position(s))
      && (s.r.pc == Drain3 ==> s.cancel.gens <= s.r.f + 1)
      && (s.r.pc == Select || s.r.pc == Returned ==> |s.cancel.written| <= Position(s))
  }

  predicate FullInv(s: State) {
    Inv(s) && CancelShape(s) && Catching(s)
  }

  lemma {:induction false} JoinedMonotone(gens: seq<seq<Line>>, m: nat, n: nat)
    requires m <= n <= |gens|
    ensures Joined(gens[..m]) <= Joined(gens[..n])
  {
    assert gens[..n][..m] == gens[..m];
    JoinedPrefix(gens[..n], m);
  }

  /** At the end of a drain the reader has everything up to the end of its generation. */
  lemma DrainReaches(s: State)
    requires Shape(s) && CanStep(s, DrainEnds)
    ensures Position(s) == |Joined(s.files.gens[..s.r.f + 1])|
    ensures ExactlyOnce(s) ==> s.r.mirrored == Joined(s.files.gens[..s.r.f + 1])[s.offset..]
  {
    JoinedPrefix(s.files.gens, s.r.f);
    JoinedPrefix(s.files.gens, s.r.f + 1);
  }

  lemma DrainCatchesUp(s: State)
    requires Shape(s) && CancelShape(s) && CanStep(s, DrainEnds)
    requires s.cancel.Cancelled? && s.cancel.gens <= s.r.f + 1
    ensures |s.cancel.written| <= Position(s)
  {
    DrainReaches(s);
    JoinedMonotone(s.files.gens, s.cancel.gens, s.r.f + 1);
  }

  /** What stood in the first `n` generations still does after a step of the writer. */
  lemma PrefixKept(gens: seq<seq<Line>>, step: Step, n: nat)
    requires n <= |gens| && (step == Create || (step.Write? && gens != []))
    ensures n <= |Grown(gens, step)| && Joined(gens[..n]) <= Joined(Grown(gens, step)[..n])
  {
    var gens' := Grown(gens, step);
    if n < |gens| {
      GrownKeeps(gens, step, n);
    } else {
      GrownHistory(gens, step);
      assert gens[..n] == gens;
      assert gens'[..n] == if step == Create then gens else gens';
    }
  }

  lemma WriterCancelStep(s: State, step: Step)
    requires Shape(s) && CancelShape(s) && CanStep(s, step) && (step.Write? || step == Create)
    ensures CancelShape(Apply(s, step)) && (Catching(s) ==> Catching(Apply(s, step)))
  {
    WriterPlace(s, step);
    if s.cancel.Cancelled? {
      PrefixKept(s.files.gens, step, s.cancel.gens);
    }
  }

  lemma CancelShapeStep(s: State, step: Step)
    requires Shape(s) && CancelShape(s) && CanStep(s, step)
    ensures CancelShape(Apply(s, step))
  {
    match step
    case Write(_) | Create => WriterCancelStep(s, step);
    case CancelContext => assert s.files.gens[..|s.files.gens|] == s.files.gens;
    case MoveAway | ReadLine | DrainEnds | FindFirst | OpenFirstFile | StatPath | ReopenPath | SelectNext =>
  }

  lemma CatchingStep(s: State, step: Step)
    requires Shape(s) && CancelShape(s) && Catching(s) && CanStep(s, step)
    ensures Catching(Apply(s, step))
  {
    match step
    case Write(_) | Create => WriterCancelStep(s, step);
    case DrainEnds =>
      if s.cancel.Cancelled? && s.cancel.gens <= s.r.f + 1 {
        DrainCatchesUp(s);
      }
    case MoveAway | CancelContext | ReadLine | FindFirst | OpenFirstFile | StatPath | ReopenPath | SelectNext =>
  }

  lemma FullStep(s: State, step: Step)
    requires FullInv(s) && CanStep(s, step)
    ensures FullInv(Apply(s, step))
  {
    InvStep(s, step);
    CancelShapeStep(s, step);
    CatchingStep(s, step);
  }

  // ---- Runs ----

  predicate IsRun(s: State, steps: seq<Step>)
    decreases |steps|
  {
    steps == [] || (CanStep(s, steps[0]) && IsRun(Apply(s, steps[0]), steps[1..]))
  }

  function After(s: State, steps: seq<Step>): State
    requires IsRun(s, steps)
    decreases |steps|
  {
    if steps == [] then s else After(Apply(s, steps[0]), steps[1..])
  }

  lemma {:induction false} InvAlong(s: State, steps: seq<Step>)
    requires FullInv(s) && IsRun(s, steps)
    ensures FullInv(After(s, steps))
    decreases |steps|
  {
    if steps == [] {
    } else {
      FullStep(s, steps[0]);
      InvAlong(Apply(s, steps[0]), steps[1..]);
    }
  }

  lemma RunInv(s: State, steps: seq<Step>)
    requires IsInit(s) && IsRun(s, steps)
    ensures FullInv(After(s, steps))
  {
    InitInv(s);
    InvAlong(s, steps);
  }

  lemma StartInv(s: State, from: nat)
    requires StartsAt(s, from)
    ensures IsInit(s) && s.offset == from
  {
  }

  /** Whatever the writer does between the reader's steps: as long as every open found the next
      generation, each line from the start on has been mirrored once and in order. */
  lemma TailsExactlyOnce(s: State, from: nat, steps: seq<Step>)
    requires StartsAt(s, from) && IsRun(s, steps) && After(s, steps).steady
    ensures ExactFrom(After(s, steps), from)
  {
    StartInv(s, from);
    RunInv(s, steps);
    OffsetKept(s, steps);
  }

  /** The mirrored lines are exact in every state of a run. */
  predicate ExactAlong(s: State, from: nat, steps: seq<Step>)
    requires IsRun(s, steps)
    decreases |steps|
  {
    ExactFrom(s, from) && (steps == [] || ExactAlong(Apply(s, steps[0]), from, steps[1..]))
  }

  /** No open of a run passes over a line or goes back over one. */
  predicate OpensAlong(s: State, steps: seq<Step>)
    requires IsRun(s, steps)
    decreases |steps|
  {
    steps == [] || (OpenIsExact(s, steps[0]) && OpensAlong(Apply(s, steps[0]), steps[1..]))
  }

  lemma {:induction false} ExactIff(s: State, steps: seq<Step>)
    requires IsRun(s, steps) && Shape(s) && ExactlyOnce(s)
    ensures ExactAlong(s, s.offset, steps) <==> OpensAlong(s, steps)
    decreases |steps|
  {
    if steps == [] {
    } else {
      var t := Apply(s, steps[0]);
      ShapeStep(s, steps[0]);
      StepIsExactIff(s, steps[0]);
      if ExactlyOnce(t) {
        ExactIff(t, steps[1..]);
      } else {
        NotExactAlong(t, steps[1..]);
      }
    }
  }

  lemma NotExactAlong(s: State, steps: seq<Step>)
    requires IsRun(s, steps) && !ExactlyOnce(s)
    ensures !ExactAlong(s, s.offset, steps)
  {
  }

  /** A run mirrors every line from its start on once and in order, at every point, exactly when no open in it
      passes over a line or goes back over one. */
  lemma RunIsExactIff(s: State, from: nat, steps: seq<Step>)
    requires StartsAt(s, from) && IsRun(s, steps)
    ensures ExactAlong(s, from, steps) <==> OpensAlong(s, steps)
  {
    StartInv(s, from);
    InitInv(s);
    ExactIff(s, steps);
  }

  /** The goroutine returns at the second select after the cancellation. Then, unless an open has passed over
      lines or gone back over some, every line written before the cancellation has been mirrored. */
  lemma ShutdownIsComplete(s: State, from: nat, steps: seq<Step>)
    requires StartsAt(s, from) && IsRun(s, steps)
    ensures var t := After(s, steps);
            && (t.cancel.Cancelled? ==> t.cancel.passes <= 2)
            && (t.r.pc == Returned ==> t.cancel.Cancelled? && t.cancel.passes == 2)
            && (t.r.pc == Returned && ExactFrom(t, from) ==>
                 from <= |t.cancel.written| && t.cancel.written[from..] <= t.r.mirrored)
  {
    StartInv(s, from);
    RunInv(s, steps);
    var t := After(s, steps);
    OffsetKept(s, steps);
    if t.r.pc == Returned && ExactlyOnce(t) {
      var n := t.cancel.gens;
      JoinedPrefix(t.files.gens, n);
      assert t.cancel.written <= Written(t);
    }
  }

  lemma {:induction false} OffsetKept(s: State, steps: seq<Step>)
    requires IsRun(s, steps)
    ensures After(s, steps).offset == s.offset
    decreases |steps|
  {
    if steps == [] {
    } else {
      OffsetKept(Apply(s, steps[0]), steps[1..]);
    }
  }

  /** What the cancellation records is what had been written by then. */
  lemma CancelledAt(s: State, steps: seq<Step>)
    requires s.cancel.Running? && IsRun(Apply(s, CancelContext), steps)
    ensures After(Apply(s, CancelContext), steps).cancel.Cancelled?
    ensures After(Apply(s, CancelContext), steps).cancel.written == Written(s)
  {
    CancelStays(Apply(s, CancelContext), steps);
  }

  lemma {:induction false} CancelStays(s: State, steps: seq<Step>)
    requires s.cancel.Cancelled? && IsRun(s, steps)
    ensures After(s, steps).cancel.Cancelled? && After(s, steps).cancel.written == s.cancel.written
    decreases |steps|
  {
    if steps == [] {
    } else {
      CancelStays(Apply(s, steps[0]), steps[1..]);
    }
  }

  predicate IsReaderStep(step: Step) {
    !(step.Write? || step == MoveAway || step == Create || step == CancelContext)
  }

  predicate HasEnded(s: State) {
    s.r.pc == Returned || s.r.pc == Failed
  }

  /** The reader waits for nothing but a missing file, and not for that once it is cancelled: it can move until
      it has returned or failed. */
  lemma ReaderMoves(s: State) returns (step: Step)
    requires Shape(s) && (s.cancel.Cancelled? || s.files.present) && !HasEnded(s)
    ensures CanStep(s, step) && IsReaderStep(step)
  {
    match s.r.pc
    case AwaitFirst => step := FindFirst;
    case OpenFirst => step := OpenFirstFile;
    case Stat => step := StatPath;
    case Reopen => step := ReopenPath;
    case Select => step := SelectNext;
    case Drain1 | Drain2 | Drain3 => step := if s.r.pos < |s.files.gens[s.r.f]| then ReadLine else DrainEnds;
  }

  function PcRank(pc: Pc): nat {
    match pc
    case AwaitFirst => 8 case OpenFirst => 7 case Drain1 => 6 case Stat => 5 case Drain2 => 4
    case Reopen => 3 case Drain3 => 2 case Select => 1 case Returned => 0 case Failed => 0
  }

  /** What a cancelled reader has left to do besides reading lines. */
  function Phase(s: State): nat {
    if HasEnded(s) then 0 else PcRank(s.r.pc) + if s.r.closing then 0 else 8
  }

  function Unread(s: State): nat
    requires Shape(s)
  {
    if s.r.f < |s.files.gens| then |s.files.gens[s.r.f]| - s.r.pos else 0
  }

  lemma PhaseFalls(s: State, step: Step)
    requires Shape(s) && s.cancel.Cancelled? && CanStep(s, step)
    ensures Apply(s, step).cancel.Cancelled?
    ensures if IsReaderStep(step) && step != ReadLine then Phase(Apply(s, step)) < Phase(s)
            else Phase(Apply(s, step)) == Phase(s)
    ensures IsReaderStep(step) ==> Apply(s, step).files == s.files
  {
  }

  function Stages(steps: seq<Step>): nat {
    if steps == [] then 0 else (if IsReaderStep(steps[0]) && steps[0] != ReadLine then 1 else 0) + Stages(steps[1..])
  }

  /** Whatever the writer does, a cancelled reader takes a bounded number of steps other than reading lines. */
  lemma {:induction false} StagesAreBounded(s: State, steps: seq<Step>)
    requires IsRun(s, steps) && Shape(s) && s.cancel.Cancelled?
    ensures Stages(steps) + Phase(After(s, steps)) <= Phase(s) <= 16
    decreases |steps|
  {
    if steps == [] {
    } else {
      ShapeStep(s, steps[0]);
      PhaseFalls(s, steps[0]);
      StagesAreBounded(Apply(s, steps[0]), steps[1..]);
    }
  }

  /** And while the writer rests, a bounded number of steps of any kind. */
  function Rank(s: State): nat
    requires Shape(s)
  {
    Phase(s) * (|Written(s)| + 1) + Unread(s)
  }

  lemma UnreadIsWritten(s: State)
    requires Shape(s)
    ensures Unread(s) <= |Written(s)|
  {
    if s.r.f < |s.files.gens| {
      JoinedPrefix(s.files.gens, s.r.f);
    }
  }

  lemma RankFalls(s: State, step: Step)
    requires Shape(s) && s.cancel.Cancelled? && CanStep(s, step) && IsReaderStep(step) && Shape(Apply(s, step))
    ensures Rank(Apply(s, step)) < Rank(s)
  {
    var t := Apply(s, step);
    PhaseFalls(s, step);
    UnreadIsWritten(t);
    if step != ReadLine {
      Lexicographic(Phase(t), Phase(s), Unread(t), |Written(s)|);
    }
  }

  lemma Lexicographic(p: nat, q: nat, u: nat, w: nat)
    requires p < q && u <= w
    ensures p * (w + 1) + u < q * (w + 1)
  {
    assert (p + 1) * (w + 1) <= q * (w + 1);
  }

  /** While the writer rests, the cancelled reader ends after a bounded number of steps. */
  lemma {:induction false} ReaderRunsAreBounded(s: State, steps: seq<Step>)
    requires IsRun(s, steps) && Shape(s) && s.cancel.Cancelled? && forall step :: step in steps ==> IsReaderStep(step)
    ensures Shape(After(s, steps)) && |steps| + Rank(After(s, steps)) <= Rank(s)
    decreases |steps|
  {
    if steps == [] {
    } else {
      ShapeStep(s, steps[0]);
      PhaseFalls(s, steps[0]);
      RankFalls(s, steps[0]);
      ReaderRunsAreBounded(Apply(s, steps[0]), steps[1..]);
    }
  }

  /** And it can always be brought to its end that way. */
  lemma {:induction false} ReaderEnds(s: State) returns (steps: seq<Step>)
    requires Shape(s) && s.cancel.Cancelled?
    ensures IsRun(s, steps) && HasEnded(After(s, steps)) && |steps| <= Rank(s)
    ensures forall step :: step in steps ==> IsReaderStep(step)
    decreases Rank(s)
  {
    steps := [];
    if !HasEnded(s) {
      var step := ReaderMoves(s);
      ShapeStep(s, step);
      PhaseFalls(s, step);
      RankFalls(s, step);
      var rest := ReaderEnds(Apply(s, step));
      steps := [step] + rest;
      assert steps[1..] == rest;
    }
  }

  // ---- The race ----

  lemma RunCons(s: State, step: Step, t: State, steps: seq<Step>) returns (longer: seq<Step>)
    requires CanStep(s, step) && Apply(s, step) == t && IsRun(t, steps)
    ensures IsRun(s, longer) && After(s, longer) == After(t, steps)
  {
    longer := [step] + steps;
    assert longer[1..] == steps;
  }

  function At(gens: seq<seq<Line>>, r: Reader, steady: bool): State {
    State(Files(gens, true), r, Running, 0, steady)
  }

  /** The reader has found the second generation at the path and is about to open it when the file is
      rotated again: by then the second one holds `a`, the third one `b`. */
  function Raced(a: Line, b: Line): State {
    At([[], [a], [b]], Reader(Reopen, 0, 0, 0, 1, false, []), true)
  }

  lemma WriteFirst(older: seq<seq<Line>>, line: Line)
    ensures Write1(older + [[]], line) == older + [[line]]
  {
    var none: seq<Line> := [];
    assert none + [line] == [line];
    assert (older + [[]])[..|older|] == older;
  }

  lemma RacedIsReachable(a: Line, b: Line, rest: seq<Step>) returns (steps: seq<Step>)
    requires IsRun(Raced(a, b), rest)
    ensures IsRun(InitExisting([], true), steps) && After(InitExisting([], true), steps) == After(Raced(a, b), rest)
  {
    var g1, g2 := [[], []], [[], [a]];
    var s0 := InitExisting([], true);
    var s1 := At([[]], Reader(Stat, 0, 0, 0, 0, false, []), true);
    var s2 := s1.(files := Files([[]], false));
    var s3 := At(g1, s1.r, true);
    var s4 := At(g1, Reader(Drain2, 0, 0, 0, 1, false, []), true);
    var s5 := At(g1, Reader(Reopen, 0, 0, 0, 1, false, []), true);
    var s6 := At(g2, s5.r, true);
    var s7 := s6.(files := Files(g2, false));
    var s8 := At([[], [a], []], s5.r, true);
    WriteFirst(g2, b);
    assert g2 + [[]] == s8.files.gens && g2 + [[b]] == [[], [a], [b]];
    WriteFirst([[]], a);
    assert [[]] + [[]] == g1 && [[]] + [[a]] == g2;
    steps := RunCons(s8, Write(b), Raced(a, b), rest);
    steps := RunCons(s7, Create, s8, steps);
    steps := RunCons(s6, MoveAway, s7, steps);
    steps := RunCons(s5, Write(a), s6, steps);
    steps := RunCons(s4, DrainEnds, s5, steps);
    steps := RunCons(s3, StatPath, s4, steps);
    steps := RunCons(s2, Create, s3, steps);
    steps := RunCons(s1, MoveAway, s2, steps);
    steps := RunCons(s0, DrainEnds, s1, steps);
  }

  lemma RacedRun(a: Line, b: Line) returns (steps: seq<Step>)
    ensures IsRun(Raced(a, b), steps)
    ensures var t := After(Raced(a, b), steps); t.files.gens == [[], [a], [b]] && t.r.mirrored == [b, b]
  {
    var g := [[], [a], [b]];
    steps := RacedAgain(a, b);
    // it opens the third generation, remembering the second
    var s1 := At(g, Reader(Drain3, 2, 0, 1, 1, false, []), false);
    var s2 := At(g, Reader(Drain3, 2, 1, 1, 1, false, [b]), false);
    var s3 := At(g, Reader(Select, 2, 1, 1, 1, false, [b]), false);
    var s4 := At(g, Reader(Drain1, 2, 1, 1, 1, false, [b]), false);
    var s5 := At(g, Reader(Stat, 2, 1, 1, 1, false, [b]), false);
    steps := RunCons(s4, DrainEnds, s5, steps);
    steps := RunCons(s3, SelectNext, s4, steps);
    steps := RunCons(s2, DrainEnds, s3, steps);
    steps := RunCons(s1, ReadLine, s2, steps);
    steps := RunCons(Raced(a, b), ReopenPath, s1, steps);
  }

  /** The stat finds another file than the one remembered, so the same one is opened again. */
  lemma RacedAgain(a: Line, b: Line) returns (steps: seq<Step>)
    ensures var s := At([[], [a], [b]], Reader(Stat, 2, 1, 1, 1, false, [b]), false);
            IsRun(s, steps) && var t := After(s, steps); t.files.gens == [[], [a], [b]] && t.r.mirrored == [b, b]
  {
    var g := [[], [a], [b]];
    var s5 := At(g, Reader(Stat, 2, 1, 1, 1, false, [b]), false);
    var s6 := At(g, Reader(Drain2, 2, 1, 1, 2, false, [b]), false);
    var s7 := At(g, Reader(Reopen, 2, 1, 1, 2, false, [b]), false);
    var s8 := At(g, Reader(Drain3, 2, 0, 2, 2, false, [b]), false);
    var s9 := At(g, Reader(Drain3, 2, 1, 2, 2, false, [b, b]), false);
    steps := RunCons(s8, ReadLine, s9, []);
    steps := RunCons(s7, ReopenPath, s8, steps);
    steps := RunCons(s6, DrainEnds, s7, steps);
    steps := RunCons(s5, StatPath, s6, steps);
  }

  /** Without that hypothesis the property fails: when the file is rotated twice between the reader's
      stat and its open, a line is never mirrored and another is mirrored twice. */
  lemma RaceLosesAndRepeats(a: Line, b: Line) returns (steps: seq<Step>)
    ensures IsRun(InitExisting([], true), steps)
    ensures var t := After(InitExisting([], true), steps); Written(t) == [a, b] && t.r.mirrored == [b, b]
  {
    var rest := RacedRun(a, b);
    steps := RacedIsReachable(a, b, rest);
    var g := [[], [a], [b]];
    JoinedPrefix(g, 1);
    JoinedPrefix(g, 2);
    assert g[..3] == g && g[..0] == [];
    JoinedPrefix(g, 0);
  }
}
