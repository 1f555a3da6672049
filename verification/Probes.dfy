/**
 The state that the probe socket keeps, and the log lines it emits, against the whole stream of events
 it has received. Times are milliseconds; `now` is the clock when an event is handled.
 */
module Probes {
  import opened Basics

  datatype Kind = Liveness | Startup | OtherKind

  datatype Status = Incomplete | Passed | Failed | OtherStatus

  const ERROR: int := 1

  datatype Run = Run(kind: Kind, start: Option<int>, end: Option<int>, status: Status, duration: Option<int>,
                     message: string, level: int, attempts: int)

  datatype Event = Event(socket: string, run: Run, now: int)

  /** A line of the log, and the socket that it is for. */
  datatype Entry = Entry(socket: string, error: bool, message: string)

  const NO_RUN: Run := Run(OtherKind, None, None, OtherStatus, None, "", 0, 0)

  predicate Starts(e: Event, kind: Kind) {
    e.run.kind == kind && e.run.status == Incomplete
  }

  predicate Completes(e: Event, kind: Kind) {
    e.run.kind == kind && (e.run.status == Passed || e.run.status == Failed)
  }

  // ---- Liveness runs ----

  predicate NoneEmpty(gs: seq<seq<Event>>) {
    forall k :: 0 <= k < |gs| ==> gs[k] != [] && gs[k][0].run.kind == Liveness
  }

  /** The liveness events, cut in front of each one that starts a run. */
  function Groups(es: seq<Event>): (r: seq<seq<Event>>)
    ensures NoneEmpty(r)
  {
    if es == [] then [] else Grouped(Groups(es[..|es| - 1]), es[|es| - 1])
  }

  function Grouped(gs: seq<seq<Event>>, e: Event): (r: seq<seq<Event>>)
    requires NoneEmpty(gs)
    ensures NoneEmpty(r)
  {
    if Starts(e, Liveness) || (Completes(e, Liveness) && gs == []) then gs + [[e]]
    else if Completes(e, Liveness) then gs[|gs| - 1 := gs[|gs| - 1] + [e]]
    else gs
  }

  function Completed(run: Run, last: Run): Run {
    run.(end := last.end, status := last.status, duration := last.duration,
         message := last.message, level := last.level)
  }

  /** A run as it was started, with the outcome of the last completion. */
  function RunOf(g: seq<Event>): Run
    requires g != []
  {
    var last := g[|g| - 1].run;
    if |g| == 1 then last
    else Completed(g[0].run, last)
  }

  /** A run that is superseded while it is incomplete gets the time it has taken so far. */
  function Superseded(run: Run, now: int): Run {
    if run.status == Incomplete && run.start.Some? && run.duration.None?
    then run.(duration := Some(now - run.start.value))
    else run
  }

  /** The `k`-th run. */
  function RunAt(gs: seq<seq<Event>>, k: int): Run
    requires 0 <= k < |gs| && NoneEmpty(gs)
  {
    if k == |gs| - 1 then RunOf(gs[k]) else Superseded(RunOf(gs[k]), gs[k + 1][0].now)
  }

  /** The `k`-th run from the end. */
  function Recent(gs: seq<seq<Event>>, k: nat): Run
    requires NoneEmpty(gs)
  {
    if k < |gs| then RunAt(gs, |gs| - 1 - k) else NO_RUN
  }

  // ---- Startup attempts ----

  function Started(es: seq<Event>): nat {
    if es == [] then 0 else Started(es[..|es| - 1]) + if Starts(es[|es| - 1], Startup) then 1 else 0
  }

  /** The count that the very first startup event brings when it is a completion: nothing overwrites it. */
  function Brought(es: seq<Event>): int {
    if es == [] then 0
    else if Starts(es[0], Startup) then 0
    else if Completes(es[0], Startup) then es[0].run.attempts
    else Brought(es[1..])
  }

  function Attempts(es: seq<Event>): int {
    Started(es) + Brought(es)
  }

  /** The last startup event, with the number of attempts so far. */
  function StartupRun(es: seq<Event>): Option<Run> {
    if es == [] then None
    else
      var e := es[|es| - 1];
      if Starts(e, Startup) || Completes(e, Startup) then Some(e.run.(attempts := Attempts(es)))
      else StartupRun(es[..|es| - 1])
  }

  // ---- The log ----

  /** Completions whose message counts as the latest on their socket. */
  predicate Records(e: Event) {
    Completes(e, Liveness) || (Completes(e, Startup) && e.run.level != ERROR)
  }

  function LastMessage(es: seq<Event>, socket: string): string {
    if es == [] then ""
    else if Records(es[|es| - 1]) && es[|es| - 1].socket == socket then es[|es| - 1].run.message
    else LastMessage(es[..|es| - 1], socket)
  }

  /** Liveness errors always; otherwise a message that differs from the one before it on its socket. Never a
      startup error. */
  predicate Emits(before: seq<Event>, e: Event) {
    Records(e) && (e.run.level == ERROR || e.run.message != LastMessage(before, e.socket))
  }

  function EntryOf(e: Event): Entry {
    Entry(e.socket, e.run.level == ERROR, e.run.message)
  }

  function Emitted(es: seq<Event>): seq<Entry> {
    if es == [] then []
    else
      var before, e := es[..|es| - 1], es[|es| - 1];
      Emitted(before) + if Emits(before, e) then [EntryOf(e)] else []
  }

  datatype Log = Log(last: map<string, string>, entries: seq<Entry>)

  function Lookup(last: map<string, string>, socket: string): string {
    if socket in last then last[socket] else ""
  }

  /** The log as it is kept: only what is emitted is remembered. */
  function Logged(log: Log, e: Event): Log {
    if Records(e) && (e.run.level == ERROR || e.run.message != Lookup(log.last, e.socket))
    then Log(log.last[e.socket := e.run.message], log.entries + [EntryOf(e)])
    else log
  }

  function LogOf(es: seq<Event>): Log {
    if es == [] then Log(map[], []) else Logged(LogOf(es[..|es| - 1]), es[|es| - 1])
  }

  /** Remembering only what is emitted is enough. */
  lemma {:induction false} LogIsEmitted(es: seq<Event>)
    ensures LogOf(es).entries == Emitted(es)
    ensures forall socket :: Lookup(LogOf(es).last, socket) == LastMessage(es, socket)
    decreases |es|
  {
    if es == [] {
    } else {
      LogIsEmitted(es[..|es| - 1]);
      Unit(Emitted(es[..|es| - 1]));
    }
  }

  // ---- The socket ----

  class ProbeLoggingSocket {
    // LivenessProbeLoggingState
    var currentRun: Option<Run>
    const previousRuns: array<Run>
    // StartupProbeLoggingState
    var startupRun: Option<Run>
    var lastLog: map<string, string>
    var output: seq<Entry>
    ghost var events: seq<Event>

    /** The current run and the two before it are the latest three of all runs. */
    ghost predicate ShowsRuns(gs: seq<seq<Event>>)
      requires NoneEmpty(gs)
      reads this`currentRun, previousRuns
    {
      && previousRuns.Length == 2
      && currentRun == (if gs == [] then None else Some(Recent(gs, 0)))
      && previousRuns[0] == Recent(gs, 1)
      && previousRuns[1] == Recent(gs, 2)
    }

    ghost predicate ShowsLog(es: seq<Event>)
      reads this`lastLog, this`output
    {
      Log(lastLog, output) == LogOf(es)
    }

    function LastLog(socket: string): string
      reads this`lastLog
    {
      Lookup(lastLog, socket)
    }

    /** The state is what the whole stream of events says it is. */
    ghost predicate Valid()
      reads this, previousRuns
    {
      ShowsRuns(Groups(events)) && startupRun == StartupRun(events) && ShowsLog(events)
    }

    constructor ()
      ensures Valid() && events == [] && fresh(previousRuns)
    {
      currentRun, startupRun, lastLog, output, events := None, None, map[], [], [];
      previousRuns := new Run[2](_ => NO_RUN);
    }

    /** Handles one event. */
    method HandleConnection(e: Event)
      requires Valid()
      modifies this, previousRuns
      ensures Valid() && events == old(events) + [e]
    {
      ghost var after := events + [e];
      LivenessSnoc(events, e);
      StartupSnoc(events, e);
      Front(events, e);
      if e.run.kind == Liveness {
        HandleLivenessProbe(e, Groups(events), Groups(after));
      } else if e.run.kind == Startup {
        HandleStartupProbe(e);
      }
      events := after;
    }

    method HandleLivenessProbe(e: Event, ghost gs: seq<seq<Event>>, ghost gs': seq<seq<Event>>)
      requires e.run.kind == Liveness && NoneEmpty(gs) && NoneEmpty(gs') && NextRuns(gs, e, gs') && ShowsRuns(gs)
      modifies this`currentRun, this`lastLog, this`output, previousRuns
      ensures ShowsRuns(gs')
      ensures Logs(Records(e) && (e.run.level == ERROR || old(LastLog(e.socket)) != e.run.message), e)
    {
      match e.run.status
      case Incomplete =>
        if currentRun.Some? {
          var run := currentRun.value;
          if run.status == Incomplete && run.start.Some? && run.duration.None? {
            run := run.(duration := Some(e.now - run.start.value));
          }
          previousRuns[1] := previousRuns[0];
          previousRuns[0] := run;
        }
        currentRun := Some(e.run);
      case Passed | Failed =>
        if currentRun.Some? {
          var run := currentRun.value;
          run := run.(end := e.run.end);
          run := run.(status := e.run.status);
          run := run.(duration := e.run.duration);
          run := run.(message := e.run.message);
          run := run.(level := e.run.level);
          currentRun := Some(run);
        } else {
          currentRun := Some(e.run);
        }
        DedupLog(e.socket, currentRun.value.level == ERROR, currentRun.value.message, currentRun.value.kind);
      case OtherStatus =>
    }

    method HandleStartupProbe(e: Event)
      requires e.run.kind == Startup
      modifies this`startupRun, this`lastLog, this`output
      ensures NextStartup(old(startupRun), e, startupRun)
      ensures Logs(Records(e) && old(LastLog(e.socket)) != e.run.message, e)
    {
      match e.run.status
      case Incomplete =>
        var attempts := 1;
        if startupRun.Some? {
          attempts := startupRun.value.attempts + 1;
        }
        startupRun := Some(e.run.(attempts := attempts));
      case Passed | Failed =>
        var run := e.run;
        if startupRun.Some? {
          run := run.(attempts := startupRun.value.attempts);
        }
        startupRun := Some(run);
        DedupLog(e.socket, run.level == ERROR, run.message, run.kind);
      case OtherStatus =>
    }

    /** The message is emitted and remembered, or nothing changes. */
    twostate predicate Emit(emits: bool, socket: string, error: bool, message: string)
      reads this`lastLog, this`output
    {
      if emits
      then lastLog == old(lastLog)[socket := message] && output == old(output) + [Entry(socket, error, message)]
      else lastLog == old(lastLog) && output == old(output)
    }

    twostate predicate Logs(emits: bool, e: Event)
      reads this`lastLog, this`output
    {
      Emit(emits, e.socket, e.run.level == ERROR, e.run.message)
    }

    method DedupLog(socket: string, error: bool, message: string, kind: Kind)
      modifies this`lastLog, this`output
      ensures kind == Liveness ==> Emit(error || old(LastLog(socket)) != message, socket, error, message)
      ensures kind == Startup ==> Emit(!error && old(LastLog(socket)) != message, socket, error, message)
      ensures kind == OtherKind ==> Emit(false, socket, error, message)
    {
      if kind == Startup {
        StartupProbeDedupLogHelper(error, socket, message);
      } else if kind == Liveness {
        LivenessProbeDedupLogHelper(error, socket, message);
      }
    }

    method StartupProbeDedupLogHelper(error: bool, socket: string, message: string)
      modifies this`lastLog, this`output
      ensures Emit(!error && old(LastLog(socket)) != message, socket, error, message)
    {
      if error {
        return;
      }
      if LastLog(socket) == message {
        return;
      }
      lastLog := lastLog[socket := message];
      output := output + [Entry(socket, false, message)];
    }

    method LivenessProbeDedupLogHelper(error: bool, socket: string, message: string)
      modifies this`lastLog, this`output
      ensures Emit(error || old(LastLog(socket)) != message, socket, error, message)
    {
      if !error && LastLog(socket) == message {
        return;
      }
      lastLog := lastLog[socket := message];
      output := output + [Entry(socket, error, message)];
    }
  }

  // ---- One more event ----

  /** What an event does to the three latest runs. */
  predicate NextRuns(gs: seq<seq<Event>>, e: Event, r: seq<seq<Event>>)
    requires NoneEmpty(gs) && NoneEmpty(r)
  {
    var was := Recent(gs, 0);
    && (gs != [] ==> was.kind == Liveness)
    && if Starts(e, Liveness) then
         && r != [] && Recent(r, 0) == e.run && Recent(r, 2) == Recent(gs, 1)
         && Recent(r, 1) == if gs == [] then NO_RUN else Superseded(was, e.now)
       else if Completes(e, Liveness) then
         && r != [] && Recent(r, 1) == Recent(gs, 1) && Recent(r, 2) == Recent(gs, 2)
         && Recent(r, 0) == if gs == [] then e.run else Completed(was, e.run)
       else r == gs
  }

  lemma GroupedNext(gs: seq<seq<Event>>, e: Event)
    requires NoneEmpty(gs)
    ensures NextRuns(gs, e, Grouped(gs, e))
  {
    var r := Grouped(gs, e);
    if Completes(e, Liveness) && gs != [] {
      assert RunOf(r[|r| - 1]) == Completed(RunOf(gs[|gs| - 1]), e.run);
    }
  }

  lemma LivenessSnoc(es: seq<Event>, e: Event)
    ensures NextRuns(Groups(es), e, Groups(es + [e]))
  {
    Front(es, e);
    GroupedNext(Groups(es), e);
  }

  predicate NextStartup(was: Option<Run>, e: Event, now: Option<Run>) {
    if Starts(e, Startup) then now == Some(e.run.(attempts := 1 + if was.Some? then was.value.attempts else 0))
    else if Completes(e, Startup) then now == Some(if was.Some? then e.run.(attempts := was.value.attempts) else e.run)
    else now == was
  }

  lemma StartupSnoc(es: seq<Event>, e: Event)
    ensures NextStartup(StartupRun(es), e, StartupRun(es + [e]))
  {
    Front(es, e);
    AttemptsSoFar(es);
    BroughtSnoc(es, e);
  }

  predicate Counts(e: Event) {
    Starts(e, Startup) || Completes(e, Startup)
  }

  lemma {:induction false} BroughtSnoc(es: seq<Event>, e: Event)
    ensures Brought(es + [e]) == if StartupRun(es).None? && Completes(e, Startup) then e.run.attempts else Brought(es)
  {
    if es == [] {
      assert [] + [e] == [e] && [e][1..] == [];
    } else {
      assert (es + [e])[1..] == es[1..] + [e];
      BroughtSnoc(es[1..], e);
      NoStartup(es);
      NoStartup(es[1..]);
    }
  }

  lemma {:induction false} NoStartup(es: seq<Event>)
    ensures StartupRun(es).None? <==> forall k :: 0 <= k < |es| ==> !Counts(es[k])
  {
    if es == [] {
    } else {
      NoStartup(es[..|es| - 1]);
    }
  }

  lemma {:induction false} AttemptsSoFar(es: seq<Event>)
    ensures match StartupRun(es)
            case Some(run) => run.attempts == Attempts(es)
            case None => Started(es) == 0 && Brought(es) == 0
  {
    if es == [] {
    } else {
      var before, e := es[..|es| - 1], es[|es| - 1];
      AttemptsSoFar(before);
      BroughtSnoc(before, e);
      assert before + [e] == es;
    }
  }

  // ---- What the specification amounts to ----

  /** When senders leave the count alone it is the number of attempts that were started. */
  lemma {:induction false} AttemptsAreStarts(es: seq<Event>)
    requires forall e :: e in es ==> e.run.attempts == 0
    ensures Attempts(es) == Started(es)
    ensures StartupRun(es).Some? ==> StartupRun(es).value.attempts == Started(es)
  {
    NothingBrought(es);
    AttemptsSoFar(es);
  }

  lemma {:induction false} NothingBrought(es: seq<Event>)
    requires forall e :: e in es ==> e.run.attempts == 0
    ensures Brought(es) == 0
  {
    if es == [] {
    } else {
      assert es[0] in es;
      NothingBrought(es[1..]);
    }
  }

  predicate IsLiveness(e: Event) {
    Starts(e, Liveness) || Completes(e, Liveness)
  }

  function LivenessEvents(es: seq<Event>): seq<Event> {
    if es == [] then []
    else LivenessEvents(es[..|es| - 1]) + if IsLiveness(es[|es| - 1]) then [es[|es| - 1]] else []
  }

  /** Only the head of a group starts a run; only the first group may have another head. */
  predicate IsGroup(gs: seq<seq<Event>>, k: int)
    requires 0 <= k < |gs|
  {
    && gs[k] != []
    && (k > 0 ==> Starts(gs[k][0], Liveness))
    && forall i :: 1 <= i < |gs[k]| ==> Completes(gs[k][i], Liveness)
  }

  /** The groups are all liveness events in order, and are divided in the only way that starts allow. */
  lemma {:induction false} GroupsDivide(es: seq<Event>)
    ensures Joined(Groups(es)) == LivenessEvents(es)
    ensures forall k :: 0 <= k < |Groups(es)| ==> IsGroup(Groups(es), k)
    decreases |es|
  {
    if es == [] {
    } else {
      var before, e := es[..|es| - 1], es[|es| - 1];
      GroupsDivide(before);
      GroupedJoined(Groups(before), e);
      GroupedDivides(Groups(before), e);
      Unit(LivenessEvents(before));
    }
  }

  lemma GroupedJoined(gs: seq<seq<Event>>, e: Event)
    requires NoneEmpty(gs)
    ensures Joined(Grouped(gs, e)) == Joined(gs) + if IsLiveness(e) then [e] else []
  {
    if Starts(e, Liveness) || (Completes(e, Liveness) && gs == []) {
      JoinedSnoc(gs, [e]);
    } else if Completes(e, Liveness) {
      JoinedLonger(gs, e);
    } else {
      Unit(Joined(gs));
    }
  }

  lemma JoinedLonger(gs: seq<seq<Event>>, e: Event)
    requires gs != []
    ensures var n := |gs| - 1; Joined(gs[n := gs[n] + [e]]) == Joined(gs) + [e]
  {
    var n := |gs| - 1;
    assert gs[n := gs[n] + [e]] == gs[..n] + [gs[n] + [e]];
    JoinedSnoc(gs[..n], gs[n] + [e]);
    Assoc(Joined(gs[..n]), gs[n], [e]);
  }

  lemma GroupedDivides(gs: seq<seq<Event>>, e: Event)
    requires NoneEmpty(gs) && forall k :: 0 <= k < |gs| ==> IsGroup(gs, k)
    ensures forall k :: 0 <= k < |Grouped(gs, e)| ==> IsGroup(Grouped(gs, e), k)
  {
    var r := Grouped(gs, e);
    forall k | 0 <= k < |r| ensures IsGroup(r, k) {
      assert k < |gs| ==> IsGroup(gs, k);
    }
  }

  // ---- What one event does ----

  predicate IsOutcome(e: Event, kind: Kind) {
    e.run.kind == kind && e.run.status in {Passed, Failed}
  }

  /** A liveness event that is INCOMPLETE is the current run; one that passes or fails gives the current run its
      status, end, duration, message and level, and leaves the rest; any other event changes nothing. */
  lemma LivenessEvent(es: seq<Event>, e: Event)
    ensures var gs, r := Groups(es), Groups(es + [e]);
            if e.run.kind == Liveness && e.run.status == Incomplete then
              |r| == |gs| + 1 && Recent(r, 0) == e.run
            else if IsOutcome(e, Liveness) then
              var run := Recent(r, 0);
              && |r| == (if gs == [] then 1 else |gs|)
              && run.status == e.run.status && run.end == e.run.end && run.duration == e.run.duration
              && run.message == e.run.message && run.level == e.run.level && run.kind == Liveness
              && run.start == (if gs == [] then e.run.start else Recent(gs, 0).start)
            else r == gs
  {
    LivenessSnoc(es, e);
    Front(es, e);
  }

  /** A run that is superseded while it is INCOMPLETE is kept with the time since its start; any other run as it is. */
  lemma SupersededRun(es: seq<Event>, e: Event)
    requires e.run.kind == Liveness && e.run.status == Incomplete && Groups(es) != []
    ensures var was, kept := Recent(Groups(es), 0), Recent(Groups(es + [e]), 1);
            && (was.status != Incomplete || was.start.None? || was.duration.Some? ==> kept == was)
            && (was.status == Incomplete && was.start.Some? && was.duration.None? ==>
                 kept.duration == Some(e.now - was.start.value) && kept.(duration := None) == was)
  {
    LivenessSnoc(es, e);
  }

  /** A startup event that is INCOMPLETE adds an attempt; one that passes or fails leaves their number. */
  lemma StartupEvent(es: seq<Event>, e: Event)
    ensures var was, now := StartupRun(es), StartupRun(es + [e]);
            if e.run.kind == Startup && e.run.status == Incomplete then
              now == Some(e.run.(attempts := if was.Some? then was.value.attempts + 1 else 1))
            else if IsOutcome(e, Startup) then
              now == Some(e.run.(attempts := if was.Some? then was.value.attempts else e.run.attempts))
            else now == was
  {
    StartupSnoc(es, e);
  }

  /** Of the events that pass or fail: a liveness error is always emitted and a startup error never; any other is
      emitted when its message is not the latest on its socket. It becomes the latest, unless it is a startup error.
      No other event is emitted or remembered. */
  lemma LogEvent(es: seq<Event>, e: Event)
    ensures var error, latest := e.run.level == 1, LastMessage(es, e.socket);
            var counts := IsOutcome(e, Liveness) || (IsOutcome(e, Startup) && !error);
            var emits := counts && (error || e.run.message != latest);
            && Emitted(es + [e]) == Emitted(es) + (if emits then [Entry(e.socket, error, e.run.message)] else [])
            && LastMessage(es + [e], e.socket) == (if counts then e.run.message else latest)
    ensures forall s :: s != e.socket ==> LastMessage(es + [e], s) == LastMessage(es, s)
  {
    Front(es, e);
  }

  // ---- The log of one socket ----

  function On(entries: seq<Entry>, socket: string): seq<Entry> {
    if entries == [] then []
    else
      var h, entry := entries[..|entries| - 1], entries[|entries| - 1];
      On(h, socket) + if entry.socket == socket then [entry] else []
  }

  /** The completions on a socket whose messages count. */
  function Recorded(es: seq<Event>, socket: string): (r: seq<Event>)
    ensures forall e :: e in r ==> e in es && Records(e) && e.socket == socket
  {
    if es == [] then []
    else
      var e := es[|es| - 1];
      Recorded(es[..|es| - 1], socket) + if Records(e) && e.socket == socket then [e] else []
  }

  function Newest(rs: seq<Event>): string {
    if rs == [] then "" else rs[|rs| - 1].run.message
  }

  /** Every error, and every other message that is not the same as the one before it. */
  function Pruned(rs: seq<Event>): seq<Entry> {
    if rs == [] then []
    else
      var h, e := rs[..|rs| - 1], rs[|rs| - 1];
      Pruned(h) + if e.run.level == ERROR || e.run.message != Newest(h) then [EntryOf(e)] else []
  }

  lemma OnSnoc(entries: seq<Entry>, entry: Entry, socket: string)
    ensures On(entries + [entry], socket) == On(entries, socket) + if entry.socket == socket then [entry] else []
  {
    Front(entries, entry);
  }

  lemma PrunedSnoc(rs: seq<Event>, e: Event)
    ensures Pruned(rs + [e]) ==
            Pruned(rs) + if e.run.level == ERROR || e.run.message != Newest(rs) then [EntryOf(e)] else []
    ensures Newest(rs + [e]) == e.run.message
  {
    Front(rs, e);
  }

  /** Whatever happens on the other socket, the log of a socket is every error on it and every message that
      differs from the one before it there. */
  lemma {:induction false} SocketLog(es: seq<Event>, socket: string)
    ensures On(Emitted(es), socket) == Pruned(Recorded(es, socket))
    ensures LastMessage(es, socket) == Newest(Recorded(es, socket))
    decreases |es|
  {
    if es == [] {
    } else {
      var before, e := es[..|es| - 1], es[|es| - 1];
      SocketLog(before, socket);
      if Emits(before, e) {
        OnSnoc(Emitted(before), EntryOf(e), socket);
      } else {
        Unit(Emitted(before));
      }
      Unit(On(Emitted(before), socket));
      if Records(e) && e.socket == socket {
        PrunedSnoc(Recorded(before, socket), e);
      } else {
        Unit(Recorded(before, socket));
      }
    }
  }

  function Messages(es: seq<Event>): (r: seq<string>)
    ensures |r| == |es|
  {
    seq(|es|, i requires 0 <= i < |es| => es[i].run.message)
  }

  /** A message that is not the same as the one before it, taking "" to come before the first. */
  function Destuttered(messages: seq<string>): seq<string> {
    if messages == [] then []
    else
      var before, m := messages[..|messages| - 1], messages[|messages| - 1];
      Destuttered(before) + if m == (if before == [] then "" else before[|before| - 1]) then [] else [m]
  }

  function Informed(socket: string, messages: seq<string>): seq<Entry> {
    seq(|messages|, i requires 0 <= i < |messages| => Entry(socket, false, messages[i]))
  }

  lemma InformedSnoc(socket: string, messages: seq<string>, m: string)
    ensures Informed(socket, messages + [m]) == Informed(socket, messages) + [Entry(socket, false, m)]
  {
  }

  lemma MessagesSnoc(es: seq<Event>, e: Event)
    ensures Messages(es + [e]) == Messages(es) + [e.run.message]
    ensures Newest(es) == if Messages(es) == [] then "" else Messages(es)[|es| - 1]
  {
  }

  lemma DestutteredSnoc(messages: seq<string>, m: string)
    ensures Destuttered(messages + [m]) ==
            Destuttered(messages) + if m == (if messages == [] then "" else messages[|messages| - 1]) then [] else [m]
  {
    Front(messages, m);
  }

  lemma {:induction false} PrunedInformation(rs: seq<Event>, socket: string)
    requires forall e :: e in rs ==> e.socket == socket && e.run.level != ERROR
    ensures Pruned(rs) == Informed(socket, Destuttered(Messages(rs)))
    decreases |rs|
  {
    if rs == [] {
    } else {
      var h, e := rs[..|rs| - 1], rs[|rs| - 1];
      PrunedInformation(h, socket);
      Last(rs);
      PrunedSnoc(h, e);
      MessagesSnoc(h, e);
      DestutteredSnoc(Messages(h), e.run.message);
      InformedSnoc(socket, Destuttered(Messages(h)), e.run.message);
      Unit(Destuttered(Messages(h)));
      Unit(Pruned(h));
    }
  }

  /** On a socket without liveness errors the log is the messages that count, with repeats collapsed. */
  lemma InformationIsDestuttered(es: seq<Event>, socket: string)
    requires forall e :: e in es && e.socket == socket && Completes(e, Liveness) ==> e.run.level != ERROR
    ensures On(Emitted(es), socket) == Informed(socket, Destuttered(Messages(Recorded(es, socket))))
  {
    SocketLog(es, socket);
    PrunedInformation(Recorded(es, socket), socket);
  }
}
