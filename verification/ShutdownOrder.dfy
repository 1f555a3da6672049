/**
 What each goroutine of the shutdown protocol has done in any run, as the list of its steps: whatever the
 others do in between, it goes through one of a few scripts.
 */
module ShutdownOrder {
  import opened Basics
  import opened Shutdown

  // ---- The main thread ----

  function OwnMain(step: Step): seq<MainStep> {
    if step.OfMain? then [step.m] else []
  }

  function MainSteps(steps: seq<Step>): seq<MainStep> {
    if steps == [] then [] else OwnMain(steps[0]) + MainSteps(steps[1..])
  }

  predicate Started(did: seq<MainStep>, after: seq<MainStep>) {
    did != [] && did[0].StartupSucceeds? && did[1..] == after
  }

  predicate MainDid(main: Main, did: seq<MainStep>) {
    match main
    case Starting => did == []
    case Failing => did == [StartupFails]
    case SendingStart => Started(did, [])
    case SendingReap => Started(did, [SendJob])
    case Marking => Started(did, [SendJob, SendJob])
    case Readying => Started(did, [SendJob, SendJob, MarkComplete])
    case Waiting => Started(did, [SendJob, SendJob, MarkComplete, SetReady(true)])
    case Returned(drained) =>
      if drained then Started(did, [SendJob, SendJob, MarkComplete, SetReady(true), ReceiveClosed])
      else did == [StartupFails, MarkFailed] || Started(did, [SendJob, SendJob, MarkComplete, SetReady(false)])
  }

  lemma StartedSnoc(did: seq<MainStep>, after: seq<MainStep>, step: MainStep)
    requires Started(did, after)
    ensures Started(did + [step], after + [step])
  {
  }

  lemma MainDoes(c: Control, step: MainStep, did: seq<MainStep>)
    requires CanMain(c, step) && MainDid(c.main, did)
    ensures MainDid(MainControl(c, step).main, did + [step])
  {
    if did == [] {
      Unit([step]);
    } else if did[0].StartupSucceeds? {
      StartedSnoc(did, did[1..], step);
    }
  }

  predicate AskedForMetrics(did: seq<MainStep>) {
    did != [] && did[0] == StartupSucceeds(true)
  }

  predicate MainSoFar(s: State, did: seq<MainStep>) {
    MainDid(s.c.main, did) && (AskedForMetrics(did) <==> s.met.gather != NoMetrics)
  }

  lemma OthersLeaveMain(s: State, step: Step)
    requires CanStep(s, step) && !step.OfMain?
    ensures var t := Apply(s, step); t.c.main == s.c.main && (t.met.gather == NoMetrics) == (s.met.gather == NoMetrics)
  {
    match step
    case OfSignals(g) => SignalsLeaveMain(s, g);
    case OfStop(p) => StopLeavesMain(s, p);
    case OfGather(a) => GatherStarted(s.met, a);
    case OfServer(v) => ServerLeavesGather(s.met, v);
    case Env(_) =>
  }

  lemma GatherStarted(m: Metrics, a: GatherStep)
    requires CanGather(m, a)
    ensures m.gather != NoMetrics && ApplyGather(m, a).gather != NoMetrics
  {
  }

  lemma ServerLeavesGather(m: Metrics, v: ServerStep)
    requires CanServer(m, v)
    ensures ApplyServer(m, v).gather == m.gather
  {
  }

  lemma SignalsLeaveMain(s: State, g: SignalStep)
    requires CanSignals(s, g)
    ensures var t := ApplySignals(s, g); t.c.main == s.c.main && t.met == s.met
  {
  }

  lemma StopLeavesMain(s: State, p: StopStep)
    requires CanStop(s, p)
    ensures var t := ApplyStop(s, p);
            t.c.main == s.c.main && t.met.gather == s.met.gather && t.met.server == s.met.server
  {
  }

  lemma MainAsks(s: State, step: MainStep, did: seq<MainStep>)
    requires SendersInv(s.c, s.met) && CanMain(s.c, step) && MainSoFar(s, did)
    ensures AskedForMetrics(did + [step]) <==> ApplyMain(s, step).met.gather != NoMetrics
  {
    assert did != [] ==> (did + [step])[0] == did[0];
  }

  lemma MainSoFarStep(s: State, step: Step, did: seq<MainStep>)
    requires SendersInv(s.c, s.met) && CanStep(s, step) && MainSoFar(s, did)
    ensures MainSoFar(Apply(s, step), did + OwnMain(step))
  {
    if step.OfMain? {
      MainDoes(s.c, step.m, did);
      MainAsks(s, step.m, did);
    } else {
      Unit(did);
      OthersLeaveMain(s, step);
    }
  }

  lemma {:induction false} MainGoesOn(s: State, did: seq<MainStep>, steps: seq<Step>)
    requires Inv(s) && IsRun(s, steps) && MainSoFar(s, did)
    ensures MainSoFar(After(s, steps), did + MainSteps(steps))
    decreases |steps|
  {
    if steps == [] {
      Unit(did);
    } else {
      InvStep(s, steps[0]);
      MainSoFarStep(s, steps[0], did);
      MainGoesOn(Apply(s, steps[0]), did + OwnMain(steps[0]), steps[1..]);
      Assoc(did, OwnMain(steps[0]), MainSteps(steps[1..]));
    }
  }

  /** Main either fails to start, or sends two jobs, ends startup and, unless readiness cannot be set, waits for
      the channel to be closed. Metrics are gathered exactly when it asks for them. */
  lemma MainInOrder(steps: seq<Step>)
    requires IsRun(INIT, steps)
    ensures MainDid(After(INIT, steps).c.main, MainSteps(steps))
    ensures AskedForMetrics(MainSteps(steps)) <==> After(INIT, steps).met.gather != NoMetrics
  {
    MainGoesOn(INIT, [], steps);
    Unit(MainSteps(steps));
  }

  // ---- The stop sequence ----

  function OwnStop(step: Step): seq<StopStep> {
    if step.OfStop? then [step.p] else []
  }

  function StopSteps(steps: seq<Step>): seq<StopStep> {
    if steps == [] then [] else OwnStop(steps[0]) + StopSteps(steps[1..])
  }

  /** The handler's stop sequence, with the stopper's two steps in it. */
  function StopScript(metrics: bool): seq<StopStep> {
    if metrics then
      [StopNotify, LeaveDrain, CheckMetrics, SendStop, ShutServer, SpawnStopper,
       QueueManagerStopped, CancelShutdown, StopReapNotify, FinalReap, CloseControl]
    else
      [StopNotify, LeaveDrain, CheckMetrics, SpawnStopper,
       QueueManagerStopped, CancelShutdown, StopReapNotify, FinalReap, CloseControl]
  }

  /** How far the handler and the stopper are. */
  function StopPlace(h: Handler, stopper: Stopper, metrics: bool): (n: nat)
    ensures n <= |StopScript(metrics)|
  {
    var spawned := if metrics then 6 else 4;
    match h
    case Selecting => SelectPlace(stopper, spawned)
    case Received => 0
    case Processing(_, draining) => if draining then 1 else SelectPlace(stopper, spawned)
    case Draining => 1
    case StoppingMetrics => 2
    case SendingStop => 3
    case ShuttingServer => 4
    case Spawning => spawned - 1
    case Ending => spawned + 2
    case FinalReaping => spawned + 3
    case Closing => spawned + 4
    case Done => spawned + 5
  }

  function SelectPlace(stopper: Stopper, spawned: nat): nat {
    match stopper
    case NotSpawned => 0
    case Stopping => spawned
    case Stopped => spawned + 1
    case Cancelled => spawned + 2
  }

  /** Metrics were enabled at the handler's check. */
  predicate WereEnabled(h: History) {
    h.checked == Some(true)
  }

  function PlaceOf(s: State): (n: nat)
    ensures n <= |StopScript(WereEnabled(s.h))|
  {
    StopPlace(s.c.handler, s.c.stopper, WereEnabled(s.h))
  }

  predicate StopDid(s: State, did: seq<StopStep>) {
    did == StopScript(WereEnabled(s.h))[..PlaceOf(s)]
  }

  /** A step of the stop sequence is the next one of its script. */
  lemma StopMoves(s: State, step: StopStep)
    requires ControlInv(s.c) && StopInv(s.c, s.met, s.h) && CanStop(s, step)
    ensures var t, n := ApplyStop(s, step), PlaceOf(s);
            && PlaceOf(t) == n + 1 && StopScript(WereEnabled(t.h))[n] == step
            && (n < 3 || WereEnabled(t.h) == WereEnabled(s.h))
  {
  }

  lemma StopDoes(s: State, step: StopStep, did: seq<StopStep>)
    requires Inv(s) && CanStop(s, step) && StopDid(s, did)
    ensures StopDid(ApplyStop(s, step), did + [step])
  {
    StopMoves(s, step);
    ScriptGoesOn(WereEnabled(s.h), WereEnabled(ApplyStop(s, step).h), PlaceOf(s));
  }

  lemma ScriptGoesOn(was: bool, metrics: bool, n: nat)
    requires n < |StopScript(metrics)| && n <= |StopScript(was)| && (n < 3 || was == metrics)
    ensures StopScript(metrics)[..n + 1] == StopScript(was)[..n] + [StopScript(metrics)[n]]
  {
  }

  lemma OthersLeaveStop(s: State, step: Step)
    requires Inv(s) && CanStep(s, step) && !step.OfStop?
    ensures var t := Apply(s, step); t.h.checked == s.h.checked && PlaceOf(t) == PlaceOf(s)
  {
    match step
    case OfMain(m) => MainLeavesStop(s, m);
    case OfSignals(g) => SignalsLeaveStop(s, g);
    case Env(_) | OfGather(_) | OfServer(_) =>
  }

  lemma MainLeavesStop(s: State, m: MainStep)
    requires CanMain(s.c, m)
    ensures var t := ApplyMain(s, m); t.h.checked == s.h.checked && PlaceOf(t) == PlaceOf(s)
  {
  }

  lemma SignalsLeaveStop(s: State, g: SignalStep)
    requires ControlInv(s.c) && CanSignals(s, g)
    ensures var t := ApplySignals(s, g); t.h.checked == s.h.checked && PlaceOf(t) == PlaceOf(s)
  {
  }

  lemma StopDidStep(s: State, step: Step, did: seq<StopStep>)
    requires Inv(s) && CanStep(s, step) && StopDid(s, did)
    ensures StopDid(Apply(s, step), did + OwnStop(step))
  {
    if step.OfStop? {
      StopDoes(s, step.p, did);
    } else {
      Unit(did);
      OthersLeaveStop(s, step);
    }
  }

  lemma {:induction false} StopGoesOn(s: State, did: seq<StopStep>, steps: seq<Step>)
    requires Inv(s) && IsRun(s, steps) && StopDid(s, did)
    ensures StopDid(After(s, steps), did + StopSteps(steps))
    decreases |steps|
  {
    if steps == [] {
      Unit(did);
    } else {
      InvStep(s, steps[0]);
      StopDidStep(s, steps[0], did);
      StopGoesOn(Apply(s, steps[0]), did + OwnStop(steps[0]), steps[1..]);
      Assoc(did, OwnStop(steps[0]), StopSteps(steps[1..]));
    }
  }

  /** The stop sequence goes through its script, in every interleaving, and ends only at its end. */
  lemma StopsInOrder(steps: seq<Step>)
    requires IsRun(INIT, steps)
    ensures var t := After(INIT, steps);
            && StopSteps(steps) <= StopScript(WereEnabled(t.h))
            && (t.c.handler == Done <==> StopSteps(steps) == StopScript(WereEnabled(t.h)))
  {
    StopGoesOn(INIT, [], steps);
    Unit(StopSteps(steps));
    InvAlong(INIT, steps);
    DoneIsLast(After(INIT, steps));
    assert PlaceOf(INIT) == 0;
  }

  lemma DoneIsLast(s: State)
    requires ControlInv(s.c)
    ensures s.c.handler == Done <==> PlaceOf(s) == |StopScript(WereEnabled(s.h))|
  {
  }

  // ---- Gathering and serving metrics ----

  function OwnGather(step: Step): seq<GatherStep> {
    if step.OfGather? then [step.a] else []
  }

  function GatherSteps(steps: seq<Step>): seq<GatherStep> {
    if steps == [] then [] else OwnGather(steps[0]) + GatherSteps(steps[1..])
  }

  /** What `GatherMetrics` does in all: a failure stops the metrics, a panic does not. */
  predicate IsGathering(all: seq<GatherStep>) {
    || all == [BecomeActive, StartFails, GatherCheck, GatherSend, GatherShut]
    || all == [BecomeActive, RecoverPanic]
    || all == [BecomeActive, SpawnProcessor, Handshake, RegisterFails, GatherCheck, GatherSend, GatherShut]
    || all == [BecomeActive, SpawnProcessor, Handshake, RecoverPanic]
    || all == [BecomeActive, SpawnProcessor, Handshake, Serve]
  }

  predicate GatherDid(g: Gather, did: seq<GatherStep>) {
    match g
    case NoMetrics => did == []
    case AwaitingActive => did == []
    case Enabled => did == [BecomeActive]
    case AwaitingStart => did == [BecomeActive, SpawnProcessor]
    case Registering => did == [BecomeActive, SpawnProcessor, Handshake]
    case GatherChecking => FailedThen(did, [])
    case GatherSending => FailedThen(did, [GatherCheck])
    case GatherShutting => FailedThen(did, [GatherCheck, GatherSend])
    case GatherDone => IsGathering(did)
  }

  predicate FailedThen(did: seq<GatherStep>, after: seq<GatherStep>) {
    did == [BecomeActive, StartFails] + after || did == [BecomeActive, SpawnProcessor, Handshake, RegisterFails] + after
  }

  lemma GatherDoes(m: Metrics, step: GatherStep, did: seq<GatherStep>)
    requires MetricsInv(m) && CanGather(m, step) && GatherDid(m.gather, did)
    ensures GatherDid(ApplyGather(m, step).gather, did + [step])
  {
  }

  lemma OthersLeaveGather(s: State, step: Step)
    requires SendersInv(s.c, s.met) && CanStep(s, step) && !step.OfGather?
    ensures var g, h := s.met.gather, Apply(s, step).met.gather; h == g || (g == NoMetrics && h == AwaitingActive)
  {
    match step
    case OfMain(m) => MainLeavesMetrics(s, m);
    case OfSignals(g) => SignalsLeaveMain(s, g);
    case OfStop(p) => StopLeavesMain(s, p);
    case OfServer(v) => ServerLeavesGather(s.met, v);
    case Env(_) =>
  }

  lemma MainLeavesMetrics(s: State, m: MainStep)
    requires SendersInv(s.c, s.met) && CanMain(s.c, m)
    ensures var met := ApplyMain(s, m).met;
            met == s.met || (s.met.gather == NoMetrics && met == s.met.(gather := AwaitingActive))
  {
  }

  lemma GatherDidStep(s: State, step: Step, did: seq<GatherStep>)
    requires Inv(s) && CanStep(s, step) && GatherDid(s.met.gather, did)
    ensures GatherDid(Apply(s, step).met.gather, did + OwnGather(step))
  {
    if step.OfGather? {
      GatherDoes(s.met, step.a, did);
    } else {
      Unit(did);
      OthersLeaveGather(s, step);
    }
  }

  lemma {:induction false} GatherGoesOn(s: State, did: seq<GatherStep>, steps: seq<Step>)
    requires Inv(s) && IsRun(s, steps) && GatherDid(s.met.gather, did)
    ensures GatherDid(After(s, steps).met.gather, did + GatherSteps(steps))
    decreases |steps|
  {
    if steps == [] {
      Unit(did);
    } else {
      InvStep(s, steps[0]);
      GatherDidStep(s, steps[0], did);
      GatherGoesOn(Apply(s, steps[0]), did + OwnGather(steps[0]), steps[1..]);
      Assoc(did, OwnGather(steps[0]), GatherSteps(steps[1..]));
    }
  }

  function OwnServer(step: Step): seq<ServerStep> {
    if step.OfServer? && step.v != ConsumeStop then [step.v] else []
  }

  function ServerSteps(steps: seq<Step>): seq<ServerStep> {
    if steps == [] then [] else OwnServer(steps[0]) + ServerSteps(steps[1..])
  }

  predicate ServerDid(v: Server, did: seq<ServerStep>) {
    match v
    case NotServing => did == []
    case Serving => did == []
    case ServerChecking => did == [ServeFails]
    case ServerSending => did == [ServeFails, ServerCheck]
    case ServerShutting => did == [ServeFails, ServerCheck, ServerSend]
    case ServerDone => did == [ServeCloses] || did == [ServeFails, ServerCheck, ServerSend, ServerShut]
  }

  lemma ServerDoes(m: Metrics, step: ServerStep, did: seq<ServerStep>)
    requires MetricsInv(m) && CanServer(m, step) && step != ConsumeStop && ServerDid(m.server, did)
    ensures ServerDid(ApplyServer(m, step).server, did + [step])
  {
  }

  lemma OthersLeaveServer(s: State, step: Step)
    requires MetricsInv(s.met) && SendersInv(s.c, s.met) && CanStep(s, step) && OwnServer(step) == []
    ensures var v, w := s.met.server, Apply(s, step).met.server; w == v || (v == NotServing && w == Serving)
  {
    match step
    case OfMain(m) => MainLeavesMetrics(s, m);
    case OfSignals(g) => SignalsLeaveMain(s, g);
    case OfStop(p) => StopLeavesMain(s, p);
    case OfGather(a) => GatherMayServe(s.met, a);
    case OfServer(_) | Env(_) =>
  }

  lemma GatherMayServe(m: Metrics, a: GatherStep)
    requires MetricsInv(m) && CanGather(m, a)
    ensures var w := ApplyGather(m, a).server; w == m.server || (m.server == NotServing && w == Serving)
  {
  }

  lemma ServerDidStep(s: State, step: Step, did: seq<ServerStep>)
    requires Inv(s) && CanStep(s, step) && ServerDid(s.met.server, did)
    ensures ServerDid(Apply(s, step).met.server, did + OwnServer(step))
  {
    if OwnServer(step) == [] {
      Unit(did);
      OthersLeaveServer(s, step);
    } else {
      ServerDoes(s.met, step.v, did);
    }
  }

  lemma {:induction false} ServerGoesOn(s: State, did: seq<ServerStep>, steps: seq<Step>)
    requires Inv(s) && IsRun(s, steps) && ServerDid(s.met.server, did)
    ensures ServerDid(After(s, steps).met.server, did + ServerSteps(steps))
    decreases |steps|
  {
    if steps == [] {
      Unit(did);
    } else {
      InvStep(s, steps[0]);
      ServerDidStep(s, steps[0], did);
      ServerGoesOn(Apply(s, steps[0]), did + OwnServer(steps[0]), steps[1..]);
      Assoc(did, OwnServer(steps[0]), ServerSteps(steps[1..]));
    }
  }

  /** Gathering metrics, and serving them, end in one of a few ways; each failure is followed by a stop request
      and by shutting the server down. Serving begins where gathering ends in `Serve`. */
  lemma MetricsInOrder(steps: seq<Step>)
    requires IsRun(INIT, steps)
    ensures var t := After(INIT, steps);
            && GatherDid(t.met.gather, GatherSteps(steps))
            && ServerDid(t.met.server, ServerSteps(steps))
  {
    GatherGoesOn(INIT, [], steps);
    ServerGoesOn(INIT, [], steps);
    Unit(GatherSteps(steps));
    Unit(ServerSteps(steps));
  }
}
