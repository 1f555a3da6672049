/**
 The shutdown protocol of the container's main process: the main thread, the signal handler, the
 goroutine that stops the queue manager, and the metrics goroutines, as one interleaved state machine.
 A step is what one goroutine does between two points at which another may run; a send on the
 unbuffered control channel is one step of its two ends.
 */
module Shutdown {
  import opened Basics

  datatype Job = StartReaping | ReapNow

  /** `doMain`, from the call of `signalHandler` on. `Failing` is an error return whose deferred
      completion has yet to run; `drained` says that the final receive took place. */
  datatype Main =
    | Starting | SendingStart | SendingReap | Marking | Readying | Waiting | Failing
    | Returned(drained: bool)

  datatype Handler =
    | Selecting
    | Received
    | Draining
    | Processing(job: Job, draining: bool)
    | StoppingMetrics
    | SendingStop
    | ShuttingServer
    | Spawning
    | Ending
    | FinalReaping
    | Closing
    | Done

  /** The goroutine that runs `stopQueueManager` and then cancels the shutdown context. */
  datatype Stopper = NotSpawned | Stopping | Stopped | Cancelled

  /** `GatherMetrics`. The last three come from a call of `StopMetricsGathering`. */
  datatype Gather =
    | NoMetrics | AwaitingActive | Enabled | AwaitingStart | Registering
    | GatherChecking | GatherSending | GatherShutting | GatherDone

  /** The goroutine that serves the metrics. */
  datatype Server = NotServing | Serving | ServerChecking | ServerSending | ServerShutting | ServerDone

  /** `processMetrics`. */
  datatype Processor = NotRunning | Connecting | Running | ProcessorDone

  const STOP_CHANNEL_CAPACITY: nat := 2

  /** The main thread, the handler, the stopper and the two contexts they share. */
  datatype Control = Control(
    main: Main,
    handler: Handler,
    stopper: Stopper,
    stopTriggered: bool,
    startupDone: bool,       // startupCtx is cancelled
    shutdownDone: bool,      // shutdownCtx is cancelled
    closed: bool)            // the control channel is closed

  /** The two signal channels, each of capacity 1, and which signals are delivered to them. */
  datatype Signals = Signals(stopNotified: bool, stopPending: bool, reapNotified: bool, reapPending: bool)

  /** The metrics goroutines and the stop channel; `handlerSent` and the others record who has sent on it, and
      `gatherFailed` and `serverFailed` who had a reason to. */
  datatype Metrics = Metrics(
    gather: Gather,
    server: Server,
    processor: Processor,
    enabled: bool,
    stopChannel: nat,
    handlerSent: bool,
    gatherSent: bool,
    serverSent: bool,
    gatherFailed: bool,
    serverFailed: bool)

  /** What has happened, for the properties to speak of: the jobs that main has sent, whether metrics were
      enabled when the handler checked, and whether it has shut the metrics server down. */
  datatype History = History(
    closes: nat,
    queueManagerStops: nat,
    reaps: nat,
    sent: seq<Job>,
    finalReaped: bool,
    checked: Option<bool>,
    serverShut: bool)

  datatype State = State(c: Control, sig: Signals, met: Metrics, h: History)

  const INIT := State(
    Control(Starting, Selecting, NotSpawned, false, false, false, false),
    Signals(true, false, false, false),
    Metrics(NoMetrics, NotServing, NotRunning, false, 0, false, false, false, false, false),
    History(0, 0, 0, [], false, None, false))

  /** Signals that arrive; one that finds the channel full is dropped. */
  datatype Environment = StopSignal | ChildSignal

  /** The main thread. `SendJob` is a rendezvous with the handler. */
  datatype MainStep =
    | StartupFails | StartupSucceeds(metrics: bool) | SendJob | MarkComplete | MarkFailed
    | SetReady(ok: bool) | ReceiveClosed

  /** What the handler does with what its selects receive. */
  datatype SignalStep = TakeStop | TakeChild | TakeShutdown | ListenForChildren | ReapOnRequest

  /** The handler's stop sequence, and the goroutine that it spawns. */
  datatype StopStep =
    | StopNotify | LeaveDrain | CheckMetrics | SendStop | ShutServer | SpawnStopper
    | StopReapNotify | FinalReap | CloseControl | QueueManagerStopped | CancelShutdown

  /** `GatherMetrics`. Failing, serving and panicking may come at any time, whatever the metrics library does. */
  datatype GatherStep =
    | BecomeActive | StartFails | SpawnProcessor | Handshake | RegisterFails | RecoverPanic | Serve
    | GatherCheck | GatherSend | GatherShut

  /** The metrics server and `processMetrics`. */
  datatype ServerStep = ServeFails | ServeCloses | ServerCheck | ServerSend | ServerShut | ConsumeStop

  datatype Step =
    | Env(e: Environment) | OfMain(m: MainStep) | OfSignals(g: SignalStep) | OfStop(p: StopStep)
    | OfGather(a: GatherStep) | OfServer(v: ServerStep)

  predicate CanReceiveJob(h: Handler) {
    h == Selecting || h == Draining
  }

  /** Where the handler goes on after a job: in the select that received it. */
  function Resume(h: Handler): Handler {
    if h.Processing? && h.draining then Draining else Selecting
  }

  predicate CanEnvironment(g: Signals, step: Environment) {
    match step
    case StopSignal => g.stopNotified && !g.stopPending
    case ChildSignal => g.reapNotified && !g.reapPending
  }

  function ApplyEnvironment(g: Signals, step: Environment): Signals
    requires CanEnvironment(g, step)
  {
    match step
    case StopSignal => g.(stopPending := true)
    case ChildSignal => g.(reapPending := true)
  }

  predicate CanMain(c: Control, step: MainStep) {
    match step
    case StartupFails => c.main == Starting
    case StartupSucceeds(_) => c.main == Starting
    case SendJob => (c.main == SendingStart || c.main == SendingReap) && CanReceiveJob(c.handler)
    case MarkComplete => c.main == Marking
    case MarkFailed => c.main == Failing
    case SetReady(_) => c.main == Readying
    case ReceiveClosed => c.main == Waiting && c.closed
  }

  function MainControl(c: Control, step: MainStep): Control
    requires CanMain(c, step)
  {
    match step
    case StartupFails => c.(main := Failing)
    case StartupSucceeds(_) => c.(main := SendingStart)
    case SendJob =>
      if c.main == SendingStart then c.(main := SendingReap, handler := Processing(StartReaping, c.handler == Draining))
      else c.(main := Marking, handler := Processing(ReapNow, c.handler == Draining))
    case MarkComplete => c.(main := Readying, startupDone := true)
    case MarkFailed => c.(main := Returned(false), startupDone := true)
    case SetReady(ok) => c.(main := if ok then Waiting else Returned(false))
    case ReceiveClosed => c.(main := Returned(true))
  }

  function ApplyMain(s: State, step: MainStep): State
    requires CanMain(s.c, step)
  {
    var c := MainControl(s.c, step);
    match step
    case StartupSucceeds(metrics) => s.(c := c, met := if metrics then s.met.(gather := AwaitingActive) else s.met)
    case SendJob => s.(c := c, h := s.h.(sent := s.h.sent + [c.handler.job]))
    case _ => s.(c := c)
  }

  predicate CanSignals(s: State, step: SignalStep) {
    match step
    case TakeStop => s.c.handler == Selecting && s.sig.stopPending
    case TakeChild => s.c.handler == Selecting && s.sig.reapPending
    case TakeShutdown => s.c.handler == Selecting && s.c.shutdownDone
    case ListenForChildren => s.c.handler.Processing? && s.c.handler.job == StartReaping
    case ReapOnRequest => s.c.handler.Processing? && s.c.handler.job == ReapNow
  }

  function ApplySignals(s: State, step: SignalStep): State
    requires CanSignals(s, step)
  {
    match step
    case TakeStop =>
      s.(sig := s.sig.(stopPending := false), c := if s.c.stopTriggered then s.c else s.c.(handler := Received))
    case TakeChild => s.(sig := s.sig.(reapPending := false), h := s.h.(reaps := s.h.reaps + 1))
    case TakeShutdown => s.(c := s.c.(handler := Ending))
    case ListenForChildren => s.(c := s.c.(handler := Resume(s.c.handler)), sig := s.sig.(reapNotified := true))
    case ReapOnRequest => s.(c := s.c.(handler := Resume(s.c.handler)), h := s.h.(reaps := s.h.reaps + 1))
  }

  predicate CanStop(s: State, step: StopStep) {
    match step
    case StopNotify => s.c.handler == Received
    case LeaveDrain => s.c.handler == Draining && s.c.startupDone
    case CheckMetrics => s.c.handler == StoppingMetrics
    case SendStop => s.c.handler == SendingStop && s.met.stopChannel < STOP_CHANNEL_CAPACITY
    case ShutServer => s.c.handler == ShuttingServer
    case SpawnStopper => s.c.handler == Spawning
    case StopReapNotify => s.c.handler == Ending
    case FinalReap => s.c.handler == FinalReaping
    case CloseControl => s.c.handler == Closing
    case QueueManagerStopped => s.c.stopper == Stopping
    case CancelShutdown => s.c.stopper == Stopped
  }

  function ApplyStop(s: State, step: StopStep): State
    requires CanStop(s, step)
  {
    match step
    case StopNotify => s.(sig := s.sig.(stopNotified := false), c := s.c.(stopTriggered := true, handler := Draining))
    case LeaveDrain => s.(c := s.c.(handler := StoppingMetrics))
    case CheckMetrics =>
      s.(c := s.c.(handler := if s.met.enabled then SendingStop else Spawning),
         h := s.h.(checked := Some(s.met.enabled)))
    case SendStop =>
      s.(c := s.c.(handler := ShuttingServer), met := s.met.(stopChannel := s.met.stopChannel + 1, handlerSent := true))
    case ShutServer => s.(c := s.c.(handler := Spawning), h := s.h.(serverShut := true))
    case SpawnStopper =>
      s.(c := s.c.(handler := Selecting, stopper := Stopping),
         h := s.h.(queueManagerStops := s.h.queueManagerStops + 1))
    case StopReapNotify => s.(c := s.c.(handler := FinalReaping), sig := s.sig.(reapNotified := false))
    case FinalReap => s.(c := s.c.(handler := Closing), h := s.h.(reaps := s.h.reaps + 1, finalReaped := true))
    case CloseControl => s.(c := s.c.(handler := Done, closed := true), h := s.h.(closes := s.h.closes + 1))
    case QueueManagerStopped => s.(c := s.c.(stopper := Stopped))
    case CancelShutdown => s.(c := s.c.(stopper := Cancelled, shutdownDone := true))
  }

  predicate CanGather(m: Metrics, step: GatherStep) {
    match step
    case BecomeActive => m.gather == AwaitingActive
    case StartFails => m.gather == Enabled
    case SpawnProcessor => m.gather == Enabled
    case Handshake => m.gather == AwaitingStart && m.processor == Connecting
    case RegisterFails => m.gather == Registering
    case RecoverPanic => m.gather == Enabled || m.gather == Registering
    case Serve => m.gather == Registering
    case GatherCheck => m.gather == GatherChecking
    case GatherSend => m.gather == GatherSending && m.stopChannel < STOP_CHANNEL_CAPACITY
    case GatherShut => m.gather == GatherShutting
  }

  function ApplyGather(m: Metrics, step: GatherStep): Metrics
    requires CanGather(m, step)
  {
    match step
    case BecomeActive => m.(gather := Enabled, enabled := true)
    case StartFails => m.(gather := GatherChecking, gatherFailed := true)
    case SpawnProcessor => m.(gather := AwaitingStart, processor := Connecting)
    case Handshake => m.(gather := Registering, processor := Running)
    case RegisterFails => m.(gather := GatherChecking, gatherFailed := true)
    case RecoverPanic => m.(gather := GatherDone)
    case Serve => m.(gather := GatherDone, server := Serving)
    case GatherCheck => m.(gather := if m.enabled then GatherSending else GatherDone)
    case GatherSend => m.(gather := GatherShutting, stopChannel := m.stopChannel + 1, gatherSent := true)
    case GatherShut => m.(gather := GatherDone)
  }

  predicate CanServer(m: Metrics, step: ServerStep) {
    match step
    case ServeFails => m.server == Serving
    case ServeCloses => m.server == Serving
    case ServerCheck => m.server == ServerChecking
    case ServerSend => m.server == ServerSending && m.stopChannel < STOP_CHANNEL_CAPACITY
    case ServerShut => m.server == ServerShutting
    case ConsumeStop => (m.processor == Connecting || m.processor == Running) && m.stopChannel > 0
  }

  function ApplyServer(m: Metrics, step: ServerStep): Metrics
    requires CanServer(m, step)
  {
    match step
    case ServeFails => m.(server := ServerChecking, serverFailed := true)
    case ServeCloses => m.(server := ServerDone)
    case ServerCheck => m.(server := if m.enabled then ServerSending else ServerDone)
    case ServerSend => m.(server := ServerShutting, stopChannel := m.stopChannel + 1, serverSent := true)
    case ServerShut => m.(server := ServerDone)
    case ConsumeStop => m.(processor := ProcessorDone, stopChannel := m.stopChannel - 1)
  }

  predicate CanStep(s: State, step: Step) {
    match step
    case Env(e) => CanEnvironment(s.sig, e)
    case OfMain(m) => CanMain(s.c, m)
    case OfSignals(g) => CanSignals(s, g)
    case OfStop(p) => CanStop(s, p)
    case OfGather(a) => CanGather(s.met, a)
    case OfServer(v) => CanServer(s.met, v)
  }

  function Apply(s: State, step: Step): State
    requires CanStep(s, step)
  {
    match step
    case Env(e) => s.(sig := ApplyEnvironment(s.sig, e))
    case OfMain(m) => ApplyMain(s, m)
    case OfSignals(g) => ApplySignals(s, g)
    case OfStop(p) => ApplyStop(s, p)
    case OfGather(a) => s.(met := ApplyGather(s.met, a))
    case OfServer(v) => s.(met := ApplyServer(s.met, v))
  }

  // ---- Runs ----

  predicate IsRun(s: State, steps: seq<Step>)
    decreases |steps|
  {
    steps == [] || (CanStep(s, steps[0]) && IsRun(Apply(s, steps[0]), steps[1..]))
  }

  function After(s: State, steps: seq<Step>): State
    requires IsRun(s, steps)
    decreases |steps|
  {
    if steps == [] then s else After(Apply(s, steps[0]), steps[1..])
  }

  ghost predicate Reachable(s: State) {
    exists steps :: IsRun(INIT, steps) && After(INIT, steps) == s
  }

  // ---- The invariant ----

  predicate BeforeStop(h: Handler) {
    h == Selecting || h == Received || (h.Processing? && !h.draining)
  }

  predicate InDrain(h: Handler) {
    h == Draining || (h.Processing? && h.draining)
  }

  predicate StoppingNow(h: Handler) {
    h == StoppingMetrics || h == SendingStop || h == ShuttingServer || h == Spawning
  }

  predicate Finishing(h: Handler) {
    h == Ending || h == FinalReaping || h == Closing || h == Done
  }

  /** The handler goes once through its phases, and the stopper runs between two of them. */
  predicate ControlInv(c: Control) {
    && c.startupDone == (c.main == Readying || c.main == Waiting || c.main.Returned?)
    && (c.main == Returned(true) ==> c.closed)
    && (!c.stopTriggered ==> BeforeStop(c.handler))
    && (c.stopTriggered ==>
         || InDrain(c.handler)
         || (c.startupDone && (StoppingNow(c.handler) || c.handler == Selecting || Finishing(c.handler))))
    && ((c.stopper == NotSpawned) == (!c.stopTriggered || InDrain(c.handler) || StoppingNow(c.handler)))
    && c.shutdownDone == (c.stopper == Cancelled)
    && (Finishing(c.handler) ==> c.shutdownDone)
    && c.closed == (c.handler == Done)
  }

  predicate HistoryInv(c: Control, h: History) {
    && h.closes == (if c.handler == Done then 1 else 0)
    && h.queueManagerStops == (if c.stopper == NotSpawned then 0 else 1)
    && h.finalReaped == (c.handler == Closing || c.handler == Done)
    && (h.reaps > 0 ==> h.sent != [] || c.startupDone)
  }

  /** What main has sent, and that the handler has done what it received. */
  predicate JobsInv(c: Control, h: History) {
    && (c.main == Starting || c.main == SendingStart || c.main == Failing ==> h.sent == [])
    && (c.main == SendingReap ==> h.sent == [StartReaping])
    && (c.main == Marking || c.main == Readying || c.main == Waiting || c.main == Returned(true)
        ==> h.sent == BOTH_JOBS)
    && (c.main == Returned(false) ==> h.sent == [] || h.sent == BOTH_JOBS)
    && (c.handler.Processing? ==> h.sent != [] && c.handler.job == h.sent[|h.sent| - 1])
    && (h.sent == BOTH_JOBS && !c.handler.Processing? ==> h.reaps > 0)
  }

  const BOTH_JOBS: seq<Job> := [StartReaping, ReapNow]

  predicate SignalsInv(c: Control, g: Signals, h: History) {
    && g.stopNotified == !c.stopTriggered
    && (g.reapNotified || g.reapPending ==> h.sent != [])
    && (h.sent != [] && Listens(c.handler) ==> g.reapNotified)
  }

  /** Not about to start listening for SIGCHLD, nor done with it. */
  predicate Listens(h: Handler) {
    !(h.Processing? && h.job == StartReaping) && h != FinalReaping && h != Closing && h != Done
  }

  /** The handler has stopped the metrics exactly when they were enabled at its check. */
  predicate StopInv(c: Control, m: Metrics, h: History) {
    && h.checked.Some? == (c.stopTriggered && !InDrain(c.handler) && c.handler != StoppingMetrics)
    && (c.handler == SendingStop ==> h.checked == Some(true) && !m.handlerSent && !h.serverShut)
    && (c.handler == ShuttingServer ==> h.checked == Some(true) && m.handlerSent && !h.serverShut)
    && (h.checked.None? ==> !m.handlerSent && !h.serverShut)
    && (h.checked.Some? && c.handler != SendingStop && c.handler != ShuttingServer ==>
          m.handlerSent == h.checked.value && h.serverShut == h.checked.value)
    && (h.checked == Some(true) ==> m.enabled)
  }

  function Count(b: bool): nat {
    if b then 1 else 0
  }

  /** Each of the three senders sends at most once, and two of them exclude each other. */
  predicate MetricsInv(m: Metrics) {
    && m.stopChannel + Count(m.processor == ProcessorDone)
       == Count(m.handlerSent) + Count(m.gatherSent) + Count(m.serverSent)
    && (m.gatherSent ==> m.gather == GatherShutting || m.gather == GatherDone)
    && (m.serverSent ==> m.server == ServerShutting || m.server == ServerDone)
    && (m.server != NotServing ==> m.gather == GatherDone && !m.gatherSent)
    && (m.gather != NoMetrics && m.gather != AwaitingActive ==> m.enabled)
    && (m.gather == NoMetrics || m.gather == AwaitingActive || m.gather == Enabled ==> m.processor == NotRunning)
    && (m.gatherFailed ==> m.gather == GatherChecking || m.gather == GatherSending || m.gatherSent)
    && (m.serverFailed ==> m.server == ServerChecking || m.server == ServerSending || m.serverSent)
  }

  predicate SendersInv(c: Control, m: Metrics) {
    && (m.handlerSent ==> c.handler == ShuttingServer || c.handler == Spawning || c.stopper != NotSpawned)
    && (c.main == Starting ==> m.gather == NoMetrics)
  }

  /** What holds of the main thread, the handler and the stopper. */
  predicate ProtocolInv(s: State) {
    ControlInv(s.c) && HistoryInv(s.c, s.h) && JobsInv(s.c, s.h) && SignalsInv(s.c, s.sig, s.h)
  }

  /** What holds of the metrics and of how the handler stops them. */
  predicate StoppingInv(s: State) {
    MetricsInv(s.met) && SendersInv(s.c, s.met) && StopInv(s.c, s.met, s.h)
  }

  predicate Inv(s: State) {
    ProtocolInv(s) && StoppingInv(s)
  }

  lemma MainKeepsControl(c: Control, step: MainStep)
    requires ControlInv(c) && CanMain(c, step)
    ensures ControlInv(MainControl(c, step))
  {
  }

  lemma MainKeeps(s: State, step: MainStep)
    requires Inv(s) && CanMain(s.c, step)
    ensures Inv(ApplyMain(s, step))
  {
    MainKeepsControl(s.c, step);
    MainKeepsProtocol(s, step);
  }

  lemma MainKeepsProtocol(s: State, step: MainStep)
    requires ProtocolInv(s) && CanMain(s.c, step) && ControlInv(MainControl(s.c, step))
    ensures ProtocolInv(ApplyMain(s, step))
  {
  }

  lemma SignalsKeep(s: State, step: SignalStep)
    requires Inv(s) && CanSignals(s, step)
    ensures Inv(ApplySignals(s, step))
  {
    SignalsKeepProtocol(s, step);
  }

  lemma SignalsKeepProtocol(s: State, step: SignalStep)
    requires ProtocolInv(s) && CanSignals(s, step)
    ensures ProtocolInv(ApplySignals(s, step))
  {
  }

  lemma StopKeeps(s: State, step: StopStep)
    requires Inv(s) && CanStop(s, step)
    ensures Inv(ApplyStop(s, step))
  {
    StopKeepsProtocol(s, step);
    StopKeepsMetrics(s, step);
  }

  lemma StopKeepsProtocol(s: State, step: StopStep)
    requires ProtocolInv(s) && CanStop(s, step)
    ensures ProtocolInv(ApplyStop(s, step))
  {
  }

  lemma StopKeepsMetrics(s: State, step: StopStep)
    requires ControlInv(s.c) && StoppingInv(s) && CanStop(s, step)
    ensures StoppingInv(ApplyStop(s, step))
  {
  }

  lemma GatherKeeps(m: Metrics, step: GatherStep)
    requires MetricsInv(m) && CanGather(m, step)
    ensures MetricsInv(ApplyGather(m, step))
  {
  }

  lemma ServerKeeps(m: Metrics, step: ServerStep)
    requires MetricsInv(m) && CanServer(m, step)
    ensures MetricsInv(ApplyServer(m, step))
  {
  }

  lemma GatherKeepsAll(s: State, step: GatherStep)
    requires Inv(s) && CanGather(s.met, step)
    ensures Inv(s.(met := ApplyGather(s.met, step)))
  {
    GatherKeeps(s.met, step);
  }

  lemma ServerKeepsAll(s: State, step: ServerStep)
    requires Inv(s) && CanServer(s.met, step)
    ensures Inv(s.(met := ApplyServer(s.met, step)))
  {
    ServerKeeps(s.met, step);
  }

  lemma InvStep(s: State, step: Step)
    requires Inv(s) && CanStep(s, step)
    ensures Inv(Apply(s, step))
  {
    match step
    case Env(_) =>
    case OfMain(m) => MainKeeps(s, m);
    case OfSignals(g) => SignalsKeep(s, g);
    case OfStop(p) => StopKeeps(s, p);
    case OfGather(a) => GatherKeepsAll(s, a);
    case OfServer(v) => ServerKeepsAll(s, v);
  }

  lemma {:induction false} InvAlong(s: State, steps: seq<Step>)
    requires Inv(s) && IsRun(s, steps)
    ensures Inv(After(s, steps))
    decreases |steps|
  {
    if steps == [] {
    } else {
      InvStep(s, steps[0]);
      InvAlong(Apply(s, steps[0]), steps[1..]);
    }
  }

  lemma ReachableInv(s: State)
    requires Reachable(s)
    ensures Inv(s)
  {
    var steps :| IsRun(INIT, steps) && After(INIT, steps) == s;
    InvAlong(INIT, steps);
  }

  // ---- Safety ----

  /** Main is about to send on the control channel. */
  predicate MainSending(c: Control) {
    c.main == SendingStart || c.main == SendingReap
  }

  /** In every reachable state, whatever the interleaving: the control channel is closed at most once,
      only after startup is over, and never while main may still send on it; the queue manager is
      stopped at most once, and then startup is over; nothing has been reaped before main asked for
      it or startup was over. */
  lemma Safety(s: State)
    requires Reachable(s)
    ensures s.h.closes <= 1 && (s.c.closed <==> s.h.closes == 1)
    ensures s.c.closed ==> s.c.startupDone && !MainSending(s.c) && s.h.finalReaped
    ensures s.h.queueManagerStops <= 1 && (s.h.queueManagerStops == 1 ==> s.c.startupDone)
    ensures s.h.reaps > 0 ==> s.h.sent != [] || s.c.startupDone
  {
    ReachableInv(s);
  }

  /** Main's final receive returns only when `stopQueueManager` has returned and the last reap is done. */
  lemma FinalReceive(s: State)
    requires Reachable(s) && s.c.main == Returned(true)
    ensures s.h.queueManagerStops == 1 && s.c.stopper == Cancelled && s.h.finalReaped && s.h.closes == 1
  {
    ReachableInv(s);
  }

  /** A goroutine at a send on the stop channel always finds room: at most two of the three senders fire. */
  lemma StopChannelNeverBlocks(s: State)
    requires Reachable(s)
    ensures s.met.stopChannel <= 2
    ensures Count(s.met.handlerSent) + Count(s.met.gatherSent) + Count(s.met.serverSent) <= 2
    ensures s.c.handler == SendingStop || s.met.gather == GatherSending || s.met.server == ServerSending
            ==> s.met.stopChannel < 2 == STOP_CHANNEL_CAPACITY
  {
    ReachableInv(s);
  }

  // ---- What does happen ----

  /** Once the queue manager is being stopped, the metrics have been told to stop and their server has been
      shut down, exactly when they were enabled at the handler's check. */
  lemma MetricsAreStoppedFirst(s: State)
    requires Reachable(s) && s.h.queueManagerStops > 0
    ensures s.h.checked.Some? && s.met.handlerSent == s.h.checked.value && s.h.serverShut == s.h.checked.value
  {
    ReachableInv(s);
  }

  /** The handler has found metrics enabled, or is about to. */
  predicate FoundEnabled(s: State) {
    s.met.enabled && (s.c.handler == StoppingMetrics || s.h.checked == Some(true))
  }

  /** Metrics that are enabled when the handler comes to its check will have been stopped by then. */
  lemma {:induction false} EnabledMetricsAreStopped(s: State, steps: seq<Step>)
    requires Inv(s) && FoundEnabled(s) && IsRun(s, steps)
    ensures var t := After(s, steps); t.h.queueManagerStops > 0 ==> t.met.handlerSent && t.h.serverShut
    decreases |steps|
  {
    if steps == [] {
    } else {
      InvStep(s, steps[0]);
      FoundStays(s, steps[0]);
      EnabledMetricsAreStopped(Apply(s, steps[0]), steps[1..]);
    }
  }

  lemma FoundStaysStopping(s: State, step: StopStep)
    requires StopInv(s.c, s.met, s.h) && FoundEnabled(s) && CanStop(s, step)
    ensures FoundEnabled(ApplyStop(s, step))
  {
  }

  lemma EnabledStays(m: Metrics, step: GatherStep)
    requires m.enabled && CanGather(m, step)
    ensures ApplyGather(m, step).enabled
  {
  }

  lemma FoundStays(s: State, step: Step)
    requires Inv(s) && FoundEnabled(s) && CanStep(s, step)
    ensures FoundEnabled(Apply(s, step))
  {
    match step
    case OfStop(p) => FoundStaysStopping(s, p);
    case OfGather(a) => EnabledStays(s.met, a);
    case Env(_) | OfMain(_) | OfSignals(_) | OfServer(_) =>
  }

  /** A metrics goroutine that has failed sends its stop request before it ends. */
  lemma FailuresAreReported(s: State)
    requires Reachable(s)
    ensures s.met.gatherFailed && s.met.gather == GatherDone ==> s.met.gatherSent
    ensures s.met.serverFailed && s.met.server == ServerDone ==> s.met.serverSent
  {
    ReachableInv(s);
  }

  /** Every request is on the channel until it is taken, and it is taken at most once: when no goroutine can move any
      more and a request was sent, the processing of metrics has ended, or never began. */
  lemma ProcessorIsStopped(s: State)
    requires Reachable(s) && forall step :: CanStep(s, step) ==> !IsSystemStep(step)
    requires s.met.handlerSent || s.met.gatherSent || s.met.serverSent
    ensures s.met.processor == NotRunning || s.met.processor == ProcessorDone
  {
    ReachableInv(s);
    assert CanStep(s, OfServer(ConsumeStop)) ==> !IsSystemStep(OfServer(ConsumeStop));
  }

  /** Main sends `startReaping` and then `reapNow`, both before startup is marked complete unless it fails. From
      when the first is handled the handler listens for SIGCHLD, until it stops for good; once the second is,
      it has reaped. */
  lemma JobsAreDone(s: State)
    requires Reachable(s)
    ensures s.h.sent <= BOTH_JOBS
    ensures s.c.startupDone && s.c.main != Returned(false) ==> s.h.sent == BOTH_JOBS
    ensures s.h.sent != [] && Listens(s.c.handler) ==> s.sig.reapNotified
    ensures s.h.sent == BOTH_JOBS && !s.c.handler.Processing? ==> s.h.reaps > 0
  {
    ReachableInv(s);
  }

  predicate IsReap(step: Step) {
    step == OfSignals(TakeChild) || step == OfSignals(ReapOnRequest) || step == OfStop(FinalReap)
  }

  function ReapSteps(steps: seq<Step>): nat {
    if steps == [] then 0 else Count(IsReap(steps[0])) + ReapSteps(steps[1..])
  }

  /** Every SIGCHLD received, every request and the end of the handler reap once. */
  lemma {:induction false} ReapsAreCounted(s: State, steps: seq<Step>)
    requires IsRun(s, steps)
    ensures After(s, steps).h.reaps == s.h.reaps + ReapSteps(steps)
    decreases |steps|
  {
    if steps == [] {
    } else {
      ReapsAreCounted(Apply(s, steps[0]), steps[1..]);
    }
  }

  // ---- Progress ----

  /** A stop signal has been delivered. */
  predicate StopRequested(s: State) {
    s.sig.stopPending || s.c.stopTriggered || s.c.handler == Received
  }

  /** The steps that SIGCHLD causes. */
  predicate IsChildStep(step: Step) {
    step == Env(ChildSignal) || step == OfSignals(TakeChild)
  }

  predicate IsSystemStep(step: Step) {
    !step.Env? && !IsChildStep(step)
  }

  function MainRank(m: Main): nat {
    match m
    case Starting => 7
    case SendingStart => 6
    case SendingReap => 5
    case Marking => 4
    case Readying => 3
    case Waiting => 2
    case Failing => 1
    case Returned(_) => 0
  }

  function HandlerRank(h: Handler, stopTriggered: bool): nat {
    match h
    case Processing(_, draining) => if draining then 11 else 13
    case Selecting => if stopTriggered then 5 else 12
    case Received => 11
    case Draining => 10
    case StoppingMetrics => 9
    case SendingStop => 8
    case ShuttingServer => 7
    case Spawning => 6
    case Ending => 4
    case FinalReaping => 3
    case Closing => 2
    case Done => 1
  }

  function StopperRank(p: Stopper): nat {
    match p case NotSpawned => 3 case Stopping => 2 case Stopped => 1 case Cancelled => 0
  }

  function GatherRank(g: Gather): nat {
    match g
    case NoMetrics => 9
    case AwaitingActive => 8
    case Enabled => 7
    case AwaitingStart => 6
    case Registering => 5
    case GatherChecking => 4
    case GatherSending => 3
    case GatherShutting => 2
    case GatherDone => 0
  }

  function ServerRank(v: Server): nat {
    match v
    case NotServing => 5 case Serving => 4 case ServerChecking => 3 case ServerSending => 2
    case ServerShutting => 1 case ServerDone => 0
  }

  function ProcessorRank(p: Processor): nat {
    match p case NotRunning => 3 case Connecting => 2 case Running => 1 case ProcessorDone => 0
  }

  /** Stop signals that may still be received. */
  function StopsLeft(g: Signals): nat {
    if g.stopNotified then 2 else Count(g.stopPending)
  }

  function ControlRank(c: Control): nat {
    2 * MainRank(c.main) + HandlerRank(c.handler, c.stopTriggered) + StopperRank(c.stopper)
  }

  function MetricsRank(m: Metrics): nat {
    GatherRank(m.gather) + ServerRank(m.server) + ProcessorRank(m.processor)
  }

  function Measure(s: State): nat {
    ControlRank(s.c) + StopsLeft(s.sig) + MetricsRank(s.met)
  }

  lemma MainFalls(c: Control, step: MainStep)
    requires ControlInv(c) && CanMain(c, step)
    ensures ControlRank(MainControl(c, step)) < ControlRank(c)
  {
  }

  lemma SignalsFall(s: State, step: SignalStep)
    requires ControlInv(s.c) && SignalsInv(s.c, s.sig, s.h) && CanSignals(s, step)
    ensures step != TakeChild ==> Measure(ApplySignals(s, step)) < Measure(s)
    ensures Measure(ApplySignals(s, step)) <= Measure(s)
    ensures StopRequested(s) ==> StopRequested(ApplySignals(s, step))
  {
  }

  lemma StopFalls(s: State, step: StopStep)
    requires ControlInv(s.c) && SignalsInv(s.c, s.sig, s.h) && CanStop(s, step)
    ensures Measure(ApplyStop(s, step)) < Measure(s)
    ensures StopRequested(s) ==> StopRequested(ApplyStop(s, step))
  {
  }

  lemma GatherFalls(m: Metrics, step: GatherStep)
    requires MetricsInv(m) && CanGather(m, step)
    ensures MetricsRank(ApplyGather(m, step)) < MetricsRank(m)
  {
  }

  lemma ServerFalls(m: Metrics, step: ServerStep)
    requires CanServer(m, step)
    ensures MetricsRank(ApplyServer(m, step)) < MetricsRank(m)
  {
  }

  /** Every step of the system uses up something; SIGCHLD and further stop signals restore nothing. */
  lemma MeasureFalls(s: State, step: Step)
    requires Inv(s) && CanStep(s, step)
    ensures Measure(Apply(s, step)) <= Measure(s)
    ensures IsSystemStep(step) ==> Measure(Apply(s, step)) < Measure(s)
    ensures StopRequested(s) ==> StopRequested(Apply(s, step))
  {
    match step
    case Env(_) =>
    case OfMain(m) => MainFalls(s.c, m);
    case OfSignals(g) => SignalsFall(s, g);
    case OfStop(p) => StopFalls(s, p);
    case OfGather(a) => GatherFalls(s.met, a);
    case OfServer(v) => ServerFalls(s.met, v);
  }

  /** Some goroutine can move: after a stop signal nothing is stuck until main has returned. */
  lemma NeverStuck(s: State) returns (step: Step)
    requires Inv(s) && StopRequested(s) && !s.c.main.Returned?
    ensures CanStep(s, step) && IsSystemStep(step)
  {
    match s.c.main
    case Starting => step := OfMain(StartupSucceeds(false));
    case Marking => step := OfMain(MarkComplete);
    case Readying => step := OfMain(SetReady(true));
    case Failing => step := OfMain(MarkFailed);
    case Waiting => step := HandlerMoves(s);
    case _ =>
      if CanReceiveJob(s.c.handler) {
        step := OfMain(SendJob);
      } else {
        step := HandlerMoves(s);
      }
  }

  lemma HandlerMoves(s: State) returns (step: Step)
    requires Inv(s) && StopRequested(s)
    requires s.c.main == Waiting || (MainSending(s.c) && !CanReceiveJob(s.c.handler))
    ensures CanStep(s, step) && IsSystemStep(step)
  {
    match s.c.handler
    case Received => step := OfStop(StopNotify);
    case Draining => step := OfStop(LeaveDrain);
    case Processing(job, _) => step := OfSignals(if job == StartReaping then ListenForChildren else ReapOnRequest);
    case StoppingMetrics => step := OfStop(CheckMetrics);
    case SendingStop => step := OfStop(SendStop);
    case ShuttingServer => step := OfStop(ShutServer);
    case Spawning => step := OfStop(SpawnStopper);
    case Ending => step := OfStop(StopReapNotify);
    case FinalReaping => step := OfStop(FinalReap);
    case Closing => step := OfStop(CloseControl);
    case Done => step := OfMain(ReceiveClosed);
    case Selecting =>
      if s.sig.stopPending {
        step := OfSignals(TakeStop);
      } else if s.c.stopper == Stopping {
        step := OfStop(QueueManagerStopped);
      } else if s.c.stopper == Stopped {
        step := OfStop(CancelShutdown);
      } else {
        step := OfSignals(TakeShutdown);
      }
  }

  function SystemSteps(steps: seq<Step>): nat {
    if steps == [] then 0 else Count(IsSystemStep(steps[0])) + SystemSteps(steps[1..])
  }

  /** No run goes on for ever without SIGCHLD or new stop signals: the system steps of any run from a
      reachable state are bounded, whatever signals come between them. */
  lemma {:induction false} RunsAreBounded(s: State, steps: seq<Step>)
    requires Inv(s) && IsRun(s, steps)
    ensures SystemSteps(steps) + Measure(After(s, steps)) <= Measure(s)
    ensures StopRequested(s) ==> StopRequested(After(s, steps))
    decreases |steps|
  {
    if steps == [] {
    } else {
      InvStep(s, steps[0]);
      MeasureFalls(s, steps[0]);
      RunsAreBounded(Apply(s, steps[0]), steps[1..]);
    }
  }

  /** After a stop signal, a run that has reached a state in which only SIGCHLD steps are left has
      returned from main; and by then it has taken at most `Measure` other steps. */
  lemma Shutdown(s: State, steps: seq<Step>)
    requires Reachable(s) && StopRequested(s) && IsRun(s, steps)
    ensures SystemSteps(steps) <= Measure(s)
    ensures (forall step :: CanStep(After(s, steps), step) ==> !IsSystemStep(step)) ==> After(s, steps).c.main.Returned?
  {
    ReachableInv(s);
    RunsAreBounded(s, steps);
    InvAlong(s, steps);
    var t := After(s, steps);
    if !t.c.main.Returned? {
      var step := NeverStuck(t);
    }
  }

  /** And such a run exists from every reachable state in which a stop signal has come. */
  lemma {:induction false} CanShutDown(s: State) returns (steps: seq<Step>)
    requires Inv(s) && StopRequested(s)
    ensures IsRun(s, steps) && After(s, steps).c.main.Returned? && |steps| <= Measure(s)
    decreases Measure(s)
  {
    steps := [];
    if !s.c.main.Returned? {
      var step := NeverStuck(s);
      InvStep(s, step);
      MeasureFalls(s, step);
      var rest := CanShutDown(Apply(s, step));
      steps := [step] + rest;
      assert steps[1..] == rest;
    }
  }
}
