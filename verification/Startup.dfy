/**
 * Start-up against shutdown: the goroutine that creates and starts the server,
 * the main goroutine that waits for a reason to shut down, the goroutine that
 * drains and stops the server, and the one that forwards the server's own
 * shutdown requests. They meet in a mutex-guarded status and in channels.
 */
module Startup {
  import opened Common

  /** serverStatus: whether the started server was handed over, and whether shutdown was requested. */
  datatype Status = Status(handedOver: bool, shutdownRequested: bool)

  class ServerStatus {
    var server: Option<nat>     // the handed-over server and its stopper
    var shutdownRequested: bool

    constructor ()
      ensures View() == Status(false, false)
    {
      server, shutdownRequested := None, false;
    }

    function View(): Status
      reads this
    {
      Status(server.Some?, shutdownRequested)
    }

    method SetStarted(s: nat) returns (inProgress: bool)
      modifies this
      ensures (View(), inProgress) == AfterSetStarted(old(View()))
      ensures server == if inProgress then old(server) else Some(s)
    {
      if shutdownRequested {
        return true;
      }
      server := Some(s);
      return false;
    }

    method StartShutdown() returns (canUseDrain: bool, s: Option<nat>)
      modifies this
      ensures (View(), canUseDrain) == AfterStartShutdown(old(View()))
      ensures s == server == old(server) && canUseDrain == s.Some?
    {
      shutdownRequested := true;
      return server.Some?, server;
    }
  }

  function AfterSetStarted(st: Status): (Status, bool) {
    if st.shutdownRequested then (st, true) else (st.(handedOver := true), false)
  }

  function AfterStartShutdown(st: Status): (Status, bool) {
    (st.(shutdownRequested := true), st.handedOver)
  }

  datatype StartPc = Creating | Checking | PreStarting | Publishing | MustStop | Serving(left: nat) | Failing | Started
  datatype WatchPc = NotWatching | Watching | WatchDone
  datatype MainPc = Waiting | Looping | Returned | Exited | Fatal
  datatype StopPc = NoStop | Asked(drain: bool) | Draining | MustStopAfterDrain | StopDone

  datatype State = State(
    status: Status,
    start: StartPc,
    watch: WatchPc,
    main: MainPc,
    stop: StopPc,
    requests: seq<bool>,         // shutdownReqC: whether each request is graceful
    stopWithoutDrain: bool,      // that channel was closed
    published: bool,             // setStarted has run
    stops: nat,                  // calls to stopper.Stop
    drains: nat,                 // times CallDrainServerSide was entered
    drainCalls: nat,             // calls to Drain
    served: bool)                // a serving step has run

  datatype Action =
    | NewServer(ok: bool) | Check | PreStart(ok: bool) | Publish | StopAsStarter | Serve(ok: bool) | ReportFailure
    | ServerAsks(graceful: bool) | Quiesce
    | GetRequest | GetSignal | AbruptSignal | FatalError
    | BeginShutdown | CallDrain(again: bool) | StopAfterDrain
    | AnotherRequest | TermAgain | OtherSignal | SeeStopped | SeeTooEarly

  const INIT := State(Status(false, false), Creating, NotWatching, Waiting, NoStop, [], false, false, 0, 0, 0, false)

  predicate Enabled(st: State, act: Action) {
    match act
    case NewServer(_) => st.start == Creating
    case Check => st.start == Checking
    case PreStart(_) => st.start == PreStarting
    case Publish => st.start == Publishing
    case StopAsStarter => st.start == MustStop
    case Serve(_) => st.start.Serving? && st.start.left > 0
    case ReportFailure => st.start == Failing && |st.requests| < 1
    case ServerAsks(_) => st.watch == Watching && |st.requests| < 1
    case Quiesce => st.watch == Watching && st.stops > 0
    case GetRequest => st.main == Waiting && st.requests != []
    case GetSignal => st.main == Waiting
    case AbruptSignal => st.main == Waiting
    case FatalError => st.main == Waiting
    case BeginShutdown => st.stop.Asked?
    case CallDrain(_) => st.stop == Draining
    case StopAfterDrain => st.stop == MustStopAfterDrain
    case AnotherRequest => st.main == Looping && st.requests != []
    case TermAgain => st.main == Looping
    case OtherSignal => st.main == Looping
    case SeeStopped => st.main == Looping && st.stops > 0
    case SeeTooEarly => st.main == Looping && st.stopWithoutDrain
  }

  /** The closure returned without an error, so the watcher goroutine is started. */
  function Finish(st: State): State {
    st.(start := Started, watch := Watching)
  }

  function Step(st: State, act: Action): State
    requires Enabled(st, act)
  {
    match act
    case NewServer(ok) => st.(start := if ok then Checking else Failing)
    case Check => if st.status.shutdownRequested then Finish(st) else st.(start := PreStarting)
    case PreStart(ok) => st.(start := if ok then Publishing else Failing)
    case Publish =>
      var (status, inProgress) := AfterSetStarted(st.status);
      st.(status := status, published := true, start := if inProgress then MustStop else Serving(4))
    case StopAsStarter => Finish(st.(stops := st.stops + 1))
    case Serve(ok) =>
      var s := st.(served := true);
      if !ok then s.(start := Failing)
      else if st.start.left == 1 then Finish(s)
      else s.(start := Serving(st.start.left - 1))
    case ReportFailure => st.(requests := st.requests + [false], start := Started)
    case ServerAsks(g) => st.(requests := st.requests + [g], watch := WatchDone)
    case Quiesce => st.(watch := WatchDone)
    case GetRequest => st.(requests := st.requests[1..], main := Looping, stop := Asked(st.requests[0]))
    case GetSignal => st.(main := Looping, stop := Asked(true))
    case AbruptSignal => st.(main := Exited)
    case FatalError => st.(main := Fatal, stops := st.stops + 1)
    case BeginShutdown =>
      var (status, canUseDrain) := AfterStartShutdown(st.status);
      var s := st.(status := status);
      if !canUseDrain then s.(stopWithoutDrain := true, stop := StopDone)
      else if st.stop.drain then s.(drains := st.drains + 1, stop := Draining)
      else s.(stop := MustStopAfterDrain)
    case CallDrain(again) =>
      st.(drainCalls := st.drainCalls + 1, stop := if again then Draining else MustStopAfterDrain)
    case StopAfterDrain => st.(stops := st.stops + 1, stop := StopDone)
    case AnotherRequest => st.(requests := st.requests[1..], main := if st.requests[0] then Looping else Returned)
    case TermAgain => st
    case OtherSignal => st.(main := Exited)
    case SeeStopped | SeeTooEarly => st.(main := Returned)
  }

  ghost predicate IsRun(sts: seq<State>, acts: seq<Action>) {
    && |sts| == |acts| + 1
    && sts[0] == INIT
    && forall i :: 0 <= i < |acts| ==> Enabled(sts[i], acts[i]) && sts[i + 1] == Step(sts[i], acts[i])
  }

  /** Whether each side still owes the call to stopper.Stop. */
  function StarterOwes(st: State): nat {
    if st.start == MustStop then 1 else 0
  }

  function StopperOwes(st: State): nat {
    if st.stop == Draining || st.stop == MustStopAfterDrain then 1 else 0
  }

  predicate ShutdownBegan(st: State) {
    st.status.shutdownRequested
  }

  /** The call to stopper.Stop is owed by exactly one side from the moment both have announced themselves. */
  ghost predicate StopOwnership(st: State) {
    && (st.main == Fatal ==> st.stops == 1 && !ShutdownBegan(st) && st.stop.NoStop? && st.start != MustStop)
    && (st.main != Fatal ==>
          st.stops + StarterOwes(st) + StopperOwes(st) == if st.published && ShutdownBegan(st) then 1 else 0)
  }

  ghost predicate ShutdownPhases(st: State) {
    && (st.main == Waiting ==> st.stop.NoStop?)
    && (st.main == Looping ==> !st.stop.NoStop?)
    && (ShutdownBegan(st) <==> st.stop == Draining || st.stop == MustStopAfterDrain || st.stop == StopDone)
    && (st.stop == StopDone ==> st.stopWithoutDrain || st.stops > 0)
  }

  ghost predicate HandOver(st: State) {
    && (st.status.handedOver ==> st.published)
    && (st.published && !st.status.handedOver ==> ShutdownBegan(st))
    && (st.start in {Creating, Checking, PreStarting, Publishing} ==> !st.published)
    && (st.start == MustStop ==> st.published && !st.status.handedOver)
    && (st.served || st.start.Serving? ==> st.status.handedOver)
  }

  ghost predicate Drains(st: State) {
    && (StopperOwes(st) == 1 ==> st.status.handedOver)
    && (st.stop == Draining ==> st.drains == 1)
    && (!ShutdownBegan(st) ==> st.drains == 0)
    && st.drains <= 1
    && (st.drains == 1 ==> st.status.handedOver)
    && (st.drainCalls > 0 ==> st.drains == 1)
    && (st.drains == 1 && st.stop != Draining ==> st.drainCalls > 0)
  }

  /** A send on shutdownReqC never has to wait. */
  ghost predicate OneRequest(st: State) {
    && |st.requests| <= 1
    && (st.watch != NotWatching ==> st.start == Started)
    && (st.requests != [] ==> st.start == Started && st.watch != Watching)
  }

  ghost predicate Inv(st: State) {
    StopOwnership(st) && ShutdownPhases(st) && HandOver(st) && Drains(st) && OneRequest(st)
  }

  /** The steps of the goroutine that starts the server and of the one that forwards its requests. */
  predicate OnStartSide(act: Action) {
    act.NewServer? || act.Check? || act.PreStart? || act.Publish? || act.StopAsStarter? || act.Serve?
    || act.ReportFailure? || act.ServerAsks? || act.Quiesce?
  }

  predicate OnStopSide(act: Action) {
    act.BeginShutdown? || act.CallDrain? || act.StopAfterDrain?
  }

  lemma StartSideKeepsOwnership(st: State, act: Action)
    requires StopOwnership(st) && ShutdownPhases(st) && HandOver(st) && Enabled(st, act) && OnStartSide(act)
    ensures StopOwnership(Step(st, act))
  {
  }

  lemma StopSideKeepsOwnership(st: State, act: Action)
    requires StopOwnership(st) && ShutdownPhases(st) && HandOver(st) && Enabled(st, act) && OnStopSide(act)
    ensures StopOwnership(Step(st, act))
  {
  }

  lemma MainSideKeepsOwnership(st: State, act: Action)
    requires StopOwnership(st) && ShutdownPhases(st) && HandOver(st) && Enabled(st, act)
    requires !OnStartSide(act) && !OnStopSide(act)
    ensures StopOwnership(Step(st, act))
  {
  }

  lemma StepKeepsOwnership(st: State, act: Action)
    requires StopOwnership(st) && ShutdownPhases(st) && HandOver(st) && Enabled(st, act)
    ensures StopOwnership(Step(st, act))
  {
    if OnStartSide(act) {
      StartSideKeepsOwnership(st, act);
    } else if OnStopSide(act) {
      StopSideKeepsOwnership(st, act);
    } else {
      MainSideKeepsOwnership(st, act);
    }
  }

  lemma StartSideKeepsPhases(st: State, act: Action)
    requires ShutdownPhases(st) && Enabled(st, act) && OnStartSide(act)
    ensures ShutdownPhases(Step(st, act))
  {
  }

  lemma StopSideKeepsPhases(st: State, act: Action)
    requires ShutdownPhases(st) && Enabled(st, act) && !OnStartSide(act)
    ensures ShutdownPhases(Step(st, act))
  {
  }

  lemma StepKeepsPhases(st: State, act: Action)
    requires ShutdownPhases(st) && Enabled(st, act)
    ensures ShutdownPhases(Step(st, act))
  {
    if OnStartSide(act) {
      StartSideKeepsPhases(st, act);
    } else {
      StopSideKeepsPhases(st, act);
    }
  }

  lemma StepKeepsHandOver(st: State, act: Action)
    requires HandOver(st) && Enabled(st, act)
    ensures HandOver(Step(st, act))
  {
  }

  lemma StepKeepsDrains(st: State, act: Action)
    requires ShutdownPhases(st) && Drains(st) && Enabled(st, act)
    ensures Drains(Step(st, act))
  {
  }

  lemma StepKeepsRequests(st: State, act: Action)
    requires OneRequest(st) && Enabled(st, act)
    ensures OneRequest(Step(st, act))
  {
  }

  lemma StepKeepsInv(st: State, act: Action)
    requires Inv(st) && Enabled(st, act)
    ensures Inv(Step(st, act))
  {
    StepKeepsOwnership(st, act);
    StepKeepsPhases(st, act);
    StepKeepsHandOver(st, act);
    StepKeepsDrains(st, act);
    StepKeepsRequests(st, act);
  }

  lemma {:induction false} RunKeepsInv(sts: seq<State>, acts: seq<Action>, k: nat)
    requires IsRun(sts, acts) && k <= |acts|
    ensures Inv(sts[k])
  {
    if k > 0 {
      RunKeepsInv(sts, acts, k - 1);
      StepKeepsInv(sts[k - 1], acts[k - 1]);
    }
  }

  /** Nobody ever stops the server twice, and there is at most one drain phase, which makes all the calls to Drain. */
  lemma OneStopOneDrainPhase(sts: seq<State>, acts: seq<Action>, k: nat)
    requires IsRun(sts, acts) && k <= |acts|
    ensures sts[k].stops <= 1 && sts[k].drains <= 1
    ensures sts[k].stop != Draining ==> (sts[k].drainCalls > 0 <==> sts[k].drains == 1)
    ensures sts[k].drains == 0 ==> sts[k].drainCalls == 0
  {
    RunKeepsInv(sts, acts, k);
  }

  /**
   * Once setStarted and startShutdown have both run, exactly one call to
   * stopper.Stop has been made or is owed by exactly one side; when both
   * goroutines are through, it has been made.
   */
  lemma ExactlyOneStop(sts: seq<State>, acts: seq<Action>, k: nat)
    requires IsRun(sts, acts) && k <= |acts|
    requires sts[k].published && ShutdownBegan(sts[k])
    ensures sts[k].stops + StarterOwes(sts[k]) + StopperOwes(sts[k]) == 1
    ensures sts[k].start == Started && sts[k].stop == StopDone ==> sts[k].stops == 1
  {
    RunKeepsInv(sts, acts, k);
  }

  /** Every call to Drain comes on a server that was handed over, after shutdown was announced and before Stop. */
  lemma DrainOnlyAfterHandOver(sts: seq<State>, acts: seq<Action>, k: nat)
    requires IsRun(sts, acts) && k < |acts| && acts[k].CallDrain?
    ensures sts[k].status.handedOver && ShutdownBegan(sts[k]) && sts[k].drains == 1 && sts[k].stops == 0
  {
    RunKeepsInv(sts, acts, k);
  }

  /** Clients are let in only on a server that was handed over, never after a shutdown that came first. */
  lemma ServesOnlyAfterHandOver(sts: seq<State>, acts: seq<Action>, k: nat)
    requires IsRun(sts, acts) && k < |acts| && acts[k].Serve?
    ensures sts[k].status.handedOver
  {
    RunKeepsInv(sts, acts, k);
  }

  /** Requests never block their sender. */
  lemma SendsDoNotBlock(sts: seq<State>, acts: seq<Action>, k: nat)
    requires IsRun(sts, acts) && k <= |acts|
    ensures sts[k].start == Failing ==> Enabled(sts[k], ReportFailure)
    ensures sts[k].watch == Watching ==> Enabled(sts[k], ServerAsks(true))
  {
    RunKeepsInv(sts, acts, k);
  }

  /** The main goroutine is not left waiting once the shutdown goroutine is through. */
  lemma MainCanReturn(sts: seq<State>, acts: seq<Action>, k: nat)
    requires IsRun(sts, acts) && k <= |acts|
    requires sts[k].main == Looping && sts[k].stop == StopDone
    ensures Enabled(sts[k], SeeStopped) || Enabled(sts[k], SeeTooEarly)
  {
    RunKeepsInv(sts, acts, k);
  }

  /** The server has asked for a graceful shutdown within the first k actions. */
  ghost predicate AskedGracefully(acts: seq<Action>, k: nat)
    requires k <= |acts|
  {
    exists i :: 0 <= i < k && acts[i] == ServerAsks(true)
  }

  /** What started the shutdown was a signal, or a request of the server for a graceful one. */
  ghost predicate Graceful(acts: seq<Action>, k: nat)
    requires k <= |acts|
  {
    exists j :: 0 <= j < k && StartsGracefully(acts, j)
  }

  ghost predicate StartsGracefully(acts: seq<Action>, j: nat)
    requires j < |acts|
  {
    acts[j] == GetSignal || (acts[j] == GetRequest && AskedGracefully(acts, j))
  }

  ghost predicate Failed(acts: seq<Action>, k: nat)
    requires k <= |acts|
  {
    exists i :: 0 <= i < k && acts[i] == ReportFailure
  }

  function ServeSteps(acts: seq<Action>, k: nat): nat
    requires k <= |acts|
  {
    if k == 0 then 0 else ServeSteps(acts, k - 1) + if acts[k - 1] == Serve(true) then 1 else 0
  }

  lemma HistoryNext(acts: seq<Action>, k: nat)
    requires k < |acts|
    ensures AskedGracefully(acts, k + 1) <==> AskedGracefully(acts, k) || acts[k] == ServerAsks(true)
    ensures Graceful(acts, k + 1) <==> Graceful(acts, k) || StartsGracefully(acts, k)
    ensures Failed(acts, k + 1) <==> Failed(acts, k) || acts[k] == ReportFailure
  {
  }

  /** A waiting request says whether the server asked for a graceful shutdown. */
  ghost predicate RequestCause(st: State, asked: bool) {
    && (st.requests != [] ==> (st.requests[0] <==> asked))
    && (st.watch != WatchDone ==> !asked)
  }

  /** The drain goes back to what started the shutdown. */
  ghost predicate DrainCause(st: State, graceful: bool) {
    && (st.stop.NoStop? ==> !graceful)
    && (st.stop.Asked? ==> (st.stop.drain <==> graceful) && st.drains == 0)
    && (StopperOwes(st) == 1 || (st.stop == StopDone && !st.stopWithoutDrain) ==> (st.drains == 1 <==> graceful))
  }

  /** Some step of start-up failed. */
  ghost predicate Broke(acts: seq<Action>, k: nat)
    requires k <= |acts|
  {
    exists i :: 0 <= i < k && IsFailure(acts[i])
  }

  predicate IsFailure(act: Action) {
    act == NewServer(false) || act == PreStart(false) || act == Serve(false)
  }

  ghost predicate Did(acts: seq<Action>, k: nat, act: Action)
    requires k <= |acts|
  {
    exists i :: 0 <= i < k && acts[i] == act
  }

  /** Start-up gets on by steps that succeed, and fails by one that does not. */
  ghost predicate Prepared(st: State, created: bool, prepared: bool, broke: bool) {
    && (st.start in {Checking, PreStarting} ==> created)
    && (st.start in {Publishing, MustStop} || st.start.Serving? || st.published ==> created && prepared)
    && (st.start in {Creating, Checking, PreStarting, Publishing, MustStop} || st.start.Serving? ==> !broke)
    && (st.start == Failing ==> broke)
  }

  lemma StepKeepsPrepared(st: State, act: Action, created: bool, prepared: bool, broke: bool)
    requires HandOver(st) && Enabled(st, act) && Prepared(st, created, prepared, broke)
    ensures Prepared(Step(st, act), created || act == NewServer(true), prepared || act == PreStart(true),
                     broke || IsFailure(act))
  {
  }

  lemma {:induction false} RunKeepsPrepared(sts: seq<State>, acts: seq<Action>, k: nat)
    requires IsRun(sts, acts) && k <= |acts|
    ensures Prepared(sts[k], Did(acts, k, NewServer(true)), Did(acts, k, PreStart(true)), Broke(acts, k))
  {
    if k > 0 {
      RunKeepsPrepared(sts, acts, k - 1);
      RunKeepsInv(sts, acts, k - 1);
      StepKeepsPrepared(sts[k - 1], acts[k - 1], Did(acts, k - 1, NewServer(true)), Did(acts, k - 1, PreStart(true)),
                        Broke(acts, k - 1));
      DidNext(acts, k - 1);
    }
  }

  lemma DidNext(acts: seq<Action>, k: nat)
    requires k < |acts|
    ensures forall act :: Did(acts, k + 1, act) <==> Did(acts, k, act) || acts[k] == act
    ensures Broke(acts, k + 1) <==> Broke(acts, k) || IsFailure(acts[k])
  {
    forall act
      ensures Did(acts, k + 1, act) <==> Did(acts, k, act) || acts[k] == act
    {
    }
  }

  /** Only a server that was created and pre-started is handed over, and a failure is reported only after one. */
  lemma PublishesOnlyPrepared(sts: seq<State>, acts: seq<Action>, k: nat)
    requires IsRun(sts, acts) && k < |acts|
    ensures acts[k] == Publish ==> Did(acts, k, NewServer(true)) && Did(acts, k, PreStart(true)) && !Broke(acts, k)
    ensures acts[k] == ReportFailure ==> Broke(acts, k)
  {
    RunKeepsPrepared(sts, acts, k);
  }

  /** How far start-up got. */
  ghost predicate Progress(st: State, failed: bool, serveSteps: nat) {
    && (st.start in {Creating, Checking, PreStarting, Publishing, MustStop} ==> serveSteps == 0 && !failed)
    && (st.start.Serving? ==> serveSteps + st.start.left == 4 && !failed)
    && (st.start == Started && !failed ==>
          st.watch != NotWatching && if st.status.handedOver then serveSteps == 4 else ShutdownBegan(st))
  }

  lemma StepKeepsRequestCause(st: State, act: Action, asked: bool)
    requires OneRequest(st) && Enabled(st, act) && RequestCause(st, asked)
    ensures RequestCause(Step(st, act), asked || act == ServerAsks(true))
  {
  }

  lemma StepKeepsDrainCause(st: State, act: Action, asked: bool, graceful: bool)
    requires ShutdownPhases(st) && Drains(st) && Enabled(st, act) && RequestCause(st, asked) && DrainCause(st, graceful)
    ensures DrainCause(Step(st, act), graceful || act == GetSignal || (act == GetRequest && asked))
  {
  }

  lemma StepKeepsProgress(st: State, act: Action, failed: bool, serveSteps: nat)
    requires HandOver(st) && Enabled(st, act) && Progress(st, failed, serveSteps)
    ensures Progress(Step(st, act), failed || act == ReportFailure, serveSteps + if act == Serve(true) then 1 else 0)
  {
  }

  lemma {:induction false} RunKeepsHistory(sts: seq<State>, acts: seq<Action>, k: nat)
    requires IsRun(sts, acts) && k <= |acts|
    ensures RequestCause(sts[k], AskedGracefully(acts, k)) && DrainCause(sts[k], Graceful(acts, k))
    ensures Progress(sts[k], Failed(acts, k), ServeSteps(acts, k))
  {
    if k > 0 {
      var st, act := sts[k - 1], acts[k - 1];
      RunKeepsHistory(sts, acts, k - 1);
      RunKeepsInv(sts, acts, k - 1);
      HistoryNext(acts, k - 1);
      StepKeepsRequestCause(st, act, AskedGracefully(acts, k - 1));
      StepKeepsDrainCause(st, act, AskedGracefully(acts, k - 1), Graceful(acts, k - 1));
      StepKeepsProgress(st, act, Failed(acts, k - 1), ServeSteps(acts, k - 1));
    }
  }

  /**
   * Once the shutdown goroutine owes the call to Stop, or is through with a server
   * that was handed over in time, the server is being or was drained if and only
   * if a signal or a graceful request of the server started the shutdown.
   */
  lemma DrainsIffGraceful(sts: seq<State>, acts: seq<Action>, k: nat)
    requires IsRun(sts, acts) && k <= |acts|
    requires StopperOwes(sts[k]) == 1 || (sts[k].stop == StopDone && !sts[k].stopWithoutDrain)
    ensures sts[k].drains == 1 <==> Graceful(acts, k)
  {
    RunKeepsHistory(sts, acts, k);
  }

  /**
   * Start-up that came to its end and reported no failure has let clients in by
   * all four serving steps, or gave way to a shutdown that came first; and the
   * server's own requests are watched for.
   */
  lemma StartupCompletes(sts: seq<State>, acts: seq<Action>, k: nat)
    requires IsRun(sts, acts) && k <= |acts|
    requires sts[k].start == Started && !Failed(acts, k)
    ensures if sts[k].status.handedOver then ServeSteps(acts, k) == 4 else ShutdownBegan(sts[k])
    ensures sts[k].watch != NotWatching
  {
    RunKeepsHistory(sts, acts, k);
  }

  /**
   * During a shutdown the main goroutine returns only when the server was stopped,
   * it was too early to drain, or a request came that is not graceful; a graceful
   * one lets the shutdown go on.
   */
  lemma MainWaitsForShutdown(sts: seq<State>, acts: seq<Action>, k: nat)
    requires IsRun(sts, acts) && k < |acts| && sts[k].main == Looping
    ensures sts[k + 1].main == Returned ==>
              || sts[k].stops > 0 || sts[k].stopWithoutDrain
              || (acts[k] == AnotherRequest && !AskedGracefully(acts, k))
    ensures acts[k] == TermAgain || (acts[k] == AnotherRequest && AskedGracefully(acts, k)) ==>
              sts[k + 1].main == Looping
  {
    RunKeepsHistory(sts, acts, k);
    MainStep(sts[k], acts[k], AskedGracefully(acts, k));
  }

  lemma MainStep(st: State, act: Action, asked: bool)
    requires st.main == Looping && Enabled(st, act) && RequestCause(st, asked)
    ensures Step(st, act).main == Returned ==>
              st.stops > 0 || st.stopWithoutDrain || (act == AnotherRequest && !asked)
    ensures act == TermAgain || (act == AnotherRequest && asked) ==> Step(st, act).main == Looping
  {
  }
}
