/**
 The deferred driver-lifecycle machine of the main window: queued transitions that wait for busy
 workers, write gates whose lock call may fail, and one background lifecycle task at a time.
 `Window` is the value of the window's fields; every method of the class is tied to a function on it.
 */
module Lifecycle {
  import opened Wrappers

  datatype Action =
    | NoAction | BringLabOnline | InstallDriver | StartDriver | StopDriver | RemoveDriver
    | InstallProbe | StartProbe | StopProbe | RemoveProbe

  datatype Deferred = NoDeferred | DisconnectProcess | ConnectBackend | AttachProcess | StartLifecycle

  predicate ChangesService(a: Action) {
    a == BringLabOnline || a == InstallDriver || a == StartDriver || a == StopDriver || a == RemoveDriver
  }

  predicate ClosesBackend(a: Action) {
    a == BringLabOnline || a == InstallDriver || a == StopDriver || a == RemoveDriver
  }

  /** The objects the window drives: process and driver with their write gates, and the panels' workers. */
  datatype Devices = Devices(
    process: Option<nat>, processArmed: bool, connected: bool, writeEnabled: bool, authorized: bool,
    processBusy: bool, usageBusy: bool, kernelBusy: bool,
    recoveryRequired: bool)                  // an uncertain physical transaction awaits observation

  predicate BackendBusy(d: Devices) { d.processBusy || d.usageBusy || d.kernelBusy }

  predicate GatesClosed(d: Devices) { !d.writeEnabled && (d.process.Some? ==> !d.processArmed) }

  /** A launched lifecycle task, and the devices as they were then. */
  datatype Launch = Launch(action: Action, devices: Devices)

  datatype Window = Window(
    deferred: Deferred, lifecycle: Action, target: Option<nat>, lockRequested: bool,
    inFlight: seq<Action>,                   // lifecycle tasks whose future is valid
    devices: Devices,
    locks: nat, launches: seq<Launch>)       // history: runs of the lock, and launched tasks

  predicate LifecycleBusy(w: Window) { w.inFlight != [] || w.deferred == StartLifecycle }

  /** How a lock call ends: whether it reports success, and whether the gate is still open after it. */
  datatype LockCall = LockCall(ok: bool, stillOpen: bool)

  /** What the outside world answers during one poll. */
  datatype World = World(process1: LockCall, driver1: LockCall, process2: LockCall, driver2: LockCall,
                         attachOk: bool, connects: bool)

  // ---- the functions

  /** The devices after revoking authorization and trying to close every gate. */
  function CloseGates(d: Devices, process: LockCall, driver: LockCall): Devices {
    d.(authorized := false,
       processArmed := if d.process.Some? && d.processArmed then process.stillOpen else d.processArmed,
       writeEnabled := if d.connected then driver.stillOpen else d.writeEnabled)
  }

  /** Every lock call succeeded and every gate reports closed. */
  predicate LockSucceeds(d: Devices, process: LockCall, driver: LockCall) {
    && (d.process.Some? && d.processArmed ==> process.ok)
    && (d.connected ==> driver.ok)
    && GatesClosed(CloseGates(d, process, driver))
  }

  function Locked(w: Window, process: LockCall, driver: LockCall): Window {
    w.(devices := CloseGates(w.devices, process, driver), locks := w.locks + 1)
  }

  function Launched(w: Window, a: Action): Window {
    if w.inFlight != [] || a == NoAction then w
    else w.(inFlight := w.inFlight + [a], launches := w.launches + [Launch(a, w.devices)])
  }

  function Queued(w: Window, d: Deferred, a: Action, target: Option<nat>): Window {
    if d == NoDeferred || w.deferred != NoDeferred then w
    else w.(deferred := d, lifecycle := a, target := target)
  }

  function Started(w: Window, a: Action): Window {
    if a == NoAction || LifecycleBusy(w) || w.devices.recoveryRequired then w
    else if ChangesService(a) then Queued(w, StartLifecycle, a, None)
    else Launched(w, a)
  }

  /** The queued lock request, run once no backend worker is busy. */
  function AfterLockRequest(w: Window, o: World): Window {
    if w.lockRequested && !BackendBusy(w.devices)
    then Locked(w, o.process1, o.driver1).(lockRequested := false) else w
  }

  predicate Waits(w: Window) {
    if w.deferred == ConnectBackend || w.deferred == StartLifecycle then BackendBusy(w.devices)
    else w.devices.processBusy
  }

  predicate DetachFails(d: Devices, process: LockCall) {
    d.process.Some? && d.processArmed && (!process.ok || process.stillOpen)
  }

  /** Detaching leaves the process attached when its gate cannot be closed. */
  function Detached(d: Devices, process: LockCall): Devices {
    if DetachFails(d, process) then d.(processArmed := process.stillOpen)
    else d.(process := None, processArmed := false, authorized := false)
  }

  function AfterProcessAction(w: Window, o: World): Window {
    var d := Detached(w.devices, o.process2);
    var attaches := !DetachFails(w.devices, o.process2) && w.deferred == AttachProcess && w.target.Some? && o.attachOk;
    w.(deferred := NoDeferred, target := None,
       devices := if attaches then d.(process := w.target) else d)
  }

  function AfterConnect(w: Window, o: World): Window {
    var locked := Locked(w.(deferred := NoDeferred), o.process2, o.driver2);
    if !LockSucceeds(w.devices, o.process2, o.driver2) then locked
    else locked.(devices := locked.devices.(connected := o.connects, writeEnabled := false))
  }

  /** The devices a lifecycle task finds: workers joined and, where it must be, the backend closed. */
  function Readied(d: Devices, a: Action): Devices {
    if ClosesBackend(a) then d.(usageBusy := false, connected := false, writeEnabled := false)
    else d.(usageBusy := false)
  }

  function AfterStartLifecycle(w: Window, o: World): Window {
    var locked := Locked(w.(deferred := NoDeferred, lifecycle := NoAction), o.process2, o.driver2);
    if !LockSucceeds(w.devices, o.process2, o.driver2) then locked
    else Launched(locked.(devices := Readied(locked.devices, w.lifecycle)), w.lifecycle)
  }

  function AfterAction(w: Window, o: World): Window {
    if w.deferred == NoDeferred || Waits(w) then w
    else match w.deferred
      case ConnectBackend => AfterConnect(w, o)
      case StartLifecycle => AfterStartLifecycle(w, o)
      case _ => AfterProcessAction(w, o)
  }

  function Polled(w: Window, o: World): Window { AfterAction(AfterLockRequest(w, o), o) }

  /** Revokes authorization, asks each open gate to close, and reports whether all are. */
  method TryLock(before: Devices, process: LockCall, driver: LockCall) returns (d: Devices, ok: bool)
    ensures d == CloseGates(before, process, driver)
    ensures ok == LockSucceeds(before, process, driver)
  {
    var failures := 0;
    var armed, enabled := before.processArmed, before.writeEnabled;
    if before.process.Some? && armed {
      armed := process.stillOpen;
      if !process.ok { failures := failures + 1; }
    }
    if before.connected {
      enabled := driver.stillOpen;
      if !driver.ok { failures := failures + 1; }
    }
    d := before.(authorized := false, processArmed := armed, writeEnabled := enabled);
    ok := failures == 0 && !enabled && (before.process.None? || !armed);
  }

  // ---- runs

  datatype Event =
    | Start(a: Action) | RequestLock
    | QueueDisconnect | QueueConnect | QueueAttach(target: nat)
    | Poll(o: World)                             // PollDeferredAction
    | TaskFinishes                               // PollLifecycleAction takes the finished task's outcome
    | CancelQueued                               // the cancel button, while a lifecycle action is queued
    | Apply(uncertain: bool)                     // a physical apply; offered only while no lifecycle is busy
    | Observe                                    // the uncertain transaction is observed
    | Workers(process: bool, usage: bool, kernel: bool)       // workers start and finish
    | Unlock(armed: bool, enabled: bool, authorized: bool)    // gates opened, freezing authorized elsewhere
    | Connected(yes: bool)                       // the backend opened or closed after a finished task

  function Step(w: Window, e: Event): Window {
    match e
    case Start(a) => Started(w, a)
    case RequestLock => w.(lockRequested := true)
    case QueueDisconnect => if w.devices.recoveryRequired then w else Queued(w, DisconnectProcess, NoAction, None)
    case QueueConnect => if w.devices.recoveryRequired then w else Queued(w, ConnectBackend, NoAction, None)
    case QueueAttach(p) => if w.devices.recoveryRequired then w else Queued(w, AttachProcess, NoAction, Some(p))
    case Poll(o) => Polled(w, o)
    case TaskFinishes => if w.inFlight == [] then w else w.(inFlight := w.inFlight[1..])
    case CancelQueued =>
      if w.deferred == StartLifecycle then w.(deferred := NoDeferred, lifecycle := NoAction) else w
    case Apply(uncertain) =>
      if LifecycleBusy(w) || w.devices.recoveryRequired then w
      else w.(devices := w.devices.(recoveryRequired := uncertain))
    case Observe => w.(devices := w.devices.(recoveryRequired := false))
    case Workers(p, u, k) => w.(devices := w.devices.(processBusy := p, usageBusy := u, kernelBusy := k))
    case Unlock(armed, enabled, authorized) =>
      w.(devices := w.devices.(processArmed := armed, writeEnabled := enabled, authorized := authorized))
    case Connected(yes) => w.(devices := w.devices.(connected := yes))
  }

  function Run(w: Window, es: seq<Event>): Window
    decreases |es|
  {
    if es == [] then w else Run(Step(w, es[0]), es[1..])
  }

  function Initial(d: Devices): Window { Window(NoDeferred, NoAction, None, false, [], d, 0, []) }

  // ---- the invariant

  /** Launched as promised: nothing uncertain pending and, for a service change, idle and locked. */
  ghost predicate LaunchOk(l: Launch) {
    && l.action != NoAction && !l.devices.recoveryRequired
    && (ChangesService(l.action) ==> !BackendBusy(l.devices) && GatesClosed(l.devices) && !l.devices.authorized)
  }

  ghost predicate Inv(w: Window) {
    && |w.inFlight| <= 1
    && (w.deferred == StartLifecycle ==>
          w.inFlight == [] && ChangesService(w.lifecycle) && !w.devices.recoveryRequired)
    && (forall k | 0 <= k < |w.launches| :: LaunchOk(w.launches[k]))
  }

  lemma PollKeepsInv(w: Window, o: World)
    requires Inv(w)
    ensures Inv(Polled(w, o))
  {
    var v := AfterLockRequest(w, o);
    assert Inv(v);
    if v.deferred == StartLifecycle && !Waits(v) && LockSucceeds(v.devices, o.process2, o.driver2) {
      var ready := Readied(CloseGates(v.devices, o.process2, o.driver2), v.lifecycle);
      assert LaunchOk(Launch(v.lifecycle, ready));
    }
  }

  lemma StepKeepsInv(w: Window, e: Event)
    requires Inv(w)
    ensures Inv(Step(w, e))
  {
    match e {
      case Poll(o) => PollKeepsInv(w, o);
      case Start(a) =>
        if !w.devices.recoveryRequired && !ChangesService(a) && a != NoAction { assert LaunchOk(Launch(a, w.devices)); }
      case _ =>
    }
  }

  lemma {:induction false} RunKeepsInv(w: Window, es: seq<Event>)
    requires Inv(w)
    ensures Inv(Run(w, es))
    decreases |es|
  {
    if es != [] {
      StepKeepsInv(w, es[0]);
      RunKeepsInv(Step(w, es[0]), es[1..]);
    }
  }

  // ---- the guarantees

  /** In every run: at most one task in flight, and every task was launched as promised. */
  lemma EveryLaunchGuarded(d: Devices, es: seq<Event>)
    ensures |Run(Initial(d), es).inFlight| <= 1
    ensures forall k | 0 <= k < |Run(Initial(d), es).launches| :: LaunchOk(Run(Initial(d), es).launches[k])
  {
    RunKeepsInv(Initial(d), es);
  }

  /**
   In every run a service change is launched only by a poll that finds no backend worker busy and
   whose own lock run succeeds, and a queued one is then launched, not dropped; while workers are
   busy it stays queued, and when the lock fails it is taken off the queue with nothing launched.
   */
  lemma QueuedLifecycleOutcome(d: Devices, es: seq<Event>, o: World)
    requires Run(Initial(d), es).deferred == StartLifecycle
    ensures var w := Run(Initial(d), es);
            var v := AfterLockRequest(w, o);
            var t := Polled(w, o);
            if BackendBusy(w.devices) then
              t == w
            else if LockSucceeds(v.devices, o.process2, o.driver2) then
              && t.inFlight == [w.lifecycle] && t.deferred == NoDeferred
              && t.launches == w.launches + [Launch(w.lifecycle, t.devices)] && t.locks > w.locks
            else
              t.deferred == NoDeferred && t.inFlight == [] && t.launches == w.launches && t.locks > w.locks
  {
    RunKeepsInv(Initial(d), es);
  }

  /** The service change queued in `w` is still queued, and nothing was launched meanwhile. */
  predicate StillQueued(v: Window, w: Window) {
    v.deferred == StartLifecycle && v.lifecycle == w.lifecycle && v.launches == w.launches
  }

  /** How event `e` ends the wait of a queued change: cancelled, or taken by a poll that finds the backend idle. */
  predicate EndsWait(v: Window, e: Event) {
    e.CancelQueued? || (e.Poll? && !BackendBusy(v.devices))
  }

  /** What becomes of a change whose wait ends: a cancel or a failed lock drops it, a lock that succeeds launches it. */
  ghost predicate Settled(v: Window, e: Event, t: Window) {
    if e.Poll? && LockSucceeds(AfterLockRequest(v, e.o).devices, e.o.process2, e.o.driver2) then
      t.inFlight == [v.lifecycle] && t.launches == v.launches + [Launch(v.lifecycle, t.devices)]
    else
      t.deferred == NoDeferred && t.inFlight == [] && t.launches == v.launches
  }

  lemma WaitsOrSettles(v: Window, e: Event)
    requires Inv(v) && v.deferred == StartLifecycle
    ensures if EndsWait(v, e) then Settled(v, e, Step(v, e)) else StillQueued(Step(v, e), v)
  {
  }

  /** The first event of a run that ends the wait, or the length of the run. */
  function WaitEnd(w: Window, es: seq<Event>): (k: nat)
    ensures k <= |es|
    decreases |es|
  {
    if es == [] then 0 else if EndsWait(w, es[0]) then 0 else 1 + WaitEnd(Step(w, es[0]), es[1..])
  }

  /**
   A queued change is never silently lost, whatever else happens. In every run it stays queued, with
   nothing launched in between, up to the first cancel or poll on an idle backend; there it is dropped by
   the cancel or by a lock that fails, and otherwise launched.
   */
  lemma {:induction false} QueuedChangeNeverLost(w: Window, es: seq<Event>)
    requires Inv(w) && w.deferred == StartLifecycle
    ensures var k := WaitEnd(w, es);
            && StillQueued(Run(w, es[..k]), w)
            && (k < |es| ==> && EndsWait(Run(w, es[..k]), es[k])
                             && Settled(Run(w, es[..k]), es[k], Step(Run(w, es[..k]), es[k])))
    decreases |es|
  {
    if es != [] {
      WaitsOrSettles(w, es[0]);
      if EndsWait(w, es[0]) {
        assert es[..0] == [];
      } else {
        StepKeepsInv(w, es[0]);
        var next, rest := Step(w, es[0]), es[1..];
        QueuedChangeNeverLost(next, rest);
        var k := WaitEnd(next, rest);
        assert es[..k + 1][0] == es[0] && es[..k + 1][1..] == rest[..k];
      }
    } else {
      assert es[..0] == [];
    }
  }

  predicate TakesRequest(w: Window) {
    !LifecycleBusy(w) && !w.devices.recoveryRequired && w.deferred == NoDeferred
  }

  /** From the first request on: a change accepted in any run is still queued, or its end is accounted for. */
  lemma AcceptedChangeNeverLost(d: Devices, es: seq<Event>, a: Action, more: seq<Event>)
    requires ChangesService(a) && TakesRequest(Run(Initial(d), es))
    ensures var w := Step(Run(Initial(d), es), Start(a));
            var k := WaitEnd(w, more);
            var v := Run(w, more[..k]);
            && v.deferred == StartLifecycle && v.lifecycle == a && v.launches == Run(Initial(d), es).launches
            && (k < |more| ==> Settled(v, more[k], Step(v, more[k])))
  {
    RunKeepsInv(Initial(d), es);
    var w := Run(Initial(d), es);
    StepKeepsInv(w, Start(a));
    QueuedChangeNeverLost(Step(w, Start(a)), more);
  }

  lemma {:induction false} RunJoined(w: Window, es: seq<Event>, more: seq<Event>)
    ensures Run(w, es + more) == Run(Run(w, es), more)
    decreases |es|
  {
    if es == [] {
      assert es + more == more;
    } else {
      assert (es + more)[1..] == es[1..] + more;
      RunJoined(Step(w, es[0]), es[1..], more);
    }
  }

  /**
   Otherwise the request is lost for good: every later course of events ends as if it had never been made.
   It is so if and only if a lifecycle is busy, recovery is pending or another transition is queued.
   */
  lemma RequestLostIff(d: Devices, es: seq<Event>, a: Action)
    requires ChangesService(a)
    ensures (forall more: seq<Event> :: Run(Initial(d), es + [Start(a)] + more) == Run(Initial(d), es + more)) <==>
            !TakesRequest(Run(Initial(d), es))
  {
    var w := Run(Initial(d), es);
    var next := Step(w, Start(a));
    forall more: seq<Event> ensures Run(Initial(d), es + [Start(a)] + more) == Run(next, more) {
      RunJoined(Initial(d), es + [Start(a)], more);
      RunJoined(Initial(d), es, [Start(a)]);
      assert [Start(a)][1..] == [];
    }
    forall more: seq<Event> ensures Run(Initial(d), es + more) == Run(w, more) {
      RunJoined(Initial(d), es, more);
    }
    if TakesRequest(w) {
      assert Run(next, []) == next != w == Run(w, []);
      assert Run(Initial(d), es + [Start(a)] + []) != Run(Initial(d), es + []);
    } else {
      assert next == w;
    }
  }

  /** A change requested behind another queued transition is lost: the poll that runs that one launches nothing. */
  lemma RequestBehindAnotherLost(d: Devices, a: Action, o: World)
    requires ChangesService(a) && !d.recoveryRequired && !d.processBusy
    ensures var w := Run(Initial(d), [QueueDisconnect, Start(a), Poll(o)]);
            w.deferred == NoDeferred && w.lifecycle == NoAction && w.launches == []
  {
    var w1 := Step(Initial(d), QueueDisconnect);
    var w2 := Step(w1, Start(a));
    assert w2 == w1;
    assert [QueueDisconnect, Start(a), Poll(o)][1..] == [Start(a), Poll(o)] && [Start(a), Poll(o)][1..] == [Poll(o)];
    assert Run(w2, [Poll(o)]) == Step(w2, Poll(o));
    assert Run(w1, [Start(a), Poll(o)]) == Step(w2, Poll(o));
  }

  /** A service change accepted while no worker is busy is in flight after one poll whose locks succeed. */
  lemma AcceptedChangeLaunches(d: Devices, es: seq<Event>, a: Action, o: World)
    requires var w := Run(Initial(d), es);
             && ChangesService(a) && TakesRequest(w) && !BackendBusy(w.devices)
             && LockSucceeds(AfterLockRequest(w, o).devices, o.process2, o.driver2)
    ensures var t := Step(Step(Run(Initial(d), es), Start(a)), Poll(o));
            t.inFlight == [a] && GatesClosed(t.devices) && !t.devices.authorized
  {
    RunKeepsInv(Initial(d), es);
    var w := Run(Initial(d), es);
    var v := Step(w, Start(a));
    assert AfterLockRequest(v, o).devices == AfterLockRequest(w, o).devices;
  }

  /** Only a poll launches a service change, and only from the queue. */
  lemma ServiceChangeOnlyByPoll(w: Window, e: Event)
    requires Inv(w) && |Step(w, e).launches| > |w.launches|
    ensures Step(w, e).launches == w.launches + [Step(w, e).launches[|w.launches|]]
    ensures var l := Step(w, e).launches[|w.launches|];
            ChangesService(l.action) ==> e.Poll? && w.deferred == StartLifecycle && w.lifecycle == l.action
  {
    if e.Poll? { assert AfterLockRequest(w, e.o).launches == w.launches; }
  }

  /** A lock request is cleared only by a poll that runs the lock while no backend worker is busy. */
  lemma LockRequestClearedOnlyByLock(w: Window, e: Event)
    requires w.lockRequested && !Step(w, e).lockRequested
    ensures e.Poll? && !BackendBusy(w.devices) && Step(w, e).locks > w.locks
  {
  }

  /** While a service change is queued or a task runs, no physical apply can make recovery necessary. */
  lemma NoRecoveryWhileQueued(d: Devices, es: seq<Event>)
    requires Run(Initial(d), es).deferred == StartLifecycle
    ensures !Run(Initial(d), es).devices.recoveryRequired
  {
    RunKeepsInv(Initial(d), es);
  }

  // ---- the window

  class MainWindow {
    var deferred: Deferred
    var lifecycle: Action
    var target: Option<nat>
    var lockRequested: bool
    var inFlight: seq<Action>
    var devices: Devices
    var locks: nat
    var launches: seq<Launch>

    function View(): Window
      reads this
    {
      Window(deferred, lifecycle, target, lockRequested, inFlight, devices, locks, launches)
    }

    /** What every run keeps: at most one task, and every task launched as promised. */
    ghost predicate Valid()
      reads this
    {
      Inv(View())
    }

    constructor (d: Devices)
      ensures Valid() && View() == Initial(d)
    {
      deferred, lifecycle, target := NoDeferred, NoAction, None;
      lockRequested, inFlight, devices := false, [], d;
      locks, launches := 0, [];
    }

    /** Called only for launches that are as promised; its own guard then never refuses. */
    method LaunchLifecycleAction(a: Action)
      requires Valid() && LaunchOk(Launch(a, devices)) && !LifecycleBusy(View())
      modifies this`inFlight, this`launches
      ensures Valid() && inFlight == [a] && launches == old(launches) + [Launch(a, devices)]
    {
      if inFlight != [] || a == NoAction { return; }
      launches := launches + [Launch(a, devices)];
      inFlight := inFlight + [a];
    }

    method FinishLockAllWrites(process: LockCall, driver: LockCall) returns (ok: bool)
      requires Valid()
      modifies this`devices, this`locks
      ensures Valid() && View() == Locked(old(View()), process, driver)
      ensures ok == LockSucceeds(old(devices), process, driver)
      ensures ok ==> GatesClosed(devices) && !devices.authorized
    {
      devices, ok := TryLock(devices, process, driver);
      locks := locks + 1;
    }

    method FinishDisconnectProcess(process: LockCall) returns (ok: bool)
      requires Valid()
      modifies this`devices
      ensures Valid() && devices == Detached(old(devices), process)
      ensures ok == !DetachFails(old(devices), process)
      ensures ok ==> devices.process.None? && !devices.processArmed
    {
      if devices.process.Some? && devices.processArmed {
        devices := devices.(processArmed := process.stillOpen);
        if !process.ok || devices.processArmed { return false; }
      }
      devices := devices.(process := None, processArmed := false, authorized := false);
      return true;
    }

    /** The pending lock request first, then the queued transition once its workers are idle. */
    method PollDeferredAction(o: World)
      requires Valid()
      modifies this
      ensures Valid() && View() == Polled(old(View()), o)
      ensures old(lockRequested) && !lockRequested ==> !old(BackendBusy(devices)) && locks > old(locks)
      ensures launches != old(launches) ==> old(deferred) == StartLifecycle && inFlight == [old(lifecycle)]
    {
      if lockRequested && !BackendBusy(devices) {
        lockRequested := false;
        var _ := FinishLockAllWrites(o.process1, o.driver1);
      }
      var action := deferred;
      if action == NoDeferred { return; }
      var waitsForBackend := action == ConnectBackend || action == StartLifecycle;
      if (waitsForBackend && BackendBusy(devices)) || (!waitsForBackend && devices.processBusy) { return; }
      if action == DisconnectProcess || action == AttachProcess {
        var _ := TakeProcessAction(o);
        return;
      }
      if action == ConnectBackend {
        deferred := NoDeferred;
        var locked := FinishLockAllWrites(o.process2, o.driver2);
        if !locked { return; }
        devices := devices.(connected := o.connects, writeEnabled := false);
        return;
      }
      var _ := TakeLifecycle(o);
    }

    /** The process goes only with its gate closed, and another is attached only after that. */
    method TakeProcessAction(o: World) returns (attached: bool)
      requires Valid() && (deferred == DisconnectProcess || deferred == AttachProcess)
      modifies this
      ensures Valid() && View() == AfterProcessAction(old(View()), o)
      ensures attached ==> devices.process == old(target) && !devices.processArmed && !devices.authorized
      ensures !attached ==>
                devices.process == if DetachFails(old(devices), o.process2) then old(devices).process else None
    {
      var action, process := deferred, target;
      deferred, target := NoDeferred, None;
      var detached := FinishDisconnectProcess(o.process2);
      if !detached || action == DisconnectProcess || process.None? || !o.attachOk { return false; }
      devices := devices.(process := process);
      return true;
    }

    /** The queued service change leaves the queue, and is launched exactly when its own lock succeeds. */
    method TakeLifecycle(o: World) returns (launched: bool)
      requires Valid() && deferred == StartLifecycle && !BackendBusy(devices)
      modifies this
      ensures Valid() && View() == AfterStartLifecycle(old(View()), o)
      ensures launched <==> LockSucceeds(old(devices), o.process2, o.driver2)
      ensures inFlight == if launched then [old(lifecycle)] else []
      ensures launched ==> LaunchOk(launches[|launches| - 1]) && launches[|launches| - 1].devices == devices
    {
      var a := lifecycle;
      deferred, lifecycle := NoDeferred, NoAction;
      launched := FinishLockAllWrites(o.process2, o.driver2);
      if !launched { return; }
      devices := devices.(usageBusy := false);
      if ClosesBackend(a) { devices := devices.(connected := false, writeEnabled := false); }
      LaunchLifecycleAction(a);
    }
  }
}
