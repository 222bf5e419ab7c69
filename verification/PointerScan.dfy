/**
 The pointer-scan panel as a protocol between the UI thread and its worker threads. An event is one
 atomic step of one thread, so a sequence of enabled events is one interleaving. Calls that block
 (joining a worker, taking the mutex) are enabled only once they can return.
 */
module PointerScan {
  import opened Wrappers

  type Options = int    // the scan options, opaque to the protocol
  type Outcome = int    // paths or error returned by a scan

  /** What one `Start` asked for. */
  datatype Request = Request(generation: nat, pid: nat, target: nat, options: Options)

  datatype Published = Published(request: Request, outcome: Outcome)

  datatype WorkerPc =
    | Scanning
    | Reporting                      // the progress callback has read the current generation
    | Returned(outcome: Outcome)
    | Publishing(outcome: Outcome)   // holds the mutex, has read the current generation
    | Finishing
    | Clearing                       // has read the current generation, about to clear `running`
    | Done

  datatype Thread = Thread(request: Request, stopRequested: bool, pc: WorkerPc)

  datatype UiPc =
    | Idle
    | StartJoin | StartParse | StartReady(target: nat, options: Options)
    | StartNumbered(request: Request) | StartEmptied(request: Request) | StartSpawning(request: Request)
    | ResetCancel(next: Option<nat>) | ResetJoin(next: Option<nat>) | ResetStop(next: Option<nat>)
    | ResetClear(next: Option<nat>) | Attaching(next: Option<nat>)
    | CancelJoin | CancelStop

  datatype State = State(
    attached: Option<nat>,          // process the panel is attached to; its scanner exists with it
    generation: nat, running: bool,
    published: Option<Published>,
    progress: Option<nat>,          // generation of the last progress written
    mutexHeld: bool,                // by a worker; the UI never holds it between steps
    threads: seq<Thread>,           // every worker ever started
    handle: Option<nat>,            // the joinable worker, as an index into `threads`
    ui: UiPc,
    current: Option<Request>)       // the last completed Start, if no Reset and no new Start followed

  const INITIAL := State(None, 0, false, None, None, false, [], None, Idle, None)

  datatype Event =
    // UI thread
    | BeginStart | Join | Parse(ok: bool, target: nat, options: Options) | Number | EmptyForStart | SetRunning | Spawn
    | BeginReset(next: Option<nat>) | RequestStop | ClearRunning | EmptyForReset | FinishAttach
    | BeginCancelAndWait | RequestCancel
    // worker thread `t`
    | ReportCheck(t: nat) | ReportWrite(t: nat) | ScanReturns(t: nat, outcome: Outcome)
    | PublishLock(t: nat) | PublishWrite(t: nat) | FinishCheck(t: nat) | FinishClear(t: nat)

  predicate IsWorker(e: Event) {
    e.ReportCheck? || e.ReportWrite? || e.ScanReturns? || e.PublishLock? || e.PublishWrite? ||
    e.FinishCheck? || e.FinishClear?
  }

  function At(s: State, t: nat, pc: WorkerPc): State
    requires t < |s.threads|
  {
    s.(threads := s.threads[t := s.threads[t].(pc := pc)])
  }

  /** `worker_.request_stop()` when there is a joinable worker. */
  function Stopped(s: State): State {
    if s.handle.Some? && s.handle.value < |s.threads|
    then s.(threads := s.threads[s.handle.value := s.threads[s.handle.value].(stopRequested := true)])
    else s
  }

  predicate CanJoin(s: State) {
    s.handle.Some? ==> s.handle.value < |s.threads| && s.threads[s.handle.value].pc == Done
  }

  function UiStep(s: State, e: Event): Option<State> {
    match e
    case BeginStart =>
      if !s.ui.Idle? then None
      else if s.attached.None? || s.running then Some(s)
      else Some(s.(ui := StartJoin))
    case Join =>
      if !CanJoin(s) then None
      else if s.ui.StartJoin? then Some(s.(handle := None, ui := StartParse))
      else if s.ui.ResetJoin? then Some(s.(handle := None, ui := ResetStop(s.ui.next)))
      else if s.ui.CancelJoin? then Some(s.(handle := None, ui := CancelStop))
      else None
    case Parse(ok, target, options) =>
      if !s.ui.StartParse? then None
      else if ok then Some(s.(ui := StartReady(target, options))) else Some(s.(ui := Idle))
    case Number =>
      if !s.ui.StartReady? || s.attached.None? then None
      else
        var r := Request(s.generation + 1, s.attached.value, s.ui.target, s.ui.options);
        Some(s.(generation := s.generation + 1, current := None, ui := StartNumbered(r)))
    case EmptyForStart =>
      if !s.ui.StartNumbered? || s.mutexHeld then None
      else Some(s.(published := None, progress := None, ui := StartEmptied(s.ui.request)))
    case SetRunning =>
      if !s.ui.StartEmptied? then None
      else Some(s.(running := true, ui := StartSpawning(s.ui.request)))
    case Spawn =>
      if !s.ui.StartSpawning? then None
      else Some(s.(threads := s.threads + [Thread(s.ui.request, false, Scanning)],
                   handle := Some(|s.threads|), current := Some(s.ui.request), ui := Idle))
    case BeginReset(next) =>
      if !s.ui.Idle? then None
      else Some(s.(generation := s.generation + 1, current := None, ui := ResetCancel(next)))
    case RequestStop =>
      if !s.ui.ResetCancel? then None else Some(Stopped(s).(ui := ResetJoin(s.ui.next)))
    case ClearRunning =>
      if s.ui.ResetStop? then Some(s.(running := false, ui := ResetClear(s.ui.next)))
      else if s.ui.CancelStop? then Some(s.(running := false, ui := Idle))
      else None
    case EmptyForReset =>
      if !s.ui.ResetClear? || s.mutexHeld then None
      else Some(s.(attached := None, published := None, progress := None, ui := Attaching(s.ui.next)))
    case FinishAttach =>
      if !s.ui.Attaching? then None else Some(s.(attached := s.ui.next, ui := Idle))
    case BeginCancelAndWait =>
      if !s.ui.Idle? then None else Some(Stopped(s).(ui := CancelJoin))
    case RequestCancel =>
      if !s.ui.Idle? then None else Some(Stopped(s))
    case _ => None
  }

  function WorkerStep(s: State, e: Event): Option<State>
    requires IsWorker(e)
  {
    if e.t >= |s.threads| then None
    else
      var w := s.threads[e.t];
      var mine := s.generation == w.request.generation;
      match e
      case ReportCheck(t) =>
        if !w.pc.Scanning? then None else Some(if mine then At(s, t, Reporting) else s)
      case ReportWrite(t) =>
        if !w.pc.Reporting? || s.mutexHeld then None
        else Some(At(s, t, Scanning).(progress := Some(w.request.generation)))
      case ScanReturns(t, outcome) =>
        if !w.pc.Scanning? then None else Some(At(s, t, Returned(outcome)))
      case PublishLock(t) =>
        if !w.pc.Returned? || s.mutexHeld then None
        else if mine then Some(At(s, t, Publishing(w.pc.outcome)).(mutexHeld := true))
        else Some(At(s, t, Finishing))
      case PublishWrite(t) =>
        if !w.pc.Publishing? then None
        else Some(At(s, t, Finishing).(published := Some(Published(w.request, w.pc.outcome)), mutexHeld := false))
      case FinishCheck(t) =>
        if !w.pc.Finishing? then None else Some(At(s, t, if mine then Clearing else Done))
      case FinishClear(t) =>
        if !w.pc.Clearing? then None else Some(At(s, t, Done).(running := false))
  }

  function Step(s: State, e: Event): Option<State> {
    if IsWorker(e) then WorkerStep(s, e) else UiStep(s, e)
  }

  /** The state after a sequence of events, if each was enabled. */
  function Run(s: State, es: seq<Event>): Option<State>
    decreases |es|
  {
    if es == [] then Some(s)
    else
      var next := Step(s, es[0]);
      if next.None? then None else Run(next.value, es[1..])
  }

  // ---- the invariant

  function Worker(s: State): Thread
    requires s.handle.Some? && s.handle.value < |s.threads|
  {
    s.threads[s.handle.value]
  }

  /** Threads and lock: only the joinable worker may be alive, and only it may hold the mutex. */
  ghost predicate Threading(s: State) {
    && (s.handle.Some? ==> s.handle.value < |s.threads|)
    && (forall i | 0 <= i < |s.threads| && s.threads[i].pc != Done :: s.handle == Some(i))
    && (s.mutexHeld <==> s.handle.Some? && Worker(s).pc.Publishing?)
  }

  predicate BeforePublish(pc: WorkerPc) {
    pc.Scanning? || pc.Reporting? || pc.Returned? || pc.Publishing?
  }

  /** Between operations, and before an operation has changed the generation. */
  ghost predicate Settled(s: State)
    requires Threading(s)
  {
    match s.current
    case None => s.handle.None? && !s.running && s.published.None? && s.progress.None?
    case Some(r) =>
      && r.generation == s.generation && s.attached == Some(r.pid)
      && (s.handle.Some? ==> Worker(s).request == r)
      && (s.published.Some? ==> s.published.value.request == r)
      && (s.progress.Some? ==> s.progress.value == r.generation)
      && (s.published.None? ==> s.handle.Some? && BeforePublish(Worker(s).pc))
      && (s.running <==> s.handle.Some? && Worker(s).pc != Done)
  }

  ghost predicate Inv(s: State) {
    && Threading(s)
    && match s.ui
       case Idle => Settled(s)
       case StartJoin => Settled(s) && !s.running && s.attached.Some?
       case StartParse => Settled(s) && s.handle.None? && s.attached.Some?
       case StartReady(_, _) => Settled(s) && s.handle.None? && s.attached.Some?
       case CancelJoin => Settled(s)
       case CancelStop => Settled(s) && s.handle.None?
       case StartNumbered(r) =>
         s.handle.None? && s.current.None? && !s.running && r.generation == s.generation && s.attached == Some(r.pid)
       case StartEmptied(r) =>
         && s.handle.None? && s.current.None? && !s.running && r.generation == s.generation
         && s.attached == Some(r.pid) && s.published.None? && s.progress.None?
       case StartSpawning(r) =>
         && s.handle.None? && s.current.None? && s.running && r.generation == s.generation
         && s.attached == Some(r.pid) && s.published.None? && s.progress.None?
       case ResetCancel(_) => s.current.None? && (s.handle.Some? ==> Worker(s).request.generation < s.generation)
       case ResetJoin(_) => s.current.None? && (s.handle.Some? ==> Worker(s).request.generation < s.generation)
       case ResetStop(_) => s.current.None? && s.handle.None?
       case ResetClear(_) => s.current.None? && s.handle.None? && !s.running
       case Attaching(_) =>
         s.current.None? && s.handle.None? && !s.running && s.published.None? && s.progress.None?
  }

  predicate IsStart(e: Event) {
    e.BeginStart? || e.Parse? || e.Number? || e.EmptyForStart? || e.SetRunning? || e.Spawn?
  }

  lemma StartKeepsInv(s: State, e: Event)
    requires Inv(s) && IsStart(e) && UiStep(s, e).Some?
    ensures Inv(UiStep(s, e).value)
  {
  }

  lemma ResetKeepsInv(s: State, e: Event)
    requires Inv(s) && !IsWorker(e) && !IsStart(e) && UiStep(s, e).Some?
    ensures Inv(UiStep(s, e).value)
  {
  }

  lemma WorkerKeepsInv(s: State, e: Event)
    requires Inv(s) && IsWorker(e) && WorkerStep(s, e).Some?
    ensures Inv(WorkerStep(s, e).value)
  {
    assert s.threads[e.t].pc != Done;
    assert s.handle == Some(e.t);
  }

  lemma StepKeepsInv(s: State, e: Event)
    requires Inv(s) && Step(s, e).Some?
    ensures Inv(Step(s, e).value)
  {
    if IsWorker(e) { WorkerKeepsInv(s, e); } else if IsStart(e) { StartKeepsInv(s, e); } else { ResetKeepsInv(s, e); }
  }

  lemma {:induction false} RunKeepsInv(s: State, es: seq<Event>)
    requires Inv(s) && Run(s, es).Some?
    ensures Inv(Run(s, es).value)
    decreases |es|
  {
    if es != [] {
      StepKeepsInv(s, es[0]);
      RunKeepsInv(Step(s, es[0]).value, es[1..]);
    }
  }

  // ---- what the events alone say was last asked for

  /** Read off the events: the process attached to, the last parsed input, the last Start still standing. */
  datatype Memo = Memo(pid: Option<nat>, parsed: Option<(nat, Options)>, started: Option<(nat, nat, Options)>)

  function Note(m: Memo, e: Event): Memo {
    match e
    case BeginReset(next) => m.(pid := next, started := None)
    case Parse(ok, target, options) => if ok then m.(parsed := Some((target, options))) else m
    case Number => m.(started := None)
    case Spawn =>
      if m.pid.Some? && m.parsed.Some?
      then m.(started := Some((m.pid.value, m.parsed.value.0, m.parsed.value.1))) else m
    case _ => m
  }

  function Notes(m: Memo, es: seq<Event>): Memo
    decreases |es|
  {
    if es == [] then m else Notes(Note(m, es[0]), es[1..])
  }

  const NOTHING := Memo(None, None, None)

  ghost predicate Tracks(s: State, m: Memo) {
    && (s.current.Some? <==> m.started.Some?)
    && (s.current.Some? ==> m.started.value == (s.current.value.pid, s.current.value.target, s.current.value.options))
    && match s.ui
       case StartReady(t, o) => m.parsed == Some((t, o)) && m.pid == s.attached
       case StartNumbered(r) => m.parsed == Some((r.target, r.options)) && m.pid == s.attached
       case StartEmptied(r) => m.parsed == Some((r.target, r.options)) && m.pid == s.attached
       case StartSpawning(r) => m.parsed == Some((r.target, r.options)) && m.pid == s.attached
       case ResetCancel(next) => m.pid == next
       case ResetJoin(next) => m.pid == next
       case ResetStop(next) => m.pid == next
       case ResetClear(next) => m.pid == next
       case Attaching(next) => m.pid == next
       case _ => m.pid == s.attached
  }

  lemma UiTracks(s: State, m: Memo, e: Event)
    requires Inv(s) && Tracks(s, m) && !IsWorker(e) && UiStep(s, e).Some?
    ensures Tracks(UiStep(s, e).value, Note(m, e))
  {
  }

  lemma StepTracks(s: State, m: Memo, e: Event)
    requires Inv(s) && Tracks(s, m) && Step(s, e).Some?
    ensures Tracks(Step(s, e).value, Note(m, e))
  {
    if !IsWorker(e) { UiTracks(s, m, e); }
  }

  lemma {:induction false} RunTracks(s: State, m: Memo, es: seq<Event>)
    requires Inv(s) && Tracks(s, m) && Run(s, es).Some?
    ensures Tracks(Run(s, es).value, Notes(m, es))
    decreases |es|
  {
    if es != [] {
      StepKeepsInv(s, es[0]);
      StepTracks(s, m, es[0]);
      RunTracks(Step(s, es[0]).value, Note(m, es[0]), es[1..]);
    }
  }

  // ---- the guarantees, for every interleaving

  /** At most one worker is ever alive. */
  lemma OneWorker(es: seq<Event>, i: nat, j: nat)
    requires Run(INITIAL, es).Some?
    requires var s := Run(INITIAL, es).value;
             i < |s.threads| && j < |s.threads| && s.threads[i].pc != Done && s.threads[j].pc != Done
    ensures i == j
  {
    RunKeepsInv(INITIAL, es);
  }

  /**
   Between UI operations a published result is the current generation's, for the process, target and
   options of the last Start; and once `running` reads false after a Start, the result is there.
   */
  lemma PublishedIsCurrent(es: seq<Event>)
    requires Run(INITIAL, es).Some? && Run(INITIAL, es).value.ui.Idle?
    ensures var s, m := Run(INITIAL, es).value, Notes(NOTHING, es);
            && (s.published.Some? ==>
                  && m.started.Some? && s.published.value.request.generation == s.generation
                  && m.started.value == (s.published.value.request.pid, s.published.value.request.target,
                                         s.published.value.request.options))
            && (m.started.Some? && !s.running ==> s.published.Some?)
            && (m.started.None? ==> s.published.None? && s.progress.None? && !s.running)
  {
    RunKeepsInv(INITIAL, es);
    RunTracks(INITIAL, NOTHING, es);
  }

  /** Nothing is published, nothing can publish, and no Start is standing. */
  ghost predicate Quiet(s: State) {
    Inv(s) && s.current.None? && s.handle.None? && s.published.None? && s.progress.None?
  }

  lemma {:induction false} QuietUntilSpawn(s: State, es: seq<Event>)
    requires Quiet(s) && Run(s, es).Some? && Spawn !in es
    ensures Quiet(Run(s, es).value)
    decreases |es|
  {
    if es != [] {
      StepKeepsInv(s, es[0]);
      assert es[0] in es;
      assert Spawn !in es[1..];
      QuietUntilSpawn(Step(s, es[0]).value, es[1..]);
    }
  }

  lemma {:induction false} RunConcat(s: State, es: seq<Event>, more: seq<Event>)
    requires Run(s, es).Some?
    ensures Run(s, es + more) == Run(Run(s, es).value, more)
    decreases |es|
  {
    if es == [] {
      assert es + more == more;
    } else {
      assert (es + more)[1..] == es[1..] + more;
      RunConcat(Step(s, es[0]).value, es[1..], more);
    }
  }

  /** After a Reset nothing is published, and nothing gets published before another Start spawns. */
  lemma NothingAfterReset(es: seq<Event>, more: seq<Event>)
    requires Run(INITIAL, es + [FinishAttach]).Some?
    requires Run(INITIAL, es + [FinishAttach] + more).Some? && Spawn !in more
    ensures Run(INITIAL, es + [FinishAttach] + more).value.published.None?
  {
    if Run(INITIAL, es).None? { NoneStays(INITIAL, es, [FinishAttach]); }
    RunConcat(INITIAL, es, [FinishAttach]);
    RunKeepsInv(INITIAL, es);
    var s := Run(INITIAL, es).value;
    assert [FinishAttach][1..] == [];
    var after := Run(INITIAL, es + [FinishAttach]).value;
    assert Step(s, FinishAttach) == Some(after);
    StepKeepsInv(s, FinishAttach);
    RunConcat(INITIAL, es + [FinishAttach], more);
    QuietUntilSpawn(after, more);
  }

  lemma {:induction false} NoneStays(s: State, es: seq<Event>, more: seq<Event>)
    requires Run(s, es).None?
    ensures Run(s, es + more).None?
    decreases |es|
  {
    assert (es + more)[0] == es[0] && (es + more)[1..] == es[1..] + more;
    var next := Step(s, es[0]);
    if next.Some? { NoneStays(next.value, es[1..], more); }
  }

  /** Steps the joinable worker still needs, once its scan returns. */
  function Remaining(pc: WorkerPc): nat {
    match pc
    case Reporting => 6
    case Scanning => 5
    case Returned(_) => 4
    case Publishing(_) => 3
    case Finishing => 2
    case Clearing => 1
    case Done => 0
  }

  function NextOf(t: nat, pc: WorkerPc): Event
    requires pc != Done
  {
    match pc
    case Reporting => ReportWrite(t)
    case Scanning => ScanReturns(t, 0)
    case Returned(_) => PublishLock(t)
    case Publishing(_) => PublishWrite(t)
    case Finishing => FinishCheck(t)
    case Clearing => FinishClear(t)
  }

  /** No deadlock: in every reachable state, steps of the worker alone make the UI's join return. */
  lemma {:induction false} JoinCanReturn(s: State) returns (es: seq<Event>)
    requires Inv(s) && s.handle.Some?
    ensures forall e | e in es :: IsWorker(e)
    ensures Run(s, es).Some? && Run(s, es).value.ui == s.ui && CanJoin(Run(s, es).value)
    decreases Remaining(Worker(s).pc)
  {
    if Worker(s).pc == Done {
      es := [];
    } else {
      var e := NextOf(s.handle.value, Worker(s).pc);
      StepKeepsInv(s, e);
      var next := Step(s, e).value;
      assert next.handle == s.handle && next.ui == s.ui;
      var rest := JoinCanReturn(next);
      es := [e] + rest;
      assert es[1..] == rest;
    }
  }
}
