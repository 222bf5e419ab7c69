/**
 The watch list's batch worker and the UI thread that starts, cancels, stops and polls it. An event
 is one atomic step of one thread; a sequence of enabled events is one interleaving.
 */
module WatchBatch {
  import opened Wrappers

  const BATCH_CAP := 64

  /** `key` is what the entry watches (address, type, description) and never changes. */
  datatype Entry = Entry(id: nat, key: int, value: int, frozen: bool)

  predicate HasFrozen(entries: seq<Entry>) { exists i | 0 <= i < |entries| :: entries[i].frozen }

  /** Disarms every entry, as failing closed does before it locks the write gate. */
  function Disarmed(entries: seq<Entry>): (r: seq<Entry>)
    ensures |r| == |entries| && !HasFrozen(r)
    ensures forall i | 0 <= i < |r| :: r[i] == entries[i].(frozen := false)
  {
    seq(|entries|, i requires 0 <= i < |entries| => entries[i].(frozen := false))
  }

  /** Where the entry with this id is; the length of the list when there is none. */
  function IndexOf(entries: seq<Entry>, id: nat): (r: nat)
    ensures r <= |entries|
  {
    if entries == [] then 0 else if entries[0].id == id then 0 else 1 + IndexOf(entries[1..], id)
  }

  /** A table file loaded: fresh ids from 1, nothing frozen. */
  function Loaded(items: seq<(int, int)>): (r: seq<Entry>)
    ensures |r| == |items| && !HasFrozen(r)
  {
    seq(|items|, i requires 0 <= i < |items| => Entry(i + 1, items[i].0, items[i].1, false))
  }

  function WatchBatchCount(total: nat, begin: nat, cap: nat): nat {
    if begin >= total || cap == 0 then 0 else if cap < total - begin then cap else total - begin
  }

  /** One entry operation of a batch: which entry, whether it wrote a frozen value, how it ended. */
  datatype Op = Op(index: nat, frozen: bool, ok: bool)

  datatype Outcome = Outcome(
    generation: nat, begin: nat, completed: nat, total: nat, rows: seq<Entry>,
    failed: bool, cancelled: bool, freezeMode: bool, failClosed: bool, gateLocked: bool,
    ops: seq<Op>)                     // history: the operations performed

  datatype WorkerPc = Starting | AtLoop | Operating | Tail | Publishing | Finishing | Done

  datatype Worker = Worker(count: nat, includeFreeze: bool, offset: nat, stop: bool, pc: WorkerPc, out: Outcome)

  datatype UiPc = Ready | Stopping(wasRunning: bool)

  /** What happened so far; nothing in the panel depends on it. */
  datatype History = History(
    refrozen: bool,                      // an entry was frozen since the last batch start or fail-close
    shifted: bool,                       // entries were removed or loaded since the last batch start
    skewed: bool,                        // rows were merged after that, and not republished since
    log: seq<nat>, batches: nat)         // entries refreshed, and batches begun, in this cycle

  datatype State = State(
    entries: seq<Entry>, rows: seq<Entry>,       // the list, and the copy the UI shows
    generation: nat, running: bool, cancel: bool,
    outcome: Option<Outcome>, worker: Option<Worker>,
    cursor: nat, authorized: bool, fullRefresh: bool,
    ui: UiPc, nextId: nat, h: History)

  /** The panel with a table loaded; an empty one is a panel just attached. */
  function Init(items: seq<(int, int)>): State {
    State(Loaded(items), Loaded(items), 0, false, false, None, None, 0, false, false, Ready, |items| + 1,
          History(false, false, false, [], 0))
  }

  datatype Event =
    // UI thread
    | Tick(due: bool) | FullRefresh | Poll(locked: bool) | Cancel
    | StopBegin | StopJoin
    | Toggle(index: nat, arm: bool, open: bool, relock: bool)     // a freeze checkbox; how the gate calls end
    | Add(ok: bool, key: int, value: int) | Remove(index: nat) | Load(ok: bool, items: seq<(int, int)>)
    | Write(id: nat, wrote: bool, ok: bool, value: int)           // a value edited by hand
    | Arm | Revoke | Clear                                        // `Clear`: the end of Reset
    // worker
    | WStart | WCheck(locked: bool) | WOperate(ok: bool, read: Option<int>, locked: bool) | WTail(locked: bool)
    | WThrow(locked: bool) | WPublish | WFinish

  // ---- UI steps

  function StartBatch(s: State, includeFreeze: bool): State {
    var total := |s.entries|;
    if total == 0 then s.(cursor := 0, fullRefresh := false)
    else
      var begin := if s.cursor >= total then 0 else s.cursor;
      var out := Outcome(s.generation + 1, begin, 0, total, [], false, false, false, false, false, []);
      s.(cursor := begin, generation := s.generation + 1, cancel := false, running := true,
         worker := Some(Worker(WatchBatchCount(total, begin, BATCH_CAP), includeFreeze, 0, false, Starting, out)),
         h := History(false, false, s.h.skewed, if begin == 0 then [] else s.h.log,
                      if begin == 0 then 1 else s.h.batches + 1))
  }

  /** The published rows with the outcome's rows copied in. */
  function Merge(rows: seq<Entry>, begin: nat, newer: seq<Entry>): (r: seq<Entry>)
    ensures |r| == |rows|
  {
    seq(|rows|, i requires 0 <= i < |rows| =>
      if begin <= i < begin + |newer| then newer[i - begin] else rows[i])
  }

  /** The state with an outcome's rows shown. */
  function Merged(s: State, o: Outcome): State {
    s.(rows := Merge(s.rows, o.begin, o.rows), h := s.h.(skewed := s.h.skewed || s.h.shifted))
  }

  function Consume(s: State, o: Outcome): State {
    if o.failClosed then
      s.(authorized := false, rows := s.entries, h := s.h.(skewed := false), cursor := 0, fullRefresh := false)
    else if o.cancelled then
      Merged(s, o).(fullRefresh := false)
    else if o.begin + o.completed >= o.total then
      Merged(s, o).(cursor := 0, fullRefresh := false)
    else
      Merged(s, o).(cursor := o.begin + o.completed)
  }

  function PollStep(s: State, locked: bool): State {
    if s.running then s
    else
      var joined := s.(worker := None, outcome := None, cancel := false);
      if s.outcome.None? || s.outcome.value.generation != s.generation then joined
      else
        var o := s.outcome.value;
        if s.cancel && o.freezeMode && !o.failClosed then
          Consume(joined.(entries := Disarmed(s.entries), h := s.h.(refrozen := false)),
                  o.(cancelled := true, failClosed := true, gateLocked := locked))
        else Consume(joined, o)
  }

  predicate WorkerGone(s: State) { s.worker.Some? ==> s.worker.value.pc == Done }

  predicate IsWorker(e: Event) {
    e.WStart? || e.WCheck? || e.WOperate? || e.WTail? || e.WThrow? || e.WPublish? || e.WFinish?
  }

  /** `StopWatchWorker` after its join returned. */
  function StopJoinStep(s: State): Option<State> {
    if !s.ui.Stopping? || !WorkerGone(s) then None
    else
      var joined := s.(worker := None, running := false, ui := Ready);
      if s.ui.wasRunning && HasFrozen(s.entries) then
        Some(Published(joined.(authorized := false, h := s.h.(refrozen := false)), Disarmed(s.entries)))
      else Some(joined)
  }

  /** The list changed to `entries` and published whole; a cursor beyond its end is forgotten. */
  function Published(s: State, entries: seq<Entry>): State {
    s.(entries := entries, rows := entries, h := s.h.(skewed := false),
       cursor := if s.cursor > |entries| then 0 else s.cursor)
  }

  function TickStep(s: State, due: bool): Option<State> {
    if s.running then Some(s)
    else if !WorkerGone(s) then None
    else if s.fullRefresh then Some(StartBatch(s, false))
    else if due then Some(StartBatch(s, s.authorized))
    else Some(s)
  }

  function FullRefreshStep(s: State): Option<State> {
    if s.running || s.rows == [] then Some(s)
    else if !WorkerGone(s) then None
    else Some(StartBatch(s.(cursor := 0, fullRefresh := true), false))
  }

  /**
   A click on the freeze box of a shown row asks for the opposite of what the row shows, of the entry
   with the row's id. Freezing opens the gate for a moment; if it cannot be closed again everything is
   disarmed.
   */
  function ToggleStep(s: State, index: nat, arm: bool, open: bool, relock: bool): State {
    if s.running || index >= |s.rows| then s
    else
      var row := s.rows[index];
      var i := IndexOf(s.entries, row.id);
      if row.frozen then
        if i == |s.entries| then s else Published(s, s.entries[i := s.entries[i].(frozen := false)])
      else if !s.authorized || !arm then s
      else
        var found := open && i < |s.entries|;
        var entries := if found then s.entries[i := s.entries[i].(frozen := true)] else s.entries;
        if !relock then Published(s.(authorized := false, h := s.h.(refrozen := false)), Disarmed(entries))
        else if found then Published(s.(h := s.h.(refrozen := true)), entries)
        else s
  }

  function AddStep(s: State, ok: bool, key: int, value: int): State {
    if s.running || !ok then s
    else Published(s.(nextId := s.nextId + 1), s.entries + [Entry(s.nextId, key, value, false)])
  }

  function RemoveStep(s: State, index: nat): State {
    if s.running || index >= |s.rows| then s
    else
      var i := IndexOf(s.entries, s.rows[index].id);
      if i == |s.entries| then s else Published(s.(h := s.h.(shifted := true)), s.entries[..i] + s.entries[i + 1..])
  }

  function LoadStep(s: State, ok: bool, items: seq<(int, int)>): State {
    if s.running || !ok then s
    else Published(s.(h := s.h.(shifted := true), nextId := |items| + 1, cursor := 0), Loaded(items))
  }

  /** Writing a value by hand ends authorization; a write whose gate stays open is kept but not shown. */
  function WriteStep(s: State, id: nat, wrote: bool, ok: bool, value: int): State {
    var i := IndexOf(s.entries, id);
    if s.running then s
    else if i == |s.entries| || !wrote then s.(authorized := false)
    else
      var entries := s.entries[i := s.entries[i].(value := value)];
      if ok then Published(s.(authorized := false), entries) else s.(authorized := false, entries := entries)
  }

  /** Reset after its worker is joined: a new list, and a generation no outcome can have. */
  function ClearStep(s: State): Option<State> {
    if s.running || s.worker.Some? then None
    else Some(Init([]).(generation := s.generation + 1, cancel := s.cancel))
  }

  function ReadyStep(s: State, e: Event): Option<State> {
    match e
    case Tick(due) => TickStep(s, due)
    case FullRefresh => FullRefreshStep(s)
    case Poll(locked) => if !s.running && !WorkerGone(s) then None else Some(PollStep(s, locked))
    case Cancel =>
      if !s.running then Some(s)
      else Some(s.(cancel := true, fullRefresh := false, worker := WithStop(s.worker)))
    case StopBegin =>
      Some(s.(ui := Stopping(s.running), cancel := s.cancel || (s.running && s.worker.Some?),
              worker := WithStop(s.worker), fullRefresh := false))
    case Toggle(index, arm, open, relock) => Some(ToggleStep(s, index, arm, open, relock))
    case Add(ok, key, value) => Some(AddStep(s, ok, key, value))
    case Remove(index) => Some(RemoveStep(s, index))
    case Load(ok, items) => Some(LoadStep(s, ok, items))
    case Write(id, wrote, ok, value) => Some(WriteStep(s, id, wrote, ok, value))
    case Clear => ClearStep(s)
    case Arm => if s.running then Some(s) else Some(s.(authorized := true))
    case Revoke => Some(s.(authorized := false))
    case _ => None
  }

  function UiStep(s: State, e: Event): Option<State> {
    if e.StopJoin? then StopJoinStep(s) else if !s.ui.Ready? then None else ReadyStep(s, e)
  }

  function WithStop(w: Option<Worker>): Option<Worker> {
    if w.Some? then Some(w.value.(stop := true)) else None
  }

  // ---- worker steps

  /** `fail_close_freeze`: only in freeze mode, and only once. */
  function FailClose(s: State, w: Worker, locked: bool): (r: State)
    ensures |r.entries| == |s.entries| && r.worker.Some?
  {
    if !w.out.freezeMode || w.out.failClosed then s.(worker := Some(w))
    else s.(entries := Disarmed(s.entries), h := s.h.(refrozen := false),
            worker := Some(w.(out := w.out.(failClosed := true, gateLocked := locked))))
  }

  function CheckStep(s: State, w: Worker, locked: bool): State {
    if w.offset >= w.count then s.(worker := Some(w.(pc := Tail)))
    else if w.stop || s.cancel || s.generation != w.out.generation then
      FailClose(s, w.(pc := Tail, out := w.out.(cancelled := true)), locked)
    else s.(worker := Some(w.(pc := Operating)))
  }

  /** The worker after the operation on entry `i`, its row still to be recorded. */
  function Operated(w: Worker, i: nat, frozen: bool, ok: bool): Worker {
    w.(out := w.out.(failed := w.out.failed || !ok, ops := w.out.ops + [Op(i, frozen, ok)]))
  }

  function Recorded(w: Worker, row: Entry): Worker {
    w.(offset := w.offset + 1, pc := if w.out.failClosed then Tail else AtLoop,
       out := w.out.(rows := w.out.rows + [row], completed := w.out.completed + 1))
  }

  /** The list after entry `i` was refreshed: it shows what was last read, even if a later step failed. */
  function Refreshed(s: State, i: nat, read: Option<int>): State
    requires i < |s.entries|
  {
    var entry := s.entries[i].(value := if read.Some? then read.value else s.entries[i].value);
    s.(entries := s.entries[i := entry], h := s.h.(log := s.h.log + [i]))
  }

  /** The worker, having failed closed if it had to, records the row of entry `i`. */
  function Noted(s: State, i: nat): State
    requires i < |s.entries| && s.worker.Some?
  {
    s.(worker := Some(Recorded(s.worker.value, s.entries[i])))
  }

  /** One entry refreshed, and written when frozen. */
  function OperateStep(s: State, w: Worker, ok: bool, read: Option<int>, locked: bool): Option<State> {
    var i := w.out.begin + w.offset;
    if i >= |s.entries| || (ok && read.None?) then None
    else
      var frozen := w.includeFreeze && s.entries[i].frozen;
      var done, w1 := Refreshed(s, i, read), Operated(w, i, frozen, ok);
      var closed := if !ok && frozen then FailClose(done, w1, locked) else done.(worker := Some(w1));
      Some(Noted(closed, i))
  }

  function TailStep(s: State, w: Worker, locked: bool): State {
    if (w.stop || s.cancel) && !w.out.cancelled then
      FailClose(s, w.(pc := Publishing, out := w.out.(cancelled := true)), locked)
    else s.(worker := Some(w.(pc := Publishing)))
  }

  function WorkerStep(s: State, e: Event): Option<State>
    requires IsWorker(e)
  {
    if s.worker.None? then None
    else
      var w := s.worker.value;
      match e
      case WStart =>
        if !w.pc.Starting? then None
        else
          var mode := w.includeFreeze && HasFrozen(s.entries);
          Some(s.(worker := Some(w.(pc := AtLoop, out := w.out.(freezeMode := mode)))))
      case WCheck(locked) => if !w.pc.AtLoop? then None else Some(CheckStep(s, w, locked))
      case WOperate(ok, read, locked) =>
        if !w.pc.Operating? then None else OperateStep(s, w, ok, read, locked)
      case WTail(locked) => if !w.pc.Tail? then None else Some(TailStep(s, w, locked))
      case WThrow(locked) =>
        if !(w.pc.AtLoop? || w.pc.Operating? || w.pc.Tail?) then None
        else Some(FailClose(s, w.(pc := Publishing, out := w.out.(failed := true)), locked))
      case WPublish =>
        if !w.pc.Publishing? then None
        else Some(s.(outcome := if s.generation == w.out.generation then Some(w.out) else s.outcome,
                     worker := Some(w.(pc := Finishing))))
      case WFinish =>
        if !w.pc.Finishing? then None
        else Some(s.(running := if s.generation == w.out.generation then false else s.running,
                     worker := Some(w.(pc := Done))))
  }

  function Step(s: State, e: Event): Option<State> {
    if IsWorker(e) then WorkerStep(s, e) else UiStep(s, e)
  }

  function Run(s: State, es: seq<Event>): Option<State>
    decreases |es|
  {
    if es == [] then Some(s)
    else
      var next := Step(s, es[0]);
      if next.None? then None else Run(next.value, es[1..])
  }

  // ---- the invariant

  /** A failed frozen operation. */
  predicate Unsafe(op: Op) { op.frozen && !op.ok }

  predicate MetUnsafe(ops: seq<Op>) { exists k | 0 <= k < |ops| :: Unsafe(ops[k]) }

  /** Nothing was operated on after the first failed frozen operation. */
  ghost predicate StopsAtUnsafe(ops: seq<Op>) { forall k | 0 <= k < |ops| - 1 :: !Unsafe(ops[k]) }

  /** What holds of an outcome while it is built and until it is consumed. */
  ghost predicate OutcomeOk(o: Outcome) {
    && |o.ops| == |o.rows| == o.completed && o.begin + o.completed <= o.total
    && StopsAtUnsafe(o.ops)
    && (MetUnsafe(o.ops) ==> o.failClosed)
    && (o.freezeMode && o.cancelled ==> o.failClosed)
    && (o.failClosed ==> o.freezeMode)
  }

  ghost predicate Closed(s: State, o: Outcome) { o.failClosed ==> s.h.refrozen || !HasFrozen(s.entries) }

  predicate InLoop(pc: WorkerPc) { pc.AtLoop? || pc.Operating? }

  ghost predicate WorkerOk(s: State, w: Worker) {
    && w.out.generation == s.generation && (w.pc != Done ==> w.out.total == |s.entries|)
    && OutcomeOk(w.out) && Closed(s, w.out)
    && w.out.completed == w.offset <= w.count && w.out.begin + w.count <= w.out.total
    && (w.pc.Starting? ==> w.out.ops == [] && !w.out.freezeMode && !w.out.cancelled)
    && (w.pc.Operating? ==> w.offset < w.count)
    && (InLoop(w.pc) ==> !w.out.failClosed && (w.out.freezeMode || !w.includeFreeze || !HasFrozen(s.entries)))
    && (HasPublished(w.pc) ==> s.outcome == Some(w.out))
    && (!HasPublished(w.pc) && s.outcome.Some? ==> s.outcome.value.generation < s.generation)
  }

  predicate HasPublished(pc: WorkerPc) { pc.Finishing? || pc.Done? }

  ghost predicate Inv(s: State) {
    && (s.running ==> s.worker.Some?)
    && (s.worker.Some? ==> WorkerOk(s, s.worker.value))
    && (s.worker.Some? && s.ui.Ready? ==> (s.running <==> s.worker.value.pc != Done))
    && (s.worker.Some? && s.ui.Stopping? && !s.ui.wasRunning ==> s.worker.value.pc == Done)
    && (s.ui.Stopping? && s.worker.Some? && s.worker.value.pc != Done ==> s.running)
    && (s.outcome.Some? ==> s.outcome.value.generation <= s.generation)
    && (s.outcome.Some? && s.outcome.value.generation == s.generation ==>
          OutcomeOk(s.outcome.value) && Closed(s, s.outcome.value))
  }

  lemma BatchStartKeeps(s: State, includeFreeze: bool)
    requires Inv(s) && s.ui.Ready? && !s.running
    ensures Inv(StartBatch(s, includeFreeze))
  {
  }

  lemma PollKeeps(s: State, locked: bool)
    requires Inv(s) && UiStep(s, Poll(locked)).Some?
    ensures Inv(UiStep(s, Poll(locked)).value)
  {
  }

  /** Events that change the list; the panel offers them only while no batch runs. */
  predicate IsEdit(e: Event) { e.Toggle? || e.Add? || e.Remove? || e.Load? || e.Write? }

  /** While no batch runs, the list may change in any way that freezes no entry behind the history's back. */
  lemma ListChanges(s: State, t: State)
    requires Inv(s) && s.ui.Ready? && !s.running
    requires t == s.(entries := t.entries, rows := t.rows, authorized := t.authorized, cursor := t.cursor,
                     nextId := t.nextId, h := t.h)
    requires t.h.refrozen || !HasFrozen(t.entries) || (HasFrozen(s.entries) && t.h.refrozen == s.h.refrozen)
    ensures Inv(t)
  {
  }

  lemma Thawed(entries: seq<Entry>, i: nat)
    requires i < |entries|
    ensures HasFrozen(entries[i := entries[i].(frozen := false)]) ==> HasFrozen(entries)
  {
    var after := entries[i := entries[i].(frozen := false)];
    if HasFrozen(after) {
      var k :| 0 <= k < |after| && after[k].frozen;
      assert entries[k].frozen;
    }
  }

  lemma Grown(entries: seq<Entry>, e: Entry)
    requires !e.frozen
    ensures HasFrozen(entries + [e]) ==> HasFrozen(entries)
  {
    var after := entries + [e];
    if HasFrozen(after) {
      var k :| 0 <= k < |after| && after[k].frozen;
      assert k < |entries| && entries[k].frozen;
    }
  }

  lemma Shrunk(entries: seq<Entry>, i: nat)
    requires i < |entries|
    ensures HasFrozen(entries[..i] + entries[i + 1..]) ==> HasFrozen(entries)
  {
    var after := entries[..i] + entries[i + 1..];
    if HasFrozen(after) {
      var k :| 0 <= k < |after| && after[k].frozen;
      assert after[k] == entries[if k < i then k else k + 1];
    }
  }

  lemma ToggleKeeps(s: State, index: nat, arm: bool, open: bool, relock: bool)
    requires Inv(s) && s.ui.Ready?
    ensures Inv(ToggleStep(s, index, arm, open, relock))
  {
    var t := ToggleStep(s, index, arm, open, relock);
    if t != s {
      var i := IndexOf(s.entries, s.rows[index].id);
      if i < |s.entries| { Thawed(s.entries, i); }
      ListChanges(s, t);
    }
  }

  lemma EditKeeps(s: State, e: Event)
    requires IsEdit(e) && Inv(s) && s.ui.Ready? && ReadyStep(s, e).Some?
    ensures Inv(ReadyStep(s, e).value)
  {
    var t := ReadyStep(s, e).value;
    if t != s {
      match e {
        case Toggle(index, arm, open, relock) =>
          ToggleKeeps(s, index, arm, open, relock);
          return;
        case Add(_, key, value) => Grown(s.entries, Entry(s.nextId, key, value, false));
        case Remove(index) => Shrunk(s.entries, IndexOf(s.entries, s.rows[index].id));
        case Load(_, _) =>
        case Write(id, _, _, value) =>
          var i := IndexOf(s.entries, id);
          if i < |s.entries| { ValueKeepsFrozen(s.entries, i, value); }
      }
      ListChanges(s, t);
    }
  }

  lemma UiKeepsInv(s: State, e: Event)
    requires Inv(s) && !IsWorker(e) && UiStep(s, e).Some?
    ensures Inv(UiStep(s, e).value)
  {
    if IsEdit(e) {
      EditKeeps(s, e);
      return;
    }
    match e {
      case Tick(due) =>
        if !s.running { BatchStartKeeps(s, false); BatchStartKeeps(s, s.authorized); }
      case Poll(locked) => PollKeeps(s, locked);
      case FullRefresh =>
        if !s.running { BatchStartKeeps(s.(cursor := 0, fullRefresh := true), false); }
      case _ =>
    }
  }

  /** A step of a worker that has not published changes only the worker, entries and histories. */
  lemma WorkerChanges(s: State, t: State, w: Worker)
    requires Inv(s) && s.worker.Some? && !HasPublished(s.worker.value.pc)
    requires t == s.(worker := Some(w), entries := t.entries, h := t.h)
    requires WorkerOk(t, w) && !HasPublished(w.pc)
    ensures Inv(t)
  {
  }

  /** Failing closed mends an outcome that just met a cancel or a failed frozen operation. */
  lemma FailCloseMends(s: State, w: Worker, locked: bool)
    requires w.out.generation == s.generation && w.out.total == |s.entries|
    requires |w.out.rows| == w.out.completed == w.offset <= w.count && w.out.begin + w.count <= w.out.total
    requires StopsAtUnsafe(w.out.ops) && Closed(s, w.out) && (w.out.failClosed ==> w.out.freezeMode)
    requires MetUnsafe(w.out.ops) ==> w.out.freezeMode
    ensures var t := FailClose(s, w, locked);
            && t == s.(worker := t.worker, entries := t.entries, h := t.h)
            && t.worker.Some? && |t.entries| == |s.entries|
            && (w.out.freezeMode ==> t.worker.value.out.failClosed)
            && Closed(t, t.worker.value.out)
            && t.worker.value == w.(out := w.out.(failClosed := t.worker.value.out.failClosed,
                                                   gateLocked := t.worker.value.out.gateLocked))
            && t.worker.value.out.failClosed == (w.out.failClosed || w.out.freezeMode)
  {
  }

  lemma CheckKeeps(s: State, w: Worker, locked: bool)
    requires Inv(s) && s.worker == Some(w) && w.pc.AtLoop?
    ensures Inv(CheckStep(s, w, locked))
  {
    if w.offset < w.count && (w.stop || s.cancel) {
      CancelledCheckKeeps(s, w, locked);
    } else {
      var t := CheckStep(s, w, locked);
      WorkerChanges(s, t, t.worker.value);
    }
  }

  lemma CancelledCheckKeeps(s: State, w: Worker, locked: bool)
    requires Inv(s) && s.worker == Some(w) && w.pc.AtLoop? && w.offset < w.count && (w.stop || s.cancel)
    ensures Inv(CheckStep(s, w, locked))
  {
    var t := CheckStep(s, w, locked);
    FailCloseMends(s, w.(pc := Tail, out := w.out.(cancelled := true)), locked);
    WorkerChanges(s, t, t.worker.value);
  }

  lemma TailKeeps(s: State, w: Worker, locked: bool)
    requires Inv(s) && s.worker == Some(w) && w.pc.Tail?
    ensures Inv(TailStep(s, w, locked))
  {
    var t := TailStep(s, w, locked);
    FailCloseMends(s, w.(pc := Publishing, out := w.out.(cancelled := true)), locked);
    WorkerChanges(s, t, t.worker.value);
  }

  lemma ThrowKeeps(s: State, w: Worker, locked: bool)
    requires Inv(s) && s.worker == Some(w) && (InLoop(w.pc) || w.pc.Tail?)
    ensures Inv(FailClose(s, w.(pc := Publishing, out := w.out.(failed := true)), locked))
  {
    var w1 := w.(pc := Publishing, out := w.out.(failed := true));
    FailCloseMends(s, w1, locked);
    var t := FailClose(s, w1, locked);
    WorkerChanges(s, t, t.worker.value);
  }

  lemma OpsStep(ops: seq<Op>, op: Op)
    requires !MetUnsafe(ops)
    ensures StopsAtUnsafe(ops + [op])
    ensures MetUnsafe(ops + [op]) <==> Unsafe(op)
  {
    assert (ops + [op])[|ops|] == op;
  }

  lemma ValueKeepsFrozen(entries: seq<Entry>, i: nat, value: int)
    requires i < |entries|
    ensures HasFrozen(entries[i := entries[i].(value := value)]) <==> HasFrozen(entries)
  {
    var changed := entries[i := entries[i].(value := value)];
    if HasFrozen(entries) {
      var k :| 0 <= k < |entries| && entries[k].frozen;
      assert changed[k].frozen;
    }
    if HasFrozen(changed) {
      var k :| 0 <= k < |changed| && changed[k].frozen;
      assert entries[k].frozen;
    }
  }

  /** Recording the row of an operation that left the outcome in order. */
  lemma RecordKeeps(s: State, t: State, w: Worker, row: Entry)
    requires |w.out.ops| == w.out.completed + 1 && |w.out.rows| == w.out.completed == w.offset < w.count
    requires w.out.generation == s.generation && w.out.total == |s.entries| && w.out.begin + w.count <= w.out.total
    requires StopsAtUnsafe(w.out.ops) && (MetUnsafe(w.out.ops) ==> w.out.failClosed)
    requires w.out.freezeMode && w.out.cancelled ==> w.out.failClosed
    requires (w.out.failClosed ==> w.out.freezeMode) && Closed(s, w.out)
    requires !w.out.failClosed ==> w.out.freezeMode || !w.includeFreeze || !HasFrozen(s.entries)
    requires s.outcome.Some? ==> s.outcome.value.generation < s.generation
    requires t == s.(worker := Some(Recorded(w, row)))
    ensures WorkerOk(t, Recorded(w, row))
  {
  }

  lemma OperateSafe(s: State, w: Worker, ok: bool, read: Option<int>, locked: bool)
    requires Inv(s) && s.worker == Some(w) && w.pc.Operating? && OperateStep(s, w, ok, read, locked).Some?
    requires ok || !w.includeFreeze || !s.entries[w.out.begin + w.offset].frozen
    ensures Inv(OperateStep(s, w, ok, read, locked).value)
  {
    var i := w.out.begin + w.offset;
    var frozen := w.includeFreeze && s.entries[i].frozen;
    var kept := if read.Some? then read.value else s.entries[i].value;
    OpsStep(w.out.ops, Op(i, frozen, ok));
    ValueKeepsFrozen(s.entries, i, kept);
    var t := OperateStep(s, w, ok, read, locked).value;
    RecordKeeps(t, t, Operated(w, i, frozen, ok), t.entries[i]);
    WorkerChanges(s, t, t.worker.value);
  }

  lemma OperateUnsafe(s: State, w: Worker, read: Option<int>, locked: bool)
    requires Inv(s) && s.worker == Some(w) && w.pc.Operating? && OperateStep(s, w, false, read, locked).Some?
    requires w.includeFreeze && s.entries[w.out.begin + w.offset].frozen
    ensures Inv(OperateStep(s, w, false, read, locked).value)
  {
    var i := w.out.begin + w.offset;
    OpsStep(w.out.ops, Op(i, true, false));
    assert w.out.freezeMode;
    var w1 := Operated(w, i, true, false);
    var w2 := w1.(out := w1.out.(failClosed := true, gateLocked := locked));
    var t := OperateStep(s, w, false, read, locked).value;
    assert t.worker == Some(Recorded(w2, t.entries[i])) && !HasFrozen(t.entries);
    RecordKeeps(t, t, w2, t.entries[i]);
    WorkerChanges(s, t, t.worker.value);
  }

  lemma BoundaryKeeps(s: State, e: Event)
    requires Inv(s) && (e.WStart? || e.WPublish? || e.WFinish?) && WorkerStep(s, e).Some?
    ensures Inv(WorkerStep(s, e).value)
  {
  }

  lemma OperateKeeps(s: State, w: Worker, ok: bool, read: Option<int>, locked: bool)
    requires Inv(s) && s.worker == Some(w) && w.pc.Operating? && OperateStep(s, w, ok, read, locked).Some?
    ensures Inv(OperateStep(s, w, ok, read, locked).value)
  {
    if ok || !w.includeFreeze || !s.entries[w.out.begin + w.offset].frozen {
      OperateSafe(s, w, ok, read, locked);
    } else {
      OperateUnsafe(s, w, read, locked);
    }
  }

  lemma StepKeepsInv(s: State, e: Event)
    requires Inv(s) && Step(s, e).Some?
    ensures Inv(Step(s, e).value)
  {
    match e {
      case WCheck(locked) => CheckKeeps(s, s.worker.value, locked);
      case WOperate(ok, read, locked) => OperateKeeps(s, s.worker.value, ok, read, locked);
      case WTail(locked) => TailKeeps(s, s.worker.value, locked);
      case WThrow(locked) => ThrowKeeps(s, s.worker.value, locked);
      case _ => if IsWorker(e) { BoundaryKeeps(s, e); } else { UiKeepsInv(s, e); }
    }
  }

  lemma {:induction false} RunKeepsInv(s: State, es: seq<Event>)
    requires Inv(s) && Run(s, es).Some?
    ensures Inv(Run(s, es).value)
    decreases |es|
  {
    if es != [] {
      StepKeepsInv(s, es[0]);
      RunKeepsInv(Step(s, es[0]).value, es[1..]);
    }
  }

  // ---- a consumed unsafe outcome fails closed

  /** The poll will consume this outcome. */
  predicate Consumable(s: State) {
    s.ui.Ready? && !s.running && s.outcome.Some? && s.outcome.value.generation == s.generation
  }

  /** A run given step by step. */
  lemma {:induction false} RunAlong(states: seq<State>, es: seq<Event>, k: nat)
    requires |states| == |es| + 1 && k <= |es|
    requires forall i | 0 <= i < |es| :: Follows(states, es, i)
    ensures Run(states[k], es[k..]) == Some(states[|es|])
    decreases |es| - k
  {
    if k < |es| {
      assert Follows(states, es, k);
      RunAlong(states, es, k + 1);
      assert es[k..][0] == es[k] && es[k..][1..] == es[k + 1..];
    }
  }

  predicate Follows(states: seq<State>, es: seq<Event>, i: nat)
    requires i < |es| && i + 1 < |states|
  {
    Step(states[i], es[i]) == Some(states[i + 1])
  }

  /**
   In every interleaving: an outcome that began with frozen entries and met a failed frozen operation
   or a cancel, once consumed, leaves write authorization revoked, the shown rows equal to the list,
   the cursor at the start, and no entry frozen, except exactly when the worker had failed closed and
   the list holds a frozen entry again by the time of the poll, which only the user can have frozen
   since; and no entry was operated on after the first failed frozen operation.
   */
  lemma ConsumedUnsafeOutcomeFailsClosed(items: seq<(int, int)>, es: seq<Event>, locked: bool)
    requires Run(Init(items), es).Some? && Consumable(Run(Init(items), es).value)
    ensures var s := Run(Init(items), es).value;
            var o := s.outcome.value;
            && StopsAtUnsafe(o.ops)
            && (MetUnsafe(o.ops) || (o.freezeMode && (o.cancelled || s.cancel)) ==>
                  && Step(s, Poll(locked)).Some?
                  && var t := Step(s, Poll(locked)).value;
                  && !t.authorized && t.rows == t.entries && t.cursor == 0 && t.outcome.None?
                  && (HasFrozen(t.rows) <==> o.failClosed && HasFrozen(s.entries))
                  && (HasFrozen(t.rows) ==> s.h.refrozen))
  {
    RunKeepsInv(Init(items), es);
  }

  /** The poll's own fail-close, for a cancel the worker missed, disarms every entry whatever happened before. */
  lemma LateCancelDisarms(items: seq<(int, int)>, es: seq<Event>, locked: bool)
    requires Run(Init(items), es).Some? && Consumable(Run(Init(items), es).value)
    requires var s := Run(Init(items), es).value;
             s.cancel && s.outcome.value.freezeMode && !s.outcome.value.failClosed
    ensures var s := Run(Init(items), es).value;
            Step(s, Poll(locked)).Some? && !HasFrozen(Step(s, Poll(locked)).value.entries)
  {
    RunKeepsInv(Init(items), es);
  }
}
