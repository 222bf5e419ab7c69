/**
 A cycle of the watch scheduler with nothing going wrong: every interleaving in which the list does
 not change, no operation fails, nobody cancels, and a finished batch is polled before the next one.
 */
module WatchCycle {
  import opened Wrappers
  import opened WatchBatch

  /** The event disturbs nothing; in particular no batch is started over an unpolled outcome. */
  predicate Clean(s: State, e: Event) {
    match e
    case Tick(_) => s.running || s.worker.None?
    case FullRefresh => s.running || s.worker.None?
    case Poll(_) => true
    case Arm => true
    case Revoke => true
    case WStart => true
    case WCheck(_) => true
    case WOperate(ok, _, _) => ok
    case WTail(_) => true
    case WPublish => true
    case WFinish => true
    case _ => false
  }

  ghost predicate CleanRun(s: State, es: seq<Event>)
    decreases |es|
  {
    es == [] ||
    (Clean(s, es[0]) && Step(s, es[0]).Some? && CleanRun(Step(s, es[0]).value, es[1..]))
  }

  function Upto(n: nat): (r: seq<nat>)
    ensures |r| == n && forall k | 0 <= k < n :: r[k] == k
  {
    if n == 0 then [] else Upto(n - 1) + [n - 1]
  }

  function Ceil64(n: nat): nat { (n + 63) / 64 }

  /** The batch under way: it began at the cursor and has refreshed, in order, what it has completed. */
  ghost predicate BatchOk(s: State, w: Worker) {
    var o := w.out;
    && !w.stop && !o.cancelled && !o.failClosed
    && o.begin == s.cursor < |s.entries| && o.begin == 64 * (s.h.batches - 1)
    && w.count == WatchBatchCount(|s.entries|, o.begin, 64)
    && o.total == |s.entries| && |o.rows| == o.completed == w.offset <= w.count
    && o.rows == s.entries[o.begin..o.begin + o.completed]
    && s.h.log == Upto(o.begin + o.completed)
    && (w.pc.Tail? || w.pc.Publishing? || HasPublished(w.pc) ==> w.offset == w.count)
    && (HasPublished(w.pc) ==> s.outcome == Some(o))
    && (w.pc.Operating? ==> w.offset < w.count)
  }

  /** Between batches: in the middle of a cycle, at the end of one, or before the first. */
  ghost predicate RestOk(s: State) {
    if s.cursor > 0 then
      s.cursor < |s.entries| && s.cursor == 64 * s.h.batches && s.h.log == Upto(s.cursor)
    else
      s.generation > 0 ==>
        s.h.log == Upto(|s.entries|) && s.h.batches == Ceil64(|s.entries|) && s.rows == s.entries
  }

  ghost predicate CleanInv(s: State) {
    && s.ui.Ready? && !s.cancel && |s.rows| == |s.entries|
    && s.rows[..Shown(s)] == s.entries[..Shown(s)]
    && (s.running ==> s.worker.Some?)
    && (s.worker.Some? ==> (s.running <==> s.worker.value.pc != Done) && s.worker.value.out.generation == s.generation)
    && (s.worker.Some? ==> BatchOk(s, s.worker.value))
    && (s.worker.None? ==> RestOk(s) && s.outcome.None?)
  }

  /** How many leading rows the cycle has already published. */
  function Shown(s: State): nat { if s.cursor <= |s.entries| && s.cursor <= |s.rows| then s.cursor else 0 }

  lemma StartClean(s: State, freeze: bool)
    requires CleanInv(s) && !s.running && s.worker.None?
    ensures CleanInv(StartBatch(s, freeze))
  {
  }

  /** A manual pass begins a new cycle wherever the old one was. */
  lemma RefreshClean(s: State)
    requires CleanInv(s) && !s.running && s.worker.None?
    ensures CleanInv(StartBatch(s.(cursor := 0, fullRefresh := true), false))
  {
  }

  lemma PollClean(s: State, locked: bool)
    requires CleanInv(s) && !s.running && s.worker.Some?
    ensures CleanInv(PollStep(s, locked))
  {
    var w := s.worker.value;
    var o := w.out;
    var n := |s.entries|;
    var t := PollStep(s, locked);
    assert w.pc == Done && s.outcome == Some(o) && w.offset == w.count;
    var merged := Merge(s.rows, o.begin, o.rows);
    assert merged[..o.begin + o.completed] == s.entries[..o.begin + o.completed] by {
      forall i | 0 <= i < o.begin + o.completed ensures merged[i] == s.entries[i] {
        if i < o.begin { assert s.rows[..o.begin][i] == s.entries[..o.begin][i]; }
      }
    }
    if o.begin + o.completed >= n {
      assert merged == merged[..n] && s.entries == s.entries[..n];
      BatchesAtEnd(o.begin, n, s.h.batches);
    } else {
      assert t.cursor == o.begin + 64;
    }
  }

  lemma BatchesAtEnd(begin: nat, n: nat, batches: nat)
    requires begin == 64 * (batches - 1) && begin < n <= begin + 64
    ensures batches == Ceil64(n)
  {
  }

  lemma RowsGrow(entries: seq<Entry>, begin: nat, i: nat, e: Entry)
    requires begin <= i < |entries|
    ensures entries[i := e][..begin] == entries[..begin]
    ensures entries[i := e][begin..i + 1] == entries[begin..i] + [e]
  {
  }

  /** A worker step that keeps the batch in order and leaves the entries below the cursor alone. */
  lemma BatchClean(s: State, t: State, w: Worker)
    requires CleanInv(s) && s.worker.Some? && s.worker.value.pc != Done && w.out.generation == s.generation
    requires t == s.(worker := Some(w), entries := t.entries, h := t.h) && |t.entries| == |s.entries|
    requires t.entries[..s.cursor] == s.entries[..s.cursor] && BatchOk(t, w) && w.pc != Done
    ensures CleanInv(t)
  {
  }

  lemma RecordedOk(s: State, w: Worker, i: nat, e: Entry, t: State, w': Worker)
    requires BatchOk(s, w) && w.pc.Operating? && i == w.out.begin + w.offset
    requires t.cursor == s.cursor && t.h.batches == s.h.batches && t.h.log == s.h.log + [i]
    requires t.entries == s.entries[i := e] && w'.out.rows == w.out.rows + [e] && w'.pc.AtLoop?
    requires !w'.stop && !w'.out.cancelled && !w'.out.failClosed && w'.out.begin == w.out.begin
    requires w'.count == w.count && w'.out.total == w.out.total
    requires w'.out.completed == w.out.completed + 1 && w'.offset == w.offset + 1
    ensures BatchOk(t, w')
  {
    RowsGrow(s.entries, w.out.begin, i, e);
    assert t.h.log == Upto(i + 1);
  }

  lemma OperateClean(s: State, w: Worker, read: Option<int>, locked: bool)
    requires CleanInv(s) && s.worker == Some(w) && w.pc.Operating? && OperateStep(s, w, true, read, locked).Some?
    ensures CleanInv(OperateStep(s, w, true, read, locked).value)
  {
    var i := w.out.begin + w.offset;
    var e := s.entries[i].(value := read.value);
    var t := OperateStep(s, w, true, read, locked).value;
    RowsGrow(s.entries, w.out.begin, i, e);
    RecordedOk(s, w, i, e, t, t.worker.value);
    BatchClean(s, t, t.worker.value);
  }

  lemma PublishClean(s: State, e: Event)
    requires CleanInv(s) && (e.WPublish? || e.WFinish?) && WorkerStep(s, e).Some?
    ensures CleanInv(WorkerStep(s, e).value)
  {
    var t := WorkerStep(s, e).value;
    assert BatchOk(t, t.worker.value);
  }

  lemma WorkerClean(s: State, e: Event)
    requires CleanInv(s) && (e.WStart? || e.WCheck? || e.WTail?) && WorkerStep(s, e).Some?
    ensures CleanInv(WorkerStep(s, e).value)
  {
    var t := WorkerStep(s, e).value;
    BatchClean(s, t, t.worker.value);
  }

  lemma UiClean(s: State, e: Event)
    requires CleanInv(s) && Clean(s, e) && !IsWorker(e) && UiStep(s, e).Some?
    ensures CleanInv(UiStep(s, e).value) && |UiStep(s, e).value.entries| == |s.entries|
  {
    match e {
      case Tick(_) => if !s.running { StartClean(s, s.authorized); StartClean(s, false); }
      case FullRefresh => if !s.running { RefreshClean(s); }
      case Poll(locked) => if !s.running && s.worker.Some? { PollClean(s, locked); }
      case _ =>
    }
  }

  lemma StepClean(s: State, e: Event)
    requires CleanInv(s) && Clean(s, e) && Step(s, e).Some?
    ensures CleanInv(Step(s, e).value) && |Step(s, e).value.entries| == |s.entries|
  {
    match e {
      case WOperate(_, read, locked) => OperateClean(s, s.worker.value, read, locked);
      case WPublish => PublishClean(s, e);
      case WFinish => PublishClean(s, e);
      case _ => if IsWorker(e) { WorkerClean(s, e); } else { UiClean(s, e); }
    }
  }

  lemma {:induction false} CleanRunKeeps(s: State, es: seq<Event>)
    requires CleanInv(s) && CleanRun(s, es)
    ensures Run(s, es).Some? && CleanInv(Run(s, es).value) && |Run(s, es).value.entries| == |s.entries|
    decreases |es|
  {
    if es != [] {
      StepClean(s, es[0]);
      CleanRunKeeps(Step(s, es[0]).value, es[1..]);
    }
  }

  /**
   Whenever a clean run is between batches, the entries refreshed in this cycle are exactly those below
   the cursor, each once and in order; batch number k covered the 64 from 64 k; and when the cursor is
   back at 0 the cycle took ceil(n / 64) batches, refreshed every entry once, and the rows shown are
   the worker's rows. Manual refresh passes count as cycles of their own.
   */
  lemma CleanCycle(items: seq<(int, int)>, es: seq<Event>)
    requires CleanRun(Init(items), es) && Run(Init(items), es).Some?
    requires Run(Init(items), es).value.worker.None? && Run(Init(items), es).value.generation > 0
    ensures var s := Run(Init(items), es).value;
            var done := if s.cursor > 0 then s.cursor else |s.entries|;
            && |s.entries| == |items| && s.h.log == Upto(done) && s.h.batches == Ceil64(done)
            && done <= |s.rows| == |s.entries| && s.rows[..done] == s.entries[..done]
            && (s.cursor > 0 ==> s.cursor == 64 * s.h.batches)
  {
    CleanRunKeeps(Init(items), es);
  }

  /**
   Polling first matters: a batch started over a finished, unpolled one covers the same entries again,
   and the older outcome can no longer be consumed.
   */
  lemma UnpolledBatchRepeats(s: State)
    requires CleanInv(s) && !s.running && s.worker.Some?
    ensures s.outcome.Some? && Step(s, Tick(true)).Some?
    ensures var t := Step(s, Tick(true)).value;
            && t.worker.Some? && t.worker.value.out.begin == s.outcome.value.begin
            && t.worker.value.count == s.outcome.value.completed
            && t.outcome == s.outcome && t.outcome.value.generation < t.generation
  {
  }
}
