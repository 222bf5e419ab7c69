/**
 Which list entries the shown rows of the watch panel stand for. A poll copies a batch's rows into the
 shown ones by position, so this depends on what happened to the list since the batch began.
 */
module WatchRows {
  import opened Wrappers
  import opened WatchBatch

  predicate SameEntry(a: Entry, b: Entry) { a.id == b.id && a.key == b.key }

  /** Every shown row is the list's entry at its place. */
  ghost predicate Aligned(rows: seq<Entry>, entries: seq<Entry>) {
    |rows| == |entries| && forall i | 0 <= i < |rows| :: SameEntry(rows[i], entries[i])
  }

  /** The outcome's rows, where the list still reaches, are the entries they would be copied over. */
  ghost predicate Lands(o: Outcome, entries: seq<Entry>) {
    forall k | 0 <= k < |o.rows| && o.begin + k < |entries| :: SameEntry(o.rows[k], entries[o.begin + k])
  }

  ghost predicate InPlace(o: Outcome, entries: seq<Entry>) {
    o.begin + |o.rows| <= |entries| && Lands(o, entries)
  }

  ghost predicate RowsInv(s: State) {
    && |s.rows| == |s.entries| && (!s.h.skewed ==> Aligned(s.rows, s.entries))
    && (s.worker.Some? && s.worker.value.pc != Done ==> !s.h.shifted)
    && (s.worker.Some? && !s.h.shifted ==> InPlace(s.worker.value.out, s.entries))
    && (s.outcome.Some? && s.outcome.value.generation == s.generation && !s.h.shifted ==>
          InPlace(s.outcome.value, s.entries))
  }

  // ---- steps that leave every entry where it is

  /** The list changed without moving an entry, at most growing at its end. */
  ghost predicate Extends(before: seq<Entry>, after: seq<Entry>) {
    |before| <= |after| && forall i | 0 <= i < |before| :: SameEntry(before[i], after[i])
  }

  lemma InPlaceLater(o: Outcome, before: seq<Entry>, after: seq<Entry>)
    requires InPlace(o, before) && Extends(before, after)
    ensures InPlace(o, after)
  {
    forall k | 0 <= k < |o.rows| && o.begin + k < |after| ensures SameEntry(o.rows[k], after[o.begin + k]) {
      assert SameEntry(before[o.begin + k], after[o.begin + k]);
    }
  }

  lemma AlignedLater(rows: seq<Entry>, before: seq<Entry>, after: seq<Entry>)
    requires Aligned(rows, before) && Extends(before, after) && |before| == |after|
    ensures Aligned(rows, after)
  {
    forall i | 0 <= i < |rows| ensures SameEntry(rows[i], after[i]) { assert SameEntry(rows[i], before[i]); }
  }

  /** The list extended, rows kept or republished, worker and outcome untouched. */
  lemma ExtendedKeeps(s: State, t: State)
    requires RowsInv(s) && Extends(s.entries, t.entries)
    requires t.worker == s.worker && t.outcome == s.outcome && t.generation == s.generation
    requires t.h.shifted == s.h.shifted
    requires t.rows == t.entries || (t.rows == s.rows && |t.entries| == |s.entries| && t.h.skewed == s.h.skewed)
    ensures RowsInv(t)
  {
    if s.worker.Some? && !s.h.shifted { InPlaceLater(s.worker.value.out, s.entries, t.entries); }
    if s.outcome.Some? && s.outcome.value.generation == s.generation && !s.h.shifted {
      InPlaceLater(s.outcome.value, s.entries, t.entries);
    }
    if t.rows != t.entries && !s.h.skewed { AlignedLater(s.rows, s.entries, t.entries); }
  }

  lemma ToggleKeepsRows(s: State, index: nat, arm: bool, open: bool, relock: bool)
    requires RowsInv(s)
    ensures RowsInv(ToggleStep(s, index, arm, open, relock))
  {
    var t := ToggleStep(s, index, arm, open, relock);
    if t != s { ExtendedKeeps(s, t); }
  }

  lemma WriteKeepsRows(s: State, id: nat, wrote: bool, ok: bool, value: int)
    requires RowsInv(s)
    ensures RowsInv(WriteStep(s, id, wrote, ok, value))
  {
    var t := WriteStep(s, id, wrote, ok, value);
    if t.entries != s.entries { ExtendedKeeps(s, t); }
  }

  lemma AddKeepsRows(s: State, ok: bool, key: int, value: int)
    requires RowsInv(s)
    ensures RowsInv(AddStep(s, ok, key, value))
  {
    if !s.running && ok { ExtendedKeeps(s, AddStep(s, ok, key, value)); }
  }

  lemma RemoveKeepsRows(s: State, index: nat)
    requires Inv(s) && s.ui.Ready? && RowsInv(s)
    ensures RowsInv(RemoveStep(s, index))
  {
  }

  lemma LoadKeepsRows(s: State, ok: bool, items: seq<(int, int)>)
    requires Inv(s) && s.ui.Ready? && RowsInv(s)
    ensures RowsInv(LoadStep(s, ok, items))
  {
  }

  lemma EditKeepsRows(s: State, e: Event)
    requires Inv(s) && RowsInv(s) && IsEdit(e) && s.ui.Ready? && ReadyStep(s, e).Some?
    ensures RowsInv(ReadyStep(s, e).value)
  {
    match e {
      case Toggle(index, arm, open, relock) => ToggleKeepsRows(s, index, arm, open, relock);
      case Add(ok, key, value) => AddKeepsRows(s, ok, key, value);
      case Remove(index) => RemoveKeepsRows(s, index);
      case Load(ok, items) => LoadKeepsRows(s, ok, items);
      case Write(id, wrote, ok, value) => WriteKeepsRows(s, id, wrote, ok, value);
    }
  }

  // ---- batches

  lemma StartKeepsRows(s: State, includeFreeze: bool)
    requires Inv(s) && RowsInv(s) && !s.running
    ensures RowsInv(StartBatch(s, includeFreeze))
  {
  }

  lemma MergeLands(rows: seq<Entry>, o: Outcome, entries: seq<Entry>)
    requires |rows| == |entries| && Aligned(Merge(rows, o.begin, o.rows), entries)
    ensures Lands(o, entries)
  {
    var merged := Merge(rows, o.begin, o.rows);
    forall k | 0 <= k < |o.rows| && o.begin + k < |entries| ensures SameEntry(o.rows[k], entries[o.begin + k]) {
      assert merged[o.begin + k] == o.rows[k];
    }
  }

  lemma MergeAligns(rows: seq<Entry>, o: Outcome, entries: seq<Entry>)
    requires Aligned(rows, entries) && Lands(o, entries)
    ensures Aligned(Merge(rows, o.begin, o.rows), entries)
  {
    var merged := Merge(rows, o.begin, o.rows);
    forall i | 0 <= i < |merged| ensures SameEntry(merged[i], entries[i]) {
      if o.begin <= i < o.begin + |o.rows| {
        var k := i - o.begin;
        assert SameEntry(o.rows[k], entries[o.begin + k]);
      }
    }
  }

  lemma ConsumeKeepsRows(s: State, o: Outcome)
    requires |s.rows| == |s.entries| && s.worker.None? && s.outcome.None?
    requires !s.h.skewed ==> Aligned(s.rows, s.entries)
    requires !s.h.shifted ==> Lands(o, s.entries)
    ensures RowsInv(Consume(s, o))
  {
    if !o.failClosed && !s.h.skewed && !s.h.shifted { MergeAligns(s.rows, o, s.entries); }
    assert o.failClosed || RowsInv(Merged(s, o));
  }

  lemma DisarmedAligned(rows: seq<Entry>, entries: seq<Entry>)
    ensures Aligned(rows, entries) ==> Aligned(rows, Disarmed(entries))
  {
    if Aligned(rows, entries) {
      forall i | 0 <= i < |rows| ensures SameEntry(rows[i], Disarmed(entries)[i]) {
        assert SameEntry(rows[i], entries[i]);
      }
    }
  }

  lemma DisarmedLands(o: Outcome, entries: seq<Entry>)
    ensures Lands(o, entries) ==> Lands(o, Disarmed(entries))
  {
    if Lands(o, entries) {
      forall k | 0 <= k < |o.rows| && o.begin + k < |entries|
        ensures SameEntry(o.rows[k], Disarmed(entries)[o.begin + k])
      {
        assert SameEntry(o.rows[k], entries[o.begin + k]);
      }
    }
  }

  lemma PollKeepsRows(s: State, locked: bool)
    requires Inv(s) && RowsInv(s) && s.ui.Ready?
    ensures RowsInv(PollStep(s, locked))
  {
    if !s.running && s.outcome.Some? && s.outcome.value.generation == s.generation {
      var o := s.outcome.value;
      var joined := s.(worker := None, outcome := None, cancel := false);
      if s.cancel && o.freezeMode && !o.failClosed {
        DisarmedAligned(s.rows, s.entries);
        DisarmedLands(o, s.entries);
        ConsumeKeepsRows(joined.(entries := Disarmed(s.entries), h := s.h.(refrozen := false)),
                         o.(cancelled := true, failClosed := true, gateLocked := locked));
      } else {
        ConsumeKeepsRows(joined, o);
      }
    }
  }

  lemma StopKeepsRows(s: State, e: Event)
    requires Inv(s) && RowsInv(s) && (e.StopBegin? || e.StopJoin? || e.Cancel? || e.Clear?) && UiStep(s, e).Some?
    ensures RowsInv(UiStep(s, e).value)
  {
  }

  lemma UiKeepsRows(s: State, e: Event)
    requires Inv(s) && RowsInv(s) && !IsWorker(e) && UiStep(s, e).Some?
    ensures RowsInv(UiStep(s, e).value)
  {
    if IsEdit(e) {
      EditKeepsRows(s, e);
      return;
    }
    match e {
      case Tick(_) => if !s.running { StartKeepsRows(s, false); StartKeepsRows(s, s.authorized); }
      case FullRefresh => if !s.running { StartKeepsRows(s.(cursor := 0, fullRefresh := true), false); }
      case Poll(locked) => PollKeepsRows(s, locked);
      case Arm =>
      case Revoke =>
      case _ => StopKeepsRows(s, e);
    }
  }

  // ---- the worker

  /** The worker changed values and freeze marks of entries, and its own state, but not its rows. */
  lemma WorkerKeepsRows(s: State, t: State)
    requires RowsInv(s) && s.worker.Some? && t.worker.Some? && !s.h.shifted && !t.h.shifted
    requires Extends(s.entries, t.entries) && |t.entries| == |s.entries|
    requires t.rows == s.rows && t.h.skewed == s.h.skewed && t.generation == s.generation
    requires t.worker.value.out.begin == s.worker.value.out.begin && t.worker.value.out.rows == s.worker.value.out.rows
    requires t.outcome == s.outcome || t.outcome == Some(t.worker.value.out)
    ensures RowsInv(t)
  {
    InPlaceLater(s.worker.value.out, s.entries, t.entries);
    if s.outcome.Some? && s.outcome.value.generation == s.generation {
      InPlaceLater(s.outcome.value, s.entries, t.entries);
    }
    if !s.h.skewed { AlignedLater(s.rows, s.entries, t.entries); }
  }

  lemma NotedKeepsRows(s: State, i: nat)
    requires RowsInv(s) && s.worker.Some? && !s.h.shifted && i < |s.entries|
    requires i == s.worker.value.out.begin + |s.worker.value.out.rows|
    ensures RowsInv(Noted(s, i))
  {
  }

  lemma RefreshedExtends(s: State, i: nat, read: Option<int>)
    requires i < |s.entries|
    ensures Extends(s.entries, Refreshed(s, i, read).entries)
    ensures Extends(s.entries, Disarmed(Refreshed(s, i, read).entries))
  {
  }

  lemma OperateKeepsRows(s: State, w: Worker, ok: bool, read: Option<int>, locked: bool)
    requires Inv(s) && RowsInv(s) && s.worker == Some(w) && w.pc.Operating?
    requires OperateStep(s, w, ok, read, locked).Some?
    ensures RowsInv(OperateStep(s, w, ok, read, locked).value)
  {
    var i := w.out.begin + w.offset;
    var frozen := w.includeFreeze && s.entries[i].frozen;
    var done, w1 := Refreshed(s, i, read), Operated(w, i, frozen, ok);
    var closed := if !ok && frozen then FailClose(done, w1, locked) else done.(worker := Some(w1));
    RefreshedExtends(s, i, read);
    WorkerKeepsRows(s, closed);
    NotedKeepsRows(closed, i);
  }

  lemma ClosedExtends(s: State, w: Worker, locked: bool)
    ensures Extends(s.entries, FailClose(s, w, locked).entries)
  {
  }

  /** A step that only moves the worker on, or makes it fail closed. */
  lemma ClosingKeepsRows(s: State, w: Worker, w1: Worker, locked: bool)
    requires RowsInv(s) && s.worker == Some(w) && !s.h.shifted
    requires w1.out.begin == w.out.begin && w1.out.rows == w.out.rows
    ensures RowsInv(FailClose(s, w1, locked)) && RowsInv(s.(worker := Some(w1)))
  {
    ClosedExtends(s, w1, locked);
    WorkerKeepsRows(s, FailClose(s, w1, locked));
    WorkerKeepsRows(s, s.(worker := Some(w1)));
  }

  lemma CheckKeepsRows(s: State, w: Worker, locked: bool)
    requires Inv(s) && RowsInv(s) && s.worker == Some(w) && w.pc.AtLoop?
    ensures RowsInv(CheckStep(s, w, locked))
  {
    ClosingKeepsRows(s, w, w.(pc := Tail), locked);
    ClosingKeepsRows(s, w, w.(pc := Tail, out := w.out.(cancelled := true)), locked);
    ClosingKeepsRows(s, w, w.(pc := Operating), locked);
  }

  lemma TailKeepsRows(s: State, w: Worker, locked: bool)
    requires Inv(s) && RowsInv(s) && s.worker == Some(w) && w.pc.Tail?
    ensures RowsInv(TailStep(s, w, locked))
  {
    ClosingKeepsRows(s, w, w.(pc := Publishing, out := w.out.(cancelled := true)), locked);
    ClosingKeepsRows(s, w, w.(pc := Publishing), locked);
  }

  lemma BoundaryKeepsRows(s: State, e: Event)
    requires Inv(s) && RowsInv(s) && (e.WStart? || e.WPublish? || e.WFinish?) && WorkerStep(s, e).Some?
    ensures RowsInv(WorkerStep(s, e).value)
  {
    WorkerKeepsRows(s, WorkerStep(s, e).value);
  }

  lemma StepKeepsRows(s: State, e: Event)
    requires Inv(s) && RowsInv(s) && Step(s, e).Some?
    ensures RowsInv(Step(s, e).value)
  {
    match e {
      case WOperate(ok, read, locked) => OperateKeepsRows(s, s.worker.value, ok, read, locked);
      case WCheck(locked) => CheckKeepsRows(s, s.worker.value, locked);
      case WTail(locked) => TailKeepsRows(s, s.worker.value, locked);
      case WThrow(locked) =>
        var w := s.worker.value;
        ClosingKeepsRows(s, w, w.(pc := Publishing, out := w.out.(failed := true)), locked);
      case _ => if IsWorker(e) { BoundaryKeepsRows(s, e); } else { UiKeepsRows(s, e); }
    }
  }

  lemma {:induction false} RunKeepsRows(s: State, es: seq<Event>)
    requires Inv(s) && RowsInv(s) && Run(s, es).Some?
    ensures Inv(Run(s, es).value) && RowsInv(Run(s, es).value)
    decreases |es|
  {
    if es != [] {
      StepKeepsInv(s, es[0]);
      StepKeepsRows(s, es[0]);
      RunKeepsRows(Step(s, es[0]).value, es[1..]);
    }
  }

  // ---- what the rows show

  /**
   In every run the shown rows are the list's entries, place by place, unless an outcome was merged
   after a removal or a load and nothing was republished since.
   */
  lemma RowsShowTheList(items: seq<(int, int)>, es: seq<Event>)
    requires Run(Init(items), es).Some?
    ensures var s := Run(Init(items), es).value;
            |s.rows| == |s.entries| && (!s.h.skewed ==> Aligned(s.rows, s.entries))
  {
    RunKeepsRows(Init(items), es);
  }

  /**
   The exact condition for one poll, while the rows show the list: they still do afterwards if and only
   if the outcome fails closed, by the worker or in the poll, or its rows land on their own entries.
   They do unless entries were removed or loaded since the batch began.
   */
  lemma PollShowsTheList(items: seq<(int, int)>, es: seq<Event>, locked: bool)
    requires Run(Init(items), es).Some? && Consumable(Run(Init(items), es).value)
    requires !Run(Init(items), es).value.h.skewed
    ensures var s := Run(Init(items), es).value;
            var o := s.outcome.value;
            && Step(s, Poll(locked)).Some?
            && var t := Step(s, Poll(locked)).value;
            && (Aligned(t.rows, t.entries) <==> o.failClosed || (s.cancel && o.freezeMode) || Lands(o, s.entries))
            && (!s.h.shifted ==> Lands(o, s.entries))
  {
    RunKeepsRows(Init(items), es);
    var s := Run(Init(items), es).value;
    var o, merged := s.outcome.value, Merge(s.rows, s.outcome.value.begin, s.outcome.value.rows);
    if Aligned(merged, s.entries) { MergeLands(s.rows, o, s.entries); }
    if Lands(o, s.entries) { MergeAligns(s.rows, o, s.entries); }
  }
}
