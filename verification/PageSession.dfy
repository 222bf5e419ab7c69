/**
 The physical page transaction: a page is read, edited locally, written back as a whole by a kernel
 compare-and-write, observed again and rolled back. The object carries a ledger of what it observed and
 wrote; `Valid` ties edits, unlocks, rollback pages and evidence to it, and every method keeps it.
 */
module PageSession {
  import opened Wrappers
  import opened EvidencePattern
  import opened EvidenceBundle
  import opened EditHistory

  const MAX_EDITS := 4096

  /** The states between operations; the transient ones never outlive a call. */
  datatype SessionState = Empty | Clean | Dirty | Conflict | VerificationFailed | Error

  // ---- what the backend answers

  datatype Answer = Ok | Disconnected | Failed

  datatype ReadAnswer = Read(page: Page) | ReadDisconnected | ReadFailed

  datatype Verdict = Applied | Conflicted | Refused

  /** A compare-and-write that reported back; the whole page as it was afterwards. */
  datatype Transaction = Transaction(verdict: Verdict, transferred: nat, readback: Page)

  /** `transaction` is `None` when the call failed and nobody knows what was written. */
  datatype Answers = Answers(range: Answer, enable: Answer, transaction: Option<Transaction>, closed: bool)

  // ---- the ledger

  /** The page in memory just before and just after a write. */
  datatype Memory = Memory(before: Page, after: Page)

  /** A write that went out, what it did to memory, what was reported, and which apply it rolls back. */
  datatype Write = Write(expected: Page, desired: Page, memory: Memory, reply: Option<Transaction>, undoes: Option<nat>)

  /**
   Pages read whole, writes issued, unlocks granted, where in `writes` the last apply is, and whether the
   last rollback succeeded.
   */
  datatype Ledger = Ledger(observed: set<Page>, writes: seq<Write>, unlocks: nat, applyAt: nat, restored: bool)

  datatype Rollback = Rollback(snapshot: Option<Page>, expected: Option<Page>)

  predicate Seen(l: Ledger, page: Option<Page>) { page.Some? ==> page.value in l.observed }

  /** Every write had its own unlock, and expected a page that had been observed whole. */
  ghost predicate WritesOk(l: Ledger, unlocked: bool) {
    && |l.writes| + (if unlocked then 1 else 0) <= l.unlocks
    && forall k | 0 <= k < |l.writes| :: l.writes[k].expected in l.observed
  }

  predicate Verified(t: Transaction, desired: Page) {
    t.verdict == Applied && t.transferred == PAGE_SIZE && t.readback == desired
  }

  /** The write was reported to have left its page alone. */
  predicate Rejected(w: Write) { w.reply.Some? && w.reply.value.verdict == Conflicted }

  predicate Confirmed(w: Write) { w.reply.Some? && Verified(w.reply.value, w.desired) }

  /** An apply over `page` that was not reported as rejected. */
  predicate AppliedOver(ws: seq<Write>, j: nat, page: Page) {
    j < |ws| && ws[j].undoes.None? && ws[j].expected == page && !Rejected(ws[j])
  }

  /** Write `k`, if it is a rollback, writes back the page an earlier apply was to replace. */
  predicate RollsBackApply(ws: seq<Write>, k: nat)
    requires k < |ws|
  {
    ws[k].undoes.Some? ==> ws[k].undoes.value < k && AppliedOver(ws, ws[k].undoes.value, ws[k].desired)
  }

  /** Every rollback belongs to an apply. */
  ghost predicate ChainOk(ws: seq<Write>) { forall k | 0 <= k < |ws| :: RollsBackApply(ws, k) }

  /** A rollback of the last apply was issued. */
  ghost predicate RolledBack(l: Ledger) {
    exists k | l.applyAt < k < |l.writes| :: l.writes[k].undoes == Some(l.applyAt)
  }

  /** The last write is a confirmed rollback of the last apply. */
  predicate EndsRestored(l: Ledger) {
    var n := |l.writes| - 1;
    0 <= l.applyAt < n && l.writes[n].undoes == Some(l.applyAt) && Confirmed(l.writes[n])
  }

  /**
   What the evidence stands for: with a read-back, its apply was issued and reported; with a rollback page
   too, a rollback of it was issued, and it succeeded exactly when nothing is left to roll back.
   */
  ghost predicate EvidenceOk(l: Ledger, e: Captured, r: Rollback) {
    && Seen(l, e.baseline) && Seen(l, e.preflight) && Seen(l, e.readback) && Seen(l, e.independentReload)
    && Seen(l, e.rollback) && Seen(l, r.snapshot) && Seen(l, r.expected)
    && (e.readback.Some? ==>
          && e.baseline.Some? && e.expectedAfter.Some? && l.applyAt < |l.writes|
          && l.writes[l.applyAt].expected == e.baseline.value && l.writes[l.applyAt].desired == e.expectedAfter.value
          && l.writes[l.applyAt].reply.Some?
          && (r.snapshot.Some? ==> r.snapshot == e.baseline)
          && (e.rollback.Some? ==>
                && RolledBack(l) && AppliedOver(l.writes, l.applyAt, e.baseline.value)
                && (l.restored <==> r.snapshot.None?) && (l.restored ==> EndsRestored(l))))
  }

  const NOTHING := Captured(None, None, None, None, None, None)

  function Blank(): Page { seq(PAGE_SIZE, _ => 0 as bv8) }

  /** `dirty[i]` for every byte that differs. */
  ghost predicate DirtyOk(dirty: seq<bool>, baseline: Page, working: Page) {
    |dirty| == PAGE_SIZE && forall i | 0 <= i < PAGE_SIZE :: dirty[i] <==> baseline[i] != working[i]
  }

  function NoneDirty(): (r: seq<bool>)
    ensures |r| == PAGE_SIZE && forall i | 0 <= i < PAGE_SIZE :: !r[i]
  {
    seq(PAGE_SIZE, _ => false)
  }

  predicate Any(dirty: seq<bool>) { exists i | 0 <= i < |dirty| :: dirty[i] }

  lemma CleanIs(page: Page)
    ensures DirtyOk(NoneDirty(), page, page) && !Any(NoneDirty())
  {
  }

  lemma AnyMeansDifferent(dirty: seq<bool>, baseline: Page, working: Page)
    requires DirtyOk(dirty, baseline, working)
    ensures Any(dirty) <==> baseline != working
  {
    if !Any(dirty) {
      assert forall i | 0 <= i < PAGE_SIZE :: !dirty[i];
      assert baseline == working;
    }
  }

  // ---- comparing pages

  /** The offsets at which two pages differ, in order; none exactly when they are equal. */
  method Mismatches(a: Page, b: Page) returns (offsets: seq<nat>)
    ensures offsets == Differences(a, b, PAGE_SIZE) && (offsets == [] <==> a == b)
  {
    offsets := [];
    for i := 0 to PAGE_SIZE
      invariant offsets == Differences(a, b, i)
    {
      if a[i] != b[i] { offsets := offsets + [i]; }
    }
    forall i | 0 <= i < PAGE_SIZE ensures i in offsets <==> a[i] != b[i] { DifferenceMembers(a, b, PAGE_SIZE, i); }
    if offsets != [] {
      assert offsets[0] in offsets;
      DifferenceMembers(a, b, PAGE_SIZE, offsets[0]);
    }
  }

  // ---- an honest kernel

  /**
   What the kernel promises of every write, whether or not its reply arrives: it writes only over the
   expected page, and a reply tells whether it did and which page it left.
   */
  ghost predicate HonestWrite(w: Write) {
    && (w.memory.before != w.expected ==> w.memory.after == w.memory.before)
    && (w.reply.Some? ==>
          && w.reply.value.readback == w.memory.after
          && (w.reply.value.verdict == Conflicted <==> w.memory.before != w.expected))
  }

  ghost predicate HonestKernel(ws: seq<Write>) { forall k | 0 <= k < |ws| :: HonestWrite(ws[k]) }

  /** The apply that rollback `k` belongs to. */
  function ApplyOf(ws: seq<Write>, k: nat): Write
    requires k < |ws| && ws[k].undoes.Some? && RollsBackApply(ws, k)
  {
    ws[ws[k].undoes.value]
  }

  /**
   Rollback `k` replaced the very page it expected by the page its apply was to replace; so memory is as it
   was before the apply if and only if it held the baseline then, and it did if the apply reported back.
   */
  ghost predicate Restores(ws: seq<Write>, k: nat)
    requires k < |ws| && ws[k].undoes.Some? && RollsBackApply(ws, k)
  {
    var w, a := ws[k], ApplyOf(ws, k);
    && w.memory.before == w.expected && w.memory.after == a.expected
    && (w.memory.after == a.memory.before <==> a.memory.before == a.expected)
    && (a.reply.Some? ==> w.memory.after == a.memory.before)
  }

  lemma RollbackRestores(ws: seq<Write>, k: nat)
    requires ChainOk(ws) && HonestKernel(ws)
    requires k < |ws| && ws[k].undoes.Some? && Confirmed(ws[k])
    ensures RollsBackApply(ws, k) && Restores(ws, k)
  {
    assert RollsBackApply(ws, k);
    assert HonestWrite(ws[k]) && HonestWrite(ApplyOf(ws, k));
  }

  // ---- the session

  /** The page as loaded and as edited, which bytes differ, and the edits to undo and redo. */
  datatype Copy = Copy(baseline: Page, working: Page, dirty: seq<bool>, undo: seq<Edit>, redo: seq<Edit>)

  /** The pages at the two ends of the edit history. */
  datatype Span = Span(start: Page, tip: Page)

  /** A page with nothing edited and nothing to undo. */
  function Untouched(page: Page): Copy { Copy(page, page, NoneDirty(), [], []) }

  /** The dirty map is the difference, and both stacks tell the truth; together they stay bounded. */
  ghost predicate CopyOk(c: Copy, s: Span) {
    && DirtyOk(c.dirty, c.baseline, c.working) && Made(s.start, c.undo, c.working) && Leads(c.working, c.redo, s.tip)
    && |c.undo| + |c.redo| <= MAX_EDITS
  }

  lemma UntouchedOk(page: Page)
    ensures CopyOk(Untouched(page), Span(page, page))
  {
    CleanIs(page);
  }

  function Changed(c: Copy, offset: nat, value: bv8): Copy
    requires offset < PAGE_SIZE && |c.dirty| == PAGE_SIZE
  {
    Copy(c.baseline, c.working[offset := value], c.dirty[offset := c.baseline[offset] != value], c.undo, c.redo)
  }

  lemma ChangedDirty(c: Copy, offset: nat, value: bv8)
    requires offset < PAGE_SIZE && DirtyOk(c.dirty, c.baseline, c.working)
    ensures var d := Changed(c, offset, value); DirtyOk(d.dirty, d.baseline, d.working)
  {
  }

  lemma UndoOk(c: Copy, s: Span, e: Edit)
    requires CopyOk(c, s) && c.undo != [] && e == c.undo[|c.undo| - 1]
    ensures e.offset < PAGE_SIZE
    ensures CopyOk(Changed(Copy(c.baseline, c.working, c.dirty, c.undo[..|c.undo| - 1], c.redo + [e]),
                           e.offset, e.before), s)
    ensures c.working[e.offset := e.before] != c.working
  {
    Undone(s.start, c.undo, c.working, c.redo, s.tip);
    ChangedDirty(c, e.offset, e.before);
  }

  lemma RedoOk(c: Copy, s: Span, e: Edit)
    requires CopyOk(c, s) && c.redo != [] && e == c.redo[|c.redo| - 1]
    ensures e.offset < PAGE_SIZE
    ensures CopyOk(Changed(Copy(c.baseline, c.working, c.dirty, c.undo + [e], c.redo[..|c.redo| - 1]),
                           e.offset, e.after), s)
    ensures c.working[e.offset := e.after] != c.working
  {
    Redone(s.start, c.undo, c.working, c.redo, s.tip);
    ChangedDirty(c, e.offset, e.after);
  }

  lemma EditedOk(c: Copy, s: Span, offset: nat, value: bv8)
    requires offset < PAGE_SIZE && DirtyOk(c.dirty, c.baseline, c.working) && c.redo == [] && |c.undo| <= MAX_EDITS
    requires Made(s.start, c.undo, c.working[offset := value])
    ensures CopyOk(Changed(c, offset, value), Span(s.start, c.working[offset := value]))
  {
    ChangedDirty(c, offset, value);
  }

  datatype Flags = Flags(state: SessionState, writeUnlocked: bool, lastApplyVerified: bool, recoveryRequired: bool)

  ghost predicate LedgerOk(target: Option<nat>, c: Copy, r: Rollback, e: Captured, f: Flags, l: Ledger) {
    && WritesOk(l, f.writeUnlocked) && EvidenceOk(l, e, r) && ChainOk(l.writes)
    && (r.snapshot.Some? ==> AppliedOver(l.writes, l.applyAt, r.snapshot.value))
    && (target.Some? ==> c.baseline in l.observed) && (f.writeUnlocked ==> target.Some?)
    && (target.None? ==> r == Rollback(None, None) && !f.recoveryRequired && c == Untouched(Blank()))
    && (f.recoveryRequired ==> r.snapshot.Some? && r.expected.None? && (e.readback.None? || e.rollback.None?))
  }

  /** Observing a page keeps the ledger in order. */
  lemma ObservedKeeps(target: Option<nat>, c: Copy, r: Rollback, e: Captured, f: Flags, l: Ledger, page: Page)
    requires LedgerOk(target, c, r, e, f, l)
    ensures LedgerOk(target, c, r, e, f, l.(observed := l.observed + {page}))
  {
    var m := l.(observed := l.observed + {page});
    if e.readback.Some? && e.rollback.Some? { assert RolledBack(m); }
  }

  /** A write that went out last keeps the chain. */
  lemma IssuedKeepsChain(ws: seq<Write>, w: Write)
    requires ChainOk(ws) && (w.undoes.Some? ==> AppliedOver(ws, w.undoes.value, w.desired))
    ensures ChainOk(ws + [w])
  {
    var more := ws + [w];
    forall k | 0 <= k < |more| ensures RollsBackApply(more, k) {
      if k < |ws| { assert RollsBackApply(ws, k); }
    }
  }

  /** What a reload after an uncertain transaction leaves to roll back. */
  function Recovered(r: Rollback, page: Page): Rollback {
    if r.snapshot == Some(page) then Rollback(None, None) else Rollback(r.snapshot, Some(page))
  }

  /** What an apply leaves to roll back: nothing after a conflict, an unknown page after a failed call. */
  function AfterApply(baseline: Page, t: Option<Transaction>): Rollback {
    if t.None? then Rollback(Some(baseline), None)
    else if t.value.verdict == Conflicted then Rollback(None, None)
    else Rollback(Some(baseline), Some(t.value.readback))
  }

  /** What a failed rollback leaves: the page it observed, unless it was refused or told nothing. */
  function AfterRollback(r: Rollback, t: Option<Transaction>): Rollback {
    if t.None? then Rollback(r.snapshot, None)
    else if t.value.verdict == Conflicted then r
    else Rollback(r.snapshot, Some(t.value.readback))
  }

  /** The evidence a transaction leaves: after a conflict the page found is the preflight. */
  function ApplyEvidence(c: Copy, t: Transaction): Captured {
    Captured(Some(c.baseline), Some(if t.verdict == Conflicted then t.readback else c.baseline), Some(c.working),
             Some(t.readback), None, None)
  }

  /** The calls a panel can make. */
  datatype Call =
    | LoadPage(frame: nat, consistent: bool, range: Answer, read: ReadAnswer) | Forget
    | Edited(offset: nat, value: bv8, room: bool) | Reverted(offset: nat, room: bool)
    | TakeBack(room: bool) | DoAgain(room: bool) | RevertEdits
    | UnlockApply(frame: nat) | UnlockRollback(frame: nat)
    | Reload(range: Answer, read: ReadAnswer) | Apply(o: Answers) | RollBack(o: Answers)

  class PhysicalPageSession {
    var target: Option<nat>                // the frame number of the loaded page
    var copy: Copy
    var rollback: Rollback
    var evidence: Captured
    var flags: Flags
    var conflicts: seq<nat>
    var mismatches: seq<nat>
    ghost var ledger: Ledger
    ghost var span: Span

    ghost predicate Valid()
      reads this
    {
      CopyOk(copy, span) && LedgerOk(target, copy, rollback, evidence, flags, ledger)
    }

    constructor ()
      ensures Valid() && target == None && ledger == Ledger({}, [], 0, 0, false)
    {
      target, copy, rollback, evidence := None, Untouched(Blank()), Rollback(None, None), NOTHING;
      flags := Flags(Empty, false, false, false);
      conflicts, mismatches := [], [];
      ledger, span := Ledger({}, [], 0, 0, false), Span(Blank(), Blank());
      new;
      UntouchedOk(Blank());
    }

    method Invalidate()
      requires WritesOk(ledger, flags.writeUnlocked) && ChainOk(ledger.writes)
      modifies this`target, this`copy, this`span, this`rollback, this`evidence, this`flags
      modifies this`conflicts, this`mismatches
      ensures Valid() && target == None && flags == Flags(Empty, false, false, false) && evidence == NOTHING
    {
      target, copy, rollback, evidence := None, Untouched(Blank()), Rollback(None, None), NOTHING;
      flags, conflicts, mismatches, span := Flags(Empty, false, false, false), [], [], Span(Blank(), Blank());
      UntouchedOk(Blank());
    }

    /** Loading forgets everything about the page before, and its baseline is a page read just now. */
    method Load(frame: nat, consistent: bool, range: Answer, read: ReadAnswer) returns (ok: bool)
      requires Valid()
      modifies this
      ensures Valid()
      ensures ok <==> consistent && range == Ok && read.Read?
      ensures ledger == if ok then old(ledger).(observed := old(ledger).observed + {read.page}) else old(ledger)
      ensures ok ==> target == Some(frame) && copy == Untouched(read.page)
      ensures evidence == if ok then NOTHING.(baseline := Some(read.page)) else NOTHING
      ensures !ok ==> target == None
      ensures !flags.writeUnlocked && !flags.recoveryRequired && rollback == Rollback(None, None)
    {
      Invalidate();
      flags := flags.(state := Error);
      if !consistent || range != Ok || !read.Read? { return false; }
      ledger := ledger.(observed := ledger.observed + {read.page});
      target, copy, span := Some(frame), Untouched(read.page), Span(read.page, read.page);
      UntouchedOk(read.page);
      evidence := NOTHING.(baseline := Some(read.page));
      flags := flags.(state := Clean);
      return true;
    }

    /** One byte of the working copy changes, and with it the dirty map; any unlock is lost. */
    method Change(offset: nat, value: bv8)
      requires DirtyOk(copy.dirty, copy.baseline, copy.working) && offset < PAGE_SIZE
      modifies this`copy, this`flags
      ensures copy == Changed(old(copy), offset, value) && DirtyOk(copy.dirty, copy.baseline, copy.working)
      ensures flags == old(flags).(writeUnlocked := false,
                                   state := if copy.baseline != copy.working then Dirty else Clean)
    {
      ChangedDirty(copy, offset, value);
      copy := Changed(copy, offset, value);
      AnyMeansDifferent(copy.dirty, copy.baseline, copy.working);
      flags := flags.(writeUnlocked := false, state := if Any(copy.dirty) then Dirty else Clean);
    }

    /** The edit on top of the undo stack; the oldest one makes room when there are too many. */
    method Remember(e: Edit)
      requires CopyOk(copy, span) && e.offset < PAGE_SIZE && copy.working[e.offset] == e.before != e.after
      modifies this`copy, this`span
      ensures copy == old(copy).(undo := copy.undo, redo := []) && |copy.undo| <= MAX_EDITS
      ensures Made(span.start, copy.undo, copy.working[e.offset := e.after]) && copy.undo != []
      ensures |old(copy).undo| < MAX_EDITS ==> copy.undo == old(copy).undo + [e] && span == old(span)
    {
      MadeByEdit(span.start, copy.undo, copy.working, e);
      copy := copy.(undo := copy.undo + [e], redo := []);
      if |copy.undo| > MAX_EDITS {
        Forgotten(span.start, copy.undo, copy.working[e.offset := e.after]);
        var oldest := copy.undo[0];
        span := span.(start := span.start[oldest.offset := oldest.after]);
        copy := copy.(undo := copy.undo[1..]);
      }
    }

    /** `room` is whether the history can grow; without it a real change is refused. */
    method EditByte(offset: nat, value: bv8, room: bool) returns (ok: bool)
      requires Valid()
      modifies this`copy, this`span, this`flags
      ensures Valid() && copy.baseline == old(copy).baseline
      ensures ok <==> target.Some? && offset < PAGE_SIZE && (room || old(copy).working[offset] == value)
      ensures copy.working == if ok then old(copy).working[offset := value] else old(copy).working
      ensures copy.working != old(copy).working ==> !flags.writeUnlocked && copy.redo == [] && copy.undo != []
      ensures copy.working == old(copy).working ==> copy == old(copy) && flags == old(flags)
      ensures flags == old(flags).(writeUnlocked := flags.writeUnlocked, state := flags.state)
    {
      if target.None? || offset >= PAGE_SIZE { return false; }
      var previous := copy.working[offset];
      if previous == value {
        assert copy.working[offset := value] == copy.working;
        return true;
      }
      if !room { return false; }
      RecordEdit(offset, value);
      return true;
    }

    method RecordEdit(offset: nat, value: bv8)
      requires CopyOk(copy, span) && offset < PAGE_SIZE && copy.working[offset] != value
      modifies this`copy, this`span, this`flags
      ensures CopyOk(copy, span) && copy.baseline == old(copy).baseline && copy.redo == [] && copy.undo != []
      ensures copy.working == old(copy).working[offset := value]
      ensures flags == old(flags).(writeUnlocked := false, state := flags.state)
    {
      Remember(Edit(offset, copy.working[offset], value));
      EditedOk(copy, span, offset, value);
      Change(offset, value);
      span := span.(tip := copy.working);
    }

    method RevertByte(offset: nat, room: bool) returns (ok: bool)
      requires Valid()
      modifies this`copy, this`span, this`flags
      ensures Valid() && copy.baseline == old(copy).baseline
      ensures flags == old(flags).(writeUnlocked := flags.writeUnlocked, state := flags.state)
      ensures ok ==> offset < PAGE_SIZE && copy.working == old(copy).working[offset := copy.baseline[offset]]
    {
      if target.None? || offset >= PAGE_SIZE { return false; }
      ok := EditByte(offset, copy.baseline[offset], room);
    }

    /** The last edit is taken back and can be redone; both ends of the history stay where they are. */
    method Undo(room: bool) returns (ok: bool)
      requires Valid()
      modifies this`copy, this`flags
      ensures Valid() && copy.baseline == old(copy).baseline
      ensures ok <==> old(copy).undo != [] && room
      ensures ok ==> && copy.redo != [] && copy.undo + [copy.redo[|copy.redo| - 1]] == old(copy).undo
                     && copy.redo[..|copy.redo| - 1] == old(copy).redo && copy.working != old(copy).working
      ensures flags == old(flags).(writeUnlocked := flags.writeUnlocked, state := flags.state)
      ensures !ok ==> copy == old(copy)
    {
      if copy.undo == [] || !room { return false; }
      var e := copy.undo[|copy.undo| - 1];
      UndoOk(copy, span, e);
      copy := Copy(copy.baseline, copy.working, copy.dirty, copy.undo[..|copy.undo| - 1], copy.redo + [e]);
      Change(e.offset, e.before);
      return true;
    }

    method Redo(room: bool) returns (ok: bool)
      requires Valid()
      modifies this`copy, this`flags
      ensures Valid() && copy.baseline == old(copy).baseline
      ensures ok <==> old(copy).redo != [] && room
      ensures ok ==> && copy.undo != [] && copy.redo + [copy.undo[|copy.undo| - 1]] == old(copy).redo
                     && copy.undo[..|copy.undo| - 1] == old(copy).undo && copy.working != old(copy).working
      ensures flags == old(flags).(writeUnlocked := flags.writeUnlocked, state := flags.state)
      ensures !ok ==> copy == old(copy)
    {
      if copy.redo == [] || !room { return false; }
      var e := copy.redo[|copy.redo| - 1];
      RedoOk(copy, span, e);
      copy := Copy(copy.baseline, copy.working, copy.dirty, copy.undo + [e], copy.redo[..|copy.redo| - 1]);
      Change(e.offset, e.after);
      return true;
    }

    method RevertAll()
      requires Valid()
      modifies this`copy, this`span, this`flags, this`conflicts, this`mismatches
      ensures Valid()
      ensures target.Some? ==> copy == Untouched(old(copy).baseline) && !flags.writeUnlocked
      ensures flags.recoveryRequired == old(flags).recoveryRequired
    {
      if target.None? { return; }
      var page := copy.baseline;
      copy, span := Untouched(page), Span(page, page);
      UntouchedOk(page);
      conflicts, mismatches, flags := [], [], flags.(writeUnlocked := false, state := Clean);
    }

    /** One unlock, for the frame number typed again, and only while something is edited. */
    method UnlockForOneApply(frame: nat) returns (ok: bool)
      requires Valid()
      modifies this`flags, this`ledger
      ensures Valid() && ledger == old(ledger).(unlocks := ledger.unlocks)
      ensures ok <==> target == Some(frame) && copy.baseline != copy.working
      ensures flags == if ok then old(flags).(writeUnlocked := true) else old(flags)
    {
      AnyMeansDifferent(copy.dirty, copy.baseline, copy.working);
      if target.None? || !Any(copy.dirty) || frame != target.value { return false; }
      ledger := ledger.(unlocks := ledger.unlocks + 1);
      flags := flags.(writeUnlocked := true);
      return true;
    }

    method UnlockForRollback(frame: nat) returns (ok: bool)
      requires Valid()
      modifies this`flags, this`ledger
      ensures Valid() && ledger == old(ledger).(unlocks := ledger.unlocks)
      ensures ok <==> target == Some(frame) && rollback.snapshot.Some? && rollback.expected.Some?
      ensures flags == if ok then old(flags).(writeUnlocked := true) else old(flags)
    {
      if target.None? || rollback.snapshot.None? || rollback.expected.None? || frame != target.value { return false; }
      ledger := ledger.(unlocks := ledger.unlocks + 1);
      flags := flags.(writeUnlocked := true);
      return true;
    }

    /** Whether a reload would read the page. */
    predicate Reloads()
      reads this
    {
      target.Some? && (flags.recoveryRequired || !Any(copy.dirty)) && rollback.snapshot.Some?
    }

    /**
     The independent reload. After an uncertain transaction it adopts what it finds, as the page a
     rollback must expect, or as the end of the matter when that is the page before the apply;
     otherwise the page must still be the verified one.
     */
    method ReloadPreservingRollback(range: Answer, read: ReadAnswer) returns (ok: bool)
      requires Valid()
      modifies this
      ensures Valid() && ledger == old(ledger).(observed := ledger.observed)
      ensures ok <==>
              && old(Reloads())
              && range == Ok && read.Read? && (old(flags).recoveryRequired || read.page == old(copy).baseline)
      ensures ok ==> target == old(target) && copy == Untouched(read.page) && !flags.recoveryRequired
      ensures ok ==> evidence == old(evidence).(independentReload := Some(read.page))
      ensures ok && !old(flags).recoveryRequired ==> rollback == old(rollback) && read.page == old(copy).baseline
      ensures ok && old(flags).recoveryRequired ==> rollback == Recovered(old(rollback), read.page)
      ensures target == if range == Disconnected || (range == Ok && read.ReadDisconnected?)
                        then (if old(Reloads()) then None else old(target)) else old(target)
      ensures !ok && target.Some? ==>
                copy == old(copy) && rollback == old(rollback) && flags.recoveryRequired == old(flags).recoveryRequired
    {
      if target.None? || (Any(copy.dirty) && !flags.recoveryRequired) || rollback.snapshot.None? { return false; }
      evidence := evidence.(independentReload := None);
      flags, conflicts, mismatches := flags.(writeUnlocked := false), [], [];
      if range == Disconnected || (range == Ok && read.ReadDisconnected?) {
        Invalidate();
        return false;
      }
      if range != Ok || !read.Read? {
        flags := flags.(state := if range != Ok then Error else VerificationFailed);
        return false;
      }
      ok := TakeReload(read.page);
    }

    /** The page was read: adopted while recovery is pending, otherwise compared with the verified one. */
    method TakeReload(page: Page) returns (ok: bool)
      requires Valid() && target.Some? && rollback.snapshot.Some?
      modifies this`copy, this`span, this`rollback, this`evidence, this`flags, this`mismatches, this`ledger
      ensures Valid() && ledger == old(ledger).(observed := ledger.observed)
      ensures evidence == old(evidence).(independentReload := Some(page))
      ensures ok <==> old(flags).recoveryRequired || page == old(copy).baseline
      ensures ok ==> copy == Untouched(page) && !flags.recoveryRequired
      ensures rollback == if old(flags).recoveryRequired then Recovered(old(rollback), page) else old(rollback)
      ensures !ok ==> copy == old(copy) && flags.recoveryRequired == old(flags).recoveryRequired
    {
      ObservedKeeps(target, copy, rollback, evidence, flags, ledger, page);
      ledger := ledger.(observed := ledger.observed + {page});
      evidence := evidence.(independentReload := Some(page));
      if flags.recoveryRequired {
        rollback := Recovered(rollback, page);
        flags := flags.(recoveryRequired := false);
      } else {
        mismatches := Mismatches(page, copy.baseline);
        if mismatches != [] {
          flags := flags.(state := VerificationFailed);
          return false;
        }
      }
      copy, span := Untouched(page), Span(page, page);
      UntouchedOk(page);
      flags := flags.(state := Clean);
      return true;
    }

    /** Whether an apply now would reach the kernel. */
    predicate Applies(o: Answers)
      reads this
    {
      target.Some? && copy.baseline != copy.working && flags.writeUnlocked && o.range == Ok && o.enable == Ok
    }

    /**
     The apply: at most one write, of the working page over the baseline, and it succeeds exactly when the
     kernel reports the whole page written, the page read back is the working one and the gate closed.
     */
    method ApplyAndVerify(o: Answers, ghost m: Memory) returns (ok: bool)
      requires Valid()
      modifies this
      ensures Valid()
      ensures ledger.writes == old(ledger).writes +
              (if old(Applies(o)) then [Write(old(copy).baseline, old(copy).working, m, o.transaction, None)] else [])
      ensures old(Applies(o)) ==> !flags.writeUnlocked
      ensures ok <==> && old(Applies(o)) && o.closed && o.transaction.Some?
                      && Verified(o.transaction.value, old(copy).working)
      ensures ok ==> copy == Untouched(old(copy).working) && !flags.recoveryRequired
      ensures old(Applies(o)) ==> flags.recoveryRequired == o.transaction.None? &&
                                  rollback == AfterApply(old(copy).baseline, o.transaction)
      ensures old(Applies(o)) && !ok ==> copy == old(copy)
      ensures o.transaction.None? ==> ledger.observed == old(ledger).observed
      ensures old(Applies(o)) ==> target == old(target)
      ensures !old(target.Some? && copy.baseline != copy.working && flags.writeUnlocked) ==>
                copy == old(copy) && flags == old(flags) && rollback == old(rollback)
      ensures old(target.Some? && copy.baseline != copy.working && flags.writeUnlocked) ==>
                flags.recoveryRequired == (old(Applies(o)) && o.transaction.None?)
      ensures !old(Applies(o)) ==> ledger == old(ledger)
      ensures old(Applies(o)) && o.transaction.Some? ==> evidence == ApplyEvidence(old(copy), o.transaction.value)
    {
      AnyMeansDifferent(copy.dirty, copy.baseline, copy.working);
      if target.None? || !Any(copy.dirty) || !flags.writeUnlocked { return false; }
      flags := flags.(writeUnlocked := false, lastApplyVerified := false, recoveryRequired := false);
      conflicts, mismatches, evidence := [], [], NOTHING.(baseline := Some(copy.baseline));
      if o.range == Disconnected || (o.range == Ok && o.enable == Disconnected) {
        Invalidate();
        return false;
      }
      if o.range != Ok {
        flags := flags.(state := Error);
        return false;
      }
      rollback := Rollback(Some(copy.baseline), None);
      evidence := evidence.(expectedAfter := Some(copy.working));
      if o.enable != Ok {
        rollback, flags := Rollback(None, None), flags.(state := Error);
        return false;
      }
      ok := Transact(o.transaction, o.closed, m);
    }

    /** The write itself, with the gate open. */
    method Transact(t: Option<Transaction>, closed: bool, ghost m: Memory) returns (ok: bool)
      requires CopyOk(copy, span) && target.Some? && !flags.writeUnlocked && !flags.recoveryRequired
      requires WritesOk(ledger, true) && copy.baseline in ledger.observed && ChainOk(ledger.writes)
      requires rollback == Rollback(Some(copy.baseline), None)
      requires evidence == NOTHING.(baseline := Some(copy.baseline), expectedAfter := Some(copy.working))
      modifies this
      ensures Valid() && target == old(target) && !flags.writeUnlocked
      ensures ledger.writes == old(ledger).writes + [Write(old(copy).baseline, old(copy).working, m, t, None)]
      ensures t.None? ==> ledger.observed == old(ledger).observed
      ensures ok <==> closed && t.Some? && Verified(t.value, old(copy).working)
      ensures copy == if ok then Untouched(old(copy).working) else old(copy)
      ensures flags.recoveryRequired == t.None? && rollback == AfterApply(old(copy).baseline, t)
      ensures t.Some? ==> evidence == ApplyEvidence(old(copy), t.value)
    {
      IssuedKeepsChain(ledger.writes, Write(copy.baseline, copy.working, m, t, None));
      Issue(Write(copy.baseline, copy.working, m, t, None));
      ledger := ledger.(applyAt := |ledger.writes| - 1);
      if t.None? {
        flags := flags.(recoveryRequired := true, state := VerificationFailed);
        return false;
      }
      RecordApply(t.value);
      ok := FinishApply(t.value, closed);
    }

    /** A write goes out; the unlock it used is gone. */
    ghost method Issue(w: Write)
      requires |ledger.writes| < ledger.unlocks && !flags.writeUnlocked && w.expected in ledger.observed
      requires WritesOk(ledger, false)
      modifies this`ledger
      ensures WritesOk(ledger, false) && ledger == old(ledger).(writes := old(ledger).writes + [w])
    {
      ledger := ledger.(writes := ledger.writes + [w]);
    }

    /** The kernel reported back: the pages it tells of are kept as evidence and for a rollback. */
    method RecordApply(t: Transaction)
      requires CopyOk(copy, span) && target.Some? && !flags.writeUnlocked && !flags.recoveryRequired
      requires WritesOk(ledger, false) && copy.baseline in ledger.observed
      requires ledger.writes != [] && ledger.applyAt == |ledger.writes| - 1 && ChainOk(ledger.writes)
      requires var w := ledger.writes[ledger.applyAt];
               w.expected == copy.baseline && w.desired == copy.working && w.reply == Some(t) && w.undoes.None?
      requires evidence == NOTHING.(baseline := Some(copy.baseline), expectedAfter := Some(copy.working))
      modifies this`ledger, this`evidence, this`rollback, this`conflicts
      ensures Valid() && ledger == old(ledger).(observed := old(ledger).observed + {t.readback})
      ensures rollback == AfterApply(copy.baseline, Some(t)) && evidence == ApplyEvidence(copy, t)
    {
      ledger := ledger.(observed := ledger.observed + {t.readback});
      evidence := evidence.(readback := Some(t.readback));
      rollback := AfterApply(copy.baseline, Some(t));
      if t.verdict == Conflicted {
        evidence := evidence.(preflight := Some(t.readback));
        conflicts := Mismatches(t.readback, copy.baseline);
      } else {
        evidence := evidence.(preflight := Some(copy.baseline));
      }
    }

    /** The page read back is compared with the one wanted. */
    method FinishApply(t: Transaction, closed: bool) returns (ok: bool)
      requires Valid() && target.Some? && !flags.writeUnlocked && !flags.recoveryRequired
      requires t.readback in ledger.observed
      modifies this`copy, this`span, this`flags, this`mismatches
      ensures Valid() && !flags.writeUnlocked && !flags.recoveryRequired
      ensures ok <==> closed && Verified(t, old(copy).working)
      ensures copy == if ok then Untouched(old(copy).working) else old(copy)
    {
      if !closed {
        flags := flags.(state := Error);
        return false;
      }
      if t.verdict == Conflicted {
        flags := flags.(state := Conflict);
        return false;
      }
      mismatches := Mismatches(t.readback, copy.working);
      if t.verdict != Applied || t.transferred != PAGE_SIZE || mismatches != [] {
        flags := flags.(state := VerificationFailed);
        return false;
      }
      copy, span := Untouched(t.readback), Span(t.readback, t.readback);
      UntouchedOk(t.readback);
      flags := flags.(lastApplyVerified := true, state := Clean);
      return true;
    }

    /** Whether a rollback now would reach the kernel. */
    predicate RollsBack(o: Answers)
      reads this
    {
      target.Some? && rollback.snapshot.Some? && rollback.expected.Some? && flags.writeUnlocked &&
      o.range == Ok && o.enable == Ok
    }

    /**
     The rollback: at most one write, of the page before the apply over the page last observed whole, and
     never while an uncertain transaction is unobserved. A failed one can be retried from what it observed.
     */
    method RollbackBaseline(o: Answers, ghost m: Memory) returns (ok: bool)
      requires Valid()
      modifies this
      ensures Valid()
      ensures ledger.writes == old(ledger).writes +
              (if old(RollsBack(o)) then
                 [Write(old(rollback).expected.value, old(rollback).snapshot.value, m, o.transaction,
                        Some(old(ledger).applyAt))]
               else [])
      ensures old(flags).recoveryRequired ==> flags == old(flags) && ledger == old(ledger) && rollback == old(rollback)
      ensures !old(RollsBack(o)) && target.Some? ==> flags.recoveryRequired == old(flags).recoveryRequired
      ensures old(RollsBack(o)) ==> ledger.restored == ok && ledger.applyAt == old(ledger).applyAt
      ensures old(RollsBack(o)) ==> !flags.writeUnlocked && !old(flags).recoveryRequired
      ensures ok <==> && old(RollsBack(o)) && o.closed && o.transaction.Some?
                      && Verified(o.transaction.value, old(rollback).snapshot.value)
      ensures ok ==> copy == Untouched(old(rollback).snapshot.value) && rollback == Rollback(None, None)
      ensures ok ==> !flags.recoveryRequired && EndsRestored(ledger)
      ensures old(RollsBack(o)) && !ok ==>
                copy == old(copy) && flags.recoveryRequired == o.transaction.None? &&
                rollback == AfterRollback(old(rollback), o.transaction)
      ensures old(RollsBack(o)) && o.transaction.Some? ==>
                evidence == old(evidence).(rollback := Some(o.transaction.value.readback))
    {
      if target.None? || rollback.snapshot.None? || rollback.expected.None? || !flags.writeUnlocked { return false; }
      flags, ledger := flags.(writeUnlocked := false), ledger.(restored := false);
      conflicts, mismatches, evidence := [], [], evidence.(rollback := None);
      if o.range == Disconnected || (o.range == Ok && o.enable == Disconnected) {
        Invalidate();
        return false;
      }
      if o.range != Ok || o.enable != Ok {
        flags := flags.(state := Error);
        return false;
      }
      ok := WriteBack(o.transaction, o.closed, m);
    }

    /** The write itself, with the gate open. */
    method WriteBack(t: Option<Transaction>, closed: bool, ghost m: Memory) returns (ok: bool)
      requires Valid() && target.Some? && !flags.writeUnlocked && !flags.recoveryRequired
      requires |ledger.writes| < ledger.unlocks && !ledger.restored
      requires rollback.snapshot.Some? && rollback.expected.Some? && evidence.rollback.None?
      modifies this
      ensures Valid() && !flags.writeUnlocked && target == old(target)
      ensures ledger.writes == old(ledger).writes + [Write(old(rollback).expected.value, old(rollback).snapshot.value,
                                                           m, t, Some(old(ledger).applyAt))]
      ensures ledger.restored == ok && ledger.applyAt == old(ledger).applyAt && ledger.unlocks == old(ledger).unlocks
      ensures ok <==> closed && t.Some? && Verified(t.value, old(rollback).snapshot.value)
      ensures ok ==> copy == Untouched(old(rollback).snapshot.value) && rollback == Rollback(None, None)
      ensures ok ==> !flags.recoveryRequired && EndsRestored(ledger)
      ensures !ok ==> && copy == old(copy) && flags.recoveryRequired == t.None?
                      && rollback == AfterRollback(old(rollback), t)
      ensures t.Some? ==> evidence == old(evidence).(rollback := Some(t.value.readback))
    {
      ghost var w := Write(rollback.expected.value, rollback.snapshot.value, m, t, Some(ledger.applyAt));
      IssuedKeepsChain(ledger.writes, w);
      Issue(w);
      if t.None? {
        rollback := rollback.(expected := None);
        flags := flags.(recoveryRequired := true, state := VerificationFailed);
        return false;
      }
      ok := FinishRollback(t.value, closed);
    }

    method FinishRollback(t: Transaction, closed: bool) returns (ok: bool)
      requires Valid() && target.Some? && !flags.writeUnlocked && !flags.recoveryRequired
      requires rollback.snapshot.Some? && rollback.expected.Some? && evidence.rollback.None?
      requires var n := |ledger.writes| - 1;
               && ledger.applyAt < n && ledger.writes[n].desired == rollback.snapshot.value
               && ledger.writes[n].undoes == Some(ledger.applyAt) && ledger.writes[n].reply == Some(t)
      requires !ledger.restored
      modifies this
      ensures Valid() && ledger == old(ledger).(observed := ledger.observed, restored := ok) && target == old(target)
      ensures !flags.writeUnlocked && !flags.recoveryRequired
      ensures ok <==> closed && Verified(t, old(rollback).snapshot.value)
      ensures ok ==> copy == Untouched(old(rollback).snapshot.value) && rollback == Rollback(None, None)
      ensures !ok ==> copy == old(copy) && rollback == AfterRollback(old(rollback), Some(t))
      ensures evidence == old(evidence).(rollback := Some(t.readback))
    {
      ObservedKeeps(target, copy, rollback, evidence, flags, ledger, t.readback);
      ledger := ledger.(observed := ledger.observed + {t.readback});
      assert RolledBack(ledger);
      evidence := evidence.(rollback := Some(t.readback));
      var expected := rollback.expected.value;
      rollback := AfterRollback(rollback, Some(t));
      if !closed {
        flags := flags.(state := Error);
        return false;
      }
      if t.verdict == Conflicted {
        conflicts := Mismatches(t.readback, expected);
        flags := flags.(state := Conflict);
        return false;
      }
      mismatches := Mismatches(t.readback, rollback.snapshot.value);
      if t.verdict != Applied || t.transferred != PAGE_SIZE || mismatches != [] {
        flags := flags.(state := VerificationFailed);
        return false;
      }
      copy, span := Untouched(t.readback), Span(t.readback, t.readback);
      UntouchedOk(t.readback);
      ledger := ledger.(restored := true);
      rollback, mismatches := Rollback(None, None), [];
      flags := flags.(lastApplyVerified := false, state := Clean);
      return true;
    }

    /**
     Every session under an honest kernel, whatever others did to the page at any time. No write replaced a
     page the session had not observed whole. Every confirmed rollback, also after a lost reply, left the
     baseline of its apply, which is what memory held before the apply if and only if it held the baseline
     then. After a successful rollback, a caller who has a read-back of the apply knows that it did.
     */
    lemma RestoredMemory()
      requires Valid() && HonestKernel(ledger.writes)
      ensures forall w | w in ledger.writes && w.memory.after != w.memory.before :: w.memory.before in ledger.observed
      ensures forall k | 0 <= k < |ledger.writes| && ledger.writes[k].undoes.Some? && Confirmed(ledger.writes[k]) ::
                RollsBackApply(ledger.writes, k) && Restores(ledger.writes, k)
      ensures EndsRestored(ledger) && evidence.readback.Some? ==>
                ledger.writes[|ledger.writes| - 1].memory.after == ledger.writes[ledger.applyAt].memory.before
    {
      forall w | w in ledger.writes && w.memory.after != w.memory.before ensures w.memory.before in ledger.observed {
        var k :| 0 <= k < |ledger.writes| && ledger.writes[k] == w;
        assert HonestWrite(ledger.writes[k]);
      }
      forall k | 0 <= k < |ledger.writes| && ledger.writes[k].undoes.Some? && Confirmed(ledger.writes[k])
        ensures RollsBackApply(ledger.writes, k) && Restores(ledger.writes, k)
      {
        RollbackRestores(ledger.writes, k);
      }
    }

    /**
     Complete evidence: the apply it shows was issued and reported, a rollback of it was issued, and that
     rollback succeeded if and only if nothing is left to roll back. Then, under an honest kernel, memory is
     again what it was before the apply, the baseline of the evidence.
     */
    lemma CompleteEvidence()
      requires Valid() && Complete(evidence)
      ensures ledger.restored <==> rollback.snapshot.None?
      ensures ledger.applyAt < |ledger.writes| && RolledBack(ledger)
      ensures var a := ledger.writes[ledger.applyAt];
              a.expected == evidence.baseline.value && a.desired == evidence.expectedAfter.value && a.reply.Some?
      ensures rollback.snapshot.None? ==> EndsRestored(ledger)
      ensures rollback.snapshot.None? && HonestKernel(ledger.writes) ==>
                ledger.writes[|ledger.writes| - 1].memory.after == evidence.baseline.value ==
                ledger.writes[ledger.applyAt].memory.before
    {
      if rollback.snapshot.None? && HonestKernel(ledger.writes) { RestoredMemory(); }
    }

    /** Whether this call, made now, starts or ends the need to observe an uncertain transaction. */
    predicate StartsRecovery(c: Call)
      reads this
    {
      match c
      case Apply(o) => Applies(o) && o.transaction.None?
      case RollBack(o) => RollsBack(o) && o.transaction.None?
      case _ => false
    }

    predicate EndsRecovery(c: Call)
      reads this
    {
      match c
      case LoadPage(_, _, _, _) => true
      case Forget => true
      case Reload(range, read) => range == Disconnected || (range == Ok && !read.ReadFailed?)
      case Apply(o) => copy.baseline != copy.working && flags.writeUnlocked && !StartsRecovery(c)
      case _ => false
    }

    /**
     Any one call on the session. Recovery is pending afterwards exactly when the call started it, or it
     was pending and the call did not end it: pending recovery ends by observing the page, by a load, by
     losing the connection, or by an unlocked apply of an edited page that is not itself left uncertain.
     */
    method Perform(c: Call, ghost m: Memory) returns (ok: bool)
      requires Valid()
      modifies this
      ensures Valid()
      ensures flags.recoveryRequired <==>
              old(StartsRecovery(c)) || (old(flags).recoveryRequired && !old(EndsRecovery(c)))
      ensures |ledger.writes| <= |old(ledger).writes| + 1 && old(ledger).writes <= ledger.writes
      ensures |ledger.writes| > |old(ledger).writes| ==> old(flags).writeUnlocked && !flags.writeUnlocked
    {
      match c {
        case LoadPage(frame, consistent, range, read) => ok := Load(frame, consistent, range, read);
        case Forget => Invalidate(); ok := true;
        case UnlockApply(frame) => ok := UnlockForOneApply(frame);
        case UnlockRollback(frame) => ok := UnlockForRollback(frame);
        case Reload(range, read) => ok := ReloadPreservingRollback(range, read);
        case Apply(o) => ok := ApplyAndVerify(o, m);
        case RollBack(o) => ok := RollbackBaseline(o, m);
        case _ => ok := PerformEdit(c);
      }
    }

    /** Calls that only touch the local copy. */
    method PerformEdit(c: Call) returns (ok: bool)
      requires Valid() && (c.Edited? || c.Reverted? || c.TakeBack? || c.DoAgain? || c.RevertEdits?)
      modifies this`copy, this`span, this`flags, this`conflicts, this`mismatches
      ensures Valid() && flags.recoveryRequired == old(flags).recoveryRequired
    {
      match c {
        case Edited(offset, value, room) => ok := EditByte(offset, value, room);
        case Reverted(offset, room) => ok := RevertByte(offset, room);
        case TakeBack(room) => ok := Undo(room);
        case DoAgain(room) => ok := Redo(room);
        case RevertEdits => RevertAll(); ok := true;
      }
    }
  }

  // ---- concrete sessions

  /** A session with one edited byte, unlocked. */
  method EditedByte(frame: nat, page: Page, value: bv8) returns (s: PhysicalPageSession)
    requires page[0] != value
    ensures fresh(s) && s.Valid() && s.target == Some(frame) && s.flags.writeUnlocked
    ensures s.copy.baseline == page && s.copy.working == page[0 := value] != page
    ensures s.ledger.observed == {page} && s.ledger.writes == []
  {
    assert page[0 := value][0] != page[0];
    s := new PhysicalPageSession();
    var _ := s.Load(frame, true, Ok, Read(page));
    var _ := s.EditByte(0, value, true);
    var _ := s.UnlockForOneApply(frame);
  }

  /** A session after a verified apply of one edited byte. */
  method AppliedByte(frame: nat, page: Page, value: bv8) returns (s: PhysicalPageSession)
    requires page[0] != value
    ensures fresh(s) && s.Valid() && s.target == Some(frame) && s.copy == Untouched(page[0 := value])
    ensures s.rollback == Rollback(Some(page), Some(page[0 := value])) && !s.flags.recoveryRequired
    ensures s.evidence == Captured(Some(page), Some(page), Some(page[0 := value]), Some(page[0 := value]), None, None)
  {
    s := EditedByte(frame, page, value);
    var reply := Transaction(Applied, PAGE_SIZE, page[0 := value]);
    var _ := s.ApplyAndVerify(Answers(Ok, Ok, Some(reply), true), Memory(page, page[0 := value]));
  }

  /**
   Completeness alone does not say that the rollback succeeded: when somebody else has restored the page,
   the rollback is refused as a conflict, and the page it then reports completes the evidence all the same.
   */
  method RestoredByOthers(frame: nat, page: Page, value: bv8) returns (s: PhysicalPageSession, ok: bool)
    requires page[0] != value
    ensures fresh(s) && s.Valid() && !ok && Complete(s.evidence) && s.rollback.snapshot == Some(page)
  {
    s := AppliedByte(frame, page, value);
    NothingDirty();
    var reloaded := s.ReloadPreservingRollback(Ok, Read(page[0 := value]));
    assert reloaded;
    var _ := s.UnlockForRollback(frame);
    var refused := Transaction(Conflicted, 0, page);
    ok := s.RollbackBaseline(Answers(Ok, Ok, Some(refused), true), Memory(page, page));
  }

  /**
   The session itself does not insist on observing an uncertain transaction: another apply, even one that
   never reaches the kernel, forgets that recovery is pending. Only the panel, which offers no unlock
   then, keeps this from happening.
   */
  method RecoveryForgotten(frame: nat, page: Page, value: bv8) returns (s: PhysicalPageSession, pending: bool)
    requires page[0] != value
    ensures fresh(s) && s.Valid() && pending && !s.flags.recoveryRequired
    ensures s.ledger.observed == {page} && |s.ledger.writes| == 1
  {
    s := EditedByte(frame, page, value);
    var _ := s.ApplyAndVerify(Answers(Ok, Ok, None, true), Memory(page, page));
    pending := s.flags.recoveryRequired;
    var _ := s.UnlockForOneApply(frame);
    var _ := s.ApplyAndVerify(Answers(Failed, Ok, None, true), Memory(page, page));
  }

  /**
   A reply that is lost leaves the caller in the dark. The page observed afterwards is `other`, and rolling
   back to the baseline succeeds; but whether the kernel had refused the apply, because somebody had
   written `other` before it, or had written part of it, nothing the session holds can depend on. In the
   first case the rollback overwrites the others' page; only in the second does it restore memory.
   */
  method LostReply(frame: nat, page: Page, value: bv8, other: Page, ghost refused: bool)
    returns (s: PhysicalPageSession, ok: bool)
    requires page[0] != value && other != page
    ensures fresh(s) && s.Valid() && ok && HonestKernel(s.ledger.writes) && EndsRestored(s.ledger)
    ensures s.evidence.readback.None? && |s.ledger.writes| == 2 && s.ledger.applyAt == 0
    ensures s.ledger.writes[1].memory == Memory(other, page)
    ensures s.ledger.writes[0].memory == Memory(if refused then other else page, other)
    ensures s.ledger.writes[1].memory.after == s.ledger.writes[0].memory.before <==> !refused
  {
    s := LostApply(frame, page, value, other, refused);
    var _ := s.UnlockForRollback(frame);
    var done := Transaction(Applied, PAGE_SIZE, page);
    ok := s.RollbackBaseline(Answers(Ok, Ok, Some(done), true), Memory(other, page));
  }

  /** The apply whose reply is lost, and the observation after it. */
  method LostApply(frame: nat, page: Page, value: bv8, other: Page, ghost refused: bool)
    returns (s: PhysicalPageSession)
    requires page[0] != value && other != page
    ensures fresh(s) && s.Valid() && s.target == Some(frame) && s.rollback == Rollback(Some(page), Some(other))
    ensures s.evidence.readback.None? && s.ledger.applyAt == 0 && !s.flags.recoveryRequired
    ensures s.ledger.writes ==
            [Write(page, page[0 := value], Memory(if refused then other else page, other), None, None)]
  {
    s := EditedByte(frame, page, value);
    var _ := s.ApplyAndVerify(Answers(Ok, Ok, None, true), Memory(if refused then other else page, other));
    var observed := s.ReloadPreservingRollback(Ok, Read(other));
    assert observed;
  }

  lemma NothingDirty()
    ensures !Any(NoneDirty())
  {
  }
}
