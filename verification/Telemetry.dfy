/**
 One telemetry session. The object keeps counters, running totals and a bounded window of scan records;
 what they must be is said by a log of the calls it received. `Valid` ties the two together, every
 method keeps it, and the conservation laws are proved of every object that agrees with a log.
 */
module Telemetry {
  import opened Wrappers

  const WORD := 0x1_0000_0000_0000_0000

  function Max(a: nat, b: nat): nat { if a < b then b else a }

  function NonNegative(us: int): nat { if us <= 0 then 0 else us }

  // ---- records and totals

  datatype Totals = Totals(regionsRequested: nat, regionsCompleted: nat, requestedBytes: nat, completedBytes: nat,
                           ioRequests: nat, ioCompleted: nat, readFailures: nat, shortReads: nat)

  const ZERO := Totals(0, 0, 0, 0, 0, 0, 0, 0)

  function Plus(a: Totals, b: Totals): Totals {
    Totals(a.regionsRequested + b.regionsRequested, a.regionsCompleted + b.regionsCompleted,
           a.requestedBytes + b.requestedBytes, a.completedBytes + b.completedBytes,
           a.ioRequests + b.ioRequests, a.ioCompleted + b.ioCompleted,
           a.readFailures + b.readFailures, a.shortReads + b.shortReads)
  }

  /** Every total as 64 bits hold it. */
  function Wrapped(a: Totals): Totals {
    Totals(a.regionsRequested % WORD, a.regionsCompleted % WORD, a.requestedBytes % WORD, a.completedBytes % WORD,
           a.ioRequests % WORD, a.ioCompleted % WORD, a.readFailures % WORD, a.shortReads % WORD)
  }

  datatype Record = Record(id: nat, first: bool, startedUs: nat, finishedUs: nat, amounts: Totals,
                           cancellationRequested: bool, latencyUs: nat, partial: bool, succeeded: bool, cancelled: bool)

  /** Finished scans by the counter they went to. */
  datatype Counts = Counts(succeeded: nat, partial: nat, failed: nat, cancelled: nat)

  // ---- the calls, and the log they leave

  /** What the scanner reports at the end: last progress, read totals, and flags. */
  datatype Report = Report(regionsTotal: nat, regionsScanned: nat, amounts: Totals, partial: bool, readCancelled: bool,
                           succeeded: bool, cancelled: bool)

  datatype Call =
    | Frame(tick: nat) | FrameInterval(us: int)
    | Begin(first: bool, elapsed: int) | Progress(id: nat, total: nat, scanned: nat)
    | Cancel(id: nat, elapsed: int) | Finish(id: nat, report: Report, elapsed: int) | StopSession

  /** The scan in progress. */
  datatype Active = Active(id: nat, first: bool, startedUs: nat, regionsRequested: nat, regionsCompleted: nat,
                           cancelUs: Option<nat>)

  /** Everything that was reported: frames and their intervals, scans begun, overtaken and finished. */
  datatype Log = Log(limit: nat, threshold: nat, enabled: bool,
                     lastTick: Option<nat>, frames: nat, intervals: seq<nat>,
                     begun: nat, active: Option<Active>, finished: seq<Record>, superseded: nat)

  function Started(limit: nat, threshold: nat): Log { Log(limit, threshold, true, None, 0, [], 0, None, [], 0) }

  function RecordOf(a: Active, r: Report, elapsed: int): Record {
    var end := Max(NonNegative(elapsed), a.startedUs);
    var amounts := r.amounts.(regionsRequested := Max(a.regionsRequested, r.regionsTotal),
                              regionsCompleted := Max(a.regionsCompleted, r.regionsScanned));
    Record(a.id, a.first, a.startedUs, end, amounts, a.cancelUs.Some?,
           if a.cancelUs.Some? && end >= a.cancelUs.value then end - a.cancelUs.value else 0,
           r.partial, r.succeeded, r.cancelled || r.readCancelled)
  }

  predicate IsActive(l: Log, id: nat) { l.active.Some? && l.active.value.id == id }

  function Noted(l: Log, c: Call): Log {
    match c
    case Frame(tick) =>
      if !l.enabled then l
      else
        var follows := l.lastTick.Some? && tick >= l.lastTick.value;
        l.(frames := l.frames + 1, lastTick := Some(tick),
           intervals := if follows then l.intervals + [tick - l.lastTick.value] else l.intervals)
    case FrameInterval(us) =>
      if !l.enabled then l else l.(frames := l.frames + 1, intervals := l.intervals + [NonNegative(us)])
    case Begin(first, elapsed) =>
      if !l.enabled then l
      else l.(begun := l.begun + 1, active := Some(Active(l.begun + 1, first, NonNegative(elapsed), 0, 0, None)),
              superseded := if l.active.Some? then l.superseded + 1 else l.superseded)
    case Progress(id, total, scanned) =>
      if !IsActive(l, id) then l
      else l.(active := Some(l.active.value.(regionsRequested := total, regionsCompleted := scanned)))
    case Cancel(id, elapsed) =>
      if !IsActive(l, id) || l.active.value.cancelUs.Some? then l
      else l.(active := Some(l.active.value.(cancelUs := Some(NonNegative(elapsed)))))
    case Finish(id, report, elapsed) =>
      if !IsActive(l, id) then l
      else l.(active := None, finished := l.finished + [RecordOf(l.active.value, report, elapsed)])
    case StopSession => l.(enabled := false)
  }

  function Replay(l: Log, cs: seq<Call>): Log
    decreases |cs|
  {
    if cs == [] then l else Replay(Noted(l, cs[0]), cs[1..])
  }

  // ---- what a log says the counters must be

  function SumOf(rs: seq<Record>): Totals {
    if rs == [] then ZERO else Plus(SumOf(rs[..|rs| - 1]), rs[|rs| - 1].amounts)
  }

  function CountsOf(rs: seq<Record>): Counts {
    if rs == [] then Counts(0, 0, 0, 0)
    else
      var c, r := CountsOf(rs[..|rs| - 1]), rs[|rs| - 1];
      if r.cancelled then c.(cancelled := c.cancelled + 1)
      else if !r.succeeded then c.(failed := c.failed + 1)
      else if r.partial then c.(partial := c.partial + 1)
      else c.(succeeded := c.succeeded + 1)
  }

  function LatencyOf(rs: seq<Record>): nat {
    if rs == [] then 0
    else
      var before, r := LatencyOf(rs[..|rs| - 1]), rs[|rs| - 1];
      if r.cancellationRequested then Max(before, r.latencyUs) else before
  }

  function MaxOf(us: seq<nat>): nat {
    if us == [] then 0 else Max(MaxOf(us[..|us| - 1]), us[|us| - 1])
  }

  function StallsOf(us: seq<nat>, threshold: nat): nat {
    if us == [] then 0
    else StallsOf(us[..|us| - 1], threshold) + (if us[|us| - 1] >= threshold then 1 else 0)
  }

  datatype Frames = Frames(lastTick: Option<nat>, observed: nat, intervals: nat, stalls: nat, maxIntervalUs: nat)

  /** The scan counters; `activeId` 0 stands for no active scan. */
  datatype Scans = Scans(nextId: nat, activeId: nat, active: Active, started: nat,
                         counts: Counts, totals: Totals, maxLatencyUs: nat)

  datatype Window = Window(evicted: nat, records: seq<Record>)

  ghost predicate FramesAgree(f: Frames, l: Log) {
    && f.lastTick == l.lastTick && f.observed == l.frames && f.intervals == |l.intervals|
    && f.maxIntervalUs == MaxOf(l.intervals) && f.stalls == StallsOf(l.intervals, l.threshold)
  }

  ghost predicate TalliesAgree(counts: Counts, totals: Totals, maxLatencyUs: nat, rs: seq<Record>) {
    counts == CountsOf(rs) && totals == Wrapped(SumOf(rs)) && maxLatencyUs == LatencyOf(rs)
  }

  ghost predicate ScansAgree(c: Scans, l: Log) {
    && c.started == l.begun && c.nextId == l.begun + 1
    && c.activeId == (if l.active.Some? then l.active.value.id else 0)
    && (l.active.Some? ==> c.active == l.active.value)
    && TalliesAgree(c.counts, c.totals, c.maxLatencyUs, l.finished)
  }

  /** The window holds the newest finished scans, as many as it may. */
  ghost predicate WindowAgrees(w: Window, limit: nat, rs: seq<Record>) {
    && |w.records| == (if |rs| < limit then |rs| else limit)
    && w.evicted + |w.records| == |rs| && w.records == rs[w.evicted..]
  }

  // ---- what every log satisfies

  ghost predicate IdsIncrease(rs: seq<Record>) {
    forall j, k | 0 <= j < k < |rs| :: rs[j].id < rs[k].id
  }

  ghost predicate IdsUpTo(rs: seq<Record>, n: nat) {
    forall k | 0 <= k < |rs| :: 0 < rs[k].id <= n
  }

  /** Each begun scan is finished, overtaken or active, and ids number the begun ones. */
  ghost predicate WellKept(l: Log) {
    && l.limit > 0 && l.begun == |l.finished| + l.superseded + (if l.active.Some? then 1 else 0)
    && (l.active.Some? ==> l.active.value.id == l.begun)
    && IdsIncrease(l.finished) && IdsUpTo(l.finished, if l.active.Some? then l.begun - 1 else l.begun)
    && |l.intervals| <= l.frames
  }

  lemma NotedKeeps(l: Log, c: Call)
    requires WellKept(l)
    ensures WellKept(Noted(l, c)) && Noted(l, c).limit == l.limit
  {
  }

  lemma {:induction false} ReplayKeeps(l: Log, cs: seq<Call>)
    requires WellKept(l)
    ensures WellKept(Replay(l, cs)) && Replay(l, cs).limit == l.limit
    decreases |cs|
  {
    if cs != [] {
      NotedKeeps(l, cs[0]);
      ReplayKeeps(Noted(l, cs[0]), cs[1..]);
    }
  }

  lemma {:induction false} CountsAddUp(rs: seq<Record>)
    ensures var c := CountsOf(rs); c.succeeded + c.partial + c.failed + c.cancelled == |rs|
  {
    if rs != [] { CountsAddUp(rs[..|rs| - 1]); }
  }

  lemma {:induction false} StallsBounded(us: seq<nat>, threshold: nat)
    ensures StallsOf(us, threshold) <= |us|
  {
    if us != [] { StallsBounded(us[..|us| - 1], threshold); }
  }

  // ---- one more record, one more interval

  lemma ModPlus(a: nat, b: nat)
    ensures (a % WORD + b) % WORD == (a + b) % WORD
  {
  }

  lemma WrapPlus(a: Totals, b: Totals)
    ensures Wrapped(Plus(Wrapped(a), b)) == Wrapped(Plus(a, b))
  {
    ModPlus(a.regionsRequested, b.regionsRequested);
    ModPlus(a.regionsCompleted, b.regionsCompleted);
    ModPlus(a.requestedBytes, b.requestedBytes);
    ModPlus(a.completedBytes, b.completedBytes);
    ModPlus(a.ioRequests, b.ioRequests);
    ModPlus(a.ioCompleted, b.ioCompleted);
    ModPlus(a.readFailures, b.readFailures);
    ModPlus(a.shortReads, b.shortReads);
  }

  lemma OneMore(rs: seq<Record>, r: Record)
    ensures (rs + [r])[..|rs + [r]| - 1] == rs && (rs + [r])[|rs|] == r
  {
  }

  lemma OneMoreInterval(us: seq<nat>, u: nat, threshold: nat)
    ensures MaxOf(us + [u]) == Max(MaxOf(us), u)
    ensures StallsOf(us + [u], threshold) == StallsOf(us, threshold) + (if u >= threshold then 1 else 0)
  {
    var more := us + [u];
    assert more[..|more| - 1] == us && more[|us|] == u;
  }

  /** The frame counters after one more interval. */
  function IntervalCounted(f: Frames, us: nat, threshold: nat): Frames {
    Frames(f.lastTick, f.observed + 1, f.intervals + 1, if us >= threshold then f.stalls + 1 else f.stalls,
           Max(f.maxIntervalUs, us))
  }

  lemma IntervalAgrees(f: Frames, l: Log, us: int)
    requires FramesAgree(f, l) && l.enabled
    ensures FramesAgree(IntervalCounted(f, NonNegative(us), l.threshold), Noted(l, FrameInterval(us)))
  {
    OneMoreInterval(l.intervals, NonNegative(us), l.threshold);
  }

  /** Calls about frames leave scans and window as they are. */
  lemma ScansUntouched(c: Scans, l: Log, l': Log)
    requires ScansAgree(c, l) && l' == l.(frames := l'.frames, intervals := l'.intervals, lastTick := l'.lastTick)
    ensures ScansAgree(c, l')
  {
  }

  // ---- the object

  class PerformanceTelemetry {
    var enabled: bool
    var maxRecords: nat
    var stallThreshold: nat
    var frames: Frames
    var scans: Scans
    var window: Window
    ghost var log: Log

    /** The counters are what the log of the calls says. */
    ghost predicate Valid()
      reads this
    {
      && WellKept(log) && enabled == log.enabled && maxRecords == log.limit && stallThreshold == log.threshold
      && FramesAgree(frames, log) && ScansAgree(scans, log) && WindowAgrees(window, maxRecords, log.finished)
    }

    /**
     Conservation, for every object after every history of calls: each scan begun is in exactly one counter,
     overtaken or active; ids increase, so that every evicted scan is older than every retained one, and the
     active one is newer than all; once anything is evicted the window is full; and stalls are intervals,
     intervals frames.
     */
    lemma SessionConserves()
      requires Valid()
      ensures scans.started == scans.counts.succeeded + scans.counts.partial + scans.counts.failed +
                               scans.counts.cancelled + log.superseded + (if scans.activeId != 0 then 1 else 0)
      ensures IdsIncrease(window.records)
      ensures forall j, k | 0 <= j < window.evicted && 0 <= k < |window.records| ::
                log.finished[j].id < window.records[k].id
      ensures forall k | 0 <= k < |window.records| ::
                (scans.activeId != 0 ==> window.records[k].id < scans.activeId) && window.records[k].id < scans.nextId
      ensures |window.records| <= maxRecords && (window.evicted > 0 ==> |window.records| == maxRecords)
      ensures frames.stalls <= frames.intervals <= frames.observed
    {
      CountsAddUp(log.finished);
      StallsBounded(log.intervals, log.threshold);
    }

    /** A successful start: limits fixed, counters reset. */
    constructor (limit: nat, threshold: nat)
      requires 0 < limit && 0 < threshold
      ensures Valid() && log == Started(if limit < 256 then limit else 256, threshold)
    {
      enabled := true;
      maxRecords := if limit < 256 then limit else 256;
      stallThreshold := threshold;
      frames := Frames(None, 0, 0, 0, 0);
      scans := Scans(1, 0, Active(0, false, 0, 0, 0, None), 0, Counts(0, 0, 0, 0), ZERO, 0);
      window := Window(0, []);
      log := Started(if limit < 256 then limit else 256, threshold);
    }

    method RecordFrameInterval(us: int)
      requires Valid()
      modifies this`frames, this`log
      ensures Valid() && log == Noted(old(log), FrameInterval(us))
    {
      if !enabled { return; }
      var interval := NonNegative(us);
      IntervalAgrees(frames, log, us);
      ScansUntouched(scans, log, Noted(log, FrameInterval(us)));
      frames := frames.(observed := frames.observed + 1, intervals := frames.intervals + 1);
      if frames.maxIntervalUs < interval { frames := frames.(maxIntervalUs := interval); }
      if interval >= stallThreshold { frames := frames.(stalls := frames.stalls + 1); }
      log := Noted(log, FrameInterval(us));
    }

    method RecordFrame(tick: nat)
      requires Valid()
      modifies this`frames, this`log
      ensures Valid() && log == Noted(old(log), Frame(tick))
    {
      if !enabled { return; }
      var previous := frames.lastTick;
      frames := frames.(observed := frames.observed + 1, lastTick := Some(tick));
      ScansUntouched(scans, log, log.(frames := log.frames + 1, lastTick := Some(tick)));
      log := log.(frames := log.frames + 1, lastTick := Some(tick));
      if previous.Some? && tick >= previous.value { RecordFollowingFrame(tick - previous.value); }
    }

    /** The interval before a frame that is already counted: counting the interval counts it again. */
    method RecordFollowingFrame(us: nat)
      requires Valid() && enabled && |log.intervals| < log.frames
      modifies this`frames, this`log
      ensures Valid() && log == old(log).(intervals := old(log).intervals + [us])
    {
      RecordFrameInterval(us);
      frames := frames.(observed := frames.observed - 1);
      ScansUntouched(scans, log, log.(frames := log.frames - 1));
      log := log.(frames := log.frames - 1);
    }

    method BeginProcessScanAt(first: bool, elapsed: int) returns (id: nat)
      requires Valid()
      modifies this`scans, this`log
      ensures Valid() && log == Noted(old(log), Begin(first, elapsed))
      ensures id == (if enabled then log.begun else 0) && (enabled ==> IsActive(log, id) && !IsActive(old(log), id))
    {
      NotedKeeps(log, Begin(first, elapsed));
      if !enabled { return 0; }
      id := scans.nextId;
      scans := scans.(nextId := id + 1, active := Active(id, first, NonNegative(elapsed), 0, 0, None));
      scans := scans.(activeId := id, started := scans.started + 1);
      log := Noted(log, Begin(first, elapsed));
    }

    method RecordProcessScanProgress(id: nat, total: nat, scanned: nat)
      requires Valid()
      modifies this`scans, this`log
      ensures Valid() && log == Noted(old(log), Progress(id, total, scanned))
    {
      NotedKeeps(log, Progress(id, total, scanned));
      if id == 0 || scans.activeId != id { return; }
      scans := scans.(active := scans.active.(regionsRequested := total, regionsCompleted := scanned));
      log := Noted(log, Progress(id, total, scanned));
    }

    method RequestProcessScanCancellationAt(id: nat, elapsed: int)
      requires Valid()
      modifies this`scans, this`log
      ensures Valid() && log == Noted(old(log), Cancel(id, elapsed))
    {
      NotedKeeps(log, Cancel(id, elapsed));
      if id == 0 || scans.activeId != id { return; }
      if scans.active.cancelUs.None? {
        scans := scans.(active := scans.active.(cancelUs := Some(NonNegative(elapsed))));
      }
      log := Noted(log, Cancel(id, elapsed));
    }

    /** The tallies of the scans `rs` become those of one more. */
    method Tally(record: Record, ghost rs: seq<Record>)
      requires TalliesAgree(scans.counts, scans.totals, scans.maxLatencyUs, rs)
      modifies this`scans
      ensures TalliesAgree(scans.counts, scans.totals, scans.maxLatencyUs, rs + [record])
      ensures scans == old(scans).(counts := scans.counts, totals := scans.totals, maxLatencyUs := scans.maxLatencyUs)
    {
      OneMore(rs, record);
      WrapPlus(SumOf(rs), record.amounts);
      if record.cancellationRequested && scans.maxLatencyUs < record.latencyUs {
        scans := scans.(maxLatencyUs := record.latencyUs);
      }
      var c := scans.counts;
      if record.cancelled {
        c := c.(cancelled := c.cancelled + 1);
      } else if !record.succeeded {
        c := c.(failed := c.failed + 1);
      } else if record.partial {
        c := c.(partial := c.partial + 1);
      } else {
        c := c.(succeeded := c.succeeded + 1);
      }
      scans := scans.(counts := c, totals := Wrapped(Plus(scans.totals, record.amounts)));
    }

    /** The window over the scans `rs` becomes the one over one more. */
    method Retain(record: Record, ghost rs: seq<Record>)
      requires maxRecords > 0 && WindowAgrees(window, maxRecords, rs)
      modifies this`window
      ensures WindowAgrees(window, maxRecords, rs + [record])
    {
      if |window.records| == maxRecords {
        window := Window(window.evicted + 1, window.records[1..]);
      }
      window := window.(records := window.records + [record]);
    }

    method FinishProcessScanAt(id: nat, report: Report, elapsed: int)
      requires Valid()
      modifies this`scans, this`window, this`log
      ensures Valid() && log == Noted(old(log), Finish(id, report, elapsed))
    {
      if id == 0 || scans.activeId != id { return; }
      NotedKeeps(log, Finish(id, report, elapsed));
      var record := RecordOf(scans.active, report, elapsed);
      Tally(record, log.finished);
      Retain(record, log.finished);
      scans := scans.(activeId := 0);
      log := Noted(log, Finish(id, report, elapsed));
    }

    method Stop()
      requires Valid()
      modifies this`enabled, this`log
      ensures Valid() && log == Noted(old(log), StopSession)
    {
      enabled := false;
      log := Noted(log, StopSession);
    }
  }
}
