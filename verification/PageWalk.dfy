/**
 The page-table section of an analysis record: a recorded 4- or 5-level x64 walk, the validator that
 accepts it, and the hardware walk (section 4.5 of the Intel SDM, volume 3A) it must describe.
 Masks and shifts of nonnegative numbers are written as division and remainder.
 */
module PageWalk {
  import opened Wrappers
  import opened Bytes

  datatype Level = PML5 | PML4 | PDPT | PD | PT

  const FRAMES := 0x100_0000_0000        // page-frame numbers have 40 bits
  const TOP_ENTRY := 0x000F_FFFF_FFFF_FFF8
  const WORDS := 0x1_0000_0000_0000_0000

  function Levels(la57: bool): seq<Level> {
    if la57 then [PML5, PML4, PDPT, PD, PT] else [PML4, PDPT, PD, PT]
  }

  /** `1 << shift` for the index field of a level. */
  function Unit(l: Level): (r: nat)
    ensures r > 0
  {
    match l
    case PML5 => 0x1_0000_0000_0000
    case PML4 => 0x80_0000_0000
    case PDPT => 0x4000_0000
    case PD => 0x20_0000
    case PT => 0x1000
  }

  function Index(va: int, l: Level): (r: nat)
    ensures r < 512
  {
    va / Unit(l) % 512
  }

  function Present(e: int): bool { e % 2 == 1 }
  function Writable(e: int): bool { e / 2 % 2 == 1 }
  function User(e: int): bool { e / 4 % 2 == 1 }
  function PageSize(e: int): bool { e / 0x80 % 2 == 1 }
  function NoExecute(e: int): bool { e / 0x8000_0000_0000_0000 % 2 == 1 }

  /** The frame number in bits 12 to 51 of an entry. */
  function Frame(e: int): (r: nat)
    ensures r < FRAMES
  {
    e / 4096 % FRAMES
  }

  // ---- the hardware walk

  datatype Rights = Rights(writable: bool, user: bool, noExecute: bool)

  datatype Outcome =
    | Fault
    | LargePage
    | Mapped(frame: nat, rights: Rights, leafAddress: nat)

  function Narrowed(seen: Rights, e: int): Rights {
    Rights(seen.writable && Writable(e), seen.user && User(e), seen.noExecute || NoExecute(e))
  }

  /** The processor's walk through `levels` from the table at `table`. */
  function HardwareWalk(mem: int -> int, table: nat, va: int, levels: seq<Level>, seen: Rights): Outcome
    decreases |levels|
  {
    if levels == [] then Fault
    else
      var address := table + Index(va, levels[0]) * 8;
      var e := mem(address);
      var rights := Narrowed(seen, e);
      if !Present(e) then Fault
      else if levels[0] == PT then Mapped(Frame(e), rights, address)
      else if PageSize(e) then (if levels[0] == PD || levels[0] == PDPT then LargePage else Fault)
      else HardwareWalk(mem, Frame(e) * 4096, va, levels[1..], rights)
  }

  const ALL_RIGHTS := Rights(true, true, false)

  // ---- the record

  datatype Step = Step(
    level: Option<Level>, index: Option<int>,
    entryAddress: Option<int>, entryValue: Option<int>, nextFrame: Option<int>,
    present: Option<bool>, writable: Option<bool>, user: Option<bool>,
    pageSize: Option<bool>, noExecute: Option<bool>)

  datatype Ownership = Ownership(
    pid: Option<int>, va: Option<int>, pa: Option<int>, frame: Option<int>,
    pteAddress: Option<int>, pteValue: Option<int>, pageSize: Option<int>,
    shared: Option<bool>, writable: Option<bool>, userAccessible: Option<bool>, noExecute: Option<bool>,
    origin: Origin)

  /** Where the ownership record says it comes from. */
  datatype Origin = Origin(
    mappingType: Option<string>, provider: Option<string>, source: Option<string>, confidence: Option<string>,
    queryGeneration: Option<int>)

  const PAGE_TABLE_SCAN := "selected-process-page-table-scan"

  datatype Walk = Walk(
    pid: Option<int>, directoryBase: Option<int>, va: Option<int>, pa: Option<int>, frame: Option<int>,
    translated: Option<bool>, pageSize: Option<int>, pageOffset: Option<int>, la57: Option<bool>,
    effectiveWritable: Option<bool>, effectiveUser: Option<bool>, effectiveNx: Option<bool>,
    steps: seq<Step>)

  // ---- one step

  /** Addresses and indices: in range, and in the right slot of the table when that is known. */
  ghost predicate PlaceOk(s: Step, va: int, table: Option<int>) {
    && s.level.Some? && s.entryAddress.Some?
    && s.index == Some(Index(va, s.level.value))
    && 0 < s.entryAddress.value <= TOP_ENTRY && s.entryAddress.value % 8 == 0
    && (table.Some? ==> s.entryAddress.value == table.value + Index(va, s.level.value) * 8)
  }

  /** The decoded fields agree with the entry value, which maps a table or a 4 KiB page. */
  ghost predicate EntryOk(s: Step) {
    && s.entryValue.Some? && s.nextFrame.Some?
    && 0 < s.entryValue.value < WORDS
    && var e := s.entryValue.value;
    && s.nextFrame.value == Frame(e) && 0 < Frame(e)
    && s.present == Some(true) && Present(e)
    && s.writable == Some(Writable(e)) && s.user == Some(User(e)) && s.noExecute == Some(NoExecute(e))
    && s.pageSize == Some(false) && !PageSize(e)
  }

  ghost predicate StepOk(s: Step, va: int, table: Option<int>) {
    PlaceOk(s, va, table) && EntryOk(s)
  }

  method CheckPlace(s: Step, va: int, table: Option<int>) returns (errors: nat)
    requires s.level.Some?
    ensures errors == 0 <==> PlaceOk(s, va, table)
  {
    errors := Missing(s.entryAddress);
    var expectedIndex := Index(va, s.level.value);
    if s.index != Some(expectedIndex) { errors := errors + 1; }
    if s.entryAddress.Some? && s.entryAddress.value <= 0 { errors := errors + 1; }
    if s.entryAddress.Some? && s.entryAddress.value > TOP_ENTRY { errors := errors + 1; }
    if s.entryAddress.Some? && s.entryAddress.value % 8 != 0 { errors := errors + 1; }
    if table.Some? && s.entryAddress != Some(table.value + expectedIndex * 8) { errors := errors + 1; }
  }

  method CheckEntry(s: Step) returns (errors: nat)
    ensures errors == 0 <==> EntryOk(s)
  {
    errors := Missing(s.entryValue) + Missing(s.nextFrame);
    if s.entryValue.Some? && s.entryValue.value <= 0 { errors := errors + 1; }
    if s.nextFrame.Some? && s.nextFrame.value <= 0 { errors := errors + 1; }
    if s.entryValue.Some? && s.entryValue.value > WORDS - 1 { errors := errors + 1; }
    if s.nextFrame.Some? && s.nextFrame.value > FRAMES - 1 { errors := errors + 1; }
    errors := errors + NotBool(s.present) + NotBool(s.writable) + NotBool(s.user) +
              NotBool(s.pageSize) + NotBool(s.noExecute);
    if s.present != Some(true) { errors := errors + 1; }
    if s.entryValue.Some? {
      var e := s.entryValue.value;
      if s.present != Some(Present(e)) { errors := errors + 1; }
      if s.writable != Some(Writable(e)) { errors := errors + 1; }
      if s.user != Some(User(e)) { errors := errors + 1; }
      if s.pageSize != Some(PageSize(e)) { errors := errors + 1; }
      if s.noExecute != Some(NoExecute(e)) { errors := errors + 1; }
      if s.nextFrame != Some(Frame(e)) { errors := errors + 1; }
    }
    if s.pageSize != Some(false) { errors := errors + 1; }
  }

  function Missing(x: Option<int>): nat { if x.None? then 1 else 0 }
  function NotBool(x: Option<bool>): nat { if x.None? then 1 else 0 }

  // ---- the whole record

  /** The table a step's entry lies in: the directory base, or the frame the step before points to. */
  function TableOf(steps: seq<Step>, k: nat, base: Option<int>): Option<int>
    requires k < |steps|
  {
    if k == 0 then (if base.Some? then Some(base.value / 4096 % FRAMES * 4096) else None)
    else if steps[k - 1].nextFrame.Some? then Some(steps[k - 1].nextFrame.value * 4096) else None
  }

  predicate LevelsMatch(steps: seq<Step>, levels: seq<Level>) {
    |steps| == |levels| && forall k | 0 <= k < |steps| :: steps[k].level == Some(levels[k])
  }

  ghost predicate StepAtOk(steps: seq<Step>, k: nat, va: int, base: Option<int>)
    requires k < |steps|
  {
    StepOk(steps[k], va, TableOf(steps, k, base))
  }

  ghost predicate StepsOk(steps: seq<Step>, n: nat, va: int, base: Option<int>)
    requires n <= |steps|
  {
    forall k | 0 <= k < n :: StepAtOk(steps, k, va, base)
  }

  ghost predicate OriginOk(g: Origin) {
    && g.mappingType == Some("4 KiB page") && g.provider == Some(PAGE_TABLE_SCAN) && g.source == Some(PAGE_TABLE_SCAN)
    && g.confidence == Some("high") && g.queryGeneration.Some? && g.queryGeneration.value > 0
  }

  ghost predicate OwnershipOk(o: Ownership, pid: Option<int>, va: Option<int>, probeFrame: Option<int>) {
    && o.pid.Some? && o.va.Some? && o.pa.Some? && o.frame.Some? && o.pteAddress.Some? && o.pteValue.Some?
    && o.pid == pid && o.va == va
    && 0 < o.va.value < 0x8000_0000_0000 && o.va.value % 4096 == 0
    && 0 < o.frame.value < FRAMES && o.frame != probeFrame && o.pa.value == o.frame.value * 4096
    && 0 < o.pteAddress.value <= TOP_ENTRY && o.pteAddress.value % 8 == 0
    && o.pageSize == Some(4096)
    && o.noExecute.Some? && o.writable == Some(true) && o.userAccessible == Some(true)
    && o.shared == Some(false) && OriginOk(o.origin)
  }

  ghost predicate HeaderOk(o: Ownership, w: Walk) {
    && w.pid.Some? && w.directoryBase.Some? && w.va.Some? && w.pa.Some? && w.frame.Some?
    && 0 < w.directoryBase.value < FRAMES * 4096 && w.directoryBase.value % 4096 == 0
    && w.pid == o.pid && w.va == o.va && w.pa == o.pa && w.frame == o.frame
    && w.translated == Some(true) && w.pageSize == Some(4096) && w.pageOffset == Some(0)
    && w.la57.Some?
    && w.effectiveWritable == Some(true) && w.effectiveUser == Some(true) && w.effectiveNx.Some?
  }

  predicate AllWritable(steps: seq<Step>) { forall k | 0 <= k < |steps| :: steps[k].writable == Some(true) }
  predicate AllUser(steps: seq<Step>) { forall k | 0 <= k < |steps| :: steps[k].user == Some(true) }
  predicate AnyNx(steps: seq<Step>) { exists k | 0 <= k < |steps| :: steps[k].noExecute == Some(true) }

  ghost predicate LeafOk(o: Ownership, w: Walk)
    requires w.steps != []
  {
    var leaf := w.steps[|w.steps| - 1];
    var rights := (Some(AllWritable(w.steps)), Some(AllUser(w.steps)), Some(AnyNx(w.steps)));
    && leaf.entryAddress == o.pteAddress && leaf.entryValue == o.pteValue && leaf.nextFrame == o.frame
    && (w.effectiveWritable, w.effectiveUser, w.effectiveNx) == rights
    && (o.writable, o.userAccessible, o.noExecute) == rights
  }

  /** The page-table section adds no error to this record. */
  ghost predicate RecordOk(o: Ownership, w: Walk, pid: Option<int>, va: Option<int>, probeFrame: Option<int>) {
    && OwnershipOk(o, pid, va, probeFrame) && HeaderOk(o, w)
    && LevelsMatch(w.steps, Levels(w.la57.value))
    && StepsOk(w.steps, |w.steps|, o.va.value, w.directoryBase)
    && LeafOk(o, w)
  }

  method CheckOwnership(o: Ownership, pid: Option<int>, va: Option<int>, probeFrame: Option<int>)
    returns (errors: nat)
    ensures errors == 0 <==> OwnershipOk(o, pid, va, probeFrame)
  {
    errors := Missing(o.pid) + Missing(o.va) + Missing(o.pa) + Missing(o.frame) +
              Missing(o.pteAddress) + Missing(o.pteValue);
    if o.pid != pid { errors := errors + 1; }
    if o.va != va { errors := errors + 1; }
    if o.va.Some? && !(0 < o.va.value < 0x8000_0000_0000) { errors := errors + 1; }
    if o.va.Some? && o.va.value % 4096 != 0 { errors := errors + 1; }
    if o.frame.Some? && (o.frame.value <= 0 || o.frame.value > FRAMES - 1) { errors := errors + 1; }
    if o.frame.Some? && o.frame == probeFrame { errors := errors + 1; }
    if o.frame.Some? && o.pa != Some(o.frame.value * 4096) { errors := errors + 1; }
    if o.pteAddress.Some? &&
       (o.pteAddress.value <= 0 || o.pteAddress.value > TOP_ENTRY || o.pteAddress.value % 8 != 0) {
      errors := errors + 1;
    }
    if o.pageSize != Some(4096) { errors := errors + 1; }
    errors := errors + NotBool(o.shared) + NotBool(o.writable) + NotBool(o.userAccessible) +
              NotBool(o.noExecute);
    if o.writable != Some(true) || o.userAccessible != Some(true) { errors := errors + 1; }
    if o.shared != Some(false) { errors := errors + 1; }
    var origin := CheckOrigin(o.origin);
    errors := errors + origin;
  }

  method CheckOrigin(g: Origin) returns (errors: nat)
    ensures errors == 0 <==> OriginOk(g)
  {
    errors := 0;
    if g.mappingType != Some("4 KiB page") { errors := errors + 1; }
    if g.provider != Some(PAGE_TABLE_SCAN) { errors := errors + 1; }
    if g.source != Some(PAGE_TABLE_SCAN) { errors := errors + 1; }
    if g.confidence != Some("high") { errors := errors + 1; }
    if g.queryGeneration.None? || g.queryGeneration.value <= 0 { errors := errors + 1; }
  }

  method CheckHeader(o: Ownership, w: Walk) returns (errors: nat)
    ensures o.pid.Some? && o.va.Some? && o.pa.Some? && o.frame.Some? ==>
              (errors == 0 <==> HeaderOk(o, w))
  {
    errors := Missing(w.pid) + Missing(w.directoryBase) + Missing(w.va) + Missing(w.pa) + Missing(w.frame);
    if w.directoryBase.Some? &&
       (w.directoryBase.value <= 0 || w.directoryBase.value % 4096 != 0 ||
        w.directoryBase.value >= FRAMES * 4096) {
      errors := errors + 1;
    }
    if (w.pid, w.va, w.pa, w.frame) != (o.pid, o.va, o.pa, o.frame) { errors := errors + 1; }
    if w.translated != Some(true) || w.pageSize != Some(4096) { errors := errors + 1; }
    if w.pageOffset != Some(0) { errors := errors + 1; }
    errors := errors + NotBool(w.la57) + NotBool(w.effectiveWritable) + NotBool(w.effectiveUser) +
              NotBool(w.effectiveNx);
    if w.effectiveWritable != Some(true) || w.effectiveUser != Some(true) { errors := errors + 1; }
  }

  method CheckLeaf(o: Ownership, w: Walk) returns (errors: nat)
    requires w.steps != []
    ensures errors == 0 <==> LeafOk(o, w)
  {
    errors := 0;
    var leaf := w.steps[|w.steps| - 1];
    if leaf.entryAddress != o.pteAddress { errors := errors + 1; }
    if leaf.entryValue != o.pteValue { errors := errors + 1; }
    if leaf.nextFrame != o.frame { errors := errors + 1; }
    var rights := (Some(AllWritable(w.steps)), Some(AllUser(w.steps)), Some(AnyNx(w.steps)));
    if (w.effectiveWritable, w.effectiveUser, w.effectiveNx) != rights { errors := errors + 1; }
    if (o.writable, o.userAccessible, o.noExecute) != rights { errors := errors + 1; }
  }

  /** The page-table section of the validator: the number of errors it adds. */
  method CheckPageTable(o: Ownership, w: Walk, pid: Option<int>, va: Option<int>, probeFrame: Option<int>)
    returns (errors: nat)
    ensures errors == 0 <==> RecordOk(o, w, pid, va, probeFrame)
  {
    errors := CheckOwnership(o, pid, va, probeFrame);
    var header := CheckHeader(o, w);
    errors := errors + header;
    if !LevelsMatch(w.steps, Levels(w.la57 == Some(true))) {
      return errors + 1;
    }
    var ownerVa := if o.va.Some? then o.va.value else 0;
    ghost var before := errors;
    var previousNextFrame: Option<int> := None;
    for index := 0 to |w.steps|
      invariant index > 0 ==> previousNextFrame == w.steps[index - 1].nextFrame
      invariant index == 0 ==> previousNextFrame == None
      invariant errors == 0 <==> before == 0 && StepsOk(w.steps, index, ownerVa, w.directoryBase)
    {
      var table: Option<int> := None;
      if index == 0 && w.directoryBase.Some? {
        table := Some(w.directoryBase.value / 4096 % FRAMES * 4096);
      } else if previousNextFrame.Some? {
        table := Some(previousNextFrame.value * 4096);
      }
      var place := CheckPlace(w.steps[index], ownerVa, table);
      var entry := CheckEntry(w.steps[index]);
      errors := errors + place + entry;
      assert place + entry == 0 <==> StepAtOk(w.steps, index, ownerVa, w.directoryBase);
      previousNextFrame := w.steps[index].nextFrame;
    }
    var leaf := CheckLeaf(o, w);
    errors := errors + leaf;
  }

  // ---- an accepted record is the hardware walk

  /** The memory holds every recorded entry. */
  ghost predicate Holds(mem: int -> int, steps: seq<Step>) {
    forall k | 0 <= k < |steps| :: steps[k].entryAddress.Some? && steps[k].entryValue.Some? &&
      mem(steps[k].entryAddress.value) == steps[k].entryValue.value
  }

  function StepRights(seen: Rights, s: Step): Rights {
    Rights(seen.writable && s.writable == Some(true), seen.user && s.user == Some(true),
           seen.noExecute || s.noExecute == Some(true))
  }

  /** Rights gathered from step `k` on, starting from `seen`. */
  ghost function Gather(steps: seq<Step>, k: nat, seen: Rights): Rights
    requires k <= |steps|
    decreases |steps| - k
  {
    if k == |steps| then seen else
      Gather(steps, k + 1, StepRights(seen, steps[k]))
  }

  lemma {:induction false} GatherIsAllAllAny(steps: seq<Step>, k: nat, seen: Rights)
    requires k <= |steps|
    ensures Gather(steps, k, seen) ==
            Rights(seen.writable && AllWritable(steps[k..]), seen.user && AllUser(steps[k..]),
                   seen.noExecute || AnyNx(steps[k..]))
    decreases |steps| - k
  {
    if k < |steps| {
      var s := steps[k..];
      assert s == [steps[k]] + steps[k + 1..];
      GatherIsAllAllAny(steps, k + 1, StepRights(seen, steps[k]));
      assert AllWritable(s) == (steps[k].writable == Some(true) && AllWritable(steps[k + 1..]));
      assert AllUser(s) == (steps[k].user == Some(true) && AllUser(steps[k + 1..]));
      if AnyNx(steps[k + 1..]) {
        var j :| 0 <= j < |steps[k + 1..]| && steps[k + 1..][j].noExecute == Some(true);
        assert s[j + 1].noExecute == Some(true);
      }
      if steps[k].noExecute == Some(true) { assert s[0].noExecute == Some(true); }
    }
  }

  /** One level of the hardware walk. */
  lemma WalkLevel(mem: int -> int, table: nat, va: int, levels: seq<Level>, seen: Rights, e: int)
    requires levels != [] && e == mem(table + Index(va, levels[0]) * 8)
    requires Present(e) && !PageSize(e)
    ensures HardwareWalk(mem, table, va, levels, seen) ==
            var rights := Narrowed(seen, e);
            if levels[0] == PT then Mapped(Frame(e), rights, table + Index(va, levels[0]) * 8)
            else HardwareWalk(mem, Frame(e) * 4096, va, levels[1..], rights)
  {
  }

  /** A recorded step that holds in memory is a level of the hardware walk. */
  lemma StepWalks(mem: int -> int, s: Step, levels: seq<Level>, k: nat, va: int, table: nat, seen: Rights)
    requires k < |levels| && s.level == Some(levels[k]) && StepOk(s, va, Some(table))
    requires mem(s.entryAddress.value) == s.entryValue.value
    ensures HardwareWalk(mem, table, va, levels[k..], seen) ==
            if levels[k] == PT then Mapped(s.nextFrame.value, StepRights(seen, s), s.entryAddress.value)
            else HardwareWalk(mem, s.nextFrame.value * 4096, va, levels[k + 1..], StepRights(seen, s))
  {
    assert levels[k..][0] == levels[k] && levels[k..][1..] == levels[k + 1..];
    WalkLevel(mem, table, va, levels[k..], seen, s.entryValue.value);
  }

  predicate Points(s: Step) {
    s.nextFrame.Some? && s.nextFrame.value >= 0 && s.entryAddress.Some? && s.entryAddress.value >= 0
  }

  lemma {:induction false} WalkFollowsSteps(mem: int -> int, steps: seq<Step>, levels: seq<Level>, k: nat,
                                            va: int, base: Option<int>, table: nat, seen: Rights, leaf: Step)
    requires k < |steps| && LevelsMatch(steps, levels) && leaf == steps[|steps| - 1] && Points(leaf)
    requires forall j | 0 <= j < |levels| :: levels[j] == PT <==> j == |levels| - 1
    requires StepsOk(steps, |steps|, va, base) && Holds(mem, steps)
    requires TableOf(steps, k, base) == Some(table)
    ensures HardwareWalk(mem, table, va, levels[k..], seen) ==
            Mapped(leaf.nextFrame.value, Gather(steps, k, seen), leaf.entryAddress.value)
    decreases |steps| - k
  {
    assert StepAtOk(steps, k, va, base);
    StepWalks(mem, steps[k], levels, k, va, table, seen);
    var next := StepRights(seen, steps[k]);
    if k + 1 < |steps| {
      WalkFollowsSteps(mem, steps, levels, k + 1, va, base, steps[k].nextFrame.value * 4096, next, leaf);
    } else {
      assert Gather(steps, k + 1, next) == next;
    }
  }

  lemma MulMonotone(p: nat, a: nat, b: nat)
    requires a <= b
    ensures p * a <= p * b
  {
  }

  lemma Div512(x: nat, p: nat)
    requires p > 0
    ensures x / p / 512 == x / (512 * p)
  {
    var a, b := x / p, x % p;
    var c, d := a / 512, a % 512;
    assert x == a * p + b;
    assert a * p == (512 * c + d) * p == c * (512 * p) + p * d;
    MulMonotone(p, d, 511);
    DivUnique(x, 512 * p, c, p * d + b);
  }

  /** The index fields of a canonical lower-half, page-aligned address spell the address. */
  lemma Recombine(va: nat)
    requires va < 0x8000_0000_0000 && va % 4096 == 0
    ensures va == Index(va, PML4) * Unit(PML4) + Index(va, PDPT) * Unit(PDPT) +
                  Index(va, PD) * Unit(PD) + Index(va, PT) * Unit(PT)
  {
    Div512(va, 0x1000);
    Div512(va, 0x20_0000);
    Div512(va, 0x4000_0000);
    Digits(va / 0x1000, va / 0x20_0000, va / 0x4000_0000, va / 0x80_0000_0000);
  }

  lemma Digits(a: nat, b: nat, c: nat, d: nat)
    requires b == a / 512 && c == b / 512 && d == c / 512 && d < 512
    ensures a == d % 512 * 0x800_0000 + c % 512 * 0x4_0000 + b % 512 * 512 + a % 512
  {
  }

  /**
   In every memory that holds the entries of an accepted record, the processor's walk from the
   recorded directory base maps the recorded address to the recorded frame, through the recorded
   leaf, with write and user rights the conjunction and no-execute the disjunction over all levels.
   */
  lemma AcceptedRecordIsTheWalk(o: Ownership, w: Walk, pid: Option<int>, va: Option<int>,
                                probeFrame: Option<int>, mem: int -> int)
    requires RecordOk(o, w, pid, va, probeFrame) && Holds(mem, w.steps)
    ensures HardwareWalk(mem, w.directoryBase.value, o.va.value, Levels(w.la57.value), ALL_RIGHTS) ==
            Mapped(o.frame.value,
                   Rights(w.effectiveWritable.value, w.effectiveUser.value, w.effectiveNx.value),
                   o.pteAddress.value)
    ensures o.pa.value == o.frame.value * 4096
  {
    WalkOfSteps(mem, w.steps, w.la57.value, o.va.value, w.directoryBase.value);
  }

  lemma BaseIsTable(base: int)
    requires 0 < base < FRAMES * 4096 && base % 4096 == 0
    ensures base / 4096 % FRAMES * 4096 == base
  {
  }

  lemma WalkOfSteps(mem: int -> int, steps: seq<Step>, la57: bool, va: int, base: int)
    requires LevelsMatch(steps, Levels(la57)) && StepsOk(steps, |steps|, va, Some(base)) && Holds(mem, steps)
    requires 0 < base < FRAMES * 4096 && base % 4096 == 0
    ensures var leaf := steps[|steps| - 1];
            Points(leaf) &&
            HardwareWalk(mem, base, va, Levels(la57), ALL_RIGHTS) ==
            Mapped(leaf.nextFrame.value, Rights(AllWritable(steps), AllUser(steps), AnyNx(steps)),
                   leaf.entryAddress.value)
  {
    var levels := Levels(la57);
    BaseIsTable(base);
    assert levels[0..] == levels && steps[0..] == steps;
    assert StepAtOk(steps, |steps| - 1, va, Some(base));
    WalkFollowsSteps(mem, steps, levels, 0, va, Some(base), base, ALL_RIGHTS, steps[|steps| - 1]);
    GatherIsAllAllAny(steps, 0, ALL_RIGHTS);
  }

  /** The address is the recombination of the recorded indices, whether four or five are recorded. */
  lemma RecordedIndicesSpellAddress(o: Ownership, w: Walk, pid: Option<int>, va: Option<int>,
                                    probeFrame: Option<int>)
    requires RecordOk(o, w, pid, va, probeFrame)
    ensures |w.steps| == (if w.la57.value then 5 else 4)
    ensures forall k | 0 <= k < |w.steps| :: w.steps[k].index.Some?
    ensures w.la57.value ==> w.steps[0].index == Some(0)
    ensures var n := |w.steps|;
            o.va.value == w.steps[n - 4].index.value * Unit(PML4) + w.steps[n - 3].index.value * Unit(PDPT) +
                          w.steps[n - 2].index.value * Unit(PD) + w.steps[n - 1].index.value * Unit(PT)
  {
    var levels := Levels(w.la57.value);
    IndicesRecorded(w.steps, levels, o.va.value, w.directoryBase);
    Recombine(o.va.value);
    TopIndexZero(o.va.value);
    var n := |levels|;
    assert levels[n - 4] == PML4 && levels[n - 3] == PDPT && levels[n - 2] == PD && levels[n - 1] == PT;
  }

  lemma TopIndexZero(va: nat)
    requires va < 0x8000_0000_0000
    ensures Index(va, PML5) == 0
  {
  }

  lemma IndicesRecorded(steps: seq<Step>, levels: seq<Level>, va: int, base: Option<int>)
    requires LevelsMatch(steps, levels) && StepsOk(steps, |steps|, va, base)
    ensures forall k | 0 <= k < |steps| :: steps[k].index == Some(Index(va, levels[k]))
  {
    forall k | 0 <= k < |steps| ensures steps[k].index == Some(Index(va, levels[k])) {
      assert StepAtOk(steps, k, va, base);
    }
  }

  // ---- when a memory can hold an accepted record

  /** Steps that name one entry address record one value for it. */
  ghost predicate Consistent(steps: seq<Step>) {
    forall j, k | 0 <= j < k < |steps| && steps[j].entryAddress == steps[k].entryAddress ::
      steps[j].entryValue == steps[k].entryValue
  }

  /** The memory made of the recorded entries; the first step that names an address wins. */
  ghost function ValueAt(steps: seq<Step>, address: int): int {
    if steps == [] then 0
    else if steps[0].entryAddress == Some(address) && steps[0].entryValue.Some? then steps[0].entryValue.value
    else ValueAt(steps[1..], address)
  }

  lemma {:induction false} ValueAtStep(steps: seq<Step>, k: nat)
    requires k < |steps| && Consistent(steps)
    requires forall j | 0 <= j < |steps| :: steps[j].entryAddress.Some? && steps[j].entryValue.Some?
    ensures ValueAt(steps, steps[k].entryAddress.value) == steps[k].entryValue.value
  {
    if k > 0 {
      var tail := steps[1..];
      assert forall i, j | 0 <= i < j < |tail| && tail[i].entryAddress == tail[j].entryAddress ::
          steps[i + 1].entryValue == steps[j + 1].entryValue;
      ValueAtStep(tail, k - 1);
    }
  }

  /**
   The validator never compares the entries of one address, so it accepts records no memory can hold.
   Some memory holds an accepted record if and only if repeated addresses carry equal values.
   */
  lemma HeldIffConsistent(o: Ownership, w: Walk, pid: Option<int>, va: Option<int>, probeFrame: Option<int>)
    requires RecordOk(o, w, pid, va, probeFrame)
    ensures (exists mem: int -> int :: Holds(mem, w.steps)) <==> Consistent(w.steps)
  {
    forall k | 0 <= k < |w.steps|
      ensures w.steps[k].entryAddress.Some? && w.steps[k].entryValue.Some?
    {
      assert StepAtOk(w.steps, k, o.va.value, w.directoryBase);
    }
    if Consistent(w.steps) {
      var mem := (a: int) => ValueAt(w.steps, a);
      forall k | 0 <= k < |w.steps|
        ensures mem(w.steps[k].entryAddress.value) == w.steps[k].entryValue.value
      {
        ValueAtStep(w.steps, k);
      }
      assert Holds(mem, w.steps);
    }
  }

  function Entry(l: Level, index: int, address: int, value: int): Step {
    Step(Some(l), Some(index), Some(address), Some(value), Some(Frame(value)), Some(Present(value)),
         Some(Writable(value)), Some(User(value)), Some(PageSize(value)), Some(NoExecute(value)))
  }

  /** A PML4 that maps itself, recorded with two values for the slot both upper levels go through. */
  const SELF_MAP_STEPS: seq<Step> :=
    [Entry(PML4, 1, 0x1008, 0x1007), Entry(PDPT, 1, 0x1008, 0x2007),
     Entry(PD, 0, 0x2000, 0x3007), Entry(PT, 0, 0x3000, 0x4007)]

  const SELF_MAP_OWNER := Ownership(
    Some(8), Some(0x80_4000_0000), Some(0x4000), Some(4), Some(0x3000), Some(0x4007), Some(4096),
    Some(false), Some(true), Some(true), Some(false), SCANNED)

  /** The origin every accepted record gives. */
  const SCANNED := Origin(Some("4 KiB page"), Some(PAGE_TABLE_SCAN), Some(PAGE_TABLE_SCAN), Some("high"), Some(1))

  const SELF_MAP_WALK := Walk(
    Some(8), Some(0x1000), Some(0x80_4000_0000), Some(0x4000), Some(4), Some(true), Some(4096), Some(0),
    Some(false), Some(true), Some(true), Some(false), SELF_MAP_STEPS)

  lemma SelfMapEntries()
    ensures forall k | 0 <= k < 4 :: EntryOk(SELF_MAP_STEPS[k])
  {
    assert EntryOk(Entry(PML4, 1, 0x1008, 0x1007));
    assert EntryOk(Entry(PDPT, 1, 0x1008, 0x2007));
    assert EntryOk(Entry(PD, 0, 0x2000, 0x3007));
    assert EntryOk(Entry(PT, 0, 0x3000, 0x4007));
  }

  lemma SelfMapPlaces()
    ensures forall k | 0 <= k < 4 ::
              PlaceOk(SELF_MAP_STEPS[k], 0x80_4000_0000, TableOf(SELF_MAP_STEPS, k, Some(0x1000)))
  {
    var va := 0x80_4000_0000;
    assert PlaceOk(Entry(PML4, 1, 0x1008, 0x1007), va, Some(0x1000));
    assert PlaceOk(Entry(PDPT, 1, 0x1008, 0x2007), va, Some(0x1000));
    assert PlaceOk(Entry(PD, 0, 0x2000, 0x3007), va, Some(0x2000));
    assert PlaceOk(Entry(PT, 0, 0x3000, 0x4007), va, Some(0x3000));
  }

  lemma SelfMapHead()
    ensures OwnershipOk(SELF_MAP_OWNER, Some(8), Some(0x80_4000_0000), Some(9))
    ensures HeaderOk(SELF_MAP_OWNER, SELF_MAP_WALK) && LevelsMatch(SELF_MAP_STEPS, Levels(false))
  {
  }

  lemma SelfMapLeaf()
    ensures LeafOk(SELF_MAP_OWNER, SELF_MAP_WALK)
  {
    var steps := SELF_MAP_STEPS;
    assert forall k | 0 <= k < 4 :: steps[k].writable == Some(true) && steps[k].user == Some(true);
    assert forall k | 0 <= k < 4 :: steps[k].noExecute == Some(false);
  }

  lemma SelfMapSteps()
    ensures StepsOk(SELF_MAP_STEPS, |SELF_MAP_STEPS|, 0x80_4000_0000, Some(0x1000))
  {
    SelfMapEntries();
    SelfMapPlaces();
  }

  lemma UnholdableRecordAccepted()
    ensures RecordOk(SELF_MAP_OWNER, SELF_MAP_WALK, Some(8), Some(0x80_4000_0000), Some(9))
    ensures !exists mem: int -> int :: Holds(mem, SELF_MAP_STEPS)
  {
    SelfMapHead();
    SelfMapLeaf();
    SelfMapSteps();
    assert RecordOk(SELF_MAP_OWNER, SELF_MAP_WALK, Some(8), Some(0x80_4000_0000), Some(9));
    var steps := SELF_MAP_STEPS;
    assert steps[0].entryAddress == steps[1].entryAddress && steps[0].entryValue != steps[1].entryValue;
    assert !Consistent(steps);
    HeldIffConsistent(SELF_MAP_OWNER, SELF_MAP_WALK, Some(8), Some(0x80_4000_0000), Some(9));
  }

  // ---- every plain 4 KiB user mapping can be recorded

  /** The entries on the walk: present words that map a table or a 4 KiB page at a nonzero frame. */
  ghost predicate Plain(mem: int -> int, table: nat, va: int, levels: seq<Level>)
    decreases |levels|
  {
    levels == [] ||
    var e := mem(table + Index(va, levels[0]) * 8);
    0 < e < WORDS && Present(e) && !PageSize(e) && 0 < Frame(e) && Plain(mem, Frame(e) * 4096, va, levels[1..])
  }

  function RecordSteps(mem: int -> int, table: nat, va: int, levels: seq<Level>): (r: seq<Step>)
    ensures |r| == |levels|
    decreases |levels|
  {
    if levels == [] then [] else
      var address := table + Index(va, levels[0]) * 8;
      [Entry(levels[0], Index(va, levels[0]), address, mem(address))] +
      RecordSteps(mem, Frame(mem(address)) * 4096, va, levels[1..])
  }

  lemma EntryAddressInRange(table: nat, index: nat)
    requires 0 < table < FRAMES * 4096 && table % 4096 == 0 && index < 512
    ensures 0 < table + index * 8 <= TOP_ENTRY && (table + index * 8) % 8 == 0
  {
    assert table == table / 4096 * 4096;
  }

  /** A good step in front of a good walk from the table it points to. */
  lemma StepsOkCons(first: Step, tail: seq<Step>, va: int, table: int)
    requires 0 < table < FRAMES * 4096 && table % 4096 == 0
    requires StepOk(first, va, Some(table))
    requires 0 < first.nextFrame.value * 4096 < FRAMES * 4096
    requires StepsOk(tail, |tail|, va, Some(first.nextFrame.value * 4096))
    ensures var steps := [first] + tail; StepsOk(steps, |steps|, va, Some(table))
  {
    var steps := [first] + tail;
    var next := first.nextFrame.value * 4096;
    BaseIsTable(table);
    BaseIsTable(next);
    forall k | 0 <= k < |steps| ensures StepAtOk(steps, k, va, Some(table)) {
      if k > 0 {
        assert StepAtOk(tail, k - 1, va, Some(next));
      }
    }
  }

  lemma {:induction false} RecordedStepsOk(mem: int -> int, table: nat, va: int, levels: seq<Level>)
    requires Plain(mem, table, va, levels) && 0 < table < FRAMES * 4096 && table % 4096 == 0
    ensures var steps := RecordSteps(mem, table, va, levels);
            LevelsMatch(steps, levels) && StepsOk(steps, |steps|, va, Some(table)) && Holds(mem, steps)
    decreases |levels|
  {
    if levels != [] {
      var index := Index(va, levels[0]);
      var e := mem(table + index * 8);
      EntryAddressInRange(table, index);
      FrameIsTable(Frame(e));
      RecordedStepsOk(mem, Frame(e) * 4096, va, levels[1..]);
      var first := Entry(levels[0], index, table + index * 8, e);
      StepsOkCons(first, RecordSteps(mem, Frame(e) * 4096, va, levels[1..]), va, table);
    }
  }

  lemma FrameIsTable(frame: nat)
    requires 0 < frame < FRAMES
    ensures 0 < frame * 4096 < FRAMES * 4096 && frame * 4096 % 4096 == 0
  {
  }

  /** The record of a walk: what an exporter writes for `frame` reached through `leafAddress`. */
  function RecordOwner(mem: int -> int, pid: int, va: int, frame: nat, leafAddress: nat, nx: bool): Ownership {
    Ownership(Some(pid), Some(va), Some(frame * 4096), Some(frame), Some(leafAddress), Some(mem(leafAddress)),
              Some(4096), Some(false), Some(true), Some(true), Some(nx), SCANNED)
  }

  function RecordWalk(mem: int -> int, pid: int, base: nat, va: int, la57: bool, frame: nat, nx: bool): Walk {
    Walk(Some(pid), Some(base), Some(va), Some(frame * 4096), Some(frame), Some(true), Some(4096), Some(0),
         Some(la57), Some(true), Some(true), Some(nx), RecordSteps(mem, base, va, Levels(la57)))
  }

  /** The record of every user-writable 4 KiB mapping reached through plain entries is accepted. */
  lemma RecordedWalkAccepted(mem: int -> int, pid: int, base: nat, va: int, la57: bool, frame: nat,
                             leafAddress: nat, nx: bool, probeFrame: Option<int>)
    requires 0 < base < FRAMES * 4096 && base % 4096 == 0
    requires 0 < va < 0x8000_0000_0000 && va % 4096 == 0
    requires Plain(mem, base, va, Levels(la57))
    requires HardwareWalk(mem, base, va, Levels(la57), ALL_RIGHTS) ==
             Mapped(frame, Rights(true, true, nx), leafAddress)
    requires Some(frame) != probeFrame
    ensures RecordOk(RecordOwner(mem, pid, va, frame, leafAddress, nx),
                     RecordWalk(mem, pid, base, va, la57, frame, nx), Some(pid), Some(va), probeFrame)
  {
    var levels := Levels(la57);
    var steps := RecordSteps(mem, base, va, levels);
    RecordedStepsOk(mem, base, va, levels);
    WalkOfSteps(mem, steps, la57, va, base);
    var n := |steps| - 1;
    assert StepAtOk(steps, n, va, Some(base as int));
    assert mem(steps[n].entryAddress.value) == steps[n].entryValue.value;
  }
}
