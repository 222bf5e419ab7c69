/**
 The fixed eight-byte probe edit, the three independent checks for it, the list of dirty runs, and
 what the edit does to the page checksum.
 */
module EvidencePattern {
  import opened Crc32
  import Bytes

  const PAGE_SIZE := 4096
  const EDIT_OFFSET := 0x100
  const EDIT_MASK: seq<bv8> := [0x4B, 0x44, 0x42, 0x47, 0xA5, 0x5A, 0x3C, 0xC3]

  type Page = p: seq<bv8> | |p| == PAGE_SIZE witness seq(PAGE_SIZE, _ => 0 as bv8)

  predicate InEdit(i: int) { EDIT_OFFSET <= i < EDIT_OFFSET + 8 }

  /** Byte `i` of the edit mask laid over a page. */
  function MaskAt(i: int): bv8 {
    if InEdit(i) then EDIT_MASK[i - EDIT_OFFSET] else 0
  }

  function XorAt(a: seq<bv8>, b: seq<bv8>, i: int): bv8
    requires 0 <= i < |a| == |b|
  {
    a[i] ^ b[i]
  }

  /** The two pages differ by the probe mask, and by nothing else. */
  ghost predicate ExactEdit(a: Page, b: Page) {
    forall i | 0 <= i < PAGE_SIZE :: XorAt(a, b, i) == MaskAt(i)
  }

  lemma MaskNonzero(i: int)
    ensures InEdit(i) <==> MaskAt(i) != 0
  {
    if InEdit(i) {
      assert i == 0x100 || i == 0x101 || i == 0x102 || i == 0x103 ||
             i == 0x104 || i == 0x105 || i == 0x106 || i == 0x107;
    }
  }

  lemma XorFacts(x: bv8, y: bv8, m: bv8)
    ensures x ^ y == m <==> y == x ^ m
    ensures x ^ y == 0 <==> x == y
    ensures x ^ 0 == x
  {
    if y == x ^ m { XorMove(x, y, m); }
    if x ^ y == m { XorMove(x, m, y); }
    if x ^ y == 0 { XorMove(x, 0, y); }
    XorCancel(x, x);
  }

  lemma XorMove(x: bv8, y: bv8, m: bv8)
    requires y == x ^ m
    ensures m == x ^ y
  {
    XorCancel(x, m);
  }

  lemma XorCancel(x: bv8, y: bv8)
    ensures x ^ (x ^ y) == y
    ensures x ^ x == 0 && x ^ 0 == x
  {
  }

  /** Where the pages of an exact edit differ. */
  lemma EditAt(a: Page, b: Page)
    requires ExactEdit(a, b)
    ensures forall i | 0 <= i < PAGE_SIZE :: a[i] != b[i] <==> InEdit(i)
  {
    forall i | 0 <= i < PAGE_SIZE ensures a[i] != b[i] <==> InEdit(i) {
      assert XorAt(a, b, i) == MaskAt(i);
      MaskNonzero(i);
      XorFacts(a[i], b[i], MaskAt(i));
    }
  }

  /** Unchanged outside the window and masked inside it is an exact edit. */
  lemma EditFrom(a: Page, b: Page)
    requires forall i | 0 <= i < PAGE_SIZE && !InEdit(i) :: a[i] == b[i]
    requires forall k | 0 <= k < 8 :: XorAt(a, b, EDIT_OFFSET + k) == EDIT_MASK[k]
    ensures ExactEdit(a, b)
  {
    forall i | 0 <= i < PAGE_SIZE ensures XorAt(a, b, i) == MaskAt(i) {
      if InEdit(i) {
        assert XorAt(a, b, EDIT_OFFSET + (i - EDIT_OFFSET)) == EDIT_MASK[i - EDIT_OFFSET];
      } else {
        XorFacts(a[i], b[i], 0);
      }
    }
  }

  // ---- the exporter's check

  method ExporterAccepts(baseline: Page, expectedAfter: Page) returns (ok: bool)
    ensures ok <==> ExactEdit(baseline, expectedAfter)
  {
    for offset := 0 to PAGE_SIZE
      invariant forall i | 0 <= i < offset :: XorAt(baseline, expectedAfter, i) == MaskAt(i)
    {
      var expected := baseline[offset];
      XorFacts(expected, expectedAfter[offset], MaskAt(offset));
      if offset >= EDIT_OFFSET && offset < EDIT_OFFSET + |EDIT_MASK| {
        expected := expected ^ EDIT_MASK[offset - EDIT_OFFSET];
      }
      if expectedAfter[offset] != expected {
        assert XorAt(baseline, expectedAfter, offset) != MaskAt(offset);
        return false;
      }
    }
    return true;
  }

  // ---- the validator's check: the mask inside the window, no change outside it

  method ValidatorAccepts(baseline: Page, expected: Page) returns (ok: bool)
    ensures ok <==> ExactEdit(baseline, expected)
  {
    var actualMask := WindowMask(baseline, expected);
    var outsideChanged := false;
    for index := 0 to PAGE_SIZE
      invariant outsideChanged <==>
                exists i | 0 <= i < index :: !InEdit(i) && baseline[i] != expected[i]
    {
      if !(EDIT_OFFSET <= index < EDIT_OFFSET + |EDIT_MASK|) && baseline[index] != expected[index] {
        outsideChanged := true;
      }
    }
    ok := actualMask == EDIT_MASK && !outsideChanged;
    if ok { EditFrom(baseline, expected); }
    if ExactEdit(baseline, expected) {
      EditAt(baseline, expected);
      forall k | 0 <= k < 8 ensures actualMask[k] == EDIT_MASK[k] {
        assert XorAt(baseline, expected, EDIT_OFFSET + k) == MaskAt(EDIT_OFFSET + k);
      }
      assert actualMask == EDIT_MASK;
    }
  }

  method WindowMask(a: Page, b: Page) returns (mask: seq<bv8>)
    ensures |mask| == 8 && forall k | 0 <= k < 8 :: mask[k] == XorAt(a, b, EDIT_OFFSET + k)
  {
    mask := [];
    for index := 0 to |EDIT_MASK|
      invariant |mask| == index
      invariant forall k | 0 <= k < index :: mask[k] == XorAt(a, b, EDIT_OFFSET + k)
    {
      mask := mask + [a[EDIT_OFFSET + index] ^ b[EDIT_OFFSET + index]];
    }
  }

  // ---- the bare-metal check: the list of differing offsets, then their mask

  /** The differing offsets below `n`, in order. */
  function Differences(a: seq<bv8>, b: seq<bv8>, n: nat): seq<nat>
    requires n <= |a| == |b|
  {
    if n == 0 then [] else
      Differences(a, b, n - 1) + (if a[n - 1] != b[n - 1] then [n - 1] else [])
  }

  lemma {:induction false} DifferenceMembers(a: seq<bv8>, b: seq<bv8>, n: nat, i: nat)
    requires n <= |a| == |b|
    ensures i in Differences(a, b, n) <==> i < n && a[i] != b[i]
  {
    if n > 0 { DifferenceMembers(a, b, n - 1, i); }
  }

  function Clamp(x: nat, lo: nat, hi: nat): nat
    requires lo <= hi
  {
    if x < lo then lo else if x > hi then hi else x
  }

  lemma {:induction false} DifferencesAreRange(a: seq<bv8>, b: seq<bv8>, n: nat, lo: nat, hi: nat)
    requires n <= |a| == |b| && lo <= hi
    requires forall i | 0 <= i < n :: a[i] != b[i] <==> lo <= i < hi
    ensures Differences(a, b, n) == Bytes.Range(lo, Clamp(n, lo, hi) - lo)
  {
    if n > 0 { DifferencesAreRange(a, b, n - 1, lo, hi); }
  }

  method BareMetalAccepts(before: Page, after: Page) returns (ok: bool)
    ensures ok <==> ExactEdit(before, after)
  {
    var differences: seq<nat> := [];
    for index := 0 to PAGE_SIZE
      invariant differences == Differences(before, after, index)
    {
      if before[index] != after[index] { differences := differences + [index]; }
    }
    if ExactEdit(before, after) {
      EditAt(before, after);
      DifferencesAreRange(before, after, PAGE_SIZE, EDIT_OFFSET, EDIT_OFFSET + 8);
    }
    if differences != Bytes.Range(EDIT_OFFSET, 8) { return false; }
    forall k | 0 <= k < 8 ensures differences[k] == EDIT_OFFSET + k { Bytes.RangeAt(EDIT_OFFSET, 8, k); }
    forall i | 0 <= i < PAGE_SIZE ensures before[i] != after[i] <==> InEdit(i) {
      DifferenceMembers(before, after, PAGE_SIZE, i);
      if InEdit(i) { assert differences[i - EDIT_OFFSET] == i; }
    }
    var mask: seq<bv8> := [];
    for k := 0 to |differences|
      invariant |mask| == k
      invariant forall j | 0 <= j < k :: mask[j] == XorAt(before, after, EDIT_OFFSET + j)
    {
      mask := mask + [before[differences[k]] ^ after[differences[k]]];
    }
    ok := mask == EDIT_MASK;
    if ok { EditFrom(before, after); }
    if ExactEdit(before, after) {
      forall k | 0 <= k < 8 ensures mask[k] == EDIT_MASK[k] {
        assert XorAt(before, after, EDIT_OFFSET + k) == MaskAt(EDIT_OFFSET + k);
      }
      assert mask == EDIT_MASK;
    }
  }

  // ---- dirty runs

  datatype DirtyRun = DirtyRun(offset: nat, length: nat)

  /** A nonempty stretch of differing bytes that cannot be extended on either side. */
  ghost predicate MaximalRun(a: seq<bv8>, b: seq<bv8>, r: DirtyRun)
    requires |a| == |b|
  {
    && 0 < r.length && r.offset + r.length <= |a|
    && (forall i | r.offset <= i < r.offset + r.length :: a[i] != b[i])
    && (r.offset > 0 ==> a[r.offset - 1] == b[r.offset - 1])
    && (r.offset + r.length < |a| ==> a[r.offset + r.length] == b[r.offset + r.length])
  }

  ghost predicate Covers(runs: seq<DirtyRun>, i: nat) {
    exists k | 0 <= k < |runs| :: runs[k].offset <= i < runs[k].offset + runs[k].length
  }

  /** `runs` are the maximal runs below `n`, in order, and cover every differing offset below `n`. */
  ghost predicate RunsBelow(a: seq<bv8>, b: seq<bv8>, n: nat, runs: seq<DirtyRun>)
    requires n <= |a| == |b|
  {
    && (forall k | 0 <= k < |runs| :: MaximalRun(a, b, runs[k]) && runs[k].offset + runs[k].length <= n)
    && (forall j, k | 0 <= j < k < |runs| :: runs[j].offset + runs[j].length < runs[k].offset)
    && (forall i: nat | i < n && a[i] != b[i] :: Covers(runs, i))
  }

  lemma CoversMore(runs: seq<DirtyRun>, r: DirtyRun, i: nat)
    ensures Covers(runs + [r], i) <==> Covers(runs, i) || r.offset <= i < r.offset + r.length
  {
    if Covers(runs, i) {
      var k :| 0 <= k < |runs| && runs[k].offset <= i < runs[k].offset + runs[k].length;
      assert (runs + [r])[k] == runs[k];
    }
    if r.offset <= i < r.offset + r.length { assert (runs + [r])[|runs|] == r; }
  }

  lemma AddRun(a: seq<bv8>, b: seq<bv8>, n: nat, runs: seq<DirtyRun>, r: DirtyRun)
    requires r.offset + r.length <= |a| == |b|
    requires n <= r.offset && RunsBelow(a, b, n, runs) && MaximalRun(a, b, r)
    requires forall i | n <= i < r.offset :: a[i] == b[i]
    ensures RunsBelow(a, b, r.offset + r.length, runs + [r])
  {
    var more := runs + [r];
    forall i: nat | i < r.offset + r.length && a[i] != b[i] ensures Covers(more, i) {
      CoversMore(runs, r, i);
    }
    forall j, k | 0 <= j < k < |more| ensures more[j].offset + more[j].length < more[k].offset {
      if k == |runs| {
        var e := runs[j].offset + runs[j].length;
        assert a[e - 1] != b[e - 1] && e <= r.offset;
      }
    }
  }

  method DirtyRuns(baseline: seq<bv8>, expectedAfter: seq<bv8>) returns (runs: seq<DirtyRun>)
    requires |baseline| == |expectedAfter|
    ensures RunsBelow(baseline, expectedAfter, |baseline|, runs)
  {
    runs := [];
    var offset := 0;
    while offset < |baseline|
      invariant offset <= |baseline|
      invariant RunsBelow(baseline, expectedAfter, offset, runs)
      invariant 0 < offset < |baseline| ==>
                  baseline[offset - 1] == expectedAfter[offset - 1] || baseline[offset] == expectedAfter[offset]
    {
      if baseline[offset] == expectedAfter[offset] {
        offset := offset + 1;
        continue;
      }
      var start := offset;
      while offset < |baseline| && baseline[offset] != expectedAfter[offset]
        invariant start <= offset <= |baseline|
        invariant forall i | start <= i < offset :: baseline[i] != expectedAfter[i]
        invariant offset == start ==> baseline[start] != expectedAfter[start]
      {
        offset := offset + 1;
      }
      AddRun(baseline, expectedAfter, start, runs, DirtyRun(start, offset - start));
      runs := runs + [DirtyRun(start, offset - start)];
    }
  }

  lemma RunAgrees(a: seq<bv8>, b: seq<bv8>, r: seq<DirtyRun>, s: seq<DirtyRun>, k: nat)
    requires |a| == |b| && RunsBelow(a, b, |a|, r) && RunsBelow(a, b, |a|, s)
    requires k < |r| && k <= |s| && r[..k] == s[..k]
    ensures k < |s| && s[k].offset <= r[k].offset
  {
    assert MaximalRun(a, b, r[k]);
    assert Covers(s, r[k].offset);
    assert forall i | 0 <= i < k :: s[i] == r[i] by { assert forall i | 0 <= i < k :: s[..k][i] == s[i]; }
    assert forall i | 0 <= i < k :: s[i].offset + s[i].length < r[k].offset;
  }

  /** The maximal runs of two strings are determined. */
  lemma {:induction false} RunsUnique(a: seq<bv8>, b: seq<bv8>, r: seq<DirtyRun>, s: seq<DirtyRun>, k: nat)
    requires |a| == |b| && RunsBelow(a, b, |a|, r) && RunsBelow(a, b, |a|, s)
    requires k <= |r| && k <= |s| && r[..k] == s[..k]
    ensures r == s
    decreases |r| - k
  {
    if k < |r| {
      RunAgrees(a, b, r, s, k);
      RunAgrees(a, b, s, r, k);
      var x, y := r[k], s[k];
      assert MaximalRun(a, b, x) && MaximalRun(a, b, y);
      assert r[..k + 1] == r[..k] + [x] && s[..k + 1] == s[..k] + [y];
      RunsUnique(a, b, r, s, k + 1);
    } else if k < |s| {
      RunAgrees(a, b, s, r, k);
    }
  }

  /** The single run the validator demands means that exactly the eight edited bytes differ. */
  lemma SingleRun(a: Page, b: Page, runs: seq<DirtyRun>)
    requires RunsBelow(a, b, PAGE_SIZE, runs)
    ensures runs == [DirtyRun(EDIT_OFFSET, 8)] <==>
            forall i | 0 <= i < PAGE_SIZE :: a[i] != b[i] <==> InEdit(i)
  {
    var one := [DirtyRun(EDIT_OFFSET, 8)];
    if forall i | 0 <= i < PAGE_SIZE :: a[i] != b[i] <==> InEdit(i) {
      forall i: nat | i < PAGE_SIZE && a[i] != b[i] ensures Covers(one, i) {
        assert one[0].offset <= i < one[0].offset + one[0].length;
      }
      RunsUnique(a, b, runs, one, 0);
    }
    if runs == one {
      forall i | 0 <= i < PAGE_SIZE ensures a[i] != b[i] <==> InEdit(i) {
        if a[i] != b[i] { assert Covers(runs, i); }
        if InEdit(i) { assert MaximalRun(a, b, runs[0]); }
      }
    }
  }

  lemma ExactEditHasSingleRun(a: Page, b: Page, runs: seq<DirtyRun>)
    requires ExactEdit(a, b) && RunsBelow(a, b, PAGE_SIZE, runs)
    ensures runs == [DirtyRun(EDIT_OFFSET, 8)]
  {
    EditAt(a, b);
    SingleRun(a, b, runs);
  }

  // ---- checksum of the edit

  /** What the edit adds to every page's checksum. */
  function EditDelta(): bv32 { Run(0, Zeros(EDIT_OFFSET) + EDIT_MASK + Zeros(PAGE_SIZE - EDIT_OFFSET - 8)) }

  lemma MaskRegister()
    ensures Run(0, EDIT_MASK) == 0x06F0_084B
  {
    assert ByteStep(0x00000000, 0x4B) == 0xE10E9818;
    assert ByteStep(0xE10E9818, 0x44) == 0x623C1347;
    assert ByteStep(0x623C1347, 0x42) == 0x7008C89C;
    assert ByteStep(0x7008C89C, 0x47) == 0x11710394;
    assert ByteStep(0x11710394, 0xA5) == 0x51CF7139;
    assert ByteStep(0x51CF7139, 0x5A) == 0xD4EAFF93;
    assert ByteStep(0xD4EAFF93, 0x3C) == 0x46BD5486;
    assert ByteStep(0x46BD5486, 0xC3) == 0x06F0084B;
  }

  lemma DeltaOf(pre: nat, post: nat)
    ensures Run(0, Zeros(pre) + EDIT_MASK + Zeros(post)) != 0
  {
    RunConcat(0, Zeros(pre) + EDIT_MASK, Zeros(post));
    RunConcat(0, Zeros(pre), EDIT_MASK);
    RunZeros(pre);
    MaskRegister();
    RunZeros(post);
    if Run(0x06F0_084B, Zeros(post)) == 0 { RunInjective(0x06F0_084B, 0, Zeros(post)); }
  }

  lemma MaskPage(pre: nat, post: nat)
    requires pre == EDIT_OFFSET && post == PAGE_SIZE - EDIT_OFFSET - 8
    ensures var d := Zeros(pre) + EDIT_MASK + Zeros(post);
            |d| == PAGE_SIZE && forall i | 0 <= i < PAGE_SIZE :: d[i] == MaskAt(i)
  {
  }

  /** The edit changes the checksum of every page, by the same nonzero constant. */
  lemma EditChangesCrc(a: Page, b: Page)
    requires ExactEdit(a, b)
    ensures Crc(b) == Crc(a) ^ EditDelta() && EditDelta() != 0
  {
    var pre, post := EDIT_OFFSET, PAGE_SIZE - EDIT_OFFSET - 8;
    var d := Zeros(pre) + EDIT_MASK + Zeros(post);
    MaskPage(pre, post);
    forall i | 0 <= i < PAGE_SIZE ensures b[i] == a[i] ^ d[i] {
      assert XorAt(a, b, i) == MaskAt(i);
      XorFacts(a[i], b[i], MaskAt(i));
    }
    FixedDifference(a, d, b);
    DeltaOf(pre, post);
  }
}
