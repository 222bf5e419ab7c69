/**
 The page part of an evidence bundle: what the exporter demands of the six pages and four probe
 records before it writes a bundle, and what the validator demands of the bundle afterwards.
 */
module EvidenceBundle {
  import opened Crc32
  import opened EvidencePattern
  import opened Wrappers

  datatype Pages = Pages(baseline: Page, preflight: Page, expectedAfter: Page,
                         readback: Page, independentReload: Page, rollback: Page)

  /** Checksums from the probe's metadata at the four stages. */
  datatype Probes = Probes(baseline: bv32, afterWrite: bv32, afterReload: bv32, afterRollback: bv32)

  ghost predicate MatchesProbe(page: Option<Page>, probe: Option<bv32>) {
    page.Some? && probe.Some? && Crc(page.value) == probe.value
  }

  method PageMatchesProbeCrc(page: Option<Page>, probe: Option<bv32>) returns (ok: bool)
    ensures ok <==> MatchesProbe(page, probe)
  {
    if page.None? || probe.None? { return false; }
    var crc := PageCrc32(page.value);
    ok := crc == probe.value;
  }

  /** A page that matches the probe rules out every corruption within four consecutive bytes. */
  lemma MatchRulesOutBurst(page: Page, corrupt: Page, probe: Option<bv32>, k: nat)
    requires MatchesProbe(Some(page), probe)
    requires DifferWithin(page, corrupt, k) && corrupt != page
    ensures !MatchesProbe(Some(corrupt), probe)
  {
    BurstDetected(page, corrupt, k);
  }

  ghost predicate Exportable(p: Pages, c: Probes) {
    && p.preflight == p.baseline && p.readback == p.expectedAfter
    && p.independentReload == p.expectedAfter && p.rollback == p.baseline
    && c.afterRollback == c.baseline
    && Crc(p.baseline) == c.baseline && Crc(p.preflight) == c.baseline
    && Crc(p.expectedAfter) == c.afterWrite && Crc(p.readback) == c.afterWrite
    && Crc(p.independentReload) == c.afterReload && Crc(p.rollback) == c.afterRollback
    && ExactEdit(p.baseline, p.expectedAfter)
  }

  /** What the page session has captured so far. */
  datatype Captured = Captured(baseline: Option<Page>, preflight: Option<Page>, expectedAfter: Option<Page>,
                               readback: Option<Page>, independentReload: Option<Page>, rollback: Option<Page>)

  /** The probe records kept at the four stages. */
  datatype Records = Records(baseline: Option<bv32>, afterWrite: Option<bv32>, afterReload: Option<bv32>,
                             afterRollback: Option<bv32>)

  predicate AllCaptured(e: Captured) {
    e.baseline.Some? && e.preflight.Some? && e.expectedAfter.Some? && e.readback.Some? &&
    e.independentReload.Some? && e.rollback.Some?
  }

  function PagesOf(e: Captured): Pages
    requires AllCaptured(e)
  {
    Pages(e.baseline.value, e.preflight.value, e.expectedAfter.value, e.readback.value, e.independentReload.value,
          e.rollback.value)
  }

  predicate AllRecorded(c: Records) {
    c.baseline.Some? && c.afterWrite.Some? && c.afterReload.Some? && c.afterRollback.Some?
  }

  function ProbesOf(c: Records): Probes
    requires AllRecorded(c)
  {
    Probes(c.baseline.value, c.afterWrite.value, c.afterReload.value, c.afterRollback.value)
  }

  /** The session's own notion of a complete capture. */
  predicate Complete(e: Captured) {
    AllCaptured(e) && e.preflight == e.baseline && e.readback == e.expectedAfter &&
    e.independentReload == e.expectedAfter && e.rollback == e.baseline
  }

  /**
   The exporter; the result is the dirty-run list written into the bundle. `fixture` is whether the
   current page is the probe's, `rooted` whether the evidence directory could be resolved.
   */
  method ExportPhysicalEvidence(fixture: bool, e: Captured, c: Records, writeEnabled: bool, rooted: bool)
    returns (runs: Option<seq<DirtyRun>>)
    ensures runs.Some? <==>
            && fixture && !writeEnabled && rooted && AllCaptured(e) && AllRecorded(c)
            && Exportable(PagesOf(e), ProbesOf(c))
    ensures runs.Some? ==> RunsBelow(e.baseline.value, e.expectedAfter.value, PAGE_SIZE, runs.value)
  {
    if !fixture || !Complete(e) || c.baseline.None? || c.afterWrite.None? || c.afterReload.None? ||
       c.afterRollback.None? {
      return None;
    }
    if writeEnabled { return None; }
    // `Complete` has already made these four comparisons
    if e.preflight != e.baseline || e.readback != e.expectedAfter ||
       e.independentReload != e.expectedAfter || e.rollback != e.baseline {
      return None;
    }
    if c.afterRollback.value != c.baseline.value { return None; }
    if !rooted { return None; }
    var matching := AllMatch(e, c);
    if !matching { return None; }
    var exact := ExporterAccepts(e.baseline.value, e.expectedAfter.value);
    if !exact { return None; }
    var list := DirtyRuns(e.baseline.value, e.expectedAfter.value);
    return Some(list);
  }

  method AllMatch(e: Captured, c: Records) returns (ok: bool)
    ensures ok <==>
            && MatchesProbe(e.baseline, c.baseline) && MatchesProbe(e.preflight, c.baseline)
            && MatchesProbe(e.expectedAfter, c.afterWrite) && MatchesProbe(e.readback, c.afterWrite)
            && MatchesProbe(e.independentReload, c.afterReload) && MatchesProbe(e.rollback, c.afterRollback)
  {
    var m1 := PageMatchesProbeCrc(e.baseline, c.baseline);
    var m2 := PageMatchesProbeCrc(e.preflight, c.baseline);
    var m3 := PageMatchesProbeCrc(e.expectedAfter, c.afterWrite);
    var m4 := PageMatchesProbeCrc(e.readback, c.afterWrite);
    var m5 := PageMatchesProbeCrc(e.independentReload, c.afterReload);
    var m6 := PageMatchesProbeCrc(e.rollback, c.afterRollback);
    ok := m1 && m2 && m3 && m4 && m5 && m6;
  }

  /** A checksum field of the bundle; `None` when its text is not eight hexadecimal digits. */
  type Field = Option<bv32>

  ghost predicate FieldFits(field: Field, page: Page) { field.Some? ==> Crc(page) == field.value }

  ghost predicate RawPagesPass(p: Pages, before: Field, afterWrite: Field, afterRollback: Field) {
    && p.preflight == p.baseline
    && p.readback == p.expectedAfter && p.independentReload == p.expectedAfter
    && p.rollback == p.baseline
    && ExactEdit(p.baseline, p.expectedAfter)
    && FieldFits(before, p.baseline) && FieldFits(afterWrite, p.expectedAfter) && FieldFits(afterRollback, p.rollback)
  }

  method CheckField(field: Field, page: Page) returns (errors: nat)
    ensures errors == 0 <==> FieldFits(field, page)
  {
    errors := 0;
    if field.Some? {
      var crc := PageCrc32(page);
      if field.value != crc { errors := 1; }
    }
  }

  /** The validator's raw-page section: the number of errors it adds. */
  method ValidateRawPages(p: Pages, before: Field, afterWrite: Field, afterRollback: Field)
    returns (errors: nat)
    ensures errors == 0 <==> RawPagesPass(p, before, afterWrite, afterRollback)
  {
    errors := 0;
    if p.preflight != p.baseline { errors := errors + 1; }
    if p.readback != p.expectedAfter || p.independentReload != p.expectedAfter { errors := errors + 1; }
    if p.rollback != p.baseline { errors := errors + 1; }
    var exact := ValidatorAccepts(p.baseline, p.expectedAfter);
    if !exact { errors := errors + 1; }
    var e1 := CheckField(before, p.baseline);
    var e2 := CheckField(afterWrite, p.expectedAfter);
    var e3 := CheckField(afterRollback, p.rollback);
    errors := errors + e1 + e2 + e3;
  }

  /**
   With its three checksum fields present, a bundle passes exactly when the exporter would have
   written it from those checksums.
   */
  lemma PassIffExportable(p: Pages, before: bv32, afterWrite: bv32, afterRollback: bv32)
    ensures RawPagesPass(p, Some(before), Some(afterWrite), Some(afterRollback)) <==>
            Exportable(p, Probes(before, afterWrite, afterWrite, afterRollback))
  {
  }

  /**
   Every exported bundle passes the validator's page checks, lists the one run the validator
   demands, and shows probe checksums that differ exactly by the edit's constant.
   */
  lemma ExportedBundlePasses(p: Pages, c: Probes, runs: seq<DirtyRun>)
    requires Exportable(p, c) && RunsBelow(p.baseline, p.expectedAfter, PAGE_SIZE, runs)
    ensures RawPagesPass(p, Some(c.baseline), Some(c.afterWrite), Some(c.afterRollback))
    ensures runs == [DirtyRun(EDIT_OFFSET, 8)]
    ensures c.afterWrite == c.baseline ^ EditDelta() && c.afterReload == c.afterWrite
    ensures EditDelta() != 0 && c.afterRollback == c.baseline
  {
    ExactEditHasSingleRun(p.baseline, p.expectedAfter, runs);
    EditChangesCrc(p.baseline, p.expectedAfter);
  }
}
