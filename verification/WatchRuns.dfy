/** Three runs of the watch panel, from a freshly loaded table, that end where one would not expect. */
module WatchRuns {
  import opened Wrappers
  import opened WatchBatch
  import opened WatchRows

  /** Two watched values. */
  const TABLE: seq<(int, int)> := [(10, 1), (20, 2)]

  const FIRST := Entry(1, 10, 1, false)
  const SECOND := Entry(2, 20, 2, false)
  const FROZEN := Entry(1, 10, 1, true)
  const SECOND_FROZEN := Entry(2, 20, 2, true)

  lemma TableLoads()
    ensures Loaded(TABLE) == [FIRST, SECOND]
  {
  }

  // ---- a frozen entry that survives the poll of a failed batch

  const A0 := Init(TABLE).(entries := [FIRST, SECOND], rows := [FIRST, SECOND])
  const A1 := A0.(authorized := true)
  const A2 := A1.(entries := [FROZEN, SECOND], rows := [FROZEN, SECOND], h := History(true, false, false, [], 0))

  const A_OUT := Outcome(1, 0, 0, 2, [], false, false, false, false, false, [])
  const A3 := A2.(generation := 1, running := true, worker := Some(Worker(2, true, 0, false, Starting, A_OUT)),
                  h := History(false, false, false, [], 1))
  const A4 := A3.(worker := Some(Worker(2, true, 0, false, AtLoop, A_OUT.(freezeMode := true))))
  const A5 := A3.(worker := Some(Worker(2, true, 0, false, Operating, A_OUT.(freezeMode := true))))

  /** The frozen write failed: the worker failed closed and stopped. */
  const A_FAILED := Outcome(1, 0, 1, 2, [FIRST], true, false, true, true, true, [Op(0, true, false)])
  const A6 := A3.(entries := [FIRST, SECOND], worker := Some(Worker(2, true, 1, false, Tail, A_FAILED)),
                  h := History(false, false, false, [0], 1))
  const A7 := A6.(worker := Some(Worker(2, true, 1, false, Publishing, A_FAILED)))
  const A8 := A6.(worker := Some(Worker(2, true, 1, false, Finishing, A_FAILED)), outcome := Some(A_FAILED))
  const A9 := A8.(worker := Some(Worker(2, true, 1, false, Done, A_FAILED)), running := false)

  const A10 := A9.(entries := [FIRST, SECOND_FROZEN], rows := [FIRST, SECOND_FROZEN],
                   h := History(true, false, false, [0], 1))
  const A11 := A10.(worker := None, outcome := None, authorized := false)

  const REFREEZE: seq<Event> :=
    [Arm, Toggle(0, true, true, true), Tick(true), WStart, WCheck(true), WOperate(false, None, true), WTail(true),
     WPublish, WFinish, Toggle(1, true, true, true), Poll(true)]

  const REFREEZE_STATES: seq<State> := [A0, A1, A2, A3, A4, A5, A6, A7, A8, A9, A10, A11]

  lemma A1Follows() ensures Step(A0, Arm) == Some(A1) {}

  lemma A2Follows()
    ensures Step(A1, Toggle(0, true, true, true)) == Some(A2)
  {
    assert IndexOf(A1.entries, 1) == 0;
    assert A1.entries[0 := FROZEN] == [FROZEN, SECOND];
  }

  lemma A3Follows() ensures Step(A2, Tick(true)) == Some(A3) {}

  lemma A4Follows()
    ensures Step(A3, WStart) == Some(A4)
  {
    assert A3.entries[0].frozen;
  }

  lemma A5Follows() ensures Step(A4, WCheck(true)) == Some(A5) {}

  lemma A6Follows()
    ensures Step(A5, WOperate(false, None, true)) == Some(A6)
  {
    var w := A5.worker.value;
    var done := Refreshed(A5, 0, None);
    assert done.entries == [FROZEN, SECOND];
    assert Disarmed([FROZEN, SECOND]) == [FIRST, SECOND];
    assert [] + [0] == [0] && [] + [Op(0, true, false)] == [Op(0, true, false)] && [] + [FIRST] == [FIRST];
    var closed := FailClose(done, Operated(w, 0, true, false), true);
    assert closed.entries == [FIRST, SECOND];
    assert Recorded(closed.worker.value, FIRST) == A6.worker.value;
  }

  lemma A7Follows() ensures Step(A6, WTail(true)) == Some(A7) {}
  lemma A8Follows() ensures Step(A7, WPublish) == Some(A8) {}
  lemma A9Follows() ensures Step(A8, WFinish) == Some(A9) {}

  lemma A10Follows()
    ensures Step(A9, Toggle(1, true, true, true)) == Some(A10)
  {
    assert A9.rows == [FROZEN, SECOND];
    assert A9.entries[1..] == [SECOND] && IndexOf([SECOND], 2) == 0;
    assert IndexOf(A9.entries, 2) == 1;
    assert A9.entries[1 := SECOND_FROZEN] == [FIRST, SECOND_FROZEN];
  }

  lemma A11Follows() ensures Step(A10, Poll(true)) == Some(A11) {}

  lemma RefreezeFollows(i: nat)
    requires i < |REFREEZE|
    ensures Follows(REFREEZE_STATES, REFREEZE, i)
  {
    match i {
      case 0 => A1Follows();
      case 1 => A2Follows();
      case 2 => A3Follows();
      case 3 => A4Follows();
      case 4 => A5Follows();
      case 5 => A6Follows();
      case 6 => A7Follows();
      case 7 => A8Follows();
      case 8 => A9Follows();
      case 9 => A10Follows();
      case _ => A11Follows();
    }
  }

  lemma RefreezeToPoll()
    ensures Run(A0, REFREEZE[..10]) == Some(A10)
  {
    var states, es := REFREEZE_STATES[..11], REFREEZE[..10];
    forall i | 0 <= i < |es| ensures Follows(states, es, i) {
      RefreezeFollows(i);
      assert Follows(REFREEZE_STATES, REFREEZE, i);
    }
    RunAlong(states, es, 0);
    assert es[0..] == es;
  }

  /**
   The exception to failing closed is real. After the batch failed on the first entry and disarmed the
   list, its outcome still unpolled, the second entry, shown unfrozen, can be frozen; the poll then
   revokes authorization and leaves it frozen.
   */
  lemma RefrozenSurvivesPoll()
    ensures Run(Init(TABLE), REFREEZE[..10]) == Some(A10) && Step(A10, Poll(true)) == Some(A11)
    ensures Run(Init(TABLE), REFREEZE) == Some(A11)
    ensures Consumable(A10) && MetUnsafe(A10.outcome.value.ops) && A10.outcome.value.failClosed
    ensures HasFrozen(A11.entries) && HasFrozen(A11.rows) && !A11.authorized
  {
    TableLoads();
    forall i | 0 <= i < |REFREEZE| ensures Follows(REFREEZE_STATES, REFREEZE, i) { RefreezeFollows(i); }
    RunAlong(REFREEZE_STATES, REFREEZE, 0);
    assert REFREEZE[0..] == REFREEZE;
    RefreezeToPoll();
    A11Follows();
    assert Unsafe(A_FAILED.ops[0]);
    assert A11.entries[1].frozen;
  }

  // ---- a finished batch, not polled

  const FIRST_READ := Entry(1, 10, 5, false)
  const SECOND_READ := Entry(2, 20, 6, false)

  const HALF := A_OUT.(completed := 1, rows := [FIRST_READ], ops := [Op(0, false, true)])
  const WHOLE := A_OUT.(completed := 2, rows := [FIRST_READ, SECOND_READ],
                        ops := [Op(0, false, true), Op(1, false, true)])

  const B1 := A0.(generation := 1, running := true, worker := Some(Worker(2, false, 0, false, Starting, A_OUT)),
                  h := History(false, false, false, [], 1))
  const B2 := B1.(worker := Some(Worker(2, false, 0, false, AtLoop, A_OUT)))
  const B3 := B1.(worker := Some(Worker(2, false, 0, false, Operating, A_OUT)))
  const B4 := B1.(entries := [FIRST_READ, SECOND], worker := Some(Worker(2, false, 1, false, AtLoop, HALF)),
                  h := History(false, false, false, [0], 1))
  const B5 := B4.(worker := Some(Worker(2, false, 1, false, Operating, HALF)))
  const B6 := B1.(entries := [FIRST_READ, SECOND_READ], worker := Some(Worker(2, false, 2, false, AtLoop, WHOLE)),
                  h := History(false, false, false, [0, 1], 1))
  const B7 := B6.(worker := Some(Worker(2, false, 2, false, Tail, WHOLE)))
  const B8 := B6.(worker := Some(Worker(2, false, 2, false, Publishing, WHOLE)))
  const B9 := B6.(worker := Some(Worker(2, false, 2, false, Finishing, WHOLE)), outcome := Some(WHOLE))
  const B10 := B9.(worker := Some(Worker(2, false, 2, false, Done, WHOLE)), running := false)

  const BATCH: seq<Event> :=
    [Tick(true), WStart, WCheck(true), WOperate(true, Some(5), true), WCheck(true), WOperate(true, Some(6), true),
     WCheck(true), WTail(true), WPublish, WFinish]

  const BATCH_STATES: seq<State> := [A0, B1, B2, B3, B4, B5, B6, B7, B8, B9, B10]

  lemma B1Follows() ensures Step(A0, Tick(true)) == Some(B1) {}

  lemma B2Follows()
    ensures Step(B1, WStart) == Some(B2)
  {
  }

  lemma B3Follows() ensures Step(B2, WCheck(true)) == Some(B3) {}

  lemma B4Follows()
    ensures Step(B3, WOperate(true, Some(5), true)) == Some(B4)
  {
    var done := Refreshed(B3, 0, Some(5));
    assert done.entries == [FIRST_READ, SECOND];
    assert [] + [0] == [0] && [] + [Op(0, false, true)] == [Op(0, false, true)] && [] + [FIRST_READ] == [FIRST_READ];
    assert Recorded(Operated(B3.worker.value, 0, false, true), FIRST_READ) == B4.worker.value;
  }

  lemma B5Follows() ensures Step(B4, WCheck(true)) == Some(B5) {}

  lemma B6Follows()
    ensures Step(B5, WOperate(true, Some(6), true)) == Some(B6)
  {
    var done := Refreshed(B5, 1, Some(6));
    assert done.entries == [FIRST_READ, SECOND_READ];
    assert [0] + [1] == [0, 1];
    assert HALF.ops + [Op(1, false, true)] == WHOLE.ops && HALF.rows + [SECOND_READ] == WHOLE.rows;
    assert Recorded(Operated(B5.worker.value, 1, false, true), SECOND_READ) == B6.worker.value;
  }

  lemma B7Follows() ensures Step(B6, WCheck(true)) == Some(B7) {}
  lemma B8Follows() ensures Step(B7, WTail(true)) == Some(B8) {}
  lemma B9Follows() ensures Step(B8, WPublish) == Some(B9) {}
  lemma B10Follows() ensures Step(B9, WFinish) == Some(B10) {}

  lemma BatchFollows(i: nat)
    requires i < |BATCH|
    ensures Follows(BATCH_STATES, BATCH, i)
  {
    match i {
      case 0 => B1Follows();
      case 1 => B2Follows();
      case 2 => B3Follows();
      case 3 => B4Follows();
      case 4 => B5Follows();
      case 5 => B6Follows();
      case 6 => B7Follows();
      case 7 => B8Follows();
      case 8 => B9Follows();
      case _ => B10Follows();
    }
  }

  lemma BatchRuns()
    ensures Run(Init(TABLE), BATCH) == Some(B10)
  {
    TableLoads();
    forall i | 0 <= i < |BATCH| ensures Follows(BATCH_STATES, BATCH, i) { BatchFollows(i); }
    RunAlong(BATCH_STATES, BATCH, 0);
    assert BATCH[0..] == BATCH;
  }

  /** A due tick then starts over: the same two entries again, and the finished outcome is out of date. */
  lemma FinishedBatchRepeats()
    ensures Run(Init(TABLE), BATCH) == Some(B10) && Consumable(B10)
    ensures Step(B10, Tick(true)).Some?
    ensures var t := Step(B10, Tick(true)).value;
            && t.worker.Some? && t.worker.value.out.begin == 0 && t.worker.value.count == 2
            && t.outcome == Some(WHOLE) && t.outcome.value.generation < t.generation
  {
    BatchRuns();
  }

  /**
   An entry removed before the poll comes back: the poll copies its row over the entry that moved up,
   so the removed entry is shown and the listed one is not.
   */
  lemma RemovedEntryReappears()
    ensures Run(Init(TABLE), BATCH) == Some(B10)
    ensures Run(B10, [Remove(0), Poll(true)]).Some?
    ensures var t := Run(B10, [Remove(0), Poll(true)]).value;
            t.entries == [SECOND_READ] && t.rows == [FIRST_READ] && !Aligned(t.rows, t.entries)
  {
    BatchRuns();
    var c1 := B10.(entries := [SECOND_READ], rows := [SECOND_READ], h := History(false, true, false, [0, 1], 1));
    var c2 := c1.(rows := [FIRST_READ], worker := None, outcome := None, h := History(false, true, true, [0, 1], 1));
    RemoveFollows(c1);
    PollFollows(c1, c2);
    assert Run(c1, [Poll(true)]) == Some(c2);
    assert [Remove(0), Poll(true)][1..] == [Poll(true)];
    assert Run(B10, [Remove(0), Poll(true)]) == Some(c2);
    assert !SameEntry(c2.rows[0], c2.entries[0]);
  }

  lemma RemoveFollows(c1: State)
    requires c1 == B10.(entries := [SECOND_READ], rows := [SECOND_READ], h := History(false, true, false, [0, 1], 1))
    ensures Step(B10, Remove(0)) == Some(c1)
  {
    assert B10.rows == [FIRST, SECOND] && IndexOf(B10.entries, 1) == 0;
    assert B10.entries[..0] + B10.entries[1..] == [SECOND_READ];
  }

  lemma PollFollows(c1: State, c2: State)
    requires c1 == B10.(entries := [SECOND_READ], rows := [SECOND_READ], h := History(false, true, false, [0, 1], 1))
    requires c2 == c1.(rows := [FIRST_READ], worker := None, outcome := None,
                       h := History(false, true, true, [0, 1], 1))
    ensures Step(c1, Poll(true)) == Some(c2)
  {
    assert Merge(c1.rows, 0, WHOLE.rows) == [FIRST_READ];
  }
}
