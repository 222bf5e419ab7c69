/**
 The compare-and-swap maximum: any number of threads raise one shared counter to their candidates.
 An event is one atomic access of one thread; the weak exchange may fail spuriously.
 */
module CasMax {

  datatype Pc = Start | Holding(current: nat) | Finished

  datatype Thread = Thread(candidate: nat, pc: Pc)

  datatype State = State(destination: nat, threads: seq<Thread>)

  datatype Event = Load(t: nat) | Exchange(t: nat, spurious: bool)

  function At(s: State, t: nat, pc: Pc): State
    requires t < |s.threads|
  {
    s.(threads := s.threads[t := s.threads[t].(pc := pc)])
  }

  /** A step of a thread that cannot take it leaves everything as it is. */
  function Step(s: State, e: Event): State {
    if e.t >= |s.threads| then s
    else
      var w := s.threads[e.t];
      match e
      case Load(t) => if w.pc.Start? then At(s, t, Holding(s.destination)) else s
      case Exchange(t, spurious) =>
        if !w.pc.Holding? then s
        else if w.pc.current >= w.candidate then At(s, t, Finished)
        else if s.destination == w.pc.current && !spurious then At(s, t, Finished).(destination := w.candidate)
        else At(s, t, Holding(s.destination))
  }

  function Run(s: State, es: seq<Event>): State
    decreases |es|
  {
    if es == [] then s else Run(Step(s, es[0]), es[1..])
  }

  function Initial(value: nat, candidates: seq<nat>): State {
    State(value, seq(|candidates|, i requires 0 <= i < |candidates| => Thread(candidates[i], Start)))
  }

  ghost predicate Inv(s: State, value: nat, candidates: seq<nat>) {
    && |s.threads| == |candidates|
    && value <= s.destination && (s.destination == value || s.destination in candidates)
    && forall i | 0 <= i < |s.threads| ::
         && s.threads[i].candidate == candidates[i]
         && (s.threads[i].pc.Holding? ==> s.threads[i].pc.current <= s.destination)
         && (s.threads[i].pc.Finished? ==> candidates[i] <= s.destination)
  }

  lemma StepKeeps(s: State, e: Event, value: nat, candidates: seq<nat>)
    requires Inv(s, value, candidates)
    ensures Inv(Step(s, e), value, candidates)
    ensures s.destination <= Step(s, e).destination
  {
    if e.t < |s.threads| { assert candidates[e.t] in candidates; }
  }

  lemma {:induction false} RunKeeps(s: State, es: seq<Event>, value: nat, candidates: seq<nat>)
    requires Inv(s, value, candidates)
    ensures Inv(Run(s, es), value, candidates)
    ensures s.destination <= Run(s, es).destination
    decreases |es|
  {
    if es != [] {
      StepKeeps(s, es[0], value, candidates);
      RunKeeps(Step(s, es[0]), es[1..], value, candidates);
    }
  }

  predicate AllFinished(s: State) { forall i | 0 <= i < |s.threads| :: s.threads[i].pc.Finished? }

  ghost predicate IsMaximum(m: nat, value: nat, candidates: seq<nat>) {
    && (m == value || m in candidates)
    && value <= m && forall i | 0 <= i < |candidates| :: candidates[i] <= m
  }

  /** In every interleaving the counter never decreases and only ever holds a value somebody brought. */
  lemma NeverDecreases(value: nat, candidates: seq<nat>, es: seq<Event>, more: seq<Event>)
    ensures var s := Run(Initial(value, candidates), es);
            && (s.destination == value || s.destination in candidates)
            && s.destination <= Run(s, more).destination
  {
    RunKeeps(Initial(value, candidates), es, value, candidates);
    RunKeeps(Run(Initial(value, candidates), es), more, value, candidates);
  }

  /** When every thread has finished, the counter is the maximum of its initial value and all candidates. */
  lemma EndsAtMaximum(value: nat, candidates: seq<nat>, es: seq<Event>)
    requires AllFinished(Run(Initial(value, candidates), es))
    ensures IsMaximum(Run(Initial(value, candidates), es).destination, value, candidates)
  {
    RunKeeps(Initial(value, candidates), es, value, candidates);
  }

  /** A thread that runs undisturbed, without spurious failures, finishes in three accesses. */
  lemma RunsToCompletion(s: State, t: nat)
    requires t < |s.threads|
    ensures var after := Run(s, [Load(t), Exchange(t, false), Exchange(t, false)]);
            t < |after.threads| && after.threads[t].pc.Finished?
  {
    var s1 := Step(s, Load(t));
    var s2 := Step(s1, Exchange(t, false));
    var s3 := Step(s2, Exchange(t, false));
    assert [Load(t), Exchange(t, false), Exchange(t, false)][1..] == [Exchange(t, false), Exchange(t, false)];
    assert [Exchange(t, false), Exchange(t, false)][1..] == [Exchange(t, false)];
    assert [Exchange(t, false)][1..] == [];
    assert Run(s2, [Exchange(t, false)]) == s3;
    assert Run(s1, [Exchange(t, false), Exchange(t, false)]) == s3;
  }
}
