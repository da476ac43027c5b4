/**
 The lock-free bound on concurrent password verifications, as a machine whose steps are the atomic
 operations of any number of interleaved calls.
 */
module VerifyLimiters {
  import opened Bytes

  /** Where one call stands. `Looping` carries the counter value the call last read. */
  datatype Phase =
    | Looping(seen: u64)
    | Holding
    | Unbounded
    | Refused
    | Released

  datatype State = State(max: u64, inFlight: u64, calls: map<nat, Phase>)

  /** `Attempt` is the weak exchange: `spurious` lets it fail although the counter matches. */
  datatype Step =
    | Begin(id: nat)
    | Attempt(id: nat, spurious: bool)
    | GiveUp(id: nat)
    | Release(id: nat)

  function Initial(max: u64): State {
    State(max, 0, map[])
  }

  predicate In(s: State, id: nat, p: Phase) {
    id in s.calls && s.calls[id] == p
  }

  predicate IsLooping(s: State, id: nat) {
    id in s.calls && s.calls[id].Looping?
  }

  predicate Enabled(s: State, step: Step) {
    match step
    case Begin(id) => id !in s.calls
    case Attempt(id, _) => IsLooping(s, id) && s.calls[id].seen < s.max
    case GiveUp(id) => IsLooping(s, id) && s.calls[id].seen >= s.max
    case Release(id) => In(s, id, Holding) || In(s, id, Unbounded)
  }

  /** One up or one down in a 64-bit word, wrapping round at either end. */
  function Up(n: u64): u64 {
    if n == 0xFFFF_FFFF_FFFF_FFFF then 0 else n + 1
  }

  function Down(n: u64): u64 {
    if n == 0 then 0xFFFF_FFFF_FFFF_FFFF else n - 1
  }

  function Apply(s: State, step: Step): State
    requires Enabled(s, step)
  {
    match step
    case Begin(id) =>
      s.(calls := s.calls[id := if s.max == 0 then Unbounded else Looping(s.inFlight)])
    case Attempt(id, spurious) =>
      if s.inFlight == s.calls[id].seen && !spurious then
        s.(inFlight := Up(s.inFlight), calls := s.calls[id := Holding])
      else
        s.(calls := s.calls[id := Looping(s.inFlight)])
    case GiveUp(id) =>
      s.(calls := s.calls[id := Refused])
    case Release(id) =>
      if s.calls[id] == Holding then
        s.(inFlight := Down(s.inFlight), calls := s.calls[id := Released])
      else
        s.(calls := s.calls[id := Released])
  }

  /** A schedule every step of which can be taken when its turn comes. */
  predicate Legal(max: u64, steps: seq<Step>)
    decreases steps, 0
  {
    steps == [] || (
      && Legal(max, steps[..|steps| - 1])
      && Enabled(After(max, steps[..|steps| - 1]), steps[|steps| - 1]))
  }

  function After(max: u64, steps: seq<Step>): State
    requires Legal(max, steps)
    decreases steps, 1
  {
    if steps == [] then Initial(max)
    else Apply(After(max, steps[..|steps| - 1]), steps[|steps| - 1])
  }

  /** The permits now alive that occupy a slot. */
  function Holders(s: State): set<nat> {
    set id | id in s.calls && s.calls[id] == Holding
  }

  /** Only a limiter without a bound hands out permits that hold no slot. */
  ghost predicate Matched(s: State) {
    && (s.max == 0 ==> forall id | id in s.calls :: s.calls[id].Unbounded? || s.calls[id].Released?)
    && (s.max > 0 ==> forall id | id in s.calls :: !s.calls[id].Unbounded?)
  }

  ghost predicate Consistent(s: State) {
    |Holders(s)| == s.inFlight <= s.max && Matched(s)
  }

  lemma StepMatched(s: State, step: Step)
    requires Matched(s) && Enabled(s, step)
    ensures Matched(Apply(s, step))
  {
  }

  lemma HoldersChange(s: State, step: Step)
    requires Enabled(s, step)
    ensures var t := Apply(s, step);
            Holders(t) == if In(t, step.id, Holding) then Holders(s) + {step.id} else Holders(s) - {step.id}
  {
  }

  /** A step keeps the books, and a release always finds a slot to give back. */
  lemma StepConsistent(s: State, step: Step)
    requires Consistent(s) && Enabled(s, step)
    ensures Consistent(Apply(s, step))
    ensures step.Release? && In(s, step.id, Holding) ==> s.inFlight >= 1
  {
    StepMatched(s, step);
    HoldersChange(s, step);
    assert In(s, step.id, Holding) <==> step.id in Holders(s);
    hide Holders;
    assert In(s, step.id, Holding) ==> s.max > 0;
    assert step.Begin? && In(Apply(s, step), step.id, Holding) ==> false;
    var t := Apply(s, step);
    if In(s, step.id, Holding) {
      assert s.inFlight >= 1;
      assert |Holders(s) - {step.id}| == |Holders(s)| - 1;
    } else if In(t, step.id, Holding) {
      assert |Holders(s) + {step.id}| == |Holders(s)| + 1;
    } else {
      assert Holders(s) - {step.id} == Holders(s);
    }
  }

  /**
   Over every interleaving, the counter is exactly the number of live slot-holding permits and
   never exceeds the bound; it is back at zero once they are all gone.
   */
  lemma {:induction false} CounterIsExact(max: u64, steps: seq<Step>)
    requires Legal(max, steps)
    ensures After(max, steps).max == max
    ensures Consistent(After(max, steps))
  {
    if steps != [] {
      CounterIsExact(max, steps[..|steps| - 1]);
      StepConsistent(After(max, steps[..|steps| - 1]), steps[|steps| - 1]);
    } else {
      assert Holders(Initial(max)) == {};
    }
  }

  // ---- Every answer is justified at a moment within its call -----------------------------------

  /** The call was still undecided after `k` steps, and the counter read `n` there. */
  ghost predicate Witnessed(max: u64, steps: seq<Step>, k: nat, id: nat, n: nat) {
    && k <= |steps|
    && Legal(max, steps[..k])
    && IsLooping(After(max, steps[..k]), id)
    && After(max, steps[..k]).inFlight == n
  }

  lemma Extend(max: u64, steps: seq<Step>, step: Step, k: nat, id: nat, n: nat)
    requires Witnessed(max, steps, k, id, n)
    ensures Witnessed(max, steps + [step], k, id, n)
  {
    assert (steps + [step])[..k] == steps[..k];
  }

  /** What an undecided call last read was the true counter at some moment of the call. */
  lemma {:induction false} ReadingIsGenuine(max: u64, steps: seq<Step>, id: nat) returns (k: nat)
    requires Legal(max, steps) && IsLooping(After(max, steps), id)
    ensures Witnessed(max, steps, k, id, After(max, steps).calls[id].seen)
  {
    var init, step := steps[..|steps| - 1], steps[|steps| - 1];
    assert steps == init + [step];
    if step.id == id {
      k := |steps|;
      assert steps[..k] == steps;
    } else {
      k := ReadingIsGenuine(max, init, id);
      Extend(max, init, step, k, id, After(max, steps).calls[id].seen);
    }
  }

  /** No refusal without cause: a refused call saw the bound reached at some moment of the call. */
  lemma {:induction false} RefusalIsJustified(max: u64, steps: seq<Step>, id: nat) returns (k: nat, n: nat)
    requires Legal(max, steps) && In(After(max, steps), id, Refused)
    ensures n >= max && Witnessed(max, steps, k, id, n)
  {
    var init, step := steps[..|steps| - 1], steps[|steps| - 1];
    assert steps == init + [step];
    CounterIsExact(max, init);
    if step.id == id {
      k := ReadingIsGenuine(max, init, id);
      n := After(max, init).calls[id].seen;
    } else {
      k, n := RefusalIsJustified(max, init, id);
    }
    Extend(max, init, step, k, id, n);
  }

  /** No admission without room: a slot is taken at a moment when the counter is below the bound. */
  lemma {:induction false} AdmissionIsJustified(max: u64, steps: seq<Step>, id: nat) returns (k: nat, n: nat)
    requires Legal(max, steps) && In(After(max, steps), id, Holding)
    ensures n < max && Witnessed(max, steps, k, id, n)
    ensures k < |steps| && Legal(max, steps[..k + 1])
         && In(After(max, steps[..k + 1]), id, Holding) && After(max, steps[..k + 1]).inFlight == n + 1
  {
    var init, step := steps[..|steps| - 1], steps[|steps| - 1];
    assert steps == init + [step];
    CounterIsExact(max, init);
    if step.id == id {
      k, n := |init|, After(max, init).inFlight;
      assert init[..k] == init && steps[..k + 1] == steps;
    } else {
      k, n := AdmissionIsJustified(max, init, id);
      assert steps[..k + 1] == init[..k + 1];
    }
    Extend(max, init, step, k, id, n);
  }
}
