/** Error diffusion of the exhausted pool (scripts/seed-demo/scenario.ts, `poolTimesOut`): every
    incident call adds to a debt, and a call fails whenever the debt reaches one. */
module PoolDebt {
  import opened Sums

  /** What an incident call adds: 0.11 of the slow wave, scaled by a uniform draw. */
  function Increment(wave: real, draw: real): real { 0.11 * wave * (0.5 + draw) }

  /** The wave swings by 15%, the draw is uniform on [0, 1). */
  predicate InRange(wave: real, draw: real) { 0.85 <= wave <= 1.15 && 0.0 <= draw < 1.0 }

  const LEAST := 0.04675
  const MOST := 0.18975

  lemma IncrementBounds(wave: real, draw: real)
    requires InRange(wave, draw)
    ensures LEAST <= Increment(wave, draw) < MOST
  {
    var half := 0.5 + draw;
    assert 0.85 * half <= wave * half <= 1.15 * half;
  }

  /** The debt left after a run of increments. */
  function Debt(start: real, steps: seq<real>): real {
    if steps == [] then start else Pay(Debt(start, steps[..|steps| - 1]) + steps[|steps| - 1])
  }

  function Pay(debt: real): real { if debt < 1.0 then debt else debt - 1.0 }

  /** Whether the call after `steps` that adds `next` fails. */
  predicate FailsNext(start: real, steps: seq<real>, next: real) { Debt(start, steps) + next >= 1.0 }

  function Failures(start: real, steps: seq<real>): nat {
    if steps == [] then 0 else
    var front, last := steps[..|steps| - 1], steps[|steps| - 1];
    Failures(start, front) + (if FailsNext(start, front, last) then 1 else 0)
  }

  predicate IsStep(x: real) { LEAST <= x < MOST }

  ghost predicate Steps(steps: seq<real>) { forall x :: x in steps ==> IsStep(x) }

  lemma StepsFront(steps: seq<real>)
    requires Steps(steps) && steps != []
    ensures Steps(steps[..|steps| - 1]) && IsStep(steps[|steps| - 1])
  {
    assert steps[|steps| - 1] in steps;
    forall x | x in steps[..|steps| - 1] ensures IsStep(x) { assert x in steps; }
  }

  /** The module's variable, and the rule that updates it. */
  class Pool {
    var debt: real
    ghost var steps: seq<real>

    ghost predicate Valid()
      reads this
    {
      Steps(steps) && debt == Debt(0.0, steps)
    }

    constructor ()
      ensures Valid() && steps == []
    {
      debt, steps := 0.0, [];
    }

    method TimesOut(incident: bool, wave: real, draw: real) returns (fails: bool)
      requires Valid() && InRange(wave, draw)
      modifies this
      ensures Valid()
      ensures !incident ==> !fails && steps == old(steps)
      ensures incident ==> steps == old(steps) + [0.11 * wave * (0.5 + draw)]
      ensures fails <==> incident && FailsNext(0.0, old(steps), Increment(wave, draw))
    {
      hide InRange;
      if !incident { return false; }
      IncrementBounds(wave, draw);
      ghost var after := steps + [Increment(wave, draw)];
      assert after[..|steps|] == steps;
      steps := after;
      debt := debt + Increment(wave, draw);
      if debt < 1.0 { return false; }
      debt := debt - 1.0;
      fails := true;
    }
  }

  /** The debt stays in [0, 1), and what it lost is what was paid by failures. */
  lemma {:induction false} DebtIsBounded(start: real, steps: seq<real>)
    requires Steps(steps) && 0.0 <= start < 1.0
    ensures 0.0 <= Debt(start, steps) < 1.0
    ensures Debt(start, steps) == start + Sum(steps, Self) - Failures(start, steps) as real
  {
    if steps != [] {
      StepsFront(steps);
      DebtIsBounded(start, steps[..|steps| - 1]);
    }
  }

  /** After any number of incident calls the failures are the whole part of all increments. */
  lemma FailuresAreWholePart(steps: seq<real>)
    requires Steps(steps)
    ensures Failures(0.0, steps) == Sum(steps, Self).Floor
  {
    DebtIsBounded(0.0, steps);
  }

  lemma {:induction false} SumBounds(steps: seq<real>)
    requires Steps(steps)
    ensures |steps| as real * LEAST <= Sum(steps, Self) <= |steps| as real * MOST
    ensures steps != [] ==> Sum(steps, Self) < |steps| as real * MOST
  {
    if steps != [] {
      StepsFront(steps);
      SumBounds(steps[..|steps| - 1]);
    }
  }

  /** Right after a failure the debt is less than the increment that caused it. */
  lemma DebtAfterFailure(start: real, steps: seq<real>, next: real)
    requires Steps(steps + [next]) && 0.0 <= start < 1.0 && FailsNext(start, steps, next)
    ensures 0.0 <= Debt(start, steps + [next]) < MOST
  {
    assert (steps + [next])[..|steps|] == steps;
    assert next in steps + [next];
    forall x | x in steps ensures IsStep(x) { assert x in steps + [next]; }
    DebtIsBounded(start, steps);
  }

  lemma {:induction false} NoFailureBetween(start: real, steps: seq<real>)
    requires Steps(steps) && 0.0 <= start < 1.0 && Failures(start, steps) == 0
    ensures Debt(start, steps) == start + Sum(steps, Self)
  {
    DebtIsBounded(start, steps);
  }

  /** Consecutive failures are between 5 and 22 calls apart: `before` ends in a failure, and so does
      `between + [next]`, with no failure in between. */
  lemma FailuresAreSpaced(before: seq<real>, cause: real, between: seq<real>, next: real)
    requires Steps(before + [cause]) && Steps(between + [next])
    requires FailsNext(0.0, before, cause)
    requires
      var debt := Debt(0.0, before + [cause]);
      Failures(debt, between) == 0 && FailsNext(debt, between, next)
    ensures 5 <= |between + [next]| <= 22
  {
    var debt := Debt(0.0, before + [cause]);
    DebtAfterFailure(0.0, before, cause);
    assert next in between + [next];
    forall x | x in between ensures IsStep(x) { assert x in between + [next]; }
    NoFailureBetween(debt, between);
    SumBounds(between);
    DebtIsBounded(debt, between);
  }
}
