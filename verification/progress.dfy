/**
 The completion tracker (App.tsx): a set of completed milestone ids with a
 membership toggle, the active phase's percentage and the header's total
 percentage. `Math.round` on the floating-point ratio is modelled as exact
 round-half-up on integers; `NaN` (a phase without milestones) is None.
 */
module Progress {
  import opened Wrappers
  import opened Types
  import opened Roadmap

  /** The denominator the header's total completion is divided by. */
  const TOTAL_MILESTONES: nat := 9

  /** Adds `id` if absent, removes it if present. */
  function Toggle(done: set<string>, id: string): (r: set<string>)
    ensures id in r <==> id !in done
    ensures forall x | x != id :: x in r <==> x in done
  {
    if id in done then done - {id} else done + {id}
  }

  /** Toggling the same id twice restores the set. */
  lemma ToggleInvolution(done: set<string>, id: string)
    ensures Toggle(Toggle(done, id), id) == done
  {
  }

  /** `Math.round(num / den * 100)` computed exactly: the nearest integer to
      100·num/den, halves rounded up. */
  function RoundPercent(num: nat, den: nat): (r: nat)
    requires den > 0
    ensures 2 * den * r <= 200 * num + den < 2 * den * (r + 1)
  {
    var a, b := 200 * num + den, 2 * den;
    assert a == (a / b) * b + a % b;
    a / b
  }

  lemma MulMonotone(k: int, a: int, b: int)
    requires k > 0 && a <= b
    ensures k * a <= k * b
  {
  }

  /** A positive factor can be cancelled from a strict inequality. */
  lemma MulCancel(k: int, a: int, b: int)
    requires k > 0
    ensures k * a < k * b ==> a < b
  {
    if a >= b {
      MulMonotone(k, b, a);
    }
  }

  /** Rounding never lowers a percentage as the numerator grows. */
  lemma RoundPercentMonotone(n1: nat, n2: nat, den: nat)
    requires den > 0 && n1 <= n2
    ensures RoundPercent(n1, den) <= RoundPercent(n2, den)
  {
    var r1, r2 := RoundPercent(n1, den), RoundPercent(n2, den);
    MulCancel(2 * den, r1, r2 + 1);
  }

  /** A fraction in [0, 1] rounds to a percentage in [0, 100]; it is 0 exactly
      when the numerator is 0 and 100 exactly when it equals the denominator,
      as long as the denominator is below 200. */
  lemma RoundPercentRange(num: nat, den: nat)
    requires 0 < den && num <= den
    ensures RoundPercent(num, den) <= 100
    ensures num == 0 ==> RoundPercent(num, den) == 0
    ensures num == den ==> RoundPercent(num, den) == 100
    ensures den < 200 ==> (RoundPercent(num, den) == 0 <==> num == 0)
    ensures den < 200 ==> (RoundPercent(num, den) == 100 <==> num == den)
  {
    var r := RoundPercent(num, den);
    var k := 2 * den;
    assert 200 * num <= 200 * den;
    MulCancel(k, r, 101);
    MulCancel(k, 100, r + 1);
    MulCancel(k, r, 1);
    MulCancel(200, den - num, 1);
    MulCancel(200, num, 1);
  }

  /** `phase.milestones.filter(m => completed.has(m.id)).length`. */
  function CountCompleted(ms: seq<Milestone>, done: set<string>): (c: nat)
    ensures c <= |ms|
  {
    if |ms| == 0 then 0
    else (if ms[0].id in done then 1 else 0) + CountCompleted(ms[1..], done)
  }

  /** All milestones counted exactly when every id is in the set; none
      counted exactly when no id is. */
  lemma {:induction false} CountCompletedExtremes(ms: seq<Milestone>, done: set<string>)
    ensures CountCompleted(ms, done) == |ms| <==> forall i | 0 <= i < |ms| :: ms[i].id in done
    ensures CountCompleted(ms, done) == 0 <==> forall i | 0 <= i < |ms| :: ms[i].id !in done
  {
    if |ms| > 0 {
      CountCompletedExtremes(ms[1..], done);
      assert forall i | 1 <= i < |ms| :: ms[i] == ms[1..][i - 1];
    }
  }

  /** Completing more ids never lowers the count. */
  lemma {:induction false} CountCompletedMonotone(ms: seq<Milestone>, d1: set<string>, d2: set<string>)
    requires d1 <= d2
    ensures CountCompleted(ms, d1) <= CountCompleted(ms, d2)
  {
    if |ms| > 0 {
      CountCompletedMonotone(ms[1..], d1, d2);
    }
  }

  /** Peeling the first milestone off a list with distinct ids leaves a list
      with distinct ids that does not contain the first id. */
  lemma DistinctIdsTail(ms: seq<Milestone>)
    requires |ms| > 0 && Distinct(MilestoneIds(ms))
    ensures Distinct(MilestoneIds(ms[1..]))
    ensures ms[0].id !in (set m | m in ms[1..] :: m.id)
  {
    var rest := ms[1..];
    forall i, j | 0 <= i < j < |rest|
      ensures MilestoneIds(rest)[i] != MilestoneIds(rest)[j]
    {
      assert MilestoneIds(ms)[i + 1] != MilestoneIds(ms)[j + 1];
    }
    forall k | 0 <= k < |rest| ensures rest[k].id != ms[0].id {
      assert MilestoneIds(ms)[0] != MilestoneIds(ms)[k + 1];
    }
  }

  /** With distinct ids, the count is the size of the set's overlap with the phase. */
  lemma {:induction false} CountCompletedIsOverlap(ms: seq<Milestone>, done: set<string>)
    requires Distinct(MilestoneIds(ms))
    ensures CountCompleted(ms, done) == |done * (set m | m in ms :: m.id)|
  {
    if |ms| > 0 {
      DistinctIdsTail(ms);
      CountCompletedIsOverlap(ms[1..], done);
      IdSetOfCons(ms);
      OverlapOfInsert(done, ms[0].id, set m | m in ms[1..] :: m.id);
    }
  }

  lemma IdSetOfCons(ms: seq<Milestone>)
    requires |ms| > 0
    ensures (set m | m in ms :: m.id) == {ms[0].id} + (set m | m in ms[1..] :: m.id)
  {
    assert ms == [ms[0]] + ms[1..];
  }

  lemma OverlapOfInsert(done: set<string>, x: string, rest: set<string>)
    requires x !in rest
    ensures |done * ({x} + rest)| == (if x in done then 1 else 0) + |done * rest|
  {
    if x in done {
      assert done * ({x} + rest) == {x} + done * rest;
    } else {
      assert done * ({x} + rest) == done * rest;
    }
  }

  /** `calculateProgress(phase)`; None stands for the NaN of 0 / 0. */
  function CalculateProgress(phase: Phase, done: set<string>): (r: Option<nat>)
    ensures r.None? <==> |phase.milestones| == 0
    ensures r.Some? ==> r.value <= 100
  {
    var total := |phase.milestones|;
    if total == 0 then None
    else
      var completed := CountCompleted(phase.milestones, done);
      RoundPercentRange(completed, total);
      Some(RoundPercent(completed, total))
  }

  /** With distinct ids, a phase's percentage is the rounded share of its ids
      that are in the completed set. */
  lemma ProgressIsOverlapShare(phase: Phase, done: set<string>)
    requires 0 < |phase.milestones| && Distinct(MilestoneIds(phase.milestones))
    ensures CalculateProgress(phase, done)
         == Some(RoundPercent(|done * (set m | m in phase.milestones :: m.id)|, |phase.milestones|))
  {
    CountCompletedIsOverlap(phase.milestones, done);
  }

  /** A phase with milestones is at 0% when none is completed and at 100% when
      all are; with fewer than 200 milestones only then (from 200 on, one
      completed milestone can round down to 0%). */
  lemma ProgressExtremes(phase: Phase, done: set<string>)
    requires 0 < |phase.milestones|
    ensures (forall i | 0 <= i < |phase.milestones| :: phase.milestones[i].id !in done) ==>
              CalculateProgress(phase, done) == Some(0)
    ensures (forall i | 0 <= i < |phase.milestones| :: phase.milestones[i].id in done) ==>
              CalculateProgress(phase, done) == Some(100)
    ensures |phase.milestones| < 200 ==>
              (CalculateProgress(phase, done) == Some(0) <==>
                 forall i | 0 <= i < |phase.milestones| :: phase.milestones[i].id !in done)
    ensures |phase.milestones| < 200 ==>
              (CalculateProgress(phase, done) == Some(100) <==>
                 forall i | 0 <= i < |phase.milestones| :: phase.milestones[i].id in done)
  {
    var ms := phase.milestones;
    CountCompletedExtremes(ms, done);
    RoundPercentRange(CountCompleted(ms, done), |ms|);
  }

  /** Completing more milestones never lowers a phase's percentage. */
  lemma ProgressMonotone(phase: Phase, d1: set<string>, d2: set<string>)
    requires 0 < |phase.milestones| && d1 <= d2
    ensures CalculateProgress(phase, d1).value <= CalculateProgress(phase, d2).value
  {
    var ms := phase.milestones;
    CountCompletedMonotone(ms, d1, d2);
    RoundPercentMonotone(CountCompleted(ms, d1), CountCompleted(ms, d2), |ms|);
  }

  /** A three-milestone phase only ever shows 0, 33, 67 or 100. */
  lemma ThreeMilestoneProgress(phase: Phase, done: set<string>)
    requires |phase.milestones| == 3
    ensures CalculateProgress(phase, done).value in {0, 33, 67, 100}
  {
    var c := CountCompleted(phase.milestones, done);
    assert c == 0 || c == 1 || c == 2 || c == 3;
    assert RoundPercent(0, 3) == 0;
    assert RoundPercent(1, 3) == 33;
    assert RoundPercent(2, 3) == 67;
    assert RoundPercent(3, 3) == 100;
  }

  /** The header's `Math.round((completed.size / 9) * 100)`: the whole percent
      nearest to |done| out of nine, halves rounded up. */
  function TotalCompletion(done: set<string>): (r: nat)
    ensures 2 * TOTAL_MILESTONES * r <= 200 * |done| + TOTAL_MILESTONES < 2 * TOTAL_MILESTONES * (r + 1)
  {
    RoundPercent(|done|, TOTAL_MILESTONES)
  }

  /** The hard-coded 9 is the number of milestones the table ships. */
  lemma TotalDenominatorMatchesTable()
    ensures TOTAL_MILESTONES == TotalMilestones(RoadmapData) == |ShippedMilestoneIds()|
  {
    RoadmapShape();
    ShippedMilestoneIdCount();
  }

  /** With only shipped ids completed, the total lies in [0, 100] and is 100
      exactly when every shipped milestone is completed. */
  lemma TotalCompletionBounded(done: set<string>)
    requires done <= ShippedMilestoneIds()
    ensures TotalCompletion(done) <= 100
    ensures TotalCompletion(done) == 100 <==> done == ShippedMilestoneIds()
  {
    ShippedMilestoneIdCount();
    var all := ShippedMilestoneIds();
    assert |done| <= |all| by {
      SubsetCardinality(done, all);
    }
    RoundPercentRange(|done|, TOTAL_MILESTONES);
    if |done| == |all| {
      SubsetCardinality(all - done, all);
      assert |all - done| == |all| - |done|;
    }
  }

  lemma SubsetCardinality<T>(a: set<T>, b: set<T>)
    requires a <= b
    ensures |a| <= |b|
    ensures |b - a| == |b| - |a|
  {
    assert b == a + (b - a);
  }
}
