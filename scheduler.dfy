/** `WarmUpCosineDecayScheduler`: the Keras callback that sets the optimizer's learning
    rate before every batch, following a linear warm-up, a hold at the base rate and a
    cosine decay, restarted at fixed fractions of the training steps. Rates and step
    counts are exact reals; `np.cos(np.pi * x)` is the parameter `cosPi`. */
module Scheduler {
  import opened Wrappers
  import opened PyNum

  /** The exceptions the schedule raises. */
  datatype ScheduleError =
    | TotalBelowWarmup      // `ValueError`: `total_steps < warmup_steps`
    | ZeroDivision          // `total_steps - warmup_steps - hold_base_rate_steps` is zero
    | BaseBelowWarmup       // `ValueError`: `learning_rate_base < warmup_learning_rate`
    | IndexOutOfRange       // a reset past the last entry of `interval_reset`
    | NoSegment             // `AttributeError`: no reset has set `global_step` yet

  function Max(a: real, b: real): (r: real)
    ensures r >= a && r >= b && (r == a || r == b)
  {
    if a < b then b else a
  }

  /** The linear warm-up rate at `step`: `warmupLr` at step 0, `base` at step `warmup`. */
  function WarmUpRate(step: real, base: real, warmupLr: real, warmup: real): real
    requires warmup > 0.0
  {
    (base - warmupLr) / warmup * step + warmupLr
  }

  /** The cosine-annealed rate: `base` at the end of the hold, 0 at step `total`. */
  function CosineRate(cosPi: real -> real, s: real, base: real, total: real, warmup: real, hold: real): real
    requires total - warmup - hold != 0.0
  {
    0.5 * base * (1.0 + cosPi((s - warmup - hold) / (total - warmup - hold)))
  }

  /** `cosine_decay_with_warmup`: the rate at `step` of a segment, or the error it raises. */
  function CosineDecayWithWarmup(cosPi: real -> real, step: int, base: real, total: real,
                                 warmupLr: real, warmup: real, hold: real, minLr: real)
    : (r: Result<real, ScheduleError>)
    ensures r == Err(TotalBelowWarmup) <==> total < warmup
    ensures r == Err(ZeroDivision) <==> warmup <= total && total - warmup - hold == 0.0
    ensures r == Err(BaseBelowWarmup) <==>
              (warmup <= total && total - warmup - hold != 0.0 && warmup > 0.0 && base < warmupLr)
    ensures r.Ok? ==> r.value >= minLr
  {
    if total < warmup then Err(TotalBelowWarmup)
    else if total - warmup - hold == 0.0 then Err(ZeroDivision)
    else
      var s := step as real;
      var held := if hold > 0.0 && !(s > warmup + hold) then base else CosineRate(cosPi, s, base, total, warmup, hold);
      if warmup > 0.0 && base < warmupLr then Err(BaseBelowWarmup)
      else
        var lr := if warmup > 0.0 && s < warmup then WarmUpRate(s, base, warmupLr, warmup) else held;
        Ok(Max(lr, minLr))
  }

  /** The schedule succeeds exactly when none of its three checks fails. */
  lemma ScheduleDefined(cosPi: real -> real, step: int, base: real, total: real,
                        warmupLr: real, warmup: real, hold: real, minLr: real)
    ensures CosineDecayWithWarmup(cosPi, step, base, total, warmupLr, warmup, hold, minLr).Ok?
            <==> warmup <= total && total - warmup - hold != 0.0 && (warmup > 0.0 ==> warmupLr <= base)
  {
  }

  /** Below `warmup` steps the rate rises on the line from the warm-up rate to the base rate. */
  lemma WarmUpPhase(cosPi: real -> real, step: int, base: real, total: real,
                    warmupLr: real, warmup: real, hold: real, minLr: real)
    requires CosineDecayWithWarmup(cosPi, step, base, total, warmupLr, warmup, hold, minLr).Ok?
    requires 0.0 <= step as real < warmup
    ensures CosineDecayWithWarmup(cosPi, step, base, total, warmupLr, warmup, hold, minLr).value
            == Max(warmupLr + (base - warmupLr) * (step as real / warmup), minLr)
    ensures warmupLr <= WarmUpRate(step as real, base, warmupLr, warmup) <= base
  {
    WarmUpBetween(step as real, base, warmupLr, warmup);
  }

  /** A segment with a warm-up starts again from the warm-up rate (or the floor, when that is
      higher), whatever rate the previous segment had decayed to. */
  lemma RestartRate(cosPi: real -> real, base: real, total: real,
                    warmupLr: real, warmup: real, hold: real, minLr: real)
    requires CosineDecayWithWarmup(cosPi, 0, base, total, warmupLr, warmup, hold, minLr).Ok?
    requires warmup > 0.0
    ensures CosineDecayWithWarmup(cosPi, 0, base, total, warmupLr, warmup, hold, minLr).value
            == Max(warmupLr, minLr)
  {
    WarmUpPhase(cosPi, 0, base, total, warmupLr, warmup, hold, minLr);
  }

  lemma WarmUpBetween(s: real, base: real, warmupLr: real, warmup: real)
    requires 0.0 <= s < warmup && warmupLr <= base
    ensures WarmUpRate(s, base, warmupLr, warmup) == warmupLr + (base - warmupLr) * (s / warmup)
    ensures warmupLr <= WarmUpRate(s, base, warmupLr, warmup) <= base
  {
    var d := base - warmupLr;
    assert d / warmup * s == d * (s / warmup);
    RatioBelowOne(s, warmup);
    ProductBelow(d, s / warmup);
  }

  lemma RatioBelowOne(s: real, w: real)
    requires 0.0 <= s < w
    ensures 0.0 <= s / w < 1.0
  {
  }

  lemma ProductBelow(d: real, t: real)
    requires d >= 0.0 && 0.0 <= t <= 1.0
    ensures 0.0 <= d * t <= d
  {
  }

  /** The warm-up is non-decreasing: a later warm-up step never has a lower rate. */
  lemma WarmUpRises(cosPi: real -> real, step1: int, step2: int, base: real, total: real,
                    warmupLr: real, warmup: real, hold: real, minLr: real)
    requires CosineDecayWithWarmup(cosPi, step1, base, total, warmupLr, warmup, hold, minLr).Ok?
    requires 0 <= step1 <= step2 && (step2 as real) < warmup
    ensures CosineDecayWithWarmup(cosPi, step1, base, total, warmupLr, warmup, hold, minLr).value
            <= CosineDecayWithWarmup(cosPi, step2, base, total, warmupLr, warmup, hold, minLr).value
  {
    WarmUpSlope(step1 as real, step2 as real, base, warmupLr, warmup);
  }

  lemma WarmUpSlope(s1: real, s2: real, base: real, warmupLr: real, warmup: real)
    requires s1 <= s2 && warmup > 0.0 && warmupLr <= base
    ensures WarmUpRate(s1, base, warmupLr, warmup) <= WarmUpRate(s2, base, warmupLr, warmup)
  {
    var slope := (base - warmupLr) / warmup;
    assert slope >= 0.0;
    assert slope * s1 <= slope * s2;
  }

  /** Between the end of the warm-up and the end of the hold the rate is the base rate. */
  lemma HoldPhase(cosPi: real -> real, step: int, base: real, total: real,
                  warmupLr: real, warmup: real, hold: real, minLr: real)
    requires CosineDecayWithWarmup(cosPi, step, base, total, warmupLr, warmup, hold, minLr).Ok?
    requires hold > 0.0 && warmup <= step as real <= warmup + hold
    ensures CosineDecayWithWarmup(cosPi, step, base, total, warmupLr, warmup, hold, minLr).value
            == Max(base, minLr)
  {
  }

  /** At the last step of a segment the cosine reaches -1 and the rate falls to the floor. */
  lemma DecayEnds(cosPi: real -> real, base: real, total: int,
                  warmupLr: real, warmup: real, hold: real, minLr: real)
    requires CosineDecayWithWarmup(cosPi, total, base, total as real, warmupLr, warmup, hold, minLr).Ok?
    requires warmup + hold < total as real
    requires cosPi(1.0) == -1.0
    ensures CosineDecayWithWarmup(cosPi, total, base, total as real, warmupLr, warmup, hold, minLr).value
            == Max(0.0, minLr)
  {
    CosineEnds(cosPi, total as real, base, warmup, hold);
  }

  lemma CosineEnds(cosPi: real -> real, total: real, base: real, warmup: real, hold: real)
    requires total - warmup - hold != 0.0 && cosPi(1.0) == -1.0
    ensures CosineRate(cosPi, total, base, total, warmup, hold) == 0.0
  {
    var d := total - warmup - hold;
    assert d / d == 1.0;
  }

  /** When the cosine stays within [-1, 1] and the rates are not negative, every rate lies
      between the floor and the larger of the base rate and the floor. */
  lemma Bounded(cosPi: real -> real, step: int, base: real, total: real,
                warmupLr: real, warmup: real, hold: real, minLr: real)
    requires CosineDecayWithWarmup(cosPi, step, base, total, warmupLr, warmup, hold, minLr).Ok?
    requires forall x :: -1.0 <= cosPi(x) <= 1.0
    requires 0.0 <= base && 0.0 <= warmupLr && 0 <= step
    ensures minLr <= CosineDecayWithWarmup(cosPi, step, base, total, warmupLr, warmup, hold, minLr).value
                  <= Max(base, minLr)
  {
    var s := step as real;
    if warmup > 0.0 && s < warmup {
      WarmUpBetween(s, base, warmupLr, warmup);
    } else {
      CosineBelowBase(cosPi, s, base, total, warmup, hold);
    }
  }

  lemma CosineBelowBase(cosPi: real -> real, s: real, base: real, total: real, warmup: real, hold: real)
    requires total - warmup - hold != 0.0
    requires forall x :: -1.0 <= cosPi(x) <= 1.0
    requires 0.0 <= base
    ensures 0.0 <= CosineRate(cosPi, s, base, total, warmup, hold) <= base
  {
    var c := cosPi((s - warmup - hold) / (total - warmup - hold));
    HalfScaled(base, c);
  }

  lemma HalfScaled(base: real, c: real)
    requires 0.0 <= base && -1.0 <= c <= 1.0
    ensures 0.0 <= 0.5 * base * (1.0 + c) <= base
  {
  }

  /** After the hold, a cosine that does not rise on [0, 1] makes the rate fall step by step. */
  lemma DecayFalls(cosPi: real -> real, step1: int, step2: int, base: real, total: real,
                   warmupLr: real, warmup: real, hold: real, minLr: real)
    requires CosineDecayWithWarmup(cosPi, step1, base, total, warmupLr, warmup, hold, minLr).Ok?
    requires forall x, y :: 0.0 <= x <= y <= 1.0 ==> cosPi(y) <= cosPi(x)
    requires 0.0 <= base && 0.0 <= warmup && 0.0 <= hold
    requires warmup + hold < step1 as real && step1 <= step2 && step2 as real <= total
    ensures CosineDecayWithWarmup(cosPi, step2, base, total, warmupLr, warmup, hold, minLr).value
            <= CosineDecayWithWarmup(cosPi, step1, base, total, warmupLr, warmup, hold, minLr).value
  {
    CosineFalls(cosPi, step1 as real, step2 as real, base, total, warmup, hold);
  }

  lemma CosineFalls(cosPi: real -> real, s1: real, s2: real, base: real, total: real,
                    warmup: real, hold: real)
    requires forall x, y :: 0.0 <= x <= y <= 1.0 ==> cosPi(y) <= cosPi(x)
    requires 0.0 <= base && warmup + hold < s1 <= s2 <= total
    ensures CosineRate(cosPi, s2, base, total, warmup, hold) <= CosineRate(cosPi, s1, base, total, warmup, hold)
  {
    var d := total - warmup - hold;
    var x1 := (s1 - warmup - hold) / d;
    var x2 := (s2 - warmup - hold) / d;
    Progress(s1 - warmup - hold, s2 - warmup - hold, d);
    assert cosPi(x2) <= cosPi(x1);
    ScaledCosine(base, cosPi(x2), cosPi(x1));
  }

  lemma Progress(a: real, b: real, d: real)
    requires 0.0 < a <= b <= d
    ensures 0.0 <= a / d <= b / d <= 1.0
  {
    assert a / d <= b / d by {
      assert b / d - a / d == (b - a) / d;
    }
    assert b / d <= d / d;
  }

  lemma ScaledCosine(base: real, c2: real, c1: real)
    requires 0.0 <= base && c2 <= c1
    ensures 0.5 * base * (1.0 + c2) <= 0.5 * base * (1.0 + c1)
  {
  }

  /** `interval_epoch`: the fractions of the training steps where a segment ends. */
  const IntervalEpoch: seq<real> := [0.05, 0.15, 0.30, 0.50]

  /** `interval_reset`: the width of every segment, the last one running to 1. Segment `i`
      ends where fraction `i` lies: the widths so far carry each end to the next. */
  function Gaps(e: seq<real>): (r: seq<real>)
    requires |e| >= 1
    ensures |r| == |e| + 1
    ensures r[0] == e[0] && e[|e| - 1] + r[|e|] == 1.0
    ensures forall i :: 0 < i < |e| ==> e[i - 1] + r[i] == e[i]
  {
    [e[0]] + Diffs(e) + [1.0 - e[|e| - 1]]
  }

  function Diffs(e: seq<real>): (r: seq<real>)
    requires |e| >= 1
    ensures |r| == |e| - 1
  {
    seq(|e| - 1, i requires 0 <= i < |e| - 1 => e[i + 1] - e[i])
  }

  function Sum(s: seq<real>): real {
    if s == [] then 0.0 else Sum(s[..|s| - 1]) + s[|s| - 1]
  }

  lemma SumAppend(s: seq<real>, x: real)
    ensures Sum(s + [x]) == Sum(s) + x
  {
    assert (s + [x])[..|s|] == s;
  }

  lemma {:induction false} SumPrepend(x: real, s: seq<real>)
    ensures Sum([x] + s) == x + Sum(s)
    decreases |s|
  {
    if s != [] {
      var init := s[..|s| - 1];
      assert [x] + s == ([x] + init) + [s[|s| - 1]];
      SumAppend([x] + init, s[|s| - 1]);
      SumPrepend(x, init);
      assert s == init + [s[|s| - 1]];
      SumAppend(init, s[|s| - 1]);
    }
  }

  /** The differences of consecutive entries telescope to last minus first. */
  lemma {:induction false} DiffsTelescope(e: seq<real>)
    requires |e| >= 1
    ensures Sum(Diffs(e)) == e[|e| - 1] - e[0]
    decreases |e|
  {
    if |e| > 1 {
      var init := e[..|e| - 1];
      DiffsTelescope(init);
      assert Diffs(e) == Diffs(init) + [e[|e| - 1] - e[|e| - 2]];
      SumAppend(Diffs(init), e[|e| - 1] - e[|e| - 2]);
    }
  }

  /** Whatever the fractions, the segment widths add up to the whole run. */
  lemma GapsCoverRun(e: seq<real>)
    requires |e| >= 1
    ensures Sum(Gaps(e)) == 1.0
  {
    DiffsTelescope(e);
    SumPrepend(e[0], Diffs(e) + [1.0 - e[|e| - 1]]);
    SumAppend(Diffs(e), 1.0 - e[|e| - 1]);
    assert Gaps(e) == [e[0]] + (Diffs(e) + [1.0 - e[|e| - 1]]);
  }

  /** The five widths the scheduler restarts with. */
  lemma IntervalWidths()
    ensures Gaps(IntervalEpoch) == [0.05, 0.10, 0.15, 0.20, 0.50]
    ensures Sum(Gaps(IntervalEpoch)) == 1.0
  {
    GapsCoverRun(IntervalEpoch);
  }

  /** `[0] + [int(i * total) for i in interval_epoch]`: the steps at which a segment begins. */
  function ResetPoints(total: int): (r: seq<int>)
    ensures |r| == |IntervalEpoch| + 1 && r[0] == 0
    ensures total >= 0 ==> forall i :: 0 < i < |r| ==>
      r[i] as real <= IntervalEpoch[i - 1] * total as real < r[i] as real + 1.0
  {
    [0] + seq(|IntervalEpoch|, i requires 0 <= i < |IntervalEpoch| => Trunc(IntervalEpoch[i] * total as real))
  }

  /** For a run of `total >= 0` steps the segments begin in order, all within the run. */
  lemma ResetPointsOrdered(total: int)
    requires total >= 0
    ensures forall i, j :: 0 <= i <= j < |ResetPoints(total)| ==> ResetPoints(total)[i] <= ResetPoints(total)[j]
    ensures forall i :: 0 <= i < |ResetPoints(total)| ==> 0 <= ResetPoints(total)[i] <= total
  {
    var t := total as real;
    var r := ResetPoints(total);
    assert r == [0, Trunc(0.05 * t), Trunc(0.15 * t), Trunc(0.30 * t), Trunc(0.50 * t)];
    TruncMono(0.05 * t, 0.15 * t);
    TruncMono(0.15 * t, 0.30 * t);
    TruncMono(0.30 * t, 0.50 * t);
    TruncMono(0.50 * t, t);
  }

  /** A set drawn from a sequence has no more members than the sequence has entries. */
  lemma {:induction false} SubsetOfSeq(s: set<int>, r: seq<int>)
    requires forall x :: x in s ==> x in r
    ensures |s| <= |r|
    decreases |r|
  {
    if r == [] {
      assert forall x :: x !in s;
      assert s == {};
    } else {
      var last := r[|r| - 1];
      var rest := s - {last};
      forall x | x in rest ensures x in r[..|r| - 1] {
        var k :| 0 <= k < |r| && r[k] == x;
        assert r[..|r| - 1][k] == x;
      }
      SubsetOfSeq(rest, r[..|r| - 1]);
    }
  }

  /** A step not yet reset at, among the five reset points, leaves a width unused. */
  lemma RoomForReset(done: set<int>, step: int, points: seq<int>)
    requires forall s :: s in done ==> s in points
    requires step in points && step !in done
    ensures |done| < |points|
  {
    SubsetOfSeq(done + {step}, points);
  }

  /** `steps * width`: a configured step count scaled to the width of one segment. */
  function Share(steps: int, width: real): real {
    steps as real * width
  }

  /** The callback's state. `resetSteps` is ghost bookkeeping: the steps at which a segment
      has been started so far. */
  class WarmUpCosineDecay {
    const base: real
    const warmupLr: real
    const minLr: real
    const warmupForInterval: int
    const holdForInterval: int
    const totalForInterval: int
    var learningRates: seq<real>
    var stepForInterval: int
    var intervalIndex: nat
    const intervalReset: seq<real>
    /** Whether a reset has created `global_step`, `total_steps`, `warmup_steps` and
        `hold_base_rate_steps`. */
    var started: bool
    var globalStep: int
    var totalSteps: real
    var warmupSteps: real
    var holdSteps: real
    /** The optimizer's learning rate, which `K.set_value` writes and `K.get_value` reads. */
    var optimizerLr: real
    ghost var resetSteps: set<int>
    /** The reset points, which depend only on the configured total. */
    ghost const points: seq<int>

    ghost predicate Valid()
      reads this
    {
      && |intervalReset| == |IntervalEpoch| + 1
      && |resetSteps| <= intervalIndex <= |intervalReset|
      && points == ResetPoints(totalForInterval)
      && (forall s :: s in resetSteps ==> s in points && s <= stepForInterval)
      && (started <==> intervalIndex > 0)
      && (started ==> 0 <= globalStep)
    }

    /** `__init__`, building `interval_reset` from `interval_epoch` in a loop. */
    constructor (base: real, totalSteps: int, globalStepInit: int, warmupLr: real,
                 warmupSteps: int, holdSteps: int, minLr: real, optimizerLr: real)
      ensures Valid() && intervalReset == Gaps(IntervalEpoch)
      ensures this.base == base && this.warmupLr == warmupLr && this.minLr == minLr
      ensures totalForInterval == totalSteps && warmupForInterval == warmupSteps
      ensures holdForInterval == holdSteps && this.optimizerLr == optimizerLr
      ensures stepForInterval == globalStepInit && intervalIndex == 0 && !started
      ensures learningRates == [] && resetSteps == {}
    {
      this.base := base;
      this.warmupLr := warmupLr;
      this.minLr := minLr;
      this.learningRates := [];
      this.stepForInterval := globalStepInit;
      this.warmupForInterval := warmupSteps;
      this.holdForInterval := holdSteps;
      this.totalForInterval := totalSteps;
      this.intervalIndex := 0;
      this.optimizerLr := optimizerLr;
      this.started := false;
      var e := IntervalEpoch;
      var reset := [e[0]];
      for i := 0 to |e| - 1
        invariant reset == [e[0]] + Diffs(e)[..i]
      {
        assert Diffs(e)[..i + 1] == Diffs(e)[..i] + [e[i + 1] - e[i]];
        reset := reset + [e[i + 1] - e[i]];
      }
      assert Diffs(e)[..|e| - 1] == Diffs(e);
      reset := reset + [1.0 - e[|e| - 1]];
      this.intervalReset := reset;
      this.resetSteps := {};
      this.points := ResetPoints(totalSteps);
    }

    /** The reset at the head of `on_batch_begin`: the next width of `interval_reset` scales
        the configured step counts, and the segment's step counter starts again at 0. */
    method StartSegment() returns (r: Result<(), ScheduleError>)
      requires Valid() && stepForInterval in ResetPoints(totalForInterval)
      modifies this
      ensures Valid()
      ensures r.Err? <==> old(intervalIndex) == |intervalReset|
      ensures r.Err? ==> r.error == IndexOutOfRange && unchanged(this)
      ensures r.Ok? ==> && started && globalStep == 0 && intervalIndex == old(intervalIndex) + 1
                        && resetSteps == old(resetSteps) + {stepForInterval}
                        && stepForInterval == old(stepForInterval) && learningRates == old(learningRates)
                        && optimizerLr == old(optimizerLr)
      ensures r.Ok? ==> && totalSteps == Share(totalForInterval, intervalReset[old(intervalIndex)])
                        && warmupSteps == Share(warmupForInterval, intervalReset[old(intervalIndex)])
                        && holdSteps == Share(holdForInterval, intervalReset[old(intervalIndex)])
      /** Started once per step, the segments never outnumber the widths. */
      ensures old(intervalIndex) == |old(resetSteps)| && old(stepForInterval) !in old(resetSteps) ==>
                r.Ok? && intervalIndex == |resetSteps|
    {
      if intervalIndex == |resetSteps| && stepForInterval !in resetSteps {
        RoomForReset(resetSteps, stepForInterval, points);
      }
      if intervalIndex >= |intervalReset| {
        return Err(IndexOutOfRange);
      }
      var width := intervalReset[intervalIndex];
      totalSteps := Share(totalForInterval, width);
      warmupSteps := Share(warmupForInterval, width);
      holdSteps := Share(holdForInterval, width);
      globalStep := 0;
      started := true;
      intervalIndex := intervalIndex + 1;
      resetSteps := resetSteps + {stepForInterval};
      r := Ok(());
    }

    /** `on_batch_begin`: at a reset point start the next segment, then set the optimizer's
        rate to the schedule's value at the segment's current step. */
    method OnBatchBegin(cosPi: real -> real) returns (r: Result<real, ScheduleError>)
      requires Valid()
      modifies this
      ensures Valid()
      ensures var reset := old(stepForInterval) in ResetPoints(totalForInterval);
        if reset && old(intervalIndex) == |intervalReset| then
          r == Err(IndexOutOfRange) && unchanged(this)
        else if !reset && !old(started) then
          r == Err(NoSegment) && unchanged(this)
        else
          && stepForInterval == old(stepForInterval) && learningRates == old(learningRates)
          && (reset ==> intervalIndex == old(intervalIndex) + 1 && globalStep == 0
                        && resetSteps == old(resetSteps) + {old(stepForInterval)}
                        && totalSteps == Share(totalForInterval, intervalReset[old(intervalIndex)])
                        && warmupSteps == Share(warmupForInterval, intervalReset[old(intervalIndex)])
                        && holdSteps == Share(holdForInterval, intervalReset[old(intervalIndex)]))
          && (!reset ==> intervalIndex == old(intervalIndex) && globalStep == old(globalStep)
                         && totalSteps == old(totalSteps) && warmupSteps == old(warmupSteps)
                         && holdSteps == old(holdSteps))
          && r == CosineDecayWithWarmup(cosPi, globalStep, base, totalSteps, warmupLr,
                                        warmupSteps, holdSteps, minLr)
          && optimizerLr == (if r.Ok? then r.value else old(optimizerLr))
      /** Begun once per step, the scheduler never runs out of segment widths. */
      ensures old(intervalIndex) == |old(resetSteps)| && old(stepForInterval) !in old(resetSteps) ==>
                r != Err(IndexOutOfRange) && intervalIndex == |resetSteps|
    {
      if stepForInterval in ResetPoints(totalForInterval) {
        var segment := StartSegment();
        if segment.Err? {
          return Err(segment.error);
        }
      }
      if !started {
        return Err(NoSegment);
      }
      r := CosineDecayWithWarmup(cosPi, globalStep, base, totalSteps, warmupLr, warmupSteps,
                                 holdSteps, minLr);
      if r.Ok? {
        optimizerLr := r.value;
      }
    }

    /** `on_batch_end`: advance both step counters and record the optimizer's rate. */
    method OnBatchEnd() returns (r: Result<(), ScheduleError>)
      requires Valid()
      modifies this
      ensures Valid()
      ensures r.Err? <==> !started
      ensures r.Err? ==> r.error == NoSegment && globalStep == old(globalStep)
                         && stepForInterval == old(stepForInterval) && learningRates == old(learningRates)
      ensures r.Ok? ==> globalStep == old(globalStep) + 1 && stepForInterval == old(stepForInterval) + 1
                        && learningRates == old(learningRates) + [optimizerLr]
      ensures r.Ok? ==> forall s :: s in resetSteps ==> s < stepForInterval
      ensures optimizerLr == old(optimizerLr) && intervalIndex == old(intervalIndex)
      ensures started == old(started) && resetSteps == old(resetSteps)
      ensures totalSteps == old(totalSteps) && warmupSteps == old(warmupSteps)
      ensures holdSteps == old(holdSteps)
    {
      if !started {
        return Err(NoSegment);
      }
      globalStep := globalStep + 1;
      stepForInterval := stepForInterval + 1;
      learningRates := learningRates + [optimizerLr];
      r := Ok(());
    }
  }
}
