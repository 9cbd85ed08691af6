/** The moving average of task time slices that estimates how long a read has to wait. */
module TimeSlice {
  import opened Wrappers

  const WEIGHT: real := 0.3
  const MIN_TIME_DIFF: real := 0.1   // seconds
  const U32_RANGE: nat := 0x1_0000_0000

  // A reading of one histogram: the sum of its samples in seconds, and how many they are.
  datatype Reading = Reading(sum: real, count: nat)

  // `mirror` is the copy that readers load without the lock.
  datatype Average = Average(ewma: real, lastSum: real, lastCount: nat, mirror: real)

  const Init := Average(0.0, 0.0, 0, 0.0)

  function Difference(now: Reading, a: Average): (w: Reading) {
    Reading(if now.sum > a.lastSum then now.sum - a.lastSum else 0.0,
            if now.count > a.lastCount then now.count - a.lastCount else 0)
  }

  // Too little happened since the last accepted window; the samples stay for a later one.
  predicate TooSmall(w: Reading) {
    w.sum < MIN_TIME_DIFF || w.count == 0
  }

  // The divisor is truncated to 32 bits; a zero divisor panics.
  predicate Panics(w: Reading) {
    !TooSmall(w) && w.count % U32_RANGE == 0
  }

  function Slice(w: Reading): (m: real)
    requires w.count % U32_RANGE != 0
  {
    w.sum / (w.count % U32_RANGE) as real
  }

  // The newest window counts for three tenths of the average.
  function Blended(slice: real, ewma: real): (r: real) {
    slice * WEIGHT + ewma * (1.0 - WEIGHT)
  }

  function Updated(a: Average, now: Reading): (r: Option<Average>) {
    var w := Difference(now, a);
    if TooSmall(w) then Some(a)
    else if Panics(w) then None
    else
      var ewma := Blended(Slice(w), a.ewma);
      Some(Average(ewma, now.sum, now.count, ewma))
  }

  // A run over readings of cumulative histograms.
  function Run(readings: seq<Reading>): (r: Option<Average>) {
    if readings == [] then Some(Init)
    else
      var before := Run(readings[..|readings| - 1]);
      if before.None? then None else Updated(before.value, readings[|readings| - 1])
  }

  // The windows that the run accepted, oldest first.
  function Windows(readings: seq<Reading>): (ws: seq<Reading>) {
    if readings == [] then []
    else
      var before, now := readings[..|readings| - 1], readings[|readings| - 1];
      if Run(before).None? || TooSmall(Difference(now, Run(before).value)) then Windows(before)
      else Windows(before) + [Difference(now, Run(before).value)]
  }

  function SumOf(ws: seq<Reading>): (r: Reading) {
    if ws == [] then Reading(0.0, 0)
    else
      var front := SumOf(ws[..|ws| - 1]);
      Reading(front.sum + ws[|ws| - 1].sum, front.count + ws[|ws| - 1].count)
  }

  ghost predicate Cumulative(readings: seq<Reading>) {
    && (forall i :: 0 <= i < |readings| ==> readings[i].sum >= 0.0)
    && (forall i, j :: 0 <= i < j < |readings| ==>
          readings[i].sum <= readings[j].sum && readings[i].count <= readings[j].count)
  }

  // A sequence of cumulative readings whose windows hold fewer than 2^32 samples each.
  ghost predicate Countable(readings: seq<Reading>) {
    Cumulative(readings) && forall i :: 0 <= i < |Windows(readings)| ==> Windows(readings)[i].count < U32_RANGE
  }

  lemma SumAppend(ws: seq<Reading>, w: Reading)
    ensures SumOf(ws + [w]) == Reading(SumOf(ws).sum + w.sum, SumOf(ws).count + w.count)
  {
    assert (ws + [w])[..|ws|] == ws;
  }

  lemma CountablePrefix(readings: seq<Reading>)
    requires readings != [] && Countable(readings)
    ensures Countable(readings[..|readings| - 1])
  {
    var before := readings[..|readings| - 1];
    assert forall i :: 0 <= i < |before| ==> before[i] == readings[i];
    WindowsGrow(readings);
  }

  lemma UpdateExtends(a: Average, ws: seq<Reading>, now: Reading)
    requires SumOf(ws) == Reading(a.lastSum, a.lastCount) && a.lastSum <= now.sum && a.lastCount <= now.count
    requires !TooSmall(Difference(now, a))
    ensures SumOf(ws + [Difference(now, a)]) == now
  {
    SumAppend(ws, Difference(now, a));
  }

  // The accepted windows partition the history: none of it is lost or counted twice. The mirror
  // always agrees with the average.
  lemma {:induction false} WindowsPartition(readings: seq<Reading>)
    requires Countable(readings)
    ensures Run(readings).Some?
    ensures var a := Run(readings).value;
      && a.mirror == a.ewma
      && SumOf(Windows(readings)) == Reading(a.lastSum, a.lastCount)
      && (readings != [] ==> a.lastSum <= readings[|readings| - 1].sum && a.lastCount <= readings[|readings| - 1].count)
  {
    if readings != [] {
      var before, now := readings[..|readings| - 1], readings[|readings| - 1];
      CountablePrefix(readings);
      WindowsGrow(readings);
      WindowsPartition(before);
      var a := Run(before).value;
      LastIsBelow(readings, a);
      if !TooSmall(Difference(now, a)) {
        assert Windows(readings)[|Windows(before)|] == Difference(now, a);
        UpdateExtends(a, Windows(before), now);
      }
    }
  }

  lemma LastIsBelow(readings: seq<Reading>, a: Average)
    requires readings != [] && Cumulative(readings)
    requires |readings| > 1 ==>
      a.lastSum <= readings[|readings| - 2].sum && a.lastCount <= readings[|readings| - 2].count
    requires |readings| == 1 ==> a.lastSum == 0.0 && a.lastCount == 0
    ensures a.lastSum <= readings[|readings| - 1].sum && a.lastCount <= readings[|readings| - 1].count
  {}

  // The mean time slice of a window of fewer than 2^32 samples.
  lemma SliceIsMean(w: Reading)
    requires 0 < w.count < U32_RANGE
    ensures Slice(w) * w.count as real == w.sum
    ensures w.sum >= 0.0 ==> Slice(w) >= 0.0
  {
    assert w.count % U32_RANGE == w.count;
  }

  // A window is accepted exactly if it holds samples and at least a tenth of a second of them. Then
  // the new mean counts for three tenths of the average and the window starts afresh; otherwise
  // nothing changes, and the samples stay for later.
  lemma WindowIsAcceptedIff(a: Average, now: Reading)
    requires a.lastSum <= now.sum && a.lastCount <= now.count < a.lastCount + U32_RANGE
    ensures now.sum - a.lastSum >= 0.1 && now.count > a.lastCount ==>
      var ewma := (now.sum - a.lastSum) / (now.count - a.lastCount) as real * 0.3 + a.ewma * 0.7;
      Updated(a, now) == Some(Average(ewma, now.sum, now.count, ewma))
    ensures now.sum - a.lastSum < 0.1 || now.count == a.lastCount ==> Updated(a, now) == Some(a)
  {}

  // A second of work in 2^32 slices panics, from the very first window.
  lemma PanicsOnAMultiple()
    ensures Run([Reading(1.0, U32_RANGE)]).None?
  {
    var now := Reading(1.0, U32_RANGE);
    assert [now][..0] == [];
    assert Difference(now, Init) == now;
  }

  lemma MulStrict(a: real, b: real, c: real)
    requires a < b && c > 0.0
    ensures c * a < c * b
  {}

  // The 32-bit divisor yields the mean of a window exactly when the count fits in 32 bits.
  lemma MeanIffCountFits(w: Reading)
    requires !TooSmall(w) && !Panics(w)
    ensures Slice(w) * w.count as real == w.sum <==> w.count < U32_RANGE
  {
    var r := w.count % U32_RANGE;
    assert Slice(w) * r as real == w.sum;
    if w.count >= U32_RANGE {
      assert Slice(w) > 0.0;
      assert r as real < w.count as real;
      MulStrict(r as real, w.count as real, Slice(w));
    }
  }

  lemma Blend(a: real, b: real, top: real)
    requires 0.0 <= a <= top && 0.0 <= b <= top
    ensures 0.0 <= Blended(a, b) <= top
  {}

  lemma Geometric(m: real, d: real)
    ensures Blended(m, m * (1.0 - d)) == m * (1.0 - 0.7 * d)
  {
    assert m * (1.0 - d) == m - m * d;
  }

  ghost predicate Below(w: Reading, top: real) {
    0 < w.count < U32_RANGE && Slice(w) <= top
  }

  lemma UpdateStaysWithin(a: Average, now: Reading, top: real)
    requires !TooSmall(Difference(now, a)) && Below(Difference(now, a), top) && 0.0 <= a.ewma <= top
    ensures Updated(a, now).Some? && 0.0 <= Updated(a, now).value.ewma <= top
  {
    SliceIsMean(Difference(now, a));
    Blend(Slice(Difference(now, a)), a.ewma, top);
  }

  lemma WindowsGrow(readings: seq<Reading>)
    requires readings != []
    ensures var before := readings[..|readings| - 1];
      && |Windows(before)| <= |Windows(readings)|
      && (forall i :: 0 <= i < |Windows(before)| ==> Windows(before)[i] == Windows(readings)[i])
      && (Run(before).Some? ==>
            var w := Difference(readings[|readings| - 1], Run(before).value);
            Windows(readings) == if TooSmall(w) then Windows(before) else Windows(before) + [w])
  {}

  // The average stays between zero and the largest mean of an accepted window.
  lemma {:induction false} AverageStaysWithin(readings: seq<Reading>, top: real)
    requires forall i :: 0 <= i < |Windows(readings)| ==> Below(Windows(readings)[i], top)
    requires top >= 0.0
    ensures Run(readings).Some? && 0.0 <= Run(readings).value.ewma <= top
  {
    if readings != [] {
      var before, now := readings[..|readings| - 1], readings[|readings| - 1];
      WindowsGrow(readings);
      AverageStaysWithin(before, top);
      var a := Run(before).value;
      if !TooSmall(Difference(now, a)) {
        assert Windows(readings)[|Windows(before)|] == Difference(now, a);
        UpdateStaysWithin(a, now, top);
      }
    }
  }

  function Decay(k: nat): (r: real) {
    if k == 0 then 1.0 else 0.7 * Decay(k - 1)
  }

  ghost predicate HasMean(w: Reading, m: real) {
    0 < w.count < U32_RANGE && Slice(w) == m
  }

  // The average after k windows of mean m.
  function Approach(m: real, k: nat): (r: real) {
    if k == 0 then 0.0 else Blended(m, Approach(m, k - 1))
  }

  lemma {:induction false} ApproachIsGeometric(m: real, k: nat)
    ensures Approach(m, k) == m * (1.0 - Decay(k))
  {
    if k > 0 {
      ApproachIsGeometric(m, k - 1);
      Geometric(m, Decay(k - 1));
    }
  }

  lemma {:induction false} AverageApproaches(readings: seq<Reading>, m: real)
    requires forall i :: 0 <= i < |Windows(readings)| ==> HasMean(Windows(readings)[i], m)
    ensures Run(readings).Some? && Run(readings).value.ewma == Approach(m, |Windows(readings)|)
  {
    if readings != [] {
      var before, now := readings[..|readings| - 1], readings[|readings| - 1];
      WindowsGrow(readings);
      AverageApproaches(before, m);
      var a := Run(before).value;
      if !TooSmall(Difference(now, a)) {
        assert Windows(readings)[|Windows(before)|] == Difference(now, a);
      }
    }
  }

  // Windows of one and the same mean m: after k of them the average is m (1 - 0.7^k).
  lemma {:induction false} AverageOfConstantMean(readings: seq<Reading>, m: real)
    requires forall i :: 0 <= i < |Windows(readings)| ==> HasMean(Windows(readings)[i], m)
    ensures Run(readings).Some? && Run(readings).value.ewma == m * (1.0 - Decay(|Windows(readings)|))
  {
    AverageApproaches(readings, m);
    ApproachIsGeometric(m, |Windows(readings)|);
  }

  class Inspector {
    var average: Average

    constructor ()
      ensures average == Init
    {
      average := Init;
    }

    // Merges the levels' histograms and folds the new window in. The window must not hold a
    // multiple of 2^32 samples: the division panics on such a count.
    method Update(levels: seq<Reading>)
      requires !Panics(Difference(SumOf(levels), average))
      modifies this
      ensures Some(average) == Updated(old(average), SumOf(levels))
    {
      var newSum: real, newCount: nat := 0.0, 0;
      for i := 0 to |levels|
        invariant Reading(newSum, newCount) == SumOf(levels[..i]) && average == old(average)
      {
        SumAppend(levels[..i], levels[i]);
        assert levels[..i + 1] == levels[..i] + [levels[i]];
        newSum, newCount := newSum + levels[i].sum, newCount + levels[i].count;
      }
      assert levels[..|levels|] == levels;
      var timeDiff := if newSum > average.lastSum then newSum - average.lastSum else 0.0;
      var countDiff := if newCount > average.lastCount then newCount - average.lastCount else 0;
      if timeDiff < MIN_TIME_DIFF || countDiff == 0 {
        return;
      }
      var divisor := countDiff % U32_RANGE;
      assert Difference(SumOf(levels), average) == Reading(timeDiff, countDiff);
      var slice := timeDiff / divisor as real;
      var ewma := slice * WEIGHT + average.ewma * (1.0 - WEIGHT);
      average := average.(ewma := ewma, lastSum := newSum, lastCount := newCount);
      average := average.(mirror := ewma);
    }
  }
}
