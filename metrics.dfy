/** The metric bookkeeping of `eval_module`: running totals per metric, a
    running count of valid pixels and a batch counter, updated once per output
    frame and normalised once at the end. The per-frame metric functions
    (`delta`, `rel_abs_diff`, `rel_sqr_diff`) belong to a module that is not
    part of this model; their values come in as the opaque `loss` argument. */
module Metrics {
  import opened Wrappers

  /** The six keys of `total_losses`. */
  datatype Metric = Delta1 | Delta2 | Delta3 | RelAbsDiff | RelSqrDiff | Rmse

  /** The key under which the program stores a metric. */
  function Name(m: Metric): string
  {
    match m
    case Delta1 => "delta1"
    case Delta2 => "delta2"
    case Delta3 => "delta3"
    case RelAbsDiff => "rel_abs_diff"
    case RelSqrDiff => "rel_sqr_diff"
    case Rmse => "rmse"
  }

  /** The metric stored under a dictionary key, if any. */
  function MetricOfKey(key: string): (r: Option<Metric>)
    ensures r.Some? ==> Name(r.value) == key
  {
    if key == "delta1" then Some(Delta1)
    else if key == "delta2" then Some(Delta2)
    else if key == "delta3" then Some(Delta3)
    else if key == "rel_abs_diff" then Some(RelAbsDiff)
    else if key == "rel_sqr_diff" then Some(RelSqrDiff)
    else if key == "rmse" then Some(Rmse)
    else None
  }

  /** Every metric's key leads back to it, so distinct metrics are stored
      under distinct keys and the six entries of `total_losses` never collide. */
  lemma NameRoundTrip(m: Metric)
    ensures MetricOfKey(Name(m)) == Some(m)
  {
    var k := Name(m);
    match m
    case Delta1 =>
    case Delta2 => assert k[5] != "delta1"[5];
    case Delta3 => assert k[5] != "delta1"[5] && k[5] != "delta2"[5];
    case RelAbsDiff => assert k[0] != 'd';
    case RelSqrDiff => assert k[0] != 'd' && k[4] != "rel_abs_diff"[4];
    case Rmse => assert k[0] != 'd' && |k| != 12;
  }

  lemma NameInjective(a: Metric, b: Metric)
    ensures Name(a) == Name(b) <==> a == b
  {
    NameRoundTrip(a);
    NameRoundTrip(b);
  }

  /** The metrics of `loss_fns`, in order; "rmse" is accumulated separately. */
  const LossNames: seq<Metric> := [Delta1, Delta2, Delta3, RelAbsDiff, RelSqrDiff]

  const AllMetrics: set<Metric> := {Delta1, Delta2, Delta3, RelAbsDiff, RelSqrDiff, Rmse}

  /** `np.sum(mask)`: the number of valid pixels of a frame. */
  function MaskCount(mask: seq<bool>): (n: nat)
    ensures n <= |mask|
  {
    if mask == [] then 0 else MaskCount(mask[..|mask| - 1]) + (if mask[|mask| - 1] then 1 else 0)
  }

  /** `np.sum(((pred - depth) * mask) ** 2)`: the squared error over the valid
      pixels of a frame. */
  function MaskedSquaredError(pred: seq<real>, depth: seq<real>, mask: seq<bool>): (e: real)
    requires |pred| == |depth| == |mask|
    ensures e >= 0.0
  {
    if mask == [] then 0.0
    else
      var k := |mask| - 1;
      var diff := if mask[k] then pred[k] - depth[k] else 0.0;
      MaskedSquaredError(pred[..k], depth[..k], mask[..k]) + diff * diff
  }

  /** What one call of `calculate_matrices` contributes: the value of every
      named loss, the masked squared error, and the valid-pixel count. */
  datatype FrameStats = FrameStats(loss: Metric -> real, squaredError: real, count: nat)

  /** What frame f adds to the total of metric m. */
  function Contribution(f: FrameStats, m: Metric): real
  {
    if m == Rmse then f.squaredError else Weighted(f.loss(m), f.count)
  }

  /** `loss * np.sum(mask)`: a per-frame loss weighted by its valid pixels. */
  function Weighted(loss: real, count: nat): real
  {
    loss * count as real
  }

  function MetricTotal(frames: seq<FrameStats>, m: Metric): real
  {
    if frames == [] then 0.0
    else MetricTotal(frames[..|frames| - 1], m) + Contribution(frames[|frames| - 1], m)
  }

  function PixelCount(frames: seq<FrameStats>): nat
  {
    if frames == [] then 0 else PixelCount(frames[..|frames| - 1]) + frames[|frames| - 1].count
  }

  lemma MetricTotalSnoc(frames: seq<FrameStats>, f: FrameStats, m: Metric)
    ensures MetricTotal(frames + [f], m) == MetricTotal(frames, m) + Contribution(f, m)
  {
    assert (frames + [f])[..|frames|] == frames;
  }

  lemma PixelCountSnoc(frames: seq<FrameStats>, f: FrameStats)
    ensures PixelCount(frames + [f]) == PixelCount(frames) + f.count
  {
    assert (frames + [f])[..|frames|] == frames;
  }

  /** Position of a metric in `loss_fns`; Rmse comes after them. */
  function Position(m: Metric): (p: nat)
    ensures p < |LossNames| ==> LossNames[p] == m
    ensures p == |LossNames| <==> m == Rmse
  {
    match m
    case Delta1 => 0
    case Delta2 => 1
    case Delta3 => 2
    case RelAbsDiff => 3
    case RelSqrDiff => 4
    case Rmse => 5
  }

  /** An entry of `avg_losses`: the total of metric m divided by the pixel
      count. For Rmse this is the mean squared error, whose square root the
      program reports. */
  function Average(frames: seq<FrameStats>, m: Metric): real
    requires PixelCount(frames) > 0
  {
    MetricTotal(frames, m) / PixelCount(frames) as real
  }

  /** The totals once the loop over `loss_fns` has handled its first i
      entries: each of those metrics has gained `loss * np.sum(mask)`. */
  function Added(totals: map<Metric, real>, loss: Metric -> real, count: nat, i: nat): (r: map<Metric, real>)
    requires i <= |LossNames| && totals.Keys == AllMetrics
    ensures r.Keys == AllMetrics
  {
    if i == 0 then totals
    else
      var t := Added(totals, loss, count, i - 1);
      var m := LossNames[i - 1];
      t[m := t[m] + Weighted(loss(m), count)]
  }

  /** After i turns of the loop, exactly the metrics at positions below i hold
      their weighted loss; the others are untouched. */
  lemma {:induction false} AddedValues(totals: map<Metric, real>, loss: Metric -> real, count: nat, i: nat)
    requires i <= |LossNames| && totals.Keys == AllMetrics
    ensures forall m :: m in AllMetrics ==>
              Added(totals, loss, count, i)[m] == totals[m] + if Position(m) < i then Weighted(loss(m), count) else 0.0
  {
    if i > 0 {
      AddedValues(totals, loss, count, i - 1);
      assert Position(LossNames[i - 1]) == i - 1;
    }
  }

  /** The loop over `loss_fns` in `calculate_matrices`: every named metric
      gains its loss weighted by the frame's valid-pixel count; rmse is left
      alone. */
  method AddLosses(totals: map<Metric, real>, loss: Metric -> real, count: nat) returns (r: map<Metric, real>)
    requires totals.Keys == AllMetrics
    ensures r.Keys == AllMetrics
    ensures forall m :: m in AllMetrics ==>
              r[m] == totals[m] + if m == Rmse then 0.0 else Weighted(loss(m), count)
  {
    r := totals;
    for i := 0 to |LossNames|
      invariant r == Added(totals, loss, count, i)
    {
      var name := LossNames[i];
      r := r[name := r[name] + Weighted(loss(name), count)];
    }
    AddedValues(totals, loss, count, |LossNames|);
  }

  /** The six totals of a history of frames. */
  function Totals(frames: seq<FrameStats>): (t: map<Metric, real>)
    ensures t.Keys == AllMetrics
    ensures forall m :: m in AllMetrics ==> t[m] == MetricTotal(frames, m)
  {
    map m | m in AllMetrics :: MetricTotal(frames, m)
  }

  /** Totals that have gained frame f's weighted losses, once rmse gains its
      squared error too, are the totals of the history extended by f. */
  lemma AppendFrame(frames: seq<FrameStats>, f: FrameStats, totals: map<Metric, real>)
    requires totals.Keys == AllMetrics
    requires forall m :: m in AllMetrics ==>
               totals[m] == Totals(frames)[m] + if m == Rmse then 0.0 else Weighted(f.loss(m), f.count)
    ensures totals[Rmse := totals[Rmse] + f.squaredError] == Totals(frames + [f])
  {
    forall m | m in AllMetrics
      ensures MetricTotal(frames + [f], m) == MetricTotal(frames, m) + Contribution(f, m)
    {
      MetricTotalSnoc(frames, f, m);
    }
    var done := totals[Rmse := totals[Rmse] + f.squaredError];
    assert forall m :: m in AllMetrics ==> done[m] == Totals(frames + [f])[m];
  }

  class EvalModule {
    var totalLosses: map<Metric, real>
    var numPixels: nat
    var nIters: nat
    var avgLosses: map<Metric, real>
    /** The frames accumulated so far. */
    ghost var frames: seq<FrameStats>

    ghost predicate Valid()
      reads this
    {
      && totalLosses == Totals(frames)
      && numPixels == PixelCount(frames)
      && forall i :: 0 <= i < |frames| ==> frames[i].squaredError >= 0.0
    }

    /** Every total starts at 0 under exactly the six metric keys. */
    constructor ()
      ensures Valid() && frames == []
      ensures totalLosses.Keys == AllMetrics
      ensures forall m :: m in totalLosses ==> totalLosses[m] == 0.0
      ensures forall m :: m in totalLosses ==>
                Name(m) in {"delta1", "delta2", "delta3", "rel_abs_diff", "rel_sqr_diff", "rmse"}
      ensures numPixels == 0 && nIters == 0 && avgLosses == map[]
    {
      totalLosses := (map m | m in LossNames :: 0.0)[Rmse := 0.0];
      numPixels := 0;
      nIters := 0;
      avgLosses := map[];
      frames := [];
    }

    /** Adds `loss * sum(mask)` to each named loss, the masked squared error to
        Rmse, and `sum(mask)` to the pixel count. */
    method CalculateMatrices(pred: seq<real>, depth: seq<real>, mask: seq<bool>, loss: Metric -> real)
      requires Valid()
      requires |pred| == |depth| == |mask|
      modifies this`totalLosses, this`numPixels, this`frames
      ensures Valid()
      ensures frames == old(frames) + [FrameStats(loss, MaskedSquaredError(pred, depth, mask), MaskCount(mask))]
      ensures totalLosses.Keys == old(totalLosses).Keys
      ensures forall m :: m in AllMetrics && m != Rmse ==>
                totalLosses[m] == old(totalLosses)[m] + Weighted(loss(m), MaskCount(mask))
      ensures totalLosses[Rmse] == old(totalLosses)[Rmse] + MaskedSquaredError(pred, depth, mask)
      ensures numPixels == old(numPixels) + MaskCount(mask)
    {
      var count := MaskCount(mask);
      var squaredError := MaskedSquaredError(pred, depth, mask);
      ghost var history, f := frames, FrameStats(loss, squaredError, count);
      var totals := AddLosses(totalLosses, loss, count);
      AppendFrame(history, f, totals);
      PixelCountSnoc(history, f);
      totalLosses := totals[Rmse := totals[Rmse] + squaredError];
      numPixels := numPixels + count;
      frames := history + [f];
    }

    /** One more batch done (`self.n_iters += 1`). */
    method CountIteration()
      modifies this`nIters
      ensures nIters == old(nIters) + 1
    {
      nIters := nIters + 1;
    }

    /** `summary_matrices`: normalises every total by the pixel count. With no
        valid pixel the division fails and nothing is stored. */
    method SummaryMatrices() returns (ok: bool)
      requires Valid()
      modifies this`avgLosses
      ensures ok <==> numPixels > 0
      ensures ok ==> avgLosses.Keys == AllMetrics
      ensures ok ==> forall m :: m in AllMetrics ==> avgLosses[m] == Average(frames, m)
      ensures ok ==> avgLosses[Rmse] >= 0.0
      ensures !ok ==> avgLosses == old(avgLosses)
    {
      if numPixels == 0 {
        return false;
      }
      SquaredErrorTotalNonNegative(frames);
      avgLosses := map m | m in totalLosses :: totalLosses[m] / numPixels as real;
      ok := true;
    }
  }

  /** A per-frame loss that lies in [0, 1] (as the delta accuracies, which are
      fractions of pixels, do) keeps its total between 0 and the pixel count. */
  lemma {:induction false} FractionTotalBounded(frames: seq<FrameStats>, m: Metric)
    requires m != Rmse
    requires forall i :: 0 <= i < |frames| ==> 0.0 <= frames[i].loss(m) <= 1.0
    ensures 0.0 <= MetricTotal(frames, m) <= PixelCount(frames) as real
  {
    if frames != [] {
      var prefix, f := frames[..|frames| - 1], frames[|frames| - 1];
      assert forall i :: 0 <= i < |prefix| ==> prefix[i] == frames[i];
      FractionTotalBounded(prefix, m);
      WeightedFraction(f.loss(m), f.count);
      assert MetricTotal(frames, m) == MetricTotal(prefix, m) + Weighted(f.loss(m), f.count);
      assert PixelCount(frames) as real == PixelCount(prefix) as real + f.count as real;
    }
  }

  /** Such a loss also averages to a value in [0, 1]. */
  lemma FractionAverageBounded(frames: seq<FrameStats>, m: Metric)
    requires m != Rmse
    requires PixelCount(frames) > 0
    requires forall i :: 0 <= i < |frames| ==> 0.0 <= frames[i].loss(m) <= 1.0
    ensures 0.0 <= Average(frames, m) <= 1.0
  {
    FractionTotalBounded(frames, m);
    var n := PixelCount(frames) as real;
    DivAtMostOne(MetricTotal(frames, m), n);
  }

  /** A loss that is the same value v on every frame totals v per valid pixel ... */
  lemma {:induction false} ConstantLossTotal(frames: seq<FrameStats>, m: Metric, v: real)
    requires m != Rmse
    requires forall i :: 0 <= i < |frames| ==> frames[i].loss(m) == v
    ensures MetricTotal(frames, m) == Weighted(v, PixelCount(frames))
  {
    if frames != [] {
      var prefix, f := frames[..|frames| - 1], frames[|frames| - 1];
      assert forall i :: 0 <= i < |prefix| ==> prefix[i] == frames[i];
      ConstantLossTotal(prefix, m, v);
      WeightedAdd(v, PixelCount(prefix), f.count);
    }
  }

  /** ... so its pixel-weighted average is v itself. */
  lemma ConstantLossAverage(frames: seq<FrameStats>, m: Metric, v: real)
    requires m != Rmse
    requires PixelCount(frames) > 0
    requires forall i :: 0 <= i < |frames| ==> frames[i].loss(m) == v
    ensures Average(frames, m) == v
  {
    ConstantLossTotal(frames, m, v);
    var n := PixelCount(frames) as real;
    MulDivCancel(MetricTotal(frames, m), v, n);
  }

  lemma WeightedAdd(v: real, a: nat, b: nat)
    ensures Weighted(v, a) + Weighted(v, b) == Weighted(v, a + b)
  {
    assert v * a as real + v * b as real == v * (a as real + b as real);
  }

  lemma WeightedFraction(v: real, n: nat)
    requires 0.0 <= v <= 1.0
    ensures 0.0 <= Weighted(v, n) <= n as real
  {
    assert v * n as real <= 1.0 * n as real;
  }

  lemma MulDivCancel(t: real, v: real, n: real)
    requires n > 0.0 && t == v * n
    ensures t / n == v
  {
  }

  lemma DivAtMostOne(t: real, n: real)
    requires n > 0.0 && 0.0 <= t <= n
    ensures 0.0 <= t / n <= 1.0
  {
  }

  /** Squared errors are non-negative, so the accumulated Rmse total is too. */
  lemma {:induction false} SquaredErrorTotalNonNegative(frames: seq<FrameStats>)
    requires forall i :: 0 <= i < |frames| ==> frames[i].squaredError >= 0.0
    ensures MetricTotal(frames, Rmse) >= 0.0
  {
    if frames != [] {
      var prefix := frames[..|frames| - 1];
      assert forall i :: 0 <= i < |prefix| ==> prefix[i] == frames[i];
      SquaredErrorTotalNonNegative(prefix);
    }
  }
}
