/** `dmap2pc`: up-projects one pixel's depth (a fraction of the full linear
    range) into a 0/1 rate volume over the log bins. Bin ii is set when
    dlow[ii] <= d <= dup[ii], the edges divided by the linear bin count; both
    bounds are inclusive, so a depth exactly on an interior edge sets two
    adjacent bins. The program's loop runs to the global NumBin, not to its
    `numbin` parameter. The midpoint table `dmid` that it also computes is
    never used and is not modelled. */
module UpProjection {
  import opened Wrappers
  import opened Seqs
  import opened BinEdges

  /** `dlow[ii]`. */
  function DLow(q: real, ii: nat, linearNumbin: nat): real
    requires q > 1.0 && linearNumbin > 0
  {
    Low(q, ii) as real / linearNumbin as real
  }

  /** `dup[ii]`. */
  function DUp(q: real, ii: nat, linearNumbin: nat): real
    requires q > 1.0 && linearNumbin > 0
  {
    Up(q, ii) as real / linearNumbin as real
  }

  predicate InBin(d: real, q: real, ii: nat, linearNumbin: nat)
    requires q > 1.0 && linearNumbin > 0
  {
    DLow(q, ii, linearNumbin) <= d <= DUp(q, ii, linearNumbin)
  }

  /** The rate volume for `numbin >= NumBin`: the first NumBin bins are the
      interval tests, the rest keep their initial 0. */
  function RateVolume(d: real, numbin: nat, q: real, linearNumbin: nat): (r: seq<int>)
    requires q > 1.0 && linearNumbin > 0
    ensures |r| == numbin
  {
    seq(numbin, ii requires 0 <= ii < numbin =>
      if ii < NumBin && InBin(d, q, ii, linearNumbin) then 1 else 0)
  }

  /** Fills a zero-initialised buffer of `numbin` bins for ii in [0, NumBin).
      When numbin < NumBin the program indexes its numbin-entry edge table
      past its end and raises; the model returns None. */
  method DepthToRates(d: real, numbin: nat, q: real, linearNumbin: nat) returns (rates: Option<seq<int>>)
    requires q > 1.0 && linearNumbin > 0
    ensures rates.None? <==> numbin < NumBin
    ensures rates.Some? ==> rates.value == RateVolume(d, numbin, q, linearNumbin)
  {
    var buffer := new int[numbin](_ => 0);
    for ii := 0 to NumBin
      invariant ii <= numbin
      invariant forall k :: 0 <= k < ii ==>
                  buffer[k] == if InBin(d, q, k, linearNumbin) then 1 else 0
      invariant forall k :: ii <= k < numbin ==> buffer[k] == 0
    {
      if ii >= numbin {
        return None;
      }
      var dup := ((Pow(q, ii + 1) - 1.0) / (q - 1.0)).Floor as real / linearNumbin as real;
      var dlow := ((Pow(q, ii) - 1.0) / (q - 1.0)).Floor as real / linearNumbin as real;
      assert dup == DUp(q, ii, linearNumbin) && dlow == DLow(q, ii, linearNumbin);
      buffer[ii] := if d <= dup && d >= dlow then 1 else 0;
    }
    rates := Some(buffer[..]);
  }

  /** Dividing by the positive bin count keeps the order of the edges. */
  lemma ScaledEdgeOrder(q: real, i: nat, j: nat, linearNumbin: nat)
    requires q > 1.0 && linearNumbin > 0
    requires i <= j
    ensures Edge(q, i) as real / linearNumbin as real <= Edge(q, j) as real / linearNumbin as real
  {
    EdgesIncrease(q, i, j);
    var l := linearNumbin as real;
    var a, b := Edge(q, i) as real, Edge(q, j) as real;
    assert b / l - a / l == (b - a) / l;
  }

  /** Every entry of the volume is 0 or 1, and an entry is 1 exactly when its
      bin is below NumBin and contains d. */
  lemma RatesAreIndicators(d: real, numbin: nat, q: real, linearNumbin: nat, ii: nat)
    requires q > 1.0 && linearNumbin > 0
    requires ii < numbin
    ensures RateVolume(d, numbin, q, linearNumbin)[ii] in {0, 1}
    ensures RateVolume(d, numbin, q, linearNumbin)[ii] == 1 <==>
              ii < NumBin && DLow(q, ii, linearNumbin) <= d <= DUp(q, ii, linearNumbin)
  {
  }

  /** A depth strictly inside bin ii sets that bin and no other. */
  lemma StrictlyInsideOneBin(d: real, numbin: nat, q: real, linearNumbin: nat, ii: nat)
    requires q > 1.0 && linearNumbin > 0
    requires NumBin <= numbin && ii < NumBin
    requires DLow(q, ii, linearNumbin) < d < DUp(q, ii, linearNumbin)
    ensures RateVolume(d, numbin, q, linearNumbin)[ii] == 1
    ensures forall k :: 0 <= k < numbin && k != ii ==> RateVolume(d, numbin, q, linearNumbin)[k] == 0
    ensures Sum(RateVolume(d, numbin, q, linearNumbin)) == 1
  {
    var r := RateVolume(d, numbin, q, linearNumbin);
    forall k | 0 <= k < numbin && k != ii
      ensures r[k] == 0
    {
      if k < ii {
        ScaledEdgeOrder(q, k + 1, ii, linearNumbin);
      } else {
        ScaledEdgeOrder(q, ii + 1, k, linearNumbin);
      }
    }
    SumAround(r, ii);
    SumOfConstant(r[..ii], 0);
    SumOfConstant(r[ii + 1..], 0);
  }

  /** A depth exactly on the interior edge between bins ii and ii + 1 sets both
      of them and no other. */
  lemma OnInteriorEdge(d: real, numbin: nat, q: real, linearNumbin: nat, ii: nat)
    requires q > 1.0 && linearNumbin > 0
    requires NumBin <= numbin && ii + 1 < NumBin
    requires d == DUp(q, ii, linearNumbin)
    ensures RateVolume(d, numbin, q, linearNumbin)[ii] == 1
    ensures RateVolume(d, numbin, q, linearNumbin)[ii + 1] == 1
    ensures forall k :: 0 <= k < numbin && k != ii && k != ii + 1 ==>
              RateVolume(d, numbin, q, linearNumbin)[k] == 0
    ensures Sum(RateVolume(d, numbin, q, linearNumbin)) == 2
  {
    var r := RateVolume(d, numbin, q, linearNumbin);
    EdgeTable(q, ii);
    EdgeTable(q, ii + 1);
    ScaledEdgeOrder(q, ii, ii + 1, linearNumbin);
    ScaledEdgeOrder(q, ii + 1, ii + 2, linearNumbin);
    forall k | 0 <= k < numbin && k != ii && k != ii + 1
      ensures r[k] == 0
    {
      if k < ii {
        EdgesIncrease(q, k + 1, ii + 1);
        assert Edge(q, k + 1) < Edge(q, ii + 1);
        ScaledStrictOrder(q, k + 1, ii + 1, linearNumbin);
      } else {
        EdgesIncrease(q, ii + 1, k);
        ScaledStrictOrder(q, ii + 1, k, linearNumbin);
      }
    }
    TwoHotSum(r, ii);
  }

  /** Strict version of ScaledEdgeOrder for distinct edges. */
  lemma ScaledStrictOrder(q: real, i: nat, j: nat, linearNumbin: nat)
    requires q > 1.0 && linearNumbin > 0
    requires i < j
    ensures Edge(q, i) as real / linearNumbin as real < Edge(q, j) as real / linearNumbin as real
  {
    EdgesIncrease(q, i, j);
    var l := linearNumbin as real;
    var a, b := Edge(q, i) as real, Edge(q, j) as real;
    assert b / l - a / l == (b - a) / l;
  }

  /** A depth below 0 or above the last edge dup[NumBin - 1] sets no bin. */
  lemma OutsideRange(d: real, numbin: nat, q: real, linearNumbin: nat)
    requires q > 1.0 && linearNumbin > 0
    requires NumBin <= numbin
    requires d < 0.0 || d > DUp(q, NumBin - 1, linearNumbin)
    ensures forall k :: 0 <= k < numbin ==> RateVolume(d, numbin, q, linearNumbin)[k] == 0
    ensures Sum(RateVolume(d, numbin, q, linearNumbin)) == 0
  {
    var r := RateVolume(d, numbin, q, linearNumbin);
    forall k | 0 <= k < numbin
      ensures r[k] == 0
    {
      if k < NumBin {
        ScaledEdgeOrder(q, k + 1, NumBin, linearNumbin);
        assert Low(q, 0) == 0 by { EdgeTable(q, 0); }
        ScaledEdgeOrder(q, 0, k, linearNumbin);
      }
    }
    SumOfConstant(r, 0);
  }

  /** A volume with a single 1 at position ii and 0 elsewhere sums to 1. */
  lemma OneHotSum(r: seq<int>, ii: nat)
    requires ii < |r| && r[ii] == 1
    requires forall k :: 0 <= k < |r| && k != ii ==> r[k] == 0
    ensures Sum(r) == 1
  {
    SumAround(r, ii);
    SumOfConstant(r[..ii], 0);
    SumOfConstant(r[ii + 1..], 0);
  }

  lemma TwoHotSum(r: seq<int>, ii: nat)
    requires ii + 1 < |r| && r[ii] == 1 && r[ii + 1] == 1
    requires forall k :: 0 <= k < |r| && k != ii && k != ii + 1 ==> r[k] == 0
    ensures Sum(r) == 2
  {
    SumAround(r, ii);
    SumOfConstant(r[..ii], 0);
    var tail := r[ii + 1..];
    OneHotSum(tail, 0);
  }

  /** The interval test against a scaled edge, without the division. */
  lemma ScaledCompare(e: int, d: real, linearNumbin: nat)
    requires linearNumbin > 0
    ensures e as real / linearNumbin as real <= d <==> e as real <= d * linearNumbin as real
    ensures d <= e as real / linearNumbin as real <==> d * linearNumbin as real <= e as real
  {
    var l := linearNumbin as real;
    assert (e as real / l) * l == e as real;
  }

  /** Every depth in [0, dup[NumBin - 1]] lies in some bin below NumBin. */
  lemma FindBin(d: real, q: real, linearNumbin: nat) returns (ii: nat)
    requires q > 1.0 && linearNumbin > 0
    requires 0.0 <= d <= DUp(q, NumBin - 1, linearNumbin)
    ensures ii < NumBin && InBin(d, q, ii, linearNumbin)
  {
    var x := d * linearNumbin as real;
    ScaledCompare(Up(q, NumBin - 1), d, linearNumbin);
    var t: nat := x.Floor;
    if t < Edge(q, NumBin) {
      ii := LogBinOf(q, NumBin, t);
      assert (t + 1) as real <= Up(q, ii) as real;
    } else {
      ii := NumBin - 1;
      EdgeTable(q, ii);
    }
    ScaledCompare(Low(q, ii), d, linearNumbin);
    ScaledCompare(Up(q, ii), d, linearNumbin);
  }

  /** Every depth in [0, dup[NumBin - 1]] sets one bin, or two adjacent bins
      when it lies on an interior edge. */
  lemma InRangeSetsOneOrTwo(d: real, numbin: nat, q: real, linearNumbin: nat)
    requires q > 1.0 && linearNumbin > 0
    requires NumBin <= numbin
    requires 0.0 <= d <= DUp(q, NumBin - 1, linearNumbin)
    ensures Sum(RateVolume(d, numbin, q, linearNumbin)) in {1, 2}
  {
    var r := RateVolume(d, numbin, q, linearNumbin);
    var ii := FindBin(d, q, linearNumbin);
    EdgeTable(q, ii);
    if DLow(q, ii, linearNumbin) < d < DUp(q, ii, linearNumbin) {
      StrictlyInsideOneBin(d, numbin, q, linearNumbin, ii);
    } else if d == DUp(q, ii, linearNumbin) && ii + 1 < NumBin {
      OnInteriorEdge(d, numbin, q, linearNumbin, ii);
    } else if d == DUp(q, ii, linearNumbin) {
      ScaledStrictOrder(q, ii, ii + 1, linearNumbin);
      forall k | 0 <= k < numbin && k != ii
        ensures r[k] == 0
      {
        if k < ii {
          ScaledEdgeOrder(q, k + 1, ii, linearNumbin);
        }
      }
      OneHotSum(r, ii);
    } else if 0 < ii {
      EdgeTable(q, ii - 1);
      OnInteriorEdge(d, numbin, q, linearNumbin, ii - 1);
    } else {
      forall k | 0 <= k < numbin && k != ii
        ensures r[k] == 0
      {
        if k < NumBin {
          ScaledStrictOrder(q, 0, k, linearNumbin);
        }
      }
      OneHotSum(r, ii);
    }
  }
}
