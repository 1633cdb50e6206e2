/** `tologscale`: turns one pixel's linear photon-count histogram into a
    log-scale one. Log bin ii is the sum of the linear bins in the Python slice
    `rates[low[ii]:up[ii]]`; batch and spatial dimensions act element-wise and
    are dropped. */
module Rebin {
  import opened Seqs
  import opened BinEdges

  /** What log bin ii holds. */
  function BinTotal(rates: seq<int>, q: real, ii: nat): int
    requires q > 1.0
  {
    Sum(PySlice(rates, Low(q, ii), Up(q, ii)))
  }

  /** The rebinned histogram, the specification of ToLogScale. */
  function LogRebin(rates: seq<int>, numbin: nat, q: real): (r: seq<int>)
    requires q > 1.0
    ensures |r| == numbin
  {
    seq(numbin, ii requires 0 <= ii < numbin => BinTotal(rates, q, ii))
  }

  /** Fills a zero-initialised buffer of `numbin` log bins one bin at a time. */
  method ToLogScale(rates: seq<int>, numbin: nat, q: real) returns (logRates: seq<int>)
    requires q > 1.0
    ensures logRates == LogRebin(rates, numbin, q)
  {
    var buffer := new int[numbin](_ => 0);
    for ii := 0 to numbin
      invariant forall k :: 0 <= k < ii ==> buffer[k] == BinTotal(rates, q, k)
      invariant forall k :: ii <= k < numbin ==> buffer[k] == 0
    {
      var lo := ((Pow(q, ii) - 1.0) / (q - 1.0)).Floor;
      var hi := ((Pow(q, ii + 1) - 1.0) / (q - 1.0)).Floor;
      assert lo == Low(q, ii) && hi == Up(q, ii);
      buffer[ii] := Sum(PySlice(rates, lo, hi));
    }
    logRates := buffer[..];
  }

  /** The first n log bins together hold exactly the linear bins below the
      n-th edge (clamped to the histogram's length): nothing is lost or counted
      twice. */
  lemma {:induction false} RebinPrefixTotal(rates: seq<int>, n: nat, q: real)
    requires q > 1.0
    ensures Sum(LogRebin(rates, n, q)) == Sum(PySlice(rates, 0, Edge(q, n)))
  {
    if n == 0 {
      assert LogRebin(rates, 0, q) == [];
      assert Edge(q, 0) == 0 by { EdgeTable(q, 0); }
    } else {
      var r := LogRebin(rates, n, q);
      assert r[..n - 1] == LogRebin(rates, n - 1, q);
      RebinPrefixTotal(rates, n - 1, q);
      EdgeTable(q, n - 1);
      PySliceSplit(rates, 0, Edge(q, n - 1), Edge(q, n));
      SumConcat(PySlice(rates, 0, Edge(q, n - 1)), PySlice(rates, Edge(q, n - 1), Edge(q, n)));
    }
  }

  /** When the last edge reaches the histogram's end (the program's comment
      claims up[127] == 1024 for its 1024-bin histograms), rebinning preserves
      the total photon count. */
  lemma RebinPreservesTotal(rates: seq<int>, numbin: nat, q: real)
    requires q > 1.0
    requires |rates| <= Edge(q, numbin)
    ensures Sum(LogRebin(rates, numbin, q)) == Sum(rates)
  {
    RebinPrefixTotal(rates, numbin, q);
    assert PySlice(rates, 0, Edge(q, numbin)) == rates;
  }

  /** Non-negative photon counts give non-negative log bins. */
  lemma RebinNonNegative(rates: seq<int>, numbin: nat, q: real)
    requires q > 1.0
    requires forall t :: 0 <= t < |rates| ==> rates[t] >= 0
    ensures forall ii :: 0 <= ii < numbin ==> LogRebin(rates, numbin, q)[ii] >= 0
  {
    forall ii | 0 <= ii < numbin
      ensures LogRebin(rates, numbin, q)[ii] >= 0
    {
      SumNonNegative(PySlice(rates, Low(q, ii), Up(q, ii)));
    }
  }

  /** A histogram of all ones, long enough to cover every edge, rebins to the
      bin widths up[ii] - low[ii], and its log bins add up to the last edge. */
  lemma RebinOfOnes(rates: seq<int>, numbin: nat, q: real)
    requires q > 1.0
    requires forall t :: 0 <= t < |rates| ==> rates[t] == 1
    requires Edge(q, numbin) <= |rates|
    ensures forall ii :: 0 <= ii < numbin ==>
              LogRebin(rates, numbin, q)[ii] == Up(q, ii) - Low(q, ii)
    ensures Sum(LogRebin(rates, numbin, q)) == Edge(q, numbin)
  {
    forall ii | 0 <= ii < numbin
      ensures LogRebin(rates, numbin, q)[ii] == Up(q, ii) - Low(q, ii)
    {
      EdgeTable(q, ii);
      EdgesIncrease(q, ii + 1, numbin);
      var s := PySlice(rates, Low(q, ii), Up(q, ii));
      SumOfConstant(s, 1);
    }
    RebinPrefixTotal(rates, numbin, q);
    SumOfConstant(PySlice(rates, 0, Edge(q, numbin)), 1);
  }
}
