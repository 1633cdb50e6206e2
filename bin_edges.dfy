/** The log-scale bin-edge table shared by the rebinner and the up-projector.
    Bin ii (0-based) covers the linear bins [Edge(q, ii), Edge(q, ii + 1)),
    where Edge(q, n) = floor((q^n - 1) / (q - 1)); the program evaluates it in
    floating point, the model over exact reals. */
module BinEdges {

  /** Number of log-scale bins; also the loop bound of the up-projector. */
  const NumBin: nat := 128

  function Pow(q: real, n: nat): real
  {
    if n == 0 then 1.0 else q * Pow(q, n - 1)
  }

  lemma {:induction false} PowAtLeastOne(q: real, n: nat)
    requires q > 1.0
    ensures Pow(q, n) >= 1.0
  {
    if n > 0 {
      PowAtLeastOne(q, n - 1);
      assert q * Pow(q, n - 1) >= 1.0 * Pow(q, n - 1);
    }
  }

  /** The unrounded edge (q^n - 1) / (q - 1), the partial geometric sum
      1 + q + ... + q^(n-1). */
  function Geometric(q: real, n: nat): (g: real)
    requires q > 1.0
    ensures g >= 0.0
  {
    PowAtLeastOne(q, n);
    (Pow(q, n) - 1.0) / (q - 1.0)
  }

  /** Each step of the geometric sum adds q^n, which is at least 1. */
  lemma GeometricStep(q: real, n: nat)
    requires q > 1.0
    ensures Geometric(q, n + 1) == Geometric(q, n) + Pow(q, n)
    ensures Pow(q, n) >= 1.0
  {
    PowAtLeastOne(q, n);
    var p := Pow(q, n);
    var d := q - 1.0;
    assert Pow(q, n + 1) - 1.0 == (p - 1.0) + d * p;
    assert ((p - 1.0) + d * p) / d == (p - 1.0) / d + p;
  }

  /** The integer edge `floor((q^n - 1) / (q - 1))`. */
  function Edge(q: real, n: nat): nat
    requires q > 1.0
  {
    Geometric(q, n).Floor
  }

  /** `low[ii]` of the source's table. */
  function Low(q: real, ii: nat): nat
    requires q > 1.0
  {
    Edge(q, ii)
  }

  /** `up[ii]` of the source's table. */
  function Up(q: real, ii: nat): nat
    requires q > 1.0
  {
    Edge(q, ii + 1)
  }

  /** The table starts at 0, consecutive bins abut, and every bin is non-empty. */
  lemma EdgeTable(q: real, ii: nat)
    requires q > 1.0
    ensures Low(q, 0) == 0
    ensures Low(q, ii + 1) == Up(q, ii)
    ensures Low(q, ii) < Up(q, ii)
  {
    GeometricStep(q, ii);
    var g := Geometric(q, ii);
    var g' := Geometric(q, ii + 1);
    assert g.Floor as real <= g;
    assert (g.Floor + 1) as real <= g';
  }

  /** The edges grow by at least one per bin, so they are strictly increasing. */
  lemma {:induction false} EdgesIncrease(q: real, i: nat, j: nat)
    requires q > 1.0
    requires i <= j
    ensures Edge(q, i) + (j - i) <= Edge(q, j)
  {
    if i < j {
      EdgesIncrease(q, i, j - 1);
      EdgeTable(q, j - 1);
    }
  }

  /** The log bins partition [0, Up(q, numbin - 1)): every linear bin t below
      the last edge lies in the log bin returned here ... */
  function LogBinOf(q: real, numbin: nat, t: nat): (ii: nat)
    requires q > 1.0
    requires t < Edge(q, numbin)
    ensures ii < numbin
    ensures Low(q, ii) <= t < Up(q, ii)
  {
    if Edge(q, numbin - 1) <= t then numbin - 1
    else LogBinOf(q, numbin - 1, t)
  }

  /** ... and in no other log bin. */
  lemma LogBinUnique(q: real, numbin: nat, t: nat, ii: nat)
    requires q > 1.0
    requires t < Edge(q, numbin)
    requires Low(q, ii) <= t < Up(q, ii)
    ensures ii == LogBinOf(q, numbin, t)
  {
    var jj := LogBinOf(q, numbin, t);
    if ii < jj {
      EdgesIncrease(q, ii + 1, jj);
    } else if jj < ii {
      EdgesIncrease(q, jj + 1, ii);
    }
  }
}
