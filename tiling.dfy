/** The patch tiling of `process_denoise`: 128 x 128 patches at stride 64, each
    of which writes the sub-rectangle it owns into the preallocated frame
    `sargmax`. Rows and columns follow the same rule, so one set of interval
    functions serves both (with Dim1 for rows and Dim2 for columns). All slices
    are Python slices, clamped to the frame size. The network that produces a
    patch's output is opaque: `patchOut(ii, jj, r, c)` is the output of patch
    (ii, jj) at patch-local pixel (r, c). */
module Tiling {
  import opened Seqs

  const Dim1: nat := 128
  const Dim2: nat := 128
  const Step: nat := 64

  /** `num_row = int(np.floor(H / step))`, and likewise `num_col`. */
  function NumPatches(extent: nat): nat
  {
    extent / Step
  }

  /** `beginx` (`beginy`): the first patch keeps its leading edge, the others
      trim half a step. */
  function Begin(i: nat): nat
  {
    if i == 0 then 0 else Step / 2
  }

  /** `endx` (`endy`): the last patch keeps its trailing edge, the others trim
      half a step. */
  function End(i: nat, n: nat, dim: nat): nat
    requires dim >= Step / 2
  {
    if i as int == n as int - 1 then dim else dim - Step / 2
  }

  /** Length of the Python slice `[lo:hi]` of an axis of length `len`. */
  function SliceLen(lo: nat, hi: nat, len: nat): (k: nat)
    ensures forall s: seq<int> :: |s| == len ==> |PySlice(s, lo, hi)| == k
  {
    Max(0, Min(hi, len) - Min(lo, len))
  }

  /** First frame row (column) written by patch i: `i*step + beginx`, clamped. */
  function OwnedLo(i: nat, extent: nat): nat
  {
    Min(i * Step + Begin(i), extent)
  }

  /** End of the frame rows (columns) written by patch i: `i*step + endx`,
      clamped. */
  function OwnedHi(i: nat, extent: nat, dim: nat): nat
    requires dim >= Step / 2
  {
    Min(i * Step + End(i, NumPatches(extent), dim), extent)
  }

  /** The patch that owns frame row (column) r, in closed form. */
  function Owner(r: nat, extent: nat): (i: nat)
    ensures NumPatches(extent) > 0 ==> i < NumPatches(extent)
    ensures i * Step <= r
  {
    var n := NumPatches(extent);
    if n <= 1 || r < Step + Step / 2 then 0 else Min((r - Step / 2) / Step, n - 1)
  }

  /** The owned intervals tile the axis: the first starts at 0, each interior
      one ends exactly where the next begins (`i*64 + 96`), none is empty, and
      the last, clamped, ends at the frame size. Hence they are pairwise
      disjoint and cover [0, extent) whenever extent >= 64. */
  lemma OwnedIntervalsTile(extent: nat, dim: nat)
    requires dim == 2 * Step
    requires extent >= Step
    ensures OwnedLo(0, extent) == 0
    ensures OwnedHi(NumPatches(extent) - 1, extent, dim) == extent
    ensures forall i :: 0 <= i < NumPatches(extent) ==> OwnedLo(i, extent) < OwnedHi(i, extent, dim)
    ensures forall i :: 0 <= i < NumPatches(extent) - 1 ==>
              i * Step + End(i, NumPatches(extent), dim) == (i + 1) * Step + Begin(i + 1) &&
              OwnedHi(i, extent, dim) == OwnedLo(i + 1, extent)
  {
  }

  /** Row (column) r of the frame lies in the owned interval of patch i exactly
      when i is its owner: every row is written by exactly one patch. */
  lemma OwnerIff(r: nat, i: nat, extent: nat, dim: nat)
    requires dim == 2 * Step
    requires r < extent && i < NumPatches(extent)
    ensures OwnedLo(i, extent) <= r < OwnedHi(i, extent, dim) <==> Owner(r, extent) == i
  {
  }

  /** The destination slice of line 239 and the source slice of the patch
      (itself clamped when it was cut out of the frame) have the same length,
      so the slice assignment never mismatches in shape. */
  lemma SliceShapesAgree(i: nat, extent: nat, dim: nat)
    requires dim >= Step / 2
    requires i < NumPatches(extent)
    ensures var patchLen := SliceLen(i * Step, i * Step + dim, extent);
            var n := NumPatches(extent);
            SliceLen(i * Step + Begin(i), i * Step + End(i, n, dim), extent)
              == SliceLen(Begin(i), End(i, n, dim), patchLen)
  {
  }

  /** The value of frame pixel (r, c) after stitching: the owning patch's
      output at the pixel's patch-local coordinates; a frame smaller than one
      stride in either direction has no patch and stays 0. */
  function Stitched(h: nat, w: nat, patchOut: (nat, nat, nat, nat) -> real, r: nat, c: nat): real
  {
    if NumPatches(h) > 0 && NumPatches(w) > 0 then
      var ii, jj := Owner(r, h), Owner(c, w);
      patchOut(ii, jj, r - ii * Step, c - jj * Step)
    else 0.0
  }

  /** The nested ii/jj loop: a zero frame, then each patch's owned rectangle
      `sargmax[ii*step+beginx : ii*step+endx, jj*step+beginy : jj*step+endy]`
      receives `sargmax_patch[beginx:endx, beginy:endy]`. */
  method Stitch(h: nat, w: nat, patchOut: (nat, nat, nat, nat) -> real) returns (sargmax: array2<real>)
    ensures fresh(sargmax)
    ensures sargmax.Length0 == h && sargmax.Length1 == w
    ensures forall r, c :: 0 <= r < h && 0 <= c < w ==> sargmax[r, c] == Stitched(h, w, patchOut, r, c)
  {
    var numRow, numCol := NumPatches(h), NumPatches(w);
    sargmax := new real[h, w]((_, _) => 0.0);
    for ii := 0 to numRow
      invariant forall r, c :: 0 <= r < h && 0 <= c < w ==>
                  sargmax[r, c] == if numCol > 0 && Owner(r, h) < ii then Stitched(h, w, patchOut, r, c) else 0.0
    {
      for jj := 0 to numCol
        invariant forall r, c :: 0 <= r < h && 0 <= c < w ==>
                    sargmax[r, c] == if Owner(r, h) < ii || (Owner(r, h) == ii && Owner(c, w) < jj)
                                     then Stitched(h, w, patchOut, r, c) else 0.0
      {
        var beginx := if ii == 0 then 0 else Step / 2;
        var endx := if ii == numRow - 1 then Dim1 else Dim1 - Step / 2;
        var beginy := if jj == 0 then 0 else Step / 2;
        var endy := if jj == numCol - 1 then Dim2 else Dim2 - Step / 2;
        var rowLo, rowHi := Min(ii * Step + beginx, h), Min(ii * Step + endx, h);
        var colLo, colHi := Min(jj * Step + beginy, w), Min(jj * Step + endy, w);
        assert rowLo == OwnedLo(ii, h) && rowHi == OwnedHi(ii, h, Dim1);
        assert colLo == OwnedLo(jj, w) && colHi == OwnedHi(jj, w, Dim2);
        forall r, c | rowLo <= r < rowHi && colLo <= c < colHi {
          sargmax[r, c] := patchOut(ii, jj, r - ii * Step, c - jj * Step);
        }
        forall r | 0 <= r < h
          ensures rowLo <= r < rowHi <==> Owner(r, h) == ii
        {
          OwnerIff(r, ii, h, Dim1);
        }
        forall c | 0 <= c < w
          ensures colLo <= c < colHi <==> Owner(c, w) == jj
        {
          OwnerIff(c, jj, w, Dim2);
        }
      }
    }
  }
}
