# SPADNet evaluation core in Dafny

A model of the computational core of `evaluate_spadnet.py`. That script evaluates the
SPADNet depth-denoising network on SPAD (single-photon avalanche diode) histograms.
The model covers five parts:

- **Bin edges and log-scale rebinning** (`tologscale`, files `bin_edges.dfy`,
  `rebin.dfy`).
  - Bin `ii` covers the linear bins `[floor((q^ii-1)/(q-1)), floor((q^(ii+1)-1)/(q-1)))`.
  - A log bin is the sum of the linear bins in that Python slice. The slice is clamped
    to the histogram length.
  - One pixel's histogram is a `seq<int>`. The batch and spatial axes act element-wise,
    so the model drops them.
  - The edges are computed over exact reals, with a recursive power and `.Floor`.
  - `ToLogScale` fills a zero buffer bin by bin. It is proved equal to the specification
    function `LogRebin`.
- **Depth-to-rate up-projection** (`dmap2pc`, file `up_projection.dfy`).
  - Bin `ii` is 1 exactly when `dlow[ii] <= d <= dup[ii]`. Both bounds are inclusive.
  - The loop runs to the global `NUMBIN`, not to the `numbin` parameter.
  - `DepthToRates` returns `None` where the program would index past its edge table.
- **Patch tiling and stitching** (the inner loops of `process_denoise`, file `tiling.dfy`).
  - Patches are 128 by 128 at stride 64.
  - Each patch owns a trimmed sub-rectangle. Every slice is clamped to the frame.
  - The network is opaque: `patchOut(ii, jj, r, c)` is patch `(ii, jj)`'s output at a
    patch-local pixel.
  - `Stitch` writes a 2D array in nested loops. It is proved to put the owner patch's
    value on every pixel.
- **Metric accumulator** (`eval_module`, file `metrics.dfy`).
  - A class with the six-key `totalLosses` map, `numPixels` and `nIters`.
  - A ghost history of the accumulated frames ties every total to a function of that
    history.
- **Output path derivation** (`get_output_file`, file `output_path.dfy`).
  - Python's left-to-right, non-overlapping `str.replace` and the leftmost
    `re.search(r'\w+/spad_', ...)`, as functions on strings.

## Model

| member | source | states |
|---|---|---|
| BinEdges.Edge | evaluate_spadnet.py:67-68 | definition: floor((q^n - 1) / (q - 1)), over exact reals |
| BinEdges.Low | evaluate_spadnet.py:68 | definition: low[ii] is Edge(q, ii) |
| BinEdges.Up | evaluate_spadnet.py:67 | definition: up[ii] is Edge(q, ii + 1) |
| BinEdges.GeometricStep | evaluate_spadnet.py:67-68 | the unrounded edge grows by q^n, which is at least 1, from one index to the next |
| BinEdges.EdgeTable | evaluate_spadnet.py:66-68 | low[0] == 0, low[ii+1] == up[ii] and low[ii] < up[ii] for every q > 1 |
| BinEdges.EdgesIncrease | evaluate_spadnet.py:66-68 | edges grow by at least one per bin, so they are strictly increasing |
| BinEdges.LogBinOf | evaluate_spadnet.py:66-68 | every linear bin below the last edge lies in some log bin below numbin |
| BinEdges.LogBinUnique | evaluate_spadnet.py:66-68 | no linear bin lies in two log bins, so the log bins partition [0, up[numbin-1]) |
| Seqs.Sum | evaluate_spadnet.py:72 | definition: `torch.sum` over the rebinned axis, the sum of a sequence of counts |
| Seqs.PySlice | evaluate_spadnet.py:72 | the length and contents of a Python slice whose bounds are clamped to the sequence length |
| Seqs.PySliceSplit | evaluate_spadnet.py:72 | adjacent clamped slices concatenate to the slice over their union |
| Rebin.LogRebin | evaluate_spadnet.py:70-72 | definition: numbin log bins, bin ii the sum of rates[low[ii]:up[ii]] with the slice clamped |
| Rebin.ToLogScale | evaluate_spadnet.py:61-74 | the zero-initialised buffer filled bin by bin is exactly LogRebin: bin ii is the sum of rates[low[ii]:up[ii]] |
| Rebin.RebinPrefixTotal | evaluate_spadnet.py:70-72 | the first n log bins sum to the linear bins below edge n (clamped), with no loss or double counting |
| Rebin.RebinPreservesTotal | evaluate_spadnet.py:58 | when the last edge reaches the histogram length (up[127] == 1024 for 1024 bins), the log bins sum to the whole histogram |
| Rebin.RebinNonNegative | evaluate_spadnet.py:72 | non-negative photon counts give non-negative log bins |
| Rebin.RebinOfOnes | evaluate_spadnet.py:72 | an all-ones histogram covering every edge rebins to the widths up[ii] - low[ii], which sum to the last edge |
| UpProjection.DLow | evaluate_spadnet.py:82 | definition: dlow[ii] is low[ii] / linear_numbin |
| UpProjection.DUp | evaluate_spadnet.py:81 | definition: dup[ii] is up[ii] / linear_numbin |
| UpProjection.InBin | evaluate_spadnet.py:89 | definition: the inclusive test dlow[ii] <= d <= dup[ii] |
| UpProjection.RateVolume | evaluate_spadnet.py:87-89 | definition: numbin entries, entry ii is 1 when ii < NUMBIN and dlow[ii] <= d <= dup[ii], else 0 |
| UpProjection.DepthToRates | evaluate_spadnet.py:77-93 | the loop to the global NUMBIN fails exactly when numbin < NUMBIN; otherwise its buffer equals RateVolume |
| UpProjection.RatesAreIndicators | evaluate_spadnet.py:87-89 | every entry is 0 or 1, and is 1 iff its bin is below NUMBIN and dlow[ii] <= d <= dup[ii] |
| UpProjection.StrictlyInsideOneBin | evaluate_spadnet.py:81-82 | a depth strictly inside a bin sets that bin only, and the volume sums to 1 |
| UpProjection.OnInteriorEdge | evaluate_spadnet.py:89 | a depth on the edge between bins ii and ii+1 sets both of them only, and the volume sums to 2 |
| UpProjection.OutsideRange | evaluate_spadnet.py:81-82 | a depth below 0 or above dup[NUMBIN-1] sets no bin |
| UpProjection.FindBin | evaluate_spadnet.py:81-82 | every depth in [0, dup[NUMBIN-1]] lies in some bin below NUMBIN |
| UpProjection.InRangeSetsOneOrTwo | evaluate_spadnet.py:81-89 | every depth in [0, dup[NUMBIN-1]] sets exactly one or two bins |
| UpProjection.ScaledEdgeOrder | evaluate_spadnet.py:81-82 | dividing by linear_numbin keeps the edges ordered |
| UpProjection.ScaledStrictOrder | evaluate_spadnet.py:81-82 | dividing by linear_numbin keeps distinct edges strictly ordered |
| Tiling.NumPatches | evaluate_spadnet.py:218-219 | definition: num_row / num_col, floor(extent / 64) |
| Tiling.Begin | evaluate_spadnet.py:234-236 | definition: beginx / beginy, 0 for the first patch and 32 otherwise |
| Tiling.End | evaluate_spadnet.py:235-237 | definition: endx / endy, dim (128) for the last patch and dim - 32 otherwise |
| Tiling.OwnedLo | evaluate_spadnet.py:239 | definition: the clamped start ii*64 + beginx of the destination slice |
| Tiling.OwnedHi | evaluate_spadnet.py:239 | definition: the clamped end ii*64 + endx of the destination slice |
| Tiling.SliceLen | evaluate_spadnet.py:226 | the length of a clamped Python slice of an axis |
| Tiling.OwnedIntervalsTile | evaluate_spadnet.py:218-239 | owned intervals start at 0, each interior one ends where the next begins (ii*64+96), none is empty, and the last ends at H; they tile [0, H) once H >= 64 |
| Tiling.OwnerIff | evaluate_spadnet.py:234-239 | a row lies in patch i's owned interval iff i is its owner, so every pixel is written by exactly one patch |
| Tiling.Owner | evaluate_spadnet.py:218-237 | the owner of a row is a valid patch index whose patch starts at or before the row |
| Tiling.SliceShapesAgree | evaluate_spadnet.py:226-239 | the clamped destination and source slices of the stitching assignment have equal lengths |
| Tiling.Stitched | evaluate_spadnet.py:239 | definition: the owner patch's output at the pixel's patch-local position, or 0 when the frame has no patch |
| Tiling.Stitch | evaluate_spadnet.py:214-239 | the frame has size H x W, and each pixel (r, c) holds the owner patch's output at (r - ii*64, c - jj*64), or 0 when no patch fits |
| Metrics.MaskCount | evaluate_spadnet.py:176 | the number of valid pixels is at most the mask size |
| Metrics.MaskedSquaredError | evaluate_spadnet.py:177 | the masked squared error is non-negative |
| Metrics.MetricOfKey | evaluate_spadnet.py:148-155 | a key found names a metric stored under exactly that key |
| Metrics.NameRoundTrip | evaluate_spadnet.py:148-155 | looking up a metric's key gives that metric back |
| Metrics.NameInjective | evaluate_spadnet.py:148-155 | the six metrics have six distinct dictionary keys |
| Metrics.Position | evaluate_spadnet.py:148-155 | the place of each metric in the loss list; rmse is the one key outside it |
| Metrics.MetricTotalSnoc | evaluate_spadnet.py:176-177 | a frame adds its weighted loss (or its squared error, for rmse) to a total |
| Metrics.PixelCountSnoc | evaluate_spadnet.py:178 | a frame adds its valid-pixel count to the pixel count |
| Metrics.AddedValues | evaluate_spadnet.py:174-176 | after the first i names of the loss list, exactly those keys have gained loss * sum(mask) and every other key is unchanged |
| Metrics.AddLosses | evaluate_spadnet.py:174-176 | the loop over loss_fns keeps the six keys, adds loss * sum(mask) to each named key and leaves rmse unchanged |
| Metrics.AppendFrame | evaluate_spadnet.py:174-177 | the named-key additions followed by the rmse addition give the totals of the history extended by one frame |
| Metrics.EvalModule.Valid | evaluate_spadnet.py:154-178 | the class invariant: every entry of total_losses is that metric's total over the frames accumulated so far, Num_pixels is their valid-pixel count, and every frame's squared error is non-negative |
| Metrics.EvalModule.constructor | evaluate_spadnet.py:148-158 | exactly the six keys ("delta1" … "rmse"), all 0; Num_pixels and n_iters are 0; establishes Valid over the empty history |
| Metrics.EvalModule.CalculateMatrices | evaluate_spadnet.py:171-179 | adds loss * sum(mask) to every named key, the masked squared error to rmse and sum(mask) to Num_pixels, keeping the keys; the frame joins the history and Valid is preserved, so the totals stay the history's totals |
| Metrics.EvalModule.CountIteration | evaluate_spadnet.py:256 | n_iters goes up by one per batch |
| Metrics.EvalModule.SummaryMatrices | evaluate_spadnet.py:182-185 | succeeds iff there is a valid pixel; then every key's average is its total over the history divided by Num_pixels, and the rmse entry is non-negative |
| Metrics.Average | evaluate_spadnet.py:184 | definition: a metric's total over the history divided by the pixel count |
| Metrics.FractionTotalBounded | evaluate_spadnet.py:176 | per-frame losses in [0, 1] (delta accuracies) keep their total between 0 and Num_pixels |
| Metrics.FractionAverageBounded | evaluate_spadnet.py:184 | such losses average into [0, 1] |
| Metrics.ConstantLossTotal | evaluate_spadnet.py:176 | a loss of constant value v totals v * Num_pixels |
| Metrics.ConstantLossAverage | evaluate_spadnet.py:184 | the pixel-weighted average of a constant loss v is v |
| Metrics.SquaredErrorTotalNonNegative | evaluate_spadnet.py:177 | the accumulated rmse total is non-negative |
| OutputPath.Replace | evaluate_spadnet.py:163-167 | definition: Python's `str.replace`, scanning left to right and resuming after each replaced occurrence; the empty pattern goes to InsertEverywhere |
| OutputPath.InsertEverywhere | evaluate_spadnet.py:164 | definition: `s.replace('', rep)`, rep before every character and at the end |
| OutputPath.InsertNothing | evaluate_spadnet.py:164 | replacing an empty spad_datapath by '' leaves the name unchanged |
| OutputPath.ReplaceAbsent | evaluate_spadnet.py:163-167 | a string without the pattern is left unchanged |
| OutputPath.ReplaceAtMatch | evaluate_spadnet.py:163-167 | definition step of Replace: an occurrence at the front is replaced and scanning resumes after it |
| OutputPath.ReplaceAtOther | evaluate_spadnet.py:163-167 | definition step of Replace: a front character that starts no occurrence is copied unchanged |
| OutputPath.ReplaceLeftmost | evaluate_spadnet.py:163-167 | the leftmost occurrence is replaced, and scanning resumes after it |
| OutputPath.ReplaceAcross | evaluate_spadnet.py:166 | replacing in a + tail, where the first character of tail is absent from the pattern, is replacing in a and in the rest of tail separately, with that character kept between them |
| OutputPath.NoOccurrenceBefore | evaluate_spadnet.py:166 | appending a tail whose first character is not in the pattern creates no occurrence at the front |
| OutputPath.ReplaceKeepsLength | evaluate_spadnet.py:163 | replacing '.mat' by '.npy' keeps the length |
| OutputPath.IsWordChar | evaluate_spadnet.py:165 | definition: the `\w` class, read as ASCII letters, digits and underscore |
| OutputPath.WordRunEnd | evaluate_spadnet.py:165 | the end of the maximal run of word characters |
| OutputPath.MatchesAtIsRegexMatch | evaluate_spadnet.py:165 | a match at i exists iff some non-empty word run from i is followed by '/spad_', and that run is unique |
| OutputPath.SearchFrom | evaluate_spadnet.py:165 | the leftmost match at or after i, or none at all |
| OutputPath.Search | evaluate_spadnet.py:165 | no result iff there is no match; a result is the text of s from the leftmost match start through the word run and '/spad_', so non-empty word characters followed by '/spad_' |
| OutputPath.SearchWord | evaluate_spadnet.py:165 | the word part of the result is exactly the word run at the leftmost match |
| OutputPath.StripMarker | evaluate_spadnet.py:166 | removing 'spad_' from a match leaves its word part followed by '/' |
| OutputPath.Subfolder | evaluate_spadnet.py:166 | the sub-folder is out_datapath, then the match's word part with 'spad_' removed, then '/' |
| OutputPath.StrippedName | evaluate_spadnet.py:163-164 | definition: '.mat' replaced by '.npy', then spad_datapath removed |
| OutputPath.GetOutputFile | evaluate_spadnet.py:161-169 | fails iff the stripped name has no match; otherwise the sub-folder starts with out_datapath and ends with '/', and the file name is the stripped name with every 'spad_' removed |
| OutputPath.SubfolderOfLeftmostMatch | evaluate_spadnet.py:163-166 | the sub-folder is out_datapath, then the word run at the leftmost match of the stripped name with 'spad_' removed, then '/' |

## Left out

- Configuration and command line (`parse_arguments`, argparse, ConfigParser): foreign library calls and configuration lookups.
- `main`: dynamic model dispatch, checkpoint loading and `DataLoader` construction are library plumbing.
- GPU and autograd plumbing (`.cuda()`, `Variable`, `requires_grad_`): they do not change values. `.type(dtype)` with `dtype = torch.cuda.FloatTensor` (evaluate_spadnet.py:27) casts to 32-bit floats; the model takes the depths and histograms as exact values after that cast.
- The network itself: it is the opaque parameter `patchOut` of `Tiling.Stitch`.
- The metric functions `delta`, `rel_abs_diff` and `rel_sqr_diff`: `matrices_spadnet` is not part of this model. Their per-frame values are the opaque `loss` argument of `CalculateMatrices`.
- Metrics.EvalModule.SummaryMatrices: does not take `np.sqrt` of the rmse entry, so that entry holds the mean squared error. Real square roots are not available.
- Metrics.EvalModule.SummaryMatrices: with no valid pixel the program divides by zero. A Python 0 raises, and a numpy 0 gives nan. The model reports failure and stores nothing.
- Metrics.EvalModule.CalculateMatrices: the `*= 12.276` conversion to metres and the per-frame RMSE `print` are not modelled. The inputs are taken as already converted.
- Floating-point rounding: `np.power` and `np.floor` are evaluated over exact reals. `up[127] == 1024` for `Q = 1.02638` is not proved. `Rebin.RebinPreservesTotal` takes the matching condition as a precondition.
- BinEdges and UpProjection require `q > 1` and `linear_numbin > 0`: every call passes `Q = 1.02638` and `Linear_NUMBIN = 1024` (evaluate_spadnet.py:228-229), so q > 1 is the only case modelled.
- `dmid`: the program computes it and never uses it.
- Batch and spatial axes of `tologscale` and `dmap2pc`: they act element-wise, so the model works on one pixel. `Tiling.Stitch` and `CalculateMatrices` likewise work on one batch element (evaluate_spadnet.py:239, 241-253); the batch loop repeats them per element.
- OutputPath: `\w` is modelled as the ASCII word characters. Python's Unicode word characters are not modelled.
- The 17/15-pixel border crop (evaluate_spadnet.py:248-250): `CalculateMatrices` takes the cropped, flattened frames as given.
- Tiling.SliceShapesAgree and Tiling.Stitch assume the opaque network (evaluate_spadnet.py:232) returns a patch with the same spatial size as its input; `patchOut` is read only at positions inside the owned sub-rectangle.
- Metrics: depths, per-frame losses and the sums of evaluate_spadnet.py:176-178 are exact reals, so floating-point rounding of the totals is not modelled.
- OutputPath.GetOutputFile: a failed match raises in the program (`.group(0)` on None). The model returns None.
- File and console effects: `np.save`, `os.mkdir`, `json.dump`, `print` and `tqdm`. The prefixing of `out_datapath` to the saved name only feeds them.

Three behaviours of the code that are easy to misread:

- Rows and columns beyond `num_row*64` are covered. The last patch's owned interval is clamped to the frame size, so coverage runs to `H` and `W`, not only to `num_row*64`.
- A frame with 64 <= H < 128 does not fail. Its single patch is read and written through clamped slices. A frame smaller than 64 in either direction has no patch and stays zero.
- Rebinning preserves the total only when the last edge reaches the histogram length. Linear bins past `up[numbin-1]` are dropped.
