# Wavelet soft-threshold denoising — a Dafny model

This project models `wavelet_denoise`, the wavelet-domain denoising stage of a
grayscale image restoration pipeline. A call does the following:

1. It decomposes the image into an approximation subband and a list of detail
   levels. Each level is a (horizontal, vertical, diagonal) triple of subbands,
   and the list runs from the coarsest level to the finest.
2. It estimates the noise scale σ as the median of the magnitudes of the finest
   horizontal subband, divided by 0.6745.
3. It derives one universal threshold τ = σ·sqrt(2 ln N) from σ, where N is the
   number of samples in the image.
4. It soft-thresholds every detail subband at every level with that one τ, in a
   loop that builds a new detail list.
5. It reconstructs from the untouched approximation and the new detail list.
6. It clips the result to [0, 255] and truncates it to unsigned 8-bit samples.

Files:

- `statistics.dfy`, module `Statistics`: the median of a finite sequence of
  reals, as numpy computes it over a flattened array. The values are sorted by
  an insertion sort, proved to give a sorted permutation. The result is the
  middle value, or the mean of the two middle values when their number is even.
- `wavelet_denoise.dfy`, module `WaveletDenoise`: the data model (`Matrix`,
  `Detail`, `Decomposition`, `Byte`, `Image`), soft thresholding, the subband
  loop (the method `ThresholdDetails`), σ, τ, quantisation, and the whole call
  (the function `Denoise`, implemented by the method `WaveletDenoise`).

The forward and inverse wavelet transforms (`pywt.wavedec2` and
`pywt.waverec2`) are parameters `decompose` and `reconstruct` of the model.
The wavelet family and the decomposition depth are folded into them. The factor
sqrt(2 ln N) is the parameter `rootTwoLog`, applied to the image's sample count.

Two points of the code's behaviour are easy to misread:

- The transform returns the detail levels from the coarsest to the finest. The
  code takes the finest horizontal subband as `cD[-1][0]`, the first subband of
  the last level (wavelet_denoise.py:34). `FinestHorizontal` does the same.
- An empty finest horizontal subband is not reported as an error by the code.
  numpy's median returns NaN, so τ and every thresholded coefficient are NaN, and
  so is the reconstructed float grid. The uint8 cast of NaN is not NaN: its
  value is unspecified. Reals have no NaN, so the model returns
  `Failure(EmptySubband)` instead. A decomposition with no detail level makes
  `cD[-1]` raise an index error. The model returns `Failure(NoDetailLevels)`
  for it.

The soft threshold is modelled by the formula sign(c)·max(abs(c) − τ, 0). The
wavelet library computes it as c·max(1 − τ/abs(c), 0). The two forms agree for
c ≠ 0, and for c = 0 when τ > 0 (`LibraryAgreesOffZero`). At c = 0 and τ = 0 the
library computes 0·(1 − 0/0), which is NaN. This is recorded under "## Findings".
The rest of the model uses the exact formula, in which a zero coefficient stays
zero.

## Model

| member | source | states |
|---|---|---|
| `Statistics.Insert` | wavelet_denoise.py:34 | inserting into a sorted sequence keeps it sorted and adds exactly the one value to its multiset |
| `Statistics.Sort` | wavelet_denoise.py:34 | the sorted values the median is taken over are in ascending order and are a permutation of the input |
| `Statistics.SortedUnique` | wavelet_denoise.py:34 | two sorted sequences with the same multiset of values are equal, so the sorted order is unique |
| `Statistics.Middle` | wavelet_denoise.py:34 | the middle of a sorted sequence (middle value, or mean of the two middle values) is at least every value in the lower half and at most every value in the upper half |
| `Statistics.Median` | wavelet_denoise.py:34 | the median is at least the lower half of the sorted values and at most the upper half |
| `Statistics.MedianOfPermutation` | wavelet_denoise.py:34 | the median depends only on the multiset of values, not on the order in which the subband is flattened |
| `Statistics.MedianAtLeast` | wavelet_denoise.py:34 | a lower bound of every value bounds the median from below (so a median of magnitudes is non-negative) |
| `Statistics.MedianAtMost` | wavelet_denoise.py:34 | an upper bound of every value bounds the median from above |
| `WaveletDenoise.SoftThreshold` | wavelet_denoise.py:52-58 | a coefficient with magnitude at most τ (c = τ included) becomes 0, a larger one becomes sign(c)·(abs(c) − τ); for τ ≥ 0 the magnitude never grows and the sign never flips |
| `WaveletDenoise.SoftThresholdAntitone` | wavelet_denoise.py:52-58 | a larger τ gives a magnitude no larger than a smaller τ does |
| `WaveletDenoise.SoftThresholdAtZero` | wavelet_denoise.py:52-58 | τ = 0 leaves every coefficient unchanged |
| `WaveletDenoise.ThresholdMatrix` | wavelet_denoise.py:52 | thresholding a subband keeps its shape and applies the soft threshold to each coefficient with the same τ |
| `WaveletDenoise.ThresholdMatrixAtZero` | wavelet_denoise.py:52-58 | a subband thresholded at τ = 0 comes back unchanged |
| `WaveletDenoise.ThresholdMatrixAntitone` | wavelet_denoise.py:52-58 | a subband thresholded with a larger τ is dominated, coefficient by coefficient in magnitude, by the same subband thresholded with a smaller τ |
| `WaveletDenoise.ThresholdLevel` | wavelet_denoise.py:52-58 | thresholding one level keeps the shape of its H, V and D subbands, and every coefficient of each of the three becomes its soft threshold with the same τ |
| `WaveletDenoise.ThresholdedDetails` | wavelet_denoise.py:46-61 | the thresholded detail list has the same number of levels as the input and the same subband shapes at every level |
| `WaveletDenoise.ThresholdedDetailsEntries` | wavelet_denoise.py:38-58 | one τ is applied everywhere: at every level l, every coefficient of H, V and D becomes its soft threshold with that τ (the threshold is not level- or subband-adaptive) |
| `WaveletDenoise.ThresholdedDetailsAtZero` | wavelet_denoise.py:46-61 | with τ = 0 the thresholding stage is the identity on the detail list |
| `WaveletDenoise.ThresholdedDetailsAntitone` | wavelet_denoise.py:46-61 | a larger τ never increases the magnitude of any detail coefficient in any subband at any level |
| `WaveletDenoise.ThresholdDetails` | wavelet_denoise.py:46-61 | the loop yields level l's (H, V, D) triple thresholded with the one τ at position l, for every level in order; shapes are kept; τ = 0 returns the input list |
| `WaveletDenoise.LibrarySoftThreshold` | wavelet_denoise.py:52-58 | the library's form c·max(1 − τ/abs(c), 0) gives NaN exactly when c = 0 and τ ≤ 0 |
| `WaveletDenoise.LibraryAgreesOffZero` | wavelet_denoise.py:52-58 | when c ≠ 0 or τ > 0, the library's form gives exactly the soft threshold sign(c)·max(abs(c) − τ, 0) |
| `WaveletDenoise.LibraryThresholdMatrix` | wavelet_denoise.py:52-58 | the library's threshold keeps a subband's shape and applies its per-coefficient form to every entry |
| `WaveletDenoise.ZeroNoiseLibraryYieldsNaN` | wavelet_denoise.py:34-52 | as written, a non-empty all-zero finest horizontal subband gives σ = 0 and τ = 0, and the library then turns every one of its coefficients into NaN |
| `WaveletDenoise.Denoised` | wavelet_denoise.py:70 | the decomposition handed to reconstruction has the original approximation subband and a detail list of unchanged shapes |
| `WaveletDenoise.AbsMatrix` | wavelet_denoise.py:34 | taking magnitudes keeps the subband's shape, and each entry is the magnitude of its coefficient |
| `WaveletDenoise.Flatten` | wavelet_denoise.py:34 | the flattened subband is empty exactly when every row is empty |
| `WaveletDenoise.FlattenAtLeast` | wavelet_denoise.py:34 | a lower bound of every coefficient bounds every flattened value |
| `WaveletDenoise.FlattenAtMost` | wavelet_denoise.py:34 | an upper bound of every coefficient bounds every flattened value |
| `WaveletDenoise.ThresholdedFinestHorizontal` | wavelet_denoise.py:34-61 | the finest horizontal subband of the thresholded list is the thresholded original, so σ must be, and is, read from the list before the loop |
| `WaveletDenoise.EstimateSigma` | wavelet_denoise.py:33-34 | σ is read from `FinestHorizontal`, which is `cD[-1][0]`: the H subband of the last, finest level of the original detail list. σ fails exactly when there is no detail level (`NoDetailLevels`) or that subband is empty (`EmptySubband`, the only error once a level exists); otherwise σ ≥ 0 |
| `WaveletDenoise.UniversalThreshold` | wavelet_denoise.py:38 | τ ≥ 0 when σ ≥ 0 and the factor is ≥ 0; σ = 0 gives τ = 0 |
| `WaveletDenoise.EstimateSigmaBounds` | wavelet_denoise.py:34 | if every finest horizontal magnitude lies in [lo, hi], then σ·0.6745 lies in [lo, hi] |
| `WaveletDenoise.SigmaOfZeroSubband` | wavelet_denoise.py:34 | an all-zero finest horizontal subband with at least one coefficient gives σ = 0 |
| `WaveletDenoise.ZeroNoiseIsIdentity` | wavelet_denoise.py:34-61 | an all-zero finest horizontal subband gives σ = 0 and a decomposition that reaches reconstruction unchanged |
| `WaveletDenoise.Clip` | wavelet_denoise.py:73 | clipping lands in [0, 255], keeps in-range values, and sends values below 0 to 0 and above 255 to 255 |
| `WaveletDenoise.ToByte` | wavelet_denoise.py:73-76 | the 8-bit sample is the floor of the clipped value (truncation, not rounding) and lies in [0, 255] |
| `WaveletDenoise.ToByteMonotone` | wavelet_denoise.py:73-76 | quantisation keeps the order of samples |
| `WaveletDenoise.ToByteOfSample` | wavelet_denoise.py:73-76 | an exact 8-bit value comes through quantisation unchanged |
| `WaveletDenoise.Quantize` | wavelet_denoise.py:73-76 | the output grid has the shape of the reconstructed grid, and every sample is in [0, 255] and is the floor of the clipped value |
| `WaveletDenoise.ToMatrix` | wavelet_denoise.py:16 | an image read as reals keeps its shape and its sample values |
| `WaveletDenoise.QuantizeOfImage` | wavelet_denoise.py:73-76 | quantising a grid that holds an image's own samples gives that image back |
| `WaveletDenoise.SampleCount` | wavelet_denoise.py:38 | `img.size`: the number of samples, which is 0 exactly when every row is empty |
| `WaveletDenoise.SampleCountRectangular` | wavelet_denoise.py:38 | an image of h rows of width w has h·w samples |
| `WaveletDenoise.Denoise` | wavelet_denoise.py:12-76 | a denoising call fails exactly when σ cannot be estimated, and then with that same error |
| `WaveletDenoise.ZeroNoiseReturnsInput` | wavelet_denoise.py:12-76 | with an all-zero finest horizontal subband the call returns the quantised reconstruction of the untouched decomposition; if that reconstruction gives back the image's samples, the call returns the input image |
| `WaveletDenoise.WaveletDenoise` | wavelet_denoise.py:12-76 | the method (decompose, σ taken before the loop, τ taken once, the thresholding loop, reconstruct, clip and truncate) returns exactly what `Denoise` specifies |

## Left out

- `pywt.wavedec2` and `pywt.waverec2` (wavelet_denoise.py:16, 70) are foreign filter-bank transforms on floats. They are the function parameters `decompose` and `reconstruct`. Nothing is assumed about them: no shape relation, no perfect reconstruction, and no failure for a decomposition depth too large for the image (the library only warns there). The transforms are total functions, so their errors are not modelled: an unknown wavelet name or a negative level makes `pywt.wavedec2` raise a ValueError. `ZeroNoiseReturnsInput` takes exact reconstruction as a hypothesis of its second conclusion. It is not proved.
- The `wavelet` and `level` arguments (wavelet_denoise.py:12) select which transform is run, so they are folded into `decompose` and `reconstruct`. The errors the library raises for them are not modelled (see the line above).
- `np.sqrt(2 * np.log(img.size))` (wavelet_denoise.py:38) is transcendental. It is the parameter `rootTwoLog`, applied to the image's sample count. Its non-negativity is a hypothesis of `UniversalThreshold`'s τ ≥ 0 conclusion.
- Floating point: NaN is modelled only in the library's form of the soft threshold (`Float`, `LibrarySoftThreshold`, `LibraryThresholdMatrix`). Everywhere else coefficients are exact reals, with no rounding, no NaN and no infinity. So an empty finest subband gives `Failure(EmptySubband)` in the model, while numpy gives NaN.
- `pywt.threshold` itself is a library call. `SoftThreshold` models its soft mode by the formula sign(c)·max(abs(c) − τ, 0). The library's own form, c·max(1 − τ/abs(c), 0), is modelled by `LibrarySoftThreshold`. The two agree except at c = 0 with τ ≤ 0 (see "## Findings").
- ThresholdMatrixAtZero: holds of the exact formula. As written, the library turns every zero coefficient of the subband into NaN at τ = 0.
- ThresholdDetails: its τ = 0 clause (the input list comes back) holds of the exact formula. As written, the library's loop turns every zero coefficient into NaN at τ = 0.
- SoftThresholdAtZero: holds of the exact formula. It does not hold of the library at c = 0, where τ = 0 gives NaN.
- ThresholdedDetailsAtZero: holds of the exact formula. As written, the library turns every zero coefficient into NaN at τ = 0.
- ZeroNoiseIsIdentity: holds of the exact formula. As written, σ = 0 makes the library send NaNs to reconstruction (`ZeroNoiseLibraryYieldsNaN`).
- ZeroNoiseReturnsInput: holds of the exact formula. It does not hold of the program as written, for the same reason.
- Subbands are sequences of rows. Numpy arrays are always rectangular, but the model also accepts ragged grids and keeps every row length through each step.
- The other files of the repository (enhancement.py, metrics.py, main.py) are not part of this model. They are single library calls and driver code: contrast operators, non-local-means denoising, PSNR/SSIM, file dialogs, console output and plotting.

## Findings

| source | as written | input that shows it | evidently intended | confidence | as-written member | corrected member |
|---|---|---|---|---|---|---|
| wavelet_denoise.py:34-58 | σ = 0 gives τ = 0, and `pywt.threshold(..., mode="soft")` computes c·(1 − τ/abs(c)) clipped at 0. At c = 0 and τ = 0 this is 0·(1 − 0/0), which is NaN. | An all-black image: every detail coefficient is exactly 0, so σ = 0 and τ = 0. Every thresholded coefficient is then NaN, and so is the reconstruction. The same happens whenever more than half of the finest horizontal magnitudes are 0, because then σ = 0 and every zero coefficient becomes NaN. | A zero coefficient stays 0, so thresholding at τ = 0 is the identity and a noise-free decomposition reaches reconstruction unchanged. | not executed; high for the all-black image | `WaveletDenoise.ZeroNoiseLibraryYieldsNaN` | `WaveletDenoise.ThresholdedDetailsAtZero` |

