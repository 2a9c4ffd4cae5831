/**
 * Wavelet-domain denoising of a grayscale image: the noise level is estimated
 * from the finest horizontal detail subband, one universal threshold is
 * derived from it, every detail subband is soft-thresholded with it, the
 * approximation subband is passed through, and the reconstructed grid is
 * clipped to [0, 255] and truncated to 8-bit samples.
 *
 * The forward and inverse 2D wavelet transforms are parameters of the model,
 * and so is the factor sqrt(2 ln N) of the universal threshold.
 */
module WaveletDenoise {
  import opened Statistics

  /** A grid of coefficients or samples, row by row. */
  type Matrix = seq<seq<real>>

  /** An unsigned 8-bit sample. */
  type Byte = x: int | 0 <= x < 256

  /** A grayscale image, row by row. */
  type Image = seq<seq<Byte>>

  /** The horizontal, vertical and diagonal detail subbands of one level. */
  datatype Detail = Detail(h: Matrix, v: Matrix, d: Matrix)

  /**
   * A multi-level decomposition: the approximation subband and the detail
   * levels, ordered from the coarsest to the finest.
   */
  datatype Decomposition = Decomposition(approx: Matrix, details: seq<Detail>)

  datatype DenoiseError =
    | NoDetailLevels  // the decomposition has no detail level to estimate noise from
    | EmptySubband    // the finest horizontal subband holds no coefficient

  datatype Result<T> = Success(value: T) | Failure(error: DenoiseError)

  /** Converts a median absolute value into a Gaussian standard deviation. */
  const MadScale: real := 0.6745

  function Abs(x: real): real {
    if x < 0.0 then -x else x
  }

  function Sign(x: real): real {
    if x > 0.0 then 1.0 else if x < 0.0 then -1.0 else 0.0
  }

  function Max(a: real, b: real): real {
    if a < b then b else a
  }

  /** Two grids have the same number of rows and the same length row by row. */
  predicate SameShape(a: Matrix, b: Matrix) {
    |a| == |b| && forall i :: 0 <= i < |a| ==> |a[i]| == |b[i]|
  }

  /** Two detail levels have subbands of the same shapes. */
  predicate SameLevelShape(x: Detail, y: Detail) {
    SameShape(x.h, y.h) && SameShape(x.v, y.v) && SameShape(x.d, y.d)
  }

  /** Two detail lists have the same number of levels, with matching shapes level by level. */
  predicate SameDetailShapes(xs: seq<Detail>, ys: seq<Detail>) {
    |xs| == |ys| && forall l :: 0 <= l < |xs| ==> SameLevelShape(xs[l], ys[l])
  }

  // ---------------------------------------------------------------------
  // Soft thresholding
  // ---------------------------------------------------------------------

  /**
   * Soft thresholding of one coefficient, sign(c) * max(|c| - tau, 0):
   * a coefficient no larger in magnitude than tau becomes zero, a larger one
   * moves tau closer to zero.
   */
  function SoftThreshold(c: real, tau: real): (r: real)
    ensures Abs(c) <= tau ==> r == 0.0
    ensures tau < Abs(c) ==> r == Sign(c) * (Abs(c) - tau)
    ensures 0.0 <= tau ==> Abs(r) <= Abs(c)
    ensures 0.0 <= tau ==> (0.0 <= c ==> 0.0 <= r) && (c <= 0.0 ==> r <= 0.0)
  {
    Sign(c) * Max(Abs(c) - tau, 0.0)
  }

  /** A larger threshold never leaves a larger magnitude. */
  lemma SoftThresholdAntitone(c: real, t1: real, t2: real)
    requires 0.0 <= t1 <= t2
    ensures Abs(SoftThreshold(c, t2)) <= Abs(SoftThreshold(c, t1))
  {
  }

  /** A zero threshold changes no coefficient. */
  lemma SoftThresholdAtZero(c: real)
    ensures SoftThreshold(c, 0.0) == c
  {
  }

  /** Soft thresholding of every coefficient of a subband. */
  function ThresholdMatrix(m: Matrix, tau: real): (r: Matrix)
    ensures SameShape(r, m)
    ensures forall i, j :: 0 <= i < |m| && 0 <= j < |m[i]| ==> r[i][j] == SoftThreshold(m[i][j], tau)
  {
    seq(|m|, i requires 0 <= i < |m| =>
      seq(|m[i]|, j requires 0 <= j < |m[i]| => SoftThreshold(m[i][j], tau)))
  }

  /** Thresholding a subband at zero gives the subband back. */
  lemma ThresholdMatrixAtZero(m: Matrix)
    ensures ThresholdMatrix(m, 0.0) == m
  {
    var r := ThresholdMatrix(m, 0.0);
    forall i | 0 <= i < |m|
      ensures r[i] == m[i]
    {
      forall j | 0 <= j < |m[i]|
        ensures r[i][j] == m[i][j]
      {
        SoftThresholdAtZero(m[i][j]);
      }
    }
  }

  /** Every coefficient of `a` is at most as large in magnitude as its counterpart in `b`. */
  predicate Dominated(a: Matrix, b: Matrix) {
    SameShape(a, b) &&
    forall i, j :: 0 <= i < |a| && 0 <= j < |a[i]| ==> Abs(a[i][j]) <= Abs(b[i][j])
  }

  /** Soft thresholding of the three subbands of one level with the same threshold. */
  function ThresholdLevel(x: Detail, tau: real): (r: Detail)
    ensures SameLevelShape(r, x)
    ensures forall i, j :: 0 <= i < |x.h| && 0 <= j < |x.h[i]| ==> r.h[i][j] == SoftThreshold(x.h[i][j], tau)
    ensures forall i, j :: 0 <= i < |x.v| && 0 <= j < |x.v[i]| ==> r.v[i][j] == SoftThreshold(x.v[i][j], tau)
    ensures forall i, j :: 0 <= i < |x.d| && 0 <= j < |x.d[i]| ==> r.d[i][j] == SoftThreshold(x.d[i][j], tau)
  {
    Detail(ThresholdMatrix(x.h, tau), ThresholdMatrix(x.v, tau), ThresholdMatrix(x.d, tau))
  }

  /** The detail list after every level has been soft-thresholded with `tau`. */
  function ThresholdedDetails(cD: seq<Detail>, tau: real): (r: seq<Detail>)
    ensures SameDetailShapes(r, cD)
  {
    seq(|cD|, l requires 0 <= l < |cD| => ThresholdLevel(cD[l], tau))
  }

  /**
   * The one threshold reaches every coefficient: at every level, each of the
   * H, V and D subbands is soft-thresholded entry by entry with the same `tau`.
   */
  lemma ThresholdedDetailsEntries(cD: seq<Detail>, tau: real)
    ensures forall l, i, j :: 0 <= l < |cD| && 0 <= i < |cD[l].h| && 0 <= j < |cD[l].h[i]| ==>
      ThresholdedDetails(cD, tau)[l].h[i][j] == SoftThreshold(cD[l].h[i][j], tau)
    ensures forall l, i, j :: 0 <= l < |cD| && 0 <= i < |cD[l].v| && 0 <= j < |cD[l].v[i]| ==>
      ThresholdedDetails(cD, tau)[l].v[i][j] == SoftThreshold(cD[l].v[i][j], tau)
    ensures forall l, i, j :: 0 <= l < |cD| && 0 <= i < |cD[l].d| && 0 <= j < |cD[l].d[i]| ==>
      ThresholdedDetails(cD, tau)[l].d[i][j] == SoftThreshold(cD[l].d[i][j], tau)
  {
  }

  /** With a zero threshold the detail list comes out unchanged. */
  lemma ThresholdedDetailsAtZero(cD: seq<Detail>)
    ensures ThresholdedDetails(cD, 0.0) == cD
  {
    var r := ThresholdedDetails(cD, 0.0);
    forall l | 0 <= l < |cD|
      ensures r[l] == cD[l]
    {
      ThresholdMatrixAtZero(cD[l].h);
      ThresholdMatrixAtZero(cD[l].v);
      ThresholdMatrixAtZero(cD[l].d);
    }
  }

  /**
   * A larger threshold leaves every detail coefficient, in every subband at
   * every level, no larger in magnitude than a smaller threshold does.
   */
  lemma ThresholdedDetailsAntitone(cD: seq<Detail>, t1: real, t2: real)
    requires 0.0 <= t1 <= t2
    ensures forall l :: 0 <= l < |cD| ==>
      && Dominated(ThresholdedDetails(cD, t2)[l].h, ThresholdedDetails(cD, t1)[l].h)
      && Dominated(ThresholdedDetails(cD, t2)[l].v, ThresholdedDetails(cD, t1)[l].v)
      && Dominated(ThresholdedDetails(cD, t2)[l].d, ThresholdedDetails(cD, t1)[l].d)
  {
    forall l | 0 <= l < |cD|
      ensures Dominated(ThresholdMatrix(cD[l].h, t2), ThresholdMatrix(cD[l].h, t1))
      ensures Dominated(ThresholdMatrix(cD[l].v, t2), ThresholdMatrix(cD[l].v, t1))
      ensures Dominated(ThresholdMatrix(cD[l].d, t2), ThresholdMatrix(cD[l].d, t1))
    {
      ThresholdMatrixAntitone(cD[l].h, t1, t2);
      ThresholdMatrixAntitone(cD[l].v, t1, t2);
      ThresholdMatrixAntitone(cD[l].d, t1, t2);
    }
  }

  lemma ThresholdMatrixAntitone(m: Matrix, t1: real, t2: real)
    requires 0.0 <= t1 <= t2
    ensures Dominated(ThresholdMatrix(m, t2), ThresholdMatrix(m, t1))
  {
    forall i, j | 0 <= i < |m| && 0 <= j < |m[i]|
      ensures Abs(ThresholdMatrix(m, t2)[i][j]) <= Abs(ThresholdMatrix(m, t1)[i][j])
    {
      SoftThresholdAntitone(m[i][j], t1, t2);
    }
  }

  // ---------------------------------------------------------------------
  // The library's soft threshold as written, with NaN
  // ---------------------------------------------------------------------

  /** A floating-point value: a finite number, or NaN. */
  datatype Float = Finite(value: real) | NaN

  /**
   * Soft thresholding as the wavelet library computes it,
   * c * max(1 - tau / |c|, 0). At c = 0 the quotient tau / 0 is +inf for
   * tau > 0 (the factor clips to 0 and the product is 0), and NaN for tau = 0
   * or -inf for tau < 0 (either way the product with 0 is NaN).
   */
  function LibrarySoftThreshold(c: real, tau: real): (r: Float)
    ensures r.NaN? <==> c == 0.0 && tau <= 0.0
  {
    if c == 0.0 then (if 0.0 < tau then Finite(0.0) else NaN)
    else Finite(c * Max(1.0 - tau / Abs(c), 0.0))
  }

  /** Away from c = 0 with tau <= 0, the library's form is the exact soft threshold. */
  lemma LibraryAgreesOffZero(c: real, tau: real)
    requires c != 0.0 || 0.0 < tau
    ensures LibrarySoftThreshold(c, tau) == Finite(SoftThreshold(c, tau))
  {
    if c != 0.0 {
      var a := Abs(c);
      assert a > 0.0;
      var q := tau / a;
      assert a * q == tau;
      if tau < a {
        QuotientBelowOne(a, q);
        assert Max(1.0 - q, 0.0) == 1.0 - q;
        assert c * (1.0 - q) == Sign(c) * (a - tau);
      } else {
        QuotientBelowOne(a, q);
        assert Max(1.0 - q, 0.0) == 0.0;
      }
    }
  }

  /** For a positive divisor, the quotient is below one exactly when the product is below the divisor. */
  lemma QuotientBelowOne(a: real, q: real)
    requires 0.0 < a
    ensures q < 1.0 <==> a * q < a
  {
    assert a * q - a == a * (q - 1.0);
    if q < 1.0 {
      assert a * (1.0 - q) > 0.0;
    } else {
      assert a * (q - 1.0) >= 0.0;
    }
  }

  /** The library's soft threshold applied to every coefficient of a subband. */
  function LibraryThresholdMatrix(m: Matrix, tau: real): (r: seq<seq<Float>>)
    ensures |r| == |m| && forall i :: 0 <= i < |m| ==> |r[i]| == |m[i]|
    ensures forall i, j :: 0 <= i < |m| && 0 <= j < |m[i]| ==> r[i][j] == LibrarySoftThreshold(m[i][j], tau)
  {
    seq(|m|, i requires 0 <= i < |m| =>
      seq(|m[i]|, j requires 0 <= j < |m[i]| => LibrarySoftThreshold(m[i][j], tau)))
  }

  /**
   * As written, the zero-noise case breaks: an all-zero finest horizontal
   * subband gives sigma = 0 and tau = 0, and the library then turns every
   * one of its coefficients (at least one) into NaN instead of leaving it 0.
   */
  lemma ZeroNoiseLibraryYieldsNaN(cD: seq<Detail>, factor: real)
    requires |cD| > 0
    requires HasCoefficient(FinestHorizontal(cD)) && IsZeroSubband(FinestHorizontal(cD))
    ensures EstimateSigma(cD) == Success(0.0) && UniversalThreshold(0.0, factor) == 0.0
    ensures forall i, j :: 0 <= i < |FinestHorizontal(cD)| && 0 <= j < |FinestHorizontal(cD)[i]| ==>
      LibraryThresholdMatrix(FinestHorizontal(cD), UniversalThreshold(0.0, factor))[i][j].NaN?
    ensures exists i, j :: (0 <= i < |FinestHorizontal(cD)| && 0 <= j < |FinestHorizontal(cD)[i]| &&
      LibraryThresholdMatrix(FinestHorizontal(cD), UniversalThreshold(0.0, factor))[i][j].NaN?)
  {
    SigmaOfZeroSubband(cD);
    var h := FinestHorizontal(cD);
    var i :| 0 <= i < |h| && |h[i]| > 0;
    assert LibraryThresholdMatrix(h, UniversalThreshold(0.0, factor))[i][0].NaN?;
  }

  /**
   * The thresholding loop: walks the detail levels in order and appends each
   * level's soft-thresholded (H, V, D) triple to a new list.
   */
  method ThresholdDetails(cD: seq<Detail>, tau: real) returns (newCD: seq<Detail>)
    ensures newCD == ThresholdedDetails(cD, tau)
    ensures SameDetailShapes(newCD, cD)
    ensures tau == 0.0 ==> newCD == cD
  {
    newCD := [];
    for l := 0 to |cD|
      invariant |newCD| == l
      invariant forall k :: 0 <= k < l ==> newCD[k] == ThresholdLevel(cD[k], tau)
    {
      var Detail(cH, cV, cDLayer) := cD[l];
      cH := ThresholdMatrix(cH, tau);
      cV := ThresholdMatrix(cV, tau);
      cDLayer := ThresholdMatrix(cDLayer, tau);
      newCD := newCD + [Detail(cH, cV, cDLayer)];
    }
    if tau == 0.0 {
      ThresholdedDetailsAtZero(cD);
    }
  }

  /** The decomposition handed to reconstruction: approximation kept, details thresholded. */
  function Denoised(coeffs: Decomposition, tau: real): (r: Decomposition)
    ensures r.approx == coeffs.approx
    ensures SameDetailShapes(r.details, coeffs.details)
  {
    Decomposition(coeffs.approx, ThresholdedDetails(coeffs.details, tau))
  }

  // ---------------------------------------------------------------------
  // Noise estimate and universal threshold
  // ---------------------------------------------------------------------

  /** The magnitude of every coefficient of a subband. */
  function AbsMatrix(m: Matrix): (r: Matrix)
    ensures SameShape(r, m)
    ensures forall i, j :: 0 <= i < |m| && 0 <= j < |m[i]| ==> r[i][j] == Abs(m[i][j])
  {
    seq(|m|, i requires 0 <= i < |m| => seq(|m[i]|, j requires 0 <= j < |m[i]| => Abs(m[i][j])))
  }

  /** The rows of a grid laid end to end. */
  function Flatten(m: Matrix): (r: seq<real>)
    ensures |r| == 0 <==> forall i :: 0 <= i < |m| ==> |m[i]| == 0
  {
    if |m| == 0 then [] else m[0] + Flatten(m[1..])
  }

  /** A lower bound of every coefficient of a grid bounds every value of its flattening. */
  lemma {:induction false} FlattenAtLeast(m: Matrix, lo: real)
    requires forall i, j :: 0 <= i < |m| && 0 <= j < |m[i]| ==> lo <= m[i][j]
    ensures forall k :: 0 <= k < |Flatten(m)| ==> lo <= Flatten(m)[k]
  {
    if |m| > 0 {
      assert forall i :: 0 <= i < |m[1..]| ==> m[1..][i] == m[i + 1];
      FlattenAtLeast(m[1..], lo);
    }
  }

  /** An upper bound of every coefficient of a grid bounds every value of its flattening. */
  lemma {:induction false} FlattenAtMost(m: Matrix, hi: real)
    requires forall i, j :: 0 <= i < |m| && 0 <= j < |m[i]| ==> m[i][j] <= hi
    ensures forall k :: 0 <= k < |Flatten(m)| ==> Flatten(m)[k] <= hi
  {
    if |m| > 0 {
      assert forall i :: 0 <= i < |m[1..]| ==> m[1..][i] == m[i + 1];
      FlattenAtMost(m[1..], hi);
    }
  }

  /**
   * The finest horizontal detail subband, `cD[-1][0]`: the horizontal
   * subband of the last level, the last level being the finest.
   */
  function FinestHorizontal(cD: seq<Detail>): Matrix
    requires |cD| > 0
  {
    cD[|cD| - 1].h
  }

  /**
   * The finest horizontal subband of the thresholded list is the thresholded
   * original one, so a noise estimate taken after the loop would read
   * shrunken coefficients; the estimate is taken from the original list.
   */
  lemma ThresholdedFinestHorizontal(cD: seq<Detail>, tau: real)
    requires |cD| > 0
    ensures |ThresholdedDetails(cD, tau)| == |cD|
    ensures FinestHorizontal(ThresholdedDetails(cD, tau)) == ThresholdMatrix(FinestHorizontal(cD), tau)
  {
  }

  /**
   * The noise scale sigma: the median of the magnitudes of the finest
   * horizontal detail coefficients, divided by 0.6745.
   */
  function EstimateSigma(cD: seq<Detail>): (r: Result<real>)
    ensures |cD| == 0 ==> r == Failure(NoDetailLevels)
    ensures |cD| > 0 ==>
      (r.Failure? <==> forall i :: 0 <= i < |FinestHorizontal(cD)| ==> |FinestHorizontal(cD)[i]| == 0)
    ensures |cD| > 0 && r.Failure? ==> r.error == EmptySubband
    ensures r.Success? ==> 0.0 <= r.value
  {
    if |cD| == 0 then Failure(NoDetailLevels)
    else
      var magnitudes := Flatten(AbsMatrix(FinestHorizontal(cD)));
      if |magnitudes| == 0 then Failure(EmptySubband)
      else
        FlattenAtLeast(AbsMatrix(FinestHorizontal(cD)), 0.0);
        MedianAtLeast(magnitudes, 0.0);
        Success(Median(magnitudes) / MadScale)
  }

  /** The universal threshold tau = sigma * sqrt(2 ln N), with the square-root factor given. */
  function UniversalThreshold(sigma: real, universalFactor: real): (tau: real)
    ensures 0.0 <= sigma && 0.0 <= universalFactor ==> 0.0 <= tau
    ensures sigma == 0.0 ==> tau == 0.0
  {
    sigma * universalFactor
  }

  /** Every coefficient of the subband is zero. */
  predicate IsZeroSubband(m: Matrix) {
    forall i, j :: 0 <= i < |m| && 0 <= j < |m[i]| ==> m[i][j] == 0.0
  }

  /** The subband holds at least one coefficient. */
  predicate HasCoefficient(m: Matrix) {
    exists i :: 0 <= i < |m| && |m[i]| > 0
  }

  /**
   * When every finest horizontal detail coefficient is zero, sigma is zero,
   * so is tau, and the decomposition reaches reconstruction unchanged.
   */
  lemma ZeroNoiseIsIdentity(coeffs: Decomposition, factor: real)
    requires |coeffs.details| > 0
    requires HasCoefficient(FinestHorizontal(coeffs.details))
    requires IsZeroSubband(FinestHorizontal(coeffs.details))
    ensures EstimateSigma(coeffs.details) == Success(0.0)
    ensures Denoised(coeffs, UniversalThreshold(0.0, factor)) == coeffs
  {
    SigmaOfZeroSubband(coeffs.details);
    ThresholdedDetailsAtZero(coeffs.details);
    assert UniversalThreshold(0.0, factor) == 0.0;
  }

  /**
   * Sigma follows the finest horizontal coefficients: when every one of
   * their magnitudes lies in [lo, hi], so does sigma * 0.6745.
   */
  lemma EstimateSigmaBounds(cD: seq<Detail>, lo: real, hi: real)
    requires |cD| > 0
    requires forall i, j :: 0 <= i < |FinestHorizontal(cD)| && 0 <= j < |FinestHorizontal(cD)[i]| ==>
      lo <= Abs(FinestHorizontal(cD)[i][j]) <= hi
    requires EstimateSigma(cD).Success?
    ensures lo <= EstimateSigma(cD).value * MadScale <= hi
  {
    var magnitudes := AbsMatrix(FinestHorizontal(cD));
    FlattenAtLeast(magnitudes, lo);
    FlattenAtMost(magnitudes, hi);
    var flat := Flatten(magnitudes);
    MedianAtLeast(flat, lo);
    MedianAtMost(flat, hi);
    assert EstimateSigma(cD).value == Median(flat) / MadScale;
  }

  /** The magnitudes of a non-empty all-zero finest horizontal subband give sigma zero. */
  lemma SigmaOfZeroSubband(cD: seq<Detail>)
    requires |cD| > 0
    requires HasCoefficient(FinestHorizontal(cD)) && IsZeroSubband(FinestHorizontal(cD))
    ensures EstimateSigma(cD) == Success(0.0)
  {
    var h := FinestHorizontal(cD);
    assert !(forall i :: 0 <= i < |h| ==> |h[i]| == 0);
    assert EstimateSigma(cD).Success?;
    assert forall i, j :: 0 <= i < |h| && 0 <= j < |h[i]| ==> Abs(h[i][j]) == 0.0;
    EstimateSigmaBounds(cD, 0.0, 0.0);
    assert EstimateSigma(cD).value * MadScale == 0.0;
  }

  // ---------------------------------------------------------------------
  // Quantisation to 8-bit samples
  // ---------------------------------------------------------------------

  /** Clips a sample to the range [0, 255]. */
  function Clip(x: real): (y: real)
    ensures 0.0 <= y <= 255.0
    ensures 0.0 <= x <= 255.0 ==> y == x
    ensures x < 0.0 ==> y == 0.0
    ensures 255.0 < x ==> y == 255.0
  {
    if x < 0.0 then 0.0 else if 255.0 < x then 255.0 else x
  }

  /**
   * Clips a sample and casts it to an unsigned 8-bit integer; the cast
   * truncates the fractional part, which on the clipped range is the floor.
   */
  function ToByte(x: real): (b: Byte)
    ensures b as real <= Clip(x) < b as real + 1.0
  {
    Clip(x).Floor
  }

  /** Quantisation keeps the order of samples. */
  lemma ToByteMonotone(x: real, y: real)
    requires x <= y
    ensures ToByte(x) <= ToByte(y)
  {
  }

  /** An exact 8-bit value survives quantisation. */
  lemma ToByteOfSample(b: Byte)
    ensures ToByte(b as real) == b
  {
  }

  /** Quantisation of every sample of the reconstructed grid. */
  function Quantize(m: Matrix): (img: Image)
    ensures |img| == |m| && forall i :: 0 <= i < |m| ==> |img[i]| == |m[i]|
    ensures forall i, j :: 0 <= i < |m| && 0 <= j < |m[i]| ==>
      img[i][j] as real <= Clip(m[i][j]) < img[i][j] as real + 1.0
  {
    seq(|m|, i requires 0 <= i < |m| => seq(|m[i]|, j requires 0 <= j < |m[i]| => ToByte(m[i][j])))
  }

  /** An image viewed as a grid of real samples. */
  function ToMatrix(img: Image): (m: Matrix)
    ensures |m| == |img| && forall i :: 0 <= i < |img| ==> |m[i]| == |img[i]|
    ensures forall i, j :: 0 <= i < |img| && 0 <= j < |img[i]| ==> m[i][j] == img[i][j] as real
  {
    seq(|img|, i requires 0 <= i < |img| => seq(|img[i]|, j requires 0 <= j < |img[i]| => img[i][j] as real))
  }

  /** Quantising a grid that already holds 8-bit values gives the image back. */
  lemma QuantizeOfImage(img: Image)
    ensures Quantize(ToMatrix(img)) == img
  {
    var q := Quantize(ToMatrix(img));
    forall i | 0 <= i < |img|
      ensures q[i] == img[i]
    {
      forall j | 0 <= j < |img[i]|
        ensures q[i][j] == img[i][j]
      {
        ToByteOfSample(img[i][j]);
      }
    }
  }

  // ---------------------------------------------------------------------
  // The whole denoising call
  // ---------------------------------------------------------------------

  /** The number of samples of an image. */
  function SampleCount(img: Image): (n: nat)
    ensures n == 0 <==> forall i :: 0 <= i < |img| ==> |img[i]| == 0
  {
    if |img| == 0 then 0 else |img[0]| + SampleCount(img[1..])
  }

  /** An image of |img| rows of width w holds |img| * w samples. */
  lemma {:induction false} SampleCountRectangular(img: Image, w: nat)
    requires forall i :: 0 <= i < |img| ==> |img[i]| == w
    ensures SampleCount(img) == |img| * w
  {
    if |img| > 0 {
      assert forall i :: 0 <= i < |img[1..]| ==> |img[1..][i]| == w;
      SampleCountRectangular(img[1..], w);
    }
  }

  /**
   * What a denoising call returns, given the forward transform `decompose`,
   * the inverse transform `reconstruct` and the factor `rootTwoLog(N)` that
   * stands for sqrt(2 ln N) at the image's sample count N.
   */
  function Denoise(img: Image, decompose: Image -> Decomposition, reconstruct: Decomposition -> Matrix,
                   rootTwoLog: nat -> real): (r: Result<Image>)
    ensures r.Failure? <==> EstimateSigma(decompose(img).details).Failure?
    ensures r.Failure? ==> r.error == EstimateSigma(decompose(img).details).error
  {
    var coeffs := decompose(img);
    var sigma := EstimateSigma(coeffs.details);
    if sigma.Failure? then Failure(sigma.error)
    else
      var tau := UniversalThreshold(sigma.value, rootTwoLog(SampleCount(img)));
      Success(Quantize(reconstruct(Denoised(coeffs, tau))))
  }

  /**
   * A call on an image whose finest horizontal detail coefficients are all
   * zero returns the quantised reconstruction of the untouched decomposition;
   * if that reconstruction gives the image's own samples back, the call
   * returns the image itself.
   */
  lemma ZeroNoiseReturnsInput(img: Image, decompose: Image -> Decomposition, reconstruct: Decomposition -> Matrix,
                              rootTwoLog: nat -> real)
    requires |decompose(img).details| > 0
    requires HasCoefficient(FinestHorizontal(decompose(img).details))
    requires IsZeroSubband(FinestHorizontal(decompose(img).details))
    ensures Denoise(img, decompose, reconstruct, rootTwoLog) == Success(Quantize(reconstruct(decompose(img))))
    ensures reconstruct(decompose(img)) == ToMatrix(img) ==> Denoise(img, decompose, reconstruct, rootTwoLog) == Success(img)
  {
    ZeroNoiseIsIdentity(decompose(img), rootTwoLog(SampleCount(img)));
    QuantizeOfImage(img);
  }

  /**
   * The denoising call: decompose, estimate sigma from the original finest
   * horizontal subband, derive tau once, threshold every detail level with it
   * in a loop, reconstruct from the untouched approximation and the new
   * detail list, then clip and truncate.
   */
  method WaveletDenoise(img: Image, decompose: Image -> Decomposition, reconstruct: Decomposition -> Matrix,
                        rootTwoLog: nat -> real)
    returns (res: Result<Image>)
    ensures res == Denoise(img, decompose, reconstruct, rootTwoLog)
  {
    var coeffs := decompose(img);
    var cA := coeffs.approx;
    var cD := coeffs.details;
    var sigma := EstimateSigma(cD);
    if sigma.Failure? {
      return Failure(sigma.error);
    }
    var uthresh := UniversalThreshold(sigma.value, rootTwoLog(SampleCount(img)));
    var newCD := ThresholdDetails(cD, uthresh);
    var denoised := reconstruct(Decomposition(cA, newCD));
    res := Success(Quantize(denoised));
  }
}
