/**
 * The server's intensity windowing (app/utils/image_processing.py): the
 * percentile-based choice of window settings, the window/level mapping of
 * pixels to bytes, min-max normalisation and the per-slice precomputation.
 */
module Windowing {
  import opened Wrappers
  import opened Floats
  import opened Arrays

  /** The pair `(window_width, window_center)`, in the order the source returns it. */
  datatype WindowSettings = WindowSettings(width: real, center: real)

  datatype ProcessingError =
    | ReshapeError          // a 1-D array whose length is not a perfect square
    | DimensionalityError   // neither 2-D nor 3-D after reshaping
    | EmptyReduction        // min or max of an empty array

  // ---- sorting, for the percentiles ------------------------------------

  ghost predicate Sorted(s: seq<real>) {
    forall i, j | 0 <= i < j < |s| :: s[i] <= s[j]
  }

  /** Every element of s is at least b. */
  ghost predicate AtLeast(b: real, s: seq<real>) {
    forall k | 0 <= k < |s| :: b <= s[k]
  }

  lemma {:induction false} SortedCons(b: real, s: seq<real>)
    requires Sorted(s) && AtLeast(b, s)
    ensures Sorted([b] + s)
  {
    var t := [b] + s;
    forall i, j | 0 <= i < j < |t| ensures t[i] <= t[j] {
      assert t[j] == s[j - 1];
      if i > 0 { assert t[i] == s[i - 1]; }
    }
  }

  function Insert(x: real, s: seq<real>): (r: seq<real>)
    requires Sorted(s)
    ensures Sorted(r) && multiset(r) == multiset(s) + multiset{x} && |r| == |s| + 1
  {
    if s == [] then [x]
    else if x <= s[0] then
      assert AtLeast(x, s);
      SortedCons(x, s);
      [x] + s
    else
      assert s == [s[0]] + s[1..];
      var t := Insert(x, s[1..]);
      assert AtLeast(s[0], t) by {
        forall k | 0 <= k < |t| ensures s[0] <= t[k] {
          assert t[k] in multiset(t);
          if t[k] != x {
            assert t[k] in multiset(s[1..]);
            var m :| 0 <= m < |s[1..]| && s[1..][m] == t[k];
            assert s[m + 1] == t[k];
          }
        }
      }
      SortedCons(s[0], t);
      [s[0]] + t
  }

  /** Sorts ascending, as `np.percentile` does before interpolating. */
  function Sort(s: seq<real>): (r: seq<real>)
    ensures Sorted(r) && multiset(r) == multiset(s) && |r| == |s|
  {
    if s == [] then []
    else
      assert s == [s[0]] + s[1..];
      Insert(s[0], Sort(s[1..]))
  }

  lemma SortedTail(s: seq<real>)
    requires Sorted(s) && |s| > 0
    ensures Sorted(s[1..]) && AtLeast(s[0], s[1..])
  {
  }

  /** The least element of a sorted sequence comes first. */
  lemma SortedHead(s: seq<real>, v: real)
    requires Sorted(s) && v in multiset(s)
    ensures s[0] <= v
  {
    var i :| 0 <= i < |s| && s[i] == v;
  }

  lemma MultisetTail(s: seq<real>)
    requires |s| > 0
    ensures multiset(s[1..]) == multiset(s) - multiset{s[0]}
  {
    assert s == [s[0]] + s[1..];
  }

  lemma HeadsEqual(x: seq<real>, y: seq<real>)
    requires Sorted(x) && Sorted(y) && multiset(x) == multiset(y) && |x| > 0
    ensures |y| > 0 && x[0] == y[0] && multiset(x[1..]) == multiset(y[1..])
  {
    assert x[0] in multiset(x);
    assert |y| == |multiset(y)| == |x|;
    assert y[0] in multiset(y);
    SortedHead(y, x[0]);
    SortedHead(x, y[0]);
    MultisetTail(x);
    MultisetTail(y);
  }

  /** A sorted sequence is determined by its multiset of elements. */
  lemma {:induction false} SortedUnique(x: seq<real>, y: seq<real>)
    requires Sorted(x) && Sorted(y) && multiset(x) == multiset(y)
    ensures x == y
  {
    if x == [] {
      assert |y| == |multiset(y)| == 0;
    } else {
      HeadsEqual(x, y);
      SortedTail(x);
      SortedTail(y);
      SortedUnique(x[1..], y[1..]);
      assert x == [x[0]] + x[1..];
      assert y == [y[0]] + y[1..];
    }
  }

  // ---- numpy's linear percentile ---------------------------------------

  /** The virtual index p / 100 * (n - 1) of 'linear' interpolation. */
  function VirtualIndex(n: nat, p: real): (r: real)
    requires n > 0 && 0.0 <= p <= 100.0
    ensures 0.0 <= r <= (n - 1) as real
  {
    var m := (n - 1) as real;
    var f := p / 100.0;
    assert 0.0 <= f <= 1.0;
    FracLe(f, m);
    Times(f, m)
  }

  lemma VirtualIndexMonotone(n: nat, p: real, q: real)
    requires n > 0 && 0.0 <= p <= q <= 100.0
    ensures VirtualIndex(n, p) <= VirtualIndex(n, q)
  {
    FracMono(p / 100.0, q / 100.0, (n - 1) as real);
  }

  /** The point a fraction f of the way from a to b. */
  function Lerp(a: real, b: real, f: real): (r: real)
    requires a <= b && 0.0 <= f <= 1.0
    ensures a <= r <= b
  {
    var d := b - a;
    FracLe(f, d);
    a + Times(f, d)
  }

  lemma LerpMonotone(a: real, b: real, f: real, g: real)
    requires a <= b && 0.0 <= f <= g <= 1.0
    ensures Lerp(a, b, f) <= Lerp(a, b, g)
  {
    var d := b - a;
    assert Lerp(a, b, f) == a + Times(f, d) && Lerp(a, b, g) == a + Times(g, d);
    FracMono(f, g, d);
  }

  /**
   * `np.percentile(x, p)` of sorted values: interpolate linearly between the
   * two order statistics around the virtual index p / 100 * (n - 1).
   */
  function Percentile(x: seq<real>, p: real): (r: real)
    requires |x| > 0 && Sorted(x) && 0.0 <= p <= 100.0
    ensures x[0] <= r <= x[|x| - 1]
  {
    var idx := VirtualIndex(|x|, p);
    var lo := idx.Floor;
    var hi := if lo + 1 < |x| then lo + 1 else lo;
    assert x[0] <= x[lo] <= x[hi] <= x[|x| - 1];
    Lerp(x[lo], x[hi], idx - lo as real)
  }

  /** The product f * d, named so that proofs can match it without arithmetic. */
  function Times(f: real, d: real): real
  {
    f * d
  }

  lemma FracLe(f: real, d: real)
    requires 0.0 <= f <= 1.0 && d >= 0.0
    ensures 0.0 <= Times(f, d) <= d
  {
    NonnegProduct(f, d);
    NonnegProduct(1.0 - f, d);
    assert (1.0 - f) * d == d - f * d;
  }

  lemma FracMono(f: real, g: real, d: real)
    requires f <= g && d >= 0.0
    ensures Times(f, d) <= Times(g, d)
  {
    NonnegProduct(g - f, d);
    assert (g - f) * d == g * d - f * d;
  }

  lemma NonnegProduct(a: real, b: real)
    ensures a >= 0.0 && b >= 0.0 ==> a * b >= 0.0
  {
  }

  /** A higher percentile is never smaller. */
  lemma PercentileMonotone(x: seq<real>, p: real, q: real)
    requires |x| > 0 && Sorted(x) && 0.0 <= p <= q <= 100.0
    ensures Percentile(x, p) <= Percentile(x, q)
  {
    var ip, iq := VirtualIndex(|x|, p), VirtualIndex(|x|, q);
    VirtualIndexMonotone(|x|, p, q);
    var lp, lq := ip.Floor, iq.Floor;
    var hp := if lp + 1 < |x| then lp + 1 else lp;
    var hq := if lq + 1 < |x| then lq + 1 else lq;
    assert x[lp] <= x[hp] && x[lq] <= x[hq];
    if lp == lq {
      LerpMonotone(x[lp], x[hp], ip - lp as real, iq - lq as real);
    } else {
      assert lp < lq && hp == lp + 1 <= lq;
      assert x[hp] <= x[lq];
    }
  }

  /** The percentiles of equal values are that value. */
  lemma PercentileOfConstant(x: seq<real>, p: real, k: real)
    requires |x| > 0 && 0.0 <= p <= 100.0
    requires forall i | 0 <= i < |x| :: x[i] == k
    ensures Sorted(x) && Percentile(x, p) == k
  {
  }

  // ---- calculate_optimal_window_settings --------------------------------

  /** `int(np.sqrt(n))` for an exact integer square root. */
  function IntSqrt(n: nat): (r: nat)
    ensures r * r <= n < (r + 1) * (r + 1)
  {
    if n == 0 then 0
    else
      var s := IntSqrt(n - 1);
      if (s + 1) * (s + 1) <= n then s + 1 else s
  }

  predicate IsSquare(n: nat) {
    IntSqrt(n) * IntSqrt(n) == n
  }

  /**
   * The reshape both functions apply to 1-D input: `data.reshape(s, s)` with
   * `s = int(np.sqrt(n))`, which fails unless n is a perfect square.
   */
  function ReshapeOneDim(a: NdArray<Float>): (r: Result<NdArray<Float>, ProcessingError>)
    requires WellFormed(a)
    ensures r.Ok? ==> WellFormed(r.value) && r.value.flat == a.flat
    ensures r.Ok? ==> Rank(r.value) == if Rank(a) == 1 then 2 else Rank(a)
    ensures r.Err? <==> Rank(a) == 1 && !IsSquare(|a.flat|)
  {
    if Rank(a) != 1 then Ok(a)
    else
      var s := IntSqrt(|a.flat|);
      if s * s == |a.flat| then
        ProductOfTwo(s, s);
        Ok(NdArray([s, s], a.flat))
      else Err(ReshapeError)
  }

  /** `data[np.isfinite(data)]`: the finite values, flattened, in order. */
  function FiniteValues(s: seq<Float>): (r: seq<real>)
    ensures forall x :: x in r <==> Num(x) in s
    ensures |r| <= |s|
  {
    if s == [] then []
    else
      assert s == [s[0]] + s[1..];
      (if s[0].Num? then [s[0].r] else []) + FiniteValues(s[1..])
  }

  /** `v[v > 0]`. */
  function PositiveValues(s: seq<real>): (r: seq<real>)
    ensures forall x :: x in r <==> x in s && x > 0.0
  {
    if s == [] then []
    else
      assert s == [s[0]] + s[1..];
      (if s[0] > 0.0 then [s[0]] else []) + PositiveValues(s[1..])
  }

  lemma PositiveValuesMultiset(s: seq<real>, t: seq<real>)
    requires multiset(s) == multiset(t)
    ensures multiset(PositiveValues(s)) == multiset(PositiveValues(t))
  {
    forall x ensures multiset(PositiveValues(s))[x] == multiset(PositiveValues(t))[x] {
      PositiveCount(s, x);
      PositiveCount(t, x);
    }
  }

  lemma {:induction false} PositiveCount(s: seq<real>, x: real)
    ensures multiset(PositiveValues(s))[x] == if x > 0.0 then multiset(s)[x] else 0
  {
    if s != [] {
      assert s == [s[0]] + s[1..];
      PositiveCount(s[1..], x);
    }
  }

  /**
   * The values the percentiles are taken over (lines 47-54): the strictly
   * positive ones; all finite values when none is positive.  Because line
   * 19 has already flattened the data, the central crop of lines 25-45 is the
   * whole array and the fallback of line 52 repeats the first selection.
   */
  function Intensities(finite: seq<real>): (r: seq<real>)
    ensures |r| == 0 <==> |finite| == 0
    ensures (exists x | x in finite :: x > 0.0) ==> r == PositiveValues(finite)
    ensures (forall x | x in finite :: x <= 0.0) ==> r == finite
  {
    var positive := PositiveValues(finite);
    if positive != [] then
      assert positive[0] in positive;
      positive
    else
      assert forall x | x in finite :: x <= 0.0;
      finite
  }

  /** `np.percentile(values, 2)`. */
  function LowPercentile(values: seq<real>): real
    requires |values| > 0
  {
    Percentile(Sort(values), 2.0)
  }

  /** `np.percentile(values, 98)`. */
  function HighPercentile(values: seq<real>): real
    requires |values| > 0
  {
    Percentile(Sort(values), 98.0)
  }

  /** Window settings from the 2nd and 98th percentiles of the intensities. */
  function WindowFromValues(values: seq<real>): (r: WindowSettings)
    requires |values| > 0
  {
    var p2, p98 := LowPercentile(values), HighPercentile(values);
    WindowSettings(if p98 - p2 > 1.0 then p98 - p2 else 1.0, (p98 + p2) / 2.0)
  }

  /** `calculate_optimal_window_settings(data)`. */
  function CalculateOptimalWindowSettings(a: NdArray<Float>): (r: Result<WindowSettings, ProcessingError>)
    requires WellFormed(a)
    ensures r.Err? <==> Rank(a) == 1 && !IsSquare(|a.flat|)
    ensures r.Ok? ==> r.value.width >= 1.0
    ensures r.Ok? && FiniteValues(a.flat) == [] ==> r.value == WindowSettings(255.0, 128.0)
  {
    var reshaped :- ReshapeOneDim(a);
    var finite := FiniteValues(reshaped.flat);
    if |finite| == 0 then Ok(WindowSettings(255.0, 128.0))
    else Ok(WindowFromValues(Intensities(finite)))
  }

  /** The first and last of the sorted values bound all of them and are among them. */
  lemma SortExtremes(values: seq<real>)
    requires |values| > 0
    ensures var s := Sort(values);
            && (forall x | x in values :: s[0] <= x <= s[|s| - 1])
            && s[0] in values && s[|s| - 1] in values
  {
    var s := Sort(values);
    forall x | x in values ensures s[0] <= x <= s[|s| - 1] {
      assert x in multiset(s);
    }
    assert s[0] in multiset(values);
    assert s[|s| - 1] in multiset(values);
  }

  /**
   * The settings come from the percentiles p2 <= p98 of the intensities:
   * the centre is their midpoint, between the least and the greatest value
   * (see SortExtremes), and the width is their distance, raised to at least 1.
   */
  lemma WindowWithinIntensities(values: seq<real>)
    requires |values| > 0
    ensures LowPercentile(values) <= HighPercentile(values)
    ensures WindowFromValues(values).width >= 1.0
    ensures WindowFromValues(values).width >= HighPercentile(values) - LowPercentile(values)
    ensures var p2, p98 := LowPercentile(values), HighPercentile(values);
            && WindowFromValues(values).width == (if p98 - p2 > 1.0 then p98 - p2 else 1.0)
            && WindowFromValues(values).center == (p98 + p2) / 2.0
    ensures Sort(values)[0] <= WindowFromValues(values).center <= Sort(values)[|values| - 1]
  {
    PercentileMonotone(Sort(values), 2.0, 98.0);
  }

  /** The settings depend only on the multiset of finite values, not on the shape or order. */
  lemma WindowIgnoresOrder(a: NdArray<Float>, b: NdArray<Float>)
    requires WellFormed(a) && WellFormed(b)
    requires Rank(a) != 1 && Rank(b) != 1
    requires multiset(FiniteValues(a.flat)) == multiset(FiniteValues(b.flat))
    ensures CalculateOptimalWindowSettings(a) == CalculateOptimalWindowSettings(b)
  {
    var fa, fb := FiniteValues(a.flat), FiniteValues(b.flat);
    CalculateOnFinite(a);
    CalculateOnFinite(b);
    assert |fb| == |multiset(fb)| == |multiset(fa)| == |fa|;
    if |fa| > 0 {
      IntensitiesMultiset(fa, fb);
      WindowFromMultiset(Intensities(fa), Intensities(fb));
    }
  }

  /** Away from the 1-D reshape, the settings are a function of the finite values. */
  lemma CalculateOnFinite(a: NdArray<Float>)
    requires WellFormed(a) && Rank(a) != 1
    ensures var finite := FiniteValues(a.flat);
            CalculateOptimalWindowSettings(a) ==
              if |finite| == 0 then Ok(WindowSettings(255.0, 128.0)) else Ok(WindowFromValues(Intensities(finite)))
  {
    assert ReshapeOneDim(a) == Ok(a);
  }

  /** Reshaping 1-D input first, as the precomputation does, changes nothing. */
  lemma CalculateAfterReshape(a: NdArray<Float>)
    requires WellFormed(a) && ReshapeOneDim(a).Ok?
    ensures CalculateOptimalWindowSettings(ReshapeOneDim(a).value) == CalculateOptimalWindowSettings(a)
  {
    CalculateOnFinite(ReshapeOneDim(a).value);
  }

  lemma IntensitiesMultiset(fa: seq<real>, fb: seq<real>)
    requires multiset(fa) == multiset(fb)
    ensures multiset(Intensities(fa)) == multiset(Intensities(fb))
  {
    PositiveValuesMultiset(fa, fb);
    if exists x | x in fa :: x > 0.0 {
      var x :| x in fa && x > 0.0;
      assert x in multiset(fb);
    } else {
      forall x | x in fb ensures x <= 0.0 {
        assert x in multiset(fb);
        assert x in fa;
      }
    }
  }

  lemma WindowFromMultiset(va: seq<real>, vb: seq<real>)
    requires |va| > 0 && multiset(va) == multiset(vb)
    ensures |vb| > 0 && WindowFromValues(va) == WindowFromValues(vb)
  {
    assert |vb| == |multiset(vb)| == |multiset(va)| == |va|;
    SortedUnique(Sort(va), Sort(vb));
  }

  /**
   * Background exclusion: when some finite value is positive, no value <= 0
   * takes part, and the centre is positive.
   */
  lemma BackgroundExcluded(a: NdArray<Float>)
    requires WellFormed(a) && Rank(a) != 1
    requires exists i | 0 <= i < |a.flat| :: a.flat[i].Num? && a.flat[i].r > 0.0
    ensures CalculateOptimalWindowSettings(a) == Ok(WindowFromValues(PositiveValues(FiniteValues(a.flat))))
    ensures CalculateOptimalWindowSettings(a).value.center > 0.0
  {
    var i :| 0 <= i < |a.flat| && a.flat[i].Num? && a.flat[i].r > 0.0;
    var finite := FiniteValues(a.flat);
    assert a.flat[i].r in finite;
    CalculateOnFinite(a);
    var pos := PositiveValues(finite);
    WindowWithinIntensities(pos);
    SortExtremes(pos);
  }

  /** A region of one positive value k gives width 1 (the clamp) and centre k. */
  lemma UniformRegion(a: NdArray<Float>, k: real)
    requires WellFormed(a) && Rank(a) != 1 && |a.flat| > 0 && k > 0.0
    requires forall i | 0 <= i < |a.flat| :: a.flat[i] == Num(k)
    ensures CalculateOptimalWindowSettings(a) == Ok(WindowSettings(1.0, k))
  {
    assert a.flat[0] == Num(k);
    assert k in FiniteValues(a.flat);
    CalculateOnFinite(a);
    ConstantValues(a.flat, k);
    WindowOfConstant(Intensities(FiniteValues(a.flat)), k);
  }

  lemma WindowOfConstant(values: seq<real>, k: real)
    requires |values| > 0 && forall x | x in values :: x == k
    ensures WindowFromValues(values) == WindowSettings(1.0, k)
  {
    var sorted := Sort(values);
    forall j | 0 <= j < |sorted| ensures sorted[j] == k {
      assert sorted[j] in multiset(sorted);
      assert sorted[j] in multiset(values);
      assert sorted[j] in values;
    }
    PercentileOfConstant(sorted, 2.0, k);
    PercentileOfConstant(sorted, 98.0, k);
  }

  lemma ConstantValues(s: seq<Float>, k: real)
    requires k > 0.0 && forall i | 0 <= i < |s| :: s[i] == Num(k)
    ensures forall x | x in Intensities(FiniteValues(s)) :: x == k
  {
    forall x | x in FiniteValues(s) ensures x == k {
      assert Num(x) in s;
    }
  }

  // ---- apply_window_level -----------------------------------------------

  /** `(x - window_min) * 255 / (window_max - window_min)`. */
  function Linear(x: Float, center: real, width: real): Float {
    var lo, hi := center - width / 2.0, center + width / 2.0;
    Div(Scale(Sub(x, Num(lo)), 255.0), Num(hi - lo))
  }

  /**
   * `np.power(v / 255, 0.9) * 255`: `gamma` stands for that curve on v >= 0;
   * a finite negative base has no real power and gives NaN, as in NumPy, while
   * both infinities raised to a positive non-integer power give +inf
   * (C99 Annex F, `pow(-inf, y) = +inf` for y > 0 not an odd integer).
   */
  function Boost(v: Float, gamma: real -> real): Float {
    match v
    case Num(x) => if x < 0.0 then NaN else Num(gamma(x))
    case PosInf => PosInf
    case NegInf => PosInf
    case NaN => NaN
  }

  /** What the contrast curve is: monotone on v >= 0, fixing 0 and 255. */
  ghost predicate ContrastCurve(gamma: real -> real) {
    && gamma(0.0) == 0.0
    && gamma(255.0) == 255.0
    && forall x, y | 0.0 <= x <= y :: gamma(x) <= gamma(y)
  }

  /** One output pixel of `apply_window_level`. */
  function WindowPixel(x: Float, center: real, width: real, gamma: real -> real, undefinedByte: Byte): (r: Byte)
    ensures IsZero(x) ==> r == 0
  {
    if IsZero(x) then 0
    else ToUint8(Clip(Boost(Linear(x, center, width), gamma), 0.0, 255.0), undefinedByte)
  }

  /** `apply_window_level(data, window_center, window_width)`, element by element. */
  function ApplyWindowLevel(a: NdArray<Float>, center: real, width: real, gamma: real -> real, undefinedByte: Byte)
    : (r: NdArray<Byte>)
    ensures r.shape == a.shape && |r.flat| == |a.flat|
    ensures forall k | 0 <= k < |a.flat| :: IsZero(a.flat[k]) ==> r.flat[k] == 0
  {
    Map(a, x => WindowPixel(x, center, width, gamma, undefinedByte))
  }

  /** Pixels at or above the top of the window are white. */
  lemma AboveWindowIsWhite(x: real, center: real, width: real, gamma: real -> real, undefinedByte: Byte)
    requires width > 0.0 && ContrastCurve(gamma) && x != 0.0
    requires x >= center + width / 2.0
    ensures WindowPixel(Num(x), center, width, gamma, undefinedByte) == 255
  {
    var d := x - (center - width / 2.0);
    LinearOf(x, center, width);
    DivAtLeast(d, width);
    assert gamma(255.0) <= gamma(d * 255.0 / width);
  }

  lemma DivAtLeast(d: real, w: real)
    requires w > 0.0 && d >= w
    ensures d * 255.0 / w >= 255.0
  {
    assert d * 255.0 >= w * 255.0;
  }

  /** For a positive width the linear step is exact. */
  lemma LinearOf(x: real, center: real, width: real)
    requires width > 0.0
    ensures Linear(Num(x), center, width) == Num((x - (center - width / 2.0)) * 255.0 / width)
  {
    var lo, hi := center - width / 2.0, center + width / 2.0;
    assert hi - lo == width;
    assert Sub(Num(x), Num(lo)) == Num(x - lo);
    assert Scale(Num(x - lo), 255.0) == Num((x - lo) * 255.0);
  }

  /** The bottom edge of the window is black. */
  lemma WindowBottomIsBlack(center: real, width: real, gamma: real -> real, undefinedByte: Byte)
    requires width > 0.0 && ContrastCurve(gamma) && center - width / 2.0 != 0.0
    ensures WindowPixel(Num(center - width / 2.0), center, width, gamma, undefinedByte) == 0
  {
    var lo := center - width / 2.0;
    LinearOf(lo, center, width);
    assert (lo - lo) * 255.0 / width == 0.0;
    assert Boost(Num(0.0), gamma) == Num(0.0);
  }

  /**
   * Pixels strictly below the window have a negative base, so NaN reaches the
   * uint8 cast: they come out as the platform's undefined byte, not as 0.
   */
  lemma BelowWindowIsUndefined(x: real, center: real, width: real, gamma: real -> real, undefinedByte: Byte)
    requires width > 0.0 && x != 0.0 && x < center - width / 2.0
    ensures WindowPixel(Num(x), center, width, gamma, undefinedByte) == undefinedByte
  {
    var d := x - (center - width / 2.0);
    LinearOf(x, center, width);
    assert d * 255.0 < 0.0;
    assert d * 255.0 / width < 0.0;
  }

  /** A -inf pixel has the linear position -inf (or +inf), which the power makes +inf: white. */
  lemma NegInfPixelIsWhite(center: real, width: real, gamma: real -> real, undefinedByte: Byte)
    ensures WindowPixel(NegInf, center, width, gamma, undefinedByte) == 255
  {
    var lo, hi := center - width / 2.0, center + width / 2.0;
    assert Sub(NegInf, Num(lo)) == NegInf;
    assert Linear(NegInf, center, width) in {NegInf, PosInf};
  }

  /**
   * With width 0 the window is the single value `center`: any other nonzero
   * pixel divides a nonzero number by zero and comes out white, the centre
   * itself is 0/0 and comes out as the undefined byte.
   */
  lemma ZeroWidthPixel(x: real, center: real, gamma: real -> real, undefinedByte: Byte)
    requires x != 0.0
    ensures WindowPixel(Num(x), center, 0.0, gamma, undefinedByte) == if x == center then undefinedByte else 255
  {
    assert Sub(Num(x), Num(center)) == Num(x - center);
    assert Scale(Num(x - center), 255.0) == Num((x - center) * 255.0);
    if x < center {
      assert (x - center) * 255.0 < 0.0;
    } else if x > center {
      assert (x - center) * 255.0 > 0.0;
    }
  }

  /**
   * Inside the window a pixel is the floor of the contrast curve applied to
   * its linear position, clipped to 0..255.
   */
  lemma InsideWindow(x: real, center: real, width: real, gamma: real -> real, undefinedByte: Byte)
    requires width > 0.0 && ContrastCurve(gamma) && x != 0.0
    requires center - width / 2.0 <= x
    ensures var v := gamma((x - (center - width / 2.0)) * 255.0 / width);
            WindowPixel(Num(x), center, width, gamma, undefinedByte) == (if v > 255.0 then 255 else v.Floor)
  {
    var q := (x - (center - width / 2.0)) * 255.0 / width;
    LinearOf(x, center, width);
    NonnegScale(x - (center - width / 2.0), width);
    assert gamma(0.0) <= gamma(q);
    assert Boost(Num(q), gamma) == Num(gamma(q));
    ClipToByte(gamma(q), undefinedByte);
  }

  lemma NonnegScale(d: real, w: real)
    requires d >= 0.0 && w > 0.0
    ensures d * 255.0 / w >= 0.0
  {
  }

  /** A nonnegative value clipped to 0..255 and cast is its floor, or 255. */
  lemma ClipToByte(v: real, undefinedByte: Byte)
    requires v >= 0.0
    ensures ToUint8(Clip(Num(v), 0.0, 255.0), undefinedByte) == if v > 255.0 then 255 else v.Floor
  {
  }

  lemma ScaleMono(d: real, e: real, w: real)
    requires w > 0.0 && d <= e
    ensures d * 255.0 / w <= e * 255.0 / w
  {
    assert d * 255.0 <= e * 255.0;
  }

  /**
   * Non-background pixels are ordered like their values, provided the
   * platform sends NaN to 0 (on other platforms pixels below the window break
   * the order).
   */
  lemma WindowPixelMonotone(x: real, y: real, center: real, width: real, gamma: real -> real)
    requires width > 0.0 && ContrastCurve(gamma) && x != 0.0 && y != 0.0 && x <= y
    ensures WindowPixel(Num(x), center, width, gamma, 0) <= WindowPixel(Num(y), center, width, gamma, 0)
  {
    var lo := center - width / 2.0;
    if x < lo {
      BelowWindowIsUndefined(x, center, width, gamma, 0);
    } else {
      ScaleMono(x - lo, y - lo, width);
      InsideWindow(x, center, width, gamma, 0);
      InsideWindow(y, center, width, gamma, 0);
      var qx, qy := (x - lo) * 255.0 / width, (y - lo) * 255.0 / width;
      NonnegScale(x - lo, width);
      assert gamma(qx) <= gamma(qy);
    }
  }

  // ---- normalize_data ---------------------------------------------------

  /** One byte of `(data - data_min) * 255 / (data_max - data_min)` cast to uint8. */
  function NormalizeByte(x: Float, lo: Float, hi: Float, undefinedByte: Byte): Byte {
    ToUint8(Div(Scale(Sub(x, lo), 255.0), Sub(hi, lo)), undefinedByte)
  }

  /** `normalize_data(data)`: the bytes, the minimum and the maximum. */
  function NormalizeData(a: NdArray<Float>, undefinedByte: Byte)
    : (r: Result<(NdArray<Byte>, Float, Float), ProcessingError>)
    ensures r.Err? <==> |a.flat| == 0
    ensures r.Ok? ==> r.value.1 == MinOf(a.flat) && r.value.2 == MaxOf(a.flat)
    ensures r.Ok? ==> r.value.0.shape == a.shape && |r.value.0.flat| == |a.flat|
    ensures r.Ok? ==> forall k | 0 <= k < |a.flat| ::
              r.value.0.flat[k] == NormalizeByte(a.flat[k], r.value.1, r.value.2, undefinedByte)
  {
    if |a.flat| == 0 then Err(EmptyReduction)
    else
      var lo, hi := MinOf(a.flat), MaxOf(a.flat);
      Ok((Map(a, x => NormalizeByte(x, lo, hi, undefinedByte)), lo, hi))
  }

  /**
   * A finite value v between finite lo < hi becomes
   * floor((v - lo) * 255 / (hi - lo)): lo goes to 0, hi to 255.
   */
  lemma NormalizeByteFinite(v: real, lo: real, hi: real, undefinedByte: Byte)
    requires lo <= v <= hi && lo < hi
    ensures NormalizeByte(Num(v), Num(lo), Num(hi), undefinedByte) == Linear255(v, lo, hi)
    ensures v == lo ==> NormalizeByte(Num(v), Num(lo), Num(hi), undefinedByte) == 0
    ensures v == hi ==> NormalizeByte(Num(v), Num(lo), Num(hi), undefinedByte) == 255
  {
    UnitScale(v - lo, hi - lo);
    assert Scale(Num(v - lo), 255.0) == Num((v - lo) * 255.0);
    if v == hi {
      SelfRatio(hi - lo);
    }
  }

  /** floor((v - lo) * 255 / (hi - lo)): the position of v in [lo, hi] on a 0..255 scale. */
  function Linear255(v: real, lo: real, hi: real): int
    requires lo < hi
  {
    ((v - lo) * 255.0 / (hi - lo)).Floor
  }

  lemma SelfRatio(d: real)
    requires d > 0.0
    ensures d * 255.0 / d == 255.0
  {
  }

  lemma UnitScale(d: real, w: real)
    requires w > 0.0 && 0.0 <= d <= w
    ensures 0.0 <= d * 255.0 / w <= 255.0
  {
    assert d * 255.0 <= w * 255.0;
  }

  /** For finite data with max > min: element k is its linear position in [min, max], in 0..255. */
  lemma NormalizeFinite(a: NdArray<Float>, undefinedByte: Byte, k: nat)
    requires k < |a.flat| && forall i | 0 <= i < |a.flat| :: a.flat[i].Num?
    requires MinOf(a.flat).r < MaxOf(a.flat).r
    ensures NormalizeData(a, undefinedByte).Ok?
    ensures NormalizeData(a, undefinedByte).value.0.flat[k] == Linear255(a.flat[k].r, MinOf(a.flat).r, MaxOf(a.flat).r)
  {
    var lo, hi := MinOf(a.flat), MaxOf(a.flat);
    var v := a.flat[k];
    assert lo.Num? && hi.Num? && lo.r <= v.r <= hi.r;
    var bytes := NormalizeData(a, undefinedByte).value.0;
    assert bytes.flat[k] == NormalizeByte(v, lo, hi, undefinedByte);
    assert v == Num(v.r) && lo == Num(lo.r) && hi == Num(hi.r);
    NormalizeByteFinite(v.r, lo.r, hi.r, undefinedByte);
  }

  /** Constant finite data divides 0 by 0: every byte is the undefined one. */
  lemma NormalizeConstant(a: NdArray<Float>, undefinedByte: Byte, k: nat)
    requires k < |a.flat| && forall i | 0 <= i < |a.flat| :: a.flat[i].Num?
    requires MinOf(a.flat) == MaxOf(a.flat)
    ensures NormalizeData(a, undefinedByte).Ok?
    ensures NormalizeData(a, undefinedByte).value.0.flat[k] == undefinedByte
  {
    var lo := MinOf(a.flat);
    assert lo.r <= a.flat[k].r <= MaxOf(a.flat).r;
    assert a.flat[k] == lo;
    assert Sub(lo, lo) == Num(0.0);
    assert Scale(Num(0.0), 255.0) == Num(0.0);
  }

  // ---- precompute_normalized_slices ------------------------------------

  datatype Precomputed = Precomputed(slices: seq<NdArray<Byte>>, dataMin: real, dataMax: real)

  /** The number of slices a successfully reshaped array yields. */
  function SliceCount(d: NdArray<Float>): nat
    requires WellFormed(d)
  {
    if Rank(d) == 3 then d.shape[2] else 1
  }

  /** Slice i: `data[:, :, i]` of 3-D data, the data itself when 2-D. */
  function SliceOf(d: NdArray<Float>, i: nat): (r: NdArray<Float>)
    requires WellFormed(d) && (Rank(d) == 2 || Rank(d) == 3) && i < SliceCount(d)
    ensures WellFormed(r) && Rank(r) == 2
  {
    if Rank(d) == 3 then AxisTwoSlice(d, i) else d
  }

  /** Every slice of `d`, mapped through one window. */
  function MappedSlices(d: NdArray<Float>, ws: WindowSettings, gamma: real -> real, undefinedByte: Byte)
    : (r: seq<NdArray<Byte>>)
    requires WellFormed(d) && (Rank(d) == 2 || Rank(d) == 3)
    ensures |r| == SliceCount(d)
    ensures forall i | 0 <= i < |r| :: r[i] == ApplyWindowLevel(SliceOf(d, i), ws.center, ws.width, gamma, undefinedByte)
  {
    seq(SliceCount(d), i requires 0 <= i < SliceCount(d) =>
          ApplyWindowLevel(SliceOf(d, i), ws.center, ws.width, gamma, undefinedByte))
  }

  /**
   * What `precompute_normalized_slices` computes, as a value: the error it
   * raises, or the mapped slices and the normalisation range.
   */
  function PrecomputeReference(data: NdArray<Float>, gamma: real -> real, undefinedByte: Byte)
    : (r: Result<Precomputed, ProcessingError>)
    requires WellFormed(data)
    ensures r.Err? <==> (Rank(data) == 1 && !IsSquare(|data.flat|)) || Rank(data) == 0 || Rank(data) >= 4
    ensures r.Err? ==> r.error == if Rank(data) == 1 then ReshapeError else DimensionalityError
    ensures r.Ok? ==>
      var d := ReshapeOneDim(data).value;
      var ws := CalculateOptimalWindowSettings(data).value;
      && (Rank(d) == 2 || Rank(d) == 3)
      && r.value.slices == MappedSlices(d, ws, gamma, undefinedByte)
      && r.value.dataMin == ws.center - ws.width / 2.0
      && r.value.dataMax == ws.center + ws.width / 2.0
  {
    var reshaped := ReshapeOneDim(data);
    if reshaped.Err? then Err(ReshapeError)
    else if Rank(reshaped.value) != 2 && Rank(reshaped.value) != 3 then Err(DimensionalityError)
    else
      CalculateAfterReshape(data);
      Ok(PrecomputeFrom(reshaped.value, gamma, undefinedByte))
  }

  /** The result for data already reshaped to 2-D or 3-D: its mapped slices and window range. */
  function PrecomputeFrom(d: NdArray<Float>, gamma: real -> real, undefinedByte: Byte): Precomputed
    requires WellFormed(d) && (Rank(d) == 2 || Rank(d) == 3)
  {
    var ws := CalculateOptimalWindowSettings(d).value;
    Precomputed(MappedSlices(d, ws, gamma, undefinedByte), ws.center - ws.width / 2.0, ws.center + ws.width / 2.0)
  }

  /** Slices that agree with `MappedSlices` pointwise are `MappedSlices`. */
  lemma MappedSlicesExt(d: NdArray<Float>, ws: WindowSettings, gamma: real -> real, undefinedByte: Byte,
                        slices: seq<NdArray<Byte>>)
    requires WellFormed(d) && (Rank(d) == 2 || Rank(d) == 3)
    requires |slices| == SliceCount(d)
    requires forall i | 0 <= i < |slices| ::
               slices[i] == ApplyWindowLevel(SliceOf(d, i), ws.center, ws.width, gamma, undefinedByte)
    ensures slices == MappedSlices(d, ws, gamma, undefinedByte)
  {
  }

  /** On data that reshapes to 2-D or 3-D the reference succeeds. */
  lemma PrecomputeReferenceOk(data: NdArray<Float>, gamma: real -> real, undefinedByte: Byte)
    requires WellFormed(data) && ReshapeOneDim(data).Ok?
    requires var d := ReshapeOneDim(data).value; Rank(d) == 2 || Rank(d) == 3
    ensures PrecomputeReference(data, gamma, undefinedByte) == Ok(PrecomputeFrom(ReshapeOneDim(data).value, gamma, undefinedByte))
  {
  }

  /** Data that does not reshape to 2-D or 3-D makes the reference fail with the matching error. */
  lemma PrecomputeReferenceErr(data: NdArray<Float>, gamma: real -> real, undefinedByte: Byte)
    requires WellFormed(data)
    ensures ReshapeOneDim(data).Err? ==> PrecomputeReference(data, gamma, undefinedByte) == Err(ReshapeError)
    ensures ReshapeOneDim(data).Ok? && Rank(ReshapeOneDim(data).value) != 2 && Rank(ReshapeOneDim(data).value) != 3
            ==> PrecomputeReference(data, gamma, undefinedByte) == Err(DimensionalityError)
  {
  }

  /** The slice loop of `precompute_normalized_slices`: one mapped slice per slice of `d`. */
  method MapSlices(d: NdArray<Float>, ws: WindowSettings, gamma: real -> real, undefinedByte: Byte)
    returns (slices: seq<NdArray<Byte>>)
    requires WellFormed(d) && (Rank(d) == 2 || Rank(d) == 3)
    ensures slices == MappedSlices(d, ws, gamma, undefinedByte)
  {
    slices := [];
    if Rank(d) == 3 {
      var i := 0;
      while i < d.shape[2]
        invariant 0 <= i <= d.shape[2]
        invariant |slices| == i
        invariant forall j | 0 <= j < i ::
                    slices[j] == ApplyWindowLevel(SliceOf(d, j), ws.center, ws.width, gamma, undefinedByte)
      {
        slices := slices + [ApplyWindowLevel(AxisTwoSlice(d, i), ws.center, ws.width, gamma, undefinedByte)];
        i := i + 1;
      }
    } else {
      slices := [ApplyWindowLevel(d, ws.center, ws.width, gamma, undefinedByte)];
    }
    MappedSlicesExt(d, ws, gamma, undefinedByte, slices);
  }

  /**
   * `precompute_normalized_slices(data)`: one window/level-mapped slice per
   * axis-2 index of 3-D data, one for 2-D data, a ValueError otherwise.
   */
  method PrecomputeNormalizedSlices(data: NdArray<Float>, gamma: real -> real, undefinedByte: Byte)
    returns (r: Result<Precomputed, ProcessingError>)
    requires WellFormed(data)
    ensures r == PrecomputeReference(data, gamma, undefinedByte)
  {
    var reshaped := ReshapeOneDim(data);
    if reshaped.Err? {
      PrecomputeReferenceErr(data, gamma, undefinedByte);
      return Err(ReshapeError);
    }
    var d := reshaped.value;
    var ws := CalculateOptimalWindowSettings(d).value;
    var dataMin := ws.center - ws.width / 2.0;
    var dataMax := ws.center + ws.width / 2.0;
    if Rank(d) != 2 && Rank(d) != 3 {
      PrecomputeReferenceErr(data, gamma, undefinedByte);
      return Err(DimensionalityError);
    }
    var slices := MapSlices(d, ws, gamma, undefinedByte);
    r := Ok(Precomputed(slices, dataMin, dataMax));
    assert r.value == PrecomputeFrom(d, gamma, undefinedByte);
    PrecomputeReferenceOk(data, gamma, undefinedByte);
  }

  /** The normalisation range is exactly one window wide, and at least 1. */
  lemma PrecomputedRangeIsWidth(data: NdArray<Float>, p: Precomputed)
    requires WellFormed(data) && CalculateOptimalWindowSettings(data).Ok?
    requires p.dataMin == CalculateOptimalWindowSettings(data).value.center - CalculateOptimalWindowSettings(data).value.width / 2.0
    requires p.dataMax == CalculateOptimalWindowSettings(data).value.center + CalculateOptimalWindowSettings(data).value.width / 2.0
    ensures p.dataMax - p.dataMin == CalculateOptimalWindowSettings(data).value.width >= 1.0
  {
  }
}
