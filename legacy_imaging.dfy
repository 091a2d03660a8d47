/**
 * The older image helpers (utils/image_processing.py): integer window/level
 * on a pixel array and the basic metadata summary.
 */
module LegacyImaging {
  import opened Wrappers
  import opened Floats
  import opened Text
  import opened Arrays

  /**
   * `window_width // 2`.  Dafny's `/` with a positive divisor rounds toward
   * negative infinity, as Python's `//` does.
   */
  function Half(w: int): (r: int)
    ensures 2 * r <= w < 2 * r + 2
  {
    w / 2
  }

  /**
   * `np.clip(x, lo, hi)`, which is `minimum(maximum(x, lo), hi)`: when the
   * bounds are crossed every value becomes `hi`.
   */
  function ClipInt(x: int, lo: int, hi: int): (r: int)
    ensures lo <= hi ==> lo <= r <= hi && (lo <= x <= hi ==> r == x)
    ensures lo > hi ==> r == hi
  {
    var m := if x < lo then lo else x;
    if m > hi then hi else m
  }

  /** One pixel of `apply_window_level(image, window_width, window_center)`. */
  function LegacyPixel(x: int, width: int, center: int, undefinedByte: Byte): Byte {
    var lo, hi := center - Half(width), center + Half(width);
    var v := ClipInt(x, lo, hi);
    ToUint8(Scale(Div(Num((v - lo) as real), Num((hi - lo) as real)), 255.0), undefinedByte)
  }

  function LegacyWindowLevel(a: NdArray<int>, width: int, center: int, undefinedByte: Byte): (r: NdArray<Byte>)
    ensures r.shape == a.shape && |r.flat| == |a.flat|
    ensures forall k | 0 <= k < |a.flat| :: r.flat[k] == LegacyPixel(a.flat[k], width, center, undefinedByte)
  {
    Map(a, x => LegacyPixel(x, width, center, undefinedByte))
  }

  lemma RatioBounds(d: int, w: int)
    requires 0 <= d <= w && w > 0
    ensures 0.0 <= d as real / w as real <= 1.0
    ensures 0.0 <= d as real / w as real * 255.0 <= 255.0
  {
    assert d as real <= w as real;
  }

  /**
   * For a width of at least 2 the window is [c - w // 2, c + w // 2]: a pixel
   * is the floor of its clipped linear position, below the window it is 0
   * and above it 255.
   */
  lemma LegacyInside(x: int, width: int, center: int, undefinedByte: Byte)
    requires width >= 2
    ensures var lo, hi := center - Half(width), center + Half(width);
            var v := ClipInt(x, lo, hi);
            && LegacyPixel(x, width, center, undefinedByte) == ((v - lo) as real / (hi - lo) as real * 255.0).Floor
            && (x <= lo ==> LegacyPixel(x, width, center, undefinedByte) == 0)
            && (x >= hi ==> LegacyPixel(x, width, center, undefinedByte) == 255)
  {
    var lo, hi := center - Half(width), center + Half(width);
    var v := ClipInt(x, lo, hi);
    RatioBounds(v - lo, hi - lo);
    if x >= hi {
      assert v == hi;
      DivSelf((hi - lo) as real);
    }
  }

  /** A width of 0 or 1 halves to 0: the window is one value and 0/0 is NaN. */
  lemma LegacyDegenerateWidth(x: int, width: int, center: int, undefinedByte: Byte)
    requires width == 0 || width == 1
    ensures LegacyPixel(x, width, center, undefinedByte) == undefinedByte
  {
    assert Half(width) == 0;
  }

  /**
   * A negative width crosses the bounds: every integer pixel is clipped to
   * the top and comes out 255.  (A uint8 image whose bounds both fit in a
   * byte wraps in the subtraction instead; pixels here are integers.)
   */
  lemma LegacyNegativeWidth(x: int, width: int, center: int, undefinedByte: Byte)
    requires width < 0
    ensures LegacyPixel(x, width, center, undefinedByte) == 255
  {
    var lo, hi := center - Half(width), center + Half(width);
    assert hi < lo;
    assert ClipInt(x, lo, hi) == hi;
    DivSelf((hi - lo) as real);
  }

  lemma DivSelf(d: real)
    requires d != 0.0
    ensures d / d == 1.0
  {
  }

  lemma RatioMono(d: int, e: int, w: int)
    requires d <= e && w > 0
    ensures d as real / w as real * 255.0 <= e as real / w as real * 255.0
  {
  }

  /** With a proper window, brighter input never gives a darker pixel. */
  lemma LegacyMonotone(x: int, y: int, width: int, center: int, undefinedByte: Byte)
    requires width >= 2 && x <= y
    ensures LegacyPixel(x, width, center, undefinedByte) <= LegacyPixel(y, width, center, undefinedByte)
  {
    var lo, hi := center - Half(width), center + Half(width);
    LegacyInside(x, width, center, undefinedByte);
    LegacyInside(y, width, center, undefinedByte);
    RatioMono(ClipInt(x, lo, hi) - lo, ClipInt(y, lo, hi) - lo, hi - lo);
  }

  // ---- extract_metadata -------------------------------------------------

  /** The summary `extract_metadata` returns, less the formatted standard deviation. */
  datatype Metadata = Metadata(dimensions: string, channels: nat, meanIntensity: Float)

  datatype MetadataError = TooFewDimensions   // `height, width = image.shape[:2]` cannot unpack

  function Pixels(s: seq<int>): (r: seq<Float>)
    ensures |r| == |s| && forall i | 0 <= i < |s| :: r[i] == Num(s[i] as real)
  {
    seq(|s|, i requires 0 <= i < |s| => Num(s[i] as real))
  }

  /** `extract_metadata(image)`. */
  function ExtractMetadata(a: NdArray<int>): (r: Result<Metadata, MetadataError>)
    ensures r.Err? <==> Rank(a) < 2
    ensures r.Ok? ==> r.value.channels == (if Rank(a) == 2 then 1 else a.shape[2])
    ensures r.Ok? ==> r.value.meanIntensity == Mean(Pixels(a.flat))
  {
    if Rank(a) < 2 then Err(TooFewDimensions)
    else
      var height, width := a.shape[0], a.shape[1];
      Ok(Metadata(NatToDecimal(width) + "x" + NatToDecimal(height),
                  if Rank(a) == 2 then 1 else a.shape[2],
                  Mean(Pixels(a.flat))))
  }

  /** "Dimensions" reads back as width then height, split at the 'x'. */
  lemma DimensionsRoundTrip(a: NdArray<int>)
    requires Rank(a) >= 2
    ensures var parts := Split(ExtractMetadata(a).value.dimensions, 'x');
            && |parts| == 2 && AllDigits(parts[0]) && AllDigits(parts[1])
            && DigitsValue(parts[0]) == a.shape[1]
            && DigitsValue(parts[1]) == a.shape[0]
  {
    var w, h := NatToDecimal(a.shape[1]), NatToDecimal(a.shape[0]);
    DigitsExclude(w, 'x');
    DigitsExclude(h, 'x');
    assert w + "x" + h == w + ['x'] + h;
    SplitJoin(w, h, 'x');
    DecimalRoundTrip(a.shape[1]);
    DecimalRoundTrip(a.shape[0]);
  }
}
