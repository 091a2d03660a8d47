/**
 * The two synthetic test images of utils/create_test_image.py, built the
 * way the script builds them: a zero-filled 512×512 uint8 array, masked and
 * sliced assignments of 255, and a stepped loop writing horizontal stripes.
 * Saving them as PNG files is not modelled.
 */
module TestPatterns {
  import opened Floats

  const Size: int := 512
  const Center: int := Size / 2
  const Radius: int := Size / 4
  /** `range(0, size, 50)` and the stripe height `i:i+25`. */
  const StripeStep: int := 50
  const StripeHeight: int := 25

  /** `x*x + y*y <= radius*radius` with `y, x` the offsets from the centre. */
  predicate InCircle(r: int, c: int) {
    (c - Center) * (c - Center) + (r - Center) * (r - Center) <= Radius * Radius
  }

  /** The intended first image: white inside the disc, black outside. */
  function CirclePixel(r: int, c: int): (v: Byte)
    ensures v == 0 || v == 255
  {
    if InCircle(r, c) then 255 else 0
  }

  /** The intended second image: white exactly on rows whose offset in a 50-row period is below 25. */
  function StripePixel(r: int, c: int): (v: Byte)
    ensures v == 0 || v == 255
  {
    if r % StripeStep < StripeHeight then 255 else 0
  }

  lemma SquareAtMost(d: int, bound: int)
    requires 0 <= bound && -bound <= d <= bound
    ensures d * d <= bound * bound
  {
    var a := if d < 0 then -d else d;
    assert d * d == a * a;
    assert a * a <= a * bound;
    assert a * bound <= bound * bound;
  }

  /**
   * Every pixel the two reference lines write (rows or columns 128
   * through 383 on the centre column or row) already lies inside the disc,
   * so the lines leave the circle image unchanged.
   */
  lemma LinesInsideCircle(k: int)
    requires Size / 4 <= k < 3 * Size / 4
    ensures InCircle(k, Size / 2) && InCircle(Size / 2, k)
  {
    SquareAtMost(k - Center, Radius);
  }

  /** The disc is symmetric under transposition and under reflection through the centre row. */
  lemma CircleSymmetric(r: int, c: int)
    ensures CirclePixel(r, c) == CirclePixel(c, r)
    ensures CirclePixel(r, c) == CirclePixel(Size - r, c)
  {
    var d := r - Center;
    assert Size - r - Center == -d;
    NegSquare(d);
  }

  lemma NegSquare(d: int)
    ensures (-d) * (-d) == d * d
  {
  }

  /** The stripe pattern repeats every 50 rows and does not depend on the column. */
  lemma StripePeriodic(r: int, c: int, c': int)
    ensures StripePixel(r + StripeStep, c) == StripePixel(r, c)
    ensures StripePixel(r, c) == StripePixel(r, c')
  {
    assert (r + StripeStep) % StripeStep == r % StripeStep;
  }

  /** `image = np.zeros((size, size), dtype=np.uint8)`. */
  method Zeros() returns (image: array2<Byte>)
    ensures fresh(image) && image.Length0 == Size && image.Length1 == Size
    ensures forall i, j | 0 <= i < Size && 0 <= j < Size :: image[i, j] == 0
  {
    image := new Byte[Size, Size]((i, j) => 0);
  }

  /** `image[mask] = 255` on a zero image. */
  method FillCircle(image: array2<Byte>)
    requires image.Length0 == Size && image.Length1 == Size
    requires forall i, j | 0 <= i < Size && 0 <= j < Size :: image[i, j] == 0
    modifies image
    ensures forall i, j | 0 <= i < Size && 0 <= j < Size :: image[i, j] == CirclePixel(i, j)
  {
    var r := 0;
    while r < Size
      invariant 0 <= r <= Size
      invariant forall i, j | 0 <= i < Size && 0 <= j < Size ::
        image[i, j] == if i < r then CirclePixel(i, j) else 0
    {
      var c := 0;
      while c < Size
        invariant 0 <= c <= Size
        invariant forall i, j | 0 <= i < Size && 0 <= j < Size ::
          image[i, j] == if i < r || (i == r && j < c) then CirclePixel(i, j) else 0
      {
        if InCircle(r, c) {
          image[r, c] := 255;
        }
        c := c + 1;
      }
      r := r + 1;
    }
  }

  /** `image[size//4:3*size//4, size//2] = 255` and `image[size//2, size//4:3*size//4] = 255`. */
  method DrawLines(image: array2<Byte>)
    requires image.Length0 == Size && image.Length1 == Size
    requires forall i, j | 0 <= i < Size && 0 <= j < Size :: image[i, j] == CirclePixel(i, j)
    modifies image
    ensures forall i, j | 0 <= i < Size && 0 <= j < Size :: image[i, j] == CirclePixel(i, j)
  {
    var k := Size / 4;
    while k < 3 * Size / 4
      invariant Size / 4 <= k <= 3 * Size / 4
      invariant forall i, j | 0 <= i < Size && 0 <= j < Size :: image[i, j] == CirclePixel(i, j)
    {
      LinesInsideCircle(k);
      image[k, Size / 2] := 255;
      k := k + 1;
    }
    k := Size / 4;
    while k < 3 * Size / 4
      invariant Size / 4 <= k <= 3 * Size / 4
      invariant forall i, j | 0 <= i < Size && 0 <= j < Size :: image[i, j] == CirclePixel(i, j)
    {
      LinesInsideCircle(k);
      image[Size / 2, k] := 255;
      k := k + 1;
    }
  }

  /** The first test image: a 512×512 array equal to the disc mask, holding only 0 and 255. */
  method CirclePattern() returns (image: array2<Byte>)
    ensures fresh(image) && image.Length0 == Size && image.Length1 == Size
    ensures forall i, j | 0 <= i < Size && 0 <= j < Size :: image[i, j] == CirclePixel(i, j)
    ensures forall i, j | 0 <= i < Size && 0 <= j < Size :: image[i, j] == 0 || image[i, j] == 255
  {
    image := Zeros();
    FillCircle(image);
    DrawLines(image);
  }

  /** `image_2[r, :] = 255` for one row. */
  method FillRow(image: array2<Byte>, r: int)
    requires image.Length0 == Size && image.Length1 == Size && 0 <= r < Size
    modifies image
    ensures forall i, j | 0 <= i < Size && 0 <= j < Size ::
      image[i, j] == if i == r then 255 else old(image[i, j])
  {
    var c := 0;
    while c < Size
      invariant 0 <= c <= Size
      invariant forall i, j | 0 <= i < Size && 0 <= j < Size ::
        image[i, j] == if i == r && j < c then 255 else old(image[i, j])
    {
      image[r, c] := 255;
      c := c + 1;
    }
  }

  lemma OffsetInPeriod(i: int, r: int)
    requires i >= 0 && i % StripeStep == 0 && i <= r < i + StripeStep
    ensures r % StripeStep == r - i
  {
    var q := i / StripeStep;
    assert i == StripeStep * q;
    assert r == StripeStep * q + (r - i);
  }

  /** The second test image: `for i in range(0, size, 50): image_2[i:i+25, :] = 255`. */
  method StripePattern() returns (image: array2<Byte>)
    ensures fresh(image) && image.Length0 == Size && image.Length1 == Size
    ensures forall i, j | 0 <= i < Size && 0 <= j < Size :: image[i, j] == StripePixel(i, j)
    ensures forall i, j | 0 <= i < Size && 0 <= j < Size :: image[i, j] == 0 || image[i, j] == 255
  {
    image := Zeros();
    var start := 0;
    while start < Size
      invariant 0 <= start && start % StripeStep == 0
      invariant forall i, j | 0 <= i < Size && 0 <= j < Size ::
        image[i, j] == if i < start then StripePixel(i, j) else 0
    {
      // the slice `start:start+25` is clipped to the array
      var stop := if start + StripeHeight < Size then start + StripeHeight else Size;
      var r := start;
      while r < stop
        invariant start <= r <= stop
        invariant forall i, j | 0 <= i < Size && 0 <= j < Size ::
          image[i, j] == if i < start then StripePixel(i, j) else if i < r then 255 else 0
      {
        FillRow(image, r);
        r := r + 1;
      }
      forall i | start <= i < start + StripeStep
        ensures i % StripeStep == i - start
      {
        OffsetInPeriod(start, i);
      }
      start := start + StripeStep;
    }
  }
}
