/**
 * NumPy arrays as a shape and a row-major sequence of elements, with the
 * views and reshapes the server applies: iteration over axis 0, the slices
 * along axis 2, `np.squeeze`, indexing the last axis at 0, the mean over
 * axis 2, and `np.rot90` of a two-dimensional array.
 */
module Arrays {
  import opened Floats

  datatype NdArray<T> = NdArray(shape: seq<nat>, flat: seq<T>)

  /** The number of elements an array of this shape holds. */
  function Product(s: seq<nat>): nat {
    if s == [] then 1 else s[0] * Product(s[1..])
  }

  ghost predicate WellFormed<T>(a: NdArray<T>) {
    |a.flat| == Product(a.shape)
  }

  function Rank<T>(a: NdArray<T>): nat { |a.shape| }

  /** A shape with elements has no axis of length 0. */
  lemma {:induction false} ProductPositive(s: seq<nat>, i: nat)
    requires Product(s) > 0 && i < |s|
    ensures s[i] > 0
  {
    assert Product(s) == s[0] * Product(s[1..]);
    if i > 0 {
      assert Product(s[1..]) > 0;
      ProductPositive(s[1..], i - 1);
    }
  }

  lemma {:induction false} ProductAppend(s: seq<nat>, t: seq<nat>)
    ensures Product(s + t) == Product(s) * Product(t)
  {
    if s != [] {
      assert (s + t)[1..] == s[1..] + t;
      ProductAppend(s[1..], t);
      calc {
        Product(s + t);
        s[0] * Product(s[1..] + t);
        s[0] * (Product(s[1..]) * Product(t));
        { MulAssoc(s[0], Product(s[1..]), Product(t)); }
        (s[0] * Product(s[1..])) * Product(t);
      }
    } else {
      assert s + t == t;
    }
  }

  lemma MulAssoc(a: nat, b: nat, c: nat)
    ensures a * (b * c) == (a * b) * c
  {
  }

  lemma ProductOfTwo(a: nat, b: nat)
    ensures Product([a, b]) == a * b
  {
    assert [a, b][1..] == [b];
    assert [b][1..] == [];
    assert Product([b]) == b * Product([]);
  }

  lemma ProductOfThree(a: nat, b: nat, c: nat)
    ensures Product([a, b, c]) == (a * b) * c
  {
    assert [a, b, c][1..] == [b, c];
    ProductOfTwo(b, c);
    MulAssoc(a, b, c);
  }

  lemma MulLe(a: nat, b: nat, c: nat)
    requires a <= b
    ensures a * c <= b * c
  {
  }

  /** Row k of a block of n rows of width d stays inside the block. */
  lemma StrideBound(k: nat, n: nat, i: nat, d: nat)
    requires k < n && i < d
    ensures k * d + i < n * d
  {
    MulLe(k + 1, n, d);
  }

  /** Splitting a flat index p < n * d into its row p / d and column p % d. */
  lemma DivModBounds(p: nat, n: nat, d: nat)
    requires p < n * d
    ensures d > 0 && p / d < n && p % d < d && p == (p / d) * d + p % d
  {
    if p / d >= n { MulLe(n, p / d, d); }
  }

  lemma DivModOf(i: nat, j: nat, d: nat)
    requires j < d
    ensures (i * d + j) / d == i && (i * d + j) % d == j
  {
    var p := i * d + j;
    var q, r := p / d, p % d;
    assert p == q * d + r;
    if q > i { MulLe(i + 1, q, d); }
    if q < i { MulLe(q + 1, i, d); }
  }

  /** Applies f to every element: NumPy's element-wise operations. */
  function Map<T, U>(a: NdArray<T>, f: T -> U): (r: NdArray<U>)
    ensures r.shape == a.shape && |r.flat| == |a.flat|
    ensures forall k | 0 <= k < |a.flat| :: r.flat[k] == f(a.flat[k])
  {
    NdArray(a.shape, seq(|a.flat|, k requires 0 <= k < |a.flat| => f(a.flat[k])))
  }

  /** Elements k * b .. (k + 1) * b - 1 of a flat sequence: block k of size b. */
  function Block<T>(flat: seq<T>, k: nat, n: nat, b: nat): (r: seq<T>)
    requires k < n && |flat| == n * b
    ensures |r| == b
  {
    MulLe(k + 1, n, b);
    assert (k + 1) * b == k * b + b;
    flat[k * b..(k + 1) * b]
  }

  /** The sub-arrays `for x in a` visits: one per index of axis 0. */
  function Items<T>(a: NdArray<T>): (r: seq<NdArray<T>>)
    requires WellFormed(a) && Rank(a) >= 1
    ensures |r| == a.shape[0]
    ensures forall k | 0 <= k < |r| :: WellFormed(r[k]) && r[k].shape == a.shape[1..]
  {
    var n, b := a.shape[0], Product(a.shape[1..]);
    seq(n, k requires 0 <= k < n => NdArray(a.shape[1..], Block(a.flat, k, n, b)))
  }

  /** `a[:, :, i]` of a three-dimensional array. */
  function AxisTwoSlice<T>(a: NdArray<T>, i: nat): (r: NdArray<T>)
    requires WellFormed(a) && Rank(a) == 3 && i < a.shape[2]
    ensures WellFormed(r) && r.shape == [a.shape[0], a.shape[1]]
    ensures |r.flat| == a.shape[0] * a.shape[1]
    ensures forall k | 0 <= k < a.shape[0] * a.shape[1] ::
              k * a.shape[2] + i < |a.flat| && r.flat[k] == a.flat[k * a.shape[2] + i]
  {
    var n, d := a.shape[0] * a.shape[1], a.shape[2];
    ProductOfThree(a.shape[0], a.shape[1], a.shape[2]);
    ProductOfTwo(a.shape[0], a.shape[1]);
    assert a.shape == [a.shape[0], a.shape[1], a.shape[2]];
    StrideBoundAll(n, i, d);
    NdArray([a.shape[0], a.shape[1]], seq(n, k requires 0 <= k < n => a.flat[k * d + i]))
  }

  lemma StrideBoundAll(n: nat, i: nat, d: nat)
    requires i < d
    ensures forall k: nat | k < n :: k * d + i < n * d
  {
    forall k: nat | k < n ensures k * d + i < n * d { StrideBound(k, n, i, d); }
  }

  predicate NotOne(d: nat) { d != 1 }

  function Filter1(s: seq<nat>): (r: seq<nat>)
    ensures forall i | 0 <= i < |r| :: r[i] != 1
    ensures |r| <= |s|
    ensures (forall i | 0 <= i < |s| :: s[i] != 1) ==> r == s
  {
    if s == [] then [] else (if s[0] == 1 then [] else [s[0]]) + Filter1(s[1..])
  }

  lemma {:induction false} ProductFilter1(s: seq<nat>)
    ensures Product(Filter1(s)) == Product(s)
  {
    if s != [] {
      ProductFilter1(s[1..]);
      ProductAppend(if s[0] == 1 then [] else [s[0]], Filter1(s[1..]));
    }
  }

  lemma {:induction false} Filter1Drops(s: seq<nat>)
    requires 1 in s
    ensures |Filter1(s)| < |s|
  {
    if s[0] != 1 { Filter1Drops(s[1..]); }
  }

  /** `np.squeeze(a)`: every axis of length 1 removed; the elements keep their order. */
  function Squeeze<T>(a: NdArray<T>): (r: NdArray<T>)
    requires WellFormed(a)
    ensures WellFormed(r) && r.flat == a.flat
    ensures forall i | 0 <= i < Rank(r) :: r.shape[i] != 1
  {
    ProductFilter1(a.shape);
    NdArray(Filter1(a.shape), a.flat)
  }

  /** `a[..., 0]`: the last axis indexed at 0. */
  function LastIndexZero<T>(a: NdArray<T>): (r: NdArray<T>)
    requires WellFormed(a) && Rank(a) >= 1 && a.shape[Rank(a) - 1] > 0
    ensures WellFormed(r) && r.shape == a.shape[..Rank(a) - 1]
    ensures forall k | 0 <= k < |r.flat| ::
              k * a.shape[Rank(a) - 1] < |a.flat| && r.flat[k] == a.flat[k * a.shape[Rank(a) - 1]]
  {
    var outer, last := a.shape[..Rank(a) - 1], a.shape[Rank(a) - 1];
    assert a.shape == outer + [last];
    ProductAppend(outer, [last]);
    assert Product([last]) == last * Product([]);
    var n := Product(outer);
    StrideBoundAll(n, 0, last);
    NdArray(outer, seq(n, k requires 0 <= k < n => a.flat[k * last + 0]))
  }

  /** The sum of the elements, accumulated left to right. */
  function Sum(s: seq<Float>): (r: Float)
    ensures (forall i | 0 <= i < |s| :: s[i].Num?) ==> r.Num?
  {
    if s == [] then Num(0.0) else Add(Sum(s[..|s| - 1]), s[|s| - 1])
  }

  /** `np.mean` of a sequence; the mean of nothing is 0/0, NaN. */
  function Mean(s: seq<Float>): (r: Float)
    ensures s == [] ==> r == NaN
    ensures s != [] && (forall i | 0 <= i < |s| :: s[i].Num?) ==> r.Num? && r.r == Sum(s).r / |s| as real
  {
    Div(Sum(s), Num(|s| as real))
  }

  /** `np.mean(a, axis=2)` of a three-dimensional array. */
  function MeanAxis2(a: NdArray<Float>): (r: NdArray<Float>)
    requires WellFormed(a) && Rank(a) == 3
    ensures WellFormed(r) && r.shape == [a.shape[0], a.shape[1]]
    ensures |r.flat| == a.shape[0] * a.shape[1]
    ensures |a.flat| == (a.shape[0] * a.shape[1]) * a.shape[2]
    ensures forall k | 0 <= k < |r.flat| ::
              r.flat[k] == Mean(Block(a.flat, k, a.shape[0] * a.shape[1], a.shape[2]))
  {
    var n, d := a.shape[0] * a.shape[1], a.shape[2];
    ProductOfThree(a.shape[0], a.shape[1], a.shape[2]);
    ProductOfTwo(a.shape[0], a.shape[1]);
    assert a.shape == [a.shape[0], a.shape[1], a.shape[2]];
    NdArray([a.shape[0], a.shape[1]], seq(n, k requires 0 <= k < n => Mean(Block(a.flat, k, n, d))))
  }

  /** Reverses a sequence. */
  function Reverse<T>(s: seq<T>): (r: seq<T>)
    ensures |r| == |s|
    ensures forall i | 0 <= i < |s| :: r[i] == s[|s| - 1 - i]
  {
    if s == [] then [] else Reverse(s[1..]) + [s[0]]
  }

  lemma ReverseReverse<T>(s: seq<T>)
    ensures Reverse(Reverse(s)) == s
  {
  }

  /** Reversing keeps every element and its multiplicity. */
  lemma {:induction false} ReversePermutes<T>(s: seq<T>)
    ensures multiset(Reverse(s)) == multiset(s)
  {
    if s != [] {
      ReversePermutes(s[1..]);
      assert s == [s[0]] + s[1..];
    }
  }

  // ---- np.rot90 of a two-dimensional array -------------------------------

  ghost predicate IsGrid<T>(a: NdArray<T>) {
    WellFormed(a) && Rank(a) == 2
  }

  lemma GridSize<T>(a: NdArray<T>)
    requires IsGrid(a)
    ensures |a.flat| == a.shape[0] * a.shape[1]
  {
    assert a.shape == [a.shape[0], a.shape[1]];
    ProductOfTwo(a.shape[0], a.shape[1]);
  }

  /** Element (i, j) of a grid. */
  function At<T>(a: NdArray<T>, i: nat, j: nat): T
    requires IsGrid(a) && i < a.shape[0] && j < a.shape[1]
  {
    StrideBound(i, a.shape[0], j, a.shape[1]);
    GridSize(a);
    a.flat[i * a.shape[1] + j]
  }

  /** Two grids of the same shape that agree at every (i, j) are equal. */
  lemma GridExt<T>(a: NdArray<T>, b: NdArray<T>)
    requires IsGrid(a) && IsGrid(b) && a.shape == b.shape
    requires forall i, j | 0 <= i < a.shape[0] && 0 <= j < a.shape[1] :: At(a, i, j) == At(b, i, j)
    ensures a == b
  {
    var rows, cols := a.shape[0], a.shape[1];
    GridSize(a);
    GridSize(b);
    forall p | 0 <= p < |a.flat| ensures a.flat[p] == b.flat[p] {
      DivModBounds(p, rows, cols);
      assert At(a, p / cols, p % cols) == At(b, p / cols, p % cols);
    }
  }

  /** `np.rot90(a, 1)`: out[i][j] = a[j][cols - 1 - i], shape (cols, rows). */
  function QuarterTurn<T>(a: NdArray<T>): (r: NdArray<T>)
    requires IsGrid(a)
    ensures IsGrid(r) && r.shape == [a.shape[1], a.shape[0]]
  {
    var rows, cols := a.shape[0], a.shape[1];
    GridSize(a);
    ProductOfTwo(cols, rows);
    NdArray([cols, rows], seq(cols * rows, p requires 0 <= p < cols * rows =>
      DivModBounds(p, cols, rows);
      StrideBound(p % rows, rows, cols - 1 - p / rows, cols);
      a.flat[(p % rows) * cols + (cols - 1 - p / rows)]))
  }

  /** `np.rot90(a, 2)`: out[i][j] = a[rows - 1 - i][cols - 1 - j]. */
  function HalfTurn<T>(a: NdArray<T>): (r: NdArray<T>)
    requires IsGrid(a)
    ensures IsGrid(r) && r.shape == a.shape
  {
    var rows, cols := a.shape[0], a.shape[1];
    GridSize(a);
    ProductOfTwo(rows, cols);
    NdArray([rows, cols], seq(rows * cols, p requires 0 <= p < rows * cols =>
      DivModBounds(p, rows, cols);
      StrideBound(rows - 1 - p / cols, rows, cols - 1 - p % cols, cols);
      a.flat[(rows - 1 - p / cols) * cols + (cols - 1 - p % cols)]))
  }

  /** `np.rot90(a, 3)`: out[i][j] = a[rows - 1 - j][i], shape (cols, rows). */
  function ThreeQuarterTurn<T>(a: NdArray<T>): (r: NdArray<T>)
    requires IsGrid(a)
    ensures IsGrid(r) && r.shape == [a.shape[1], a.shape[0]]
  {
    var rows, cols := a.shape[0], a.shape[1];
    GridSize(a);
    ProductOfTwo(cols, rows);
    NdArray([cols, rows], seq(cols * rows, p requires 0 <= p < cols * rows =>
      DivModBounds(p, cols, rows);
      StrideBound(rows - 1 - p % rows, rows, p / rows, cols);
      a.flat[(rows - 1 - p % rows) * cols + p / rows]))
  }

  /** `np.rot90(a, k)`: k is taken modulo 4, as NumPy does (Python's `%`). */
  function Rot90<T>(a: NdArray<T>, k: int): (r: NdArray<T>)
    requires IsGrid(a)
    ensures IsGrid(r)
    ensures k % 4 == 0 ==> r == a
  {
    match k % 4
    case 0 => a
    case 1 => QuarterTurn(a)
    case 2 => HalfTurn(a)
    case 3 => ThreeQuarterTurn(a)
  }

  lemma AtQuarter<T>(a: NdArray<T>, i: nat, j: nat)
    requires IsGrid(a) && i < a.shape[1] && j < a.shape[0]
    ensures At(QuarterTurn(a), i, j) == At(a, j, a.shape[1] - 1 - i)
  {
    var q, rows, cols := QuarterTurn(a), a.shape[0], a.shape[1];
    var p := i * rows + j;
    DivModOf(i, j, rows);
    StrideBound(i, cols, j, rows);
    var src := (p % rows) * cols + (cols - 1 - p / rows);
    assert src == j * cols + (cols - 1 - i);
    StrideBound(j, rows, cols - 1 - i, cols);
    GridSize(a);
    assert q.flat[p] == a.flat[src];
  }

  lemma AtHalf<T>(a: NdArray<T>, i: nat, j: nat)
    requires IsGrid(a) && i < a.shape[0] && j < a.shape[1]
    ensures At(HalfTurn(a), i, j) == At(a, a.shape[0] - 1 - i, a.shape[1] - 1 - j)
  {
    var h, rows, cols := HalfTurn(a), a.shape[0], a.shape[1];
    var p := i * cols + j;
    DivModOf(i, j, cols);
    StrideBound(i, rows, j, cols);
    var src := (rows - 1 - p / cols) * cols + (cols - 1 - p % cols);
    assert src == (rows - 1 - i) * cols + (cols - 1 - j);
    StrideBound(rows - 1 - i, rows, cols - 1 - j, cols);
    GridSize(a);
    assert h.flat[p] == a.flat[src];
  }

  lemma AtThreeQuarter<T>(a: NdArray<T>, i: nat, j: nat)
    requires IsGrid(a) && i < a.shape[1] && j < a.shape[0]
    ensures At(ThreeQuarterTurn(a), i, j) == At(a, a.shape[0] - 1 - j, i)
  {
    var t, rows, cols := ThreeQuarterTurn(a), a.shape[0], a.shape[1];
    var p := i * rows + j;
    DivModOf(i, j, rows);
    StrideBound(i, cols, j, rows);
    var src := (rows - 1 - p % rows) * cols + p / rows;
    assert src == (rows - 1 - j) * cols + i;
    StrideBound(rows - 1 - j, rows, i, cols);
    GridSize(a);
    assert t.flat[p] == a.flat[src];
  }

  lemma QuarterQuarter<T>(a: NdArray<T>)
    requires IsGrid(a)
    ensures QuarterTurn(QuarterTurn(a)) == HalfTurn(a)
  {
    var q := QuarterTurn(a);
    forall i, j | 0 <= i < a.shape[0] && 0 <= j < a.shape[1]
      ensures At(QuarterTurn(q), i, j) == At(HalfTurn(a), i, j)
    {
      AtQuarter(q, i, j);
      AtQuarter(a, j, a.shape[0] - 1 - i);
      AtHalf(a, i, j);
    }
    GridExt(QuarterTurn(q), HalfTurn(a));
  }

  lemma QuarterHalf<T>(a: NdArray<T>)
    requires IsGrid(a)
    ensures QuarterTurn(HalfTurn(a)) == ThreeQuarterTurn(a)
  {
    var h := HalfTurn(a);
    forall i, j | 0 <= i < a.shape[1] && 0 <= j < a.shape[0]
      ensures At(QuarterTurn(h), i, j) == At(ThreeQuarterTurn(a), i, j)
    {
      AtQuarter(h, i, j);
      AtHalf(a, j, a.shape[1] - 1 - i);
      AtThreeQuarter(a, i, j);
    }
    GridExt(QuarterTurn(h), ThreeQuarterTurn(a));
  }

  lemma QuarterThreeQuarter<T>(a: NdArray<T>)
    requires IsGrid(a)
    ensures QuarterTurn(ThreeQuarterTurn(a)) == a
  {
    var t := ThreeQuarterTurn(a);
    forall i, j | 0 <= i < a.shape[0] && 0 <= j < a.shape[1]
      ensures At(QuarterTurn(t), i, j) == At(a, i, j)
    {
      AtQuarter(t, i, j);
      AtThreeQuarter(a, j, a.shape[0] - 1 - i);
    }
    GridExt(QuarterTurn(t), a);
  }

  /** One more quarter turn adds one to k. */
  lemma Rot90Succ<T>(a: NdArray<T>, k: int)
    requires IsGrid(a)
    ensures QuarterTurn(Rot90(a, k)) == Rot90(a, k + 1)
  {
    assert (k + 1) % 4 == (k % 4 + 1) % 4;
    match k % 4
    case 0 =>
    case 1 => QuarterQuarter(a);
    case 2 => QuarterHalf(a);
    case 3 => QuarterThreeQuarter(a);
  }

  /** Only k modulo 4 matters. */
  lemma Rot90Mod<T>(a: NdArray<T>, x: int, y: int)
    requires IsGrid(a) && x % 4 == y % 4
    ensures Rot90(a, x) == Rot90(a, y)
  {
  }

  lemma {:induction false} Rot90Steps<T>(a: NdArray<T>, j: int, m: nat)
    requires IsGrid(a)
    ensures Rot90(Rot90(a, j), m) == Rot90(a, j + m)
  {
    var b := Rot90(a, j);
    if m == 0 {
      Rot90Mod(b, 0, 4);
    } else {
      Rot90Steps(a, j, m - 1);
      Rot90Succ(b, m - 1);
      Rot90Succ(a, j + m - 1);
    }
  }

  /** Rotating by j and then by k is rotating by j + k. */
  lemma Rot90Compose<T>(a: NdArray<T>, j: int, k: int)
    requires IsGrid(a)
    ensures Rot90(Rot90(a, j), k) == Rot90(a, j + k)
  {
    var b := Rot90(a, j);
    var m := k % 4;
    QuarterResidue(j, k);
    Rot90Mod(b, k, m);
    Rot90Steps(a, j, m);
    Rot90Mod(a, j + m, j + k);
  }

  /** Adding k or its residue modulo 4 leaves the same residue. */
  lemma QuarterResidue(j: int, k: int)
    ensures (k % 4) % 4 == k % 4
    ensures (j + k % 4) % 4 == (j + k) % 4
  {
    var q := k / 4;
    assert k == 4 * q + k % 4;
  }

  /** Four quarter turns give back the grid. */
  lemma FourQuarterTurns<T>(a: NdArray<T>)
    requires IsGrid(a)
    ensures QuarterTurn(QuarterTurn(QuarterTurn(QuarterTurn(a)))) == a
  {
    QuarterQuarter(a);
    QuarterQuarter(HalfTurn(a));
    AtHalfHalf(a);
  }

  lemma AtHalfHalf<T>(a: NdArray<T>)
    requires IsGrid(a)
    ensures HalfTurn(HalfTurn(a)) == a
  {
    HalfTurnReverses(a);
    HalfTurnReverses(HalfTurn(a));
  }

  /** A half turn reverses the row-major element order. */
  lemma HalfTurnReverses<T>(a: NdArray<T>)
    requires IsGrid(a)
    ensures HalfTurn(a) == NdArray(a.shape, Reverse(a.flat))
  {
    var rows, cols := a.shape[0], a.shape[1];
    var h := HalfTurn(a);
    forall p | 0 <= p < rows * cols ensures h.flat[p] == a.flat[rows * cols - 1 - p] {
      DivModBounds(p, rows, cols);
      var i, j := p / cols, p % cols;
      assert (rows - 1 - i) * cols + (cols - 1 - j) == rows * cols - 1 - (i * cols + j);
    }
  }
}
