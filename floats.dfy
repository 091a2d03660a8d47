/**
 * Floating-point values as NumPy computes with them, over exact reals:
 * a finite number, one of the two infinities, or NaN.  Rounding is not
 * modelled; the special values and the rules that produce them are.
 */
module Floats {

  datatype Float = Num(r: real) | PosInf | NegInf | NaN

  /** An unsigned 8-bit pixel value. */
  type Byte = x: int | 0 <= x < 256

  predicate IsFinite(x: Float) { x.Num? }

  /** `x > 0` as an element-wise comparison (false for NaN). */
  predicate IsPositive(x: Float) {
    match x
    case Num(r) => r > 0.0
    case PosInf => true
    case _ => false
  }

  /** `x == 0` as an element-wise comparison. */
  predicate IsZero(x: Float) { x == Num(0.0) }

  function Neg(a: Float): Float {
    match a
    case Num(r) => Num(-r)
    case PosInf => NegInf
    case NegInf => PosInf
    case NaN => NaN
  }

  /** `a + b`; opposite infinities make NaN. */
  function Add(a: Float, b: Float): (r: Float)
    ensures a.Num? && b.Num? ==> r == Num(a.r + b.r)
  {
    match (a, b)
    case (NaN, _) => NaN
    case (_, NaN) => NaN
    case (PosInf, NegInf) => NaN
    case (NegInf, PosInf) => NaN
    case (PosInf, _) => PosInf
    case (_, PosInf) => PosInf
    case (NegInf, _) => NegInf
    case (_, NegInf) => NegInf
    case (Num(x), Num(y)) => Num(x + y)
  }

  /** `a - b`. */
  function Sub(a: Float, b: Float): (r: Float)
    ensures a.Num? && b.Num? ==> r == Num(a.r - b.r)
    ensures a == NaN || b == NaN ==> r == NaN
  {
    Add(a, Neg(b))
  }

  /** `a * k` for a positive constant k. */
  function Scale(a: Float, k: real): (r: Float)
    requires k > 0.0
    ensures a.Num? ==> r == Num(a.r * k)
    ensures !a.Num? ==> r == a
  {
    match a
    case Num(_) => Num(a.r * k)
    case _ => a
  }

  /** Sign of a finite value: -1, 0 or 1. */
  function Sign(x: real): int {
    if x > 0.0 then 1 else if x < 0.0 then -1 else 0
  }

  /**
   * `a / b` with IEEE rules: a nonzero number over zero is an infinity of the
   * numerator's sign, 0/0 and inf/inf are NaN, a number over an infinity is 0.
   * A zero divisor is taken as +0: it only ever arises as a difference x - x.
   */
  function Div(a: Float, b: Float): (r: Float)
    ensures a.Num? && b.Num? && b.r != 0.0 ==> r == Num(a.r / b.r)
    ensures a == Num(0.0) && b == Num(0.0) ==> r == NaN
  {
    match (a, b)
    case (NaN, _) => NaN
    case (_, NaN) => NaN
    case (Num(x), Num(y)) =>
      if y != 0.0 then Num(x / y)
      else if x > 0.0 then PosInf
      else if x < 0.0 then NegInf
      else NaN
    case (Num(x), _) => Num(0.0)
    case (PosInf, Num(y)) => if y < 0.0 then NegInf else PosInf
    case (NegInf, Num(y)) => if y < 0.0 then PosInf else NegInf
    case (_, _) => NaN
  }

  /** `np.clip(a, lo, hi)`: NaN passes through unchanged. */
  function Clip(a: Float, lo: real, hi: real): (r: Float)
    requires lo <= hi
    ensures a == NaN <==> r == NaN
    ensures r != NaN ==> r.Num? && lo <= r.r <= hi
  {
    match a
    case Num(x) => Num(if x < lo then lo else if x > hi then hi else x)
    case PosInf => Num(hi)
    case NegInf => Num(lo)
    case NaN => NaN
  }

  /** Truncation toward zero of a real. */
  function Trunc(x: real): (r: int)
    ensures x >= 0.0 ==> r == x.Floor
    ensures -1.0 < x < 1.0 ==> r == 0
  {
    if x >= 0.0 then x.Floor else -((-x).Floor)
  }

  /**
   * `.astype(np.uint8)`: a finite value that truncates into 0..255 becomes
   * that byte; NaN, the infinities and out-of-range values have no defined
   * result, and the model returns the platform's byte `undefinedByte`.
   */
  function ToUint8(a: Float, undefinedByte: Byte): (r: Byte)
    ensures a.Num? && 0.0 <= a.r < 256.0 ==> r == a.r.Floor
    ensures a == NaN ==> r == undefinedByte
  {
    if a.Num? && -1.0 < a.r < 256.0 then Trunc(a.r) else undefinedByte
  }

  /** The order NumPy uses for min and max of non-NaN values. */
  predicate Le(a: Float, b: Float)
    requires a != NaN && b != NaN
  {
    a == NegInf || b == PosInf || (a.Num? && b.Num? && a.r <= b.r)
  }

  /** `np.min` of two values: NaN wins. */
  function Min2(a: Float, b: Float): (r: Float)
    ensures r == a || r == b
    ensures a == NaN || b == NaN ==> r == NaN
  {
    if a == NaN || b == NaN then NaN else if Le(a, b) then a else b
  }

  function Max2(a: Float, b: Float): (r: Float)
    ensures r == a || r == b
    ensures a == NaN || b == NaN ==> r == NaN
  {
    if a == NaN || b == NaN then NaN else if Le(a, b) then b else a
  }

  /** `np.min` of a non-empty array: NaN if any element is NaN. */
  function MinOf(s: seq<Float>): (r: Float)
    requires |s| > 0
    ensures (forall i | 0 <= i < |s| :: s[i].Num?) ==>
              r.Num? && (exists i | 0 <= i < |s| :: s[i] == r) && forall i | 0 <= i < |s| :: r.r <= s[i].r
  {
    if |s| == 1 then s[0] else Min2(s[0], MinOf(s[1..]))
  }

  function MaxOf(s: seq<Float>): (r: Float)
    requires |s| > 0
    ensures (forall i | 0 <= i < |s| :: s[i].Num?) ==>
              r.Num? && (exists i | 0 <= i < |s| :: s[i] == r) && forall i | 0 <= i < |s| :: s[i].r <= r.r
  {
    if |s| == 1 then s[0] else Max2(s[0], MaxOf(s[1..]))
  }

  /** A NaN or a -inf element makes the minimum NaN or -inf. */
  lemma {:induction false} MinOfNonFinite(s: seq<Float>, i: nat)
    requires i < |s| && (s[i] == NaN || s[i] == NegInf)
    ensures MinOf(s) == NaN || MinOf(s) == NegInf
  {
    if |s| > 1 && i > 0 {
      MinOfNonFinite(s[1..], i - 1);
    }
  }

  /** A NaN or a +inf element makes the maximum NaN or +inf. */
  lemma {:induction false} MaxOfNonFinite(s: seq<Float>, i: nat)
    requires i < |s| && (s[i] == NaN || s[i] == PosInf)
    ensures MaxOf(s) == NaN || MaxOf(s) == PosInf
  {
    if |s| > 1 && i > 0 {
      MaxOfNonFinite(s[1..], i - 1);
    }
  }

  /**
   * The minimum and the maximum are both finite exactly when every element
   * is, which is what a JSON encoder that refuses NaN and the infinities needs.
   */
  lemma RangeFinite(s: seq<Float>)
    requires |s| > 0
    ensures MinOf(s).Num? && MaxOf(s).Num? <==> forall i | 0 <= i < |s| :: s[i].Num?
  {
    if exists i | 0 <= i < |s| :: !s[i].Num? {
      var i :| 0 <= i < |s| && !s[i].Num?;
      if s[i] == PosInf {
        MaxOfNonFinite(s, i);
      } else {
        MinOfNonFinite(s, i);
      }
    }
  }
}
