/** Floating-point scalars modelled over exact reals.

    A `Float` is either a NaN or an exact real number. Every comparison
    against a NaN is false, as in IEEE 754, and every arithmetic operation
    with a NaN operand yields a NaN. Rounding, overflow, underflow and
    infinities are not modelled.
 */
module Floats {

  datatype Float = NaN | Num(val: real)

  function Add(a: Float, b: Float): (r: Float)
    ensures r.NaN? <==> a.NaN? || b.NaN?
    ensures r.Num? ==> r.val == a.val + b.val
  {
    if a.NaN? || b.NaN? then NaN else Num(a.val + b.val)
  }

  function Mul(a: Float, b: Float): (r: Float)
    ensures r.NaN? <==> a.NaN? || b.NaN?
    ensures r.Num? ==> r.val == a.val * b.val
  {
    if a.NaN? || b.NaN? then NaN else Num(a.val * b.val)
  }

  /** Division; a zero divisor is excluded by the callers of this model. */
  function Div(a: Float, b: Float): (r: Float)
    requires b != Num(0.0)
    ensures r.NaN? <==> a.NaN? || b.NaN?
    ensures r.Num? ==> r.val * b.val == a.val
  {
    if a.NaN? || b.NaN? then NaN else Num(a.val / b.val)
  }

  /** x^2 on exact reals. */
  function Sqr(x: real): (r: real)
    ensures r >= 0.0
  {
    x * x
  }

  function Square(a: Float): (r: Float)
    ensures r.NaN? <==> a.NaN?
    ensures r.Num? ==> r.val == Sqr(a.val)
  {
    if a.NaN? then NaN else Num(Sqr(a.val))
  }

  /** C++ `a > b`: false whenever either side is a NaN. */
  predicate Gt(a: Float, b: Float) {
    a.Num? && b.Num? && a.val > b.val
  }

  /** C++ `a < b`. */
  predicate Lt(a: Float, b: Float) {
    a.Num? && b.Num? && a.val < b.val
  }

  /** C++ `a >= b`. */
  predicate Ge(a: Float, b: Float) {
    a.Num? && b.Num? && a.val >= b.val
  }

  /** C++ `a <= b`. */
  predicate Le(a: Float, b: Float) {
    a.Num? && b.Num? && a.val <= b.val
  }

  /** C++ `a == b`: a NaN equals nothing, not even itself. */
  predicate Eq(a: Float, b: Float) {
    a.Num? && b.Num? && a.val == b.val
  }

  /** The per-type numeric constants and the square root the scalar type
      supplies: Blue's thresholds `tsml`/`tbig` and scaling factors
      `ssml`/`sbig`, the safe range bound `safeMax`, and `sqrt`. Their
      concrete values are not part of this model; only the properties in
      `Valid` and `RootValid` are used. */
  datatype Traits = Traits(
    tsml: real, tbig: real, ssml: real, sbig: real, safeMax: real,
    sqrt: real -> real)
  {
    /** The constants are positive and the thresholds are ordered. */
    predicate Valid() {
      && 0.0 < tsml < tbig
      && 0.0 < ssml
      && 0.0 < sbig
      && 0.0 < safeMax
    }

    /** `sqrt` is the non-negative square root on the non-negative reals. */
    ghost predicate RootValid() {
      forall x: real :: 0.0 <= x ==> 0.0 <= sqrt(x) && Sqr(sqrt(x)) == x
    }
  }

  /** `sqrt` on a Float: a NaN for a NaN or a negative argument. */
  function Sqrt(t: Traits, a: Float): (r: Float)
    requires t.RootValid()
    ensures r.NaN? <==> a.NaN? || a.val < 0.0
    ensures r.Num? ==> r.val >= 0.0 && Sqr(r.val) == a.val
  {
    if a.NaN? || a.val < 0.0 then NaN else Num(t.sqrt(a.val))
  }

  /** The square root of a square is the number itself. */
  lemma SqrtOfSquare(t: Traits, x: real)
    requires t.RootValid() && 0.0 <= x
    ensures t.sqrt(Sqr(x)) == x
  {
    var r := t.sqrt(Sqr(x));
    assert r >= 0.0 && Sqr(r) == Sqr(x);
    assert (r - x) * (r + x) == 0.0;
    if r + x == 0.0 {
      assert r == 0.0 && x == 0.0;
    } else {
      ZeroProduct(r - x, r + x);
    }
  }

  /** The square of a non-zero number is positive. */
  lemma SqrPositive(v: real)
    requires v != 0.0
    ensures Sqr(v) > 0.0
  {
    if Sqr(v) == 0.0 {
      ZeroProduct(v, v);
    }
  }

  /** (x*c)^2 == c^2 * x^2. */
  lemma SqrProduct(x: real, c: real)
    ensures Sqr(x * c) == Sqr(c) * Sqr(x)
  {
  }

  lemma ZeroProduct(a: real, b: real)
    requires a * b == 0.0 && b != 0.0
    ensures a == 0.0
  {
    assert a == (a * b) / b;
  }
}
