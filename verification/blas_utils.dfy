/** The scalar helpers of include/blas/utils.hpp: `max`/`min` with one, two
    or more arguments, `sgn`, `conj` on reals, `make_scalar`, `abs` and
    `abs1`, `isnan`/`isinf` on complex numbers and `internal::error_if`.
 */
module BlasUtils {
  import opened Floats

  // ---------------------------------------------------------------------------
  // max and min

  /** Two-argument `max`: `x >= y ? x : y`. Ties and a NaN `y` go to the
      branch that the comparison selects. */
  function Max(x: Float, y: Float): (r: Float)
    ensures x.Num? && y.Num? ==> r.Num? && r.val >= x.val && r.val >= y.val && (r == x || r == y)
    ensures x.NaN? || y.NaN? ==> r == y
  {
    if Ge(x, y) then x else y
  }

  /** Two-argument `min`: `x <= y ? x : y`. */
  function Min(x: Float, y: Float): (r: Float)
    ensures x.Num? && y.Num? ==> r.Num? && r.val <= x.val && r.val <= y.val && (r == x || r == y)
    ensures x.NaN? || y.NaN? ==> r == y
  {
    if Le(x, y) then x else y
  }

  /** Variadic `max`: one argument is returned as it is, more arguments
      fold from the right, `max(a, b, ...) == max(a, max(b, ...))`. */
  function MaxOf(xs: seq<Float>): (r: Float)
    requires |xs| >= 1
    ensures NaN !in xs ==> r in xs && forall e | e in xs :: e.val <= r.val
    ensures xs[|xs| - 1].NaN? ==> r.NaN?
  {
    if |xs| == 1 then xs[0] else Max(xs[0], MaxOf(xs[1..]))
  }

  /** Variadic `min`, folding from the right like `MaxOf`. */
  function MinOf(xs: seq<Float>): (r: Float)
    requires |xs| >= 1
    ensures NaN !in xs ==> r in xs && forall e | e in xs :: r.val <= e.val
    ensures xs[|xs| - 1].NaN? ==> r.NaN?
  {
    if |xs| == 1 then xs[0] else Min(xs[0], MinOf(xs[1..]))
  }

  /** Without NaNs the variadic minimum is at most the variadic maximum,
      and the two agree on a list whose elements are all the same. */
  lemma {:induction false} MinBelowMax(xs: seq<Float>)
    requires |xs| >= 1 && NaN !in xs
    ensures MinOf(xs).val <= MaxOf(xs).val
    ensures (forall e | e in xs :: e == xs[0]) ==> MinOf(xs) == MaxOf(xs) == xs[0]
  {
    var lo, hi := MinOf(xs), MaxOf(xs);
    assert lo.val <= xs[0].val <= hi.val;
    if forall e | e in xs :: e == xs[0] {
      assert lo in xs && hi in xs;
    }
  }

  // ---------------------------------------------------------------------------
  // sgn, conj, make_scalar

  /** `sgn(v)`: `(0 < v) - (v < 0)`. A NaN fails both comparisons. */
  function Sgn(v: Float): (r: int)
    ensures r == 1 <==> Gt(v, Num(0.0))
    ensures r == -1 <==> Lt(v, Num(0.0))
    ensures r == 0 <==> v.NaN? || v.val == 0.0
  {
    (if Lt(Num(0.0), v) then 1 else 0) - (if Lt(v, Num(0.0)) then 1 else 0)
  }

  /** `conj` on a real scalar is the identity. */
  function Conj(x: Float): (r: Float)
    ensures r == x
  {
    x
  }

  /** A complex scalar with parts of type `R`. */
  datatype Complex<R> = Complex(re: R, im: R)

  /** `make_scalar` for a real scalar type ignores the imaginary part. */
  function MakeReal(re: Float, im: Float): (r: Float)
    ensures r == re
  {
    re
  }

  /** `make_scalar` for a complex scalar type builds (re, im). */
  function MakeComplex(re: Float, im: Float): (r: Complex<Float>)
    ensures r.re == re && r.im == im
  {
    Complex(re, im)
  }

  // ---------------------------------------------------------------------------
  // isnan, isinf, abs, abs1

  /** `isnan` on a complex number: either part is a NaN. */
  function IsNanComplex(z: Complex<Float>): (r: bool)
    ensures r <==> z.re.NaN? || z.im.NaN?
  {
    z.re.NaN? || z.im.NaN?
  }

  /** `isinf` on a complex number: either part is infinite. `Float` has no
      infinity, so the part test is a parameter. */
  function IsInfComplex<R>(z: Complex<R>, isinf: R -> bool): (r: bool)
    ensures r <==> isinf(z.re) || isinf(z.im)
  {
    isinf(z.re) || isinf(z.im)
  }

  /** `abs` on a real scalar: |x|, a NaN for a NaN. */
  function Abs(x: Float): (r: Float)
    ensures r.NaN? <==> x.NaN?
    ensures r.Num? ==> r.val >= 0.0 && (r.val == x.val || r.val == -x.val)
  {
    if x.NaN? then NaN else Num(if x.val < 0.0 then -x.val else x.val)
  }

  /** `abs` on a complex scalar with the NaN check on: a NaN when either
      part is a NaN, otherwise the 2-norm sqrt(re^2 + im^2). */
  function AbsComplex(t: Traits, z: Complex<Float>): (r: Float)
    requires t.RootValid()
    ensures r.NaN? <==> IsNanComplex(z)
    ensures r.Num? ==> r.val >= 0.0 && Sqr(r.val) == Sqr(z.re.val) + Sqr(z.im.val)
  {
    if IsNanComplex(z) then NaN else Sqrt(t, Add(Square(z.re), Square(z.im)))
  }

  /** `abs1` on a real scalar is `abs` without the NaN check, which for a
      real is the same |x|. */
  function Abs1(x: Float): (r: Float)
    ensures r.NaN? <==> x.NaN?
    ensures r.Num? ==> r.val >= 0.0 && (r.val == x.val || r.val == -x.val)
  {
    Abs(x)
  }

  /** `abs1` on a complex scalar: |re| + |im|. */
  function Abs1Complex(z: Complex<Float>): (r: Float)
    ensures r.NaN? <==> IsNanComplex(z)
    ensures r.Num? ==> r.val == Abs(z.re).val + Abs(z.im).val
  {
    Add(Abs(z.re), Abs(z.im))
  }

  /** A real number seen as a complex one keeps its magnitude. */
  lemma AbsOfReal(t: Traits, x: Float)
    requires t.RootValid()
    ensures AbsComplex(t, MakeComplex(x, Num(0.0))) == Abs(x)
    ensures Abs1Complex(MakeComplex(x, Num(0.0))) == Abs(x)
  {
    if x.Num? {
      var a := Abs(x).val;
      assert Sqr(x.val) + Sqr(0.0) == Sqr(a);
      SqrtOfSquare(t, a);
    }
  }

  /** The 1-norm magnitude bounds the 2-norm magnitude from above. */
  lemma Abs1Bound(t: Traits, z: Complex<Float>)
    requires t.RootValid() && !IsNanComplex(z)
    ensures AbsComplex(t, z).val <= Abs1Complex(z).val
  {
    var a, b := Abs(z.re).val, Abs(z.im).val;
    var r := AbsComplex(t, z).val;
    assert Sqr(a) == Sqr(z.re.val) && Sqr(b) == Sqr(z.im.val);
    assert Sqr(a + b) == Sqr(a) + Sqr(b) + 2.0 * a * b;
    assert a * b >= 0.0;
    SqrMonotone(r, a + b);
  }

  /** Squaring is monotone on the non-negative reals, in reverse. */
  lemma SqrMonotone(x: real, y: real)
    requires x >= 0.0 && y >= 0.0 && Sqr(x) <= Sqr(y)
    ensures x <= y
  {
    if x > y {
      SqrStrict(y, x);
      assert false;
    }
  }

  /** Squaring is strictly monotone on the non-negative reals. */
  lemma SqrStrict(x: real, y: real)
    requires 0.0 <= x < y
    ensures Sqr(x) < Sqr(y)
  {
    var a, c := y - x, y + x;
    PositiveProduct(a, c);
    assert Sqr(y) - Sqr(x) == a * c;
  }

  lemma PositiveProduct(a: real, b: real)
    requires a > 0.0 && b > 0.0
    ensures a * b > 0.0
  {
  }

  /** The sign times the magnitude gives the number back. */
  lemma SgnAbs(v: Float)
    requires v.Num?
    ensures (Sgn(v) as real) * Abs(v).val == v.val
  {
  }

  // ---------------------------------------------------------------------------
  // error_if

  /** The outcome of an argument check. */
  datatype Outcome = Success | Failure

  /** `internal::error_if(cond, ...)`: raises exactly when the condition
      holds. The message formatting is not modelled. */
  function ErrorIf(cond: bool): (r: Outcome)
    ensures r == Failure <==> cond
  {
    if cond then Failure else Success
  }
}
