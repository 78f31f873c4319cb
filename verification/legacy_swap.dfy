/** `blas::swap(n, x, incx, y, incy)` of include/legacy_api/blas/swap.hpp:
    the argument checks, the strided views over the two arrays and the
    element-wise exchange of the two vectors in place.
 */
module LegacySwap {
  import opened LegacyArray
  import opened LapackTypes
  import opened BlasUtils

  /** |inc|. */
  function AbsInc(inc: int): (r: nat)
    ensures r == inc || r == -inc
  {
    if inc < 0 then -inc else inc
  }

  /** The offset of the first logical element at lines 53-58, as written:
      0 for a positive stride, (1 - n) * inc otherwise. */
  function BaseOffsetAsWritten(n: nat, inc: int): (r: int)
    ensures inc > 0 ==> r == 0
    ensures inc < 0 && n == 0 ==> r == inc
  {
    if inc > 0 then 0 else (1 - n as int) * inc
  }

  /** With n == 0 and any negative stride the offset as written is -|inc|,
      a position before the start of the array. */
  lemma BaseOffsetAsWrittenEmpty()
    ensures BaseOffsetAsWritten(0, -1) == -1
    ensures forall inc | inc < 0 :: BaseOffsetAsWritten(0, inc) < 0
  {
  }

  /** The offset of the first logical element: 0 for a positive stride or an
      empty vector, (n - 1) * |inc| otherwise. It coincides with the offset
      as written whenever there is an element to access. */
  function BaseOffset(n: nat, inc: int): (r: nat)
    ensures inc > 0 || n == 0 ==> r == 0
    ensures n > 0 ==> r == BaseOffsetAsWritten(n, inc)
  {
    if inc > 0 || n == 0 then 0 else (n - 1) * AbsInc(inc)
  }

  /** The view `vector(&x[offset], n, inc)` built at lines 53-58. */
  function View(n: nat, inc: int): (v: LegacyVector)
    ensures v.n == n && v.inc == inc && v.ptr == BaseOffset(n, inc) && v.direction == Forward
  {
    Vector(BaseOffset(n, inc), n, inc)
  }

  /** Every logical element of the view lies in [0, (n - 1) * |inc|], the
      documented array length minus one; with a negative stride logical
      element 0 is the last array position and the order is reversed. */
  lemma {:induction false} ViewInRange(n: nat, inc: int, i: nat)
    requires inc != 0 && i < n
    ensures 0 <= VectorAddress(View(n, inc), i) <= (n - 1) * AbsInc(inc)
    ensures inc < 0 ==> VectorAddress(View(n, inc), i) == (n - 1 - i) * AbsInc(inc)
    ensures inc > 0 ==> VectorAddress(View(n, inc), i) == i * inc
  {
    var a := AbsInc(inc);
    if inc < 0 {
      assert VectorAddress(View(n, inc), i) == (n - 1) * a - i * a;
      assert (n - 1) * a - i * a == (n - 1 - i) * a;
      MulBounds(n - 1 - i, n - 1, a);
    } else {
      MulBounds(i, n - 1, a);
    }
  }

  lemma MulBounds(j: nat, k: nat, a: nat)
    requires j <= k
    ensures 0 <= j * a <= k * a
  {
  }

  /** Distinct logical elements of a view with a non-zero stride are at
      distinct array positions. */
  lemma AddressInjective(v: LegacyVector, i: nat, j: nat)
    requires v.inc != 0 && i != j
    ensures VectorAddress(v, i) != VectorAddress(v, j)
  {
    assert VectorAddress(v, i) - VectorAddress(v, j) == (i - j) * v.inc;
    NonZeroProduct(i - j, v.inc);
  }

  lemma NonZeroProduct(a: int, b: int)
    requires a != 0 && b != 0
    ensures a * b != 0
  {
  }

  /** The array positions of logical elements 0 .. k-1. */
  ghost function Positions(v: LegacyVector, k: nat): set<int>
  {
    set i | 0 <= i < k :: VectorAddress(v, i)
  }

  /** An array long enough for an n-element vector with stride inc, as the
      routine's documentation requires. */
  predicate Fits<T>(a: array<T>, n: nat, inc: int)
  {
    n == 0 || (n - 1) * AbsInc(inc) < a.Length
  }

  /** `swap(n, x, incx, y, incy)`. A zero stride is an error and leaves both
      arrays as they were; otherwise element i of x ends as the old element
      i of y and the other way round, and no other position changes. */
  method Swap<T>(n: nat, x: array<T>, incx: int, y: array<T>, incy: int) returns (r: Outcome)
    requires x != y
    requires incx != 0 && incy != 0 ==> Fits(x, n, incx) && Fits(y, n, incy)
    modifies x, y
    ensures r == Failure <==> incx == 0 || incy == 0
    ensures r == Failure ==> x[..] == old(x[..]) && y[..] == old(y[..])
    ensures r == Success ==> forall i :: 0 <= i < n ==>
      && 0 <= VectorAddress(View(n, incx), i) < x.Length
      && 0 <= VectorAddress(View(n, incy), i) < y.Length
      && x[VectorAddress(View(n, incx), i)] == old(y[VectorAddress(View(n, incy), i)])
      && y[VectorAddress(View(n, incy), i)] == old(x[VectorAddress(View(n, incx), i)])
    ensures r == Success ==> forall p :: 0 <= p < x.Length && p !in Positions(View(n, incx), n) ==> x[p] == old(x[p])
    ensures r == Success ==> forall p :: 0 <= p < y.Length && p !in Positions(View(n, incy), n) ==> y[p] == old(y[p])
  {
    r := ErrorIf(incx == 0);
    if r == Failure {
      return;
    }
    r := ErrorIf(incy == 0);
    if r == Failure {
      return;
    }
    var vx, vy := View(n, incx), View(n, incy);
    forall k | 0 <= k < n
      ensures 0 <= VectorAddress(vx, k) < x.Length && 0 <= VectorAddress(vy, k) < y.Length
    {
      ViewInRange(n, incx, k);
      ViewInRange(n, incy, k);
    }
    var i := 0;
    while i < n
      invariant 0 <= i <= n
      invariant forall k :: 0 <= k < n ==>
        0 <= VectorAddress(vx, k) < x.Length && 0 <= VectorAddress(vy, k) < y.Length
      invariant forall k :: 0 <= k < i ==>
        && x[VectorAddress(vx, k)] == old(y[VectorAddress(vy, k)])
        && y[VectorAddress(vy, k)] == old(x[VectorAddress(vx, k)])
      invariant forall p :: 0 <= p < x.Length && p !in Positions(vx, i) ==> x[p] == old(x[p])
      invariant forall p :: 0 <= p < y.Length && p !in Positions(vy, i) ==> y[p] == old(y[p])
    {
      var ix, iy := VectorAddress(vx, i), VectorAddress(vy, i);
      forall k | 0 <= k < i
        ensures VectorAddress(vx, k) != ix && VectorAddress(vy, k) != iy
      {
        AddressInjective(vx, k, i);
        AddressInjective(vy, k, i);
      }
      assert ix !in Positions(vx, i) && iy !in Positions(vy, i);
      assert Positions(vx, i + 1) == Positions(vx, i) + {ix};
      assert Positions(vy, i + 1) == Positions(vy, i) + {iy};
      var tmp := x[ix];
      x[ix] := y[iy];
      y[iy] := tmp;
      i := i + 1;
    }
  }
}
