/** The generic Hermitian rank-k update `blas::herk` of include/blas/herk.hpp,
    C := alpha*A*A^H + beta*C or C := alpha*A^H*A + beta*C, on real scalars,
    where `conj` and `real` are the identity and imaginary parts are zero.
    C is updated in place, one column at a time, in the referenced triangle;
    with `Uplo::General` the strictly lower triangle is then overwritten with
    the transpose of the upper one.
 */
module Herk {
  import opened LapackTypes
  import opened BlasUtils

  /** sum_{l < k} A(i,l) * A(j,l): entry (i, j) of A*A^T, over the first k
      columns. */
  ghost function RowsDot(A: array2<real>, i: nat, j: nat, k: nat): real
    requires i < A.Length0 && j < A.Length0 && k <= A.Length1
    reads A
  {
    if k == 0 then 0.0 else RowsDot(A, i, j, k - 1) + A[i, k - 1] * A[j, k - 1]
  }

  /** sum_{l < k} A(l,i) * A(l,j): entry (i, j) of A^T*A, over the first k
      rows. */
  ghost function ColsDot(A: array2<real>, i: nat, j: nat, k: nat): real
    requires i < A.Length1 && j < A.Length1 && k <= A.Length0
    reads A
  {
    if k == 0 then 0.0 else ColsDot(A, i, j, k - 1) + A[k - 1, i] * A[k - 1, j]
  }

  /** sum_{l < k} A(i,l) * (alpha * A(j,l)): what the NoTrans loops add to
      entry (i, j) after k passes over l. */
  ghost function Accumulated(A: array2<real>, alpha: real, i: nat, j: nat, k: nat): real
    requires i < A.Length0 && j < A.Length0 && k <= A.Length1
    reads A
  {
    if k == 0 then 0.0 else Accumulated(A, alpha, i, j, k - 1) + A[i, k - 1] * (alpha * A[j, k - 1])
  }

  /** The NoTrans accumulation is alpha times the dot product of rows i and j. */
  lemma {:induction false} AccumulatedIsScaled(A: array2<real>, alpha: real, i: nat, j: nat, k: nat)
    requires i < A.Length0 && j < A.Length0 && k <= A.Length1
    ensures Accumulated(A, alpha, i, j, k) == alpha * RowsDot(A, i, j, k)
  {
    if k > 0 {
      AccumulatedIsScaled(A, alpha, i, j, k - 1);
      assert A[i, k - 1] * (alpha * A[j, k - 1]) == alpha * (A[i, k - 1] * A[j, k - 1]);
    }
  }

  /** Both dot products are symmetric in i and j, so A*A^T and A^T*A are
      symmetric matrices. */
  lemma {:induction false} RowsDotSymmetric(A: array2<real>, i: nat, j: nat, k: nat)
    requires i < A.Length0 && j < A.Length0 && k <= A.Length1
    ensures RowsDot(A, i, j, k) == RowsDot(A, j, i, k)
  {
    if k > 0 {
      RowsDotSymmetric(A, i, j, k - 1);
    }
  }

  lemma {:induction false} ColsDotSymmetric(A: array2<real>, i: nat, j: nat, k: nat)
    requires i < A.Length1 && j < A.Length1 && k <= A.Length0
    ensures ColsDot(A, i, j, k) == ColsDot(A, j, i, k)
  {
    if k > 0 {
      ColsDotSymmetric(A, i, j, k - 1);
    }
  }

  /** On a symmetric C the update of entry (i, j) equals that of (j, i):
      updating either triangle describes the same symmetric result. */
  lemma UpdateSymmetric(A: array2<real>, trans: Op, alpha: real, beta: real, i: nat, j: nat, cij: real, cji: real)
    requires trans != Trans && cij == cji
    requires trans == NoTrans ==> i < A.Length0 && j < A.Length0
    requires trans == ConjTrans ==> i < A.Length1 && j < A.Length1
    ensures alpha * Gram(A, trans, i, j) + beta * cij == alpha * Gram(A, trans, j, i) + beta * cji
  {
    if trans == NoTrans {
      RowsDotSymmetric(A, i, j, A.Length1);
    } else {
      ColsDotSymmetric(A, i, j, A.Length0);
    }
  }

  /** The product term of entry (i, j) of the update: (A*A^T)(i,j) for
      NoTrans and (A^T*A)(i,j) for ConjTrans. */
  ghost function Gram(A: array2<real>, trans: Op, i: nat, j: nat): real
    requires trans != Trans
    requires trans == NoTrans ==> i < A.Length0 && j < A.Length0
    requires trans == ConjTrans ==> i < A.Length1 && j < A.Length1
    reads A
  {
    if trans == NoTrans then RowsDot(A, i, j, A.Length1) else ColsDot(A, i, j, A.Length0)
  }

  /** n at line 73; k, the other extent of A, is the length of the dot
      products. */
  function Order(trans: Op, rows: nat, cols: nat): nat {
    if trans == NoTrans then rows else cols
  }

  /** Lines 93-104 and 110-121 for one column j: rows lo .. hi-1 of column j
      are scaled by beta, then for each l the products A(i,l)*alpha*A(j,l)
      are added to them. The diagonal is one of those rows: the last for
      Upper, the first for Lower. */
  method NoTransColumn(alpha: real, A: array2<real>, beta: real, C: array2<real>, j: nat, lo: nat, hi: nat)
    requires A != C
    requires lo <= hi <= C.Length0 && hi <= A.Length0 && j < C.Length1 && j < A.Length0
    modifies C
    ensures forall i :: lo <= i < hi ==> C[i, j] == alpha * RowsDot(A, i, j, A.Length1) + beta * old(C[i, j])
    ensures forall i, jj :: 0 <= i < C.Length0 && 0 <= jj < C.Length1 && !(jj == j && lo <= i < hi) ==>
      C[i, jj] == old(C[i, jj])
  {
    ScaleRows(beta, C, j, lo, hi);
    for l := 0 to A.Length1
      invariant forall r :: lo <= r < hi ==> C[r, j] == old(C[r, j]) * beta + Accumulated(A, alpha, r, j, l)
      invariant forall r, jj :: 0 <= r < C.Length0 && 0 <= jj < C.Length1 && !(jj == j && lo <= r < hi) ==>
        C[r, jj] == old(C[r, jj])
    {
      var alphaAjl := alpha * A[j, l];
      AddProducts(A, alphaAjl, C, j, lo, hi, l);
    }
    forall r | lo <= r < hi
      ensures C[r, j] == alpha * RowsDot(A, r, j, A.Length1) + beta * old(C[r, j])
    {
      AccumulatedIsScaled(A, alpha, r, j, A.Length1);
    }
  }

  /** `C(i,j) *= beta` for rows lo .. hi-1 of column j. */
  method ScaleRows(beta: real, C: array2<real>, j: nat, lo: nat, hi: nat)
    requires lo <= hi <= C.Length0 && j < C.Length1
    modifies C
    ensures forall i :: lo <= i < hi ==> C[i, j] == old(C[i, j]) * beta
    ensures forall i, jj :: 0 <= i < C.Length0 && 0 <= jj < C.Length1 && !(jj == j && lo <= i < hi) ==>
      C[i, jj] == old(C[i, jj])
  {
    for i := lo to hi
      invariant forall r :: lo <= r < i ==> C[r, j] == old(C[r, j]) * beta
      invariant forall r, jj :: 0 <= r < C.Length0 && 0 <= jj < C.Length1 && !(jj == j && lo <= r < i) ==>
        C[r, jj] == old(C[r, jj])
    {
      C[i, j] := C[i, j] * beta;
    }
  }

  /** `C(i,j) += A(i,l) * alphaConjAjl` for rows lo .. hi-1 of column j. */
  method AddProducts(A: array2<real>, alphaAjl: real, C: array2<real>, j: nat, lo: nat, hi: nat, l: nat)
    requires A != C
    requires lo <= hi <= C.Length0 && hi <= A.Length0 && j < C.Length1 && l < A.Length1
    modifies C
    ensures forall i :: lo <= i < hi ==> C[i, j] == old(C[i, j]) + A[i, l] * alphaAjl
    ensures forall i, jj :: 0 <= i < C.Length0 && 0 <= jj < C.Length1 && !(jj == j && lo <= i < hi) ==>
      C[i, jj] == old(C[i, jj])
  {
    for i := lo to hi
      invariant forall r :: lo <= r < i ==> C[r, j] == old(C[r, j]) + A[r, l] * alphaAjl
      invariant forall r, jj :: 0 <= r < C.Length0 && 0 <= jj < C.Length1 && !(jj == j && lo <= r < i) ==>
        C[r, jj] == old(C[r, jj])
    {
      C[i, j] := C[i, j] + A[i, l] * alphaAjl;
    }
  }

  /** The inner `sum` loops at lines 130-132, 135-138, 145-147 and 150-153:
      the dot product of columns i and j of A. On real scalars the diagonal
      sum real^2 + imag^2 is the same product with i == j. */
  method ColumnsDot(A: array2<real>, i: nat, j: nat) returns (sum: real)
    requires i < A.Length1 && j < A.Length1
    ensures sum == ColsDot(A, i, j, A.Length0)
  {
    sum := 0.0;
    for l := 0 to A.Length0
      invariant sum == ColsDot(A, i, j, l)
    {
      sum := sum + A[l, i] * A[l, j];
    }
  }

  /** The off-diagonal rows lo .. hi-1 of column j at lines 129-134 and
      149-154: each is set to alpha * sum + beta * C(i,j). */
  method ConjTransRows(alpha: real, A: array2<real>, beta: real, C: array2<real>, j: nat, lo: nat, hi: nat)
    requires A != C
    requires lo <= hi <= C.Length0 && hi <= A.Length1 && j < C.Length1 && j < A.Length1
    modifies C
    ensures forall i :: lo <= i < hi ==> C[i, j] == alpha * ColsDot(A, i, j, A.Length0) + beta * old(C[i, j])
    ensures forall i, jj :: 0 <= i < C.Length0 && 0 <= jj < C.Length1 && !(jj == j && lo <= i < hi) ==>
      C[i, jj] == old(C[i, jj])
  {
    for i := lo to hi
      invariant forall r :: lo <= r < i ==> C[r, j] == alpha * ColsDot(A, r, j, A.Length0) + beta * old(C[r, j])
      invariant forall r, jj :: 0 <= r < C.Length0 && 0 <= jj < C.Length1 && !(jj == j && lo <= r < i) ==>
        C[r, jj] == old(C[r, jj])
    {
      var sum := ColumnsDot(A, i, j);
      C[i, j] := alpha * sum + beta * C[i, j];
    }
  }

  /** Lines 129-139 and 144-154 for one column j: each of rows lo .. hi-1
      and the diagonal is set to alpha * sum + beta * C(i,j). */
  method ConjTransColumn(alpha: real, A: array2<real>, beta: real, C: array2<real>, j: nat, lo: nat, hi: nat)
    requires A != C
    requires lo <= hi <= C.Length0 && hi <= A.Length1 && j < C.Length0 && j < C.Length1 && j < A.Length1
    requires j < lo || hi <= j
    modifies C
    ensures forall i :: (lo <= i < hi || i == j) ==> C[i, j] == alpha * ColsDot(A, i, j, A.Length0) + beta * old(C[i, j])
    ensures forall i, jj :: 0 <= i < C.Length0 && 0 <= jj < C.Length1 && !(jj == j && (lo <= i < hi || i == j)) ==>
      C[i, jj] == old(C[i, jj])
  {
    ConjTransRows(alpha, A, beta, C, j, lo, hi);
    var sum := ColumnsDot(A, j, j);
    C[j, j] := alpha * sum + beta * C[j, j];
  }

  /** The updated value of a referenced entry. */
  ghost predicate Updated(C: array2<real>, alpha: real, A: array2<real>, beta: real, trans: Op, i: nat, j: nat, old_cij: real)
    requires trans != Trans && i < C.Length0 && j < C.Length1
    requires trans == NoTrans ==> i < A.Length0 && j < A.Length0
    requires trans == ConjTrans ==> i < A.Length1 && j < A.Length1
    reads A, C
  {
    C[i, j] == alpha * Gram(A, trans, i, j) + beta * old_cij
  }

  /** Lines 88-157 for Upper and General: every column j updates rows 0 .. j. */
  method UpdateUpper(trans: Op, alpha: real, A: array2<real>, beta: real, C: array2<real>)
    requires A != C && trans != Trans
    requires C.Length0 == C.Length1 == Order(trans, A.Length0, A.Length1)
    modifies C
    ensures forall i, j :: 0 <= i <= j < C.Length1 ==> Updated(C, alpha, A, beta, trans, i, j, old(C[i, j]))
    ensures forall i, j :: 0 <= j < i < C.Length0 ==> C[i, j] == old(C[i, j])
  {
    var n := C.Length0;
    for j := 0 to n
      invariant forall i, jj :: 0 <= i <= jj < j ==> Updated(C, alpha, A, beta, trans, i, jj, old(C[i, jj]))
      invariant forall i, jj :: 0 <= i < n && 0 <= jj < n && !(i <= jj < j) ==> C[i, jj] == old(C[i, jj])
    {
      if trans == NoTrans {
        NoTransColumn(alpha, A, beta, C, j, 0, j + 1);
      } else {
        ConjTransColumn(alpha, A, beta, C, j, 0, j);
      }
    }
  }

  /** Lines 88-157 for Lower: every column j updates rows j .. n-1. */
  method UpdateLower(trans: Op, alpha: real, A: array2<real>, beta: real, C: array2<real>)
    requires A != C && trans != Trans
    requires C.Length0 == C.Length1 == Order(trans, A.Length0, A.Length1)
    modifies C
    ensures forall i, j :: 0 <= j <= i < C.Length0 ==> Updated(C, alpha, A, beta, trans, i, j, old(C[i, j]))
    ensures forall i, j :: 0 <= i < j < C.Length1 ==> C[i, j] == old(C[i, j])
  {
    var n := C.Length0;
    for j := 0 to n
      invariant forall i, jj :: 0 <= jj < j && jj <= i < n ==> Updated(C, alpha, A, beta, trans, i, jj, old(C[i, jj]))
      invariant forall i, jj :: 0 <= i < n && 0 <= jj < n && !(jj < j && jj <= i) ==> C[i, jj] == old(C[i, jj])
    {
      if trans == NoTrans {
        NoTransColumn(alpha, A, beta, C, j, j, n);
      } else {
        ConjTransColumn(alpha, A, beta, C, j, j + 1, n);
      }
    }
  }

  /** Lines 159-164: the strictly lower triangle becomes the transpose of the
      strictly upper one, which is left as it is. */
  method MirrorUpper(C: array2<real>)
    requires C.Length0 == C.Length1
    modifies C
    ensures forall i, j :: 0 <= j < i < C.Length0 ==> C[i, j] == C[j, i]
    ensures forall i, j :: 0 <= i <= j < C.Length1 ==> C[i, j] == old(C[i, j])
  {
    var n := C.Length0;
    for j := 0 to n
      invariant forall r, jj :: 0 <= jj < j && jj < r < n ==> C[r, jj] == C[jj, r]
      invariant forall r, jj :: 0 <= r <= jj < n ==> C[r, jj] == old(C[r, jj])
    {
      for i := j + 1 to n
        invariant forall r, jj :: 0 <= jj < j && jj < r < n ==> C[r, jj] == C[jj, r]
        invariant forall r :: j < r < i ==> C[r, j] == C[j, r]
        invariant forall r, jj :: 0 <= r <= jj < n ==> C[r, jj] == old(C[r, jj])
      {
        C[i, j] := C[j, i];
      }
    }
  }

  /** `herk(uplo, trans, alpha, A, beta, C)`. The checks at lines 77-83 fail
      for `Trans`, for a C that is not square and for a C whose order is
      not n; C is then left as it is. Otherwise every entry of the
      referenced triangle (the upper one for General) ends as
      alpha * (A*A^T or A^T*A)(i,j) + beta * C(i,j), the other triangle is
      unchanged, and for General it ends as the transpose of the upper one. */
  method Herk(uplo: Uplo, trans: Op, alpha: real, A: array2<real>, beta: real, C: array2<real>)
    returns (r: Outcome)
    requires A != C
    modifies C
    ensures r == Failure <==>
      trans == Trans || C.Length0 != C.Length1 || C.Length0 != Order(trans, A.Length0, A.Length1)
    ensures r == Failure ==> forall i, j :: 0 <= i < C.Length0 && 0 <= j < C.Length1 ==> C[i, j] == old(C[i, j])
    ensures r == Success && uplo != Lower ==>
      forall i, j :: 0 <= i <= j < C.Length1 ==> Updated(C, alpha, A, beta, trans, i, j, old(C[i, j]))
    ensures r == Success && uplo == Upper ==>
      forall i, j :: 0 <= j < i < C.Length0 ==> C[i, j] == old(C[i, j])
    ensures r == Success && uplo == General ==>
      forall i, j :: 0 <= j < i < C.Length0 ==> C[i, j] == C[j, i]
    ensures r == Success && uplo == Lower ==>
      forall i, j :: 0 <= j <= i < C.Length0 ==> Updated(C, alpha, A, beta, trans, i, j, old(C[i, j]))
    ensures r == Success && uplo == Lower ==>
      forall i, j :: 0 <= i < j < C.Length1 ==> C[i, j] == old(C[i, j])
  {
    var n := Order(trans, A.Length0, A.Length1);
    r := ErrorIf(uplo != Lower && uplo != Upper && uplo != General);
    if r == Failure { return; }
    r := ErrorIf(trans != NoTrans && trans != ConjTrans);
    if r == Failure { return; }
    r := ErrorIf(C.Length0 != C.Length1);
    if r == Failure { return; }
    r := ErrorIf(C.Length0 != n);
    if r == Failure { return; }
    if uplo != Lower {
      UpdateUpper(trans, alpha, A, beta, C);
    } else {
      UpdateLower(trans, alpha, A, beta, C);
    }
    if uplo == General {
      MirrorUpper(C);
    }
  }
}
