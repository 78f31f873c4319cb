/** The descriptor constructors of include/legacy_api/blas/legacyArray.hpp.

    An address into caller storage is modelled as an integer offset `ptr`
    from the start of that storage. The element access operators of the
    descriptors live in legacy_api/legacyArray.hpp, which is not part of
    this model; `Address` gives the conventional column-major, row-major and
    strided addressing those descriptors stand for.
 */
module LegacyArray {
  import opened LapackTypes

  datatype Layout = ColMajor | RowMajor

  /** `legacyMatrix<T, layout>{ m, n, ptr, ldim }`. */
  datatype LegacyMatrix = LegacyMatrix(layout: Layout, m: nat, n: nat, ptr: int, ldim: nat)

  /** `legacyBandedMatrix<T>{ m, n, kl, ku, ptr }`. */
  datatype LegacyBandedMatrix = LegacyBandedMatrix(m: nat, n: nat, kl: nat, ku: nat, ptr: int)

  /** `legacyVector<T, int_t, direction>{ n, ptr, inc }`. */
  datatype LegacyVector = LegacyVector(n: nat, ptr: int, inc: int, direction: Direction)

  /** `colmajor_matrix(A, m, n, lda)`. */
  function ColMajorMatrix(a: int, m: nat, n: nat, lda: nat): (r: LegacyMatrix)
    ensures r.layout == ColMajor && r.m == m && r.n == n && r.ptr == a && r.ldim == lda
  {
    LegacyMatrix(ColMajor, m, n, a, lda)
  }

  /** `colmajor_matrix(A, m, n)`: the leading dimension defaults to m. */
  function ColMajorMatrixPacked(a: int, m: nat, n: nat): (r: LegacyMatrix)
    ensures r == ColMajorMatrix(a, m, n, m)
  {
    LegacyMatrix(ColMajor, m, n, a, m)
  }

  /** `rowmajor_matrix(A, m, n, lda)`. */
  function RowMajorMatrix(a: int, m: nat, n: nat, lda: nat): (r: LegacyMatrix)
    ensures r.layout == RowMajor && r.m == m && r.n == n && r.ptr == a && r.ldim == lda
  {
    LegacyMatrix(RowMajor, m, n, a, lda)
  }

  /** `rowmajor_matrix(A, m, n)`: the leading dimension defaults to n. */
  function RowMajorMatrixPacked(a: int, m: nat, n: nat): (r: LegacyMatrix)
    ensures r == RowMajorMatrix(a, m, n, n)
  {
    LegacyMatrix(RowMajor, m, n, a, n)
  }

  /** `banded_matrix(A, m, n, kl, ku)`. */
  function BandedMatrix(a: int, m: nat, n: nat, kl: nat, ku: nat): (r: LegacyBandedMatrix)
    ensures r.m == m && r.n == n && r.kl == kl && r.ku == ku && r.ptr == a
  {
    LegacyBandedMatrix(m, n, kl, ku, a)
  }

  /** `vector(x, n, inc)`: a forward vector with the given stride. */
  function Vector(x: int, n: nat, inc: int): (r: LegacyVector)
    ensures r.n == n && r.ptr == x && r.inc == inc && r.direction == Forward
  {
    LegacyVector(n, x, inc, Forward)
  }

  /** `vector(x, n)`: a forward vector with unit stride. */
  function UnitVector(x: int, n: nat): (r: LegacyVector)
    ensures r == Vector(x, n, 1)
  {
    LegacyVector(n, x, 1, Forward)
  }

  /** `backward_vector(x, n, inc)`. */
  function BackwardVector(x: int, n: nat, inc: int): (r: LegacyVector)
    ensures r.n == n && r.ptr == x && r.inc == inc && r.direction == Backward
  {
    LegacyVector(n, x, inc, Backward)
  }

  /** `backward_vector(x, n)`: a backward vector with unit stride. */
  function UnitBackwardVector(x: int, n: nat): (r: LegacyVector)
    ensures r == BackwardVector(x, n, 1)
  {
    LegacyVector(n, x, 1, Backward)
  }

  /** Both `transpose` overloads: a column-major view becomes a row-major one
      and back, with the extents exchanged over the same storage and leading
      dimension. */
  function Transpose(a: LegacyMatrix): (r: LegacyMatrix)
    ensures r.layout != a.layout
    ensures r.m == a.n && r.n == a.m && r.ptr == a.ptr && r.ldim == a.ldim
  {
    match a.layout
    case ColMajor => LegacyMatrix(RowMajor, a.n, a.m, a.ptr, a.ldim)
    case RowMajor => LegacyMatrix(ColMajor, a.n, a.m, a.ptr, a.ldim)
  }

  /** The storage position of element (i, j) of a matrix view. */
  function Address(a: LegacyMatrix, i: nat, j: nat): int
  {
    match a.layout
    case ColMajor => a.ptr + i + j * a.ldim
    case RowMajor => a.ptr + i * a.ldim + j
  }

  /** The storage position of element i of a vector view. */
  function VectorAddress(v: LegacyVector, i: nat): int
  {
    v.ptr + i * v.inc
  }

  /** Transposing twice gives the original view. */
  lemma TransposeInvolution(a: LegacyMatrix)
    ensures Transpose(Transpose(a)) == a
  {
  }

  /** The transpose is the same storage read the other way round: its
      element (j, i) is element (i, j) of the original. */
  lemma TransposeAddress(a: LegacyMatrix, i: nat, j: nat)
    requires i < a.m && j < a.n
    ensures j < Transpose(a).m && i < Transpose(a).n
    ensures Address(Transpose(a), j, i) == Address(a, i, j)
  {
  }

  /** The packed constructors lay the elements out contiguously: in a
      column-major m-by-n view with ldim m, element (i, j) is at
      i + j*m, and the m*n elements fill [ptr, ptr + m*n). */
  lemma {:induction false} PackedColMajorInRange(a: int, m: nat, n: nat, i: nat, j: nat)
    requires i < m && j < n
    ensures a <= Address(ColMajorMatrixPacked(a, m, n), i, j) < a + m * n
  {
    MulMonotone(j, n - 1, m);
    assert (n - 1) * m == m * n - m;
  }

  lemma MulMonotone(j: nat, k: nat, m: nat)
    requires j <= k
    ensures j * m <= k * m
  {
  }
}
