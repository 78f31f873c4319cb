/** The argument checks and the matrix-type dispatch of `lapack::lascl`
    (include/slate_api/lapack/lascl.hpp), which scales a matrix by a/b.

    A failed check returns -i for the i-th argument. When every check
    passes, the routine builds a column-major view of A and hands it to the
    matrix-form `lascl` for the matrix type; those matrix-form routines are
    not part of this model, so the result records which one is called and
    on which view. The size type `idx_t` is not defined in this file; it is
    assumed to be a signed integer, which the `kl < 0` and `m < 0` checks
    suggest, and sizes are modelled as unbounded `int`.
 */
module Lascl {

  datatype MatrixType = General | Lower | Upper | Hessenberg | LowerBand | UpperBand | Band

  /** The matrix forms the dispatch at lines 107-120 hands the view to. */
  datatype Form =
    | GeneralMatrix
    | LowerTriangle
    | UpperTriangle
    | HessenbergMatrix
    | SymmetricLowerBand(k: int)
    | SymmetricUpperBand(k: int)
    | BandMatrix(kl: int, ku: int)

  /** Either the error code of the first failed check, or the call of the
      matrix-form routine on the column-major m-by-n view with leading
      dimension lda. */
  datatype Result = Code(code: int) | Call(form: Form, m: int, n: int, lda: int)

  predicate IsDense(t: MatrixType) {
    t == General || t == Lower || t == Upper || t == Hessenberg
  }

  predicate IsBand(t: MatrixType) {
    t == LowerBand || t == UpperBand || t == Band
  }

  function Max(x: int, y: int): int {
    if x >= y then x else y
  }

  /** The band arguments pass the checks at lines 74-93: kl and ku are
      within the matrix, and equal for a symmetric band. */
  predicate BandArgsOk(t: MatrixType, kl: int, ku: int, m: int, n: int) {
    0 <= kl <= Max(m - 1, 0) && 0 <= ku <= Max(n - 1, 0)
    && (t == Band || kl == ku)
  }

  /** The checks at lines 74-102, in source order: the code of the first
      that fails, or 0 when all pass. */
  function LaterChecks(t: MatrixType, kl: int, ku: int, m: int, n: int, lda: int): (c: int)
    ensures c in {0, -2, -3, -6, -9}
    ensures IsDense(t) ==> (c == 0 <==> 0 <= m <= lda)
    ensures IsDense(t) && m < 0 ==> c == -6
    ensures IsDense(t) && 0 <= m && lda < m ==> c == -9
    ensures IsBand(t) && (kl < 0 || kl > Max(m - 1, 0)) ==> c == -2
    ensures IsBand(t) && 0 <= kl <= Max(m - 1, 0) && (ku < 0 || ku > Max(n - 1, 0)) ==> c == -3
    ensures ((t == LowerBand || t == UpperBand) && 0 <= kl <= Max(m - 1, 0)
             && 0 <= ku <= Max(n - 1, 0) && kl != ku)
      ==> c == -3
    ensures IsBand(t) && BandArgsOk(t, kl, ku, m, n) && m < 0 ==> c == -6
    ensures t == LowerBand && BandArgsOk(t, kl, ku, m, n) && 0 <= m ==>
      c == (if lda < kl + 1 then -9 else 0)
    ensures t == UpperBand && BandArgsOk(t, kl, ku, m, n) && 0 <= m ==>
      c == (if lda < ku + 1 then -9 else 0)
    ensures t == Band && BandArgsOk(t, kl, ku, m, n) && 0 <= m ==>
      c == (if lda < 2 * kl + ku + 1 then -9 else 0)
  {
    if IsBand(t) && (kl < 0 || kl > Max(m - 1, 0)) then -2
    else if IsBand(t) && (ku < 0 || ku > Max(n - 1, 0)) then -3
    else if (t == LowerBand || t == UpperBand) && kl != ku then -3
    else if m < 0 then -6
    else if lda < m && IsDense(t) then -9
    else if t == LowerBand && lda < kl + 1 then -9
    else if t == UpperBand && lda < ku + 1 then -9
    else if t == Band && lda < 2 * kl + ku + 1 then -9
    else 0
  }

  /** The dispatch at lines 104-120. */
  function Dispatch(t: MatrixType, kl: int, ku: int, m: int, n: int, lda: int): (r: Result)
    ensures r.Call? && r.m == m && r.n == n && r.lda == lda
    ensures t == General ==> r.form == GeneralMatrix
    ensures t == Lower ==> r.form == LowerTriangle
    ensures t == Upper ==> r.form == UpperTriangle
    ensures t == Hessenberg ==> r.form == HessenbergMatrix
    ensures t == LowerBand ==> r.form == SymmetricLowerBand(kl)
    ensures t == UpperBand ==> r.form == SymmetricUpperBand(ku)
    ensures t == Band ==> r.form == BandMatrix(kl, ku)
  {
    var form := match t
      case General => GeneralMatrix
      case Lower => LowerTriangle
      case Upper => UpperTriangle
      case Hessenberg => HessenbergMatrix
      case LowerBand => SymmetricLowerBand(kl)
      case UpperBand => SymmetricUpperBand(ku)
      case Band => BandMatrix(kl, ku);
    Call(form, m, n, lda)
  }

  /** The routine as written: the check at lines 69-73 rejects every type
      but the four dense ones, so every band type returns -1 whatever the
      other arguments, and a dense type returns -6 for m < 0, -9 for
      lda < m, and is otherwise dispatched to its form; n is never
      checked. */
  function LasclAsWritten(t: MatrixType, kl: int, ku: int, m: int, n: int, lda: int): (r: Result)
    ensures !IsDense(t) ==> r == Code(-1)
    ensures IsDense(t) && m < 0 ==> r == Code(-6)
    ensures IsDense(t) && 0 <= m && lda < m ==> r == Code(-9)
    ensures IsDense(t) && 0 <= m <= lda ==> r.Call? && r.m == m && r.n == n && r.lda == lda
    ensures r.Call? && t == General ==> r.form == GeneralMatrix
    ensures r.Call? && t == Lower ==> r.form == LowerTriangle
    ensures r.Call? && t == Upper ==> r.form == UpperTriangle
    ensures r.Call? && t == Hessenberg ==> r.form == HessenbergMatrix
    ensures r.Call? ==> !r.form.SymmetricLowerBand? && !r.form.SymmetricUpperBand? && !r.form.BandMatrix?
  {
    if !IsDense(t) then Code(-1)
    else
      var c := LaterChecks(t, kl, ku, m, n, lda);
      if c != 0 then Code(c) else Dispatch(t, kl, ku, m, n, lda)
  }

  /** A band matrix with valid arguments, which the documentation says the
      routine scales, is rejected as an invalid first argument. */
  lemma BandRejectedAsWritten()
    ensures LasclAsWritten(Band, 0, 0, 1, 1, 1) == Code(-1)
    ensures Lascl(Band, 0, 0, 1, 1, 1) == Call(BandMatrix(0, 0), 1, 1, 1)
  {
  }

  /** The routine with the first check accepting every documented matrix
      type, as in the reference LAPACK `xLASCL`: the band checks and the band
      dispatch become reachable. */
  function Lascl(t: MatrixType, kl: int, ku: int, m: int, n: int, lda: int): (r: Result)
    ensures r.Code? <==> LaterChecks(t, kl, ku, m, n, lda) != 0
    ensures r.Code? ==> r == Code(LaterChecks(t, kl, ku, m, n, lda))
    ensures r.Call? ==> r == Dispatch(t, kl, ku, m, n, lda)
    ensures IsDense(t) ==> r == LasclAsWritten(t, kl, ku, m, n, lda)
    ensures IsBand(t) && (kl < 0 || kl > Max(m - 1, 0)) ==> r == Code(-2)
    ensures (t == Band && 0 <= kl <= Max(m - 1, 0) && 0 <= ku <= Max(n - 1, 0)
             && 0 <= m && 2 * kl + ku + 1 <= lda)
      ==> r == Call(BandMatrix(kl, ku), m, n, lda)
    ensures IsBand(t) && 0 <= kl <= Max(m - 1, 0) && (ku < 0 || ku > Max(n - 1, 0)) ==> r == Code(-3)
    ensures ((t == LowerBand || t == UpperBand) && 0 <= kl <= Max(m - 1, 0)
             && 0 <= ku <= Max(n - 1, 0) && kl != ku)
      ==> r == Code(-3)
    ensures IsBand(t) && BandArgsOk(t, kl, ku, m, n) && m < 0 ==> r == Code(-6)
    ensures t == LowerBand && BandArgsOk(t, kl, ku, m, n) && 0 <= m ==>
      r == (if lda < kl + 1 then Code(-9) else Call(SymmetricLowerBand(kl), m, n, lda))
    ensures t == UpperBand && BandArgsOk(t, kl, ku, m, n) && 0 <= m ==>
      r == (if lda < ku + 1 then Code(-9) else Call(SymmetricUpperBand(ku), m, n, lda))
    ensures t == Band && BandArgsOk(t, kl, ku, m, n) && 0 <= m ==>
      r == (if lda < 2 * kl + ku + 1 then Code(-9) else Call(BandMatrix(kl, ku), m, n, lda))
  {
    var c := LaterChecks(t, kl, ku, m, n, lda);
    if c != 0 then Code(c) else Dispatch(t, kl, ku, m, n, lda)
  }

  /** The number of columns never affects the outcome of a dense type. */
  lemma DenseIgnoresN(t: MatrixType, kl: int, ku: int, m: int, n1: int, n2: int, lda: int)
    requires IsDense(t)
    ensures LasclAsWritten(t, kl, ku, m, n1, lda).Code? <==> LasclAsWritten(t, kl, ku, m, n2, lda).Code?
    ensures LasclAsWritten(t, kl, ku, m, n1, lda).Code? ==>
      LasclAsWritten(t, kl, ku, m, n1, lda) == LasclAsWritten(t, kl, ku, m, n2, lda)
  {
  }
}
