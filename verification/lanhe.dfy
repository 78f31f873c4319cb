/** The Hermitian matrix norms `lanhe` of include/lapack/lanhe.hpp.

    The n-by-n matrix A is read-only and is a value here: `A[i][j]` is
    entry (i, j). Only one triangle is referenced, the other being the
    conjugate transpose. The magnitude of an entry is `abs` (`blas::abs`) and
    that of a diagonal entry is `absRe` (`blas::abs` of the real part); both
    are parameters, since the scalar type is generic.

    - Max norm: the largest magnitude over the referenced triangle, with a
      NaN returned as soon as it is met.
    - Frobenius norm: successive `lassq` calls over the off-diagonal
      columns, a doubling of the sum, and a last call over the diagonal.
    - One and infinity norms (with workspace): the absolute column sums of
      the Hermitian completion, accumulated in place in `work`, and their
      maximum.
 */
module Lanhe {
  import opened Floats
  import opened LapackTypes
  import Lassq

  predicate IsSquare<T>(A: seq<seq<T>>) {
    forall i | 0 <= i < |A| :: |A[i]| == |A|
  }

  /** Entry (r, j) lies in the referenced triangle. */
  predicate Stored(uplo: Uplo, r: nat, j: nat) {
    if uplo == Upper then r <= j else j <= r
  }

  /** The magnitude of entry (k, i) of the Hermitian matrix, read from the
      stored triangle: a diagonal entry through its real part, an entry of
      the other triangle through its mirror image (the conjugate has the
      same magnitude). */
  function HermAbs<T>(A: seq<seq<T>>, uplo: Uplo, abs: T -> Float, absRe: T -> Float, k: nat, i: nat): Float
    requires IsSquare(A) && k < |A| && i < |A|
  {
    if k == i then absRe(A[i][i])
    else if (uplo == Upper) == (k < i) then abs(A[k][i])
    else abs(A[i][k])
  }

  // ---------------------------------------------------------------------------
  // The running maximum with NaN short-circuit

  /** One step of the running maximum at lines 79-84 (and the like): a
      larger value replaces `norm`, and a NaN is returned at once. */
  function Visit(norm: Float, temp: Float): Float {
    if Gt(temp, norm) then temp else if temp.NaN? then temp else norm
  }

  /** The result of the running maximum over `mags`, in order, starting from
      0; NaN once a NaN has been returned. */
  function MaxScan(mags: seq<Float>): Float
  {
    if mags == [] then Lassq.Zero
    else
      var r := MaxScan(mags[..|mags| - 1]);
      if r.NaN? then r else Visit(r, mags[|mags| - 1])
  }

  lemma MaxScanSnoc(p: seq<Float>, m: Float)
    ensures MaxScan(p + [m]) == if MaxScan(p).NaN? then NaN else Visit(MaxScan(p), m)
  {
    assert (p + [m])[..|p|] == p;
  }

  /** The running maximum is NaN exactly when a NaN is among the magnitudes,
      and otherwise it is the maximum of 0 and the magnitudes. */
  lemma {:induction false} MaxScanIsMax(mags: seq<Float>)
    ensures MaxScan(mags).NaN? <==> NaN in mags
    ensures NaN !in mags ==> MaxScan(mags).val >= 0.0
    ensures NaN !in mags ==> forall m | m in mags :: m.val <= MaxScan(mags).val
    ensures NaN !in mags ==> MaxScan(mags) == Lassq.Zero || MaxScan(mags) in mags
    decreases |mags|
  {
    if mags != [] {
      var p, m := mags[..|mags| - 1], mags[|mags| - 1];
      assert mags == p + [m];
      MaxScanIsMax(p);
      assert forall e | e in mags :: e in p || e == m;
    }
  }

  /** Once the running maximum has returned a NaN, later magnitudes do not
      matter. */
  lemma {:induction false} MaxScanStaysNaN(p: seq<Float>, q: seq<Float>)
    requires MaxScan(p).NaN?
    ensures MaxScan(p + q).NaN?
    decreases |q|
  {
    if q == [] {
      assert p + q == p;
    } else {
      var q', m := q[..|q| - 1], q[|q| - 1];
      assert p + q == (p + q') + [m];
      MaxScanStaysNaN(p, q');
      MaxScanSnoc(p + q', m);
    }
  }

  /** A NaN in a prefix of the scanned magnitudes is the result of the
      whole scan. */
  lemma MaxScanNaNPrefix(s: seq<Float>, p: nat)
    requires p <= |s| && MaxScan(s[..p]).NaN?
    ensures MaxScan(s) == NaN
  {
    MaxScanStaysNaN(s[..p], s[p..]);
    assert s[..p] + s[p..] == s;
  }

  /** One more magnitude after `seen + xs`. */
  lemma MaxScanPush(seen: seq<Float>, xs: seq<Float>, m: Float)
    ensures MaxScan(seen + (xs + [m]))
      == if MaxScan(seen + xs).NaN? then NaN else Visit(MaxScan(seen + xs), m)
  {
    assert seen + (xs + [m]) == (seen + xs) + [m];
    MaxScanSnoc(seen + xs, m);
  }

  // ---------------------------------------------------------------------------
  // Max norm

  /** The magnitudes of rows lo .. hi-1 of column j, top to bottom. */
  function OffMags<T>(A: seq<seq<T>>, abs: T -> Float, j: nat, lo: nat, hi: nat): (r: seq<Float>)
    requires IsSquare(A) && j < |A| && lo <= hi <= |A|
    ensures |r| == hi - lo
    decreases hi
  {
    if hi == lo then [] else OffMags(A, abs, j, lo, hi - 1) + [abs(A[hi - 1][j])]
  }

  /** Reading fewer rows gives a prefix. */
  lemma {:induction false} OffMagsPrefix<T>(A: seq<seq<T>>, abs: T -> Float, j: nat, lo: nat, k: nat, hi: nat)
    requires IsSquare(A) && j < |A| && lo <= k <= hi <= |A|
    ensures OffMags(A, abs, j, lo, hi)[..k - lo] == OffMags(A, abs, j, lo, k)
    decreases hi
  {
    if k < hi {
      OffMagsPrefix(A, abs, j, lo, k, hi - 1);
      assert OffMags(A, abs, j, lo, hi)[..hi - 1 - lo] == OffMags(A, abs, j, lo, hi - 1);
    } else {
      assert OffMags(A, abs, j, lo, hi)[..k - lo] == OffMags(A, abs, j, lo, hi);
    }
  }

  /** The magnitudes of column j in the order the max-norm loops read them:
      for Upper rows 0 .. j-1 then the diagonal (lines 74-96), for Lower the
      diagonal then rows j+1 .. n-1 (lines 99-121). */
  function ColumnMags<T>(A: seq<seq<T>>, uplo: Uplo, abs: T -> Float, absRe: T -> Float, j: nat): (c: seq<Float>)
    requires IsSquare(A) && j < |A|
  {
    if uplo == Upper then OffMags(A, abs, j, 0, j) + [absRe(A[j][j])]
    else [absRe(A[j][j])] + OffMags(A, abs, j, j + 1, |A|)
  }

  /** The columns' magnitudes one after the other. */
  function Flatten(cols: seq<seq<Float>>): seq<Float>
  {
    if cols == [] then [] else Flatten(cols[..|cols| - 1]) + cols[|cols| - 1]
  }

  lemma FlattenStep(cols: seq<seq<Float>>, j: nat)
    requires j < |cols|
    ensures Flatten(cols[..j + 1]) == Flatten(cols[..j]) + cols[j]
  {
    assert cols[..j + 1][..j] == cols[..j];
  }

  /** Flattening the first j columns gives a prefix of the whole. */
  lemma {:induction false} FlattenPrefix(cols: seq<seq<Float>>, j: nat)
    requires j <= |cols|
    ensures |Flatten(cols[..j])| <= |Flatten(cols)|
    ensures Flatten(cols)[..|Flatten(cols[..j])|] == Flatten(cols[..j])
    decreases |cols|
  {
    if j < |cols| {
      var init := cols[..|cols| - 1];
      assert init[..j] == cols[..j];
      FlattenPrefix(init, j);
      assert Flatten(cols) == Flatten(init) + cols[|cols| - 1];
    } else {
      assert cols[..j] == cols;
    }
  }

  /** The magnitudes of every column, as the max-norm loops read them. */
  function Columns<T>(A: seq<seq<T>>, uplo: Uplo, abs: T -> Float, absRe: T -> Float): (cols: seq<seq<Float>>)
    requires IsSquare(A)
    ensures |cols| == |A|
  {
    seq(|A|, j requires 0 <= j < |A| => ColumnMags(A, uplo, abs, absRe, j))
  }

  /** The max norm: the running maximum over all the columns' magnitudes. */
  function MaxNorm<T>(A: seq<seq<T>>, uplo: Uplo, abs: T -> Float, absRe: T -> Float): Float
    requires IsSquare(A)
  {
    MaxScan(Flatten(Columns(A, uplo, abs, absRe)))
  }

  lemma {:induction false} OffMagsAt<T>(A: seq<seq<T>>, abs: T -> Float, j: nat, lo: nat, hi: nat, r: nat)
    requires IsSquare(A) && j < |A| && lo <= r < hi <= |A|
    ensures OffMags(A, abs, j, lo, hi)[r - lo] == abs(A[r][j])
    decreases hi
  {
    if r < hi - 1 {
      OffMagsAt(A, abs, j, lo, hi - 1, r);
    }
  }

  /** The loops over column j read exactly the stored entries of that
      column, top to bottom: position p holds entry (RowOf(p), j). */
  function RowOf(uplo: Uplo, j: nat, p: nat): nat {
    if uplo == Upper then p else j + p
  }

  lemma ColumnMagsAt<T>(A: seq<seq<T>>, uplo: Uplo, abs: T -> Float, absRe: T -> Float, j: nat, p: nat)
    requires IsSquare(A) && j < |A|
    ensures |ColumnMags(A, uplo, abs, absRe, j)| == if uplo == Upper then j + 1 else |A| - j
    ensures p < |ColumnMags(A, uplo, abs, absRe, j)| ==>
      && RowOf(uplo, j, p) < |A| && Stored(uplo, RowOf(uplo, j, p), j)
      && ColumnMags(A, uplo, abs, absRe, j)[p] == HermAbs(A, uplo, abs, absRe, RowOf(uplo, j, p), j)
  {
    var c := ColumnMags(A, uplo, abs, absRe, j);
    if p < |c| {
      if uplo == Upper && p < j {
        OffMagsAt(A, abs, j, 0, j, p);
      } else if uplo != Upper && p > 0 {
        OffMagsAt(A, abs, j, j + 1, |A|, j + p);
      }
    }
  }

  /** Every element of a column is in the flattened sequence. */
  lemma {:induction false} FlattenHas(cols: seq<seq<Float>>, j: nat, p: nat)
    requires j < |cols| && p < |cols[j]|
    ensures cols[j][p] in Flatten(cols)
    decreases |cols|
  {
    var init, last := cols[..|cols| - 1], cols[|cols| - 1];
    assert Flatten(cols) == Flatten(init) + last;
    if j < |cols| - 1 {
      assert cols[j] == init[j];
      FlattenHas(init, j, p);
    } else {
      assert cols[j][p] == last[p];
    }
  }

  /** Every element of the flattened sequence comes from some column. */
  lemma {:induction false} FlattenFrom(cols: seq<seq<Float>>, m: Float)
    requires m in Flatten(cols)
    ensures exists j, p | 0 <= j < |cols| && 0 <= p < |cols[j]| :: cols[j][p] == m
    decreases |cols|
  {
    var init, last := cols[..|cols| - 1], cols[|cols| - 1];
    assert Flatten(cols) == Flatten(init) + last;
    if m in Flatten(init) {
      FlattenFrom(init, m);
      var j, p :| 0 <= j < |init| && 0 <= p < |init[j]| && init[j][p] == m;
      assert cols[j] == init[j];
    } else {
      var p :| 0 <= p < |last| && last[p] == m;
      assert cols[|cols| - 1][p] == m;
    }
  }

  /** Entry (k, i) is read from column max(k, i) for Upper, min(k, i) for
      Lower, as the mirror image when it is not stored. */
  lemma EntryRead<T>(A: seq<seq<T>>, uplo: Uplo, abs: T -> Float, absRe: T -> Float, k: nat, i: nat)
    requires IsSquare(A) && k < |A| && i < |A|
    ensures HermAbs(A, uplo, abs, absRe, k, i) in Flatten(Columns(A, uplo, abs, absRe))
  {
    var cols := Columns(A, uplo, abs, absRe);
    var r, j := if Stored(uplo, k, i) then k else i, if Stored(uplo, k, i) then i else k;
    assert HermAbs(A, uplo, abs, absRe, k, i) == HermAbs(A, uplo, abs, absRe, r, j);
    var p := if uplo == Upper then r else r - j;
    ColumnMagsAt(A, uplo, abs, absRe, j, p);
    FlattenHas(cols, j, p);
  }

  /** Each magnitude the loops read is that of some entry. */
  lemma ReadIsEntry<T>(A: seq<seq<T>>, uplo: Uplo, abs: T -> Float, absRe: T -> Float, m: Float)
    requires IsSquare(A) && m in Flatten(Columns(A, uplo, abs, absRe))
    ensures exists k, i | 0 <= k < |A| && 0 <= i < |A| :: m == HermAbs(A, uplo, abs, absRe, k, i)
  {
    var cols := Columns(A, uplo, abs, absRe);
    FlattenFrom(cols, m);
    var j, p :| 0 <= j < |cols| && 0 <= p < |cols[j]| && cols[j][p] == m;
    ColumnMagsAt(A, uplo, abs, absRe, j, p);
    assert m == HermAbs(A, uplo, abs, absRe, RowOf(uplo, j, p), j);
  }

  /** The max norm is NaN exactly when some entry magnitude of the
      Hermitian matrix is; otherwise it is the largest of 0 and all of them. */
  lemma MaxNormIsMax<T>(A: seq<seq<T>>, uplo: Uplo, abs: T -> Float, absRe: T -> Float)
    requires IsSquare(A)
    ensures MaxNorm(A, uplo, abs, absRe).NaN?
      <==> exists k, i | 0 <= k < |A| && 0 <= i < |A| :: HermAbs(A, uplo, abs, absRe, k, i).NaN?
    ensures MaxNorm(A, uplo, abs, absRe).Num? ==>
      && MaxNorm(A, uplo, abs, absRe).val >= 0.0
      && (forall k, i | 0 <= k < |A| && 0 <= i < |A| ::
            HermAbs(A, uplo, abs, absRe, k, i).val <= MaxNorm(A, uplo, abs, absRe).val)
      && (MaxNorm(A, uplo, abs, absRe) == Lassq.Zero
          || exists k, i | 0 <= k < |A| && 0 <= i < |A| :: MaxNorm(A, uplo, abs, absRe) == HermAbs(A, uplo, abs, absRe, k, i))
  {
    var f := Flatten(Columns(A, uplo, abs, absRe));
    MaxScanIsMax(f);
    forall k, i | 0 <= k < |A| && 0 <= i < |A|
      ensures HermAbs(A, uplo, abs, absRe, k, i) in f
    {
      EntryRead(A, uplo, abs, absRe, k, i);
    }
    if NaN in f {
      ReadIsEntry(A, uplo, abs, absRe, NaN);
    } else if MaxScan(f) != Lassq.Zero {
      ReadIsEntry(A, uplo, abs, absRe, MaxScan(f));
    }
  }

  /** Two matrices that agree on rows lo .. hi-1 of column j read the same
      magnitudes there. */
  lemma {:induction false} OffMagsAgree<T>(A: seq<seq<T>>, B: seq<seq<T>>, abs: T -> Float, j: nat, lo: nat, hi: nat)
    requires IsSquare(A) && IsSquare(B) && |A| == |B| && j < |A| && lo <= hi <= |A|
    requires forall r | lo <= r < hi :: A[r][j] == B[r][j]
    ensures OffMags(A, abs, j, lo, hi) == OffMags(B, abs, j, lo, hi)
    decreases hi
  {
    if lo < hi {
      OffMagsAgree(A, B, abs, j, lo, hi - 1);
    }
  }

  /** The max norm reads only the referenced triangle: two matrices that
      agree on it, diagonal included, have the same max norm. */
  lemma MaxNormReadsTriangle<T>(A: seq<seq<T>>, B: seq<seq<T>>, uplo: Uplo, abs: T -> Float, absRe: T -> Float)
    requires IsSquare(A) && IsSquare(B) && |A| == |B|
    requires forall r, c | 0 <= r < |A| && 0 <= c < |A| && (if uplo == Upper then r <= c else c <= r) :: A[r][c] == B[r][c]
    ensures MaxNorm(A, uplo, abs, absRe) == MaxNorm(B, uplo, abs, absRe)
  {
    forall j | 0 <= j < |A|
      ensures ColumnMags(A, uplo, abs, absRe, j) == ColumnMags(B, uplo, abs, absRe, j)
    {
      if uplo == Upper {
        OffMagsAgree(A, B, abs, j, 0, j);
      } else {
        OffMagsAgree(A, B, abs, j, j + 1, |A|);
      }
    }
    assert Columns(A, uplo, abs, absRe) == Columns(B, uplo, abs, absRe);
  }

  /** A NaN met at row i of column j in the Upper case is the result for the
      whole column. */
  lemma UpperNaN<T>(A: seq<seq<T>>, abs: T -> Float, absRe: T -> Float, j: nat, i: nat, seen: seq<Float>)
    requires IsSquare(A) && i < j < |A| && MaxScan(seen + OffMags(A, abs, j, 0, i + 1)).NaN?
    ensures MaxScan(seen + ColumnMags(A, Upper, abs, absRe, j)) == NaN
  {
    OffMagsPrefix(A, abs, j, 0, i + 1, j);
    var full := seen + ColumnMags(A, Upper, abs, absRe, j);
    assert full[..|seen| + i + 1] == seen + OffMags(A, abs, j, 0, i + 1);
    MaxScanNaNPrefix(full, |seen| + i + 1);
  }

  /** A NaN met at the diagonal or at row i of column j in the Lower case is
      the result for the whole column. */
  lemma LowerNaN<T>(A: seq<seq<T>>, abs: T -> Float, absRe: T -> Float, j: nat, i: nat, seen: seq<Float>)
    requires IsSquare(A) && j < i <= |A|
    requires MaxScan(seen + ([absRe(A[j][j])] + OffMags(A, abs, j, j + 1, i))).NaN?
    ensures MaxScan(seen + ColumnMags(A, Lower, abs, absRe, j)) == NaN
  {
    OffMagsPrefix(A, abs, j, j + 1, i, |A|);
    var full := seen + ColumnMags(A, Lower, abs, absRe, j);
    assert full[..|seen| + 1 + (i - j - 1)] == seen + ([absRe(A[j][j])] + OffMags(A, abs, j, j + 1, i));
    MaxScanNaNPrefix(full, |seen| + 1 + (i - j - 1));
  }

  /** One column of the Upper case (lines 75-95): rows 0 .. j-1, then the
      diagonal; a NaN is returned at once. */
  method UpperColumnMax<T>(A: seq<seq<T>>, abs: T -> Float, absRe: T -> Float, j: nat, norm0: Float, ghost seen: seq<Float>)
    returns (norm: Float)
    requires IsSquare(A) && j < |A| && norm0.Num? && norm0 == MaxScan(seen)
    ensures norm == MaxScan(seen + ColumnMags(A, Upper, abs, absRe, j))
  {
    assert seen + OffMags(A, abs, j, 0, 0) == seen;
    norm := norm0;
    var i := 0;
    while i < j
      invariant 0 <= i <= j
      invariant norm.Num? && norm == MaxScan(seen + OffMags(A, abs, j, 0, i))
    {
      var temp := abs(A[i][j]);
      MaxScanPush(seen, OffMags(A, abs, j, 0, i), temp);
      if Gt(temp, norm) {
        norm := temp;
      } else if temp.NaN? {
        UpperNaN(A, abs, absRe, j, i, seen);
        return temp;
      }
      i := i + 1;
    }
    var temp := absRe(A[j][j]);
    MaxScanPush(seen, OffMags(A, abs, j, 0, j), temp);
    if Gt(temp, norm) {
      norm := temp;
    } else if temp.NaN? {
      return temp;
    }
  }

  /** One column of the Lower case (lines 100-120): the diagonal, then rows
      j+1 .. n-1; a NaN is returned at once. */
  method LowerColumnMax<T>(A: seq<seq<T>>, abs: T -> Float, absRe: T -> Float, j: nat, norm0: Float, ghost seen: seq<Float>)
    returns (norm: Float)
    requires IsSquare(A) && j < |A| && norm0.Num? && norm0 == MaxScan(seen)
    ensures norm == MaxScan(seen + ColumnMags(A, Lower, abs, absRe, j))
  {
    norm := norm0;
    var temp := absRe(A[j][j]);
    ghost var d := [temp];
    MaxScanPush(seen, [], temp);
    assert seen + ([] + [temp]) == seen + (d + OffMags(A, abs, j, j + 1, j + 1));
    if Gt(temp, norm) {
      norm := temp;
    } else if temp.NaN? {
      LowerNaN(A, abs, absRe, j, j + 1, seen);
      return temp;
    }
    var i := j + 1;
    while i < |A|
      invariant j + 1 <= i <= |A|
      invariant norm.Num? && norm == MaxScan(seen + (d + OffMags(A, abs, j, j + 1, i)))
    {
      var temp := abs(A[i][j]);
      MaxScanPush(seen, d + OffMags(A, abs, j, j + 1, i), temp);
      assert (d + OffMags(A, abs, j, j + 1, i)) + [temp] == d + OffMags(A, abs, j, j + 1, i + 1);
      if Gt(temp, norm) {
        norm := temp;
      } else if temp.NaN? {
        LowerNaN(A, abs, absRe, j, i + 1, seen);
        return temp;
      }
      i := i + 1;
    }
  }

  /** The max-norm loops of lines 71-123: the running maximum over the
      referenced triangle, column by column, returning a NaN at once. */
  method MaxLoops<T>(uplo: Uplo, A: seq<seq<T>>, abs: T -> Float, absRe: T -> Float) returns (norm: Float)
    requires IsSquare(A) && uplo != General
    ensures norm == MaxNorm(A, uplo, abs, absRe)
  {
    ghost var cols := Columns(A, uplo, abs, absRe);
    norm := Lassq.Zero;
    var j := 0;
    while j < |A|
      invariant 0 <= j <= |A|
      invariant norm.Num? && norm == MaxScan(Flatten(cols[..j]))
    {
      if uplo == Upper {
        norm := UpperColumnMax(A, abs, absRe, j, norm, Flatten(cols[..j]));
      } else {
        norm := LowerColumnMax(A, abs, absRe, j, norm, Flatten(cols[..j]));
      }
      FlattenStep(cols, j);
      if norm.NaN? {
        FlattenPrefix(cols, j + 1);
        MaxScanNaNPrefix(Flatten(cols), |Flatten(cols[..j + 1])|);
        return;
      }
      j := j + 1;
    }
    assert cols[..j] == cols;
  }

  // ---------------------------------------------------------------------------
  // Frobenius norm

  /** Rows lo .. hi-1 of column j: `subvector(col(A, j), pair{lo, hi})`. */
  function ColumnSlice<T>(A: seq<seq<T>>, j: nat, lo: nat, hi: nat): (v: seq<T>)
    requires IsSquare(A) && j < |A| && lo <= hi <= |A|
    ensures |v| == hi - lo
  {
    seq(hi - lo, k requires 0 <= k < hi - lo => A[lo + k][j])
  }

  /** `diag(A, 0)`. */
  function Diagonal<T>(A: seq<seq<T>>): (d: seq<T>)
    requires IsSquare(A)
    ensures |d| == |A|
  {
    seq(|A|, i requires 0 <= i < |A| => A[i][i])
  }

  /** The vector of the c-th off-diagonal `lassq` call (lines 130-137): the
      strictly upper part of column c+1, or the strictly lower part of
      column c. */
  function OffVector<T>(A: seq<seq<T>>, uplo: Uplo, c: nat): seq<T>
    requires IsSquare(A) && c + 1 < |A|
  {
    if uplo == Upper then ColumnSlice(A, c + 1, 0, c + 1) else ColumnSlice(A, c, c + 1, |A|)
  }

  /** The magnitudes the first k off-diagonal calls see, call by call. */
  function OffMagsList<T>(A: seq<seq<T>>, uplo: Uplo, abs: T -> Float, k: nat): (vs: seq<seq<Float>>)
    requires IsSquare(A) && k < |A|
    ensures |vs| == k
  {
    if k == 0 then []
    else OffMagsList(A, uplo, abs, k - 1) + [Lassq.Magnitudes(OffVector(A, uplo, k - 1), abs)]
  }

  lemma {:induction false} OffMagsListAt<T>(A: seq<seq<T>>, uplo: Uplo, abs: T -> Float, k: nat, c: nat)
    requires IsSquare(A) && c < k < |A|
    ensures OffMagsList(A, uplo, abs, k)[c] == Lassq.Magnitudes(OffVector(A, uplo, c), abs)
  {
    if c < k - 1 {
      OffMagsListAt(A, uplo, abs, k - 1, c);
    }
  }

  /** The state (scale, ssq) after one `lassq` call per vector of `vs`, in
      order, starting from (0, 1) (line 127). */
  function Chain(t: Traits, vs: seq<seq<Float>>): (Float, Float)
    requires t.Valid() && t.RootValid()
  {
    if |vs| == 0 then (Lassq.Zero, Lassq.One)
    else
      var st := Chain(t, vs[..|vs| - 1]);
      Lassq.Spec(t, vs[|vs| - 1], st.0, st.1)
  }

  /** Lines 140-143: the sum is doubled through ssq while that stays below
      `safe_max`, and through the scale, by sqrt(2), otherwise. */
  function Double(t: Traits, st: (Float, Float)): (Float, Float)
    requires t.RootValid()
  {
    if Lt(st.1, Num(t.safeMax)) then (st.0, Mul(st.1, Num(2.0)))
    else (Mul(st.0, Sqrt(t, Num(2.0))), st.1)
  }

  /** Lines 140-150 from the off-diagonal state `st`: the doubling, the call
      over the diagonal magnitudes, and scale * sqrt(ssq). */
  function Finish(t: Traits, st: (Float, Float), diag: seq<Float>): Float
    requires t.Valid() && t.RootValid()
  {
    var d := Double(t, st);
    var f := Lassq.Spec(t, diag, d.0, d.1);
    Mul(f.0, Sqrt(t, f.1))
  }

  /** The Frobenius norm of lines 126-151. */
  function FroNorm<T>(t: Traits, A: seq<seq<T>>, uplo: Uplo, abs: T -> Float, absRe: T -> Float): Float
    requires t.Valid() && t.RootValid() && IsSquare(A)
  {
    if |A| == 0 then Lassq.Zero
    else Finish(t, Chain(t, OffMagsList(A, uplo, abs, |A| - 1)), Lassq.Magnitudes(Diagonal(A), absRe))
  }

  /** One more call extends the chain by one vector. */
  lemma ChainSnoc(t: Traits, vs: seq<seq<Float>>, v: seq<Float>)
    requires t.Valid() && t.RootValid()
    ensures Chain(t, vs + [v]) == Lassq.Spec(t, v, Chain(t, vs).0, Chain(t, vs).1)
  {
    assert (vs + [v])[..|vs|] == vs;
  }

  /** The c-th off-diagonal call, `lassq(subvector(col(A, j), ...), scale,
      ssq)`, extends the chain by one vector. */
  method OffCall<T>(t: Traits, A: seq<seq<T>>, uplo: Uplo, abs: T -> Float, c: nat, scale: Float, ssq: Float)
    returns (scale': Float, ssq': Float)
    requires t.Valid() && t.RootValid() && IsSquare(A) && c + 1 < |A|
    requires (scale, ssq) == Chain(t, OffMagsList(A, uplo, abs, c))
    ensures (scale', ssq') == Chain(t, OffMagsList(A, uplo, abs, c + 1))
  {
    var v := OffVector(A, uplo, c);
    scale', ssq' := Lassq.Lassq(t, v, abs, scale, ssq);
    ChainSnoc(t, OffMagsList(A, uplo, abs, c), Lassq.Magnitudes(v, abs));
  }

  /** Lines 131-132: one call per column j = 1 .. n-1 over its rows above
      the diagonal. */
  method UpperOffSums<T>(t: Traits, A: seq<seq<T>>, abs: T -> Float) returns (scale: Float, ssq: Float)
    requires t.Valid() && t.RootValid() && IsSquare(A) && |A| > 0
    ensures (scale, ssq) == Chain(t, OffMagsList(A, Upper, abs, |A| - 1))
  {
    scale, ssq := Lassq.Zero, Lassq.One;
    var j := 1;
    while j < |A|
      invariant 1 <= j <= |A|
      invariant (scale, ssq) == Chain(t, OffMagsList(A, Upper, abs, j - 1))
    {
      scale, ssq := OffCall(t, A, Upper, abs, j - 1, scale, ssq);
      j := j + 1;
    }
  }

  /** Lines 135-136: one call per column j = 0 .. n-2 over its rows below
      the diagonal. */
  method LowerOffSums<T>(t: Traits, A: seq<seq<T>>, abs: T -> Float) returns (scale: Float, ssq: Float)
    requires t.Valid() && t.RootValid() && IsSquare(A) && |A| > 0
    ensures (scale, ssq) == Chain(t, OffMagsList(A, Lower, abs, |A| - 1))
  {
    scale, ssq := Lassq.Zero, Lassq.One;
    var j := 0;
    while j < |A| - 1
      invariant 0 <= j <= |A| - 1
      invariant (scale, ssq) == Chain(t, OffMagsList(A, Lower, abs, j))
    {
      scale, ssq := OffCall(t, A, Lower, abs, j, scale, ssq);
      j := j + 1;
    }
  }

  /** The Frobenius-norm branch of lines 126-151. */
  method FroLoops<T>(t: Traits, uplo: Uplo, A: seq<seq<T>>, abs: T -> Float, absRe: T -> Float) returns (norm: Float)
    requires t.Valid() && t.RootValid() && IsSquare(A) && |A| > 0 && uplo != General
    ensures norm == FroNorm(t, A, uplo, abs, absRe)
  {
    var scale, ssq;
    if uplo == Upper {
      scale, ssq := UpperOffSums(t, A, abs);
    } else {
      scale, ssq := LowerOffSums(t, A, abs);
    }
    if Lt(ssq, Num(t.safeMax)) {
      ssq := Mul(ssq, Num(2.0));
    } else {
      scale := Mul(scale, Sqrt(t, Num(2.0)));
    }
    scale, ssq := Lassq.Lassq(t, Diagonal(A), absRe, scale, ssq);
    norm := Mul(scale, Sqrt(t, ssq));
  }

  /** Magnitudes that `lassq` sums without loss: no NaN, and each is zero or
      in the medium range, where no scaling takes place. */
  predicate ZeroOrMedium(t: Traits, mags: seq<Float>)
    requires t.Valid()
  {
    forall m | m in mags :: m.Num? && (m == Lassq.Zero || Lassq.Classify(t, m) == Lassq.Medium)
  }

  /** The sum of the squared magnitudes over all vectors of `vs`. */
  function TotalSq(vs: seq<seq<Float>>): real
  {
    if |vs| == 0 then 0.0 else TotalSq(vs[..|vs| - 1]) + Lassq.SumSq(vs[|vs| - 1])
  }

  /** With lossless magnitudes, the chain of calls accumulates exactly the
      sum of the squares of all the magnitudes, with a non-negative scale
      and sum. */
  lemma {:induction false} ChainExact(t: Traits, vs: seq<seq<Float>>)
    requires t.Valid() && t.RootValid()
    requires forall i | 0 <= i < |vs| :: ZeroOrMedium(t, vs[i])
    ensures Lassq.StandsFor(Chain(t, vs), TotalSq(vs))
    ensures Chain(t, vs).0.val >= 0.0 && Chain(t, vs).1.val >= 0.0
  {
    if |vs| > 0 {
      var p := vs[..|vs| - 1];
      assert forall i | 0 <= i < |p| :: p[i] == vs[i];
      ChainExact(t, p);
      var st := Chain(t, p);
      assert ZeroOrMedium(t, vs[|vs| - 1]);
      Lassq.SpecLosslessStep(t, vs[|vs| - 1], st.0, st.1, TotalSq(p));
    }
  }

  /** Doubling keeps the state free of NaN and doubles the value it stands
      for. */
  lemma DoubleExact(t: Traits, st: (Float, Float), v: real)
    requires t.Valid() && t.RootValid()
    requires Lassq.StandsFor(st, v) && st.0.val >= 0.0 && st.1.val >= 0.0
    ensures Lassq.StandsFor(Double(t, st), 2.0 * v)
    ensures Double(t, st).0.val >= 0.0 && Double(t, st).1.val >= 0.0
  {
    var s, q := st.0.val, st.1.val;
    if Lt(st.1, Num(t.safeMax)) {
      assert Sqr(s) * (q * 2.0) == 2.0 * (Sqr(s) * q);
    } else {
      var r := Sqrt(t, Num(2.0)).val;
      Lassq.RootScale(s, r, 1.0, 2.0);
      assert Sqr(s * r) * q == (Sqr(s) * 2.0) * q == 2.0 * (Sqr(s) * q);
    }
  }

  /** scale * sqrt(ssq) of a NaN-free state with non-negative parts is the
      non-negative square root of the value the state stands for. */
  lemma RootOfState(t: Traits, f: (Float, Float), v: real)
    requires t.RootValid()
    requires Lassq.StandsFor(f, v) && f.0.val >= 0.0 && f.1.val >= 0.0
    ensures Mul(f.0, Sqrt(t, f.1)).Num? && Mul(f.0, Sqrt(t, f.1)).val >= 0.0
    ensures Sqr(Mul(f.0, Sqrt(t, f.1)).val) == v
  {
    var r := Sqrt(t, f.1).val;
    Lassq.RootScale(f.0.val, r, 1.0, f.1.val);
    Lassq.NonNegProduct(f.0.val, r);
  }

  /** With lossless diagonal magnitudes, the last steps turn a state that
      stands for v into the square root of 2v plus the squared diagonal. */
  lemma FinishExact(t: Traits, st: (Float, Float), v: real, diag: seq<Float>)
    requires t.Valid() && t.RootValid()
    requires Lassq.StandsFor(st, v) && st.0.val >= 0.0 && st.1.val >= 0.0
    requires ZeroOrMedium(t, diag)
    ensures Finish(t, st, diag).Num? && Finish(t, st, diag).val >= 0.0
    ensures Sqr(Finish(t, st, diag).val) == 2.0 * v + Lassq.SumSq(diag)
  {
    DoubleExact(t, st, v);
    var d := Double(t, st);
    Lassq.SpecLosslessStep(t, diag, d.0, d.1, 2.0 * v);
    var f := Lassq.Spec(t, diag, d.0, d.1);
    RootOfState(t, f, Lassq.SumSq(diag) + 2.0 * v);
  }

  /** The sum of the squared magnitudes of the off-diagonal vectors. */
  function OffSum<T>(A: seq<seq<T>>, uplo: Uplo, abs: T -> Float): real
    requires IsSquare(A) && |A| > 0
  {
    TotalSq(OffMagsList(A, uplo, abs, |A| - 1))
  }

  /** The value of the norm: with lossless magnitudes, its square is twice
      the sum of the squared off-diagonal magnitudes plus the sum of the
      squared diagonal magnitudes; and it is non-negative. */
  lemma FroExact<T>(t: Traits, A: seq<seq<T>>, uplo: Uplo, abs: T -> Float, absRe: T -> Float)
    requires t.Valid() && t.RootValid() && IsSquare(A) && |A| > 0
    requires forall c | 0 <= c < |A| - 1 :: ZeroOrMedium(t, Lassq.Magnitudes(OffVector(A, uplo, c), abs))
    requires ZeroOrMedium(t, Lassq.Magnitudes(Diagonal(A), absRe))
    ensures FroNorm(t, A, uplo, abs, absRe).Num? && FroNorm(t, A, uplo, abs, absRe).val >= 0.0
    ensures Sqr(FroNorm(t, A, uplo, abs, absRe).val)
      == 2.0 * OffSum(A, uplo, abs) + Lassq.SumSq(Lassq.Magnitudes(Diagonal(A), absRe))
  {
    var vs := OffMagsList(A, uplo, abs, |A| - 1);
    forall i | 0 <= i < |vs|
      ensures ZeroOrMedium(t, vs[i])
    {
      OffMagsListAt(A, uplo, abs, |A| - 1, i);
    }
    ChainExact(t, vs);
    FinishExact(t, Chain(t, vs), TotalSq(vs), Lassq.Magnitudes(Diagonal(A), absRe));
  }

  predicate Poisoned(st: (Float, Float)) {
    st.0.NaN? || st.1.NaN?
  }

  /** A NaN magnitude in any vector of the chain leaves a NaN in the
      state. */
  lemma {:induction false} ChainPoison(t: Traits, vs: seq<seq<Float>>, c: nat)
    requires t.Valid() && t.RootValid() && c < |vs|
    requires NaN in vs[c]
    ensures Poisoned(Chain(t, vs))
  {
    var p := vs[..|vs| - 1];
    var st := Chain(t, p);
    if c < |vs| - 1 {
      assert p[c] == vs[c];
      ChainPoison(t, p, c);
    } else if !Poisoned(st) {
      Lassq.SpecPoison(t, vs[c], st.0, st.1);
    }
  }

  /** A poisoned state, or a NaN diagonal magnitude, makes the last steps
      NaN. */
  lemma FinishPoison(t: Traits, st: (Float, Float), diag: seq<Float>)
    requires t.Valid() && t.RootValid()
    requires Poisoned(st) || NaN in diag
    ensures Finish(t, st, diag) == NaN
  {
    var d := Double(t, st);
    if !Poisoned(d) {
      Lassq.SpecPoison(t, diag, d.0, d.1);
    }
  }

  /** A NaN magnitude anywhere in the referenced triangle makes the
      Frobenius norm NaN. */
  lemma FroPoison<T>(t: Traits, A: seq<seq<T>>, uplo: Uplo, abs: T -> Float, absRe: T -> Float, c: nat)
    requires t.Valid() && t.RootValid() && IsSquare(A) && |A| > 0
    requires (c + 1 < |A| && NaN in Lassq.Magnitudes(OffVector(A, uplo, c), abs))
          || NaN in Lassq.Magnitudes(Diagonal(A), absRe)
    ensures FroNorm(t, A, uplo, abs, absRe) == NaN
  {
    var vs := OffMagsList(A, uplo, abs, |A| - 1);
    if c + 1 < |A| && NaN in Lassq.Magnitudes(OffVector(A, uplo, c), abs) {
      OffMagsListAt(A, uplo, abs, |A| - 1, c);
      ChainPoison(t, vs, c);
    }
    FinishPoison(t, Chain(t, vs), Lassq.Magnitudes(Diagonal(A), absRe));
  }

  // ---------------------------------------------------------------------------
  // One and infinity norms

  /** The sum, in row order from 0, of the magnitudes of rows 0 .. m-1 of
      column i. */
  function PartialCol<T>(A: seq<seq<T>>, uplo: Uplo, abs: T -> Float, absRe: T -> Float, i: nat, m: nat): Float
    requires IsSquare(A) && i < |A| && m <= |A|
  {
    if m == 0 then Lassq.Zero
    else Add(PartialCol(A, uplo, abs, absRe, i, m - 1), HermAbs(A, uplo, abs, absRe, m - 1, i))
  }

  /** The sum, in column order from 0, of the magnitudes of columns
      0 .. m-1 of row i. */
  function PartialRow<T>(A: seq<seq<T>>, uplo: Uplo, abs: T -> Float, absRe: T -> Float, i: nat, m: nat): Float
    requires IsSquare(A) && i < |A| && m <= |A|
  {
    if m == 0 then Lassq.Zero
    else Add(PartialRow(A, uplo, abs, absRe, i, m - 1), HermAbs(A, uplo, abs, absRe, i, m - 1))
  }

  /** The absolute sum of column i. */
  function ColSum<T>(A: seq<seq<T>>, uplo: Uplo, abs: T -> Float, absRe: T -> Float, i: nat): Float
    requires IsSquare(A) && i < |A|
  {
    PartialCol(A, uplo, abs, absRe, i, |A|)
  }

  /** The absolute sums of columns 0 .. m-1. */
  function ColSums<T>(A: seq<seq<T>>, uplo: Uplo, abs: T -> Float, absRe: T -> Float, m: nat): (s: seq<Float>)
    requires IsSquare(A) && m <= |A|
    ensures |s| == m
  {
    if m == 0 then [] else ColSums(A, uplo, abs, absRe, m - 1) + [ColSum(A, uplo, abs, absRe, m - 1)]
  }

  /** The absolute sums of rows 0 .. m-1. */
  function RowSums<T>(A: seq<seq<T>>, uplo: Uplo, abs: T -> Float, absRe: T -> Float, m: nat): (s: seq<Float>)
    requires IsSquare(A) && m <= |A|
    ensures |s| == m
  {
    if m == 0 then [] else RowSums(A, uplo, abs, absRe, m - 1) + [PartialRow(A, uplo, abs, absRe, m - 1, |A|)]
  }

  /** The one norm: the running maximum of the column sums, in column
      order. */
  function OneNorm<T>(A: seq<seq<T>>, uplo: Uplo, abs: T -> Float, absRe: T -> Float): Float
    requires IsSquare(A)
  {
    MaxScan(ColSums(A, uplo, abs, absRe, |A|))
  }

  /** The infinity norm: the running maximum of the row sums, in row
      order. */
  function InfNorm<T>(A: seq<seq<T>>, uplo: Uplo, abs: T -> Float, absRe: T -> Float): Float
    requires IsSquare(A)
  {
    MaxScan(RowSums(A, uplo, abs, absRe, |A|))
  }

  /** Row i of a Hermitian matrix is the conjugate of column i, so their
      absolute sums agree term by term. */
  lemma {:induction false} RowIsCol<T>(A: seq<seq<T>>, uplo: Uplo, abs: T -> Float, absRe: T -> Float, i: nat, m: nat)
    requires IsSquare(A) && i < |A| && m <= |A|
    ensures PartialRow(A, uplo, abs, absRe, i, m) == PartialCol(A, uplo, abs, absRe, i, m)
  {
    if m > 0 {
      RowIsCol(A, uplo, abs, absRe, i, m - 1);
      assert HermAbs(A, uplo, abs, absRe, i, m - 1) == HermAbs(A, uplo, abs, absRe, m - 1, i);
    }
  }

  /** The infinity norm of a Hermitian matrix is its one norm, which is why
      the routine computes both the same way. */
  lemma {:induction false} InfIsOne<T>(A: seq<seq<T>>, uplo: Uplo, abs: T -> Float, absRe: T -> Float)
    requires IsSquare(A)
    ensures InfNorm(A, uplo, abs, absRe) == OneNorm(A, uplo, abs, absRe)
  {
    RowSumsAreColSums(A, uplo, abs, absRe, |A|);
  }

  lemma {:induction false} RowSumsAreColSums<T>(A: seq<seq<T>>, uplo: Uplo, abs: T -> Float, absRe: T -> Float, m: nat)
    requires IsSquare(A) && m <= |A|
    ensures RowSums(A, uplo, abs, absRe, m) == ColSums(A, uplo, abs, absRe, m)
  {
    if m > 0 {
      RowSumsAreColSums(A, uplo, abs, absRe, m - 1);
      RowIsCol(A, uplo, abs, absRe, m - 1, |A|);
    }
  }

  /** A partial column sum is NaN exactly when one of its terms is; with
      non-negative terms it is non-negative and bounds each of them. */
  lemma {:induction false} PartialColIsSum<T>(A: seq<seq<T>>, uplo: Uplo, abs: T -> Float, absRe: T -> Float, i: nat, m: nat)
    requires IsSquare(A) && i < |A| && m <= |A|
    ensures PartialCol(A, uplo, abs, absRe, i, m).NaN?
      <==> exists k | 0 <= k < m :: HermAbs(A, uplo, abs, absRe, k, i).NaN?
    ensures (forall k | 0 <= k < m :: HermAbs(A, uplo, abs, absRe, k, i).Num? && HermAbs(A, uplo, abs, absRe, k, i).val >= 0.0)
      ==> && PartialCol(A, uplo, abs, absRe, i, m).val >= 0.0
          && forall k | 0 <= k < m :: HermAbs(A, uplo, abs, absRe, k, i).val <= PartialCol(A, uplo, abs, absRe, i, m).val
  {
    if m > 0 {
      PartialColIsSum(A, uplo, abs, absRe, i, m - 1);
    }
  }

  lemma {:induction false} ColSumsAt<T>(A: seq<seq<T>>, uplo: Uplo, abs: T -> Float, absRe: T -> Float, m: nat, i: nat)
    requires IsSquare(A) && i < m <= |A|
    ensures ColSums(A, uplo, abs, absRe, m)[i] == ColSum(A, uplo, abs, absRe, i)
  {
    if i < m - 1 {
      ColSumsAt(A, uplo, abs, absRe, m - 1, i);
    }
  }

  lemma {:induction false} ColSumsPrefix<T>(A: seq<seq<T>>, uplo: Uplo, abs: T -> Float, absRe: T -> Float, m: nat, k: nat)
    requires IsSquare(A) && k <= m <= |A|
    ensures ColSums(A, uplo, abs, absRe, m)[..k] == ColSums(A, uplo, abs, absRe, k)
  {
    if k < m {
      ColSumsPrefix(A, uplo, abs, absRe, m - 1, k);
      assert ColSums(A, uplo, abs, absRe, m)[..m - 1] == ColSums(A, uplo, abs, absRe, m - 1);
    } else {
      assert ColSums(A, uplo, abs, absRe, m)[..k] == ColSums(A, uplo, abs, absRe, m);
    }
  }

  /** The one norm is NaN exactly when some entry magnitude is. */
  lemma OneNormNaN<T>(A: seq<seq<T>>, uplo: Uplo, abs: T -> Float, absRe: T -> Float)
    requires IsSquare(A)
    ensures OneNorm(A, uplo, abs, absRe).NaN?
      <==> exists k, i | 0 <= k < |A| && 0 <= i < |A| :: HermAbs(A, uplo, abs, absRe, k, i).NaN?
  {
    var s := ColSums(A, uplo, abs, absRe, |A|);
    MaxScanIsMax(s);
    if NaN in s {
      var i :| 0 <= i < |s| && s[i] == NaN;
      ColSumsAt(A, uplo, abs, absRe, |A|, i);
      PartialColIsSum(A, uplo, abs, absRe, i, |A|);
    }
    if exists k, i | 0 <= k < |A| && 0 <= i < |A| :: HermAbs(A, uplo, abs, absRe, k, i).NaN? {
      var k, i :| 0 <= k < |A| && 0 <= i < |A| && HermAbs(A, uplo, abs, absRe, k, i).NaN?;
      ColSumsAt(A, uplo, abs, absRe, |A|, i);
      PartialColIsSum(A, uplo, abs, absRe, i, |A|);
      assert s[i] == NaN;
    }
  }

  /** With non-negative entry magnitudes, the one norm is the largest
      column sum, and so bounds every entry magnitude. */
  lemma OneNormIsMax<T>(A: seq<seq<T>>, uplo: Uplo, abs: T -> Float, absRe: T -> Float)
    requires IsSquare(A) && |A| > 0
    requires forall k, i | 0 <= k < |A| && 0 <= i < |A| ::
      HermAbs(A, uplo, abs, absRe, k, i).Num? && HermAbs(A, uplo, abs, absRe, k, i).val >= 0.0
    ensures OneNorm(A, uplo, abs, absRe).Num?
    ensures exists i | 0 <= i < |A| :: OneNorm(A, uplo, abs, absRe) == ColSum(A, uplo, abs, absRe, i)
    ensures forall i | 0 <= i < |A| ::
      ColSum(A, uplo, abs, absRe, i).Num? && ColSum(A, uplo, abs, absRe, i).val <= OneNorm(A, uplo, abs, absRe).val
    ensures forall k, i | 0 <= k < |A| && 0 <= i < |A| ::
      HermAbs(A, uplo, abs, absRe, k, i).val <= OneNorm(A, uplo, abs, absRe).val
  {
    var n := |A|;
    var s := ColSums(A, uplo, abs, absRe, n);
    forall i | 0 <= i < n
      ensures s[i] == ColSum(A, uplo, abs, absRe, i) && s[i].Num? && s[i].val >= 0.0
    {
      ColSumsAt(A, uplo, abs, absRe, n, i);
      PartialColIsSum(A, uplo, abs, absRe, i, n);
    }
    MaxScanIsMax(s);
    var norm := MaxScan(s);
    assert norm.Num?;
    forall k, i | 0 <= k < n && 0 <= i < n
      ensures HermAbs(A, uplo, abs, absRe, k, i).val <= norm.val
    {
      PartialColIsSum(A, uplo, abs, absRe, i, n);
      assert s[i] in s;
    }
    if norm == Lassq.Zero {
      assert s[0] in s;
      assert norm == s[0];
    } else {
      var i :| 0 <= i < n && s[i] == norm;
    }
  }

  /** Lines 191-192: work[0 .. n-1] := 0. */
  method ZeroWork(work: array<Float>, n: nat)
    requires n <= work.Length
    modifies work
    ensures forall i | 0 <= i < n :: work[i] == Lassq.Zero
    ensures forall i | n <= i < work.Length :: work[i] == old(work[i])
  {
    var i := 0;
    while i < n
      invariant 0 <= i <= n
      invariant forall k | 0 <= k < i :: work[k] == Lassq.Zero
      invariant forall k | i <= k < work.Length :: work[k] == old(work[k])
    {
      work[i] := Lassq.Zero;
      i := i + 1;
    }
  }

  /** Column j of lines 195-204 (upper triangle): its entries above the
      diagonal finish row j's contributions to the earlier columns' sums,
      and work[j] becomes the sum of rows 0 .. j of column j. */
  method UpperColumnSums<T>(A: seq<seq<T>>, abs: T -> Float, absRe: T -> Float, work: array<Float>, j: nat)
    requires IsSquare(A) && j < |A| <= work.Length
    requires forall i | 0 <= i < j :: work[i] == PartialCol(A, Upper, abs, absRe, i, j)
    modifies work
    ensures forall i | 0 <= i <= j :: work[i] == PartialCol(A, Upper, abs, absRe, i, j + 1)
    ensures forall i | j < i < work.Length :: work[i] == old(work[i])
  {
    var sum := Lassq.Zero;
    var i := 0;
    while i < j
      invariant 0 <= i <= j
      invariant sum == PartialCol(A, Upper, abs, absRe, j, i)
      invariant forall k | 0 <= k < i :: work[k] == PartialCol(A, Upper, abs, absRe, k, j + 1)
      invariant forall k | i <= k < work.Length :: work[k] == old(work[k])
    {
      var absa := abs(A[i][j]);
      sum := Add(sum, absa);
      work[i] := Add(work[i], absa);
      i := i + 1;
    }
    work[j] := Add(sum, absRe(A[j][j]));
  }

  /** Lines 205-214: the running maximum of work[0 .. n-1], returning a NaN
      as soon as it is met. */
  method ScanWork<T>(A: seq<seq<T>>, uplo: Uplo, abs: T -> Float, absRe: T -> Float, work: array<Float>) returns (norm: Float)
    requires IsSquare(A) && |A| <= work.Length
    requires forall i | 0 <= i < |A| :: work[i] == ColSum(A, uplo, abs, absRe, i)
    ensures norm == OneNorm(A, uplo, abs, absRe)
  {
    var n := |A|;
    ghost var s := ColSums(A, uplo, abs, absRe, n);
    norm := Lassq.Zero;
    var i := 0;
    while i < n
      invariant 0 <= i <= n
      invariant norm.Num? && norm == MaxScan(s[..i])
    {
      var sum := work[i];
      ColSumsAt(A, uplo, abs, absRe, n, i);
      assert s[..i + 1] == s[..i] + [sum];
      MaxScanSnoc(s[..i], sum);
      if Gt(sum, norm) {
        norm := sum;
      } else if sum.NaN? {
        MaxScanNaNPrefix(s, i + 1);
        return sum;
      }
      i := i + 1;
    }
    assert s[..n] == s;
  }

  /** Column j of lines 217-231 (lower triangle): the diagonal and the
      entries below it complete column j's sum, and each entry (i, j) adds
      to row i's pending sum. */
  method LowerColumnSums<T>(A: seq<seq<T>>, abs: T -> Float, absRe: T -> Float, work: array<Float>, j: nat) returns (sum: Float)
    requires IsSquare(A) && j < |A| <= work.Length
    requires forall i | j <= i < |A| :: work[i] == PartialCol(A, Lower, abs, absRe, i, j)
    modifies work
    ensures sum == ColSum(A, Lower, abs, absRe, j)
    ensures forall i | j < i < |A| :: work[i] == PartialCol(A, Lower, abs, absRe, i, j + 1)
    ensures forall i | 0 <= i <= j || |A| <= i < work.Length :: work[i] == old(work[i])
  {
    var n := |A|;
    sum := Add(work[j], absRe(A[j][j]));
    var i := j + 1;
    while i < n
      invariant j + 1 <= i <= n
      invariant sum == PartialCol(A, Lower, abs, absRe, j, i)
      invariant forall k | j < k < i :: work[k] == PartialCol(A, Lower, abs, absRe, k, j + 1)
      invariant forall k | 0 <= k < work.Length && !(j < k < i) :: work[k] == old(work[k])
    {
      var absa := abs(A[i][j]);
      sum := Add(sum, absa);
      work[i] := Add(work[i], absa);
      i := i + 1;
    }
  }

  /** The upper-triangle branch of lines 194-214. */
  method UpperOneNorm<T>(A: seq<seq<T>>, abs: T -> Float, absRe: T -> Float, work: array<Float>) returns (norm: Float)
    requires IsSquare(A) && |A| <= work.Length
    modifies work
    ensures norm == OneNorm(A, Upper, abs, absRe)
    ensures forall i | 0 <= i < |A| :: work[i] == ColSum(A, Upper, abs, absRe, i)
    ensures forall i | |A| <= i < work.Length :: work[i] == old(work[i])
  {
    var n := |A|;
    ZeroWork(work, n);
    var j := 0;
    while j < n
      invariant 0 <= j <= n
      invariant forall i | 0 <= i < j :: work[i] == PartialCol(A, Upper, abs, absRe, i, j)
      invariant forall i | n <= i < work.Length :: work[i] == old(work[i])
    {
      UpperColumnSums(A, abs, absRe, work, j);
      j := j + 1;
    }
    norm := ScanWork(A, Upper, abs, absRe, work);
  }

  /** The lower-triangle branch of lines 216-232. */
  method LowerOneNorm<T>(A: seq<seq<T>>, abs: T -> Float, absRe: T -> Float, work: array<Float>) returns (norm: Float)
    requires IsSquare(A) && |A| <= work.Length
    modifies work
    ensures norm == OneNorm(A, Lower, abs, absRe)
    ensures forall i | |A| <= i < work.Length :: work[i] == old(work[i])
  {
    var n := |A|;
    ghost var s := ColSums(A, Lower, abs, absRe, n);
    ZeroWork(work, n);
    norm := Lassq.Zero;
    var j := 0;
    while j < n
      invariant 0 <= j <= n
      invariant forall i | j <= i < n :: work[i] == PartialCol(A, Lower, abs, absRe, i, j)
      invariant forall i | n <= i < work.Length :: work[i] == old(work[i])
      invariant norm.Num? && norm == MaxScan(s[..j])
    {
      var sum := LowerColumnSums(A, abs, absRe, work, j);
      ColSumsAt(A, Lower, abs, absRe, n, j);
      assert s[..j + 1] == s[..j] + [sum];
      MaxScanSnoc(s[..j], sum);
      if Gt(sum, norm) {
        norm := sum;
      } else if sum.NaN? {
        MaxScanNaNPrefix(s, j + 1);
        return sum;
      }
      j := j + 1;
    }
    assert s[..n] == s;
  }

  // ---------------------------------------------------------------------------
  // The two entry points

  /** `lanhe(normType, uplo, A)` (lines 39-155): the max or the Frobenius
      norm, 0 for an empty matrix. */
  method Lanhe<T>(t: Traits, normType: NormTag, uplo: Uplo, A: seq<seq<T>>, abs: T -> Float, absRe: T -> Float)
    returns (norm: Float)
    requires t.Valid() && t.RootValid() && IsSquare(A)
    requires normType == MaxNormTag || normType == FrobNormTag
    requires uplo != General
    ensures |A| == 0 ==> norm == Lassq.Zero
    ensures normType == MaxNormTag ==> norm == MaxNorm(A, uplo, abs, absRe)
    ensures normType == FrobNormTag ==> norm == FroNorm(t, A, uplo, abs, absRe)
  {
    if |A| == 0 {
      return Lassq.Zero;
    }
    if normType == MaxNormTag {
      norm := MaxLoops(uplo, A, abs, absRe);
    } else {
      norm := FroLoops(t, uplo, A, abs, absRe);
    }
  }

  /** `lanhe(normType, uplo, A, work)` (lines 157-235). The max and
      Frobenius norms are handed to `lansy`, whose result is the parameter
      `lansy`; the one and infinity norms are the largest absolute column
      sum, accumulated in work[0 .. n-1]. */
  method LanheWork<T>(normType: NormTag, uplo: Uplo, A: seq<seq<T>>, abs: T -> Float, absRe: T -> Float,
                      work: array<Float>, lansy: NormTag -> Float)
    returns (norm: Float)
    requires IsSquare(A) && uplo != General
    requires normType == OneNormTag || normType == InfNormTag ==> |A| <= work.Length
    modifies work
    ensures normType == MaxNormTag || normType == FrobNormTag ==>
      norm == lansy(normType) && work[..] == old(work[..])
    ensures normType == OneNormTag ==> norm == OneNorm(A, uplo, abs, absRe)
    ensures normType == InfNormTag ==> norm == InfNorm(A, uplo, abs, absRe)
    ensures |A| == 0 && (normType == OneNormTag || normType == InfNormTag) ==> norm == Lassq.Zero
    ensures forall i | |A| <= i < work.Length :: work[i] == old(work[i])
  {
    if normType == MaxNormTag || normType == FrobNormTag {
      return lansy(normType);
    }
    InfIsOne(A, uplo, abs, absRe);
    if |A| == 0 {
      return Lassq.Zero;
    }
    if uplo == Upper {
      norm := UpperOneNorm(A, abs, absRe, work);
    } else {
      norm := LowerOneNorm(A, abs, absRe, work);
    }
  }
}
