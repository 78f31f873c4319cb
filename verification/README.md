# tlapack core, modelled in Dafny

This project models part of <T>LAPACK, a C++ template library of BLAS and LAPACK routines:

- `lassq`, the scaled sum of squares. It keeps the pair (scl, sumsq), which stands for scl² · sumsq, and adds the squared magnitudes of a vector to it with Blue's three accumulators.
- `lanhe`, the max, Frobenius, one and infinity norms of a Hermitian matrix stored in one triangle.
- `herk`, the Hermitian rank-k update C := α·A·Aᴴ + β·C or C := α·Aᴴ·A + β·C, on real scalars.
- The legacy-API descriptors (`colmajor_matrix`, `vector`, `transpose`, …) and the legacy `swap` of two strided vectors.
- The argument checks and matrix-type dispatch of the SLATE-style `lascl`.
- The scalar helpers of `blas/utils.hpp` and the enumerations and tag types of `lapack/types.hpp`.

Floating-point scalars are `Floats.Float = NaN | Num(real)`:

- Every comparison with a NaN is false, as in the C++ code.
- Arithmetic with a NaN gives a NaN.
- Numbers are exact reals.

Blue's constants `tsml`, `tbig`, `ssml`, `sbig`, the bound `safe_max` and `sqrt` are fields of `Floats.Traits`. Only their positivity, `tsml < tbig`, and "sqrt is the non-negative square root" are assumed, through `Traits.Valid` and `Traits.RootValid`.

Generic scalar types are reached through function parameters:

- `lassq` takes `absFunc`.
- `lanhe` takes `abs`, the magnitude of an entry, and `absRe`, the magnitude of the real part of a diagonal entry.

The imperative routines stay imperative:

- `Lassq.Lassq` loops over the vector and is proved equal to the function `Lassq.Spec`.
- The `lanhe` loops are methods proved equal to `Lanhe.MaxNorm`, `Lanhe.FroNorm` and `Lanhe.OneNorm`. The one and infinity norms accumulate in place in an `array<Float>` workspace.
- `Herk.Herk` updates an `array2<real>` in place.
- `LegacySwap.Swap` exchanges elements of two arrays in place.

The properties the source promises are then proved about those functions.

Files: `floats.dfy`, `lapack_types.dfy`, `blas_utils.dfy`, `legacy_array.dfy`, `legacy_swap.dfy`, `lascl.dfy`, `herk.dfy`, `lassq.dfy`, `lanhe.dfy`.

## Model

| member | source | states |
|---|---|---|
| LapackTypes.NormCode | include/lapack/types.hpp:81-87 | each `Norm` value has one of the codes '1', '2', 'I', 'F', 'M', and decoding that code gives the value back |
| LapackTypes.NormOfCode | include/lapack/types.hpp:81-87 | a character names a norm exactly when it is one of the five codes |
| LapackTypes.NormCodeInjective | include/lapack/types.hpp:81-87 | two norms have the same code iff they are the same norm |
| LapackTypes.NormOfTag | include/lapack/types.hpp:89-100 | `max_norm_t`, `one_norm_t`, `inf_norm_t` and `frob_norm_t` convert to Max, One, Inf and Fro; no tag converts to Two |
| LapackTypes.NormTagsDistinct | include/lapack/types.hpp:89-100 | two tags convert to the same norm iff they are the same tag |
| LapackTypes.NormTagsCover | include/lapack/types.hpp:89-100 | every norm except Two is the conversion of some tag |
| LapackTypes.DirectionCode | include/lapack/types.hpp:111-114 | Forward has code 'F' and Backward has code 'B' |
| LapackTypes.DirectionOfTag | include/lapack/types.hpp:116-121 | `forward_t` converts to the direction with code 'F', `backward_t` to the one with code 'B' |
| LapackTypes.StoreVCode | include/lapack/types.hpp:130-133 | Columnwise has code 'C' and Rowwise has code 'R' |
| LapackTypes.StoreVOfTag | include/lapack/types.hpp:135-140 | `columnwise_storage_t` converts to the storage with code 'C', `rowwise_storage_t` to the one with code 'R' |
| LapackTypes.CodesDistinct | include/lapack/types.hpp:111-133 | the `Direction` codes and the `StoreV` codes are each injective |
| LapackTypes.OpOfTag | include/lapack/types.hpp:49-57 | the three operation tags convert to NoTrans, Trans and ConjTrans, one to one |
| LapackTypes.DiagOfTag | include/lapack/types.hpp:35-40 | the unit-diagonal tag, and only that tag, converts to Unit |
| LapackTypes.SideOfTag | include/lapack/types.hpp:67-72 | the left-side tag, and only that tag, converts to Left |
| BlasUtils.Max | include/blas/utils.hpp:92-97 | without a NaN the result is one of the two arguments and at least both of them; with a NaN on either side the result is the second argument |
| BlasUtils.Min | include/blas/utils.hpp:116-121 | without a NaN the result is one of the two arguments and at most both of them; with a NaN on either side the result is the second argument |
| BlasUtils.MaxOf | include/blas/utils.hpp:87-105 | the right fold of `max`: without a NaN the result is an element that bounds every element; a NaN in the last place gives a NaN |
| BlasUtils.MinOf | include/blas/utils.hpp:111-129 | the right fold of `min`: without a NaN the result is an element below every element; a NaN in the last place gives a NaN |
| BlasUtils.MinBelowMax | include/blas/utils.hpp:87-129 | without a NaN, variadic min is at most variadic max, and the two are equal on a constant list |
| BlasUtils.Sgn | include/blas/utils.hpp:160-163 | 1 iff v > 0, -1 iff v < 0, and 0 iff v is zero or a NaN |
| BlasUtils.SgnAbs | include/blas/utils.hpp:160-163 | sgn(v) · abs(v) == v for every number v |
| BlasUtils.Conj | include/blas/utils.hpp:77-81 | `conj` of a real returns its argument |
| BlasUtils.MakeReal | include/blas/utils.hpp:135-140 | for a real type, `make_scalar(re, im)` is `re` whatever `im` is |
| BlasUtils.MakeComplex | include/blas/utils.hpp:142-147 | for a complex type, `make_scalar(re, im)` has real part `re` and imaginary part `im` |
| BlasUtils.IsNanComplex | include/blas/utils.hpp:282-287 | a complex number is a NaN iff either part is |
| BlasUtils.IsInfComplex | include/blas/utils.hpp:291-295 | a complex number is infinite iff either part is |
| BlasUtils.Abs | include/blas/utils.hpp:305-312 | `abs` of a real is a NaN iff the argument is; otherwise it is non-negative and equal to ±x |
| BlasUtils.AbsComplex | include/blas/utils.hpp:305-312 | `abs` of a complex number is a NaN iff either part is; otherwise it is non-negative and its square is re² + im² |
| BlasUtils.Abs1 | include/blas/utils.hpp:339-340 | `abs1` of a real is \|x\|, a NaN for a NaN |
| BlasUtils.Abs1Complex | include/blas/utils.hpp:342-346 | `abs1` of a complex number is \|re\| + \|im\|, a NaN iff either part is one |
| BlasUtils.AbsOfReal | include/blas/utils.hpp:305-346 | a real number made complex with a zero imaginary part has the same `abs` and the same `abs1` as the real |
| BlasUtils.Abs1Bound | include/blas/utils.hpp:298-346 | the 2-norm magnitude is at most the 1-norm magnitude |
| BlasUtils.ErrorIf | include/blas/utils.hpp:391-395 | the check fails iff its condition holds |
| LegacyArray.ColMajorMatrix | include/legacy_api/blas/legacyArray.hpp:16-24 | a column-major view that records m, n, ptr and lda unchanged |
| LegacyArray.ColMajorMatrixPacked | include/legacy_api/blas/legacyArray.hpp:26-33 | the leading dimension defaults to m |
| LegacyArray.RowMajorMatrix | include/legacy_api/blas/legacyArray.hpp:35-43 | a row-major view that records m, n, ptr and lda unchanged |
| LegacyArray.RowMajorMatrixPacked | include/legacy_api/blas/legacyArray.hpp:45-52 | the leading dimension defaults to n |
| LegacyArray.BandedMatrix | include/legacy_api/blas/legacyArray.hpp:54-63 | a band view that records m, n, kl, ku and ptr unchanged |
| LegacyArray.Vector | include/legacy_api/blas/legacyArray.hpp:65-69 | a forward vector view with the given length, base address and stride |
| LegacyArray.UnitVector | include/legacy_api/blas/legacyArray.hpp:71-75 | the forward vector with stride 1 |
| LegacyArray.BackwardVector | include/legacy_api/blas/legacyArray.hpp:77-81 | a backward vector view with the given length, base address and stride |
| LegacyArray.UnitBackwardVector | include/legacy_api/blas/legacyArray.hpp:83-87 | the backward vector with stride 1 |
| LegacyArray.Transpose | include/legacy_api/blas/legacyArray.hpp:106-120 | the layout flips, m and n are exchanged, and the base address and leading dimension are kept |
| LegacyArray.TransposeInvolution | include/legacy_api/blas/legacyArray.hpp:106-120 | transposing twice gives the original view |
| LegacyArray.TransposeAddress | include/legacy_api/blas/legacyArray.hpp:106-120 | element (j, i) of the transpose is stored where element (i, j) of the original is |
| LegacyArray.PackedColMajorInRange | include/legacy_api/blas/legacyArray.hpp:26-33 | with the default leading dimension, every element (i, j) lies in [ptr, ptr + m·n) |
| LegacySwap.BaseOffset | include/legacy_api/blas/swap.hpp:52-58 | the offset is 0 for a positive stride or an empty vector, and otherwise agrees with the code's (1 - n)·inc |
| LegacySwap.BaseOffsetAsWritten | include/legacy_api/blas/swap.hpp:53-58 | the offset as written: 0 for a positive stride, and for n = 0 with a negative stride the stride itself, a position before the array |
| LegacySwap.BaseOffsetAsWrittenEmpty | include/legacy_api/blas/swap.hpp:53-58 | as written, n = 0 with any negative stride gives a negative offset, before the array (for inc = -1, the offset -1) |
| LegacySwap.View | include/legacy_api/blas/swap.hpp:52-58 | the view built for the exchange has length n, the given stride and the base offset |
| LegacySwap.ViewInRange | include/legacy_api/blas/swap.hpp:21-36 | each logical element i < n is at a position in [0, (n-1)·\|inc\|]; it is i·inc for a positive stride and (n-1-i)·\|inc\| for a negative one, i.e. reversed |
| LegacySwap.AddressInjective | include/legacy_api/blas/swap.hpp:52-58 | with a non-zero stride, distinct logical elements are at distinct positions |
| LegacySwap.Swap | include/legacy_api/blas/swap.hpp:40-61 | fails iff a stride is zero, and then changes nothing; otherwise element i of x holds the old element i of y and the other way round for every i < n, and every other position of both arrays is unchanged |
| Lascl.LaterChecks | include/slate_api/lapack/lascl.hpp:74-102 | the checks after the first, in source order; for a dense type they pass iff 0 <= m <= lda, with -6 for m < 0 and -9 for lda < m; for a band type, -2 for kl outside [0, max(m-1, 0)], then -3 for ku outside [0, max(n-1, 0)] or for a symmetric band with kl != ku, then -6 for m < 0, then -9 iff lda is below kl+1 (LowerBand), ku+1 (UpperBand) or 2·kl+ku+1 (Band) |
| Lascl.Dispatch | include/slate_api/lapack/lascl.hpp:104-120 | the matrix-form call gets the m-by-n view with leading dimension lda, and each of the seven types goes to its own form: General, Lower, Upper, Hessenberg to theirs, LowerBand to the symmetric lower band of width kl, UpperBand to the symmetric upper band of width ku, Band to the (kl, ku) band |
| Lascl.LasclAsWritten | include/slate_api/lapack/lascl.hpp:57-123 | every band type returns -1; a dense type returns -6 for m < 0 and -9 for lda < m, and otherwise calls its own form (General, Lower, Upper or Hessenberg) and never a band form; n is not checked |
| Lascl.BandRejectedAsWritten | include/slate_api/lapack/lascl.hpp:69-73 | a band matrix with valid arguments is rejected with -1 as written, and dispatched to the band form by the corrected routine |
| Lascl.Lascl | include/slate_api/lapack/lascl.hpp:74-120 | with the first check accepting all seven types: an error code iff a later check fails, and then exactly that check's code, otherwise the dispatch; the dense types behave as written; for a band type, -2 for kl out of range, -3 for ku out of range or a symmetric band with kl != ku, -6 for m < 0, -9 for a short lda, and otherwise the call of its own band form (SymmetricLowerBand(kl), SymmetricUpperBand(ku) or BandMatrix(kl, ku)) |
| Lascl.DenseIgnoresN | include/slate_api/lapack/lascl.hpp:69-102 | for a dense type, whether an error is returned, and which one, does not depend on n |
| Herk.AccumulatedIsScaled | include/blas/herk.hpp:97-104 | the NoTrans accumulation Σ A(i,l)·(α·A(j,l)) equals α times the dot product of rows i and j |
| Herk.RowsDotSymmetric | include/blas/herk.hpp:15-24 | (A·Aᵀ)(i,j) == (A·Aᵀ)(j,i) |
| Herk.ColsDotSymmetric | include/blas/herk.hpp:15-24 | (Aᵀ·A)(i,j) == (Aᵀ·A)(j,i) |
| Herk.UpdateSymmetric | include/blas/herk.hpp:24-33 | on a symmetric C, the update of entry (i, j) equals that of (j, i), so either triangle describes the same symmetric result |
| Herk.ScaleRows | include/blas/herk.hpp:93-94 | the rows lo .. hi-1 of column j are multiplied by β, and nothing else changes |
| Herk.AddProducts | include/blas/herk.hpp:101-102 | the rows lo .. hi-1 of column j gain A(i,l)·α·A(j,l), and nothing else changes |
| Herk.NoTransColumn | include/blas/herk.hpp:91-122 | the rows lo .. hi-1 of column j end as α·(A·Aᵀ)(i,j) + β·C_old(i,j), and nothing else changes |
| Herk.ColumnsDot | include/blas/herk.hpp:130-132 | the inner sum is the dot product of columns i and j of A |
| Herk.ConjTransRows | include/blas/herk.hpp:129-134 | the off-diagonal rows lo .. hi-1 of column j end as α·(Aᵀ·A)(i,j) + β·C_old(i,j), and nothing else changes |
| Herk.ConjTransColumn | include/blas/herk.hpp:128-140 | the same for those rows and the diagonal entry (j, j), and nothing else changes |
| Herk.UpdateUpper | include/blas/herk.hpp:88-140 | every entry with i <= j is updated, and the strictly lower triangle is unchanged |
| Herk.UpdateLower | include/blas/herk.hpp:107-156 | every entry with i >= j is updated, and the strictly upper triangle is unchanged |
| Herk.MirrorUpper | include/blas/herk.hpp:159-164 | the strictly lower triangle becomes the transpose of the upper one, and the upper triangle with the diagonal is unchanged |
| Herk.Herk | include/blas/herk.hpp:62-165 | fails iff trans is Trans, C is not square or C's order is not n (nrows(A) for NoTrans, ncols(A) otherwise), and then leaves C unchanged; otherwise the referenced triangle is updated, Upper keeps the lower triangle, Lower keeps the upper one, and General leaves C symmetric |
| Lassq.Classify | include/lapack/lassq.hpp:110-115 | big iff ax > tbig, small iff ax < tsml, otherwise medium, a NaN included |
| Lassq.Magnitudes | include/lapack/lassq.hpp:107-109 | the loop reads absFunc(x[i]) for every i, in order |
| Lassq.Normalize | include/lapack/lassq.hpp:86-90 | (1, 0) when sumsq or scl is zero, the state itself otherwise; the value scl²·sumsq is kept and the scale ends non-zero |
| Lassq.FoldIsStep | include/lapack/lassq.hpp:107-127 | folding in the incoming state is one loop step on the magnitude scl·sqrt(sumsq): same classification, same scaling |
| Lassq.FoldAccumulates | include/lapack/lassq.hpp:107-127 | the loop followed by the fold-in gives the accumulators of the magnitudes followed by the incoming one |
| Lassq.IncomingSum | include/lapack/lassq.hpp:118-127 | the incoming state adds exactly scl²·sumsq to the sum of squares, and no NaN |
| Lassq.IncomingSquare | include/lapack/lassq.hpp:119-120 | the square of the incoming magnitude is scl²·sumsq |
| Lassq.AccumulateBig | include/lapack/lassq.hpp:107-116 | `abig` is the sum of (ax·sbig)² over the big magnitudes |
| Lassq.AccumulateMedium | include/lapack/lassq.hpp:107-116 | `amed` is a NaN iff a NaN was read; otherwise it is the sum of ax² over the medium magnitudes |
| Lassq.AccumulateSmall | include/lapack/lassq.hpp:107-116 | `asml` is never negative; until a big magnitude is read, it is the sum of (ax·ssml)² over the small magnitudes |
| Lassq.NoBigAccumulate | include/lapack/lassq.hpp:110-113 | without a big magnitude, `abig` stays exactly zero |
| Lassq.BucketPartition | include/lapack/lassq.hpp:107-116 | each number goes to exactly one bucket: the three bucket sums add up to the total sum of squares |
| Lassq.BigSumPositive | include/lapack/lassq.hpp:110-111 | the big sum is positive iff a big magnitude is present |
| Lassq.MergeBigExact | include/lapack/lassq.hpp:132-138 | with abig > 0 the scale is 1/sbig and the result stands for abig/sbig² + amed |
| Lassq.MergeMixExact | include/lapack/lassq.hpp:139-157 | with abig = 0, asml > 0 and amed > 0 the scale is 1 and ymax²·(1 + (ymin/ymax)²) equals asml/ssml² + amed |
| Lassq.MergeSmallExact | include/lapack/lassq.hpp:158-161 | with only asml > 0 the result is (1/ssml, asml), which stands for asml/ssml² |
| Lassq.MergeNoBigExact | include/lapack/lassq.hpp:139-167 | without a big sum the result stands for asml/ssml² + amed |
| Lassq.MergePoison | include/lapack/lassq.hpp:132-167 | a NaN in `amed` reaches the resulting sumsq on every branch |
| Lassq.MergeScalePositive | include/lapack/lassq.hpp:136-165 | the merge sets the scale to 1/sbig, 1/ssml or 1, all positive |
| Lassq.MergeExact | include/lapack/lassq.hpp:129-167 | for a lossless sequence (no NaN, no non-zero small magnitude next to a big one), the merged state stands for the exact sum of squares |
| Lassq.SpecExact | include/lapack/lassq.hpp:23-27 | the documented identity scl_out²·sumsq_out = Σ\|x_i\|² + scl_in²·sumsq_in, when nothing is lost |
| Lassq.SpecAllMedium | include/lapack/lassq.hpp:23-26 | when every magnitude and the incoming value are medium-range, the result is exactly (1, Σ\|x_i\|² + scl_in²·sumsq_in) |
| Lassq.SpecPoison | include/lapack/lassq.hpp:107-167 | a NaN magnitude makes the new sumsq a NaN |
| Lassq.SpecBigScale | include/lapack/lassq.hpp:132-138 | once a big magnitude is present, an element or the incoming state, the scale is 1/sbig |
| Lassq.MediumLossless | include/lapack/lassq.hpp:107-127 | a vector of zero or medium magnitudes never loses a small magnitude |
| Lassq.SpecScalePositive | include/lapack/lassq.hpp:86-167 | from a non-negative scale the resulting scale is positive |
| Lassq.MediumExact | include/lapack/lassq.hpp:23-27 | the documented identity holds for zero or medium magnitudes |
| Lassq.SpecLosslessStep | include/lapack/lassq.hpp:23-27 | one call on zero or medium magnitudes adds their squares to the value, keeping a positive scale and a non-negative sum |
| Lassq.Lassq | include/lapack/lassq.hpp:60-167 | the routine's result is `Spec`: a NaN state is returned as it is, an empty vector returns the normalised state, and otherwise the loop, fold-in and merge are applied |
| Lassq.LassqAbs | include/lapack/lassq.hpp:172-183 | the overload without absFunc is the general routine with `blas::abs` |
| Lanhe.MaxScanIsMax | include/lapack/lanhe.hpp:79-84 | the running maximum is a NaN iff a NaN was read; otherwise it is non-negative, bounds every magnitude, and is 0 or one of them |
| Lanhe.MaxScanStaysNaN | include/lapack/lanhe.hpp:82-83 | after a NaN is returned, later magnitudes do not matter |
| Lanhe.ColumnMagsAt | include/lapack/lanhe.hpp:73-121 | the loops over column j read exactly the stored entries of that column, top to bottom |
| Lanhe.EntryRead | include/lapack/lanhe.hpp:73-121 | every entry magnitude of the Hermitian matrix is read through its stored copy |
| Lanhe.ReadIsEntry | include/lapack/lanhe.hpp:73-121 | every magnitude read is that of some entry |
| Lanhe.MaxNormIsMax | include/lapack/lanhe.hpp:71-123 | the max norm is a NaN iff some entry magnitude is; otherwise it is non-negative, bounds every \|h_ki\|, and is 0 or one of them |
| Lanhe.MaxNormReadsTriangle | include/lapack/lanhe.hpp:73-121 | two matrices that agree on the stored triangle and the diagonal have the same max norm |
| Lanhe.UpperColumnMax | include/lapack/lanhe.hpp:75-95 | one Upper column extends the running maximum by its rows above the diagonal and then the diagonal, stopping at a NaN |
| Lanhe.LowerColumnMax | include/lapack/lanhe.hpp:100-120 | one Lower column extends the running maximum by the diagonal and then its rows below it, stopping at a NaN |
| Lanhe.MaxLoops | include/lapack/lanhe.hpp:71-123 | the max-norm loops compute `MaxNorm`, returning the first NaN at once |
| Lanhe.ChainSnoc | include/lapack/lanhe.hpp:131-136 | one more `lassq` call extends the chain of states by one vector |
| Lanhe.OffCall | include/lapack/lanhe.hpp:132 | the c-th off-diagonal call advances the chain by one column |
| Lanhe.UpperOffSums | include/lapack/lanhe.hpp:130-133 | the Upper loop leaves the chain over the columns' parts above the diagonal |
| Lanhe.LowerOffSums | include/lapack/lanhe.hpp:134-137 | the Lower loop leaves the chain over the columns' parts below the diagonal |
| Lanhe.FroLoops | include/lapack/lanhe.hpp:126-151 | the Frobenius branch computes `FroNorm` |
| Lanhe.ChainExact | include/lapack/lanhe.hpp:127-137 | with zero or medium magnitudes, the chain stands for the sum of all their squares |
| Lanhe.DoubleExact | include/lapack/lanhe.hpp:140-143 | either branch of the doubling doubles scale²·ssq |
| Lanhe.RootOfState | include/lapack/lanhe.hpp:151 | scale·sqrt(ssq) is the non-negative square root of the value the state stands for |
| Lanhe.FinishExact | include/lapack/lanhe.hpp:140-151 | the doubling, the diagonal call and the square root give sqrt(2v + Σ diagonal²) |
| Lanhe.FroExact | include/lapack/lanhe.hpp:126-151 | with zero or medium magnitudes, norm² = 2·Σ_off \|a_ij\|² + Σ_j \|Re a_jj\|², and the norm is non-negative |
| Lanhe.ChainPoison | include/lapack/lanhe.hpp:130-137 | a NaN magnitude in any off-diagonal vector leaves a NaN in the state |
| Lanhe.FinishPoison | include/lapack/lanhe.hpp:140-151 | a NaN state or a NaN diagonal magnitude makes the norm a NaN |
| Lanhe.FroPoison | include/lapack/lanhe.hpp:126-151 | a NaN magnitude anywhere in the stored triangle makes the Frobenius norm a NaN |
| Lanhe.RowIsCol | include/lapack/lanhe.hpp:194-231 | row i of the Hermitian matrix has the same absolute sum, term by term, as column i |
| Lanhe.InfIsOne | include/lapack/lanhe.hpp:157-235 | the infinity norm equals the one norm, which is why both are computed by the same code |
| Lanhe.RowSumsAreColSums | include/lapack/lanhe.hpp:194-231 | the row sums equal the column sums |
| Lanhe.PartialColIsSum | include/lapack/lanhe.hpp:194-231 | a partial column sum is a NaN iff one of its terms is; with non-negative terms it is non-negative and bounds each term |
| Lanhe.OneNormNaN | include/lapack/lanhe.hpp:205-231 | the one norm is a NaN iff some entry magnitude is |
| Lanhe.OneNormIsMax | include/lapack/lanhe.hpp:205-231 | with non-negative magnitudes, the one norm is one of the column sums, bounds every column sum, and bounds every entry magnitude |
| Lanhe.ZeroWork | include/lapack/lanhe.hpp:191-192 | work[0 .. n-1] is zeroed and the rest of work is unchanged |
| Lanhe.UpperColumnSums | include/lapack/lanhe.hpp:195-204 | after column j, work[i] holds the partial column sum of column i over rows 0 .. j, for each i <= j |
| Lanhe.ScanWork | include/lapack/lanhe.hpp:205-214 | the scan of a workspace holding the column sums returns the one norm |
| Lanhe.LowerColumnSums | include/lapack/lanhe.hpp:217-224 | column j's sum is completed, and each later row i gains entry (i, j) in its pending sum |
| Lanhe.UpperOneNorm | include/lapack/lanhe.hpp:194-214 | the Upper branch returns the one norm and leaves work[i] equal to column i's absolute sum |
| Lanhe.LowerOneNorm | include/lapack/lanhe.hpp:216-232 | the Lower branch returns the one norm, checking each column's sum inside the column loop |
| Lanhe.Lanhe | include/lapack/lanhe.hpp:39-155 | 0 for an empty matrix; otherwise the max norm or the Frobenius norm, as the tag asks |
| Lanhe.LanheWork | include/lapack/lanhe.hpp:157-235 | Max and Fro return the `lansy` result and leave work unchanged; One returns `OneNorm` and Inf returns `InfNorm`, with 0 for an empty matrix; work beyond n is never touched |

## Left out

- Rounding, overflow, underflow and infinities: `Float` is an exact real or a NaN. The thresholds exist to avoid overflow and underflow, and that purpose cannot be stated over exact reals. The values of `tsml`, `tbig`, `ssml`, `sbig` and `safe_max` come from blas/constants.hpp, which is not part of this model; they are parameters with positivity and `tsml < tbig` assumed.
- `sqrt` is the `Traits.sqrt` parameter, assumed to be the non-negative square root. The other numeric wrappers of utils.hpp (`sin`, `cos`, `atan`, `exp`, `pow`) and all MPFR specialisations call foreign code and are not modelled.
- `blas::Error`, `blas::error`, the message formatting of `error_if` and the `blas_error_if` macros are not modelled: a failed check is the outcome `Failure`. `lapack_error_if` returns the error code, as `lascl` documents.
- The variant of `max`/`min` over mixed argument types is modelled for one scalar type.
- `lansy`, the target of the workspace `lanhe` redirect, is not part of this model. Its result is the `lansy` parameter of `Lanhe.LanheWork`.
- The matrix-form `lascl` routines behind the dispatch are not part of this model. `Lascl.Lascl` records which one is called, and on which view.
- The element-access operators of the legacy descriptors (legacy_api/legacyArray.hpp) and the generic `blas::swap` body are not part of this model. Addresses are the column-major, row-major and strided formulas; the exchange follows the routine's documentation.
- Direction semantics of `legacyVector` are not modelled: the direction is only recorded.
- Herk.Herk: real scalars only, over exact reals without a NaN. NaN propagation is therefore not modelled: with beta = 0 and a NaN in C, `C(i,j) *= beta` at herk.hpp line 93 keeps a NaN, while the model gives α·(A·Aᵀ)(i,j). `conj` and `real` are the identity, so the imaginary parts of the diagonal are not modelled. The read and write access policies (herk.hpp lines 85-86) are not modelled. The optimised-backend overload (lines 167-198) is left out because it forwards to a legacy BLAS.
- Herk.Herk and LegacySwap.Swap require the two arrays to be distinct. Aliased arguments are not modelled.
- Lassq.Lassq works on a `seq` and a magnitude function. The strided form (n, x, incx) of the documentation is not a separate overload in this file.
- Lassq.SpecExact states the exact sum of squares only for a lossless call: no NaN, and no non-zero small magnitude alongside a big one (the incoming state counts as one more magnitude). Otherwise Blue's method drops the small magnitudes by design, and only `Lassq.SpecBigScale` and the bucket lemmas describe the result.
- Lassq.MediumExact, Lanhe.ChainExact, Lanhe.FinishExact and Lanhe.FroExact state the exact sum of squares only when every magnitude is zero or medium (in [tsml, tbig]). That is a strictly smaller domain than the one on which the result is exact; a 1-by-1 matrix with a small non-zero entry, for example, is exact but not covered. The Frobenius norm chains one `lassq` call per column. Each call feeds its state into the next one as the incoming magnitude, so whether a call loses a small entry depends on the running sum, not only on the entries. Many medium entries can make that state big, and a later small entry is then dropped even though no entry is big. The zero-or-medium condition keeps every call lossless whatever the running state; a condition on the entries alone does not.
- Lanhe.LowerOneNorm: the contents of `work[0 .. n-1]` after the Lower branch are not stated. Only the result and the untouched tail are.
- Lanhe.Lanhe and Lanhe.LanheWork take the matrix as a square `seq<seq<T>>`: `A` is only read, and the routine reads n = nrows(A) as its order.
- include/lapack/potrs.hpp and include/lapack/lapy2.hpp are not part of this model.

## Findings

| source | as written | input that shows it | evidently intended | confidence | as-written member | corrected member |
|---|---|---|---|---|---|---|
| include/legacy_api/blas/swap.hpp:53-58 | the base offset for a non-positive stride is (1 - n)·inc, also when n = 0 | n = 0, incx = -1: the view starts at &x[-1], before the array | offset 0 for an empty vector, as for a positive stride | not executed; medium: nothing is read through the view, but the address formed is out of range | LegacySwap.BaseOffsetAsWrittenEmpty | LegacySwap.BaseOffset |
| include/slate_api/lapack/lascl.hpp:69-73 | the first check rejects every type except General, Lower, Upper and Hessenberg, so the band checks (lines 74-93, 100-102) and the band dispatch (lines 115-120) can never run | matrixtype = Band, kl = ku = 0, m = n = lda = 1 returns -1 | accept all seven documented matrix types, as reference LAPACK `xLASCL` does | not executed; high | Lascl.BandRejectedAsWritten | Lascl.Lascl |
