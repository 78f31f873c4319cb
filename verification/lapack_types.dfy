/** The enumerations of include/lapack/types.hpp and the tag types that
    convert to them. The `Op`, `Diag`, `Side` and `Uplo` enumerations are
    defined in blas/types.hpp, which is not part of this model; only their
    constructors are used here.
 */
module LapackTypes {

  datatype Op = NoTrans | Trans | ConjTrans
  datatype Diag = NonUnit | Unit
  datatype Side = Left | Right
  datatype Uplo = Upper | Lower | General

  /** `enum class Norm`, with the character code of each value. */
  datatype Norm = One | Two | Inf | Fro | Max

  function NormCode(n: Norm): (c: char)
    ensures c in {'1', '2', 'I', 'F', 'M'}
    ensures NormOfCode(c) == Some(n)
  {
    match n
    case One => '1'
    case Two => '2'
    case Inf => 'I'
    case Fro => 'F'
    case Max => 'M'
  }

  /** The value whose code is `c`, if there is one. */
  function NormOfCode(c: char): (r: Option<Norm>)
    ensures r.Some? <==> c in {'1', '2', 'I', 'F', 'M'}
  {
    if c == '1' then Some(One)
    else if c == '2' then Some(Two)
    else if c == 'I' then Some(Inf)
    else if c == 'F' then Some(Fro)
    else if c == 'M' then Some(Max)
    else None
  }

  datatype Option<T> = None | Some(value: T)

  /** The codes are pairwise distinct. */
  lemma NormCodeInjective(a: Norm, b: Norm)
    ensures NormCode(a) == NormCode(b) <==> a == b
  {
  }

  /** The norm tag types `max_norm_t`, `one_norm_t`, `inf_norm_t` and
      `frob_norm_t` and their conversion to `Norm`. */
  datatype NormTag = MaxNormTag | OneNormTag | InfNormTag | FrobNormTag

  function NormOfTag(tag: NormTag): (n: Norm)
    ensures n != Two
    ensures n == Max <==> tag == MaxNormTag
    ensures n == One <==> tag == OneNormTag
    ensures n == Inf <==> tag == InfNormTag
    ensures n == Fro <==> tag == FrobNormTag
  {
    match tag
    case MaxNormTag => Max
    case OneNormTag => One
    case InfNormTag => Inf
    case FrobNormTag => Fro
  }

  /** Distinct tags convert to distinct norms, and every norm but `Two` has a
      tag. */
  lemma NormTagsDistinct(a: NormTag, b: NormTag)
    ensures NormOfTag(a) == NormOfTag(b) <==> a == b
  {
  }

  lemma NormTagsCover(n: Norm)
    requires n != Two
    ensures exists tag :: NormOfTag(tag) == n
  {
    match n
    case One => assert NormOfTag(OneNormTag) == One;
    case Inf => assert NormOfTag(InfNormTag) == Inf;
    case Fro => assert NormOfTag(FrobNormTag) == Fro;
    case Max => assert NormOfTag(MaxNormTag) == Max;
  }

  /** `enum class Direction` and its tags `forward_t` and `backward_t`. */
  datatype Direction = Forward | Backward

  function DirectionCode(d: Direction): (c: char)
    ensures c == 'F' || c == 'B'
    ensures c == 'F' <==> d == Forward
  {
    match d
    case Forward => 'F'
    case Backward => 'B'
  }

  datatype DirectionTag = ForwardTag | BackwardTag

  function DirectionOfTag(tag: DirectionTag): (d: Direction)
    ensures DirectionCode(d) == (if tag == ForwardTag then 'F' else 'B')
  {
    match tag
    case ForwardTag => Forward
    case BackwardTag => Backward
  }

  /** `enum class StoreV` and its tags `columnwise_storage_t` and
      `rowwise_storage_t`. */
  datatype StoreV = Columnwise | Rowwise

  function StoreVCode(s: StoreV): (c: char)
    ensures c == 'C' || c == 'R'
    ensures c == 'C' <==> s == Columnwise
  {
    match s
    case Columnwise => 'C'
    case Rowwise => 'R'
  }

  datatype StoreVTag = ColumnwiseTag | RowwiseTag

  function StoreVOfTag(tag: StoreVTag): (s: StoreV)
    ensures StoreVCode(s) == (if tag == ColumnwiseTag then 'C' else 'R')
  {
    match tag
    case ColumnwiseTag => Columnwise
    case RowwiseTag => Rowwise
  }

  /** The codes of `Direction` and of `StoreV` are distinct within each
      enumeration. */
  lemma CodesDistinct(d1: Direction, d2: Direction, s1: StoreV, s2: StoreV)
    ensures DirectionCode(d1) == DirectionCode(d2) <==> d1 == d2
    ensures StoreVCode(s1) == StoreVCode(s2) <==> s1 == s2
  {
  }

  /** The operation tags `noTranspose_t`, `transpose_t`, `conjTranspose_t`. */
  datatype OpTag = NoTransposeTag | TransposeTag | ConjTransposeTag

  function OpOfTag(tag: OpTag): (op: Op)
    ensures (op == NoTrans <==> tag == NoTransposeTag)
      && (op == Trans <==> tag == TransposeTag)
      && (op == ConjTrans <==> tag == ConjTransposeTag)
  {
    match tag
    case NoTransposeTag => NoTrans
    case TransposeTag => Trans
    case ConjTransposeTag => ConjTrans
  }

  /** The diagonal tags `nonUnit_diagonal_t` and `unit_diagonal_t`. */
  datatype DiagTag = NonUnitDiagonalTag | UnitDiagonalTag

  function DiagOfTag(tag: DiagTag): (d: Diag)
    ensures d == Unit <==> tag == UnitDiagonalTag
  {
    match tag
    case NonUnitDiagonalTag => NonUnit
    case UnitDiagonalTag => Unit
  }

  /** The side tags `left_side_t` and `right_side_t`. */
  datatype SideTag = LeftSideTag | RightSideTag

  function SideOfTag(tag: SideTag): (s: Side)
    ensures s == Left <==> tag == LeftSideTag
  {
    match tag
    case LeftSideTag => Left
    case RightSideTag => Right
  }
}
