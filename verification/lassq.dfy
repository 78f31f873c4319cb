/** The scaled sum-of-squares update `lassq` (include/lapack/lassq.hpp).

    The state is the pair (scl, sumsq), which stands for the value
    scl^2 * sumsq. One call adds the squared magnitudes of a vector to that
    value with Blue's three accumulators: magnitudes above `tbig` are scaled
    down by `sbig` before squaring, magnitudes below `tsml` are scaled up by
    `ssml`, and the rest are squared unscaled. The accumulators are then
    merged in priority order big, small, medium.
 */
module Lassq {
  import opened Floats
  import BlasUtils

  /** Which of Blue's accumulators a magnitude goes to. */
  datatype Bucket = Big | Medium | Small

  /** The classification of lines 110-115: `ax > tbig` is big, otherwise
      `ax < tsml` is small, otherwise medium. A NaN fails both comparisons
      and is therefore medium. */
  function Classify(t: Traits, ax: Float): (b: Bucket)
    requires t.Valid()
    ensures b == Big <==> Gt(ax, Num(t.tbig))
    ensures b == Small <==> Lt(ax, Num(t.tsml))
    ensures b == Medium <==> ax.NaN? || t.tsml <= ax.val <= t.tbig
  {
    if Gt(ax, Num(t.tbig)) then Big
    else if Lt(ax, Num(t.tsml)) then Small
    else Medium
  }

  /** The three accumulators of lines 103-105. */
  datatype Acc = Acc(asml: Float, amed: Float, abig: Float)

  const Zero := Num(0.0)
  const One := Num(1.0)

  /** One iteration of the loop at lines 107-116. A small magnitude is
      discarded once `abig` is non-zero. */
  function Step(t: Traits, acc: Acc, ax: Float): Acc
    requires t.Valid()
  {
    match Classify(t, ax)
    case Big => acc.(abig := Add(acc.abig, Square(Mul(ax, Num(t.sbig)))))
    case Small =>
      if Eq(acc.abig, Zero) then acc.(asml := Add(acc.asml, Square(Mul(ax, Num(t.ssml)))))
      else acc
    case Medium => acc.(amed := Add(acc.amed, Square(ax)))
  }

  /** The accumulators after the loop has seen the magnitudes `mags`, in order. */
  function Accumulate(t: Traits, mags: seq<Float>): Acc
    requires t.Valid()
  {
    if mags == [] then Acc(Zero, Zero, Zero)
    else Step(t, Accumulate(t, mags[..|mags| - 1]), mags[|mags| - 1])
  }

  /** The magnitudes `absFunc(x[i])` the loop reads, in order. */
  function Magnitudes<T>(x: seq<T>, absFunc: T -> Float): (mags: seq<Float>)
    ensures |mags| == |x|
    ensures forall i :: 0 <= i < |x| ==> mags[i] == absFunc(x[i])
  {
    seq(|x|, i requires 0 <= i < |x| => absFunc(x[i]))
  }

  /** The entry normalisation of lines 86-90 of a state that is not NaN. It
      keeps the value scl^2 * sumsq and leaves a non-zero scale. */
  function Normalize(scl: Float, sumsq: Float): (r: (Float, Float))
    requires scl.Num? && sumsq.Num?
    ensures r.0.Num? && r.1.Num? && r.0.val != 0.0
    ensures Sqr(r.0.val) * r.1.val == Sqr(scl.val) * sumsq.val
    ensures sumsq.val >= 0.0 ==> r.1.val >= 0.0
    ensures scl.val >= 0.0 ==> r.0.val > 0.0
    ensures sumsq.val == 0.0 || scl.val == 0.0 ==> r == (One, Zero)
    ensures sumsq.val != 0.0 && scl.val != 0.0 ==> r == (scl, sumsq)
  {
    var s := if Eq(sumsq, Zero) then One else scl;
    if Eq(s, Zero) then (One, Zero) else (s, sumsq)
  }

  /** The magnitude scl * sqrt(sumsq) that stands for the incoming state at
      lines 119-127. */
  function IncomingMagnitude(t: Traits, scl: Float, sumsq: Float): Float
    requires t.RootValid()
  {
    Mul(scl, Sqrt(t, sumsq))
  }

  /** Lines 118-127: fold the incoming state into the accumulators. */
  function FoldIncoming(t: Traits, acc: Acc, scl: Float, sumsq: Float): Acc
    requires t.Valid() && t.RootValid()
  {
    if Gt(sumsq, Zero) then
      match Classify(t, IncomingMagnitude(t, scl, sumsq))
      case Big => acc.(abig := Add(acc.abig, Mul(Square(Mul(scl, Num(t.sbig))), sumsq)))
      case Small =>
        if Eq(acc.abig, Zero) then acc.(asml := Add(acc.asml, Mul(Square(Mul(scl, Num(t.ssml))), sumsq)))
        else acc
      case Medium => acc.(amed := Add(acc.amed, Mul(Square(scl), sumsq)))
    else acc
  }

  /** Lines 129-167: combine the accumulators into the new (scl, sumsq).
      `abig` dominates; otherwise `asml` and `amed` are combined as
      ymax^2 * (1 + (ymin/ymax)^2); otherwise the result is `amed`. */
  function Merge(t: Traits, acc: Acc): (r: (Float, Float))
    requires t.Valid() && t.RootValid()
  {
    if Gt(acc.abig, Zero) then
      var abig := if Gt(acc.amed, Zero) || acc.amed.NaN?
        then Add(acc.abig, Mul(Mul(acc.amed, Num(t.sbig)), Num(t.sbig)))
        else acc.abig;
      (Num(1.0 / t.sbig), abig)
    else if Gt(acc.asml, Zero) then
      if Gt(acc.amed, Zero) || acc.amed.NaN? then
        var amed := Sqrt(t, acc.amed);
        var asml := Div(Sqrt(t, acc.asml), Num(t.ssml));
        assert asml.Num? && asml.val * t.ssml > 0.0;
        var ymin := if Gt(asml, amed) then amed else asml;
        var ymax := if Gt(asml, amed) then asml else amed;
        (One, Mul(Square(ymax), Add(One, Square(Div(ymin, ymax)))))
      else
        (Num(1.0 / t.ssml), acc.asml)
    else
      (One, acc.amed)
  }

  /** The result of `lassq` for the magnitudes `mags` and the state
      (scl, sumsq): a NaN state is returned as it is, an empty vector leaves
      the normalised state, and otherwise the accumulators of the magnitudes
      followed by the incoming state are merged. `FoldIsStep` shows that
      folding the incoming state in at lines 118-127 is one more loop step. */
  function Spec(t: Traits, mags: seq<Float>, scl: Float, sumsq: Float): (Float, Float)
    requires t.Valid() && t.RootValid()
  {
    if scl.NaN? || sumsq.NaN? then (scl, sumsq)
    else if |mags| == 0 then Normalize(scl, sumsq)
    else Merge(t, Accumulate(t, mags + Incoming(t, scl, sumsq)))
  }

  /** The incoming state, after normalisation, as the list of extra
      magnitudes the routine folds in: one magnitude scl * sqrt(sumsq) when
      sumsq > 0, none otherwise. */
  function Incoming(t: Traits, scl: Float, sumsq: Float): (inc: seq<Float>)
    requires t.Valid() && t.RootValid() && scl.Num? && sumsq.Num?
    ensures |inc| <= 1
  {
    var st := Normalize(scl, sumsq);
    if Gt(st.1, Zero) then [IncomingMagnitude(t, st.0, st.1)] else []
  }

  /** The state `st` = (scl, sumsq) has no NaN and stands for the value
      scl^2 * sumsq == v. */
  predicate StandsFor(st: (Float, Float), v: real) {
    st.0.Num? && st.1.Num? && Sqr(st.0.val) * st.1.val == v
  }

  // ---------------------------------------------------------------------------
  // Exact sums of squares

  /** The sum of the squares of `v`. */
  function SumSquares(v: seq<real>): (r: real)
    ensures r >= 0.0
  {
    if v == [] then 0.0
    else SumSquares(v[..|v| - 1]) + Sqr(v[|v| - 1])
  }

  /** The sum of the squares of `v`, each number multiplied by `c` first. */
  function ScaledSquares(v: seq<real>, c: real): real
  {
    if v == [] then 0.0
    else ScaledSquares(v[..|v| - 1], c) + Sqr(v[|v| - 1] * c)
  }

  lemma SumSquaresSnoc(v: seq<real>, x: real)
    ensures SumSquares(v + [x]) == SumSquares(v) + Sqr(x)
  {
    assert (v + [x])[..|v|] == v;
  }

  lemma ScaledSquaresSnoc(v: seq<real>, x: real, c: real)
    ensures ScaledSquares(v + [x], c) == ScaledSquares(v, c) + Sqr(x * c)
  {
    assert (v + [x])[..|v|] == v;
  }

  /** Appending a non-zero number makes the sum of squares grow. */
  lemma SumSquaresGrows(v: seq<real>, x: real)
    requires x != 0.0
    ensures SumSquares(v + [x]) > SumSquares(v)
  {
    SumSquaresSnoc(v, x);
    SqrPositive(x);
  }

  lemma Distribute(c: real, x: real, y: real, z: real)
    requires z == x + y
    ensures c * z == c * x + c * y
  {
  }

  /** Scaling every number by `c` scales the sum of squares by c^2. */
  lemma {:induction false} ScaledSquaresIsScaled(v: seq<real>, c: real)
    ensures ScaledSquares(v, c) == Sqr(c) * SumSquares(v)
    decreases |v|
  {
    if v != [] {
      var p, x := v[..|v| - 1], v[|v| - 1];
      ScaledSquaresIsScaled(p, c);
      SqrProduct(x, c);
      Distribute(Sqr(c), SumSquares(p), Sqr(x), SumSquares(v));
    }
  }

  /** The numbers of `s` (NaNs dropped), in order. */
  function Nums(s: seq<Float>): seq<real>
  {
    if s == [] then []
    else Nums(s[..|s| - 1]) + (if s[|s| - 1].Num? then [s[|s| - 1].val] else [])
  }

  /** The numbers of `s` that go to bucket `b`, in order. */
  function Values(t: Traits, s: seq<Float>, b: Bucket): seq<real>
    requires t.Valid()
  {
    if s == [] then []
    else Values(t, s[..|s| - 1], b) + Pick(t, s[|s| - 1], b)
  }

  /** The number of magnitude `m` if it goes to bucket `b`. */
  function Pick(t: Traits, m: Float, b: Bucket): (v: seq<real>)
    requires t.Valid()
    ensures |v| <= 1
  {
    if m.Num? && Classify(t, m) == b then [m.val] else []
  }

  /** The sum of the squares of the numbers in `s`. */
  function SumSq(s: seq<Float>): real
  {
    SumSquares(Nums(s))
  }

  /** The sum of the squares of the numbers in `s` that go to bucket `b`. */
  function BucketSum(t: Traits, s: seq<Float>, b: Bucket): real
    requires t.Valid()
  {
    SumSquares(Values(t, s, b))
  }

  ghost predicate AnyBig(t: Traits, s: seq<Float>)
    requires t.Valid()
  {
    exists m | m in s :: Classify(t, m) == Big
  }

  lemma InSnoc(p: seq<Float>, m: Float)
    ensures forall e :: e in p + [m] <==> e in p || e == m
  {
  }

  lemma AnyBigSnoc(t: Traits, p: seq<Float>, m: Float)
    requires t.Valid()
    ensures AnyBig(t, p + [m]) <==> AnyBig(t, p) || Classify(t, m) == Big
  {
    InSnoc(p, m);
    if AnyBig(t, p + [m]) {
      var e :| e in p + [m] && Classify(t, e) == Big;
      assert e in p || e == m;
    }
  }

  /** Appending a magnitude appends its number to its own bucket only. */
  lemma ValuesSnoc(t: Traits, p: seq<Float>, m: Float, b: Bucket)
    requires t.Valid()
    ensures m.Num? && Classify(t, m) == b ==> Values(t, p + [m], b) == Values(t, p, b) + [m.val]
    ensures !(m.Num? && Classify(t, m) == b) ==> Values(t, p + [m], b) == Values(t, p, b)
  {
    assert (p + [m])[..|p|] == p;
    assert Values(t, p, b) + [] == Values(t, p, b);
  }

  lemma ValuesPick(t: Traits, p: seq<Float>, m: Float, b: Bucket)
    requires t.Valid()
    ensures Values(t, p + [m], b) == Values(t, p, b) + Pick(t, m, b)
  {
    assert (p + [m])[..|p|] == p;
  }

  /** Appending a magnitude appends its number, if it has one. */
  lemma NumsSnoc(p: seq<Float>, m: Float)
    ensures m.Num? ==> Nums(p + [m]) == Nums(p) + [m.val]
    ensures m.NaN? ==> Nums(p + [m]) == Nums(p)
  {
    assert (p + [m])[..|p|] == p;
    assert Nums(p) + [] == Nums(p);
  }

  /** Every number lands in exactly one bucket, so the three bucket sums
      partition the sum of squares. */
  lemma {:induction false} BucketPartition(t: Traits, s: seq<Float>)
    requires t.Valid()
    ensures SumSq(s) == BucketSum(t, s, Big) + BucketSum(t, s, Medium) + BucketSum(t, s, Small)
    decreases |s|
  {
    if s != [] {
      var p, m := s[..|s| - 1], s[|s| - 1];
      assert s == p + [m];
      BucketPartition(t, p);
      ValuesSnoc(t, p, m, Big);
      ValuesSnoc(t, p, m, Medium);
      ValuesSnoc(t, p, m, Small);
      NumsSnoc(p, m);
      if m.Num? {
        var x := m.val;
        SumSquaresSnoc(Nums(p), x);
        SumSquaresSnoc(Values(t, p, Classify(t, m)), x);
        assert SumSq(s) == SumSq(p) + Sqr(x);
        assert BucketSum(t, s, Classify(t, m)) == BucketSum(t, p, Classify(t, m)) + Sqr(x);
      }
    }
  }

  /** The big sum is positive exactly when a big magnitude is present. */
  lemma {:induction false} BigSumPositive(t: Traits, s: seq<Float>)
    requires t.Valid()
    ensures BucketSum(t, s, Big) > 0.0 <==> AnyBig(t, s)
    decreases |s|
  {
    if s != [] {
      var p, m := s[..|s| - 1], s[|s| - 1];
      BigSumPositive(t, p);
      assert s == p + [m];
      AnyBigSnoc(t, p, m);
      ValuesSnoc(t, p, m, Big);
      if Classify(t, m) == Big {
        SumSquaresGrows(Values(t, p, Big), m.val);
      }
    }
  }

  /** A bucket no magnitude goes to has sum zero. */
  lemma {:induction false} EmptyBucket(t: Traits, s: seq<Float>, b: Bucket)
    requires t.Valid()
    requires forall m | m in s :: Classify(t, m) != b
    ensures Values(t, s, b) == []
    decreases |s|
  {
    if s != [] {
      EmptyBucket(t, s[..|s| - 1], b);
    }
  }

  // ---------------------------------------------------------------------------
  // What the loop leaves in the accumulators

  /** One loop step keeps `abig` equal to the scaled big sum. */
  lemma StepBig(t: Traits, a: Acc, m: Float, v: seq<real>)
    requires t.Valid() && a.abig.Num? && a.abig.val == ScaledSquares(v, t.sbig)
    ensures Step(t, a, m).abig.Num?
    ensures Step(t, a, m).abig.val == ScaledSquares(v + Pick(t, m, Big), t.sbig)
  {
    if Classify(t, m) == Big {
      ScaledSquaresSnoc(v, m.val, t.sbig);
    } else {
      assert v + [] == v;
    }
  }


  /** `abig` is the sum of the big magnitudes' squares, each scaled by sbig. */
  lemma {:induction false} AccumulateBig(t: Traits, s: seq<Float>)
    requires t.Valid()
    ensures Accumulate(t, s).abig.Num?
    ensures Accumulate(t, s).abig.val == ScaledSquares(Values(t, s, Big), t.sbig)
    decreases |s|
  {
    if s != [] {
      var p, m := s[..|s| - 1], s[|s| - 1];
      AccumulateBig(t, p);
      assert s == p + [m];
      StepBig(t, Accumulate(t, p), m, Values(t, p, Big));
      ValuesPick(t, p, m, Big);
    }
  }

  /** One loop step keeps `amed` equal to the medium sum, or NaN once a NaN
      has been seen. */
  lemma StepMedium(t: Traits, a: Acc, m: Float, v: seq<real>, nan: bool)
    requires t.Valid()
    requires a.amed.NaN? <==> nan
    requires a.amed.Num? ==> a.amed.val == SumSquares(v)
    ensures Step(t, a, m).amed.NaN? <==> nan || m.NaN?
    ensures Step(t, a, m).amed.Num? ==> Step(t, a, m).amed.val == SumSquares(v + Pick(t, m, Medium))
  {
    if m.Num? && Classify(t, m) == Medium {
      SumSquaresSnoc(v, m.val);
    } else {
      assert v + [] == v;
    }
  }


  /** A NaN magnitude poisons exactly `amed`; otherwise `amed` is the
      medium sum. */
  lemma {:induction false} AccumulateMedium(t: Traits, s: seq<Float>)
    requires t.Valid()
    ensures Accumulate(t, s).amed.NaN? <==> NaN in s
    ensures Accumulate(t, s).amed.Num? ==> Accumulate(t, s).amed.val == BucketSum(t, s, Medium)
    decreases |s|
  {
    if s != [] {
      var p, m := s[..|s| - 1], s[|s| - 1];
      AccumulateMedium(t, p);
      assert s == p + [m];
      StepMedium(t, Accumulate(t, p), m, Values(t, p, Medium), NaN in p);
      ValuesPick(t, p, m, Medium);
      InSnoc(p, m);
    }
  }

  /** Until a big magnitude arrives, `abig` stays exactly zero. */
  lemma NoBigAccumulate(t: Traits, s: seq<Float>)
    requires t.Valid() && !AnyBig(t, s)
    ensures Accumulate(t, s).abig == Zero
  {
    AccumulateBig(t, s);
    EmptyBucket(t, s, Big);
  }

  /** One loop step keeps `asml` non-negative, and keeps it equal to the
      scaled small sum while `abig` is zero. */
  lemma StepSmall(t: Traits, a: Acc, m: Float, v: seq<real>)
    requires t.Valid() && a.asml.Num? && a.asml.val >= 0.0
    ensures Step(t, a, m).asml.Num? && Step(t, a, m).asml.val >= 0.0
    ensures a.abig == Zero && a.asml.val == ScaledSquares(v, t.ssml) ==>
      Step(t, a, m).asml.val == ScaledSquares(v + Pick(t, m, Small), t.ssml)
  {
    if Classify(t, m) == Small {
      ScaledSquaresSnoc(v, m.val, t.ssml);
    } else {
      assert v + [] == v;
    }
  }


  /** `asml` is never negative, and until a big magnitude arrives it is the
      sum of the small magnitudes' squares, each scaled by ssml; afterwards
      small magnitudes are dropped. */
  lemma {:induction false} AccumulateSmall(t: Traits, s: seq<Float>)
    requires t.Valid()
    ensures Accumulate(t, s).asml.Num? && Accumulate(t, s).asml.val >= 0.0
    ensures !AnyBig(t, s) ==> Accumulate(t, s).asml.val == ScaledSquares(Values(t, s, Small), t.ssml)
    decreases |s|
  {
    if s != [] {
      var p, m := s[..|s| - 1], s[|s| - 1];
      AccumulateSmall(t, p);
      assert s == p + [m];
      StepSmall(t, Accumulate(t, p), m, Values(t, p, Small));
      ValuesPick(t, p, m, Small);
      if !AnyBig(t, s) {
        AnyBigSnoc(t, p, m);
        NoBigAccumulate(t, p);
      }
    }
  }

  // ---------------------------------------------------------------------------
  // The merge of the accumulators

  /** With `abig > 0` the result stands for abig/sbig^2 + amed. */
  lemma MergeBigExact(t: Traits, a: Acc, big: real)
    requires t.Valid() && t.RootValid()
    requires a.abig.Num? && a.amed.Num? && a.amed.val >= 0.0
    requires big > 0.0 && a.abig.val == Sqr(t.sbig) * big
    ensures Merge(t, a).0 == Num(1.0 / t.sbig) && Merge(t, a).1.Num?
    ensures Sqr(Merge(t, a).0.val) * Merge(t, a).1.val == big + a.amed.val
  {
    SqrPositive(t.sbig);
    MulPos(Sqr(t.sbig), big);
    ScaleTwice(a.amed.val, t.sbig);
    Distribute(Sqr(t.sbig), big, a.amed.val, big + a.amed.val);
    Unscale(t.sbig, big + a.amed.val, Merge(t, a).1.val);
  }

  lemma MulPos(a: real, b: real)
    requires a > 0.0 && b > 0.0
    ensures a * b > 0.0
  {
  }

  /** (a*c)*c == c^2 * a. */
  lemma ScaleTwice(a: real, c: real)
    ensures (a * c) * c == Sqr(c) * a
  {
  }

  /** (1/c)^2 * (c^2 * x) == x. */
  lemma Unscale(c: real, x: real, y: real)
    requires c > 0.0 && y == Sqr(c) * x
    ensures Sqr(1.0 / c) * y == x
  {
    var k := 1.0 / c;
    assert k * c == 1.0;
    SqrProduct(k, c);
    assert Sqr(k) * y == Sqr(k * c) * x;
  }

  /** With `abig == 0` and `asml, amed > 0` the result is (1, ymax^2 (1 +
      (ymin/ymax)^2)), which stands for asml/ssml^2 + amed. */
  lemma MergeMixExact(t: Traits, a: Acc, small: real)
    requires t.Valid() && t.RootValid()
    requires a.abig == Zero && a.amed.Num? && a.amed.val > 0.0
    requires a.asml.Num? && a.asml.val > 0.0 && a.asml.val == Sqr(t.ssml) * small
    ensures Merge(t, a).0 == One && Merge(t, a).1.Num?
    ensures Merge(t, a).1.val == small + a.amed.val
  {
    SmallRoot(t, a.asml, small);
    PairValue(Div(Sqrt(t, a.asml), Num(t.ssml)), Sqrt(t, a.amed));
  }

  /** sqrt(asml)/ssml is positive and squares to asml/ssml^2. */
  lemma SmallRoot(t: Traits, asml: Float, small: real)
    requires t.Valid() && t.RootValid()
    requires asml.Num? && asml.val > 0.0 && asml.val == Sqr(t.ssml) * small
    ensures Div(Sqrt(t, asml), Num(t.ssml)).Num?
    ensures Div(Sqrt(t, asml), Num(t.ssml)).val > 0.0
    ensures Sqr(Div(Sqrt(t, asml), Num(t.ssml)).val) == small
  {
    var su := Sqrt(t, asml);
    var sa := Div(su, Num(t.ssml));
    assert sa.val * t.ssml == su.val;
    ScaledRoot(t.ssml, sa.val, su.val, small);
  }

  /** The combination ymax^2 (1 + (ymin/ymax)^2) of two positive roots is
      the sum of their squares. */
  lemma PairValue(sa: Float, sm: Float)
    requires sa.Num? && sm.Num? && sa.val > 0.0 && sm.val > 0.0
    ensures var ymin := if Gt(sa, sm) then sm else sa;
            var ymax := if Gt(sa, sm) then sa else sm;
            Mul(Square(ymax), Add(One, Square(Div(ymin, ymax)))) == Num(Sqr(sa.val) + Sqr(sm.val))
  {
    var ymin := if Gt(sa, sm) then sm else sa;
    var ymax := if Gt(sa, sm) then sa else sm;
    var q := Div(ymin, ymax);
    assert q.val * ymax.val == ymin.val;
    TwoSquares(ymin.val, ymax.val, q.val);
  }

  lemma ScaledRoot(c: real, x: real, u: real, y: real)
    requires c > 0.0 && x * c == u && Sqr(u) == Sqr(c) * y
    ensures Sqr(x) == y
  {
    SqrProduct(x, c);
    CancelSquare(c, Sqr(x), y);
  }

  lemma CancelSquare(c: real, x: real, y: real)
    requires c != 0.0 && Sqr(c) * x == Sqr(c) * y
    ensures x == y
  {
    SqrPositive(c);
    assert (x - y) * Sqr(c) == 0.0;
    ZeroProduct(x - y, Sqr(c));
  }

  /** ymax^2 (1 + (ymin/ymax)^2) == ymax^2 + ymin^2, with q == ymin/ymax. */
  lemma TwoSquares(ymin: real, ymax: real, q: real)
    requires q * ymax == ymin
    ensures Sqr(ymax) * (1.0 + Sqr(q)) == Sqr(ymax) + Sqr(ymin)
  {
    SqrProduct(q, ymax);
  }

  /** With `abig == 0`, `asml > 0` and `amed == 0` the result is
      (1/ssml, asml), which stands for asml/ssml^2. */
  lemma MergeSmallExact(t: Traits, a: Acc, small: real)
    requires t.Valid() && t.RootValid()
    requires a.abig == Zero && a.amed == Zero
    requires a.asml.Num? && a.asml.val > 0.0 && a.asml.val == Sqr(t.ssml) * small
    ensures Merge(t, a) == (Num(1.0 / t.ssml), a.asml)
    ensures Sqr(Merge(t, a).0.val) * Merge(t, a).1.val == small
  {
    Unscale(t.ssml, small, a.asml.val);
  }

  /** With `abig > 0` a NaN in `amed` reaches the result; with `abig == 0`
      and `asml > 0` it does too, through sqrt and the ratio; otherwise the
      result is `amed` itself. */
  lemma MergePoison(t: Traits, a: Acc)
    requires t.Valid() && t.RootValid()
    requires a.amed.NaN? && a.abig.Num? && a.asml.Num?
    ensures Merge(t, a).1.NaN?
  {
  }

  /** A sequence of magnitudes without NaN in which no non-zero small
      magnitude is lost: there is no big magnitude, or every small one is
      zero. This is when the three accumulators keep the exact sum. */
  ghost predicate Lossless(t: Traits, s: seq<Float>)
    requires t.Valid()
  {
    && NaN !in s
    && (AnyBig(t, s) ==> forall m | m in s && Classify(t, m) == Small :: m == Zero)
  }

  /** When every small magnitude is zero, so is the small sum. */
  lemma {:induction false} ZeroSmalls(t: Traits, s: seq<Float>)
    requires t.Valid()
    requires forall m | m in s && Classify(t, m) == Small :: m == Zero
    ensures BucketSum(t, s, Small) == 0.0
    decreases |s|
  {
    if s != [] {
      var p, m := s[..|s| - 1], s[|s| - 1];
      assert s == p + [m];
      InSnoc(p, m);
      ZeroSmalls(t, p);
      ValuesSnoc(t, p, m, Small);
      if m.Num? && Classify(t, m) == Small {
        SumSquaresSnoc(Values(t, p, Small), m.val);
      }
    }
  }

  /** What accumulators `a` hold when the numbers of the magnitudes seen
      that went to the big, medium and small buckets are `vb`, `vm` and
      `vs`; `nan` says whether a NaN was seen and `anyBig` whether a big
      magnitude was. */
  predicate Summary(t: Traits, a: Acc, vb: seq<real>, vm: seq<real>, vs: seq<real>, nan: bool, anyBig: bool)
    requires t.Valid()
  {
    && a.abig.Num? && a.abig.val == ScaledSquares(vb, t.sbig)
    && (a.amed.NaN? <==> nan)
    && (a.amed.Num? ==> a.amed.val == SumSquares(vm))
    && a.asml.Num? && a.asml.val >= 0.0
    && (!anyBig ==> a.asml.val == ScaledSquares(vs, t.ssml))
  }

  /** The accumulators after the loop summarise the buckets of what it has
      seen. */
  lemma AccumulateSummary(t: Traits, s: seq<Float>, a: Acc, vb: seq<real>, vm: seq<real>, vs: seq<real>)
    requires t.Valid() && a == Accumulate(t, s)
    requires vb == Values(t, s, Big) && vm == Values(t, s, Medium) && vs == Values(t, s, Small)
    ensures Summary(t, a, vb, vm, vs, NaN in s, AnyBig(t, s))
  {
    AccumulateBig(t, s);
    AccumulateMedium(t, s);
    AccumulateSmall(t, s);
  }

  /** x == c^2 * y. */
  predicate Scaled(x: real, c: real, y: real) {
    x == Sqr(c) * y
  }

  /** The scaled sums of a summary, as scale^2 times the exact sums. */
  lemma Unscaled(t: Traits, a: Acc, vb: seq<real>, vm: seq<real>, vs: seq<real>, anyBig: bool)
    requires t.Valid() && Summary(t, a, vb, vm, vs, false, anyBig)
    ensures Scaled(a.abig.val, t.sbig, SumSquares(vb))
    ensures !anyBig ==> Scaled(a.asml.val, t.ssml, SumSquares(vs))
  {
    ScaledSquaresIsScaled(vb, t.sbig);
    ScaledSquaresIsScaled(vs, t.ssml);
  }

  /** Merging accumulators that summarise NaN-free magnitudes, none of them
      a lost small one, gives a state that stands for big + med + small. */
  lemma MergeSummary(t: Traits, a: Acc, big: real, med: real, small: real, anyBig: bool)
    requires t.Valid() && t.RootValid()
    requires a.abig.Num? && Scaled(a.abig.val, t.sbig, big)
    requires a.amed.Num? && a.amed.val == med
    requires a.asml.Num? && a.asml.val >= 0.0
    requires !anyBig ==> Scaled(a.asml.val, t.ssml, small)
    requires med >= 0.0 && small >= 0.0
    requires anyBig <==> big > 0.0
    requires !anyBig ==> big == 0.0
    requires anyBig ==> small == 0.0
    ensures StandsFor(Merge(t, a), big + med + small)
  {
    if anyBig {
      MergeBigExact(t, a, big);
    } else {
      MergeNoBigExact(t, a, small);
    }
  }

  /** The accumulators of a lossless sequence merge into a state that stands
      for its exact sum of squares. */
  lemma MergeExact(t: Traits, s: seq<Float>, a: Acc)
    requires t.Valid() && t.RootValid() && Lossless(t, s) && a == Accumulate(t, s)
    ensures StandsFor(Merge(t, a), SumSq(s))
  {
    var vb, vm, vs := Values(t, s, Big), Values(t, s, Medium), Values(t, s, Small);
    AccumulateSummary(t, s, a, vb, vm, vs);
    SummaryExact(t, s, a, vb, vm, vs);
  }

  /** Accumulators that summarise a lossless sequence merge into a state
      that stands for its exact sum of squares. */
  lemma SummaryExact(t: Traits, s: seq<Float>, a: Acc, vb: seq<real>, vm: seq<real>, vs: seq<real>)
    requires t.Valid() && t.RootValid() && Lossless(t, s)
    requires vb == Values(t, s, Big) && vm == Values(t, s, Medium) && vs == Values(t, s, Small)
    requires Summary(t, a, vb, vm, vs, NaN in s, AnyBig(t, s))
    ensures StandsFor(Merge(t, a), SumSq(s))
  {
    LosslessBuckets(t, s, vb, vm, vs);
    MergeOfSummary(t, a, vb, vm, vs, AnyBig(t, s));
  }

  /** The bucket sums of a lossless sequence: they partition its sum of
      squares, the big one is positive exactly when a big magnitude is
      present, and then the small one is zero. */
  lemma LosslessBuckets(t: Traits, s: seq<Float>, vb: seq<real>, vm: seq<real>, vs: seq<real>)
    requires t.Valid() && Lossless(t, s)
    requires vb == Values(t, s, Big) && vm == Values(t, s, Medium) && vs == Values(t, s, Small)
    ensures SumSq(s) == SumSquares(vb) + SumSquares(vm) + SumSquares(vs)
    ensures AnyBig(t, s) <==> SumSquares(vb) > 0.0
    ensures AnyBig(t, s) ==> SumSquares(vs) == 0.0
  {
    BucketPartition(t, s);
    BigSumPositive(t, s);
    if AnyBig(t, s) {
      ZeroSmalls(t, s);
    }
  }

  /** Merging the accumulators of a NaN-free summary. */
  lemma MergeOfSummary(t: Traits, a: Acc, vb: seq<real>, vm: seq<real>, vs: seq<real>, anyBig: bool)
    requires t.Valid() && t.RootValid() && Summary(t, a, vb, vm, vs, false, anyBig)
    requires anyBig <==> SumSquares(vb) > 0.0
    requires anyBig ==> SumSquares(vs) == 0.0
    ensures StandsFor(Merge(t, a), SumSquares(vb) + SumSquares(vm) + SumSquares(vs))
  {
    Unscaled(t, a, vb, vm, vs, anyBig);
    MergeSummary(t, a, SumSquares(vb), SumSquares(vm), SumSquares(vs), anyBig);
  }

  /** The merge without a big magnitude stands for asml/ssml^2 + amed. */
  lemma MergeNoBigExact(t: Traits, a: Acc, small: real)
    requires t.Valid() && t.RootValid()
    requires a.abig == Zero && a.amed.Num? && a.amed.val >= 0.0
    requires a.asml.Num? && a.asml.val >= 0.0 && a.asml.val == Sqr(t.ssml) * small
    ensures Merge(t, a).0.Num? && Merge(t, a).1.Num?
    ensures Sqr(Merge(t, a).0.val) * Merge(t, a).1.val == small + a.amed.val
  {
    if a.asml.val > 0.0 {
      if a.amed.val > 0.0 {
        MergeMixExact(t, a, small);
      } else {
        MergeSmallExact(t, a, small);
      }
    } else {
      CancelSquare(t.ssml, small, 0.0);
    }
  }

  // ---------------------------------------------------------------------------
  // The whole routine

  /** Folding the incoming state in is a loop step on the magnitude
      scl * sqrt(sumsq): it is classified by the same rule and adds
      scl^2 * sumsq to its bucket with the same scaling. */
  lemma FoldIsStep(t: Traits, acc: Acc, scl: Float, sumsq: Float)
    requires t.Valid() && t.RootValid() && scl.Num? && Gt(sumsq, Zero)
    ensures FoldIncoming(t, acc, scl, sumsq) == Step(t, acc, IncomingMagnitude(t, scl, sumsq))
  {
    FoldIsStepIn(t, acc, scl, sumsq, Classify(t, IncomingMagnitude(t, scl, sumsq)));
  }

  lemma FoldIsStepIn(t: Traits, acc: Acc, scl: Float, sumsq: Float, b: Bucket)
    requires t.Valid() && t.RootValid() && scl.Num? && Gt(sumsq, Zero)
    requires Classify(t, IncomingMagnitude(t, scl, sumsq)) == b
    ensures FoldIncoming(t, acc, scl, sumsq) == Step(t, acc, IncomingMagnitude(t, scl, sumsq))
  {
    var c := match b case Big => t.sbig case Small => t.ssml case Medium => 1.0;
    RootScale(scl.val, Sqrt(t, sumsq).val, c, sumsq.val);
  }



  /** ((a*r)*c)^2 == (a*c)^2 * q when r^2 == q. */
  lemma RootScale(a: real, r: real, c: real, q: real)
    requires Sqr(r) == q
    ensures Sqr((a * r) * c) == Sqr(a * c) * q
    ensures Sqr(a * r) == Sqr(a) * q
  {
    assert (a * r) * c == (a * c) * r;
    SqrProduct(a * c, r);
    SqrProduct(a, r);
  }

  /** The code's order, loop then fold-in of the normalised state, gives
      the accumulators of the magnitudes followed by the incoming state. */
  lemma FoldAccumulates(t: Traits, mags: seq<Float>, scl: Float, sumsq: Float)
    requires t.Valid() && t.RootValid() && scl.Num? && sumsq.Num?
    ensures var st := Normalize(scl, sumsq);
      FoldIncoming(t, Accumulate(t, mags), st.0, st.1) == Accumulate(t, mags + Incoming(t, scl, sumsq))
  {
    var st := Normalize(scl, sumsq);
    if Gt(st.1, Zero) {
      var v := IncomingMagnitude(t, st.0, st.1);
      assert (mags + [v])[..|mags|] == mags;
      FoldIsStep(t, Accumulate(t, mags), st.0, st.1);
    } else {
      assert mags + [] == mags;
    }
  }

  /** The incoming state contributes scl^2 * sumsq to the sum of squares. */
  lemma IncomingSum(t: Traits, mags: seq<Float>, scl: Float, sumsq: Float)
    requires t.Valid() && t.RootValid() && scl.Num? && sumsq.Num? && sumsq.val >= 0.0
    ensures SumSq(mags + Incoming(t, scl, sumsq)) == SumSq(mags) + Sqr(scl.val) * sumsq.val
    ensures NaN !in Incoming(t, scl, sumsq)
  {
    var st := Normalize(scl, sumsq);
    if Gt(st.1, Zero) {
      var v := IncomingMagnitude(t, st.0, st.1);
      IncomingSquare(t, scl, sumsq);
      NumsSnoc(mags, v);
      SumSquaresSnoc(Nums(mags), v.val);
    } else {
      assert mags + [] == mags;
      assert st.1.val == 0.0;
    }
  }

  /** The incoming magnitude squared is the value of the incoming state. */
  lemma IncomingSquare(t: Traits, scl: Float, sumsq: Float)
    requires t.Valid() && t.RootValid() && scl.Num? && sumsq.Num?
    requires Gt(Normalize(scl, sumsq).1, Zero)
    ensures IncomingMagnitude(t, Normalize(scl, sumsq).0, Normalize(scl, sumsq).1).Num?
    ensures Sqr(IncomingMagnitude(t, Normalize(scl, sumsq).0, Normalize(scl, sumsq).1).val)
         == Sqr(scl.val) * sumsq.val
  {
    var st := Normalize(scl, sumsq);
    RootScale(st.0.val, Sqrt(t, st.1).val, 1.0, st.1.val);
  }

  /** The exact identity of Blue's method: when nothing is NaN and no
      non-zero small magnitude is lost to a big one, the new state stands for
      the sum of the squared magnitudes plus the old value scl^2 * sumsq. */
  lemma SpecExact(t: Traits, mags: seq<Float>, scl: Float, sumsq: Float)
    requires t.Valid() && t.RootValid()
    requires scl.Num? && sumsq.Num? && sumsq.val >= 0.0
    requires Lossless(t, mags + Incoming(t, scl, sumsq))
    ensures StandsFor(Spec(t, mags, scl, sumsq), SumSq(mags) + Sqr(scl.val) * sumsq.val)
  {
    IncomingSum(t, mags, scl, sumsq);
    if |mags| > 0 {
      var s := mags + Incoming(t, scl, sumsq);
      MergeExact(t, s, Accumulate(t, s));
    } else {
      assert SumSq(mags) == 0.0;
    }
  }

  /** A NaN magnitude makes the new sumsq NaN (unless the old state was
      already NaN, which is returned as it is). */
  lemma SpecPoison(t: Traits, mags: seq<Float>, scl: Float, sumsq: Float)
    requires t.Valid() && t.RootValid() && scl.Num? && sumsq.Num? && NaN in mags
    ensures Spec(t, mags, scl, sumsq).1.NaN?
  {
    var s := mags + Incoming(t, scl, sumsq);
    assert NaN in s;
    var a := Accumulate(t, s);
    AccumulateSummary(t, s, a, Values(t, s, Big), Values(t, s, Medium), Values(t, s, Small));
    MergePoison(t, a);
  }

  /** Once a big magnitude is present (an element or the incoming state),
      the result's scale is 1/sbig. */
  lemma SpecBigScale(t: Traits, mags: seq<Float>, scl: Float, sumsq: Float)
    requires t.Valid() && t.RootValid() && scl.Num? && sumsq.Num? && |mags| > 0
    requires AnyBig(t, mags + Incoming(t, scl, sumsq))
    ensures Spec(t, mags, scl, sumsq).0 == Num(1.0 / t.sbig)
  {
    var s := mags + Incoming(t, scl, sumsq);
    var a := Accumulate(t, s);
    BigPositive(t, s, a);
    assert Merge(t, a).0 == Num(1.0 / t.sbig);
  }

  /** A big magnitude makes `abig` positive. */
  lemma BigPositive(t: Traits, s: seq<Float>, a: Acc)
    requires t.Valid() && a == Accumulate(t, s) && AnyBig(t, s)
    ensures Gt(a.abig, Zero)
  {
    AccumulateBig(t, s);
    BigSumPositive(t, s);
    ScaledPositive(Values(t, s, Big), t.sbig);
  }

  lemma ScaledPositive(v: seq<real>, c: real)
    requires c != 0.0 && SumSquares(v) > 0.0
    ensures ScaledSquares(v, c) > 0.0
  {
    ScaledSquaresIsScaled(v, c);
    SqrPositive(c);
    MulPos(Sqr(c), SumSquares(v));
  }

  /** With only medium, non-NaN magnitudes, nothing is scaled: `asml` and
      `abig` stay zero and `amed` is the exact sum of squares. */
  lemma {:induction false} AllMediumAccumulate(t: Traits, s: seq<Float>)
    requires t.Valid()
    requires forall m | m in s :: m.Num? && Classify(t, m) == Medium
    ensures Accumulate(t, s) == Acc(Zero, Num(SumSq(s)), Zero)
    decreases |s|
  {
    if s != [] {
      var p, m := s[..|s| - 1], s[|s| - 1];
      assert s == p + [m];
      assert forall e | e in p :: e in s;
      AllMediumAccumulate(t, p);
      NumsSnoc(p, m);
      SumSquaresSnoc(Nums(p), m.val);
    }
  }

  /** The identity in the routine's documentation: when every magnitude and
      the incoming value are medium-range and not NaN, the result is
      scl = 1 and sumsq = the sum of the squared magnitudes plus
      scl_in^2 * sumsq_in, exactly. */
  lemma SpecAllMedium(t: Traits, mags: seq<Float>, scl: Float, sumsq: Float)
    requires t.Valid() && t.RootValid()
    requires scl.Num? && sumsq.Num? && sumsq.val >= 0.0 && |mags| > 0
    requires forall m | m in mags + Incoming(t, scl, sumsq) :: m.Num? && Classify(t, m) == Medium
    ensures Spec(t, mags, scl, sumsq) == (One, Num(SumSq(mags) + Sqr(scl.val) * sumsq.val))
  {
    var s := mags + Incoming(t, scl, sumsq);
    AllMediumAccumulate(t, s);
    IncomingSum(t, mags, scl, sumsq);
  }

  /** A vector whose magnitudes are all zero or medium (and not NaN) never
      loses anything: a big magnitude can only come from the incoming
      state, and then the only small magnitudes are zeros. */
  lemma MediumLossless(t: Traits, mags: seq<Float>, scl: Float, sumsq: Float)
    requires t.Valid() && t.RootValid() && scl.Num? && sumsq.Num? && sumsq.val >= 0.0
    requires forall m | m in mags :: m.Num? && (m == Zero || Classify(t, m) == Medium)
    ensures Lossless(t, mags + Incoming(t, scl, sumsq))
  {
    var inc := Incoming(t, scl, sumsq);
    var s := mags + inc;
    IncomingSum(t, mags, scl, sumsq);
    assert NaN !in s;
    if AnyBig(t, s) {
      var e :| e in s && Classify(t, e) == Big;
      assert e in inc;
      assert forall m | m in s :: m in mags || m == e;
    }
  }

  /** The scale of a result is positive whenever the incoming scale is
      non-negative and nothing is NaN. */
  lemma SpecScalePositive(t: Traits, mags: seq<Float>, scl: Float, sumsq: Float)
    requires t.Valid() && t.RootValid() && scl.Num? && sumsq.Num? && scl.val >= 0.0
    ensures Spec(t, mags, scl, sumsq).0.Num? && Spec(t, mags, scl, sumsq).0.val > 0.0
  {
    if |mags| > 0 {
      MergeScalePositive(t, Accumulate(t, mags + Incoming(t, scl, sumsq)));
    }
  }

  /** The exact identity holds for zero-or-medium magnitudes. */
  lemma MediumExact(t: Traits, mags: seq<Float>, scl: Float, sumsq: Float)
    requires t.Valid() && t.RootValid() && scl.Num? && sumsq.Num? && sumsq.val >= 0.0
    requires forall m | m in mags :: m.Num? && (m == Zero || Classify(t, m) == Medium)
    ensures StandsFor(Spec(t, mags, scl, sumsq), SumSq(mags) + Sqr(scl.val) * sumsq.val)
  {
    MediumLossless(t, mags, scl, sumsq);
    SpecExact(t, mags, scl, sumsq);
  }

  /** One call on zero-or-medium magnitudes from a state with a
      non-negative scale and sum: the new state has a positive scale and a
      non-negative sum, and stands for the old value plus the sum of the
      squared magnitudes. */
  lemma SpecLosslessStep(t: Traits, mags: seq<Float>, scl: Float, sumsq: Float, v: real)
    requires t.Valid() && t.RootValid()
    requires StandsFor((scl, sumsq), v) && scl.val >= 0.0 && sumsq.val >= 0.0
    requires forall m | m in mags :: m.Num? && (m == Zero || Classify(t, m) == Medium)
    ensures StandsFor(Spec(t, mags, scl, sumsq), SumSq(mags) + v)
    ensures Spec(t, mags, scl, sumsq).0.val > 0.0 && Spec(t, mags, scl, sumsq).1.val >= 0.0
  {
    MediumExact(t, mags, scl, sumsq);
    SpecScalePositive(t, mags, scl, sumsq);
    StepValue(Spec(t, mags, scl, sumsq), SumSq(mags), scl, sumsq, v);
  }

  /** A state with a positive scale standing for s + scl^2 * sumsq, with s
      and sumsq non-negative, stands for s + v when (scl, sumsq) stands for
      v, and has a non-negative sum. */
  lemma StepValue(st: (Float, Float), s: real, scl: Float, sumsq: Float, v: real)
    requires StandsFor((scl, sumsq), v) && s >= 0.0 && sumsq.val >= 0.0
    requires StandsFor(st, s + Sqr(scl.val) * sumsq.val) && st.0.val > 0.0
    ensures StandsFor(st, s + v) && st.1.val >= 0.0
  {
    NonNegProduct(Sqr(scl.val), sumsq.val);
    SqrPositive(st.0.val);
    NonNegFactor(Sqr(st.0.val), st.1.val);
  }

  lemma NonNegProduct(a: real, b: real)
    requires a >= 0.0 && b >= 0.0
    ensures a * b >= 0.0
  {
  }

  /** p * b >= 0 with p > 0 gives b >= 0. */
  lemma NonNegFactor(p: real, b: real)
    requires p > 0.0 && p * b >= 0.0
    ensures b >= 0.0
  {
    assert b == (p * b) / p;
  }

  /** The merge sets the scale to 1/sbig, 1/ssml or 1. */
  lemma MergeScalePositive(t: Traits, a: Acc)
    requires t.Valid() && t.RootValid()
    ensures Merge(t, a).0 in {Num(1.0 / t.sbig), Num(1.0 / t.ssml), One}
    ensures Merge(t, a).0.val > 0.0
  {
  }

  // ---------------------------------------------------------------------------
  // The routine itself

  /** `lassq` with a caller-supplied magnitude function (lines 60-167): the
      accumulators are updated element by element, the normalised incoming
      state is folded in, and the accumulators are merged. The result is
      the one `Spec` describes. */
  method Lassq<T>(t: Traits, x: seq<T>, absFunc: T -> Float, scl: Float, sumsq: Float)
    returns (sclOut: Float, sumsqOut: Float)
    requires t.Valid() && t.RootValid()
    ensures (sclOut, sumsqOut) == Spec(t, Magnitudes(x, absFunc), scl, sumsq)
  {
    sclOut, sumsqOut := scl, sumsq;
    if scl.NaN? || sumsq.NaN? {
      return;
    }
    if Eq(sumsqOut, Zero) {
      sclOut := One;
    }
    if Eq(sclOut, Zero) {
      sclOut := One;
      sumsqOut := Zero;
    }
    if |x| == 0 {
      return;
    }
    ghost var mags := Magnitudes(x, absFunc);
    var asml, amed, abig := Zero, Zero, Zero;
    var i := 0;
    while i < |x|
      invariant 0 <= i <= |x|
      invariant Acc(asml, amed, abig) == Accumulate(t, mags[..i])
    {
      var ax := absFunc(x[i]);
      if Gt(ax, Num(t.tbig)) {
        abig := Add(abig, Square(Mul(ax, Num(t.sbig))));
      } else if Lt(ax, Num(t.tsml)) {
        if Eq(abig, Zero) {
          asml := Add(asml, Square(Mul(ax, Num(t.ssml))));
        }
      } else {
        amed := Add(amed, Square(ax));
      }
      assert mags[..i + 1][..i] == mags[..i];
      i := i + 1;
    }
    assert mags[..i] == mags;
    var acc := FoldIncoming(t, Acc(asml, amed, abig), sclOut, sumsqOut);
    FoldAccumulates(t, mags, scl, sumsq);
    sclOut, sumsqOut := Merge(t, acc).0, Merge(t, acc).1;
  }

  /** The overload without `absFunc` (lines 172-183) is the general routine
      with `blas::abs`, here on real scalars. */
  method LassqAbs(t: Traits, x: seq<Float>, scl: Float, sumsq: Float)
    returns (sclOut: Float, sumsqOut: Float)
    requires t.Valid() && t.RootValid()
    ensures (sclOut, sumsqOut) == Spec(t, Magnitudes(x, BlasUtils.Abs), scl, sumsq)
  {
    sclOut, sumsqOut := Lassq(t, x, BlasUtils.Abs, scl, sumsq);
  }
}
