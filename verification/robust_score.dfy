/** The robust z-score does not depend on the unit or the origin a column is measured in. */
module RobustScore {
  import opened Common
  import opened Statistics
  import opened FeatureDsl

  // ---------- sorting ----------

  ghost predicate Ascending(xs: seq<real>) {
    forall i, j :: 0 <= i < j < |xs| ==> xs[i] <= xs[j]
  }

  lemma {:induction false} InsertKeepsElements(x: real, xs: seq<real>)
    ensures multiset(Insert(x, xs)) == multiset(xs) + multiset{x}
  {
    if xs == [] || x <= xs[0] {
      assert multiset([x] + xs) == multiset{x} + multiset(xs);
    } else {
      InsertKeepsElements(x, xs[1..]);
      assert xs == [xs[0]] + xs[1..];
    }
  }

  lemma {:induction false} InsertKeepsOrder(x: real, xs: seq<real>)
    requires Ascending(xs)
    ensures Ascending(Insert(x, xs))
    ensures Insert(x, xs)[0] == x || (xs != [] && Insert(x, xs)[0] == xs[0])
  {
    if xs == [] || x <= xs[0] {
    } else {
      InsertKeepsOrder(x, xs[1..]);
      Prepended(xs[0], Insert(x, xs[1..]));
    }
  }

  lemma Prepended(x: real, xs: seq<real>)
    requires Ascending(xs) && xs != [] && x <= xs[0]
    ensures Ascending([x] + xs)
  {
  }

  lemma {:induction false} SortedIsSorted(xs: seq<real>)
    ensures Ascending(Sorted(xs)) && multiset(Sorted(xs)) == multiset(xs)
  {
    if xs == [] {
    } else {
      SortedIsSorted(xs[1..]);
      InsertKeepsOrder(xs[0], Sorted(xs[1..]));
      InsertKeepsElements(xs[0], Sorted(xs[1..]));
      assert xs == [xs[0]] + xs[1..];
    }
  }

  lemma FirstIsLeast(xs: seq<real>, x: real)
    requires Ascending(xs) && x in multiset(xs)
    ensures xs[0] <= x
  {
    var i :| 0 <= i < |xs| && xs[i] == x;
  }

  lemma SplitFirst(xs: seq<real>)
    requires xs != []
    ensures multiset(xs) == multiset{xs[0]} + multiset(xs[1..])
  {
    assert xs == [xs[0]] + xs[1..];
  }

  /** There is only one way to sort. */
  lemma {:induction false} SortedIsUnique(xs: seq<real>, ys: seq<real>)
    requires Ascending(xs) && Ascending(ys) && multiset(xs) == multiset(ys)
    ensures xs == ys
  {
    SameLength(xs, ys);
    if xs == [] {
    } else {
      SameFirst(xs, ys);
      SortedIsUnique(xs[1..], ys[1..]);
      assert xs == [xs[0]] + xs[1..] && ys == [ys[0]] + ys[1..];
    }
  }

  lemma SameLength(xs: seq<real>, ys: seq<real>)
    requires multiset(xs) == multiset(ys)
    ensures |xs| == |ys|
  {
    assert |multiset(xs)| == |xs| && |multiset(ys)| == |ys|;
  }

  lemma SameFirst(xs: seq<real>, ys: seq<real>)
    requires Ascending(xs) && Ascending(ys) && multiset(xs) == multiset(ys) && xs != [] && ys != []
    ensures xs[0] == ys[0] && multiset(xs[1..]) == multiset(ys[1..])
  {
    SplitFirst(xs);
    SplitFirst(ys);
    assert xs[0] in multiset(xs) && ys[0] in multiset(ys);
    FirstIsLeast(xs, ys[0]);
    FirstIsLeast(ys, xs[0]);
    assert multiset(xs[1..]) == multiset(xs) - multiset{xs[0]};
    assert multiset(ys[1..]) == multiset(ys) - multiset{ys[0]};
  }

  /** The median ignores the order of its arguments. */
  lemma MedianIgnoresOrder(xs: seq<real>, ys: seq<real>)
    requires xs != [] && ys != [] && multiset(xs) == multiset(ys)
    ensures Median(xs) == Median(ys)
  {
    SortedIsSorted(xs);
    SortedIsSorted(ys);
    SortedIsUnique(Sorted(xs), Sorted(ys));
  }

  // ---------- a change of unit and origin ----------

  function Mapped(xs: seq<real>, f: real -> real): seq<real> {
    seq(|xs|, i requires 0 <= i < |xs| => f(xs[i]))
  }

  ghost predicate KeepsOrder(f: real -> real) {
    forall x, y :: f(x) <= f(y) <==> x <= y
  }

  lemma {:induction false} InsertCommutes(x: real, xs: seq<real>, f: real -> real)
    requires KeepsOrder(f)
    ensures Insert(f(x), Mapped(xs, f)) == Mapped(Insert(x, xs), f)
  {
    if xs == [] || x <= xs[0] {
    } else {
      assert Mapped(xs, f)[1..] == Mapped(xs[1..], f);
      InsertCommutes(x, xs[1..], f);
    }
  }

  lemma {:induction false} SortingCommutes(xs: seq<real>, f: real -> real)
    requires KeepsOrder(f)
    ensures Sorted(Mapped(xs, f)) == Mapped(Sorted(xs), f)
  {
    if xs == [] {
    } else {
      assert Mapped(xs, f)[1..] == Mapped(xs[1..], f);
      SortingCommutes(xs[1..], f);
      InsertCommutes(xs[0], Sorted(xs[1..]), f);
    }
  }

  function Affine(a: real, b: real): real -> real { x => a * x + b }

  lemma ScalingKeepsOrder(a: real, b: real, x: real, y: real)
    requires a > 0.0
    ensures a * x + b <= a * y + b <==> x <= y
  {
    var d := y - x;
    assert a * d == a * y - a * x;
    ProductSign(a, d);
  }

  lemma ProductSign(a: real, d: real)
    requires a > 0.0
    ensures d > 0.0 ==> a * d > 0.0
    ensures d < 0.0 ==> a * d < 0.0
    ensures d == 0.0 ==> a * d == 0.0
  {
  }

  lemma ImagesKeepOrder(a: real, b: real, x: real, y: real, fx: real, fy: real)
    requires a > 0.0 && fx == a * x + b && fy == a * y + b
    ensures fx <= fy <==> x <= y
  {
    ScalingKeepsOrder(a, b, x, y);
  }

  lemma AffineKeepsOrder(a: real, b: real)
    requires a > 0.0
    ensures KeepsOrder(Affine(a, b))
  {
    forall x, y ensures Affine(a, b)(x) <= Affine(a, b)(y) <==> x <= y {
      ImagesKeepOrder(a, b, x, y, Affine(a, b)(x), Affine(a, b)(y));
    }
  }

  ghost predicate KeepsMidpoints(f: real -> real) {
    forall x, y :: (f(x) + f(y)) / 2.0 == f((x + y) / 2.0)
  }

  /** Distances under f are the images of distances under g. */
  ghost predicate Stretches(f: real -> real, g: real -> real) {
    forall x, y :: AbsR(f(x) - f(y)) == g(AbsR(x - y))
  }

  ghost predicate KeepsScores(f: real -> real, g: real -> real) {
    forall x, m, mad :: ScoreAgainst(f(x), f(m), g(mad)) == ScoreAgainst(x, m, mad)
  }

  lemma MedianMaps(xs: seq<real>, f: real -> real)
    requires KeepsOrder(f) && KeepsMidpoints(f) && xs != []
    ensures Median(Mapped(xs, f)) == f(Median(xs))
  {
    SortingCommutes(xs, f);
  }

  lemma DeviationsMap(xs: seq<real>, m: real, f: real -> real, g: real -> real)
    requires Stretches(f, g)
    ensures Deviations(Mapped(xs, f), f(m)) == Mapped(Deviations(xs, m), g)
  {
  }

  lemma MadMaps(xs: seq<real>, f: real -> real, g: real -> real)
    requires KeepsOrder(f) && KeepsMidpoints(f) && KeepsOrder(g) && KeepsMidpoints(g) && Stretches(f, g) && xs != []
    ensures Mad(Mapped(xs, f)) == g(Mad(xs))
  {
    MedianMaps(xs, f);
    DeviationsMap(xs, Median(xs), f, g);
    MedianMaps(Deviations(xs, Median(xs)), g);
  }

  lemma MidpointScales(a: real, b: real, x: real, y: real, fx: real, fy: real, half: real)
    requires fx == a * x + b && fy == a * y + b && half == a * ((x + y) / 2.0) + b
    ensures (fx + fy) / 2.0 == half
  {
  }

  lemma AffineKeepsMidpoints(a: real, b: real)
    ensures KeepsMidpoints(Affine(a, b))
  {
    var f := Affine(a, b);
    forall x, y ensures (f(x) + f(y)) / 2.0 == f((x + y) / 2.0) {
      MidpointScales(a, b, x, y, f(x), f(y), f((x + y) / 2.0));
    }
  }

  lemma DistanceScales(a: real, b: real, x: real, y: real, fx: real, fy: real, image: real)
    requires a > 0.0 && fx == a * x + b && fy == a * y + b && image == a * AbsR(x - y)
    ensures AbsR(fx - fy) == image
  {
    var d := x - y;
    assert fx - fy == a * d;
    ProductSign(a, d);
  }

  lemma AffineStretches(a: real, b: real)
    requires a > 0.0
    ensures Stretches(Affine(a, b), Affine(a, 0.0))
  {
    var f, g := Affine(a, b), Affine(a, 0.0);
    forall x, y ensures AbsR(f(x) - f(y)) == g(AbsR(x - y)) {
      DistanceScales(a, b, x, y, f(x), f(y), g(AbsR(x - y)));
    }
  }

  // ---------- a change of sign ----------

  const NEGATE: real -> real := x => -x

  function Backwards(xs: seq<real>): seq<real> {
    seq(|xs|, i requires 0 <= i < |xs| => xs[|xs| - 1 - i])
  }

  lemma {:induction false} NegationKeepsCounts(xs: seq<real>, v: real)
    ensures multiset(Mapped(xs, NEGATE))[-v] == multiset(xs)[v]
  {
    if xs == [] {
    } else {
      NegationKeepsCounts(xs[1..], v);
      SplitFirst(xs);
      assert Mapped(xs, NEGATE)[1..] == Mapped(xs[1..], NEGATE);
      SplitFirst(Mapped(xs, NEGATE));
    }
  }

  lemma {:induction false} BackwardsKeepsElements(xs: seq<real>)
    ensures multiset(Backwards(xs)) == multiset(xs)
  {
    if xs == [] {
    } else {
      BackwardsKeepsElements(xs[1..]);
      SplitFirst(xs);
      assert Backwards(xs) == Backwards(xs[1..]) + [xs[0]];
    }
  }

  lemma NegationKeepsElements(xs: seq<real>, ys: seq<real>)
    requires multiset(xs) == multiset(ys)
    ensures multiset(Mapped(xs, NEGATE)) == multiset(Mapped(ys, NEGATE))
  {
    forall v: real
      ensures multiset(Mapped(xs, NEGATE))[v] == multiset(Mapped(ys, NEGATE))[v]
    {
      NegationKeepsCounts(xs, -v);
      NegationKeepsCounts(ys, -v);
      assert -(-v) == v;
    }
  }

  lemma SortingNegates(xs: seq<real>)
    ensures Sorted(Mapped(xs, NEGATE)) == Backwards(Mapped(Sorted(xs), NEGATE))
  {
    SortedIsSorted(xs);
    SortedIsSorted(Mapped(xs, NEGATE));
    NegationKeepsElements(xs, Sorted(xs));
    BackwardsKeepsElements(Mapped(Sorted(xs), NEGATE));
    SortedIsUnique(Sorted(Mapped(xs, NEGATE)), Backwards(Mapped(Sorted(xs), NEGATE)));
  }

  lemma MedianNegates(xs: seq<real>)
    requires xs != []
    ensures Median(Mapped(xs, NEGATE)) == -Median(xs)
  {
    SortingNegates(xs);
  }

  lemma MadIgnoresSign(xs: seq<real>)
    requires xs != []
    ensures Mad(Mapped(xs, NEGATE)) == Mad(xs)
  {
    MedianNegates(xs);
    assert Deviations(Mapped(xs, NEGATE), -Median(xs)) == Deviations(xs, Median(xs));
  }

  // ---------- the score ----------

  lemma SameQuotient(top: real, bottom: real, top': real, bottom': real, a: real)
    requires bottom != 0.0 && bottom' != 0.0 && top' == a * top && bottom' == a * bottom
    ensures top' / bottom' == top / bottom
  {
    var q := top / bottom;
    assert q * bottom == top;
    assert q * bottom' == top' by { assert a * (q * bottom) == q * (a * bottom); }
    QuotientIs(top', bottom', q);
  }

  lemma QuotientIs(top: real, bottom: real, q: real)
    requires bottom != 0.0 && q * bottom == top
    ensures top / bottom == q
  {
  }

  lemma ScoreIgnoresScale(xs: seq<real>, current: real, f: real -> real, g: real -> real)
    requires KeepsOrder(f) && KeepsMidpoints(f) && KeepsOrder(g) && KeepsMidpoints(g) && Stretches(f, g)
    requires KeepsScores(f, g) && xs != []
    ensures RobustZ(Mapped(xs, f), f(current)) == RobustZ(xs, current)
  {
    MedianMaps(xs, f);
    MadMaps(xs, f, g);
    assert ScoreAgainst(f(current), f(Median(xs)), g(Mad(xs))) == ScoreAgainst(current, Median(xs), Mad(xs));
  }

  lemma QuotientScales(a: real, top: real, top': real, mad: real, mad': real)
    requires a > 0.0 && mad != 0.0 && top' == a * top && mad' == a * mad
    ensures mad' != 0.0 && top' / (MAD_SCALE * mad') == top / (MAD_SCALE * mad)
  {
    ProductSign(a, mad);
    assert MAD_SCALE * mad' == a * (MAD_SCALE * mad);
    SameQuotient(top, MAD_SCALE * mad, top', MAD_SCALE * mad', a);
  }

  lemma ScoreScales(a: real, b: real, x: real, m: real, mad: real, x': real, m': real, mad': real)
    requires a > 0.0 && x' == a * x + b && m' == a * m + b && mad' == a * mad
    ensures ScoreAgainst(x', m', mad') == ScoreAgainst(x, m, mad)
  {
    ProductSign(a, mad);
    if mad != 0.0 {
      Recentred(a, b, x, m, x' - m');
      QuotientScales(a, x - m, x' - m', mad, mad');
    }
  }

  lemma Recentred(a: real, b: real, x: real, m: real, d: real)
    requires d == a * x + b - (a * m + b)
    ensures d == a * (x - m)
  {
  }

  lemma AffineKeepsScores(a: real, b: real)
    requires a > 0.0
    ensures KeepsScores(Affine(a, b), Affine(a, 0.0))
  {
    var f, g := Affine(a, b), Affine(a, 0.0);
    forall x, m, mad ensures ScoreAgainst(f(x), f(m), g(mad)) == ScoreAgainst(x, m, mad) {
      ScoreScales(a, b, x, m, mad, f(x), f(m), g(mad));
    }
  }

  lemma PositiveScale(xs: seq<real>, current: real, a: real, b: real)
    requires a > 0.0 && xs != []
    ensures RobustZ(Mapped(xs, Affine(a, b)), Affine(a, b)(current)) == RobustZ(xs, current)
  {
    AffineKeepsOrder(a, b);
    AffineKeepsMidpoints(a, b);
    AffineKeepsOrder(a, 0.0);
    AffineKeepsMidpoints(a, 0.0);
    AffineStretches(a, b);
    AffineKeepsScores(a, b);
    ScoreIgnoresScale(xs, current, Affine(a, b), Affine(a, 0.0));
  }

  function NegatedOption(x: Option<real>): Option<real> {
    if x.Some? then Some(-x.value) else None
  }

  lemma ScoreNegates(xs: seq<real>, current: real)
    requires xs != []
    ensures RobustZ(Mapped(xs, NEGATE), -current) == NegatedOption(RobustZ(xs, current))
  {
    MedianNegates(xs);
    MadIgnoresSign(xs);
    if Mad(xs) != 0.0 {
      NegatedQuotient(current - Median(xs), MAD_SCALE * Mad(xs));
    }
  }

  lemma NegatedQuotient(top: real, bottom: real)
    requires bottom != 0.0
    ensures (-top) / bottom == -(top / bottom)
  {
  }

  /** Replacing every number of a column by its image; everything that is not a number stays. */
  function Rescaled(column: Column, f: real -> real): Column {
    seq(|column|, i requires 0 <= i < |column| => if column[i].Num? then Num(f(column[i].v)) else column[i])
  }

  function NegatedScalar(x: Scalar): Scalar { if x.Num? then Num(-x.v) else x }

  lemma WindowRescales(column: Column, bars: nat, i: nat, f: real -> real)
    requires 1 <= bars <= i < |column|
    ensures AllNumeric(Rescaled(column, f)[i - bars..i]) <==> AllNumeric(column[i - bars..i])
    ensures AllNumeric(column[i - bars..i]) ==>
              Numbers(Rescaled(column, f)[i - bars..i]) == Mapped(Numbers(column[i - bars..i]), f)
  {
    var window, image := column[i - bars..i], Rescaled(column, f)[i - bars..i];
    forall j | 0 <= j < bars
      ensures image[j].Num? <==> window[j].Num?
      ensures window[j].Num? ==> image[j].v == f(window[j].v)
    {
      assert window[j] == column[i - bars + j] && image[j] == Rescaled(column, f)[i - bars + j];
    }
    if AllNumeric(window) {
      assert Numbers(image) == Mapped(Numbers(window), f);
    }
  }

  ghost predicate ScoresAlike(f: real -> real, flip: bool) {
    forall xs, x :: xs != [] ==>
      RobustZ(Mapped(xs, f), f(x)) == if flip then NegatedOption(RobustZ(xs, x)) else RobustZ(xs, x)
  }

  lemma RolledScoreOfImage(clean: seq<real>, current: Option<real>, f: real -> real, flip: bool)
    requires clean != [] && ScoresAlike(f, flip)
    ensures var before := Rolled(RobustZscore, clean, current);
            Rolled(RobustZscore, Mapped(clean, f), if current.Some? then Some(f(current.value)) else None)
              == if flip then NegatedScalar(before) else before
  {
    match current
    case None => RolledNothing(clean);
                 RolledNothing(Mapped(clean, f));
    case Some(x) =>
      RolledScore(clean, x);
      RolledScore(Mapped(clean, f), f(x));
      assert RobustZ(Mapped(clean, f), f(x)) == if flip then NegatedOption(RobustZ(clean, x)) else RobustZ(clean, x);
  }

  lemma RolledNothing(clean: seq<real>)
    requires clean != []
    ensures Rolled(RobustZscore, clean, None) == Missing
  {
  }

  lemma RolledScore(clean: seq<real>, x: real)
    requires clean != []
    ensures Rolled(RobustZscore, clean, Some(x)) == OfOption(RobustZ(clean, x))
  {
  }

  lemma ScoreOfImage(column: Column, bars: nat, i: nat, f: real -> real, flip: bool)
    requires bars >= 1 && i < |column| && ScoresAlike(f, flip)
    ensures var before := WindowedAt(RobustZscore, column, bars, i);
            WindowedAt(RobustZscore, Rescaled(column, f), bars, i) == if flip then NegatedScalar(before) else before
  {
    if i >= bars {
      WindowRescales(column, bars, i, f);
      if AllNumeric(column[i - bars..i]) {
        RolledScoreOfImage(Numbers(column[i - bars..i]), NumericOf(column[i]), f, flip);
      }
    }
  }

  /** f is h after a change of sign. */
  ghost predicate Flips(f: real -> real, h: real -> real) {
    forall y :: f(y) == h(-y)
  }

  lemma FlippedColumn(xs: seq<real>, f: real -> real, h: real -> real)
    requires Flips(f, h)
    ensures Mapped(xs, f) == Mapped(Mapped(xs, NEGATE), h)
  {
  }

  lemma FlippedScores(xs: seq<real>, x: real, f: real -> real, h: real -> real)
    requires Flips(f, h) && xs != []
    requires RobustZ(Mapped(Mapped(xs, NEGATE), h), h(-x)) == RobustZ(Mapped(xs, NEGATE), -x)
    ensures RobustZ(Mapped(xs, f), f(x)) == NegatedOption(RobustZ(xs, x))
  {
    FlippedColumn(xs, f, h);
    ScoreNegates(xs, x);
  }

  lemma AffineFlips(a: real, b: real)
    ensures Flips(Affine(a, b), Affine(-a, b))
  {
    forall y ensures Affine(a, b)(y) == Affine(-a, b)(-y) {
      DoubleSign(a, y, b);
    }
  }

  lemma PositiveScoresAlike(a: real, b: real)
    requires a > 0.0
    ensures ScoresAlike(Affine(a, b), false)
  {
    forall xs, x | xs != []
      ensures RobustZ(Mapped(xs, Affine(a, b)), Affine(a, b)(x)) == RobustZ(xs, x)
    {
      PositiveScale(xs, x, a, b);
    }
  }

  lemma NegativeScoresAlike(a: real, b: real)
    requires a < 0.0
    ensures ScoresAlike(Affine(a, b), true)
  {
    AffineFlips(a, b);
    forall xs, x | xs != []
      ensures RobustZ(Mapped(xs, Affine(a, b)), Affine(a, b)(x)) == NegatedOption(RobustZ(xs, x))
    {
      PositiveScale(Mapped(xs, NEGATE), -x, -a, b);
      FlippedScores(xs, x, Affine(a, b), Affine(-a, b));
    }
  }

  /** The z-score column is unchanged by any positive rescaling of its source and flips sign with a negative
      one; which rows have no score never changes. */
  lemma ScoreIsAffineInvariant(column: Column, bars: nat, i: nat, a: real, b: real)
    requires bars >= 1 && i < |column| && a != 0.0
    ensures var before := WindowedAt(RobustZscore, column, bars, i);
            WindowedAt(RobustZscore, Rescaled(column, Affine(a, b)), bars, i)
              == if a > 0.0 then before else NegatedScalar(before)
  {
    if a > 0.0 {
      PositiveScoresAlike(a, b);
      ScoreOfImage(column, bars, i, Affine(a, b), false);
    } else {
      NegativeScoresAlike(a, b);
      ScoreOfImage(column, bars, i, Affine(a, b), true);
    }
  }

  lemma DoubleSign(a: real, x: real, b: real)
    ensures (-a) * (-x) + b == a * x + b
  {
  }
}
