/**
 * The threshold sweep: one stable descending sort and two cumulative sums give the confusion counts at every cut of the
 * scores at once; the pickers choose a cut, and are as good as any real threshold. Ratios are exact reals.
 */
module Thresholds {
  import opened Lists

  datatype Row = Row(positive: bool, score: real)

  // The direct count at one threshold.

  datatype Confusion = Confusion(tp: nat, fp: nat, fn: nat, tn: nat)

  function TruePositive(threshold: real): Row -> bool {
    (r: Row) => r.score >= threshold && r.positive
  }

  function FalsePositive(threshold: real): Row -> bool {
    (r: Row) => r.score >= threshold && !r.positive
  }

  function FalseNegative(threshold: real): Row -> bool {
    (r: Row) => !(r.score >= threshold) && r.positive
  }

  function TrueNegative(threshold: real): Row -> bool {
    (r: Row) => !(r.score >= threshold) && !r.positive
  }

  function Labelled(): Row -> bool {
    (r: Row) => r.positive
  }

  function Unlabelled(): Row -> bool {
    (r: Row) => !r.positive
  }

  function ConfusionAt(rows: seq<Row>, threshold: real): Confusion {
    Confusion(Count(rows, TruePositive(threshold)), Count(rows, FalsePositive(threshold)),
              Count(rows, FalseNegative(threshold)), Count(rows, TrueNegative(threshold)))
  }

  function Ratio(part: nat, whole: nat): real {
    if whole > 0 then part as real / whole as real else 0.0
  }

  function Precision(c: Confusion): real {
    Ratio(c.tp, c.tp + c.fp)
  }

  function Recall(c: Confusion): real {
    Ratio(c.tp, c.tp + c.fn)
  }

  function F1(c: Confusion): real {
    Ratio(2 * c.tp, 2 * c.tp + c.fp + c.fn)
  }

  // What the ratios are, without dividing.

  /** Ratios are the quotients, zero where there is nothing to divide by. */
  lemma RatioIsQuotient(part: nat, whole: nat)
    ensures whole > 0 ==> Ratio(part, whole) * whole as real == part as real
    ensures whole == 0 ==> Ratio(part, whole) == 0.0
  {
  }

  lemma MetricsAreQuotients(c: Confusion)
    ensures c.tp + c.fp > 0 ==> Precision(c) * (c.tp + c.fp) as real == c.tp as real
    ensures c.tp + c.fn > 0 ==> Recall(c) * (c.tp + c.fn) as real == c.tp as real
    ensures 2 * c.tp + c.fp + c.fn > 0 ==> F1(c) * (2 * c.tp + c.fp + c.fn) as real == (2 * c.tp) as real
    ensures c.tp + c.fp == 0 ==> Precision(c) == 0.0
    ensures c.tp + c.fn == 0 ==> Recall(c) == 0.0
    ensures 2 * c.tp + c.fp + c.fn == 0 ==> F1(c) == 0.0
  {
    RatioIsQuotient(c.tp, c.tp + c.fp);
    RatioIsQuotient(c.tp, c.tp + c.fn);
    RatioIsQuotient(2 * c.tp, 2 * c.tp + c.fp + c.fn);
  }

  /** F1 is the harmonic mean of precision and recall. */
  lemma F1IsHarmonic(c: Confusion)
    ensures F1(c) * (Precision(c) + Recall(c)) == 2.0 * (Precision(c) * Recall(c))
  {
    MetricsAreQuotients(c);
    if c.tp > 0 {
      Harmonic(c.tp as real, c.fp as real, c.fn as real, Precision(c), Recall(c), F1(c));
    }
  }

  lemma Harmonic(tp: real, fp: real, fn: real, p: real, r: real, f: real)
    requires tp > 0.0 && fp >= 0.0 && fn >= 0.0
    requires p * (tp + fp) == tp && r * (tp + fn) == tp && f * (2.0 * tp + fp + fn) == 2.0 * tp
    ensures f * (p + r) == 2.0 * (p * r)
  {
    assert (p * r) * (2.0 * tp + fp + fn) == p * (r * (tp + fn)) + r * (p * (tp + fp));
    assert (p * r) * (2.0 * tp + fp + fn) == tp * (p + r);
    assert (f * (p + r)) * (2.0 * tp + fp + fn) == (p + r) * (2.0 * tp);
    SameFactor(f * (p + r), 2.0 * (p * r), 2.0 * tp + fp + fn);
  }

  lemma SameFactor(a: real, b: real, d: real)
    requires d > 0.0 && a * d == b * d
    ensures a == b
  {
  }

  /** Two ratios compare like their cross products. */
  lemma RatiosCompare(a: nat, b: nat, c: nat, d: nat)
    requires b > 0 && d > 0
    ensures Ratio(a, b) <= Ratio(c, d) <==> a * d <= c * b
    ensures Ratio(a, b) < Ratio(c, d) <==> a * d < c * b
  {
    RatioIsQuotient(a, b);
    RatioIsQuotient(c, d);
    CrossProducts(Ratio(a, b), Ratio(c, d), a as real, b as real, c as real, d as real);
    assert (a * d) as real == a as real * d as real && (c * b) as real == c as real * b as real;
  }

  lemma CrossProducts(x: real, y: real, a: real, b: real, c: real, d: real)
    requires b > 0.0 && d > 0.0 && x * b == a && y * d == c
    ensures x <= y <==> a * d <= c * b
    ensures x < y <==> a * d < c * b
  {
    assert a * d == x * (b * d) && c * b == y * (b * d);
    Ordered(x, y, b * d);
  }

  lemma Ordered(x: real, y: real, d: real)
    requires d > 0.0
    ensures x <= y <==> x * d <= y * d
    ensures x < y <==> x * d < y * d
  {
    if x < y {
      assert (y - x) * d > 0.0;
    } else if x > y {
      assert (x - y) * d > 0.0;
    }
  }

  /** The ratio reaches a bound exactly if the part reaches that share of the whole. */
  lemma RatioReaches(part: nat, whole: nat, bound: real)
    requires whole > 0
    ensures Ratio(part, whole) >= bound <==> part as real >= bound * whole as real
  {
    RatioIsQuotient(part, whole);
    Ordered(bound, Ratio(part, whole), whole as real);
  }

  /** The four counts split the rows, and the positives are those found and those missed. */
  lemma ConfusionSplitsTheRows(rows: seq<Row>, threshold: real)
    ensures var c := ConfusionAt(rows, threshold);
            && c.tp + c.fn == Count(rows, Labelled())
            && c.tp + c.fp + c.fn + c.tn == |rows|
  {
    CountUnion(rows, TruePositive(threshold), FalseNegative(threshold), Labelled());
    CountUnion(rows, FalsePositive(threshold), TrueNegative(threshold), Unlabelled());
    CountUnion(rows, Labelled(), Unlabelled(), (r: Row) => true);
    CountAll(rows, (r: Row) => true);
  }

  // The sweep.

  predicate Descending(s: seq<Row>) {
    forall i, j | 0 <= i < j < |s| :: s[i].score >= s[j].score
  }

  /** Stable insertion: after every row whose score is not below. */
  function InsertDown(s: seq<Row>, r: Row): seq<Row> {
    if s == [] || s[|s| - 1].score >= r.score then s + [r]
    else InsertDown(s[..|s| - 1], r) + [s[|s| - 1]]
  }

  /** `argsort(-scores, kind='stable')` applied to the rows. */
  function SortDown(rows: seq<Row>): seq<Row> {
    if rows == [] then [] else InsertDown(SortDown(rows[..|rows| - 1]), rows[|rows| - 1])
  }

  lemma {:induction false} InsertDownAdds(s: seq<Row>, r: Row)
    ensures multiset(InsertDown(s, r)) == multiset(s) + multiset{r} && |InsertDown(s, r)| == |s| + 1
  {
    if s != [] && !(s[|s| - 1].score >= r.score) {
      assert s == s[..|s| - 1] + [s[|s| - 1]];
      InsertDownAdds(s[..|s| - 1], r);
    }
  }

  lemma {:induction false} InsertDownKeepsOrder(s: seq<Row>, r: Row)
    requires Descending(s)
    ensures Descending(InsertDown(s, r))
    ensures forall x | x in InsertDown(s, r) :: x in s || x == r
  {
    if s != [] && !(s[|s| - 1].score >= r.score) {
      var front, last := s[..|s| - 1], s[|s| - 1];
      InsertDownKeepsOrder(front, r);
      var more := InsertDown(front, r);
      forall i | 0 <= i < |more| ensures more[i].score >= last.score {
        assert more[i] in more;
      }
    }
  }

  lemma {:induction false} SortDownSorts(rows: seq<Row>)
    ensures Descending(SortDown(rows)) && multiset(SortDown(rows)) == multiset(rows) && |SortDown(rows)| == |rows|
  {
    if rows != [] {
      var front, last := rows[..|rows| - 1], rows[|rows| - 1];
      assert rows == front + [last];
      SortDownSorts(front);
      InsertDownAdds(SortDown(front), last);
      InsertDownKeepsOrder(SortDown(front), last);
    }
  }

  datatype Cut = Cut(threshold: real, tp: nat, fp: nat)

  /** Row i is the last of its group of equal scores. */
  predicate EndsGroup(s: seq<Row>, i: nat)
    requires i < |s|
  {
    i == |s| - 1 || s[i + 1].score != s[i].score
  }

  /** The cumulative sums kept at the group ends among the first n rows. */
  function CutsUpTo(s: seq<Row>, n: nat): seq<Cut>
    requires n <= |s|
  {
    if n == 0 then []
    else
      var before := CutsUpTo(s, n - 1);
      if EndsGroup(s, n - 1) then before + [Cut(s[n - 1].score, Count(s[..n], Labelled()), Count(s[..n], Unlabelled()))]
      else before
  }

  function Curve(rows: seq<Row>): seq<Cut> {
    CutsUpTo(SortDown(rows), |SortDown(rows)|)
  }

  lemma {:induction false} CutsOrigin(s: seq<Row>, n: nat, k: nat) returns (i: nat)
    requires n <= |s| && k < |CutsUpTo(s, n)|
    ensures i < n && EndsGroup(s, i)
    ensures CutsUpTo(s, n)[k] == Cut(s[i].score, Count(s[..i + 1], Labelled()), Count(s[..i + 1], Unlabelled()))
  {
    if EndsGroup(s, n - 1) && k == |CutsUpTo(s, n - 1)| {
      i := n - 1;
    } else {
      i := CutsOrigin(s, n - 1, k);
    }
  }

  lemma {:induction false} GroupEndsAreCuts(s: seq<Row>, n: nat, i: nat)
    requires i < n <= |s| && EndsGroup(s, i)
    ensures exists k | 0 <= k < |CutsUpTo(s, n)| :: CutsUpTo(s, n)[k].threshold == s[i].score
  {
    if i == n - 1 {
      assert CutsUpTo(s, n)[|CutsUpTo(s, n - 1)|].threshold == s[i].score;
    } else {
      GroupEndsAreCuts(s, n - 1, i);
      var k :| 0 <= k < |CutsUpTo(s, n - 1)| && CutsUpTo(s, n - 1)[k].threshold == s[i].score;
      assert CutsUpTo(s, n)[k].threshold == s[i].score;
    }
  }

  lemma AtOrAbove(s: seq<Row>, i: nat, r: Row)
    requires Descending(s) && i < |s|
    ensures r in s[..i + 1] ==> r.score >= s[i].score
    ensures EndsGroup(s, i) && r in s[i + 1..] ==> r.score < s[i].score
  {
    if r in s[..i + 1] {
      var j :| 0 <= j <= i && s[j] == r;
    }
    if EndsGroup(s, i) && r in s[i + 1..] {
      var j :| i + 1 <= j < |s| && s[j] == r;
      assert s[i + 1].score >= s[j].score;
    }
  }

  lemma CountUpTo(front: seq<Row>, back: seq<Row>, p: Row -> bool, q: Row -> bool)
    requires forall r | r in front :: p(r) == q(r)
    requires forall r | r in back :: !p(r)
    ensures Count(front + back, p) == Count(front, q)
  {
    CountAppend(front, back, p);
    CountCongruence(front, p, q);
    CountNone(back, p);
  }

  lemma PrefixCount(s: seq<Row>, i: nat, p: Row -> bool, q: Row -> bool)
    requires Descending(s) && i < |s| && EndsGroup(s, i)
    requires forall r | r in s :: p(r) == (r.score >= s[i].score && q(r))
    ensures Count(s, p) == Count(s[..i + 1], q)
  {
    var front, back := s[..i + 1], s[i + 1..];
    forall r | r in front ensures p(r) == q(r) {
      AtOrAbove(s, i, r);
    }
    forall r | r in back ensures !p(r) {
      AtOrAbove(s, i, r);
    }
    CountUpTo(front, back, p, q);
    assert s == front + back;
  }

  /** Up to a group end lie exactly the rows at or above its score. */
  lemma PrefixIsThePrediction(s: seq<Row>, i: nat)
    requires Descending(s) && i < |s| && EndsGroup(s, i)
    ensures Count(s, TruePositive(s[i].score)) == Count(s[..i + 1], Labelled())
    ensures Count(s, FalsePositive(s[i].score)) == Count(s[..i + 1], Unlabelled())
  {
    PrefixCount(s, i, TruePositive(s[i].score), Labelled());
    PrefixCount(s, i, FalsePositive(s[i].score), Unlabelled());
  }

  /** Every cut of the sweep carries the counts of the direct confusion at its threshold, ties or not. */
  lemma CutIsConfusion(rows: seq<Row>, k: nat)
    requires k < |Curve(rows)|
    ensures var cut := Curve(rows)[k];
            var c := ConfusionAt(rows, cut.threshold);
            && cut.tp == c.tp && cut.fp == c.fp && cut.tp + cut.fp > 0
  {
    var s := SortDown(rows);
    SortDownSorts(rows);
    var i := CutsOrigin(s, |s|, k);
    PrefixIsThePrediction(s, i);
    CountPermutation(s, rows, TruePositive(s[i].score));
    CountPermutation(s, rows, FalsePositive(s[i].score));
    CountUnion(s[..i + 1], Labelled(), Unlabelled(), (r: Row) => true);
    CountAll(s[..i + 1], (r: Row) => true);
  }

  lemma {:induction false} CutsDescend(s: seq<Row>, n: nat)
    requires Descending(s) && n <= |s|
    ensures forall j, k | 0 <= j < k < |CutsUpTo(s, n)| :: CutsUpTo(s, n)[j].threshold > CutsUpTo(s, n)[k].threshold
  {
    if n > 0 {
      CutsDescend(s, n - 1);
      var before := CutsUpTo(s, n - 1);
      if EndsGroup(s, n - 1) {
        forall j: nat | j < |before| ensures before[j].threshold > s[n - 1].score {
          var i := CutsOrigin(s, n - 1, j);
          assert s[i].score >= s[i + 1].score >= s[n - 1].score;
        }
      }
    }
  }

  /** The thresholds fall strictly, so every score appears once. */
  lemma CurveDescends(rows: seq<Row>)
    ensures forall j, k | 0 <= j < k < |Curve(rows)| :: Curve(rows)[j].threshold > Curve(rows)[k].threshold
  {
    SortDownSorts(rows);
    CutsDescend(SortDown(rows), |SortDown(rows)|);
  }

  predicate Predicts(rows: seq<Row>, threshold: real) {
    exists r | r in rows :: r.score >= threshold
  }

  lemma LastAtOrAbove(s: seq<Row>, threshold: real) returns (i: nat)
    requires Descending(s) && Predicts(s, threshold)
    ensures i < |s| && EndsGroup(s, i) && s[i].score >= threshold
    ensures forall j | 0 <= j < |s| :: s[j].score >= threshold <==> s[j].score >= s[i].score
  {
    var r :| r in s && r.score >= threshold;
    i :| 0 <= i < |s| && s[i] == r;
    while i + 1 < |s| && s[i + 1].score >= threshold
      invariant i < |s| && s[i].score >= threshold
      decreases |s| - i
    {
      i := i + 1;
    }
  }

  lemma SameSplit(rows: seq<Row>, a: real, b: real)
    requires forall r | r in rows :: r.score >= a <==> r.score >= b
    ensures ConfusionAt(rows, a) == ConfusionAt(rows, b)
  {
    CountCongruence(rows, TruePositive(a), TruePositive(b));
    CountCongruence(rows, FalsePositive(a), FalsePositive(b));
    CountCongruence(rows, FalseNegative(a), FalseNegative(b));
    CountCongruence(rows, TrueNegative(a), TrueNegative(b));
  }

  lemma SameRows(s: seq<Row>, rows: seq<Row>, r: Row)
    requires multiset(s) == multiset(rows)
    ensures r in s <==> r in rows
  {
    assert r in s <==> r in multiset(s);
    assert r in rows <==> r in multiset(rows);
  }

  /** A real threshold at or below the top score acts as one of the cuts, one that is not below it. */
  lemma EveryThresholdIsACut(rows: seq<Row>, threshold: real) returns (k: nat)
    requires Predicts(rows, threshold)
    ensures k < |Curve(rows)| && Curve(rows)[k].threshold >= threshold
    ensures ConfusionAt(rows, threshold) == ConfusionAt(rows, Curve(rows)[k].threshold)
  {
    var s := SortDown(rows);
    SortDownSorts(rows);
    var r :| r in rows && r.score >= threshold;
    SameRows(s, rows, r);
    var i := LastAtOrAbove(s, threshold);
    GroupEndsAreCuts(s, |s|, i);
    k :| 0 <= k < |Curve(rows)| && Curve(rows)[k].threshold == s[i].score;
    forall q | q in rows ensures q.score >= threshold <==> q.score >= s[i].score {
      SameRows(s, rows, q);
      var j :| 0 <= j < |s| && s[j] == q;
    }
    SameSplit(rows, threshold, s[i].score);
  }

  /** Above the top score nothing is predicted. */
  lemma NothingPredicted(rows: seq<Row>, threshold: real)
    requires !Predicts(rows, threshold)
    ensures ConfusionAt(rows, threshold).tp == 0 && ConfusionAt(rows, threshold).fp == 0
    ensures Precision(ConfusionAt(rows, threshold)) == 0.0 && Recall(ConfusionAt(rows, threshold)) == 0.0
    ensures F1(ConfusionAt(rows, threshold)) == 0.0
  {
    CountNone(rows, TruePositive(threshold));
    CountNone(rows, FalsePositive(threshold));
  }

  lemma CutsAreScores(rows: seq<Row>, k: nat)
    requires k < |Curve(rows)|
    ensures Predicts(rows, Curve(rows)[k].threshold) && exists r | r in rows :: r.score == Curve(rows)[k].threshold
  {
    var s := SortDown(rows);
    SortDownSorts(rows);
    var i := CutsOrigin(s, |s|, k);
    SameRows(s, rows, s[i]);
  }

  lemma CurveIsNotEmpty(rows: seq<Row>)
    requires rows != []
    ensures Curve(rows) != []
  {
    var k := EveryThresholdIsACut(rows, rows[0].score);
  }

  // The pickers.

  /** The first position of the greatest value: `argmax`. */
  function FirstMax(values: seq<real>): (k: nat)
    requires values != []
    ensures k < |values|
    ensures forall j | 0 <= j < |values| :: values[j] <= values[k]
    ensures forall j | 0 <= j < k :: values[j] < values[k]
  {
    if |values| == 1 then 0
    else
      var n := |values| - 1;
      var k := FirstMax(values[..n]);
      if values[n] > values[k] then n else k
  }

  function Positives(rows: seq<Row>): nat {
    Count(rows, Labelled())
  }

  function CutF1(cut: Cut, positives: nat): real {
    Ratio(2 * cut.tp, cut.tp + cut.fp + positives)
  }

  function F1s(rows: seq<Row>): (values: seq<real>)
    ensures |values| == |Curve(rows)|
  {
    seq(|Curve(rows)|, k requires 0 <= k < |Curve(rows)| => CutF1(Curve(rows)[k], Positives(rows)))
  }

  datatype Choice = Choice(threshold: real, value: real)

  /** Like the source, defined for at least one row: an empty sweep has no first cut. */
  function MaxF1Threshold(rows: seq<Row>): Choice
    requires rows != []
  {
    CurveIsNotEmpty(rows);
    var k := FirstMax(F1s(rows));
    Choice(Curve(rows)[k].threshold, F1s(rows)[k])
  }

  function Precisions(rows: seq<Row>): (values: seq<real>)
    ensures |values| == |Curve(rows)|
  {
    seq(|Curve(rows)|, k requires 0 <= k < |Curve(rows)| => Ratio(Curve(rows)[k].tp, Curve(rows)[k].tp + Curve(rows)[k].fp))
  }

  function Recalls(rows: seq<Row>): (values: seq<real>)
    ensures |values| == |Curve(rows)|
  {
    seq(|Curve(rows)|, k requires 0 <= k < |Curve(rows)| => Ratio(Curve(rows)[k].tp, Positives(rows)))
  }

  lemma CutF1Is(rows: seq<Row>, k: nat)
    requires k < |Curve(rows)|
    ensures F1s(rows)[k] == F1(ConfusionAt(rows, Curve(rows)[k].threshold)) >= 0.0
  {
    CutIsConfusion(rows, k);
    ConfusionSplitsTheRows(rows, Curve(rows)[k].threshold);
    RatioIsNotNegative(2 * Curve(rows)[k].tp, Curve(rows)[k].tp + Curve(rows)[k].fp + Positives(rows));
  }

  lemma CutPrecisionIs(rows: seq<Row>, k: nat)
    requires k < |Curve(rows)|
    ensures Precisions(rows)[k] == Precision(ConfusionAt(rows, Curve(rows)[k].threshold)) >= 0.0
  {
    CutIsConfusion(rows, k);
    RatioIsNotNegative(Curve(rows)[k].tp, Curve(rows)[k].tp + Curve(rows)[k].fp);
  }

  lemma CutRecallIs(rows: seq<Row>, k: nat)
    requires k < |Curve(rows)|
    ensures 0.0 <= Recalls(rows)[k] == Recall(ConfusionAt(rows, Curve(rows)[k].threshold)) <= 1.0
  {
    CutIsConfusion(rows, k);
    ConfusionSplitsTheRows(rows, Curve(rows)[k].threshold);
    RatioBounds(Curve(rows)[k].tp, Positives(rows));
  }

  lemma RatioIsNotNegative(part: nat, whole: nat)
    ensures Ratio(part, whole) >= 0.0
  {
  }

  lemma RatioBounds(part: nat, whole: nat)
    requires part <= whole
    ensures 0.0 <= Ratio(part, whole) <= 1.0
    ensures part > 0 ==> Ratio(part, whole) > 0.0
    ensures part == whole > 0 ==> Ratio(part, whole) == 1.0
  {
  }

  /** No real threshold beats the chosen one, and every higher threshold that still predicts something is strictly worse. */
  lemma MaxF1IsOptimal(rows: seq<Row>, threshold: real)
    requires rows != []
    ensures var best := MaxF1Threshold(rows);
            && (exists r | r in rows :: r.score == best.threshold)
            && best.value == F1(ConfusionAt(rows, best.threshold))
            && F1(ConfusionAt(rows, threshold)) <= best.value
            && (threshold > best.threshold && Predicts(rows, threshold) ==> F1(ConfusionAt(rows, threshold)) < best.value)
  {
    CurveIsNotEmpty(rows);
    var k := FirstMax(F1s(rows));
    CutF1Is(rows, k);
    CutsAreScores(rows, k);
    if Predicts(rows, threshold) {
      var j := EveryThresholdIsACut(rows, threshold);
      CutF1Is(rows, j);
      CurveDescends(rows);
    } else {
      NothingPredicted(rows, threshold);
    }
  }

  // Picking among eligible cuts: `flatnonzero(eligible)[argmax(values[eligible])]`.

  function FlatNonZero(mask: seq<bool>): seq<nat> {
    if mask == [] then []
    else
      var n := |mask| - 1;
      var before := FlatNonZero(mask[..n]);
      if mask[n] then before + [n] else before
  }

  lemma {:induction false} FlatNonZeroMembers(mask: seq<bool>, i: nat)
    ensures i in FlatNonZero(mask) <==> i < |mask| && mask[i]
  {
    if mask != [] {
      FlatNonZeroMembers(mask[..|mask| - 1], i);
    }
  }

  lemma {:induction false} FlatNonZeroRises(mask: seq<bool>)
    ensures forall i, j | 0 <= i < j < |FlatNonZero(mask)| :: FlatNonZero(mask)[i] < FlatNonZero(mask)[j]
  {
    if mask != [] {
      var n := |mask| - 1;
      FlatNonZeroRises(mask[..n]);
      var before := FlatNonZero(mask[..n]);
      forall i | 0 <= i < |before| ensures before[i] < n {
        assert before[i] in before;
        FlatNonZeroMembers(mask[..n], before[i]);
      }
    }
  }

  lemma FlatNonZeroIs(mask: seq<bool>)
    ensures forall i: nat :: i in FlatNonZero(mask) <==> i < |mask| && mask[i]
    ensures forall i, j | 0 <= i < j < |FlatNonZero(mask)| :: FlatNonZero(mask)[i] < FlatNonZero(mask)[j]
  {
    FlatNonZeroRises(mask);
    forall i: nat ensures i in FlatNonZero(mask) <==> i < |mask| && mask[i] {
      FlatNonZeroMembers(mask, i);
    }
  }

  function Picked(values: seq<real>, indices: seq<nat>): (r: seq<real>)
    requires forall i | i in indices :: i < |values|
    ensures |r| == |indices|
  {
    seq(|indices|, k requires 0 <= k < |indices| => assert indices[k] in indices; values[indices[k]])
  }

  /** Nothing when no position is eligible, where `argmax` of an empty array fails. */
  function FirstMaxAmong(values: seq<real>, mask: seq<bool>): Option<nat>
    requires |values| == |mask|
  {
    FlatNonZeroIs(mask);
    var indices := FlatNonZero(mask);
    if indices == [] then None else Some(indices[FirstMax(Picked(values, indices))])
  }

  lemma FirstMaxAmongIs(values: seq<real>, mask: seq<bool>)
    requires |values| == |mask|
    ensures FirstMaxAmong(values, mask).None? <==> forall j | 0 <= j < |mask| :: !mask[j]
    ensures FirstMaxAmong(values, mask).Some? ==>
              var k := FirstMaxAmong(values, mask).value;
              && k < |mask| && mask[k]
              && (forall j | 0 <= j < |mask| && mask[j] :: values[j] <= values[k])
              && (forall j | 0 <= j < k && mask[j] :: values[j] < values[k])
  {
    FlatNonZeroIs(mask);
    var indices := FlatNonZero(mask);
    if indices != [] {
      var best := FirstMax(Picked(values, indices));
      assert indices[best] in indices;
      forall j: nat | j < |mask| && mask[j]
        ensures values[j] <= values[indices[best]] && (j < indices[best] ==> values[j] < values[indices[best]])
      {
        assert j in indices;
        var i :| 0 <= i < |indices| && indices[i] == j;
        assert Picked(values, indices)[i] == values[j];
      }
    } else {
      forall j: nat | j < |mask| ensures !mask[j] {
        assert j !in indices;
      }
    }
  }

  /** `tp / positives >= target`; without positives the quotient is not a number and no comparison holds. */
  function ReachesRecall(rows: seq<Row>, target: real): (mask: seq<bool>)
    ensures |mask| == |Curve(rows)|
  {
    seq(|Curve(rows)|, k requires 0 <= k < |Curve(rows)| => Positives(rows) > 0 && Recalls(rows)[k] >= target)
  }

  function PrecisionAtRecall(rows: seq<Row>, target: real): Option<Choice> {
    var k := FirstMaxAmong(Precisions(rows), ReachesRecall(rows, target));
    FirstMaxAmongIs(Precisions(rows), ReachesRecall(rows, target));
    if k.None? then None else Some(Choice(Curve(rows)[k.value].threshold, Precisions(rows)[k.value]))
  }

  lemma LowestThreshold(rows: seq<Row>) returns (k: nat)
    requires rows != []
    ensures k < |Curve(rows)| && Curve(rows)[k].tp == Positives(rows)
  {
    var s := SortDown(rows);
    SortDownSorts(rows);
    var lowest := s[|s| - 1].score;
    SameRows(s, rows, s[|s| - 1]);
    forall r | r in rows ensures r.score >= lowest {
      SameRows(s, rows, r);
      var j :| 0 <= j < |s| && s[j] == r;
    }
    k := EveryThresholdIsACut(rows, lowest);
    CutIsConfusion(rows, k);
    CountCongruence(rows, TruePositive(lowest), Labelled());
  }

  /** A cut is found exactly when there are positives and the target is reachable at all. */
  lemma PrecisionAtRecallExistsIff(rows: seq<Row>, target: real)
    ensures PrecisionAtRecall(rows, target).Some? <==> Positives(rows) > 0 && target <= 1.0
  {
    FirstMaxAmongIs(Precisions(rows), ReachesRecall(rows, target));
    if Positives(rows) > 0 && target <= 1.0 {
      assert rows != [];
      var k := LowestThreshold(rows);
      RatioBounds(Curve(rows)[k].tp, Positives(rows));
      assert Recalls(rows)[k] == Ratio(Curve(rows)[k].tp, Positives(rows));
      assert ReachesRecall(rows, target)[k];
    }
    if PrecisionAtRecall(rows, target).Some? {
      CutRecallIs(rows, FirstMaxAmong(Precisions(rows), ReachesRecall(rows, target)).value);
    }
  }

  /** The chosen precision is the best over all real thresholds whose recall reaches the target, at the highest such cut. */
  lemma PrecisionAtRecallIsBest(rows: seq<Row>, target: real, threshold: real)
    requires PrecisionAtRecall(rows, target).Some?
    ensures var best := PrecisionAtRecall(rows, target).value;
            var c := ConfusionAt(rows, threshold);
            && best.value == Precision(ConfusionAt(rows, best.threshold))
            && Recall(ConfusionAt(rows, best.threshold)) >= target
            && (Recall(c) >= target ==> Precision(c) <= best.value)
            && (Recall(c) >= target && threshold > best.threshold && Predicts(rows, threshold) ==> Precision(c) < best.value)
  {
    var mask := ReachesRecall(rows, target);
    FirstMaxAmongIs(Precisions(rows), mask);
    var k := FirstMaxAmong(Precisions(rows), mask).value;
    CutPrecisionIs(rows, k);
    CutRecallIs(rows, k);
    if Predicts(rows, threshold) {
      var j := EveryThresholdIsACut(rows, threshold);
      CutPrecisionIs(rows, j);
      CutRecallIs(rows, j);
      CurveDescends(rows);
    } else {
      NothingPredicted(rows, threshold);
    }
  }

  /** The later search repeats the choice and keeps the threshold only. */
  function PrecisionThreshold(rows: seq<Row>, minRecall: real): Option<real> {
    FirstMaxAmongIs(Precisions(rows), ReachesRecall(rows, minRecall));
    var k := FirstMaxAmong(Precisions(rows), ReachesRecall(rows, minRecall));
    if k.None? then None else Some(Curve(rows)[k.value].threshold)
  }

  /** So it exists in the same cases, and no threshold that reaches the recall is more precise. */
  lemma PrecisionThresholdIsBest(rows: seq<Row>, minRecall: real, threshold: real)
    ensures PrecisionThreshold(rows, minRecall).Some? <==> Positives(rows) > 0 && minRecall <= 1.0
    ensures PrecisionThreshold(rows, minRecall).Some? ==>
              var best, c := PrecisionThreshold(rows, minRecall).value, ConfusionAt(rows, threshold);
              && Recall(ConfusionAt(rows, best)) >= minRecall
              && (Recall(c) >= minRecall ==> Precision(c) <= Precision(ConfusionAt(rows, best)))
              && (Recall(c) >= minRecall && threshold > best && Predicts(rows, threshold) ==> Precision(c) < Precision(ConfusionAt(rows, best)))
  {
    PrecisionAtRecallExistsIff(rows, minRecall);
    if PrecisionAtRecall(rows, minRecall).Some? {
      PrecisionAtRecallIsBest(rows, minRecall, threshold);
    }
  }

  // The margin against precision 0.7 and recall 0.5.

  function Lower(a: real, b: real): real {
    if b < a then b else a
  }

  function Margin(c: Confusion): real {
    Lower(Precision(c) - 0.7, Recall(c) - 0.5)
  }

  function Margins(rows: seq<Row>): (values: seq<real>)
    ensures |values| == |Curve(rows)|
  {
    seq(|Curve(rows)|, k requires 0 <= k < |Curve(rows)| =>
      Lower(Precisions(rows)[k] - 0.7, Recalls(rows)[k] - 0.5))
  }

  datatype MarginChoice = MarginChoice(threshold: real, margin: Option<real>)

  /** Without positives every margin is not a number, and the first cut is taken. */
  function MarginThreshold(rows: seq<Row>): MarginChoice
    requires rows != []
  {
    CurveIsNotEmpty(rows);
    if Positives(rows) == 0 then MarginChoice(Curve(rows)[0].threshold, None)
    else
      var k := FirstMax(Margins(rows));
      MarginChoice(Curve(rows)[k].threshold, Some(Margins(rows)[k]))
  }

  lemma MarginIsOptimal(rows: seq<Row>, threshold: real)
    requires Positives(rows) > 0 && rows != []
    ensures var best := MarginThreshold(rows);
            && best.margin == Some(Margin(ConfusionAt(rows, best.threshold)))
            && Margin(ConfusionAt(rows, threshold)) <= best.margin.value
            && (threshold > best.threshold && Predicts(rows, threshold) ==> Margin(ConfusionAt(rows, threshold)) < best.margin.value)
  {
    CurveIsNotEmpty(rows);
    var k := FirstMax(Margins(rows));
    CutMargin(rows, k);
    if Predicts(rows, threshold) {
      var j := EveryThresholdIsACut(rows, threshold);
      CutMargin(rows, j);
      CurveDescends(rows);
    } else {
      UselessMargin(rows, threshold);
    }
  }

  lemma CutMargin(rows: seq<Row>, k: nat)
    requires k < |Curve(rows)|
    ensures Margins(rows)[k] == Margin(ConfusionAt(rows, Curve(rows)[k].threshold)) >= -0.7
  {
    CutPrecisionIs(rows, k);
    CutRecallIs(rows, k);
  }

  lemma UselessMargin(rows: seq<Row>, threshold: real)
    requires !Predicts(rows, threshold)
    ensures Margin(ConfusionAt(rows, threshold)) == -0.7
  {
    NothingPredicted(rows, threshold);
  }

  /** The margin is not negative exactly when some threshold reaches precision 0.7 and recall 0.5 together. */
  lemma MarginDecidesQualification(rows: seq<Row>)
    requires Positives(rows) > 0 && rows != []
    ensures MarginThreshold(rows).margin.Some?
    ensures MarginThreshold(rows).margin.value >= 0.0 <==>
            exists t: real :: Precision(ConfusionAt(rows, t)) >= 0.7 && Recall(ConfusionAt(rows, t)) >= 0.5
  {
    MarginIsOptimal(rows, MarginThreshold(rows).threshold);
    if t: real :| Precision(ConfusionAt(rows, t)) >= 0.7 && Recall(ConfusionAt(rows, t)) >= 0.5 {
      MarginIsOptimal(rows, t);
    }
  }

  // Recall at a precision.

  function ReachesPrecision(rows: seq<Row>, target: real): (mask: seq<bool>)
    ensures |mask| == |Curve(rows)|
  {
    seq(|Curve(rows)|, k requires 0 <= k < |Curve(rows)| => Precisions(rows)[k] >= target)
  }

  function RecallAtPrecision(rows: seq<Row>, target: real): real {
    var k := FirstMaxAmong(Recalls(rows), ReachesPrecision(rows, target));
    FirstMaxAmongIs(Recalls(rows), ReachesPrecision(rows, target));
    if Positives(rows) == 0 || k.None? then 0.0 else Recalls(rows)[k.value]
  }

  lemma PreciseCut(rows: seq<Row>, target: real, k: nat)
    requires k < |Curve(rows)|
    ensures ReachesPrecision(rows, target)[k] <==> Precision(ConfusionAt(rows, Curve(rows)[k].threshold)) >= target
  {
    CutPrecisionIs(rows, k);
  }

  lemma RecallAtPrecisionBounds(rows: seq<Row>, target: real, k: nat)
    requires k < |Curve(rows)| && ReachesPrecision(rows, target)[k]
    ensures Recalls(rows)[k] <= RecallAtPrecision(rows, target)
  {
    FirstMaxAmongIs(Recalls(rows), ReachesPrecision(rows, target));
  }

  ghost predicate Precise(rows: seq<Row>, target: real, threshold: real) {
    Predicts(rows, threshold) && Precision(ConfusionAt(rows, threshold)) >= target
  }

  /** No threshold that predicts something with enough precision has a better recall. */
  lemma RecallAtPrecisionIsBest(rows: seq<Row>, target: real, threshold: real)
    requires Precise(rows, target, threshold)
    ensures Recall(ConfusionAt(rows, threshold)) <= RecallAtPrecision(rows, target)
  {
    var j := EveryThresholdIsACut(rows, threshold);
    PreciseCut(rows, target, j);
    CutRecallIs(rows, j);
    RecallAtPrecisionBounds(rows, target, j);
  }

  /** The result is the recall of such a threshold, or zero when there is none. */
  lemma RecallAtPrecisionIsAttained(rows: seq<Row>, target: real)
    ensures (exists t: real :: Precise(rows, target, t) && Recall(ConfusionAt(rows, t)) == RecallAtPrecision(rows, target))
         || ((forall t: real :: !Precise(rows, target, t)) && RecallAtPrecision(rows, target) == 0.0)
  {
    var best := FirstMaxAmong(Recalls(rows), ReachesPrecision(rows, target));
    FirstMaxAmongIs(Recalls(rows), ReachesPrecision(rows, target));
    if best.Some? {
      var t := Curve(rows)[best.value].threshold;
      PreciseCut(rows, target, best.value);
      CutRecallIs(rows, best.value);
      CutsAreScores(rows, best.value);
      ConfusionSplitsTheRows(rows, t);
      assert Precise(rows, target, t);
    } else {
      forall t: real ensures !Precise(rows, target, t) {
        if Precise(rows, target, t) {
          var j := EveryThresholdIsACut(rows, t);
          PreciseCut(rows, target, j);
        }
      }
    }
  }

  // The choices, said by counting rows.

  /** F1 of a against b, without dividing. */
  predicate F1AtMost(a: Confusion, b: Confusion) {
    2 * a.tp * (2 * b.tp + b.fp + b.fn) <= 2 * b.tp * (2 * a.tp + a.fp + a.fn)
  }

  predicate PrecisionAtMost(a: Confusion, b: Confusion) {
    a.tp * (b.tp + b.fp) <= b.tp * (a.tp + a.fp)
  }

  /** The value is the part's share of the whole. */
  ghost predicate IsShare(value: real, part: nat, whole: nat) {
    whole > 0 && value * whole as real == part as real
  }

  lemma F1Compares(a: Confusion, b: Confusion)
    requires b.tp + b.fp > 0
    ensures F1(a) <= F1(b) <==> F1AtMost(a, b)
    ensures IsShare(F1(b), 2 * b.tp, 2 * b.tp + b.fp + b.fn)
  {
    RatioIsQuotient(2 * b.tp, 2 * b.tp + b.fp + b.fn);
    if 2 * a.tp + a.fp + a.fn > 0 {
      RatiosCompare(2 * a.tp, 2 * a.tp + a.fp + a.fn, 2 * b.tp, 2 * b.tp + b.fp + b.fn);
    } else {
      RatioIsNotNegative(2 * b.tp, 2 * b.tp + b.fp + b.fn);
    }
  }

  lemma PrecisionCompares(a: Confusion, b: Confusion)
    requires b.tp + b.fp > 0
    ensures Precision(a) <= Precision(b) <==> PrecisionAtMost(a, b)
    ensures IsShare(Precision(b), b.tp, b.tp + b.fp)
  {
    RatioIsQuotient(b.tp, b.tp + b.fp);
    if a.tp + a.fp > 0 {
      RatiosCompare(a.tp, a.tp + a.fp, b.tp, b.tp + b.fp);
    } else {
      RatioIsNotNegative(b.tp, b.tp + b.fp);
    }
  }

  lemma PredictsSomething(rows: seq<Row>, threshold: real)
    ensures Predicts(rows, threshold) <==> ConfusionAt(rows, threshold).tp + ConfusionAt(rows, threshold).fp > 0
  {
    if r :| r in rows && r.score >= threshold {
      assert TruePositive(threshold)(r) || FalsePositive(threshold)(r);
    }
    CountPositive(rows, TruePositive(threshold));
    CountPositive(rows, FalsePositive(threshold));
  }

  /** The best F1 by counts, against every threshold. */
  lemma MaxF1IsOptimalByCounts(rows: seq<Row>, threshold: real)
    requires rows != []
    ensures var b := ConfusionAt(rows, MaxF1Threshold(rows).threshold);
            && F1AtMost(ConfusionAt(rows, threshold), b)
            && IsShare(MaxF1Threshold(rows).value, 2 * b.tp, 2 * b.tp + b.fp + b.fn)
  {
    var best := MaxF1Threshold(rows);
    var a, b := ConfusionAt(rows, threshold), ConfusionAt(rows, best.threshold);
    MaxF1IsOptimal(rows, threshold);
    PredictsSomething(rows, best.threshold);
    F1Compares(a, b);
  }

  predicate FindsShare(c: Confusion, target: real) {
    c.tp as real >= target * (c.tp + c.fn) as real
  }

  lemma FindsShareIff(rows: seq<Row>, target: real, threshold: real)
    requires Positives(rows) > 0
    ensures Recall(ConfusionAt(rows, threshold)) >= target <==> FindsShare(ConfusionAt(rows, threshold), target)
  {
    var c := ConfusionAt(rows, threshold);
    ConfusionSplitsTheRows(rows, threshold);
    RatioReaches(c.tp, c.tp + c.fn, target);
  }

  /** The most precise choice by counts, against every threshold that finds that share of the positives. */
  lemma PrecisionAtRecallIsBestByCounts(rows: seq<Row>, target: real, threshold: real)
    requires PrecisionAtRecall(rows, target).Some?
    ensures var best := PrecisionAtRecall(rows, target).value;
            var a, b := ConfusionAt(rows, threshold), ConfusionAt(rows, best.threshold);
            && FindsShare(b, target)
            && IsShare(best.value, b.tp, b.tp + b.fp)
            && (FindsShare(a, target) ==> PrecisionAtMost(a, b))
  {
    var best := PrecisionAtRecall(rows, target).value;
    var a, b := ConfusionAt(rows, threshold), ConfusionAt(rows, best.threshold);
    PrecisionAtRecallExistsIff(rows, target);
    PrecisionAtRecallIsBest(rows, target, threshold);
    FindsShareIff(rows, target, threshold);
    FindsShareIff(rows, target, best.threshold);
    ChosenCutPredicts(rows, target);
    PrecisionCompares(a, b);
  }

  lemma ChosenCutPredicts(rows: seq<Row>, target: real)
    requires PrecisionAtRecall(rows, target).Some?
    ensures var c := ConfusionAt(rows, PrecisionAtRecall(rows, target).value.threshold);
            c.tp + c.fp > 0
  {
    FirstMaxAmongIs(Precisions(rows), ReachesRecall(rows, target));
    CutIsConfusion(rows, FirstMaxAmong(Precisions(rows), ReachesRecall(rows, target)).value);
  }

  /** At least seven of ten predictions right and half of the positives found. */
  predicate QualifiesByCounts(c: Confusion) {
    c.tp + c.fp > 0 && 10 * c.tp >= 7 * (c.tp + c.fp) && 2 * c.tp >= c.tp + c.fn
  }

  lemma QualifiesIff(c: Confusion)
    requires c.tp + c.fn > 0
    ensures Precision(c) >= 0.7 && Recall(c) >= 0.5 <==> QualifiesByCounts(c)
  {
    MetricsAreQuotients(c);
    RatioReaches(c.tp, c.tp + c.fn, 0.5);
    if c.tp + c.fp > 0 {
      RatioReaches(c.tp, c.tp + c.fp, 0.7);
    }
  }

  /** The margin is not negative exactly if some threshold qualifies by counts. */
  lemma MarginQualifiesByCounts(rows: seq<Row>)
    requires Positives(rows) > 0 && rows != []
    ensures MarginThreshold(rows).margin.Some?
    ensures MarginThreshold(rows).margin.value >= 0.0 <==> exists t: real :: QualifiesByCounts(ConfusionAt(rows, t))
  {
    MarginDecidesQualification(rows);
    forall t: real
      ensures Precision(ConfusionAt(rows, t)) >= 0.7 && Recall(ConfusionAt(rows, t)) >= 0.5 <==> QualifiesByCounts(ConfusionAt(rows, t))
    {
      ConfusionSplitsTheRows(rows, t);
      QualifiesIff(ConfusionAt(rows, t));
    }
  }

  /** Without positives there is no margin, and the cut is the highest score. */
  lemma NoPositivesTakeTheTop(rows: seq<Row>)
    requires Positives(rows) == 0 && rows != []
    ensures var best := MarginThreshold(rows);
            && best.margin.None? && (exists r | r in rows :: r.score == best.threshold)
            && forall r | r in rows :: r.score <= best.threshold
  {
    CurveIsNotEmpty(rows);
    CutsAreScores(rows, 0);
    CurveDescends(rows);
    forall r | r in rows ensures r.score <= Curve(rows)[0].threshold {
      var k := EveryThresholdIsACut(rows, r.score);
    }
  }

  /** The margin is the smaller of the two slacks of the chosen cut. */
  lemma MarginIsTheSmallerSlack(rows: seq<Row>)
    requires Positives(rows) > 0 && rows != []
    ensures var best := MarginThreshold(rows);
            var c := ConfusionAt(rows, best.threshold);
            && best.margin.Some? && best.margin.value in {Precision(c) - 0.7, Recall(c) - 0.5}
            && best.margin.value <= Precision(c) - 0.7 && best.margin.value <= Recall(c) - 0.5
  {
    MarginIsOptimal(rows, 0.0);
  }

  /** At least the share `target` of the predictions is right. */
  predicate PreciseByCounts(c: Confusion, target: real) {
    c.tp + c.fp > 0 && c.tp as real >= target * (c.tp + c.fp) as real
  }

  lemma PreciseIff(rows: seq<Row>, target: real, threshold: real)
    ensures Precise(rows, target, threshold) <==> PreciseByCounts(ConfusionAt(rows, threshold), target)
  {
    var c := ConfusionAt(rows, threshold);
    PredictsSomething(rows, threshold);
    if c.tp + c.fp > 0 {
      RatioReaches(c.tp, c.tp + c.fp, target);
    }
  }

  lemma RecallIsShare(rows: seq<Row>, threshold: real)
    requires Positives(rows) > 0
    ensures IsShare(Recall(ConfusionAt(rows, threshold)), ConfusionAt(rows, threshold).tp, Positives(rows))
  {
    ConfusionSplitsTheRows(rows, threshold);
    RatioIsQuotient(ConfusionAt(rows, threshold).tp, Positives(rows));
  }

  lemma SharesCompare(x: real, y: real, part: nat, other: nat, whole: nat)
    requires IsShare(x, part, whole) && IsShare(y, other, whole)
    ensures x <= y <==> part <= other
  {
    Ordered(x, y, whole as real);
  }

  /** The recall at a precision by counts: some precise threshold finds exactly that share of the positives, and none finds more. */
  lemma RecallAtPrecisionByCounts(rows: seq<Row>, target: real, threshold: real) returns (best: real)
    requires Positives(rows) > 0 && PreciseByCounts(ConfusionAt(rows, threshold), target)
    ensures PreciseByCounts(ConfusionAt(rows, best), target)
    ensures IsShare(RecallAtPrecision(rows, target), ConfusionAt(rows, best).tp, Positives(rows))
    ensures ConfusionAt(rows, threshold).tp <= ConfusionAt(rows, best).tp
  {
    PreciseIff(rows, target, threshold);
    RecallAtPrecisionIsAttained(rows, target);
    best :| Precise(rows, target, best) && Recall(ConfusionAt(rows, best)) == RecallAtPrecision(rows, target);
    PreciseIff(rows, target, best);
    RecallAtPrecisionIsBest(rows, target, threshold);
    RecallIsShare(rows, threshold);
    RecallIsShare(rows, best);
    SharesCompare(Recall(ConfusionAt(rows, threshold)), RecallAtPrecision(rows, target), ConfusionAt(rows, threshold).tp,
                  ConfusionAt(rows, best).tp, Positives(rows));
  }
}
