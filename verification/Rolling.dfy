/**
 * Rolling features of the pump model, one signal column at a time, over real numbers.
 * The code works with per-group prefix sums and closed-form index sums; the meaning is a plain
 * least-squares fit on the last w samples of the row's own trajectory, left-padded with the profile.
 */
module Rolling {
  import opened Lists

  // Groups and positions.

  /** Rows outside trajectories become groups of their own. */
  function Groups(trajectory: seq<int>): seq<int> {
    seq(|trajectory|, i requires 0 <= i < |trajectory| => if trajectory[i] >= 0 then trajectory[i] else -1 - i)
  }

  /** `cumcount`: how many earlier rows belong to the same group. */
  function Position(group: seq<int>, i: nat): nat
    requires i < |group|
  {
    Count(group[..i], (g: int) => g == group[i])
  }

  /** The samples of group g among the first n rows, in row order. */
  function Samples(values: seq<real>, group: seq<int>, g: int, n: nat): seq<real>
    requires |values| == |group| && n <= |group|
  {
    if n == 0 then []
    else Samples(values, group, g, n - 1) + (if group[n - 1] == g then [values[n - 1]] else [])
  }

  /** A row's own trajectory up to and including that row. */
  function History(values: seq<real>, group: seq<int>, i: nat): seq<real>
    requires |values| == |group| && i < |group|
  {
    Samples(values, group, group[i], i + 1)
  }

  function Sum(s: seq<real>): real {
    if s == [] then 0.0 else Sum(s[..|s| - 1]) + s[|s| - 1]
  }

  /** 0 + 1 + ... + (n-1). */
  function IndexTotal(n: nat): real {
    if n == 0 then 0.0 else IndexTotal(n - 1) + (n - 1) as real
  }

  /** 0 + 1 + 4 + ... + (n-1)^2. */
  function SquareTotal(n: nat): real {
    if n == 0 then 0.0 else SquareTotal(n - 1) + (n - 1) as real * (n - 1) as real
  }

  lemma {:induction false} ClosedForms(n: nat)
    ensures IndexSum(n) == IndexTotal(n) && SquareSum(n) == SquareTotal(n)
  {
    if n > 0 {
      ClosedForms(n - 1);
      ClosedFormStep((n - 1) as real, n as real);
    }
  }

  lemma ClosedFormStep(m: real, n: real)
    requires n == m + 1.0
    ensures n * (n - 1.0) / 2.0 == m * (m - 1.0) / 2.0 + m
    ensures (n - 1.0) * n * (2.0 * n - 1.0) / 6.0 == (m - 1.0) * m * (2.0 * m - 1.0) / 6.0 + m * m
  {
  }

  /** n times x, by repeated addition. */
  function Scale(n: nat, x: real): real {
    if n == 0 then 0.0 else Scale(n - 1, x) + x
  }

  lemma {:induction false} ScaleIsProduct(n: nat, x: real)
    ensures Scale(n, x) == n as real * x
  {
    if n > 0 {
      ScaleIsProduct(n - 1, x);
    }
  }

  lemma {:induction false} ScaleAdds(m: nat, n: nat, x: real, y: real)
    ensures Scale(n, x + y) == Scale(n, x) + Scale(n, y)
    ensures Scale(m + n, x) == Scale(m, x) + Scale(n, x)
  {
    if n > 0 {
      ScaleAdds(m, n - 1, x, y);
    }
  }

  /** The samples weighted with their index. */
  function Moment(s: seq<real>): real {
    if s == [] then 0.0 else Moment(s[..|s| - 1]) + Scale(|s| - 1, s[|s| - 1])
  }

  function Repeat(x: real, n: nat): seq<real> {
    seq(n, _ => x)
  }

  function LastOf(s: seq<real>, w: nat): seq<real> {
    if |s| <= w then s else s[|s| - w..]
  }

  /** The last w entries of the profile repeated without end, followed by the history. */
  function PaddedWindow(profile: real, history: seq<real>, w: nat): (r: seq<real>)
    ensures |r| == w
  {
    (Repeat(profile, w) + history)[|history|..]
  }

  // The features as the code computes them.

  /** `groupby(group).cumsum()` at one row. */
  function Cumulative(values: seq<real>, group: seq<int>, i: nat): real
    requires |values| == |group| && i < |group|
  {
    GroupTotal(values, group, group[i], i + 1)
  }

  function GroupTotal(values: seq<real>, group: seq<int>, g: int, n: nat): real
    requires |values| == |group| && n <= |group|
  {
    if n == 0 then 0.0
    else GroupTotal(values, group, g, n - 1) + (if group[n - 1] == g then values[n - 1] else 0.0)
  }

  lemma {:induction false} PositionIsEarlier(group: seq<int>, i: nat)
    requires i < |group|
    ensures Position(group, i) <= i
  {
    CountIsBounded(group[..i], (g: int) => g == group[i]);
  }

  lemma {:induction false} CountIsBounded<T>(s: seq<T>, p: T -> bool)
    ensures Count(s, p) <= |s|
  {
    if s != [] {
      CountIsBounded(s[..|s| - 1], p);
    }
  }

  function RollingSum(values: seq<real>, group: seq<int>, w: nat, i: nat): real
    requires |values| == |group| && i < |group|
  {
    PositionIsEarlier(group, i);
    Cumulative(values, group, i) - (if Position(group, i) >= w then Cumulative(values, group, i - w) else 0.0)
  }

  function Inside(group: seq<int>, w: nat, i: nat): nat
    requires i < |group|
  {
    if Position(group, i) + 1 <= w then Position(group, i) + 1 else w
  }

  function Average(total: real, w: nat): real
    requires w >= 1
  {
    total / w as real
  }

  /** The mean of a window of w samples of which `inside` are real and sum to `sum`. */
  function MeanFrom(w: nat, inside: nat, sum: real, profile: real): real
    requires inside <= w && w >= 1
  {
    (sum + (w - inside) as real * profile) / w as real
  }

  function RollingMean(values: seq<real>, profile: real, group: seq<int>, w: nat, i: nat): real
    requires |values| == |group| && i < |group| && w >= 1
  {
    MeanFrom(w, Inside(group, w, i), RollingSum(values, group, w, i), profile)
  }

  function AtPosition(value: real, position: nat): real {
    value * position as real
  }

  function TimesPosition(values: seq<real>, group: seq<int>): seq<real>
    requires |values| == |group|
  {
    seq(|values|, i requires 0 <= i < |values| => AtPosition(values[i], Position(group, i)))
  }

  // The closed forms of 0 + 1 + ... + (w-1) and of the sum of their squares.

  function IndexSum(w: nat): real {
    w as real * (w as real - 1.0) / 2.0
  }

  function SquareSum(w: nat): real {
    (w as real - 1.0) * w as real * (2.0 * w as real - 1.0) / 6.0
  }

  function Determinant(n: real, k: real, kk: real): real {
    n * kk - k * k
  }

  lemma DenominatorIsPositive(w: nat)
    requires w >= 2
    ensures Determinant(w as real, IndexSum(w), SquareSum(w)) > 0.0
  {
    var n := w as real;
    assert Determinant(n, IndexSum(w), SquareSum(w)) == n * n * (n * n - 1.0) / 12.0;
    assert n * n >= 4.0;
  }

  /** The slope from the number of samples, the index sums, the sum and the index-weighted sum. */
  function SlopeOf(n: real, k: real, kk: real, x: real, y: real): real
    requires Determinant(n, k, kk) > 0.0
  {
    (n * y - k * x) / Determinant(n, k, kk)
  }

  function PaddedSum(w: nat, inside: nat, sum: real, profile: real): real
    requires inside <= w
  {
    sum + (w - inside) as real * profile
  }

  /** The index-weighted sum, recovered from the position-weighted one and the closed-form padding terms. */
  function PaddedMoment(n: real, padded: real, position: real, sum: real, sumPx: real, profile: real): real {
    var sumX := sum + padded * profile;
    var sumDx := position * sum - sumPx;
    (n - 1.0) * (sumX - padded * profile) - sumDx + profile * padded * (padded - 1.0) / 2.0
  }

  function RollingSlope(values: seq<real>, profile: real, group: seq<int>, w: nat, i: nat): real
    requires |values| == |group| && i < |group| && w >= 2
  {
    var inside, sum := Inside(group, w, i), RollingSum(values, group, w, i);
    var sumPx := RollingSum(TimesPosition(values, group), group, w, i);
    DenominatorIsPositive(w);
    SlopeOf(w as real, IndexSum(w), SquareSum(w),
            PaddedSum(w, inside, sum, profile), PaddedMoment(w as real, (w - inside) as real, Position(group, i) as real, sum, sumPx, profile))
  }

  // Prefix sums as sums of samples.

  lemma {:induction false} SampleCount(values: seq<real>, group: seq<int>, g: int, n: nat)
    requires |values| == |group| && n <= |group|
    ensures |Samples(values, group, g, n)| == Count(group[..n], (x: int) => x == g)
  {
    if n > 0 {
      SampleCount(values, group, g, n - 1);
      assert group[..n][..n - 1] == group[..n - 1];
    }
  }

  lemma HistoryLength(values: seq<real>, group: seq<int>, i: nat)
    requires |values| == |group| && i < |group|
    ensures |History(values, group, i)| == Position(group, i) + 1
  {
    SampleCount(values, group, group[i], i);
    CountCongruence(group[..i], (x: int) => x == group[i], (g: int) => g == group[i]);
  }

  lemma {:induction false} SumAppend(a: seq<real>, b: seq<real>)
    ensures Sum(a + b) == Sum(a) + Sum(b)
    ensures Moment(a + b) == Moment(a) + Scale(|a|, Sum(b)) + Moment(b)
  {
    if b == [] {
      assert a + b == a;
      ScaleAdds(0, |a|, 0.0, 0.0);
    } else {
      var front := b[..|b| - 1];
      assert (a + b)[..|a + b| - 1] == a + front;
      SumAppend(a, front);
      ScaleAdds(0, |a|, Sum(front), b[|b| - 1]);
      ScaleAdds(|a|, |front|, b[|b| - 1], 0.0);
    }
  }

  lemma {:induction false} GroupTotalIsSum(values: seq<real>, group: seq<int>, g: int, n: nat)
    requires |values| == |group| && n <= |group|
    ensures GroupTotal(values, group, g, n) == Sum(Samples(values, group, g, n))
  {
    if n > 0 {
      GroupTotalIsSum(values, group, g, n - 1);
      var front := Samples(values, group, g, n - 1);
      if group[n - 1] == g {
        SumAppend(front, [values[n - 1]]);
        assert [values[n - 1]][..0] == [];
      } else {
        assert front + [] == front;
      }
    }
  }

  ghost predicate OneGroup(group: seq<int>, lo: nat, hi: nat, g: int)
    requires lo <= hi <= |group|
  {
    forall j | lo <= j < hi :: group[j] == g
  }

  lemma {:induction false} SamplesOfRun(values: seq<real>, group: seq<int>, g: int, lo: nat, hi: nat)
    requires |values| == |group| && lo <= hi <= |group| && OneGroup(group, lo, hi, g)
    ensures Samples(values, group, g, hi) == Samples(values, group, g, lo) + values[lo..hi]
  {
    if lo < hi {
      SamplesOfRun(values, group, g, lo, hi - 1);
      assert values[lo..hi] == values[lo..hi - 1] + [values[hi - 1]];
    }
  }

  /** The row window of length w never crosses into another group. */
  ghost predicate WindowInGroup(group: seq<int>, w: nat, i: nat)
    requires i < |group|
  {
    Position(group, i) >= w ==> w <= i && OneGroup(group, i - w, i + 1, group[i])
  }

  ghost predicate Unbroken(group: seq<int>, w: nat) {
    forall i: nat | i < |group| :: WindowInGroup(group, w, i)
  }

  lemma RollingSumIsWindowSum(values: seq<real>, group: seq<int>, w: nat, i: nat)
    requires |values| == |group| && i < |group| && w >= 1 && WindowInGroup(group, w, i)
    ensures RollingSum(values, group, w, i) == Sum(LastOf(History(values, group, i), w))
  {
    var g, history := group[i], History(values, group, i);
    HistoryLength(values, group, i);
    GroupTotalIsSum(values, group, g, i + 1);
    if Position(group, i) >= w {
      var before := Samples(values, group, g, i - w + 1);
      GroupTotalIsSum(values, group, g, i - w + 1);
      SamplesOfRun(values, group, g, i - w + 1, i + 1);
      assert LastOf(history, w) == values[i - w + 1..i + 1];
      SumAppend(before, LastOf(history, w));
    }
  }

  /** The series that is 1 on one row and 0 elsewhere. */
  ghost predicate IsSpike(values: seq<real>, at: int) {
    forall j | 0 <= j < |values| :: values[j] == if j == at then 1.0 else 0.0
  }

  /** Where the spike ends up among the samples of a group; -1 when it is not among them. */
  function SpikeIndex(values: seq<real>, group: seq<int>, at: nat, g: int, n: nat): int
    requires |values| == |group| && at < |group|
  {
    if at < n && group[at] == g then |Samples(values, group, g, at)| else -1
  }

  lemma {:induction false} SpikeSamples(values: seq<real>, group: seq<int>, at: nat, g: int, n: nat)
    requires |values| == |group| && at < |group| && n <= |group| && IsSpike(values, at)
    ensures IsSpike(Samples(values, group, g, n), SpikeIndex(values, group, at, g, n))
    ensures SpikeIndex(values, group, at, g, n) < |Samples(values, group, g, n)|
  {
    if n > 0 {
      SpikeSamples(values, group, at, g, n - 1);
    }
  }

  lemma {:induction false} SumOfSpike(s: seq<real>, at: int)
    requires IsSpike(s, at)
    ensures Sum(s) == if 0 <= at < |s| then 1.0 else 0.0
  {
    if s != [] {
      SumOfSpike(s[..|s| - 1], at);
    }
  }

  lemma {:induction false} FewSamples(values: seq<real>, group: seq<int>, g: int, lo: nat, hi: nat)
    requires |values| == |group| && lo <= hi <= |group|
    ensures |Samples(values, group, g, lo)| <= |Samples(values, group, g, hi)| <= |Samples(values, group, g, lo)| + hi - lo
    ensures |Samples(values, group, g, hi)| == |Samples(values, group, g, lo)| + hi - lo ==> OneGroup(group, lo, hi, g)
  {
    if lo < hi {
      FewSamples(values, group, g, lo, hi - 1);
    }
  }

  lemma SpikeTotal(values: seq<real>, group: seq<int>, at: nat, i: nat)
    requires |values| == |group| && at <= i < |group| && IsSpike(values, at)
    ensures Cumulative(values, group, i) == if group[at] == group[i] then 1.0 else 0.0
  {
    GroupTotalIsSum(values, group, group[i], i + 1);
    SpikeSamples(values, group, at, group[i], i + 1);
    SumOfSpike(History(values, group, i), SpikeIndex(values, group, at, group[i], i + 1));
  }

  /** With a foreign row in between, the group's own last w samples still reach back to the spike. */
  lemma SpikeInWindow(values: seq<real>, group: seq<int>, w: nat, i: nat)
    requires |values| == |group| && i < |group| && 1 <= w <= i && w <= Position(group, i) && IsSpike(values, i - w)
    requires group[i - w] == group[i] ==> !OneGroup(group, i - w, i + 1, group[i])
    ensures Sum(LastOf(History(values, group, i), w)) == if group[i - w] == group[i] then 1.0 else 0.0
  {
    var at, g := i - w, group[i];
    var history := History(values, group, i);
    var index := SpikeIndex(values, group, at, g, i + 1);
    HistoryLength(values, group, i);
    SpikeSamples(values, group, at, g, i + 1);
    if group[at] == g {
      FewSamples(values, group, g, at + 1, i + 1);
      assert |Samples(values, group, g, at + 1)| == index + 1;
      assert !OneGroup(group, at + 1, i + 1, g);
      SumOfSpike(LastOf(history, w), index - (|history| - w));
    } else {
      SumOfSpike(LastOf(history, w), -1);
    }
  }

  /** When the row window leaves the group, a spike on its first row is summed wrongly. */
  lemma BrokenWindowIsSummedWrongly(values: seq<real>, group: seq<int>, w: nat, i: nat)
    requires |values| == |group| && i < |group| && w >= 1 && !WindowInGroup(group, w, i)
    requires IsSpike(values, i - w)
    ensures RollingSum(values, group, w, i) != Sum(LastOf(History(values, group, i), w))
  {
    PositionIsEarlier(group, i);
    SpikeTotal(values, group, i - w, i);
    SpikeTotal(values, group, i - w, i - w);
    SpikeInWindow(values, group, w, i);
  }

  ghost predicate ExactFor(values: seq<real>, group: seq<int>, w: nat)
    requires |values| == |group|
  {
    forall i: nat | i < |group| :: RollingSum(values, group, w, i) == Sum(LastOf(History(values, group, i), w))
  }

  /**
   * Subtracting the prefix sum from w rows earlier is the group's own window sum for every series
   * exactly when every full row window stays inside one group, which sorting by trajectory guarantees.
   */
  lemma RollingSumIsExactIff(group: seq<int>, w: nat)
    requires w >= 1
    ensures Unbroken(group, w) <==> forall values: seq<real> | |values| == |group| :: ExactFor(values, group, w)
  {
    if Unbroken(group, w) {
      forall values: seq<real>, i: nat | |values| == |group| && i < |group|
        ensures RollingSum(values, group, w, i) == Sum(LastOf(History(values, group, i), w))
      {
        assert WindowInGroup(group, w, i);
        RollingSumIsWindowSum(values, group, w, i);
      }
    } else {
      var i: nat :| i < |group| && !WindowInGroup(group, w, i);
      var spike := seq(|group|, j => if j == i - w then 1.0 else 0.0);
      BrokenWindowIsSummedWrongly(spike, group, w, i);
      assert !ExactFor(spike, group, w);
    }
  }

  /** The frame handed to the features is sorted by trajectory, so its windows never leave a group. */
  lemma SortedTrajectoriesAreUnbroken(trajectory: seq<int>, w: nat)
    requires Sorted(trajectory) && w >= 1
    ensures Unbroken(Groups(trajectory), w)
  {
    var group := Groups(trajectory);
    forall i: nat | i < |group| ensures WindowInGroup(group, w, i) {
      if Position(group, i) >= w {
        PositionIsEarlier(group, i);
        var j := EarlierMember(group, w, i);
        SortedRun(trajectory, j, i);
      }
    }
  }

  /** A position of w or more leaves a member of the group at or before the row w places earlier. */
  lemma EarlierMember(group: seq<int>, w: nat, i: nat) returns (j: nat)
    requires i < |group| && 1 <= w <= i && Position(group, i) >= w
    ensures j <= i - w && group[j] == group[i]
  {
    var p := (g: int) => g == group[i];
    var early, late := group[..i - w + 1], group[i - w + 1..i];
    assert group[..i] == early + late;
    CountAppend(early, late, p);
    CountIsBounded(late, p);
    CountPositive(early, p);
    var x :| x in early && p(x);
    j :| 0 <= j < |early| && early[j] == x;
  }

  lemma SortedRun(trajectory: seq<int>, j: nat, i: nat)
    requires Sorted(trajectory) && j < i < |trajectory|
    requires Groups(trajectory)[j] == Groups(trajectory)[i]
    ensures OneGroup(Groups(trajectory), j, i + 1, Groups(trajectory)[i])
  {
    assert trajectory[j] == trajectory[i] >= 0;
    forall k | j <= k < i + 1 ensures Groups(trajectory)[k] == Groups(trajectory)[i] {
      assert trajectory[j] <= trajectory[k] <= trajectory[i];
    }
  }

  // Means and slopes.

  function Weighted(s: seq<real>): seq<real> {
    if s == [] then [] else Weighted(s[..|s| - 1]) + [Scale(|s| - 1, s[|s| - 1])]
  }

  lemma {:induction false} WeightedSum(s: seq<real>)
    ensures |Weighted(s)| == |s|
    ensures Sum(Weighted(s)) == Moment(s)
  {
    if s != [] {
      WeightedSum(s[..|s| - 1]);
      assert Weighted(s)[..|s| - 1] == Weighted(s[..|s| - 1]);
    }
  }

  lemma {:induction false} WeightedPrefix(s: seq<real>, k: nat)
    requires k <= |s|
    ensures |Weighted(s)| == |s| && Weighted(s)[..k] == Weighted(s[..k])
  {
    WeightedSum(s);
    if k < |s| {
      var n := |s| - 1;
      WeightedPrefix(s[..n], k);
      assert s[..n][..k] == s[..k];
      assert Weighted(s)[..k] == Weighted(s[..n])[..k];
    } else {
      assert s[..k] == s;
    }
  }

  lemma WeightedSnoc(s: seq<real>, v: real)
    ensures Weighted(s + [v]) == Weighted(s) + [Scale(|s|, v)]
  {
    assert (s + [v])[..|s|] == s;
  }

  /** A row's position is the index of its sample within its trajectory. */
  lemma PositionIsSampleIndex(values: seq<real>, group: seq<int>, i: nat)
    requires |values| == |group| && i < |group|
    ensures TimesPosition(values, group)[i] == Scale(|Samples(values, group, group[i], i)|, values[i])
  {
    SampleCount(values, group, group[i], i);
    CountCongruence(group[..i], (x: int) => x == group[i], (g: int) => g == group[i]);
    PositionWeight(Position(group, i), values[i]);
  }

  lemma PositionWeight(n: nat, x: real)
    ensures AtPosition(x, n) == Scale(n, x)
  {
    ScaleIsProduct(n, x);
  }

  lemma {:induction false} PositionSamples(values: seq<real>, group: seq<int>, g: int, n: nat)
    requires |values| == |group| && n <= |group|
    ensures Samples(TimesPosition(values, group), group, g, n) == Weighted(Samples(values, group, g, n))
  {
    if n > 0 {
      PositionSamples(values, group, g, n - 1);
      var front := Samples(values, group, g, n - 1);
      if group[n - 1] == g {
        PositionIsSampleIndex(values, group, n - 1);
        WeightedSnoc(front, values[n - 1]);
      } else {
        assert front + [] == front && Weighted(front) + [] == Weighted(front);
      }
    }
  }

  /** Position-weighted samples, summed from position |front| on. */
  lemma WeightedTail(front: seq<real>, tail: seq<real>)
    ensures |Weighted(front + tail)| == |front| + |tail|
    ensures Sum(Weighted(front + tail)[|front|..]) == Scale(|front|, Sum(tail)) + Moment(tail)
  {
    WeightedSplit(front, tail);
    WeightedSum(front + tail);
    WeightedSum(front);
    SumAppend(front, tail);
    SumAppend(Weighted(front), Weighted(front + tail)[|front|..]);
  }

  lemma WeightedSplit(front: seq<real>, tail: seq<real>)
    ensures |Weighted(front + tail)| == |front| + |tail|
    ensures Weighted(front + tail) == Weighted(front) + Weighted(front + tail)[|front|..]
  {
    var all := front + tail;
    WeightedPrefix(all, |front|);
    assert all[..|front|] == front;
    assert Weighted(all) == Weighted(all)[..|front|] + Weighted(all)[|front|..];
  }

  lemma TailOfWeighted(h: seq<real>, w: nat)
    ensures var t := LastOf(h, w);
            Sum(LastOf(Weighted(h), w)) == Scale(|h| - |t|, Sum(t)) + Moment(t)
  {
    var t := LastOf(h, w);
    assert h == h[..|h| - |t|] + t;
    WeightedTail(h[..|h| - |t|], t);
    assert LastOf(Weighted(h), w) == Weighted(h)[|h| - |t|..];
  }

  lemma {:induction false} SumOfRepeat(x: real, n: nat)
    ensures Sum(Repeat(x, n)) == n as real * x
    ensures Moment(Repeat(x, n)) == x * IndexTotal(n)
  {
    if n > 0 {
      SumOfRepeat(x, n - 1);
      assert Repeat(x, n)[..n - 1] == Repeat(x, n - 1);
      ScaleIsProduct(n - 1, x);
    }
  }

  lemma PaddedParts(profile: real, history: seq<real>, w: nat)
    ensures var t := LastOf(history, w);
            && Sum(PaddedWindow(profile, history, w)) == Sum(Repeat(profile, w - |t|)) + Sum(t)
            && Moment(PaddedWindow(profile, history, w)) == Moment(Repeat(profile, w - |t|)) + Scale(w - |t|, Sum(t)) + Moment(t)
  {
    PaddedShape(profile, history, w);
    SumAppend(Repeat(profile, w - |LastOf(history, w)|), LastOf(history, w));
  }

  lemma PaddedShape(profile: real, history: seq<real>, w: nat)
    ensures PaddedWindow(profile, history, w) == Repeat(profile, w - |LastOf(history, w)|) + LastOf(history, w)
  {
  }

  lemma WindowFacts(values: seq<real>, group: seq<int>, w: nat, i: nat)
    requires |values| == |group| && i < |group| && w >= 1 && WindowInGroup(group, w, i)
    ensures var h := History(values, group, i);
            var t := LastOf(h, w);
            && |h| == Position(group, i) + 1 && |t| == Inside(group, w, i)
            && RollingSum(values, group, w, i) == Sum(t)
            && RollingSum(TimesPosition(values, group), group, w, i) == Scale(|h| - |t|, Sum(t)) + Moment(t)
  {
    RollingSumIsWindowSum(values, group, w, i);
    HistoryLength(values, group, i);
    WeightedWindow(values, group, w, i);
  }

  lemma WeightedWindow(values: seq<real>, group: seq<int>, w: nat, i: nat)
    requires |values| == |group| && i < |group| && w >= 1 && WindowInGroup(group, w, i)
    ensures var h := History(values, group, i);
            var t := LastOf(h, w);
            RollingSum(TimesPosition(values, group), group, w, i) == Scale(|h| - |t|, Sum(t)) + Moment(t)
  {
    var h := History(values, group, i);
    RollingSumIsWindowSum(TimesPosition(values, group), group, w, i);
    PositionSamples(values, group, group[i], i + 1);
    assert History(TimesPosition(values, group), group, i) == Weighted(h);
    TailOfWeighted(h, w);
  }

  lemma RollingMeanIsPaddedMean(values: seq<real>, profile: real, group: seq<int>, w: nat, i: nat)
    requires |values| == |group| && i < |group| && w >= 1 && Unbroken(group, w)
    ensures RollingMean(values, profile, group, w, i) == Average(Sum(PaddedWindow(profile, History(values, group, i), w)), w)
  {
    assert WindowInGroup(group, w, i);
    WindowFacts(values, group, w, i);
    PaddedParts(profile, History(values, group, i), w);
    MeanAlgebra(w, Inside(group, w, i), RollingSum(values, group, w, i), profile);
  }

  lemma MeanAlgebra(w: nat, inside: nat, sum: real, profile: real)
    requires inside <= w && w >= 1
    ensures MeanFrom(w, inside, sum, profile) == Average(Sum(Repeat(profile, w - inside)) + sum, w)
  {
    SumOfRepeat(profile, w - inside);
  }

  /** The slope of the straight line fitted to equally spaced samples. */
  function FittedSlope(window: seq<real>): real
    requires |window| >= 2
  {
    ClosedForms(|window|);
    DenominatorIsPositive(|window|);
    SlopeOf(|window| as real, IndexTotal(|window|), SquareTotal(|window|), Sum(window), Moment(window))
  }

  lemma RollingSlopeIsFittedSlope(values: seq<real>, profile: real, group: seq<int>, w: nat, i: nat)
    requires |values| == |group| && i < |group| && w >= 2 && Unbroken(group, w)
    ensures RollingSlope(values, profile, group, w, i) == FittedSlope(PaddedWindow(profile, History(values, group, i), w))
  {
    assert WindowInGroup(group, w, i);
    var h := History(values, group, i);
    var t := LastOf(h, w);
    WindowFacts(values, group, w, i);
    PaddedParts(profile, h, w);
    ClosedForms(w);
    PaddedSumIsSum(w, |t|, profile, Sum(t));
    PaddedMomentIsMoment(w, |t|, Position(group, i), profile, Sum(t), Moment(t), RollingSum(TimesPosition(values, group), group, w, i));
  }

  lemma PaddedSumIsSum(w: nat, inside: nat, profile: real, sum: real)
    requires inside <= w
    ensures PaddedSum(w, inside, sum, profile) == Sum(Repeat(profile, w - inside)) + sum
  {
    SumOfRepeat(profile, w - inside);
  }

  /** The closed-form padding terms: lag-weighted sums rewritten as index-weighted ones. */
  lemma PaddedMomentIsMoment(w: nat, inside: nat, position: nat, profile: real, sum: real, moment: real, sumPx: real)
    requires inside <= w && inside <= position + 1
    requires sumPx == Scale(position + 1 - inside, sum) + moment
    ensures PaddedMoment(w as real, (w - inside) as real, position as real, sum, sumPx, profile)
         == Moment(Repeat(profile, w - inside)) + Scale(w - inside, sum) + moment
  {
    var k, before := w - inside, position + 1 - inside;
    PaddingTerms(k, profile, sum);
    ScaleIsProduct(before, sum);
    AsReals(w, inside, position);
    MomentAlgebra(w as real, k as real, inside as real, position as real, before as real,
                  profile, sum, moment, sumPx, IndexTotal(k), Moment(Repeat(profile, k)), Scale(k, sum));
  }

  lemma AsReals(w: nat, inside: nat, position: nat)
    requires inside <= w && inside <= position + 1
    ensures (w - inside) as real == w as real - inside as real
    ensures (position + 1 - inside) as real == position as real + 1.0 - inside as real
  {
  }

  lemma PaddingTerms(k: nat, profile: real, sum: real)
    ensures IndexTotal(k) == k as real * (k as real - 1.0) / 2.0
    ensures Moment(Repeat(profile, k)) == profile * IndexTotal(k)
    ensures Scale(k, sum) == k as real * sum
  {
    ClosedForms(k);
    SumOfRepeat(profile, k);
    ScaleIsProduct(k, sum);
  }

  lemma MomentAlgebra(n: real, padded: real, inside: real, position: real, before: real,
                      profile: real, sum: real, moment: real, sumPx: real, total: real, padding: real, shift: real)
    requires padded == n - inside && before == position + 1.0 - inside
    requires sumPx == before * sum + moment && total == padded * (padded - 1.0) / 2.0
    requires padding == profile * total && shift == padded * sum
    ensures PaddedMoment(n, padded, position, sum, sumPx, profile) == padding + shift + moment
  {
    assert before * sum == position * sum + sum - inside * sum;
    assert padded * sum == n * sum - inside * sum;
  }

  // Least squares.

  function Square(x: real): real {
    x * x
  }

  function Squares(s: seq<real>): real {
    if s == [] then 0.0 else Squares(s[..|s| - 1]) + Square(s[|s| - 1])
  }

  function LineError(v: real, k: real, a: real, b: real): real {
    Square(v - a - b * k)
  }

  /** The squared error of the line a + b k on the samples. */
  function SquaredError(s: seq<real>, a: real, b: real): real {
    if s == [] then 0.0
    else SquaredError(s[..|s| - 1], a, b) + LineError(s[|s| - 1], (|s| - 1) as real, a, b)
  }

  /** The part of the squared error that depends on the line, from the sums of the window. */
  function Loss(n: real, k: real, kk: real, x: real, y: real, a: real, b: real): real {
    n * (a * a) + 2.0 * k * (a * b) + kk * (b * b) - 2.0 * (a * x) - 2.0 * (b * y)
  }

  lemma {:induction false} ErrorExpands(s: seq<real>, a: real, b: real)
    ensures SquaredError(s, a, b)
         == Squares(s) + Loss(|s| as real, IndexTotal(|s|), SquareTotal(|s|), Sum(s), Moment(s), a, b)
  {
    if s == [] {
      assert Loss(0.0, 0.0, 0.0, 0.0, 0.0, a, b) == 0.0;
    } else {
      var front := s[..|s| - 1];
      ErrorExpands(front, a, b);
      LossAt(|s| - 1, Sum(front), Moment(front), s[|s| - 1], a, b);
    }
  }

  lemma LossAt(n: nat, x: real, y: real, v: real, a: real, b: real)
    ensures Loss(n as real, IndexTotal(n), SquareTotal(n), x, y, a, b) + LineError(v, n as real, a, b)
         == Square(v) + Loss((n + 1) as real, IndexTotal(n + 1), SquareTotal(n + 1), x + v, y + Scale(n, v), a, b)
  {
    ScaleIsProduct(n, v);
    LossStep(n as real, IndexTotal(n), SquareTotal(n), x, y, v, a, b, (n + 1) as real, IndexTotal(n + 1), SquareTotal(n + 1), y + Scale(n, v));
  }

  lemma LossStep(n: real, k: real, kk: real, x: real, y: real, v: real, a: real, b: real, n': real, k': real, kk': real, y': real)
    requires n' == n + 1.0 && k' == k + n && kk' == kk + n * n && y' == y + n * v
    ensures Loss(n, k, kk, x, y, a, b) + LineError(v, n, a, b) == Square(v) + Loss(n', k', kk', x + v, y', a, b)
  {
    ErrorOfOne(v, n, a, b);
    Distribute(kk, n * n, b * b);
    Distribute(y, n * v, b);
    Distribute(k, n, a * b);
    Distribute(x, v, a);
    Distribute(n, 1.0, a * a);
  }

  lemma Distribute(x: real, y: real, z: real)
    ensures (x + y) * z == x * z + y * z
  {
  }

  lemma ErrorOfOne(v: real, n: real, a: real, b: real)
    ensures LineError(v, n, a, b)
         == v * v + a * a + (n * n) * (b * b) - 2.0 * (a * v) - 2.0 * (b * (n * v)) + 2.0 * (n * (a * b))
  {
  }

  function LevelOf(n: real, k: real, x: real, slope: real): real
    requires n > 0.0
  {
    (x - slope * k) / n
  }

  function FittedLevel(window: seq<real>): real
    requires |window| >= 2
  {
    LevelOf(|window| as real, IndexTotal(|window|), Sum(window), FittedSlope(window))
  }

  /** No line has a smaller squared error than the fitted one, and only that line attains it. */
  lemma FittedLineIsLeastSquares(window: seq<real>, a: real, b: real)
    requires |window| >= 2
    ensures SquaredError(window, a, b) >= SquaredError(window, FittedLevel(window), FittedSlope(window))
    ensures SquaredError(window, a, b) == SquaredError(window, FittedLevel(window), FittedSlope(window))
            ==> a == FittedLevel(window) && b == FittedSlope(window)
  {
    ErrorExpands(window, a, b);
    ErrorExpands(window, FittedLevel(window), FittedSlope(window));
    ClosedForms(|window|);
    DenominatorIsPositive(|window|);
    LossIsLeast(|window| as real, IndexTotal(|window|), SquareTotal(|window|), Sum(window), Moment(window), a, b);
  }

  lemma LossIsLeast(n: real, k: real, kk: real, x: real, y: real, a: real, b: real)
    requires n > 0.0 && Determinant(n, k, kk) > 0.0
    ensures var slope := SlopeOf(n, k, kk, x, y);
            var level := LevelOf(n, k, x, slope);
            && Loss(n, k, kk, x, y, a, b) >= Loss(n, k, kk, x, y, level, slope)
            && (Loss(n, k, kk, x, y, a, b) == Loss(n, k, kk, x, y, level, slope) ==> a == level && b == slope)
  {
    var slope := SlopeOf(n, k, kk, x, y);
    Quotient(n * y - k * x, Determinant(n, k, kk));
    Quotient(x - slope * k, n);
    NormalEquations(n, k, kk, x, y, Determinant(n, k, kk), LevelOf(n, k, x, slope), slope);
    LossGap(n, k, kk, x, y, LevelOf(n, k, x, slope), slope, a, b);
  }

  lemma Quotient(a: real, d: real)
    requires d > 0.0
    ensures a / d * d == a
  {
  }

  lemma NormalEquations(n: real, k: real, kk: real, x: real, y: real, d: real, level: real, slope: real)
    requires n > 0.0 && d == n * kk - k * k
    requires slope * d == n * y - k * x && level * n == x - slope * k
    ensures n * level + k * slope == x && k * level + kk * slope == y
  {
    assert n * (k * level + kk * slope) == k * (level * n) + slope * (n * kk);
    assert k * (level * n) == k * x - slope * (k * k);
    assert slope * d == slope * (n * kk) - slope * (k * k);
    assert n * (k * level + kk * slope) == n * y;
  }

  lemma LossGap(n: real, k: real, kk: real, x: real, y: real, level: real, slope: real, a: real, b: real)
    requires n > 0.0 && Determinant(n, k, kk) > 0.0
    requires n * level + k * slope == x && k * level + kk * slope == y
    ensures Loss(n, k, kk, x, y, a, b) >= Loss(n, k, kk, x, y, level, slope)
    ensures Loss(n, k, kk, x, y, a, b) == Loss(n, k, kk, x, y, level, slope) ==> a == level && b == slope
  {
    LossShift(n, k, kk, x, y, level, slope, a - level, b - slope);
    CompleteTheSquare(n, k, kk, a - level, b - slope);
  }

  lemma LossShift(n: real, k: real, kk: real, x: real, y: real, level: real, slope: real, p: real, q: real)
    requires n * level + k * slope == x && k * level + kk * slope == y
    ensures Loss(n, k, kk, x, y, level + p, slope + q) == Loss(n, k, kk, x, y, level, slope) + Form(n, k, kk, p, q)
  {
    assert p * x == n * (level * p) + k * (slope * p);
    assert q * y == k * (level * q) + kk * (slope * q);
  }

  function Form(n: real, k: real, kk: real, p: real, q: real): real {
    n * (p * p) + 2.0 * k * (p * q) + kk * (q * q)
  }

  lemma CompleteTheSquare(n: real, k: real, kk: real, p: real, q: real)
    requires n > 0.0 && Determinant(n, k, kk) > 0.0
    ensures Form(n, k, kk, p, q) >= 0.0
    ensures Form(n, k, kk, p, q) == 0.0 ==> p == 0.0 && q == 0.0
  {
    var r := n * p + k * q;
    assert n * Form(n, k, kk, p, q) == r * r + (n * kk - k * k) * (q * q);
    Definite(n, n * kk - k * k, Form(n, k, kk, p, q), r, q);
    if Form(n, k, kk, p, q) == 0.0 {
      assert q == 0.0 && n * p == 0.0;
      FactorIsZero(n, p);
    }
  }

  lemma Definite(n: real, d: real, form: real, r: real, q: real)
    requires n > 0.0 && d > 0.0 && n * form == r * r + d * (q * q)
    ensures form >= 0.0 && (form == 0.0 ==> r == 0.0 && q == 0.0)
  {
    NonNegative(r);
    NonNegative(q);
    Scaled(d, q * q);
    Scaled(n, form);
  }

  lemma Scaled(d: real, z: real)
    requires d > 0.0
    ensures (z > 0.0 <==> d * z > 0.0) && (z == 0.0 <==> d * z == 0.0)
  {
  }

  lemma FactorIsZero(n: real, p: real)
    requires n > 0.0 && n * p == 0.0
    ensures p == 0.0
  {
    Scaled(n, p);
  }

  lemma NonNegative(x: real)
    ensures x * x >= 0.0 && (x == 0.0 <==> x * x == 0.0)
  {
    if x > 0.0 {
      Scaled(x, x);
    } else if x < 0.0 {
      Scaled(-x, -x);
      assert (-x) * (-x) == x * x;
    }
  }

  // Samples since the first abnormal one of the trajectory.

  const NEVER: int := 0x7fff_ffff_ffff_ffff

  /** `groupby(group).cummin()` of the position where abnormal and the largest integer elsewhere. */
  function FirstAbnormal(abnormal: seq<bool>, group: seq<int>, g: int, n: nat): int
    requires |abnormal| == |group| && n <= |group|
  {
    if n == 0 then NEVER
    else
      var before := FirstAbnormal(abnormal, group, g, n - 1);
      if group[n - 1] == g && abnormal[n - 1] && Position(group, n - 1) < before then Position(group, n - 1) else before
  }

  function OnsetAge(abnormal: seq<bool>, group: seq<int>, i: nat): int
    requires |abnormal| == |group| && i < |group|
  {
    var first := FirstAbnormal(abnormal, group, group[i], i + 1);
    if first <= Position(group, i) then Position(group, i) - first else -1
  }

  /** Row j is the first abnormal row of group g, and lies among the first n rows. */
  ghost predicate Onset(abnormal: seq<bool>, group: seq<int>, g: int, n: nat, j: nat)
    requires |abnormal| == |group| && n <= |group|
  {
    j < n && group[j] == g && abnormal[j] && QuietUntil(abnormal, group, g, j)
  }

  ghost predicate QuietUntil(abnormal: seq<bool>, group: seq<int>, g: int, n: nat)
    requires |abnormal| == |group| && n <= |group|
  {
    forall k: nat | k < n && group[k] == g :: !abnormal[k]
  }

  function InGroup(g: int): int -> bool {
    (x: int) => x == g
  }

  lemma PositionsRise(group: seq<int>, j: nat, i: nat, g: int)
    requires j <= i <= |group|
    ensures Count(group[..i], InGroup(g)) == Count(group[..j], InGroup(g)) + Count(group[j..i], InGroup(g))
  {
    assert group[..i] == group[..j] + group[j..i];
    CountAppend(group[..j], group[j..i], InGroup(g));
  }

  lemma PositionIs(group: seq<int>, i: nat)
    requires i < |group|
    ensures Position(group, i) == Count(group[..i], InGroup(group[i])) <= i
  {
    CountCongruence(group[..i], (g: int) => g == group[i], InGroup(group[i]));
    CountIsBounded(group[..i], InGroup(group[i]));
  }

  /** The running minimum is the position of the first abnormal row, because positions only rise. */
  lemma {:induction false} FirstAbnormalIs(abnormal: seq<bool>, group: seq<int>, g: int, n: nat)
    requires |abnormal| == |group| < NEVER && n <= |group|
    ensures QuietUntil(abnormal, group, g, n) ==> FirstAbnormal(abnormal, group, g, n) == NEVER
    ensures forall j: nat | Onset(abnormal, group, g, n, j) :: FirstAbnormal(abnormal, group, g, n) == Position(group, j)
  {
    if n > 0 {
      FirstAbnormalIs(abnormal, group, g, n - 1);
      forall j: nat | Onset(abnormal, group, g, n, j) ensures FirstAbnormal(abnormal, group, g, n) == Position(group, j) {
        PositionIs(group, j);
        PositionIs(group, n - 1);
        if j < n - 1 {
          assert Onset(abnormal, group, g, n - 1, j);
          PositionsRise(group, j, n - 1, g);
        }
      }
    }
  }

  lemma {:induction false} OnsetExists(abnormal: seq<bool>, group: seq<int>, g: int, n: nat)
    requires |abnormal| == |group| && n <= |group|
    ensures QuietUntil(abnormal, group, g, n) || exists j: nat :: Onset(abnormal, group, g, n, j)
  {
    if n > 0 {
      OnsetExists(abnormal, group, g, n - 1);
      if QuietUntil(abnormal, group, g, n - 1) {
        if group[n - 1] == g && abnormal[n - 1] {
          assert Onset(abnormal, group, g, n, n - 1);
        }
      } else {
        var j: nat :| Onset(abnormal, group, g, n - 1, j);
        assert Onset(abnormal, group, g, n, j);
      }
    }
  }

  /** From the first abnormal row on, the age counts the rows of the trajectory after it. */
  lemma OnsetAgeCountsTheRowsSince(abnormal: seq<bool>, group: seq<int>, i: nat, j: nat)
    requires |abnormal| == |group| < NEVER && i < |group| && Onset(abnormal, group, group[i], i + 1, j)
    ensures OnsetAge(abnormal, group, i) == Count(group[j + 1..i + 1], InGroup(group[i]))
  {
    FirstAbnormalIs(abnormal, group, group[i], i + 1);
    PositionIs(group, i);
    PositionIs(group, j);
    RowsSince(group, j, i);
  }

  /** The age is missing exactly while the trajectory has been normal. */
  lemma OnsetAgeIsMissingIff(abnormal: seq<bool>, group: seq<int>, i: nat)
    requires |abnormal| == |group| < NEVER && i < |group|
    ensures OnsetAge(abnormal, group, i) == -1 <==> QuietUntil(abnormal, group, group[i], i + 1)
  {
    FirstAbnormalIs(abnormal, group, group[i], i + 1);
    PositionIs(group, i);
    OnsetExists(abnormal, group, group[i], i + 1);
    if !QuietUntil(abnormal, group, group[i], i + 1) {
      var j: nat :| Onset(abnormal, group, group[i], i + 1, j);
      OnsetAgeCountsTheRowsSince(abnormal, group, i, j);
    }
  }

  lemma RowsSince(group: seq<int>, j: nat, i: nat)
    requires j <= i < |group| && group[j] == group[i]
    ensures Count(group[j + 1..i + 1], InGroup(group[i])) == Count(group[..i], InGroup(group[i])) - Count(group[..j], InGroup(group[i]))
  {
    var p := InGroup(group[i]);
    PositionsRise(group, j + 1, i + 1, group[i]);
    assert group[..j + 1] == group[..j] + [group[j]] && group[..i + 1] == group[..i] + [group[i]];
    CountSnoc(group[..j], group[j], p);
    CountSnoc(group[..i], group[i], p);
  }

  // A whole frame, from its trajectory column.

  /** Two rows share a group exactly if they are the same row or of the same trajectory. */
  lemma GroupsSplitTheRows(trajectory: seq<int>, i: nat, j: nat)
    requires i < |trajectory| && j < |trajectory|
    ensures Groups(trajectory)[i] == Groups(trajectory)[j] <==> i == j || trajectory[i] == trajectory[j] >= 0
  {
  }

  /** What a row may look back on: its trajectory so far, or just itself outside trajectories. */
  function OwnHistory(values: seq<real>, trajectory: seq<int>, i: nat): seq<real>
    requires |values| == |trajectory| && i < |trajectory|
  {
    if trajectory[i] < 0 then [values[i]] else OfTrajectory(values[..i + 1], trajectory[..i + 1], trajectory[i])
  }

  function OfTrajectory(values: seq<real>, trajectory: seq<int>, t: int): seq<real>
    requires |values| == |trajectory|
  {
    if values == [] then []
    else
      var n := |values| - 1;
      OfTrajectory(values[..n], trajectory[..n], t) + (if trajectory[n] == t then [values[n]] else [])
  }

  lemma {:induction false} SamplesOfTrajectory(values: seq<real>, trajectory: seq<int>, t: int, n: nat)
    requires |values| == |trajectory| && n <= |trajectory| && t >= 0
    ensures Samples(values, Groups(trajectory), t, n) == OfTrajectory(values[..n], trajectory[..n], t)
  {
    if n > 0 {
      SamplesOfTrajectory(values, trajectory, t, n - 1);
      assert values[..n][..n - 1] == values[..n - 1] && trajectory[..n][..n - 1] == trajectory[..n - 1];
    }
  }

  lemma {:induction false} NoSamplesBefore(values: seq<real>, trajectory: seq<int>, i: nat, n: nat)
    requires |values| == |trajectory| && n <= i < |trajectory| && trajectory[i] < 0
    ensures Samples(values, Groups(trajectory), Groups(trajectory)[i], n) == []
  {
    if n > 0 {
      NoSamplesBefore(values, trajectory, i, n - 1);
      GroupsSplitTheRows(trajectory, i, n - 1);
    }
  }

  /** The history that the grouped columns use is the row's own one. */
  lemma HistoryIsOwn(values: seq<real>, trajectory: seq<int>, i: nat)
    requires |values| == |trajectory| && i < |trajectory|
    ensures History(values, Groups(trajectory), i) == OwnHistory(values, trajectory, i)
    ensures trajectory[i] < 0 ==> Position(Groups(trajectory), i) == 0
  {
    HistoryLength(values, Groups(trajectory), i);
    if trajectory[i] < 0 {
      NoSamplesBefore(values, trajectory, i, i);
    } else {
      SamplesOfTrajectory(values, trajectory, trajectory[i], i + 1);
    }
  }

  /** In a frame sorted by trajectory, the rolling mean of a row is that of its own history behind the profile. */
  lemma FrameMean(values: seq<real>, profile: real, trajectory: seq<int>, w: nat, i: nat)
    requires |values| == |trajectory| && i < |trajectory| && Sorted(trajectory) && w >= 1
    ensures RollingMean(values, profile, Groups(trajectory), w, i) * w as real == Sum(PaddedWindow(profile, OwnHistory(values, trajectory, i), w))
  {
    SortedTrajectoriesAreUnbroken(trajectory, w);
    RollingMeanIsPaddedMean(values, profile, Groups(trajectory), w, i);
    HistoryIsOwn(values, trajectory, i);
    Quotient(Sum(PaddedWindow(profile, OwnHistory(values, trajectory, i), w)), w as real);
  }

  /** And its rolling slope belongs to the one line that fits that window best. */
  lemma FrameSlope(values: seq<real>, profile: real, trajectory: seq<int>, w: nat, i: nat, a: real, b: real)
    requires |values| == |trajectory| && i < |trajectory| && Sorted(trajectory) && w >= 2
    ensures var window := PaddedWindow(profile, OwnHistory(values, trajectory, i), w);
            var slope := RollingSlope(values, profile, Groups(trajectory), w, i);
            && SquaredError(window, a, b) >= SquaredError(window, FittedLevel(window), slope)
            && (SquaredError(window, a, b) == SquaredError(window, FittedLevel(window), slope) ==> b == slope)
  {
    SortedTrajectoriesAreUnbroken(trajectory, w);
    RollingSlopeIsFittedSlope(values, profile, Groups(trajectory), w, i);
    HistoryIsOwn(values, trajectory, i);
    FittedLineIsLeastSquares(PaddedWindow(profile, OwnHistory(values, trajectory, i), w), a, b);
  }

  /** Row j is the first abnormal row of the trajectory of row i, and not after it. */
  ghost predicate FirstOf(abnormal: seq<bool>, trajectory: seq<int>, i: nat, j: nat)
    requires |abnormal| == |trajectory| && i < |trajectory|
  {
    && j <= i && abnormal[j] && trajectory[j] == trajectory[i]
    && forall k: nat | k < j && trajectory[k] == trajectory[i] :: !abnormal[k]
  }

  function OfSame(t: int): int -> bool {
    (x: int) => x == t
  }

  lemma {:induction false} GroupCount(trajectory: seq<int>, t: int, j: nat, n: nat)
    requires j <= n <= |trajectory| && t >= 0
    ensures Count(Groups(trajectory)[j..n], InGroup(t)) == Count(trajectory[j..n], OfSame(t))
  {
    CountsAgree(Groups(trajectory)[j..n], InGroup(t), trajectory[j..n], OfSame(t));
  }

  /**
   * Onset ages of a frame: outside trajectories 0 or missing by the row itself; inside, missing while no row so far was
   * abnormal, and otherwise the number of the trajectory's rows after its first abnormal one.
   */
  lemma FrameOnsetAge(abnormal: seq<bool>, trajectory: seq<int>, i: nat)
    requires |abnormal| == |trajectory| < NEVER && i < |trajectory|
    ensures var age := OnsetAge(abnormal, Groups(trajectory), i);
            if trajectory[i] < 0 then age == if abnormal[i] then 0 else -1
            else
              && ((forall k: nat | k <= i && trajectory[k] == trajectory[i] :: !abnormal[k]) ==> age == -1)
              && (forall j: nat | FirstOf(abnormal, trajectory, i, j) :: age == Count(trajectory[j + 1..i + 1], OfSame(trajectory[i])))
  {
    var group := Groups(trajectory);
    if trajectory[i] < 0 {
      forall k: nat | k < |group| && k != i ensures group[k] != group[i] {
        GroupsSplitTheRows(trajectory, i, k);
      }
      if abnormal[i] {
        assert Onset(abnormal, group, group[i], i + 1, i);
        OnsetAgeCountsTheRowsSince(abnormal, group, i, i);
      } else {
        OnsetAgeIsMissingIff(abnormal, group, i);
      }
    } else {
      forall k: nat | k < |group| ensures group[k] == group[i] <==> trajectory[k] == trajectory[i] {
        GroupsSplitTheRows(trajectory, i, k);
      }
      OnsetAgeIsMissingIff(abnormal, group, i);
      forall j: nat | FirstOf(abnormal, trajectory, i, j)
        ensures OnsetAge(abnormal, group, i) == Count(trajectory[j + 1..i + 1], OfSame(trajectory[i]))
      {
        assert Onset(abnormal, group, group[i], i + 1, j);
        OnsetAgeCountsTheRowsSince(abnormal, group, i, j);
        GroupCount(trajectory, trajectory[i], j + 1, i + 1);
      }
    }
  }

  // The abnormal column: some signal more than four noise units from its profile.

  function Units(x: real, profile: real, noise: real): real
    requires noise > 0.0
  {
    (x - profile) / noise
  }

  function IsAbnormal(signals: seq<real>, profile: seq<real>, noise: seq<real>): bool
    requires |signals| == |profile| == |noise| && forall k | 0 <= k < |noise| :: noise[k] > 0.0
  {
    exists k | 0 <= k < |signals| :: Units(signals[k], profile[k], noise[k]) > 4.0 || -Units(signals[k], profile[k], noise[k]) > 4.0
  }

  lemma UnitsReach(x: real, profile: real, noise: real)
    requires noise > 0.0
    ensures Units(x, profile, noise) > 4.0 <==> x > profile + 4.0 * noise
    ensures -Units(x, profile, noise) > 4.0 <==> x < profile - 4.0 * noise
  {
    var u := Units(x, profile, noise);
    Quotient(x - profile, noise);
    Scaled(noise, u - 4.0);
    Scaled(noise, -u - 4.0);
    assert noise * (u - 4.0) == (x - profile) - 4.0 * noise;
    assert noise * (-u - 4.0) == -(x - profile) - 4.0 * noise;
  }

  /** A row is abnormal exactly if some signal lies outside the band of four noise units around its profile. */
  lemma AbnormalIff(signals: seq<real>, profile: seq<real>, noise: seq<real>)
    requires |signals| == |profile| == |noise| && forall k | 0 <= k < |noise| :: noise[k] > 0.0
    ensures IsAbnormal(signals, profile, noise)
       <==> exists k | 0 <= k < |signals| :: !(profile[k] - 4.0 * noise[k] <= signals[k] <= profile[k] + 4.0 * noise[k])
  {
    forall k | 0 <= k < |signals|
      ensures Units(signals[k], profile[k], noise[k]) > 4.0 <==> signals[k] > profile[k] + 4.0 * noise[k]
      ensures -Units(signals[k], profile[k], noise[k]) > 4.0 <==> signals[k] < profile[k] - 4.0 * noise[k]
    {
      UnitsReach(signals[k], profile[k], noise[k]);
    }
  }
}
