/**
 * Series of one sensor: equal neighbours merged into intervals for categorical values, fixed-width buckets with means for
 * numeric ones, and the list of gaps over an hour. Times are UTC microseconds; values are exact reals.
 */
module Series {
  import opened Lists

  const SECOND: int := 1_000_000
  const GAP: int := 3600 * SECOND

  datatype Reading = Reading(time: int, raw: string, value: Option<real>, alarm: bool, anomaly: bool)

  // Categorical series.

  datatype Interval = Interval(from: int, to: int, value: string, alarm: bool)

  /** The maximal runs of equal raw values. */
  function Runs(readings: seq<Reading>): seq<seq<Reading>> {
    if readings == [] then [] else WithReading(Runs(readings[..|readings| - 1]), readings[|readings| - 1])
  }

  function Value(run: seq<Reading>): Option<string> {
    if run == [] then None else Some(run[|run| - 1].raw)
  }

  function Flat(parts: seq<seq<Reading>>): seq<Reading> {
    if parts == [] then [] else Flat(parts[..|parts| - 1]) + parts[|parts| - 1]
  }

  predicate IsRun(part: seq<Reading>) {
    part != [] && forall i | 0 <= i < |part| :: part[i].raw == part[|part| - 1].raw
  }

  /** Every part is a non-empty run of one value, and neighbouring parts differ. */
  ghost predicate AreRuns(parts: seq<seq<Reading>>) {
    && (forall k | 0 <= k < |parts| :: IsRun(parts[k]))
    && forall k | 0 < k < |parts| :: Differs(parts, k)
  }

  ghost predicate Differs(parts: seq<seq<Reading>>, k: nat)
    requires 0 < k < |parts|
  {
    Value(parts[k - 1]) != Value(parts[k])
  }

  lemma FlatSnoc(parts: seq<seq<Reading>>, part: seq<Reading>)
    ensures Flat(parts + [part]) == Flat(parts) + part
  {
    assert (parts + [part])[..|parts|] == parts;
  }

  /** One more reading lengthens the last run or opens a new one. */
  function WithReading(runs: seq<seq<Reading>>, r: Reading): seq<seq<Reading>> {
    if runs != [] && Value(runs[|runs| - 1]) == Some(r.raw)
    then runs[..|runs| - 1] + [runs[|runs| - 1] + [r]]
    else runs + [[r]]
  }

  lemma WithReadingFlattens(runs: seq<seq<Reading>>, r: Reading)
    ensures Flat(WithReading(runs, r)) == Flat(runs) + [r]
  {
    if runs != [] && Value(runs[|runs| - 1]) == Some(r.raw) {
      var m := |runs| - 1;
      FlatSnoc(runs[..m], runs[m] + [r]);
    } else {
      FlatSnoc(runs, [r]);
    }
  }

  lemma WithReadingKeepsRuns(runs: seq<seq<Reading>>, r: Reading)
    requires AreRuns(runs)
    ensures AreRuns(WithReading(runs, r))
  {
    if runs != [] && Value(runs[|runs| - 1]) == Some(r.raw) {
      Extended(runs, r);
    } else {
      var after := runs + [[r]];
      forall k | 0 < k < |after| ensures Differs(after, k) {
        if k < |runs| {
          assert Differs(runs, k);
        }
      }
    }
  }

  lemma {:induction false} RunsAreRuns(readings: seq<Reading>)
    ensures AreRuns(Runs(readings)) && Flat(Runs(readings)) == readings
  {
    if readings != [] {
      var n := |readings| - 1;
      RunsAreRuns(readings[..n]);
      WithReadingKeepsRuns(Runs(readings[..n]), readings[n]);
      WithReadingFlattens(Runs(readings[..n]), readings[n]);
    }
  }

  lemma Extended(parts: seq<seq<Reading>>, r: Reading)
    requires AreRuns(parts) && parts != [] && Value(parts[|parts| - 1]) == Some(r.raw)
    ensures AreRuns(parts[..|parts| - 1] + [parts[|parts| - 1] + [r]])
  {
    var m := |parts| - 1;
    var after := parts[..m] + [parts[m] + [r]];
    assert IsRun(parts[m]);
    forall k | 0 < k < |after| ensures Differs(after, k) {
      assert Differs(parts, k);
    }
  }

  function IntervalOf(run: seq<Reading>): Interval
    requires run != []
  {
    Interval(run[0].time, run[|run| - 1].time, run[|run| - 1].raw, run[|run| - 1].alarm)
  }

  /** An interval lasts from its first reading to its last, has the value of them all, and the state of the last. */
  ghost predicate Spans(v: Interval, run: seq<Reading>) {
    && run != [] && v.from == run[0].time && v.to == run[|run| - 1].time && v.alarm == run[|run| - 1].alarm
    && forall r | r in run :: r.raw == v.value
  }

  ghost predicate Encodes(intervals: seq<Interval>, parts: seq<seq<Reading>>) {
    |intervals| == |parts| && forall k | 0 <= k < |parts| :: parts[k] != [] && intervals[k] == IntervalOf(parts[k])
  }

  lemma IntervalsFollow(intervals: seq<Interval>, runs: seq<seq<Reading>>, r: Reading)
    requires Encodes(intervals, runs)
    ensures var n := |intervals| - 1;
            if n >= 0 && intervals[n].value == r.raw
            then Encodes(intervals[n := Interval(intervals[n].from, r.time, intervals[n].value, r.alarm)], WithReading(runs, r))
            else Encodes(intervals + [Interval(r.time, r.time, r.raw, r.alarm)], WithReading(runs, r))
  {
    if runs != [] {
      assert intervals[|runs| - 1] == IntervalOf(runs[|runs| - 1]);
    }
  }

  /** The loop extends the last interval or opens a new one; its output encodes the maximal runs. */
  method BuildCategorical(readings: seq<Reading>) returns (intervals: seq<Interval>)
    ensures Encodes(intervals, Runs(readings))
    ensures forall k | 0 <= k < |intervals| :: Spans(intervals[k], Runs(readings)[k])
  {
    intervals := [];
    for i := 0 to |readings|
      invariant Encodes(intervals, Runs(readings[..i]))
    {
      var r := readings[i];
      assert readings[..i + 1][..i] == readings[..i];
      IntervalsFollow(intervals, Runs(readings[..i]), r);
      var n := |intervals| - 1;
      if n >= 0 && intervals[n].value == r.raw {
        intervals := intervals[n := Interval(intervals[n].from, r.time, intervals[n].value, r.alarm)];
      } else {
        intervals := intervals + [Interval(r.time, r.time, r.raw, r.alarm)];
      }
    }
    assert readings[..|readings|] == readings;
    RunsAreRuns(readings);
    forall k | 0 <= k < |intervals| ensures Spans(intervals[k], Runs(readings)[k]) {
      assert IsRun(Runs(readings)[k]);
    }
  }

  /** The parts without the last reading, from which `WithReading` makes the parts again. */
  function WithoutLast(parts: seq<seq<Reading>>): seq<seq<Reading>>
    requires parts != [] && parts[|parts| - 1] != []
  {
    var m := |parts| - 1;
    var n := |parts[m]| - 1;
    if n == 0 then parts[..m] else parts[..m] + [parts[m][..n]]
  }

  lemma WithoutLastKeepsRuns(parts: seq<seq<Reading>>)
    requires AreRuns(parts) && parts != []
    ensures parts[|parts| - 1] != [] && AreRuns(WithoutLast(parts))
  {
    var m := |parts| - 1;
    assert IsRun(parts[m]);
    var shorter := WithoutLast(parts);
    forall k | 0 < k < |shorter| ensures Differs(shorter, k) {
      assert Differs(parts, k);
    }
  }

  lemma WithoutLastFlattens(parts: seq<seq<Reading>>)
    requires parts != [] && parts[|parts| - 1] != []
    ensures var last := parts[|parts| - 1];
            Flat(WithoutLast(parts)) + [last[|last| - 1]] == Flat(parts)
  {
    var m := |parts| - 1;
    var n := |parts[m]| - 1;
    if n > 0 {
      FlatSnoc(parts[..m], parts[m][..n]);
      assert parts[m] == parts[m][..n] + [parts[m][n]];
      assert Flat(parts[..m]) + parts[m][..n] + [parts[m][n]] == Flat(parts[..m]) + parts[m];
    }
  }

  lemma LastComesBack(parts: seq<seq<Reading>>)
    requires AreRuns(parts) && parts != [] && parts[|parts| - 1] != []
    ensures var last := parts[|parts| - 1];
            WithReading(WithoutLast(parts), last[|last| - 1]) == parts
  {
    var m := |parts| - 1;
    var n := |parts[m]| - 1;
    assert IsRun(parts[m]);
    if n == 0 {
      if m > 0 {
        assert Differs(parts, m);
      }
      assert parts[m] == [parts[m][n]];
      assert parts == parts[..m] + [parts[m]];
    } else {
      assert parts[m] == parts[m][..n] + [parts[m][n]];
      assert WithoutLast(parts)[..m] == parts[..m];
    }
  }

  /** Any division of the readings into differing runs is the one the builder makes. */
  lemma {:induction false} RunsAreUnique(readings: seq<Reading>, parts: seq<seq<Reading>>)
    requires AreRuns(parts) && Flat(parts) == readings
    ensures parts == Runs(readings)
    decreases |readings|
  {
    if parts != [] {
      var n := |readings| - 1;
      var last := parts[|parts| - 1];
      WithoutLastKeepsRuns(parts);
      WithoutLastFlattens(parts);
      assert readings == Flat(WithoutLast(parts)) + [last[|last| - 1]];
      assert Flat(WithoutLast(parts)) == readings[..n] && readings[n] == last[|last| - 1];
      RunsAreUnique(readings[..n], WithoutLast(parts));
      LastComesBack(parts);
    }
  }

  // Gaps.

  datatype Missing = Missing(from: int, to: int)

  predicate GapAt(readings: seq<Reading>, i: nat)
    requires 0 < i < |readings|
  {
    readings[i].time - readings[i - 1].time > GAP
  }

  function GapsUpTo(readings: seq<Reading>, n: nat): seq<Missing>
    requires n <= |readings|
  {
    if n <= 1 then []
    else
      var before := GapsUpTo(readings, n - 1);
      if GapAt(readings, n - 1) then before + [Missing(readings[n - 2].time, readings[n - 1].time)] else before
  }

  method FindGaps(readings: seq<Reading>) returns (missing: seq<Missing>)
    ensures missing == GapsUpTo(readings, |readings|)
  {
    missing := [];
    if readings == [] {
      return;
    }
    for i := 1 to |readings|
      invariant missing == GapsUpTo(readings, i)
    {
      if readings[i].time - readings[i - 1].time > GAP {
        missing := missing + [Missing(readings[i - 1].time, readings[i].time)];
      }
    }
  }

  /** More than an hour apart. */
  ghost predicate LongPause(before: Reading, after: Reading) {
    after.time - before.time > 3_600_000_000
  }

  lemma {:induction false} GapsAreExactlyThose(readings: seq<Reading>, n: nat, m: Missing)
    requires n <= |readings|
    ensures m in GapsUpTo(readings, n) <==>
            exists i: nat :: 0 < i < n && LongPause(readings[i - 1], readings[i]) && m == Missing(readings[i - 1].time, readings[i].time)
  {
    if n > 1 {
      GapsAreExactlyThose(readings, n - 1, m);
      if i: nat :| 0 < i < n && LongPause(readings[i - 1], readings[i]) && m == Missing(readings[i - 1].time, readings[i].time) {
        assert i < n - 1 || i == n - 1;
      }
      if GapAt(readings, n - 1) && m == Missing(readings[n - 2].time, readings[n - 1].time) {
        assert LongPause(readings[n - 2], readings[n - 1]);
      }
    }
  }

  // Numeric series.

  datatype Point = Point(time: int, value: real, alarm: bool, anomaly: bool)

  datatype NumericSeries = NumericSeries(points: seq<Point>, missing: seq<Missing>)

  datatype Result = Ok(series: NumericSeries) | DivisionByZero

  /** `int(ts.timestamp())`: whole seconds, cut off towards 1970. */
  function WholeSeconds(time: int): int {
    if time >= 0 then time / SECOND else -(-time / SECOND)
  }

  function BucketOf(time: int, width: int): int
    requires width > 0
  {
    var seconds := WholeSeconds(time);
    (seconds - seconds % width) * SECOND
  }

  /** A bucket starts at a multiple of its width and holds its reading, except just before 1970 where the cut-off crosses a border. */
  lemma BucketHoldsItsReadingIff(time: int, width: int)
    requires width > 0
    ensures BucketOf(time, width) % 1_000_000 == 0 && (BucketOf(time, width) / 1_000_000) % width == 0
    ensures time < BucketOf(time, width) + width * 1_000_000
    ensures BucketOf(time, width) <= time <==> time >= 0 || time % 1_000_000 == 0 || WholeSeconds(time) % width != 0
  {
    var seconds := WholeSeconds(time);
    Multiple(seconds, width);
    assert BucketOf(time, width) == (seconds - seconds % width) * SECOND;
    Scaled(seconds - seconds % width, width);
    assert time >= 0 ==> seconds * SECOND <= time < seconds * SECOND + SECOND;
    assert time < 0 ==> seconds * SECOND - SECOND < time <= seconds * SECOND;
    assert time % SECOND == 0 <==> time == seconds * SECOND;
  }

  lemma Multiple(x: int, width: int)
    requires width > 0
    ensures (x - x % width) % width == 0
  {
    assert x - x % width == width * (x / width);
    MultipleOf(x / width, width);
  }

  lemma MultipleOf(k: int, width: int)
    requires width > 0
    ensures (width * k) % width == 0
  {
    var q, r := width * k / width, width * k % width;
    assert width * k == width * q + r;
    assert width * (k - q) == r;
    if k - q >= 1 {
      Larger(k - q, width);
    } else if k - q <= -1 {
      Larger(q - k, width);
    }
  }

  lemma Larger(k: int, width: int)
    requires k >= 1 && width > 0
    ensures width * k >= width
  {
  }

  lemma Scaled(x: int, width: int)
    ensures x * SECOND / SECOND == x && x * SECOND % SECOND == 0
    ensures x * SECOND + width * SECOND == (x + width) * SECOND
  {
  }

  /** The values of one bucket, in reading order. */
  function ValuesIn(readings: seq<Reading>, width: int, bucket: int): seq<real>
    requires width > 0
  {
    if readings == [] then []
    else
      var n := |readings| - 1;
      var before := ValuesIn(readings[..n], width, bucket);
      if readings[n].value.Some? && BucketOf(readings[n].time, width) == bucket then before + [readings[n].value.value] else before
  }

  /** The buckets in order of first use, as the keys of the dictionary. */
  function Buckets(readings: seq<Reading>, width: int): seq<int>
    requires width > 0
  {
    if readings == [] then []
    else
      var n := |readings| - 1;
      var before, bucket := Buckets(readings[..n], width), BucketOf(readings[n].time, width);
      if readings[n].value.None? || bucket in before then before else before + [bucket]
  }

  lemma {:induction false} BucketsAreThose(readings: seq<Reading>, width: int)
    requires width > 0
    ensures forall b :: b in Buckets(readings, width) <==> ValuesIn(readings, width, b) != []
    ensures forall i, k | 0 <= i < k < |Buckets(readings, width)| :: Buckets(readings, width)[i] != Buckets(readings, width)[k]
  {
    if readings != [] {
      BucketsAreThose(readings[..|readings| - 1], width);
    }
  }

  function Sum(values: seq<real>): real {
    if values == [] then 0.0 else Sum(values[..|values| - 1]) + values[|values| - 1]
  }

  function Mean(values: seq<real>): real
    requires values != []
  {
    Sum(values) / |values| as real
  }

  function MeanPoint(readings: seq<Reading>, width: int, bucket: int): Point
    requires width > 0
  {
    var values := ValuesIn(readings, width, bucket);
    Point(bucket, if values == [] then 0.0 else Mean(values), false, false)
  }

  /** A raw point: the reading's time, its value or zero without one, its alarm and its quality. */
  ghost predicate Shows(p: Point, r: Reading) {
    && p.time == r.time && p.alarm == r.alarm && p.anomaly == r.anomaly
    && (r.value.Some? ==> p.value == r.value.value) && (r.value.None? ==> p.value == 0.0)
  }

  function RawPoint(r: Reading): Point {
    Point(r.time, if r.value.Some? then r.value.value else 0.0, r.alarm, r.anomaly)
  }

  ghost predicate HasValue(readings: seq<Reading>) {
    exists r | r in readings :: r.value.Some?
  }

  /** The bucket dictionary with its keys in order of first use. */
  method FillBuckets(readings: seq<Reading>, width: int) returns (keys: seq<int>, values: map<int, seq<real>>)
    requires width > 0
    ensures keys == Buckets(readings, width)
    ensures forall b | b in keys :: b in values && values[b] == ValuesIn(readings, width, b)
  {
    keys, values := [], map[];
    for i := 0 to |readings|
      invariant keys == Buckets(readings[..i], width)
      invariant forall b :: b in keys <==> b in values
      invariant forall b | b in values :: values[b] == ValuesIn(readings[..i], width, b)
    {
      assert readings[..i + 1][..i] == readings[..i];
      BucketsAreThose(readings[..i], width);
      if readings[i].value.None? {
        continue;
      }
      var bucket := BucketOf(readings[i].time, width);
      if bucket !in values {
        keys := keys + [bucket];
        values := values[bucket := []];
      }
      values := values[bucket := values[bucket] + [readings[i].value.value]];
    }
    assert readings[..|readings|] == readings;
  }

  function PointsOf(readings: seq<Reading>, width: int, buckets: seq<int>): (points: seq<Point>)
    requires width > 0
    ensures |points| == |buckets|
  {
    seq(|buckets|, k requires 0 <= k < |buckets| => MeanPoint(readings, width, buckets[k]))
  }

  lemma SortMembers(keys: seq<int>)
    ensures forall b :: b in Sort(keys) <==> b in keys
  {
    SortSorts(keys);
    forall b ensures b in Sort(keys) <==> b in keys {
      assert b in Sort(keys) <==> b in multiset(Sort(keys));
      assert b in keys <==> b in multiset(keys);
    }
  }

  lemma UsedBucket(readings: seq<Reading>, width: int, bucket: int)
    requires width > 0 && bucket in Sort(Buckets(readings, width))
    ensures bucket in Buckets(readings, width) && ValuesIn(readings, width, bucket) != []
    ensures MeanPoint(readings, width, bucket) == Point(bucket, Mean(ValuesIn(readings, width, bucket)), false, false)
  {
    SortMembers(Buckets(readings, width));
    BucketsAreThose(readings, width);
  }

  lemma NextPoint(readings: seq<Reading>, width: int, order: seq<int>, k: nat)
    requires width > 0 && k < |order|
    ensures PointsOf(readings, width, order[..k + 1]) == PointsOf(readings, width, order[..k]) + [MeanPoint(readings, width, order[k])]
  {
  }

  /** `sorted(buckets.items())` with the mean of each bucket. */
  method BucketPoints(readings: seq<Reading>, width: int) returns (points: seq<Point>)
    requires width > 0
    ensures points == PointsOf(readings, width, Sort(Buckets(readings, width)))
  {
    var keys, values := FillBuckets(readings, width);
    var order := Sort(keys);
    points := [];
    for k := 0 to |order|
      invariant points == PointsOf(readings, width, order[..k])
    {
      UsedBucket(readings, width, order[k]);
      NextPoint(readings, width, order, k);
      points := points + [Point(order[k], Mean(values[order[k]]), false, false)];
    }
    assert order[..|order|] == order;
  }

  /** A width of zero divides by zero at the first reading that has a value. */
  method AnyValue(readings: seq<Reading>) returns (found: bool)
    ensures found <==> HasValue(readings)
  {
    for i := 0 to |readings|
      invariant !HasValue(readings[..i])
    {
      assert readings[..i + 1] == readings[..i] + [readings[i]];
      if readings[i].value.Some? {
        assert readings[i] in readings;
        return true;
      }
    }
    assert readings[..|readings|] == readings;
    found := false;
  }

  method BuildNumeric(readings: seq<Reading>, width: Option<nat>) returns (result: Result)
    ensures result.DivisionByZero? <==> width == Some(0) && HasValue(readings)
    ensures result.Ok? ==> result.series.missing == GapsUpTo(readings, |readings|)
    ensures width.None? ==> result.Ok? && |result.series.points| == |readings|
                            && forall k | 0 <= k < |readings| :: Shows(result.series.points[k], readings[k])
    ensures width == Some(0) && result.Ok? ==> result.series.points == []
    ensures width.Some? && width.value > 0 ==>
              result.Ok? && result.series.points == PointsOf(readings, width.value, Sort(Buckets(readings, width.value)))
  {
    var missing := FindGaps(readings);
    if width.None? {
      return Ok(NumericSeries(seq(|readings|, k requires 0 <= k < |readings| => RawPoint(readings[k])), missing));
    }
    if width.value == 0 {
      var found := AnyValue(readings);
      return if found then DivisionByZero else Ok(NumericSeries([], missing));
    }
    var points := BucketPoints(readings, width.value);
    result := Ok(NumericSeries(points, missing));
  }

  // What the buckets mean.

  /** The points ascend strictly. */
  lemma PointsAscend(readings: seq<Reading>, width: int)
    requires width > 0
    ensures var points := PointsOf(readings, width, Sort(Buckets(readings, width)));
            forall i, k | 0 <= i < k < |points| :: points[i].time < points[k].time
  {
    var keys := Buckets(readings, width);
    SortSorts(keys);
    BucketsAreThose(readings, width);
    DistinctStaysDistinct(keys, Sort(keys));
  }

  lemma DistinctStaysDistinct(a: seq<int>, b: seq<int>)
    requires multiset(a) == multiset(b)
    requires forall i, k | 0 <= i < k < |a| :: a[i] != a[k]
    ensures forall i, k | 0 <= i < k < |b| :: b[i] != b[k]
  {
    forall i, k | 0 <= i < k < |b| ensures b[i] != b[k] {
      if b[i] == b[k] {
        TwiceIn(b, i, k);
        OnceIn(a, b[i]);
      }
    }
  }

  lemma TwiceIn(s: seq<int>, i: nat, k: nat)
    requires i < k < |s| && s[i] == s[k]
    ensures multiset(s)[s[i]] >= 2
  {
    assert s == s[..k] + [s[k]] + s[k + 1..];
    assert s[..k][i] in multiset(s[..k]);
  }

  lemma {:induction false} OnceIn(s: seq<int>, x: int)
    requires forall i, k | 0 <= i < k < |s| :: s[i] != s[k]
    ensures multiset(s)[x] <= 1
  {
    if s != [] {
      var n := |s| - 1;
      OnceIn(s[..n], x);
      assert s == s[..n] + [s[n]];
      if s[n] == x {
        assert x !in s[..n];
      }
    }
  }

  function Valued(): Reading -> bool {
    (r: Reading) => r.value.Some?
  }

  function InBucket(width: int, bucket: int): Reading -> bool
    requires width > 0
  {
    (r: Reading) => r.value.Some? && BucketOf(r.time, width) == bucket
  }

  function Total(readings: seq<Reading>): real {
    if readings == [] then 0.0
    else
      var n := |readings| - 1;
      Total(readings[..n]) + (if readings[n].value.Some? then readings[n].value.value else 0.0)
  }

  function SumOver(readings: seq<Reading>, width: int, buckets: seq<int>): real
    requires width > 0
  {
    if buckets == [] then 0.0
    else
      var n := |buckets| - 1;
      SumOver(readings, width, buckets[..n]) + Sum(ValuesIn(readings, width, buckets[n]))
  }

  function CountOver(readings: seq<Reading>, width: int, buckets: seq<int>): nat
    requires width > 0
  {
    if buckets == [] then 0
    else
      var n := |buckets| - 1;
      CountOver(readings, width, buckets[..n]) + |ValuesIn(readings, width, buckets[n])|
  }

  predicate Joins(r: Reading, width: int, buckets: seq<int>)
    requires width > 0
  {
    r.value.Some? && BucketOf(r.time, width) in buckets
  }

  /** One more reading adds its value to the bucket it joins, and to no other. */
  lemma {:induction false} SumOverSnoc(readings: seq<Reading>, r: Reading, width: int, buckets: seq<int>)
    requires width > 0 && forall i, k | 0 <= i < k < |buckets| :: buckets[i] != buckets[k]
    ensures SumOver(readings + [r], width, buckets)
         == SumOver(readings, width, buckets) + (if Joins(r, width, buckets) then r.value.value else 0.0)
    ensures CountOver(readings + [r], width, buckets)
         == CountOver(readings, width, buckets) + (if Joins(r, width, buckets) then 1 else 0)
  {
    if buckets != [] {
      var n := |buckets| - 1;
      SumOverSnoc(readings, r, width, buckets[..n]);
      assert buckets == buckets[..n] + [buckets[n]];
      assert buckets[n] !in buckets[..n];
      assert (readings + [r])[..|readings|] == readings;
      var own := ValuesIn(readings, width, buckets[n]);
      if r.value.Some? && BucketOf(r.time, width) == buckets[n] {
        assert ValuesIn(readings + [r], width, buckets[n]) == own + [r.value.value];
        assert (own + [r.value.value])[..|own|] == own;
      }
    }
  }

  lemma NewBucket(front: seq<Reading>, width: int, bucket: int)
    requires width > 0 && bucket !in Buckets(front, width)
    ensures SumOver(front, width, Buckets(front, width) + [bucket]) == SumOver(front, width, Buckets(front, width))
    ensures CountOver(front, width, Buckets(front, width) + [bucket]) == CountOver(front, width, Buckets(front, width))
  {
    var before := Buckets(front, width);
    BucketsAreThose(front, width);
    assert (before + [bucket])[..|before|] == before;
  }

  lemma BucketsSnoc(front: seq<Reading>, r: Reading, width: int)
    requires width > 0
    ensures var before, bucket := Buckets(front, width), BucketOf(r.time, width);
            Buckets(front + [r], width) == if r.value.None? || bucket in before then before else before + [bucket]
    ensures Total(front + [r]) == Total(front) + (if r.value.Some? then r.value.value else 0.0)
    ensures Joins(r, width, Buckets(front + [r], width)) <==> r.value.Some?
  {
    assert (front + [r])[..|front|] == front;
  }

  lemma DistinctBuckets(readings: seq<Reading>, width: int)
    requires width > 0
    ensures forall i, k | 0 <= i < k < |Buckets(readings, width)| :: Buckets(readings, width)[i] != Buckets(readings, width)[k]
  {
    BucketsAreThose(readings, width);
  }

  lemma SameSums(front: seq<Reading>, r: Reading, width: int)
    requires width > 0
    ensures SumOver(front, width, Buckets(front + [r], width)) == SumOver(front, width, Buckets(front, width))
    ensures CountOver(front, width, Buckets(front + [r], width)) == CountOver(front, width, Buckets(front, width))
  {
    BucketsSnoc(front, r, width);
    if BucketOf(r.time, width) !in Buckets(front, width) {
      NewBucket(front, width, BucketOf(r.time, width));
    }
  }

  lemma {:induction false} BucketsCoverTheTotal(readings: seq<Reading>, width: int)
    requires width > 0
    ensures SumOver(readings, width, Buckets(readings, width)) == Total(readings)
    ensures CountOver(readings, width, Buckets(readings, width)) == Count(readings, Valued())
  {
    if readings != [] {
      var front, r := readings[..|readings| - 1], readings[|readings| - 1];
      BucketsCoverTheTotal(front, width);
      CoverStep(front, r, width);
      assert readings == front + [r];
    }
  }

  lemma CoverStep(front: seq<Reading>, r: Reading, width: int)
    requires width > 0
    requires SumOver(front, width, Buckets(front, width)) == Total(front)
    requires CountOver(front, width, Buckets(front, width)) == Count(front, Valued())
    ensures SumOver(front + [r], width, Buckets(front + [r], width)) == Total(front + [r])
    ensures CountOver(front + [r], width, Buckets(front + [r], width)) == Count(front + [r], Valued())
  {
    DistinctBuckets(front + [r], width);
    SameSums(front, r, width);
    SumOverSnoc(front, r, width, Buckets(front + [r], width));
    BucketsSnoc(front, r, width);
    CountSnoc(front, r, Valued());
  }

  lemma {:induction false} SumOverInsert(readings: seq<Reading>, width: int, s: seq<int>, x: int)
    requires width > 0
    ensures SumOver(readings, width, Insert(s, x)) == SumOver(readings, width, s) + Sum(ValuesIn(readings, width, x))
    ensures CountOver(readings, width, Insert(s, x)) == CountOver(readings, width, s) + |ValuesIn(readings, width, x)|
  {
    if s != [] && s[|s| - 1] > x {
      SumOverInsert(readings, width, s[..|s| - 1], x);
      assert Insert(s, x)[..|Insert(s, x)| - 1] == Insert(s[..|s| - 1], x);
    } else {
      assert (s + [x])[..|s|] == s;
    }
  }

  lemma {:induction false} SumOverSort(readings: seq<Reading>, width: int, s: seq<int>)
    requires width > 0
    ensures SumOver(readings, width, Sort(s)) == SumOver(readings, width, s)
    ensures CountOver(readings, width, Sort(s)) == CountOver(readings, width, s)
  {
    if s != [] {
      SumOverSort(readings, width, s[..|s| - 1]);
      SumOverInsert(readings, width, Sort(s[..|s| - 1]), s[|s| - 1]);
    }
  }

  function Weighted(readings: seq<Reading>, width: int, buckets: seq<int>): real
    requires width > 0
  {
    if buckets == [] then 0.0
    else
      var n := |buckets| - 1;
      Weighted(readings, width, buckets[..n]) + MeanPoint(readings, width, buckets[n]).value * |ValuesIn(readings, width, buckets[n])| as real
  }

  lemma MeanTimesCount(values: seq<real>)
    requires values != []
    ensures Mean(values) * |values| as real == Sum(values)
  {
    var n := |values| as real;
    assert n > 0.0;
    Quotient(Sum(values), n);
  }

  lemma Quotient(x: real, n: real)
    requires n > 0.0
    ensures x / n * n == x
  {
  }

  lemma {:induction false} WeightedIsSum(readings: seq<Reading>, width: int, buckets: seq<int>)
    requires width > 0
    ensures Weighted(readings, width, buckets) == SumOver(readings, width, buckets)
  {
    if buckets != [] {
      var n := |buckets| - 1;
      WeightedIsSum(readings, width, buckets[..n]);
      var values := ValuesIn(readings, width, buckets[n]);
      if values != [] {
        MeanTimesCount(values);
      }
    }
  }

  /** The buckets partition the valued readings: the counts add up, and the count-weighted means sum to the total. */
  lemma BucketsConserve(readings: seq<Reading>, width: int)
    requires width > 0
    ensures var order := Sort(Buckets(readings, width));
            && CountOver(readings, width, order) == Count(readings, Valued())
            && Weighted(readings, width, order) == Total(readings)
  {
    var keys := Buckets(readings, width);
    BucketsCoverTheTotal(readings, width);
    SumOverSort(readings, width, keys);
    WeightedIsSum(readings, width, Sort(keys));
  }

  lemma ValuesSnoc(front: seq<Reading>, r: Reading, width: int, bucket: int)
    requires width > 0
    ensures ValuesIn(front + [r], width, bucket) == ValuesIn(front, width, bucket) + (if InBucket(width, bucket)(r) then [r.value.value] else [])
  {
    assert (front + [r])[..|front|] == front;
  }

  lemma SumSnoc(values: seq<real>, x: real)
    ensures Sum(values + [x]) == Sum(values) + x
  {
    assert (values + [x])[..|values|] == values;
  }

  lemma TotalSnoc(readings: seq<Reading>, r: Reading)
    ensures Total(readings + [r]) == Total(readings) + (if r.value.Some? then r.value.value else 0.0)
  {
    assert (readings + [r])[..|readings|] == readings;
  }

  ghost predicate ValuesAgree(readings: seq<Reading>, width: int, bucket: int)
    requires width > 0
  {
    && |ValuesIn(readings, width, bucket)| == Count(readings, InBucket(width, bucket))
    && Sum(ValuesIn(readings, width, bucket)) == Total(Filter(readings, InBucket(width, bucket)))
  }

  lemma ValuesStayAgreed(front: seq<Reading>, r: Reading, width: int, bucket: int)
    requires width > 0 && ValuesAgree(front, width, bucket)
    ensures ValuesAgree(front + [r], width, bucket)
  {
    var own, values := InBucket(width, bucket), ValuesIn(front, width, bucket);
    ValuesSnoc(front, r, width, bucket);
    CountSnoc(front, r, own);
    if own(r) {
      SumSnoc(values, r.value.value);
      TotalSnoc(Filter(front, own), r);
    } else {
      assert values + [] == values && Filter(front, own) + [] == Filter(front, own);
    }
  }

  lemma {:induction false} ValuesAreTheReadings(readings: seq<Reading>, width: int, bucket: int)
    requires width > 0
    ensures ValuesAgree(readings, width, bucket)
  {
    if readings != [] {
      var front, r := readings[..|readings| - 1], readings[|readings| - 1];
      ValuesAreTheReadings(front, width, bucket);
      ValuesStayAgreed(front, r, width, bucket);
      assert readings == front + [r];
    }
  }

  /** The mean of `count` values that sum to `total`. */
  ghost predicate IsMean(value: real, count: nat, total: real) {
    count > 0 && value * count as real == total
  }

  lemma MeanIsMean(values: seq<real>)
    requires values != []
    ensures IsMean(Mean(values), |values|, Sum(values))
  {
    MeanTimesCount(values);
  }

  lemma PointIsItsBucketMean(readings: seq<Reading>, width: int, bucket: int)
    requires width > 0 && bucket in Sort(Buckets(readings, width))
    ensures IsMean(MeanPoint(readings, width, bucket).value, Count(readings, InBucket(width, bucket)), Total(Filter(readings, InBucket(width, bucket))))
  {
    UsedBucket(readings, width, bucket);
    var values := ValuesIn(readings, width, bucket);
    MeanIsMean(values);
    ValuesAreTheReadings(readings, width, bucket);
  }

  lemma BucketIsUsed(readings: seq<Reading>, width: int, r: Reading)
    requires width > 0 && r in readings && r.value.Some?
    ensures BucketOf(r.time, width) in Sort(Buckets(readings, width))
  {
    var bucket := BucketOf(r.time, width);
    assert InBucket(width, bucket)(r);
    CountPositive(readings, InBucket(width, bucket));
    ValuesAreTheReadings(readings, width, bucket);
    BucketsAreThose(readings, width);
    SortMembers(Buckets(readings, width));
  }

  /** Each point is the mean of exactly the valued readings of its bucket, and every valued reading has the point of its bucket. */
  lemma PointsAreTheBucketMeans(readings: seq<Reading>, width: int)
    requires width > 0
    ensures var points := PointsOf(readings, width, Sort(Buckets(readings, width)));
            && (forall p | p in points :: !p.alarm && !p.anomaly)
            && (forall p | p in points ::
                  IsMean(p.value, Count(readings, InBucket(width, p.time)), Total(Filter(readings, InBucket(width, p.time)))))
            && forall r | r in readings && r.value.Some? :: exists p | p in points :: p.time == BucketOf(r.time, width)
  {
    var order := Sort(Buckets(readings, width));
    var points := PointsOf(readings, width, order);
    forall p | p in points
      ensures !p.alarm && !p.anomaly
      ensures IsMean(p.value, Count(readings, InBucket(width, p.time)), Total(Filter(readings, InBucket(width, p.time))))
    {
      var k :| 0 <= k < |order| && points[k] == p;
      PointIsItsBucketMean(readings, width, order[k]);
    }
    forall r | r in readings && r.value.Some? ensures exists p | p in points :: p.time == BucketOf(r.time, width) {
      BucketIsUsed(readings, width, r);
      var k :| 0 <= k < |order| && order[k] == BucketOf(r.time, width);
      assert points[k] in points;
    }
  }
}
