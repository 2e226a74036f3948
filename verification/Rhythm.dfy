/**
 * Rhythm features of an object at a day: packed-key counts of its episode starts, and a code-by-day grid with prefix sums
 * of active days, a streak recurrence and same-weekday sums. Days are whole days since 1970.
 */
module Rhythm {
  import opened Lists
  import K = PackedKeys

  const DAY: int := 86_400_000_000

  datatype Start = Start(code: nat, time: int)

  datatype Query = Query(code: nat, day: int)

  /** The columns counted by binary search, and those read from the day grid. */
  datatype Counts = Counts(in90d: int, in365d: int, weekAgo: int, twoWeeksAgo: int)

  datatype Activity = Activity(active7: int, active30: int, active90: int, streak: nat, sameWeekday: nat)

  function DayOf(s: Start): int {
    s.time / DAY
  }

  /** A start lies in its day, also before 1970. */
  lemma DayHoldsItsStart(s: Start)
    ensures DayOf(s) * 86_400_000_000 <= s.time < (DayOf(s) + 1) * 86_400_000_000
  {
  }

  // The meaning of the columns.

  function OnDay(code: nat, day: int): Start -> bool {
    (s: Start) => s.code == code && DayOf(s) == day
  }

  function DayCount(starts: seq<Start>, code: nat, day: int): nat {
    Count(starts, OnDay(code, day))
  }

  predicate Active(starts: seq<Start>, code: nat, day: int) {
    DayCount(starts, code, day) > 0
  }

  /** The number of active days in [from, until). */
  function ActiveDays(starts: seq<Start>, code: nat, from: int, until: int): nat
    decreases until - from
  {
    if until <= from then 0
    else ActiveDays(starts, code, from, until - 1) + (if Active(starts, code, until - 1) then 1 else 0)
  }

  /** The longest active run that ends the day before has this length. */
  ghost predicate IsStreak(starts: seq<Start>, code: nat, day: int, length: nat) {
    && (forall d | day - length <= d < day :: Active(starts, code, d))
    && !Active(starts, code, day - length - 1)
  }

  function Within(code: nat, after: int, until: int): Start -> bool {
    (s: Start) => s.code == code && after < s.time <= until
  }

  lemma {:induction false} ActiveDaysSplit(starts: seq<Start>, code: nat, from: int, mid: int, until: int)
    requires from <= mid <= until
    ensures ActiveDays(starts, code, from, until) == ActiveDays(starts, code, from, mid) + ActiveDays(starts, code, mid, until)
    decreases until - mid
  {
    if mid < until {
      ActiveDaysSplit(starts, code, from, mid, until - 1);
    }
  }

  lemma {:induction false} ActiveDaysFull(starts: seq<Start>, code: nat, from: int, until: int)
    requires from <= until
    ensures ActiveDays(starts, code, from, until) <= until - from
    ensures ActiveDays(starts, code, from, until) == until - from <==> forall d | from <= d < until :: Active(starts, code, d)
    decreases until - from
  {
    if from < until {
      ActiveDaysFull(starts, code, from, until - 1);
    }
  }

  /** A streak is at least w exactly when all w days before are active, that is when the active-day count is w. */
  lemma StreakReachesIff(starts: seq<Start>, code: nat, day: int, length: nat, w: nat)
    requires IsStreak(starts, code, day, length)
    ensures length >= w <==> forall d | day - w <= d < day :: Active(starts, code, d)
    ensures length >= w <==> ActiveDays(starts, code, day - w, day) == w
  {
    ActiveDaysFull(starts, code, day - w, day);
    if length < w {
      assert !Active(starts, code, day - length - 1);
    }
  }

  // The grid.

  ghost predicate GridIs(grid: array2<nat>, starts: seq<Start>, first: int)
    reads grid
  {
    forall c: nat, j: nat | c < grid.Length0 && j < grid.Length1 :: grid[c, j] == DayCount(starts, c, first + j)
  }

  ghost predicate OnGrid(starts: seq<Start>, codes: nat, first: int, width: nat) {
    forall s | s in starts :: s.code < codes && 0 <= DayOf(s) - first < width
  }

  lemma DayCountSnoc(starts: seq<Start>, s: Start, code: nat, day: int)
    ensures DayCount(starts + [s], code, day) == DayCount(starts, code, day) + (if s.code == code && DayOf(s) == day then 1 else 0)
  {
    CountSnoc(starts, s, OnDay(code, day));
  }

  /** `np.add.at(grid, (codes, days - first), 1)`. */
  method BuildGrid(starts: seq<Start>, codes: nat, first: int, width: nat) returns (grid: array2<nat>)
    requires OnGrid(starts, codes, first, width)
    ensures fresh(grid) && grid.Length0 == codes && grid.Length1 == width
    ensures GridIs(grid, starts, first)
  {
    grid := new nat[codes, width]((c, j) => 0);
    for i := 0 to |starts|
      invariant GridIs(grid, starts[..i], first)
    {
      var s := starts[i];
      assert s in starts;
      assert starts[..i + 1] == starts[..i] + [s];
      forall c: nat, j: nat | c < codes && j < width
        ensures DayCount(starts[..i + 1], c, first + j)
             == grid[c, j] + (if c == s.code && j == DayOf(s) - first then 1 else 0)
      {
        DayCountSnoc(starts[..i], s, c, first + j);
      }
      grid[s.code, DayOf(s) - first] := grid[s.code, DayOf(s) - first] + 1;
    }
    assert starts[..|starts|] == starts;
  }

  ghost predicate SumsAre(cumulative: array2<int>, starts: seq<Start>, first: int, columns: nat)
    reads cumulative
    requires columns <= cumulative.Length1
  {
    forall c: nat, j: nat | c < cumulative.Length0 && j < columns :: cumulative[c, j] == ActiveDays(starts, c, first, first + j)
  }

  /** The cumulative sums of `grid > 0` along the days, with a leading zero. */
  method Cumulate(grid: array2<nat>, ghost starts: seq<Start>, ghost first: int) returns (cumulative: array2<int>)
    requires GridIs(grid, starts, first)
    ensures fresh(cumulative) && cumulative.Length0 == grid.Length0 && cumulative.Length1 == grid.Length1 + 1
    ensures SumsAre(cumulative, starts, first, grid.Length1 + 1)
  {
    cumulative := new int[grid.Length0, grid.Length1 + 1]((c, j) => 0);
    for j := 1 to grid.Length1 + 1
      invariant SumsAre(cumulative, starts, first, j)
    {
      for c := 0 to grid.Length0
        invariant SumsAre(cumulative, starts, first, j)
        invariant forall d: nat | d < c :: cumulative[d, j] == ActiveDays(starts, d, first, first + j)
      {
        cumulative[c, j] := cumulative[c, j - 1] + (if grid[c, j - 1] > 0 then 1 else 0);
      }
    }
  }

  ghost predicate StreaksAre(streak: array2<nat>, starts: seq<Start>, first: int, columns: nat)
    reads streak
    requires columns <= streak.Length1
  {
    forall c: nat, j: nat | c < streak.Length0 && j < columns :: IsStreak(starts, c, first + j, streak[c, j])
  }

  lemma StreakStep(starts: seq<Start>, code: nat, day: int, length: nat, next: int)
    requires IsStreak(starts, code, day, length) && next == day + 1
    ensures IsStreak(starts, code, next, if Active(starts, code, day) then length + 1 else 0)
  {
  }

  lemma NothingBeforeTheGrid(starts: seq<Start>, first: int, code: nat)
    requires forall s | s in starts :: first <= DayOf(s)
    ensures !Active(starts, code, first - 1)
  {
    CountNone(starts, OnDay(code, first - 1));
  }

  /** The streak recurrence, one day after the other. */
  method Streaks(grid: array2<nat>, ghost starts: seq<Start>, ghost first: int) returns (streak: array2<nat>)
    requires GridIs(grid, starts, first)
    requires forall s | s in starts :: first <= DayOf(s)
    ensures fresh(streak) && streak.Length0 == grid.Length0 && streak.Length1 == grid.Length1
    ensures StreaksAre(streak, starts, first, grid.Length1)
  {
    streak := new nat[grid.Length0, grid.Length1]((c, j) => 0);
    if grid.Length1 == 0 {
      return;
    }
    forall c: nat | c < grid.Length0 ensures IsStreak(starts, c, first, streak[c, 0]) {
      NothingBeforeTheGrid(starts, first, c);
    }
    for day := 1 to grid.Length1
      invariant StreaksAre(streak, starts, first, day)
    {
      for c := 0 to grid.Length0
        invariant StreaksAre(streak, starts, first, day)
        invariant forall d: nat | d < c :: IsStreak(starts, d, first + day, streak[d, day])
      {
        StreakStep(starts, c, first + day - 1, streak[c, day - 1], first + day);
        streak[c, day] := if grid[c, day - 1] > 0 then streak[c, day - 1] + 1 else 0;
      }
    }
  }

  // The count columns over packed keys.

  function KeysOf(starts: seq<Start>): seq<int> {
    seq(|starts|, i requires 0 <= i < |starts| => K.Key(starts[i].code, starts[i].time))
  }

  /** Starts in (after, until]: both searches on the right side. */
  function CountRight(table: seq<int>, code: nat, after: int, until: int): int
    requires Sorted(table)
  {
    SearchRight(table, K.Key(code, until)) - SearchRight(table, K.Key(code, after))
  }

  /** Starts in [from, until): both searches on the left side. */
  function CountLeft(table: seq<int>, code: nat, from: int, until: int): int
    requires Sorted(table)
  {
    SearchLeft(table, K.Key(code, until)) - SearchLeft(table, K.Key(code, from))
  }

  /** No key wraps around, and every start is less than 2^48 microseconds away from both ends. */
  ghost predicate Near(starts: seq<Start>, code: nat, after: int, until: int) {
    && after <= until && K.InInt64(code, after) && K.InInt64(code, until)
    && forall s | s in starts :: K.InInt64(s.code, s.time) && s.time - after < K.SPAN && until - s.time < K.SPAN
  }

  function KeyWithin(code: nat, after: int, until: int): Start -> bool {
    (s: Start) => K.Key(code, after) < K.Key(s.code, s.time) <= K.Key(code, until)
  }

  lemma SearchesCountOwnStarts(starts: seq<Start>, code: nat, after: int, until: int)
    requires Near(starts, code, after, until)
    ensures CountRight(Sorting(KeysOf(starts)), code, after, until) == Count(starts, Within(code, after, until))
  {
    K.KeyIsPlain(code, after);
    K.KeyIsPlain(code, until);
    RangeCount(KeysOf(starts), K.Key(code, after), K.Key(code, until));
    CountsAgree(starts, KeyWithin(code, after, until), KeysOf(starts), InRange(K.Key(code, after), K.Key(code, until)));
    forall s | s in starts ensures KeyWithin(code, after, until)(s) == Within(code, after, until)(s) {
      K.OwnStartIsCountedIff(code, after, until, s.code, s.time);
    }
    CountCongruence(starts, KeyWithin(code, after, until), Within(code, after, until));
  }

  lemma LeftIsShiftedRight(table: seq<int>, code: nat, from: int, until: int)
    requires Sorted(table) && K.InInt64(code, from) && K.InInt64(code, until) && K.InInt64(code, from - 1) && K.InInt64(code, until - 1)
    ensures CountLeft(table, code, from, until) == CountRight(table, code, from - 1, until - 1)
  {
    K.KeyIsPlain(code, from);
    K.KeyIsPlain(code, until);
    K.KeyIsPlain(code, from - 1);
    K.KeyIsPlain(code, until - 1);
  }

  // The whole table.

  function Least(days: seq<int>): (m: int)
    requires days != []
    ensures m in days && forall d | d in days :: m <= d
  {
    var last := days[|days| - 1];
    assert days == days[..|days| - 1] + [last];
    if |days| == 1 then last
    else
      var m := Least(days[..|days| - 1]);
      if last < m then last else m
  }

  function Greatest(days: seq<int>): (m: int)
    requires days != []
    ensures m in days && forall d | d in days :: d <= m
  {
    var last := days[|days| - 1];
    assert days == days[..|days| - 1] + [last];
    if |days| == 1 then last
    else
      var m := Greatest(days[..|days| - 1]);
      if last > m then last else m
  }

  function Days(starts: seq<Start>, queries: seq<Query>): (days: seq<int>)
    ensures |days| == |starts| + |queries|
  {
    seq(|starts|, i requires 0 <= i < |starts| => DayOf(starts[i])) + seq(|queries|, i requires 0 <= i < |queries| => queries[i].day)
  }

  function Codes(starts: seq<Start>, queries: seq<Query>): (codes: seq<int>)
    ensures |codes| == |starts| + |queries|
  {
    seq(|starts|, i requires 0 <= i < |starts| => starts[i].code) + seq(|queries|, i requires 0 <= i < |queries| => queries[i].code)
  }

  lemma GridHoldsEverything(starts: seq<Start>, queries: seq<Query>)
    requires starts != [] && queries != []
    ensures var first := Least(Days(starts, queries)) - 400;
            var width := Greatest(Days(starts, queries)) - first + 1;
            var codes := Greatest(Codes(starts, queries)) + 1;
            && (forall s | s in starts :: s.code < codes && 400 <= DayOf(s) - first < width)
            && (forall i | 0 <= i < |queries| :: queries[i].code < codes && 400 <= queries[i].day - first < width)
            && codes >= 0 && width >= 0
  {
    var days, codes := Days(starts, queries), Codes(starts, queries);
    forall s | s in starts ensures DayOf(s) in days && s.code in codes {
      var i :| 0 <= i < |starts| && starts[i] == s;
      assert days[i] == DayOf(s) && codes[i] == s.code;
    }
    forall i | 0 <= i < |queries| ensures queries[i].day in days && queries[i].code in codes {
      assert days[|starts| + i] == queries[i].day && codes[|starts| + i] == queries[i].code;
    }
    assert queries[0].day in days && queries[0].code in codes;
  }

  /** Active days of the last 7, 30 and 90 days, the streak, and the starts on this weekday in the last four weeks. */
  ghost predicate ActivityOf(starts: seq<Start>, q: Query, a: Activity) {
    && a.active7 == ActiveDays(starts, q.code, q.day - 7, q.day)
    && a.active30 == ActiveDays(starts, q.code, q.day - 30, q.day)
    && a.active90 == ActiveDays(starts, q.code, q.day - 90, q.day)
    && IsStreak(starts, q.code, q.day, a.streak)
    && a.sameWeekday == DayCount(starts, q.code, q.day - 7) + DayCount(starts, q.code, q.day - 14)
                        + DayCount(starts, q.code, q.day - 21) + DayCount(starts, q.code, q.day - 28)
  }

  ghost predicate CountsIfNear(starts: seq<Start>, code: nat, after: int, until: int, count: int) {
    Near(starts, code, after, until) ==> count == Count(starts, Within(code, after, until))
  }

  /** Left searches count [from, until), that is, the starts in (from - 1, until - 1]. */
  ghost predicate CountsLeftIfNear(starts: seq<Start>, code: nat, from: int, until: int, count: int) {
    Near(starts, code, from - 1, until - 1) && K.InInt64(code, from) && K.InInt64(code, until)
    ==> count == Count(starts, Within(code, from - 1, until - 1))
  }

  /** Starts of the last 90 and 365 days, and of one horizon a week and two weeks before. */
  ghost predicate CountsOf(starts: seq<Start>, q: Query, horizon: int, c: Counts) {
    && CountsIfNear(starts, q.code, q.day * DAY - 90 * DAY, q.day * DAY, c.in90d)
    && CountsIfNear(starts, q.code, q.day * DAY - 365 * DAY, q.day * DAY, c.in365d)
    && CountsLeftIfNear(starts, q.code, q.day * DAY - 7 * DAY, q.day * DAY - 7 * DAY + horizon, c.weekAgo)
    && CountsLeftIfNear(starts, q.code, q.day * DAY - 14 * DAY, q.day * DAY - 14 * DAY + horizon, c.twoWeeksAgo)
  }

  function CountRow(table: seq<int>, q: Query, horizon: int): Counts
    requires Sorted(table)
  {
    var moment := q.day * DAY;
    Counts(CountRight(table, q.code, moment - 90 * DAY, moment),
           CountRight(table, q.code, moment - 365 * DAY, moment),
           CountLeft(table, q.code, moment - 7 * DAY, moment - 7 * DAY + horizon),
           CountLeft(table, q.code, moment - 14 * DAY, moment - 14 * DAY + horizon))
  }

  lemma RightCount(starts: seq<Start>, code: nat, after: int, until: int)
    ensures CountsIfNear(starts, code, after, until, CountRight(Sorting(KeysOf(starts)), code, after, until))
  {
    if Near(starts, code, after, until) {
      SearchesCountOwnStarts(starts, code, after, until);
    }
  }

  lemma LeftCount(starts: seq<Start>, code: nat, from: int, until: int)
    ensures CountsLeftIfNear(starts, code, from, until, CountLeft(Sorting(KeysOf(starts)), code, from, until))
  {
    if Near(starts, code, from - 1, until - 1) && K.InInt64(code, from) && K.InInt64(code, until) {
      LeftIsShiftedRight(Sorting(KeysOf(starts)), code, from, until);
      SearchesCountOwnStarts(starts, code, from - 1, until - 1);
    }
  }

  lemma RecentCounts(starts: seq<Start>, q: Query, horizon: int, c: Counts)
    requires c == CountRow(Sorting(KeysOf(starts)), q, horizon)
    ensures CountsIfNear(starts, q.code, q.day * DAY - 90 * DAY, q.day * DAY, c.in90d)
    ensures CountsIfNear(starts, q.code, q.day * DAY - 365 * DAY, q.day * DAY, c.in365d)
  {
    RightCount(starts, q.code, q.day * DAY - 90 * DAY, q.day * DAY);
    RightCount(starts, q.code, q.day * DAY - 365 * DAY, q.day * DAY);
  }

  lemma WeekAgoCount(starts: seq<Start>, q: Query, horizon: int, c: Counts)
    requires c == CountRow(Sorting(KeysOf(starts)), q, horizon)
    ensures CountsLeftIfNear(starts, q.code, q.day * DAY - 7 * DAY, q.day * DAY - 7 * DAY + horizon, c.weekAgo)
  {
    LeftCount(starts, q.code, q.day * DAY - 7 * DAY, q.day * DAY - 7 * DAY + horizon);
  }

  lemma TwoWeeksAgoCount(starts: seq<Start>, q: Query, horizon: int, c: Counts)
    requires c == CountRow(Sorting(KeysOf(starts)), q, horizon)
    ensures CountsLeftIfNear(starts, q.code, q.day * DAY - 14 * DAY, q.day * DAY - 14 * DAY + horizon, c.twoWeeksAgo)
  {
    LeftCount(starts, q.code, q.day * DAY - 14 * DAY, q.day * DAY - 14 * DAY + horizon);
  }

  /** The search columns count the object's own starts whenever all moments are close enough for the packing. */
  lemma CountRowIsRight(starts: seq<Start>, q: Query, horizon: int, c: Counts)
    requires c == CountRow(Sorting(KeysOf(starts)), q, horizon)
    ensures CountsOf(starts, q, horizon, c)
  {
    RecentCounts(starts, q, horizon, c);
    WeekAgoCount(starts, q, horizon, c);
    TwoWeeksAgoCount(starts, q, horizon, c);
  }

  predicate Shaped(grid: array2<nat>, cumulative: array2<int>, streak: array2<nat>, first: int, q: Query) {
    && cumulative.Length0 == streak.Length0 == grid.Length0
    && streak.Length1 == grid.Length1 && cumulative.Length1 == grid.Length1 + 1
    && q.code < grid.Length0 && 400 <= q.day - first < grid.Length1
  }

  /** Reads the row of one query; every index is inside the grid because the first day lies 400 days back. */
  function ReadGrid(grid: array2<nat>, cumulative: array2<int>, streak: array2<nat>, first: int, q: Query): Activity
    requires Shaped(grid, cumulative, streak, first, q)
    reads grid, cumulative, streak
  {
    var index := q.day - first;
    Activity(cumulative[q.code, index] - cumulative[q.code, index - 7],
             cumulative[q.code, index] - cumulative[q.code, index - 30],
             cumulative[q.code, index] - cumulative[q.code, index - 90],
             streak[q.code, index],
             grid[q.code, index - 7] + grid[q.code, index - 14] + grid[q.code, index - 21] + grid[q.code, index - 28])
  }

  lemma ReadGridIsRight(starts: seq<Start>, grid: array2<nat>, cumulative: array2<int>, streak: array2<nat>, first: int, q: Query)
    requires Shaped(grid, cumulative, streak, first, q) && GridIs(grid, starts, first)
    requires SumsAre(cumulative, starts, first, grid.Length1 + 1) && StreaksAre(streak, starts, first, grid.Length1)
    ensures ActivityOf(starts, q, ReadGrid(grid, cumulative, streak, first, q))
  {
    var index := q.day - first;
    ActiveDaysSplit(starts, q.code, first, q.day - 7, q.day);
    ActiveDaysSplit(starts, q.code, first, q.day - 30, q.day);
    ActiveDaysSplit(starts, q.code, first, q.day - 90, q.day);
  }

  method RhythmFeatures(starts: seq<Start>, queries: seq<Query>, hours: int) returns (counts: seq<Counts>, activity: seq<Activity>)
    requires starts != [] && queries != []
    ensures |counts| == |activity| == |queries|
    ensures forall i | 0 <= i < |queries| :: ActivityOf(starts, queries[i], activity[i])
    ensures forall i | 0 <= i < |queries| :: CountsOf(starts, queries[i], hours * K.HOUR, counts[i])
  {
    var table, horizon := Sorting(KeysOf(starts)), hours * K.HOUR;
    counts := seq(|queries|, i requires 0 <= i < |queries| => CountRow(table, queries[i], horizon));
    forall i | 0 <= i < |queries| ensures CountsOf(starts, queries[i], horizon, counts[i]) {
      CountRowIsRight(starts, queries[i], horizon, counts[i]);
    }
    activity := GridColumns(starts, queries);
  }

  method GridColumns(starts: seq<Start>, queries: seq<Query>) returns (activity: seq<Activity>)
    requires starts != [] && queries != []
    ensures |activity| == |queries|
    ensures forall i | 0 <= i < |queries| :: ActivityOf(starts, queries[i], activity[i])
  {
    var first := Least(Days(starts, queries)) - 400;
    var width := Greatest(Days(starts, queries)) - first + 1;
    var codes := Greatest(Codes(starts, queries)) + 1;
    GridHoldsEverything(starts, queries);
    var grid := BuildGrid(starts, codes, first, width);
    var cumulative := Cumulate(grid, starts, first);
    var streak := Streaks(grid, starts, first);
    activity := ReadAll(starts, queries, grid, cumulative, streak, first);
  }

  method ReadAll(ghost starts: seq<Start>, queries: seq<Query>, grid: array2<nat>, cumulative: array2<int>, streak: array2<nat>, first: int)
    returns (activity: seq<Activity>)
    requires forall i | 0 <= i < |queries| :: Shaped(grid, cumulative, streak, first, queries[i])
    requires GridIs(grid, starts, first)
    requires cumulative.Length1 == grid.Length1 + 1 && SumsAre(cumulative, starts, first, grid.Length1 + 1)
    requires streak.Length1 == grid.Length1 && StreaksAre(streak, starts, first, grid.Length1)
    ensures |activity| == |queries|
    ensures forall i | 0 <= i < |queries| :: ActivityOf(starts, queries[i], activity[i])
  {
    activity := [];
    for i := 0 to |queries|
      invariant |activity| == i
      invariant forall k | 0 <= k < i :: activity[k] == ReadGrid(grid, cumulative, streak, first, queries[k])
    {
      activity := activity + [ReadGrid(grid, cumulative, streak, first, queries[i])];
    }
    forall i | 0 <= i < |queries| ensures ActivityOf(starts, queries[i], activity[i]) {
      ReadGridIsRight(starts, grid, cumulative, streak, first, queries[i]);
    }
  }
}
