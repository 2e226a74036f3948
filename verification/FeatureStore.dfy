/**
 * Serving features of one channel at one moment, counted from a truncated window of the journal, and the
 * class history of an object. Both have to agree with the episode generator on the whole journal.
 */
module FeatureStore {
  import opened Lists
  import T = Text
  import E = Episodes

  const HOUR: int := 3_600_000_000
  const DAY: int := 86_400_000_000
  const GAP: int := 900_000_000
  const WINDOW: int := 30 * DAY

  datatype Record = Record(channel: string, time: int, alarm: bool, state: string)

  // Episode starts of an ascending list of alarm times.

  predicate IsStart(alarms: seq<int>, i: nat)
    requires i < |alarms|
  {
    i == 0 || alarms[i] - alarms[i - 1] > GAP
  }

  /** The alarms after `after` that have no alarm at most the gap before them: `lag(...) IS NULL OR ... > 900 s`. */
  function StartsAfter(alarms: seq<int>, after: int): seq<int> {
    if alarms == [] then []
    else
      var n := |alarms| - 1;
      var before := StartsAfter(alarms[..n], after);
      if alarms[n] > after && IsStart(alarms, n) then before + [alarms[n]] else before
  }

  function Starts(alarms: seq<int>): seq<int> {
    if alarms == [] then []
    else
      var n := |alarms| - 1;
      var before := Starts(alarms[..n]);
      if IsStart(alarms, n) then before + [alarms[n]] else before
  }

  function Between(after: int, until: int): int -> bool {
    (x: int) => after < x <= until
  }

  lemma LastFiltered(alarms: seq<int>, lo: int, until: int)
    requires Sorted(alarms) && forall x | x in alarms :: x <= until
    ensures var window := Filter(alarms, Between(lo, until));
            && (window == [] ==> alarms == [] || alarms[|alarms| - 1] <= lo)
            && (window != [] ==> alarms != [] && window[|window| - 1] == alarms[|alarms| - 1])
  {
    if alarms != [] {
      var last := alarms[|alarms| - 1];
      assert last in alarms;
      if last <= lo {
        forall x | x in alarms ensures !Between(lo, until)(x) {
          var i :| 0 <= i < |alarms| && alarms[i] == x;
        }
        CountNone(alarms, Between(lo, until));
        FilterMembers(alarms, Between(lo, until));
      } else {
        assert Between(lo, until)(last);
      }
    }
  }

  lemma SameStart(alarms: seq<int>, lo: int, until: int)
    requires Sorted(alarms) && alarms != [] && lo + GAP < alarms[|alarms| - 1] <= until
    ensures var n := |alarms| - 1;
            var window := Filter(alarms[..n], Between(lo, until));
            IsStart(window + [alarms[n]], |window|) <==> IsStart(alarms, n)
  {
    var n := |alarms| - 1;
    forall x | x in alarms[..n] ensures x <= until {
      var i :| 0 <= i < n && alarms[i] == x;
      assert alarms[i] <= alarms[n];
    }
    LastFiltered(alarms[..n], lo, until);
  }

  lemma StartsSnoc(alarms: seq<int>, last: int, after: int)
    ensures StartsAfter(alarms + [last], after)
         == StartsAfter(alarms, after) + (if last > after && IsStart(alarms + [last], |alarms|) then [last] else [])
  {
    assert (alarms + [last])[..|alarms|] == alarms;
  }

  /** Reading only the alarms after `lo` loses no start after `after`, provided the gap fits between the two. */
  lemma {:induction false} TruncationLosesNoStart(alarms: seq<int>, lo: int, after: int, until: int)
    requires Sorted(alarms) && lo + GAP <= after
    ensures StartsAfter(Filter(alarms, Between(lo, until)), after) == Filter(Starts(alarms), Between(after, until))
  {
    if alarms != [] {
      var n := |alarms| - 1;
      var front, last := alarms[..n], alarms[n];
      TruncationLosesNoStart(front, lo, after, until);
      KeptStarts(alarms, after, until);
      var window := Filter(front, Between(lo, until));
      if lo < last <= until {
        assert Filter(alarms, Between(lo, until)) == window + [last];
        StartsSnoc(window, last, after);
        if last > after {
          SameStart(alarms, lo, until);
        }
      } else {
        assert Filter(alarms, Between(lo, until)) == window;
      }
    }
  }

  lemma KeptStarts(alarms: seq<int>, after: int, until: int)
    requires alarms != []
    ensures var kept := Filter(Starts(alarms[..|alarms| - 1]), Between(after, until));
            Filter(Starts(alarms), Between(after, until)) ==
            if IsStart(alarms, |alarms| - 1) && after < alarms[|alarms| - 1] <= until then kept + [alarms[|alarms| - 1]] else kept
  {
    if IsStart(alarms, |alarms| - 1) {
      CountSnoc(Starts(alarms[..|alarms| - 1]), alarms[|alarms| - 1], Between(after, until));
    }
  }

  ghost predicate LosesNoStart(alarms: seq<int>, lo: int, after: int, until: int) {
    StartsAfter(Filter(alarms, Between(lo, until)), after) == Filter(Starts(alarms), Between(after, until))
  }

  lemma NothingBetween(alarms: seq<int>, lo: int, after: int, until: int)
    requires until <= after
    ensures LosesNoStart(alarms, lo, after, until)
  {
    CountNone(Starts(alarms), Between(after, until));
    var window := Filter(alarms, Between(lo, until));
    FilterMembers(alarms, Between(lo, until));
    forall i | 0 <= i < |window| ensures window[i] <= after {
      assert window[i] in window;
    }
    NoStartAfter(window, after);
  }

  lemma {:induction false} NoStartAfter(alarms: seq<int>, after: int)
    requires forall i | 0 <= i < |alarms| :: alarms[i] <= after
    ensures StartsAfter(alarms, after) == []
  {
    if alarms != [] {
      NoStartAfter(alarms[..|alarms| - 1], after);
    }
  }

  lemma OneAlarm(x: int, p: int -> bool)
    ensures Starts([x]) == [x] && Filter([x], p) == if p(x) then [x] else []
  {
    assert [x][..0] == [];
  }

  /** With less than a gap before the counted window, the start of an episode just before it is missing, and its next alarm counts as one. */
  lemma ContinuationBecomesStart(lo: int, after: int, until: int)
    requires lo <= after < until && after < lo + GAP
    ensures Sorted([lo, after + 1]) && !LosesNoStart([lo, after + 1], lo, after, until)
  {
    var alarms := [lo, after + 1];
    OneAlarm(lo, Between(lo, until));
    OneAlarm(lo, Between(after, until));
    assert alarms[..1] == [lo];
    assert Filter(alarms, Between(lo, until)) == [after + 1];
    assert Starts(alarms) == [lo];
    StartsSnoc([], after + 1, after);
    assert [] + [after + 1] == [after + 1];
  }

  lemma StartIsCutOff(lo: int, after: int, until: int)
    requires after < lo && after < until
    ensures Sorted([after + 1]) && !LosesNoStart([after + 1], lo, after, until)
  {
    OneAlarm(after + 1, Between(lo, until));
    OneAlarm(after + 1, Between(after, until));
  }

  /** The margin is exact: a lower bound gives the right starts of every list exactly if it lies a whole gap before the counted window. */
  lemma MarginIsExact(lo: int, after: int, until: int)
    ensures (forall alarms | Sorted(alarms) :: LosesNoStart(alarms, lo, after, until)) <==> lo + GAP <= after || until <= after
  {
    if lo + GAP <= after {
      forall alarms | Sorted(alarms) ensures LosesNoStart(alarms, lo, after, until) {
        TruncationLosesNoStart(alarms, lo, after, until);
      }
    } else if until <= after {
      forall alarms | Sorted(alarms) ensures LosesNoStart(alarms, lo, after, until) {
        NothingBetween(alarms, lo, after, until);
      }
    } else if lo <= after {
      ContinuationBecomesStart(lo, after, until);
    } else {
      StartIsCutOff(lo, after, until);
    }
  }

  // The journal as the generator reads it.

  function Row(r: Record): E.Row {
    E.Row(r.channel, r.time, r.alarm)
  }

  function Rows(journal: seq<Record>): seq<E.Row> {
    seq(|journal|, i requires 0 <= i < |journal| => Row(journal[i]))
  }

  function Times(records: seq<Record>): seq<int> {
    seq(|records|, i requires 0 <= i < |records| => records[i].time)
  }

  function AlarmOf(channel: string): Record -> bool {
    (r: Record) => r.channel == channel && r.alarm
  }

  function OfChannel(channel: string): Record -> bool {
    (r: Record) => r.channel == channel
  }

  /** `ORDER BY occurred_at` over the selected records. */
  function Ordered(records: seq<Record>): seq<int> {
    Sort(Times(records))
  }

  lemma OrderedSnoc(records: seq<Record>, r: Record)
    ensures Ordered(records + [r]) == Insert(Ordered(records), r.time)
  {
    var times := Times(records + [r]);
    assert times[..|times| - 1] == Times(records) && times[|times| - 1] == r.time;
  }

  lemma {:induction false} LogHasTheAlarms(journal: seq<Record>, channel: string)
    ensures var log := E.LogOf(Rows(journal), channel);
            && (log.Some? ==> log.value.alarms == Ordered(Filter(journal, AlarmOf(channel))))
            && (log.None? ==> Filter(journal, AlarmOf(channel)) == [])
  {
    if journal != [] {
      var n := |journal| - 1;
      LogHasTheAlarms(journal[..n], channel);
      assert Rows(journal)[..n] == Rows(journal[..n]);
      var alarms := Filter(journal[..n], AlarmOf(channel));
      assert Times([]) == [] && Ordered([]) == [];
      OrderedSnoc(alarms, journal[n]);
      assert Filter(journal, AlarmOf(channel)) == if AlarmOf(channel)(journal[n]) then alarms + [journal[n]] else alarms;
      assert Rows(journal)[n] == Row(journal[n]);
    }
  }

  function FirstsOf(alarms: seq<int>): seq<int>
    requires alarms != []
  {
    var cuts := E.Cuts(alarms, 900);
    seq(|cuts|, k requires 0 <= k < |cuts| => alarms[cuts[k]])
  }

  lemma {:induction false} CutsAreStarts(alarms: seq<int>)
    requires alarms != []
    ensures FirstsOf(alarms) == Starts(alarms)
  {
    var n := |alarms| - 1;
    if n > 0 {
      var front := alarms[..n];
      CutsAreStarts(front);
      assert alarms[n] - alarms[n - 1] > 900 * E.SECOND <==> IsStart(alarms, n);
      assert FirstsOf(alarms) == FirstsOf(front) + (if IsStart(alarms, n) then [alarms[n]] else []);
    } else {
      assert alarms[..0] == [];
    }
  }

  predicate StartsWithin(e: E.Episode, channel: string, after: int, until: int) {
    e.channel == channel && after < e.first <= until
  }

  function StartOf(channel: string, after: int, until: int): E.Episode -> bool {
    (e: E.Episode) => StartsWithin(e, channel, after, until)
  }

  lemma ChannelStarts(channel: string, log: E.Log, after: int, until: int)
    ensures Count(E.ChannelEpisodes(channel, log, 900), StartOf(channel, after, until))
         == Count(Starts(log.alarms), Between(after, until))
  {
    if log.alarms != [] {
      CutsAreStarts(log.alarms);
      var episodes := E.ChannelEpisodes(channel, log, 900);
      forall k | 0 <= k < |episodes| ensures episodes[k].channel == channel && episodes[k].first == FirstsOf(log.alarms)[k] {
        assert episodes[k] == E.Group(channel, log, 900, k);
      }
      CountsAgree(episodes, StartOf(channel, after, until), Starts(log.alarms), Between(after, until));
    }
  }

  lemma OtherChannel(name: string, log: E.Log, channel: string, after: int, until: int)
    requires name != channel
    ensures Count(E.ChannelEpisodes(name, log, 900), StartOf(channel, after, until)) == 0
  {
    CountNone(E.ChannelEpisodes(name, log, 900), StartOf(channel, after, until));
  }

  function ChannelStartCount(rows: seq<E.Row>, channel: string, after: int, until: int): nat {
    var log := E.LogOf(rows, channel);
    if log.None? then 0 else Count(Starts(log.value.alarms), Between(after, until))
  }

  function OwnEpisodes(rows: seq<E.Row>, name: string): seq<E.Episode> {
    var log := E.LogOf(rows, name);
    if log.None? then [] else E.ChannelEpisodes(name, log.value, 900)
  }

  lemma OwnStarts(rows: seq<E.Row>, name: string, channel: string, after: int, until: int)
    ensures Count(OwnEpisodes(rows, name), StartOf(channel, after, until))
         == if name == channel then ChannelStartCount(rows, channel, after, until) else 0
  {
    var log := E.LogOf(rows, name);
    if log.Some? {
      if name == channel {
        ChannelStarts(channel, log.value, after, until);
      } else {
        OtherChannel(name, log.value, channel, after, until);
      }
    }
  }

  lemma {:induction false} StartsOver(rows: seq<E.Row>, names: seq<string>, channel: string, after: int, until: int)
    requires forall i, j | 0 <= i < j < |names| :: names[i] != names[j]
    ensures Count(E.EpisodesOver(rows, names, 900), StartOf(channel, after, until))
         == if channel in names then ChannelStartCount(rows, channel, after, until) else 0
  {
    if names != [] {
      var n := |names| - 1;
      StartsOver(rows, names[..n], channel, after, until);
      OwnStarts(rows, names[n], channel, after, until);
      CountAppend(E.EpisodesOver(rows, names[..n], 900), OwnEpisodes(rows, names[n]), StartOf(channel, after, until));
      assert names == names[..n] + [names[n]];
    }
  }

  /** The starts of a channel among the episodes the generator yields for the whole journal. */
  function GeneratedStarts(journal: seq<Record>, channel: string, after: int, until: int): nat {
    Count(E.Reference(Rows(journal), 900), StartOf(channel, after, until))
  }

  lemma GeneratedStartsAreStarts(journal: seq<Record>, channel: string, after: int, until: int)
    ensures GeneratedStarts(journal, channel, after, until)
         == Count(Starts(Ordered(Filter(journal, AlarmOf(channel)))), Between(after, until))
  {
    var rows := Rows(journal);
    E.ChannelsAreTheNames(rows);
    var names := E.Channels(rows);
    forall i, j | 0 <= i < j < |names| ensures names[i] != names[j] {
      T.BeforeIsIrreflexive(names[i]);
    }
    StartsOver(rows, names, channel, after, until);
    LogHasTheAlarms(journal, channel);
    if E.LogOf(rows, channel).None? {
      assert Ordered([]) == [];
    }
  }

  // Sorting commutes with reading a time window.

  lemma {:induction false} FilterKeepsSorted(s: seq<int>, p: int -> bool)
    requires Sorted(s)
    ensures Sorted(Filter(s, p))
  {
    if s != [] {
      var n := |s| - 1;
      FilterKeepsSorted(s[..n], p);
      FilterMembers(s[..n], p);
      var front := Filter(s[..n], p);
      forall i | 0 <= i < |front| ensures front[i] <= s[n] {
        assert front[i] in front;
      }
    }
  }

  lemma SortFiltered(s: seq<int>, p: int -> bool)
    ensures Sort(Filter(s, p)) == Filter(Sort(s), p)
  {
    SortSorts(s);
    SortSorts(Filter(s, p));
    FilterKeepsSorted(Sort(s), p);
    CountPermutation(Sort(s), s, p);
    SortedIsCanonical(Sort(Filter(s, p)), Filter(Sort(s), p));
  }

  lemma {:induction false} TimesFiltered(records: seq<Record>, q: Record -> bool, p: int -> bool)
    requires forall r | r in records :: q(r) == p(r.time)
    ensures Times(Filter(records, q)) == Filter(Times(records), p)
  {
    if records != [] {
      var n := |records| - 1;
      TimesFiltered(records[..n], q, p);
      assert records[n] in records;
      assert Times(records)[..n] == Times(records[..n]);
    }
  }

  lemma OrderedWindow(records: seq<Record>, q: Record -> bool, after: int, until: int)
    requires forall r | r in records :: q(r) == Between(after, until)(r.time)
    ensures Ordered(Filter(records, q)) == Filter(Ordered(records), Between(after, until))
  {
    TimesFiltered(records, q, Between(after, until));
    SortFiltered(Times(records), Between(after, until));
  }

  lemma OrderedIsSorted(records: seq<Record>)
    ensures Sorted(Ordered(records)) && |Ordered(records)| == |records|
  {
    SortSorts(Times(records));
  }

  // The queries.

  function InWindow(channel: string, t: int): Record -> bool {
    (r: Record) => r.channel == channel && t - WINDOW - GAP < r.time <= t
  }

  function InWindowOf(channels: seq<string>, t: int): Record -> bool {
    (r: Record) => r.channel in channels && t - WINDOW - GAP < r.time <= t
  }

  function IsAlarm(): Record -> bool {
    (r: Record) => r.alarm
  }

  function Since(after: int): Record -> bool {
    (r: Record) => r.time > after
  }

  function AlarmSince(after: int): Record -> bool {
    (r: Record) => r.alarm && r.time > after
  }

  function Above(after: int): int -> bool {
    (x: int) => x > after
  }

  function Earliest(times: seq<int>): Option<int> {
    if times == [] then None
    else
      var before, last := Earliest(times[..|times| - 1]), times[|times| - 1];
      if before.None? || last < before.value then Some(last) else before
  }

  function Latest(times: seq<int>): Option<int> {
    if times == [] then None
    else
      var before, last := Latest(times[..|times| - 1]), times[|times| - 1];
      if before.None? || last > before.value then Some(last) else before
  }

  lemma {:induction false} EarliestIsLeast(times: seq<int>)
    ensures Earliest(times).None? <==> times == []
    ensures Earliest(times).Some? ==> Earliest(times).value in times && forall x | x in times :: Earliest(times).value <= x
  {
    if times != [] {
      EarliestIsLeast(times[..|times| - 1]);
      assert times == times[..|times| - 1] + [times[|times| - 1]];
    }
  }

  lemma {:induction false} LatestIsGreatest(times: seq<int>)
    ensures Latest(times).None? <==> times == []
    ensures Latest(times).Some? ==> Latest(times).value in times && forall x | x in times :: x <= Latest(times).value
  {
    if times != [] {
      LatestIsGreatest(times[..|times| - 1]);
      assert times == times[..|times| - 1] + [times[|times| - 1]];
    }
  }

  lemma TimesMembers(records: seq<Record>)
    ensures forall x :: x in Times(records) <==> exists r | r in records :: r.time == x
  {
    forall x | x in Times(records) ensures exists r | r in records :: r.time == x {
      var i :| 0 <= i < |records| && records[i].time == x;
      assert records[i] in records;
    }
    forall r | r in records ensures r.time in Times(records) {
      var i :| 0 <= i < |records| && records[i] == r;
      assert Times(records)[i] == r.time;
    }
  }

  function HoursSince(time: Option<int>, t: int): Option<real> {
    if time.None? then None else Some((t - time.value) as real / 3_600_000_000.0)
  }

  function DaysAgo(records: seq<Record>, t: int): set<int> {
    set r | r in records :: (t - r.time) / DAY
  }

  datatype Counts = Counts(events24h: nat, alarms24h: nat, events7d: nat, alarms7d: nat, events30d: nat, alarms30d: nat,
                           activeDays30d: nat, starts7d: nat, starts30d: nat, lastEventAge: Option<real>, lastAlarmAge: Option<real>)

  /** The single-channel query over the rows of its window. */
  function SingleRow(w: seq<Record>, t: int): Counts {
    var alarms, recent := Ordered(Filter(w, IsAlarm())), Filter(w, Since(t - WINDOW));
    Counts(Count(recent, Since(t - DAY)), Count(recent, AlarmSince(t - DAY)),
           Count(recent, Since(t - 7 * DAY)), Count(recent, AlarmSince(t - 7 * DAY)),
           |recent|, Count(recent, IsAlarm()), |DaysAgo(recent, t)|,
           |StartsAfter(alarms, t - 7 * DAY)|, |StartsAfter(alarms, t - WINDOW)|,
           HoursSince(Latest(Times(recent)), t), HoursSince(Latest(Times(Filter(recent, IsAlarm()))), t))
  }

  /** The row that the many-channel query groups, partitions and joins for one channel. */
  function GroupedRow(w: seq<Record>, channel: string, t: int): Counts {
    var recent := Filter(Filter(w, Since(t - WINDOW)), OfChannel(channel));
    var starts := StartsAfter(Ordered(Filter(Filter(w, IsAlarm()), OfChannel(channel))), t - WINDOW);
    Counts(Count(recent, Since(t - DAY)), Count(recent, AlarmSince(t - DAY)),
           Count(recent, Since(t - 7 * DAY)), Count(recent, AlarmSince(t - 7 * DAY)),
           |recent|, Count(recent, IsAlarm()), |DaysAgo(recent, t)|,
           Count(starts, Above(t - 7 * DAY)), |starts|,
           HoursSince(Latest(Times(recent)), t), HoursSince(Latest(Times(Filter(recent, IsAlarm()))), t))
  }

  lemma {:induction false} LaterStarts(alarms: seq<int>, after: int, later: int)
    requires after <= later
    ensures Count(StartsAfter(alarms, after), Above(later)) == |StartsAfter(alarms, later)|
  {
    if alarms != [] {
      var n := |alarms| - 1;
      LaterStarts(alarms[..n], after, later);
      CountSnoc(StartsAfter(alarms[..n], after), alarms[n], Above(later));
    }
  }

  function InWindowRecent(channel: string, t: int): Record -> bool {
    (r: Record) => r.channel == channel && t - WINDOW < r.time <= t
  }

  function InWindowAlarm(channel: string, t: int): Record -> bool {
    (r: Record) => r.channel == channel && r.alarm && t - WINDOW - GAP < r.time <= t
  }

  function InWindowRecentOf(channels: seq<string>, t: int): Record -> bool {
    (r: Record) => r.channel in channels && t - WINDOW < r.time <= t
  }

  function InWindowAlarmOf(channels: seq<string>, t: int): Record -> bool {
    (r: Record) => r.channel in channels && r.alarm && t - WINDOW - GAP < r.time <= t
  }

  lemma SingleSelections(journal: seq<Record>, channel: string, t: int)
    ensures var w := Filter(journal, InWindow(channel, t));
            && Filter(w, Since(t - WINDOW)) == Filter(journal, InWindowRecent(channel, t))
            && Filter(w, IsAlarm()) == Filter(journal, InWindowAlarm(channel, t))
  {
    FilterFilter(journal, InWindow(channel, t), Since(t - WINDOW), InWindowRecent(channel, t));
    FilterFilter(journal, InWindow(channel, t), IsAlarm(), InWindowAlarm(channel, t));
  }

  lemma GroupedSelections(journal: seq<Record>, channels: seq<string>, channel: string, t: int)
    requires channel in channels
    ensures var w := Filter(journal, InWindowOf(channels, t));
            && Filter(Filter(w, Since(t - WINDOW)), OfChannel(channel)) == Filter(journal, InWindowRecent(channel, t))
            && Filter(Filter(w, IsAlarm()), OfChannel(channel)) == Filter(journal, InWindowAlarm(channel, t))
  {
    FilterFilter(journal, InWindowOf(channels, t), Since(t - WINDOW), InWindowRecentOf(channels, t));
    FilterFilter(journal, InWindowRecentOf(channels, t), OfChannel(channel), InWindowRecent(channel, t));
    FilterFilter(journal, InWindowOf(channels, t), IsAlarm(), InWindowAlarmOf(channels, t));
    FilterFilter(journal, InWindowAlarmOf(channels, t), OfChannel(channel), InWindowAlarm(channel, t));
  }

  /** Grouping all channels at once gives every channel the row of its own query. */
  lemma GroupedIsSingle(journal: seq<Record>, channels: seq<string>, channel: string, t: int)
    requires channel in channels
    ensures GroupedRow(Filter(journal, InWindowOf(channels, t)), channel, t) == SingleRow(Filter(journal, InWindow(channel, t)), t)
  {
    SingleSelections(journal, channel, t);
    GroupedSelections(journal, channels, channel, t);
    LaterStarts(Ordered(Filter(journal, InWindowAlarm(channel, t))), t - WINDOW, t - 7 * DAY);
  }

  /** The start counts of the truncated query are those of the episodes generated from the whole journal. */
  lemma StartCountsMatchTheGenerator(journal: seq<Record>, channel: string, t: int)
    ensures var row := SingleRow(Filter(journal, InWindow(channel, t)), t);
            && row.starts7d == GeneratedStarts(journal, channel, t - 604_800_000_000, t)
            && row.starts30d == GeneratedStarts(journal, channel, t - 2_592_000_000_000, t)
  {
    SingleSelections(journal, channel, t);
    var own := Filter(journal, AlarmOf(channel));
    var alarms := Ordered(own);
    OrderedIsSorted(own);
    WindowOfAlarms(journal, channel, t);
    TruncationLosesNoStart(alarms, t - WINDOW - GAP, t - 7 * DAY, t);
    TruncationLosesNoStart(alarms, t - WINDOW - GAP, t - WINDOW, t);
    FilterMembers(Starts(alarms), Between(t - 7 * DAY, t));
    FilterMembers(Starts(alarms), Between(t - WINDOW, t));
    GeneratedStartsAreStarts(journal, channel, t - 7 * DAY, t);
    GeneratedStartsAreStarts(journal, channel, t - WINDOW, t);
  }

  function WithinTime(after: int, until: int): Record -> bool {
    (r: Record) => after < r.time <= until
  }

  lemma WindowOfAlarms(journal: seq<Record>, channel: string, t: int)
    ensures Ordered(Filter(journal, InWindowAlarm(channel, t)))
         == Filter(Ordered(Filter(journal, AlarmOf(channel))), Between(t - WINDOW - GAP, t))
  {
    var own := Filter(journal, AlarmOf(channel));
    FilterFilter(journal, AlarmOf(channel), WithinTime(t - WINDOW - GAP, t), InWindowAlarm(channel, t));
    OrderedWindow(own, WithinTime(t - WINDOW - GAP, t), t - WINDOW - GAP, t);
  }

  // The two entry points.

  datatype LogGap = LogGap(start: int, end: int)

  datatype Store = Store(journal: seq<Record>, gaps: seq<LogGap>)

  /** `EmptyJournal` stands for the type error of comparing a moment with a missing first record. */
  datatype Refusal =
    | EmptyJournal | GlobalHistory | StaleJournal | UnknownChannel
    | NoRecentRecords | ChannelHistory | KnownLogGap | ActiveAlarm

  datatype Result<T> = Ok(value: T) | Insufficient(reason: Refusal)

  datatype Values = Values(counts: Counts, channelAgeDays: real, gapHours: real)

  function FirstOf(journal: seq<Record>, channel: string): Option<int> {
    Earliest(Times(Filter(journal, OfChannel(channel))))
  }

  predicate GapNow(gaps: seq<LogGap>, t: int) {
    exists g | g in gaps :: g.start <= t && g.end > t - DAY
  }

  function GapHours(gaps: seq<LogGap>, t: int): real {
    if gaps == [] then 0.0
    else
      var g := gaps[|gaps| - 1];
      var end, start := if g.end < t then g.end else t, if g.start > t - WINDOW then g.start else t - WINDOW;
      GapHours(gaps[..|gaps| - 1], t) + (if end > start then end - start else 0) as real / 3_600_000_000.0
  }

  /** An alarm age of at most `EPISODE_GAP / timedelta(hours=1)`. */
  predicate Ongoing(age: Option<real>) {
    age.Some? && age.value <= 0.25
  }

  function ValuesOf(store: Store, row: Counts, first: int, t: int): Values {
    Values(row, (t - first) as real / 86_400_000_000.0, GapHours(store.gaps, t))
  }

  function Features(store: Store, channel: string, t: int): Result<Values> {
    var globalFirst, globalLast := Earliest(Times(store.journal)), Latest(Times(store.journal));
    if globalFirst.None? || globalLast.None? then Insufficient(EmptyJournal)
    else if t - WINDOW < globalFirst.value then Insufficient(GlobalHistory)
    else if t > globalLast.value + HOUR then Insufficient(StaleJournal)
    else
      var first := FirstOf(store.journal, channel);
      if first.None? || first.value > t then Insufficient(UnknownChannel)
      else
        var row := SingleRow(Filter(store.journal, InWindow(channel, t)), t);
        if row.events30d == 0 then Insufficient(NoRecentRecords)
        else if t - DAY < first.value then Insufficient(ChannelHistory)
        else if GapNow(store.gaps, t) then Insufficient(KnownLogGap)
        else if Ongoing(row.lastAlarmAge) then Insufficient(ActiveAlarm)
        else Ok(ValuesOf(store, row, first.value, t))
  }

  function CheckJournal(store: Store, t: int): Option<Refusal> {
    var globalFirst, globalLast := Earliest(Times(store.journal)), Latest(Times(store.journal));
    if globalFirst.None? || globalLast.None? then Some(EmptyJournal)
    else if t - WINDOW < globalFirst.value then Some(GlobalHistory)
    else if t > globalLast.value + HOUR then Some(StaleJournal)
    else if GapNow(store.gaps, t) then Some(KnownLogGap)
    else None
  }

  /** `GROUP BY channel_id`: every channel with a selected row, once. */
  function GroupNames(records: seq<Record>): seq<string> {
    if records == [] then []
    else
      var before, c := GroupNames(records[..|records| - 1]), records[|records| - 1].channel;
      if c in before then before else before + [c]
  }

  lemma {:induction false} GroupNamesAreThose(records: seq<Record>)
    ensures forall c :: c in GroupNames(records) <==> exists r | r in records :: r.channel == c
  {
    if records != [] {
      GroupNamesAreThose(records[..|records| - 1]);
      assert records == records[..|records| - 1] + [records[|records| - 1]];
    }
  }

  lemma GroupedChannels(journal: seq<Record>, channels: seq<string>, t: int)
    ensures var recent := Filter(Filter(journal, InWindowOf(channels, t)), Since(t - WINDOW));
            forall c :: c in GroupNames(recent) <==> c in channels && |Filter(journal, InWindowRecent(c, t))| > 0
  {
    FilterFilter(journal, InWindowOf(channels, t), Since(t - WINDOW), InWindowRecentOf(channels, t));
    var recent := Filter(journal, InWindowRecentOf(channels, t));
    GroupNamesAreThose(recent);
    FilterMembers(journal, InWindowRecentOf(channels, t));
    forall c ensures c in GroupNames(recent) <==> c in channels && |Filter(journal, InWindowRecent(c, t))| > 0 {
      FilterMembers(journal, InWindowRecent(c, t));
      var own := Filter(journal, InWindowRecent(c, t));
      if c in channels && own != [] {
        assert own[0] in own;
        assert own[0] in recent;
      }
    }
  }

  lemma FirstBounds(journal: seq<Record>, channel: string, t: int)
    ensures |Filter(journal, InWindowRecent(channel, t))| > 0 ==> FirstOf(journal, channel).Some? && FirstOf(journal, channel).value <= t
  {
    var own, recent := Filter(journal, OfChannel(channel)), Filter(journal, InWindowRecent(channel, t));
    FilterMembers(journal, OfChannel(channel));
    FilterMembers(journal, InWindowRecent(channel, t));
    EarliestIsLeast(Times(own));
    TimesMembers(own);
    if recent != [] {
      assert recent[0] in recent;
      assert recent[0].time in Times(own);
    }
  }

  predicate Eligible(row: Counts, first: int, t: int) {
    !(t - DAY < first || Ongoing(row.lastAlarmAge))
  }

  lemma PassesIff(store: Store, channels: seq<string>, channel: string, t: int)
    requires CheckJournal(store, t).None? && channel in channels
    ensures var row := SingleRow(Filter(store.journal, InWindow(channel, t)), t);
            && (Features(store, channel, t).Ok? <==>
                |Filter(store.journal, InWindowRecent(channel, t))| > 0 && FirstOf(store.journal, channel).Some?
                && Eligible(row, FirstOf(store.journal, channel).value, t))
            && (Features(store, channel, t).Ok? ==>
                Features(store, channel, t).value == ValuesOf(store, row, FirstOf(store.journal, channel).value, t))
  {
    SingleSelections(store.journal, channel, t);
    FirstBounds(store.journal, channel, t);
  }

  lemma GroupDecision(store: Store, channels: seq<string>, channel: string, t: int)
    requires CheckJournal(store, t).None? && channel in channels && |Filter(store.journal, InWindowRecent(channel, t))| > 0
    ensures var row, first := GroupedRow(Filter(store.journal, InWindowOf(channels, t)), channel, t), FirstOf(store.journal, channel);
            && first.Some?
            && (Features(store, channel, t).Ok? <==> Eligible(row, first.value, t))
            && (Features(store, channel, t).Ok? ==> Features(store, channel, t).value == ValuesOf(store, row, first.value, t))
  {
    GroupedIsSingle(store.journal, channels, channel, t);
    FirstBounds(store.journal, channel, t);
    PassesIff(store, channels, channel, t);
  }

  function Answering(store: Store, t: int): string -> Result<Values> {
    (c: string) => Features(store, c, t)
  }

  /** Exactly the named channels that have an answer, with its values. */
  ghost predicate AnswersFor(answers: string -> Result<Values>, names: seq<string>, found: map<string, Values>) {
    && (forall c :: c in found <==> c in names && answers(c).Ok?)
    && (forall c | c in found :: answers(c) == Ok(found[c]))
  }

  lemma NextAnswer(answers: string -> Result<Values>, names: seq<string>, name: string, found: map<string, Values>)
    requires AnswersFor(answers, names, found)
    ensures match answers(name)
            case Ok(values) => AnswersFor(answers, names + [name], found[name := values])
            case Insufficient(_) => AnswersFor(answers, names + [name], found)
  {
    assert forall c :: c in names + [name] <==> c in names || c == name;
  }

  /** The batch entry point: one result row per group, dropped on the same grounds as the single query refuses. */
  method FeaturesMany(store: Store, channels: seq<string>, t: int) returns (result: Result<map<string, Values>>)
    ensures CheckJournal(store, t).Some? ==> result == Insufficient(CheckJournal(store, t).value)
    ensures CheckJournal(store, t).None? ==>
              && result.Ok?
              && (forall c :: c in result.value <==> c in channels && Features(store, c, t).Ok?)
              && (forall c | c in result.value :: Features(store, c, t) == Ok(result.value[c]))
  {
    var fault := CheckJournal(store, t);
    if fault.Some? {
      return Insufficient(fault.value);
    }
    var w := Filter(store.journal, InWindowOf(channels, t));
    var names := GroupNames(Filter(w, Since(t - WINDOW)));
    GroupedChannels(store.journal, channels, t);
    var found: map<string, Values> := map[];
    for i := 0 to |names|
      invariant AnswersFor(Answering(store, t), names[..i], found)
    {
      var channel := names[i];
      assert channel in names && names[..i + 1] == names[..i] + [channel];
      NextAnswer(Answering(store, t), names[..i], channel, found);
      GroupDecision(store, channels, channel, t);
      var row, first := GroupedRow(w, channel, t), FirstOf(store.journal, channel).value;
      if t - DAY < first || Ongoing(row.lastAlarmAge) {
        continue;
      }
      found := found[channel := ValuesOf(store, row, first, t)];
    }
    assert names[..|names|] == names;
    forall c | c in channels && c !in names ensures !Features(store, c, t).Ok? {
      PassesIff(store, channels, c, t);
    }
    result := Ok(found);
  }

  /** When the batch check refuses, every single query refuses too, on the same ground if the whole journal is at fault. */
  lemma RefusedJournalRefusesEveryChannel(store: Store, channel: string, t: int)
    requires CheckJournal(store, t).Some?
    ensures Features(store, channel, t).Insufficient?
    ensures !CheckJournal(store, t).value.KnownLogGap? ==> Features(store, channel, t) == Insufficient(CheckJournal(store, t).value)
  {
  }

  ghost predicate HasRecord(journal: seq<Record>, channel: string, after: int, until: int) {
    exists r | r in journal :: r.channel == channel && after < r.time <= until
  }

  ghost predicate HasAlarm(journal: seq<Record>, channel: string, after: int, until: int) {
    exists r | r in journal :: r.channel == channel && r.alarm && after < r.time <= until
  }

  /** A known gap touches the last day before the moment. */
  ghost predicate GapInLastDay(gaps: seq<LogGap>, t: int) {
    exists g | g in gaps :: g.start <= t && t - 86_400_000_000 < g.end
  }

  /** What a forecast needs, said about the journal rows and the known gaps alone. */
  ghost predicate Forecastable(store: Store, channel: string, t: int) {
    && (exists r | r in store.journal :: r.time <= t - 2_592_000_000_000)
    && (exists r | r in store.journal :: t - 3_600_000_000 <= r.time)
    && HasRecord(store.journal, channel, t - 2_592_000_000_000, t)
    && (exists r | r in store.journal :: r.channel == channel && r.time <= t - 86_400_000_000)
    && !HasAlarm(store.journal, channel, t - 900_000_001, t)
    && !GapInLastDay(store.gaps, t)
  }

  lemma FirstBefore(times: seq<int>, moment: int)
    ensures Earliest(times).Some? && Earliest(times).value <= moment <==> exists x | x in times :: x <= moment
  {
    EarliestIsLeast(times);
  }

  lemma LastAfter(times: seq<int>, moment: int)
    ensures Latest(times).Some? && moment <= Latest(times).value <==> exists x | x in times :: moment <= x
  {
    LatestIsGreatest(times);
  }

  lemma SomeTime(records: seq<Record>, moment: int)
    ensures (exists x | x in Times(records) :: x <= moment) <==> (exists r | r in records :: r.time <= moment)
    ensures (exists x | x in Times(records) :: moment <= x) <==> (exists r | r in records :: moment <= r.time)
  {
    TimesMembers(records);
    forall r | r in records ensures r.time in Times(records) {
    }
    if x :| x in Times(records) && x <= moment {
      var r :| r in records && r.time == x;
    }
    if x :| x in Times(records) && moment <= x {
      var r :| r in records && r.time == x;
    }
  }

  lemma JournalCheckIff(store: Store, t: int)
    ensures CheckJournal(store, t).None? <==>
              && (exists r | r in store.journal :: r.time <= t - WINDOW)
              && (exists r | r in store.journal :: t - HOUR <= r.time)
              && !GapNow(store.gaps, t)
  {
    FirstBefore(Times(store.journal), t - WINDOW);
    LastAfter(Times(store.journal), t - HOUR);
    EarliestIsLeast(Times(store.journal));
    LatestIsGreatest(Times(store.journal));
    SomeTime(store.journal, t - WINDOW);
    SomeTime(store.journal, t - HOUR);
  }

  lemma ChannelFirstIff(journal: seq<Record>, channel: string, moment: int)
    ensures FirstOf(journal, channel).Some? && FirstOf(journal, channel).value <= moment
       <==> exists r | r in journal :: r.channel == channel && r.time <= moment
  {
    var own := Filter(journal, OfChannel(channel));
    FilterMembers(journal, OfChannel(channel));
    FirstBefore(Times(own), moment);
    SomeTime(own, moment);
  }

  lemma RecentIff(journal: seq<Record>, channel: string, t: int)
    ensures |Filter(journal, InWindowRecent(channel, t))| > 0 <==> HasRecord(journal, channel, t - WINDOW, t)
  {
    FilterMembers(journal, InWindowRecent(channel, t));
    var recent := Filter(journal, InWindowRecent(channel, t));
    if recent != [] {
      assert recent[0] in recent;
    }
  }

  function RecentAlarm(channel: string, t: int): Record -> bool {
    (r: Record) => r.channel == channel && r.alarm && t - WINDOW < r.time <= t
  }

  lemma LastAlarmAgeIs(journal: seq<Record>, channel: string, t: int)
    ensures SingleRow(Filter(journal, InWindow(channel, t)), t).lastAlarmAge
         == HoursSince(Latest(Times(Filter(journal, RecentAlarm(channel, t)))), t)
  {
    SingleSelections(journal, channel, t);
    FilterFilter(journal, InWindowRecent(channel, t), IsAlarm(), RecentAlarm(channel, t));
  }

  lemma RecentAlarmIff(journal: seq<Record>, channel: string, t: int)
    ensures (exists r | r in Filter(journal, RecentAlarm(channel, t)) :: t - GAP <= r.time) <==> HasAlarm(journal, channel, t - GAP - 1, t)
  {
    FilterMembers(journal, RecentAlarm(channel, t));
    var alarms := Filter(journal, RecentAlarm(channel, t));
    if HasAlarm(journal, channel, t - GAP - 1, t) {
      var r :| r in journal && r.channel == channel && r.alarm && t - GAP - 1 < r.time <= t;
      assert RecentAlarm(channel, t)(r);
      assert r in alarms;
    }
    if r :| r in alarms && t - GAP <= r.time {
      assert RecentAlarm(channel, t)(r) && r in journal;
    }
  }

  lemma OngoingIff(journal: seq<Record>, channel: string, t: int)
    ensures Ongoing(SingleRow(Filter(journal, InWindow(channel, t)), t).lastAlarmAge) <==> HasAlarm(journal, channel, t - GAP - 1, t)
  {
    var alarms := Filter(journal, RecentAlarm(channel, t));
    LastAlarmAgeIs(journal, channel, t);
    AgeIff(Latest(Times(alarms)), t);
    LastAfter(Times(alarms), t - GAP);
    SomeTime(alarms, t - GAP);
    RecentAlarmIff(journal, channel, t);
  }

  lemma AgeIff(latest: Option<int>, t: int)
    ensures Ongoing(HoursSince(latest, t)) <==> latest.Some? && t - GAP <= latest.value
  {
    if latest.Some? {
      var age := t - latest.value;
      assert age as real / 3_600_000_000.0 <= 0.25 <==> age as real <= 900_000_000.0;
    }
  }

  // Why a query refuses, and what its counts are, said about the journal rows alone.

  ghost predicate Reaches(journal: seq<Record>, moment: int) {
    exists r | r in journal :: r.time <= moment
  }

  ghost predicate Lasts(journal: seq<Record>, moment: int) {
    exists r | r in journal :: moment <= r.time
  }

  ghost predicate KnownBy(journal: seq<Record>, channel: string, moment: int) {
    exists r | r in journal :: r.channel == channel && r.time <= moment
  }

  ghost function RefusalOf(store: Store, channel: string, t: int): Option<Refusal> {
    if store.journal == [] then Some(EmptyJournal)
    else if !Reaches(store.journal, t - 2_592_000_000_000) then Some(GlobalHistory)
    else if !Lasts(store.journal, t - 3_600_000_000) then Some(StaleJournal)
    else if !KnownBy(store.journal, channel, t) then Some(UnknownChannel)
    else if !HasRecord(store.journal, channel, t - 2_592_000_000_000, t) then Some(NoRecentRecords)
    else if !KnownBy(store.journal, channel, t - 86_400_000_000) then Some(ChannelHistory)
    else if GapInLastDay(store.gaps, t) then Some(KnownLogGap)
    else if HasAlarm(store.journal, channel, t - 900_000_001, t) then Some(ActiveAlarm)
    else None
  }

  lemma JournalBounds(journal: seq<Record>, t: int)
    ensures var first, last := Earliest(Times(journal)), Latest(Times(journal));
            && (first.None? <==> journal == []) && (last.None? <==> journal == [])
            && (journal != [] ==> (first.value <= t - WINDOW <==> Reaches(journal, t - WINDOW)))
            && (journal != [] ==> (t - HOUR <= last.value <==> Lasts(journal, t - HOUR)))
  {
    EarliestIsLeast(Times(journal));
    LatestIsGreatest(Times(journal));
    FirstBefore(Times(journal), t - WINDOW);
    LastAfter(Times(journal), t - HOUR);
    SomeTime(journal, t - WINDOW);
    SomeTime(journal, t - HOUR);
  }

  lemma ChannelChecks(store: Store, channel: string, t: int)
    ensures var first := FirstOf(store.journal, channel);
            var row := SingleRow(Filter(store.journal, InWindow(channel, t)), t);
            && (first.Some? && first.value <= t <==> KnownBy(store.journal, channel, t))
            && (first.Some? && first.value <= t - DAY <==> KnownBy(store.journal, channel, t - DAY))
            && (row.events30d > 0 <==> HasRecord(store.journal, channel, t - WINDOW, t))
            && (Ongoing(row.lastAlarmAge) <==> HasAlarm(store.journal, channel, t - GAP - 1, t))
  {
    ChannelFirstIff(store.journal, channel, t);
    ChannelFirstIff(store.journal, channel, t - DAY);
    SingleSelections(store.journal, channel, t);
    RecentIff(store.journal, channel, t);
    OngoingIff(store.journal, channel, t);
  }

  /** The query refuses exactly for the first of these reasons that holds. */
  lemma RefusalsSayWhy(store: Store, channel: string, t: int)
    ensures Features(store, channel, t).Ok? <==> RefusalOf(store, channel, t).None?
    ensures Features(store, channel, t).Insufficient? ==> Some(Features(store, channel, t).reason) == RefusalOf(store, channel, t)
  {
    JournalBounds(store.journal, t);
    ChannelChecks(store, channel, t);
  }

  /**
   * A channel has features exactly when the journal reaches 30 days back and is at most an hour behind, the channel has
   * a record in the last 30 days and one at least a day old, no alarm in the last 900 s, and no known gap touches the last day.
   */
  lemma FeaturesIff(store: Store, channel: string, t: int)
    ensures Features(store, channel, t).Ok? <==> Forecastable(store, channel, t)
  {
    RefusalsSayWhy(store, channel, t);
    NoRefusalIff(store, channel, t);
  }

  lemma NoRefusalIff(store: Store, channel: string, t: int)
    ensures RefusalOf(store, channel, t).None? <==> Forecastable(store, channel, t)
  {
    if KnownBy(store.journal, channel, t - 86_400_000_000) {
      var r :| r in store.journal && r.channel == channel && r.time <= t - 86_400_000_000;
      assert KnownBy(store.journal, channel, t);
    }
  }

  function Seen(channel: string, after: int, until: int): Record -> bool {
    (r: Record) => r.channel == channel && after < r.time <= until
  }

  function SeenAlarm(channel: string, after: int, until: int): Record -> bool {
    (r: Record) => r.channel == channel && r.alarm && after < r.time <= until
  }

  /** The row and alarm counts of a window of at most 30 days are counts over the whole journal. */
  lemma WindowCounts(journal: seq<Record>, channel: string, t: int, after: int)
    requires t - WINDOW <= after
    ensures var recent := Filter(Filter(journal, InWindow(channel, t)), Since(t - WINDOW));
            && Count(recent, Since(after)) == Count(journal, Seen(channel, after, t))
            && Count(recent, AlarmSince(after)) == Count(journal, SeenAlarm(channel, after, t))
  {
    SingleSelections(journal, channel, t);
    FilterFilter(journal, InWindowRecent(channel, t), Since(after), Seen(channel, after, t));
    FilterFilter(journal, InWindowRecent(channel, t), AlarmSince(after), SeenAlarm(channel, after, t));
  }

  lemma MonthCounts(journal: seq<Record>, channel: string, t: int)
    ensures var row := SingleRow(Filter(journal, InWindow(channel, t)), t);
            && row.events30d == Count(journal, Seen(channel, t - WINDOW, t))
            && row.alarms30d == Count(journal, SeenAlarm(channel, t - WINDOW, t))
            && row.lastEventAge == HoursSince(Latest(Times(Filter(journal, Seen(channel, t - WINDOW, t)))), t)
            && row.lastAlarmAge == HoursSince(Latest(Times(Filter(journal, SeenAlarm(channel, t - WINDOW, t)))), t)
  {
    SingleSelections(journal, channel, t);
    CountCongruence(journal, InWindowRecent(channel, t), Seen(channel, t - WINDOW, t));
    FilterMembers(journal, InWindowRecent(channel, t));
    FilterFilter(journal, InWindowRecent(channel, t), IsAlarm(), SeenAlarm(channel, t - WINDOW, t));
  }

  /** Every event and alarm count of the row is the count over the whole journal in its window. */
  lemma RowCountsTheJournal(journal: seq<Record>, channel: string, t: int)
    ensures var row := SingleRow(Filter(journal, InWindow(channel, t)), t);
            && row.events24h == Count(journal, Seen(channel, t - 86_400_000_000, t))
            && row.alarms24h == Count(journal, SeenAlarm(channel, t - 86_400_000_000, t))
            && row.events7d == Count(journal, Seen(channel, t - 604_800_000_000, t))
            && row.alarms7d == Count(journal, SeenAlarm(channel, t - 604_800_000_000, t))
            && row.events30d == Count(journal, Seen(channel, t - 2_592_000_000_000, t))
            && row.alarms30d == Count(journal, SeenAlarm(channel, t - 2_592_000_000_000, t))
  {
    WindowCounts(journal, channel, t, t - DAY);
    WindowCounts(journal, channel, t, t - 7 * DAY);
    MonthCounts(journal, channel, t);
  }

  lemma FeaturesHandOutTheRow(store: Store, channel: string, t: int)
    ensures Features(store, channel, t).Ok? ==>
              Features(store, channel, t).value.counts == SingleRow(Filter(store.journal, InWindow(channel, t)), t)
  {
  }

  /** The features handed out carry the start counts of the generated episodes. */
  lemma FeaturesCountGeneratedStarts(store: Store, channel: string, t: int, values: Values)
    requires Features(store, channel, t) == Ok(values)
    ensures values.counts.starts7d == GeneratedStarts(store.journal, channel, t - 604_800_000_000, t)
    ensures values.counts.starts30d == GeneratedStarts(store.journal, channel, t - 2_592_000_000_000, t)
  {
    FeaturesHandOutTheRow(store, channel, t);
    StartCountsMatchTheGenerator(store.journal, channel, t);
  }

  // The remaining values, said about the journal rows and the gaps.

  /** A day is active if some record lies in it, days counted back from the moment; there are at most 30 of them. */
  lemma {:induction false} ActiveDaysAre(records: seq<Record>, t: int, d: int)
    ensures d in DaysAgo(records, t) <==> exists r | r in records :: d * 86_400_000_000 <= t - r.time < (d + 1) * 86_400_000_000
  {
  }

  lemma {:induction false} DaysFit(days: set<int>, n: nat)
    requires forall d | d in days :: 0 <= d < n
    ensures |days| <= n
  {
    if n > 0 {
      DaysFit(days - {n - 1}, n - 1);
      if n - 1 in days {
        assert days == (days - {n - 1}) + {n - 1};
      } else {
        assert days == days - {n - 1};
      }
    } else {
      forall d ensures d !in days {
      }
      assert days == {};
    }
  }

  /** A day of the window, counted back from the moment, is active exactly if the channel has a record in it. */
  lemma DayIsActiveIff(journal: seq<Record>, channel: string, t: int, d: int)
    ensures d in DaysAgo(Filter(journal, InWindowRecent(channel, t)), t)
       <==> 0 <= d < 30 && HasRecord(journal, channel, t - (d + 1) * 86_400_000_000, t - d * 86_400_000_000)
  {
    var recent := Filter(journal, InWindowRecent(channel, t));
    FilterMembers(journal, InWindowRecent(channel, t));
    ActiveDaysAre(recent, t, d);
    if r :| r in journal && r.channel == channel && t - (d + 1) * 86_400_000_000 < r.time <= t - d * 86_400_000_000 && 0 <= d < 30 {
      assert InWindowRecent(channel, t)(r) && r in recent;
    }
    if r :| r in recent && d * 86_400_000_000 <= t - r.time < (d + 1) * 86_400_000_000 {
      assert InWindowRecent(channel, t)(r) && r in journal;
    }
  }

  /** `active_days_30d` counts the days, from the moment back, in which the channel has a record. */
  lemma RowCountsTheActiveDays(journal: seq<Record>, channel: string, t: int, days: set<int>)
    requires forall d :: d in days <==> 0 <= d < 30 && HasRecord(journal, channel, t - (d + 1) * 86_400_000_000, t - d * 86_400_000_000)
    ensures SingleRow(Filter(journal, InWindow(channel, t)), t).activeDays30d == |days| <= 30
  {
    SingleSelections(journal, channel, t);
    forall d ensures d in DaysAgo(Filter(journal, InWindowRecent(channel, t)), t) <==> d in days {
      DayIsActiveIff(journal, channel, t, d);
    }
    assert DaysAgo(Filter(journal, InWindowRecent(channel, t)), t) == days;
    DaysFit(days, 30);
  }

  /** The microseconds of [lo, hi) that lie in a gap, one by one. */
  ghost function Lost(g: LogGap, lo: int, hi: int): nat
    decreases hi - lo
  {
    if hi <= lo then 0 else Lost(g, lo, hi - 1) + (if g.start <= hi - 1 < g.end then 1 else 0)
  }

  lemma {:induction false} LostIsOverlap(g: LogGap, lo: int, hi: int)
    requires lo <= hi
    ensures var end, start := if g.end < hi then g.end else hi, if g.start > lo then g.start else lo;
            Lost(g, lo, hi) == if end > start then end - start else 0
    decreases hi - lo
  {
    if lo < hi {
      LostIsOverlap(g, lo, hi - 1);
    }
  }

  ghost function LostInAll(gaps: seq<LogGap>, lo: int, hi: int): nat {
    if gaps == [] then 0 else LostInAll(gaps[..|gaps| - 1], lo, hi) + Lost(gaps[|gaps| - 1], lo, hi)
  }

  /** `log_gap_hours_30d` is the time of the last 30 days that lies in known gaps, in hours. */
  lemma {:induction false} GapHoursAreTheLostTime(gaps: seq<LogGap>, t: int)
    ensures GapHours(gaps, t) * 3_600_000_000.0 == LostInAll(gaps, t - WINDOW, t) as real
  {
    if gaps != [] {
      GapHoursAreTheLostTime(gaps[..|gaps| - 1], t);
      LostIsOverlap(gaps[|gaps| - 1], t - WINDOW, t);
    }
  }

  /** The channel's first record. */
  ghost predicate IsFirstRecord(journal: seq<Record>, channel: string, first: Record) {
    first in journal && first.channel == channel && forall r | r in journal && r.channel == channel :: first.time <= r.time
  }

  lemma FirstOfIs(journal: seq<Record>, channel: string, first: Record)
    requires IsFirstRecord(journal, channel, first)
    ensures FirstOf(journal, channel) == Some(first.time)
  {
    var own := Filter(journal, OfChannel(channel));
    FilterMembers(journal, OfChannel(channel));
    EarliestIsLeast(Times(own));
    TimesMembers(own);
    assert OfChannel(channel)(first) && first in own && first.time in Times(own);
  }

  lemma ValuesAre(store: Store, channel: string, t: int, values: Values)
    requires Features(store, channel, t) == Ok(values)
    ensures FirstOf(store.journal, channel).Some?
    ensures values.channelAgeDays == (t - FirstOf(store.journal, channel).value) as real / 86_400_000_000.0
    ensures values.gapHours == GapHours(store.gaps, t)
  {
  }

  /** `channel_age_days` is the time since the channel's first record, in days. */
  lemma ChannelAgeIsSinceTheFirstRecord(store: Store, channel: string, t: int, values: Values, first: Record)
    requires Features(store, channel, t) == Ok(values) && IsFirstRecord(store.journal, channel, first)
    ensures values.channelAgeDays * 86_400_000_000.0 == (t - first.time) as real
    ensures values.gapHours * 3_600_000_000.0 == LostInAll(store.gaps, t - WINDOW, t) as real
  {
    ValuesAre(store, channel, t, values);
    FirstOfIs(store.journal, channel, first);
    GapHoursAreTheLostTime(store.gaps, t);
  }

  lemma LatestOf(records: seq<Record>, last: Record)
    requires last in records && forall r | r in records :: r.time <= last.time
    ensures Latest(Times(records)) == Some(last.time)
  {
    TimesMembers(records);
    LatestIsGreatest(Times(records));
    assert last.time in Times(records);
  }

  /** An age in hours since the last of the records, missing without one. */
  ghost predicate IsAge(age: Option<real>, records: seq<Record>, t: int) {
    && (age.None? <==> records == [])
    && forall last | last in records && (forall r | r in records :: r.time <= last.time) ::
         age.Some? && age.value * 3_600_000_000.0 == (t - last.time) as real
  }

  lemma HoursSinceIsAge(records: seq<Record>, t: int)
    ensures IsAge(HoursSince(Latest(Times(records)), t), records, t)
  {
    LatestIsGreatest(Times(records));
    forall last | last in records && forall r | r in records :: r.time <= last.time
      ensures Latest(Times(records)) == Some(last.time)
    {
      LatestOf(records, last);
    }
  }

  /** The two ages are the hours since the channel's last record and last alarm of the 30 days, and missing exactly if there is none. */
  lemma AgesAreSinceTheLastRecords(journal: seq<Record>, channel: string, t: int)
    ensures var row := SingleRow(Filter(journal, InWindow(channel, t)), t);
            && IsAge(row.lastEventAge, Filter(journal, Seen(channel, t - WINDOW, t)), t)
            && IsAge(row.lastAlarmAge, Filter(journal, SeenAlarm(channel, t - WINDOW, t)), t)
  {
    MonthCounts(journal, channel, t);
    HoursSinceIsAge(Filter(journal, Seen(channel, t - WINDOW, t)), t);
    HoursSinceIsAge(Filter(journal, SeenAlarm(channel, t - WINDOW, t)), t);
  }
}
