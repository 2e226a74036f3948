/**
 * Alarm episodes: the one-pass generator over a (channel, time)-ordered stream, and the batch
 * definition it has to reproduce (cut a channel's alarms where the pause exceeds the gap).
 * Times are UTC microseconds.
 */
module Episodes {
  import opened Lists
  import opened Text

  const SECOND: int := 1_000_000

  /** A journal row; `Malformed` stands for every row whose fields fail the type checks. */
  datatype Row = Malformed | Row(channel: string, time: int, alarm: bool)

  datatype Boundary = Unknown | ObservedQuietGap

  datatype Episode = Episode(channel: string, first: int, last: int, count: nat, left: Boundary, right: Boundary)

  datatype Error = BadGap | BadEvent | BadOrder

  /** What is kept per channel: first and last row of any kind, and the alarm times in ascending order. */
  datatype Log = Log(first: int, last: int, alarms: seq<int>)

  predicate Accepted(row: Row) {
    row.Row? && row.channel != ""
  }

  predicate KeyBefore(a: Row, b: Row)
    requires a.Row? && b.Row?
  {
    Before(a.channel, b.channel) || (a.channel == b.channel && a.time < b.time)
  }

  ghost predicate WellFormed(rows: seq<Row>) {
    forall i | 0 <= i < |rows| :: Accepted(rows[i])
  }

  ghost predicate InStep(rows: seq<Row>, i: nat)
    requires 0 < i < |rows| && rows[i - 1].Row? && rows[i].Row?
  {
    !KeyBefore(rows[i], rows[i - 1])
  }

  /** The order the database delivers: no row's (channel, time) key is below the key before it. */
  ghost predicate Ordered(rows: seq<Row>) {
    && WellFormed(rows)
    && forall i | 0 < i < |rows| :: InStep(rows, i)
  }

  /** The pause test on a `timedelta`: whole seconds first, then the leftover microseconds. */
  predicate Beyond(delta: int, gap: int) {
    var seconds := delta / SECOND;
    seconds > gap || (seconds == gap && delta % SECOND > 0)
  }

  lemma BeyondIsStrict(delta: int, gap: int)
    ensures Beyond(delta, gap) <==> delta > gap * SECOND
  {
  }

  function Observed(quiet: bool): Boundary {
    if quiet then ObservedQuietGap else Unknown
  }

  // The batch reference.

  /** `sorted(channels)`: every channel name once, ascending. */
  function Channels(rows: seq<Row>): seq<string>
    requires forall i | 0 <= i < |rows| :: rows[i].Row?
  {
    if rows == [] then [] else Include(Channels(rows[..|rows| - 1]), rows[|rows| - 1].channel)
  }

  lemma {:induction false} ChannelsAreTheNames(rows: seq<Row>)
    requires forall i | 0 <= i < |rows| :: rows[i].Row?
    ensures Ascending(Channels(rows))
    ensures forall c :: c in Channels(rows) <==> LogOf(rows, c).Some?
  {
    if rows != [] {
      ChannelsAreTheNames(rows[..|rows| - 1]);
      IncludeKeepsAscending(Channels(rows[..|rows| - 1]), rows[|rows| - 1].channel);
    }
  }

  function Extend(log: Option<Log>, row: Row): Log
    requires row.Row?
  {
    var alarms := if log.Some? then log.value.alarms else [];
    Log(if log.None? || row.time < log.value.first then row.time else log.value.first,
        if log.None? || row.time > log.value.last then row.time else log.value.last,
        if row.alarm then Insert(alarms, row.time) else alarms)
  }

  /** The record of one channel, kept row by row; nothing when the channel has no rows. */
  function LogOf(rows: seq<Row>, channel: string): Option<Log> {
    if rows == [] then None
    else
      var row := rows[|rows| - 1];
      var before := LogOf(rows[..|rows| - 1], channel);
      if row.Row? && row.channel == channel then Some(Extend(before, row)) else before
  }

  /** The positions where a new group of alarms begins. */
  function Cuts(alarms: seq<int>, gap: int): (cuts: seq<nat>)
    requires alarms != []
    ensures cuts != [] && cuts[0] == 0
    ensures forall k | 0 <= k < |cuts| :: cuts[k] < |alarms|
    ensures forall j, k | 0 <= j < k < |cuts| :: cuts[j] < cuts[k]
  {
    var n := |alarms| - 1;
    if n == 0 then [0]
    else Cuts(alarms[..n], gap) + (if alarms[n] - alarms[n - 1] > gap * SECOND then [n] else [])
  }

  lemma {:induction false} CutsAreExactlyThePauses(alarms: seq<int>, gap: int, i: nat)
    requires i < |alarms|
    ensures i in Cuts(alarms, gap) <==> i == 0 || alarms[i] - alarms[i - 1] > gap * SECOND
  {
    var n := |alarms| - 1;
    if i < n {
      CutsAreExactlyThePauses(alarms[..n], gap, i);
    }
  }

  function GroupEnd(cuts: seq<nat>, k: nat, n: nat): nat {
    if k + 1 < |cuts| then cuts[k + 1] else n
  }

  function Group(channel: string, log: Log, gap: int, k: nat): Episode
    requires log.alarms != [] && k < |Cuts(log.alarms, gap)|
  {
    var cuts := Cuts(log.alarms, gap);
    var start, end := cuts[k], GroupEnd(cuts, k, |log.alarms|);
    Episode(channel, log.alarms[start], log.alarms[end - 1], end - start,
            Observed(start > 0 || log.alarms[start] - log.first > gap * SECOND),
            Observed(log.last - log.alarms[end - 1] > gap * SECOND))
  }

  function ChannelEpisodes(channel: string, log: Log, gap: int): seq<Episode> {
    if log.alarms == [] then []
    else seq(|Cuts(log.alarms, gap)|, k requires 0 <= k < |Cuts(log.alarms, gap)| => Group(channel, log, gap, k))
  }

  function EpisodesOver(rows: seq<Row>, names: seq<string>, gap: int): seq<Episode> {
    if names == [] then []
    else
      var channel := names[|names| - 1];
      var log := LogOf(rows, channel);
      EpisodesOver(rows, names[..|names| - 1], gap) + (if log.None? then [] else ChannelEpisodes(channel, log.value, gap))
  }

  /** The episodes of a journal in any row order: channel by channel, each group with its two boundaries. */
  function Reference(rows: seq<Row>, gap: int): seq<Episode>
    requires forall i | 0 <= i < |rows| :: rows[i].Row?
  {
    EpisodesOver(rows, Channels(rows), gap)
  }

  /** The batch computation: one loop fills the per-channel records, a second appends their groups. */
  method ExpectedEpisodes(rows: seq<Row>, gap: int) returns (expected: seq<Episode>)
    requires WellFormed(rows)
    ensures expected == Reference(rows, gap)
  {
    var logs: map<string, Log> := map[];
    for i := 0 to |rows|
      invariant forall c :: c in logs <==> LogOf(rows[..i], c).Some?
      invariant forall c | c in logs :: LogOf(rows[..i], c) == Some(logs[c])
    {
      assert rows[..i + 1][..i] == rows[..i];
      var c := rows[i].channel;
      logs := logs[c := Extend(if c in logs then Some(logs[c]) else None, rows[i])];
    }
    assert rows[..|rows|] == rows;
    var names := Channels(rows);
    ChannelsAreTheNames(rows);
    expected := [];
    for k := 0 to |names|
      invariant expected == EpisodesOver(rows, names[..k], gap)
    {
      assert names[k] in names;
      assert names[..k + 1][..k] == names[..k];
      expected := expected + ChannelEpisodes(names[k], logs[names[k]], gap);
    }
    assert names[..|names|] == names;
  }

  // How one more row at the end of an ordered stream changes a channel's groups.

  ghost predicate Tidy(log: Log) {
    && Sorted(log.alarms)
    && log.first <= log.last
    && forall i | 0 <= i < |log.alarms| :: log.first <= log.alarms[i] <= log.last
  }

  /** Every group except the last is followed by a pause that lies inside the log. */
  lemma EarlierGroupsAreClosed(channel: string, log: Log, gap: int, k: nat)
    requires Tidy(log) && log.alarms != [] && k + 1 < |Cuts(log.alarms, gap)|
    ensures Group(channel, log, gap, k).right == ObservedQuietGap
  {
    var cuts := Cuts(log.alarms, gap);
    CutsAreExactlyThePauses(log.alarms, gap, cuts[k + 1]);
    assert cuts[k + 1] in cuts;
  }

  function Closed(e: Episode, quiet: bool): Episode {
    e.(right := Observed(quiet))
  }

  /** Rewriting only the last group of a channel. */
  function Relast(episodes: seq<Episode>, last: Episode): seq<Episode>
    requires episodes != []
  {
    episodes[..|episodes| - 1] + [last]
  }

  /** Two logs with the same cuts, and the same groups but the last, differ in the last episode only. */
  lemma OnlyLastDiffers(channel: string, log: Log, later: Log, gap: int)
    requires Tidy(log) && Tidy(later) && log.alarms != [] && later.alarms != []
    requires Cuts(log.alarms, gap) == Cuts(later.alarms, gap)
    requires log.alarms <= later.alarms && log.first == later.first
    ensures var n := |Cuts(log.alarms, gap)| - 1;
            ChannelEpisodes(channel, later, gap) == Relast(ChannelEpisodes(channel, log, gap), Group(channel, later, gap, n))
  {
    var n := |Cuts(log.alarms, gap)| - 1;
    var a, b := ChannelEpisodes(channel, log, gap), ChannelEpisodes(channel, later, gap);
    forall k | 0 <= k < n ensures b[k] == a[k] {
      EarlierGroupsAgree(channel, log, later, gap, k);
    }
    assert b == b[..n] + [b[n]] && b[..n] == a[..n];
  }

  lemma EarlierGroupsAgree(channel: string, log: Log, later: Log, gap: int, k: nat)
    requires Tidy(log) && Tidy(later) && log.alarms != [] && later.alarms != []
    requires Cuts(log.alarms, gap) == Cuts(later.alarms, gap)
    requires log.alarms <= later.alarms && log.first == later.first
    requires k + 1 < |Cuts(log.alarms, gap)|
    ensures Group(channel, later, gap, k) == Group(channel, log, gap, k)
  {
    EarlierGroupsAreClosed(channel, log, gap, k);
    EarlierGroupsAreClosed(channel, later, gap, k);
    var cuts := Cuts(log.alarms, gap);
    assert cuts[k] < cuts[k + 1] < |log.alarms|;
  }

  lemma LastGroup(channel: string, log: Log, gap: int)
    requires log.alarms != []
    ensures var n := |Cuts(log.alarms, gap)| - 1;
            var start, a := Cuts(log.alarms, gap)[n], log.alarms[|log.alarms| - 1];
            && |ChannelEpisodes(channel, log, gap)| == n + 1
            && ChannelEpisodes(channel, log, gap)[n] == Group(channel, log, gap, n)
            && Group(channel, log, gap, n)
            == Episode(channel, log.alarms[start], a, |log.alarms| - start,
                       Observed(start > 0 || log.alarms[start] - log.first > gap * SECOND), Observed(log.last - a > gap * SECOND))
  {
  }

  /** A later row without an alarm only moves the right boundary of the last group. */
  lemma QuietRow(channel: string, log: Log, time: int, gap: int)
    requires Tidy(log) && log.alarms != [] && log.last <= time
    ensures var before := ChannelEpisodes(channel, log, gap);
            && before != []
            && ChannelEpisodes(channel, log.(last := time), gap)
            == Relast(before, Closed(before[|before| - 1], time - log.alarms[|log.alarms| - 1] > gap * SECOND))
  {
    LastGroup(channel, log, gap);
    LastGroup(channel, log.(last := time), gap);
    OnlyLastDiffers(channel, log, log.(last := time), gap);
  }

  function Append(log: Log, time: int): Log {
    Log(log.first, time, log.alarms + [time])
  }

  lemma CutsAfterAppend(log: Log, time: int, gap: int)
    requires Tidy(log) && log.alarms != [] && log.last <= time
    ensures Tidy(Append(log, time)) && log.alarms <= Append(log, time).alarms
    ensures var pause := time - log.alarms[|log.alarms| - 1];
            Cuts(Append(log, time).alarms, gap) == Cuts(log.alarms, gap) + (if pause > gap * SECOND then [|log.alarms|] else [])
  {
    assert Append(log, time).alarms[..|log.alarms|] == log.alarms;
  }

  /** An alarm within the gap joins the last group. */
  lemma JoiningAlarm(channel: string, log: Log, time: int, gap: int)
    requires Tidy(log) && log.alarms != [] && log.last <= time
    requires gap >= 0 && time - log.alarms[|log.alarms| - 1] <= gap * SECOND
    ensures var before := ChannelEpisodes(channel, log, gap);
            && before != []
            && ChannelEpisodes(channel, Append(log, time), gap)
            == Relast(before, before[|before| - 1].(last := time, count := before[|before| - 1].count + 1, right := Unknown))
  {
    CutsAfterAppend(log, time, gap);
    JoinedGroup(channel, log, time, gap);
    OnlyLastDiffers(channel, log, Append(log, time), gap);
  }

  lemma JoinedGroup(channel: string, log: Log, time: int, gap: int)
    requires log.alarms != [] && gap >= 0
    requires Cuts(Append(log, time).alarms, gap) == Cuts(log.alarms, gap)
    ensures var n := |Cuts(log.alarms, gap)| - 1;
            var before := Group(channel, log, gap, n);
            && ChannelEpisodes(channel, log, gap)[n] == before
            && Group(channel, Append(log, time), gap, n) == before.(last := time, count := before.count + 1, right := Unknown)
  {
    LastGroup(channel, log, gap);
    LastGroup(channel, Append(log, time), gap);
  }

  /** An alarm after a longer pause closes the last group and opens one with an observed left boundary. */
  lemma SeparateAlarm(channel: string, log: Log, time: int, gap: int)
    requires Tidy(log) && log.alarms != [] && log.last <= time
    requires gap >= 0 && time - log.alarms[|log.alarms| - 1] > gap * SECOND
    ensures ChannelEpisodes(channel, Append(log, time), gap)
         == ChannelEpisodes(channel, log.(last := time), gap) + [Episode(channel, time, time, 1, ObservedQuietGap, Unknown)]
  {
    var quiet, later := log.(last := time), Append(log, time);
    CutsAfterAppend(log, time, gap);
    var a, b := ChannelEpisodes(channel, quiet, gap), ChannelEpisodes(channel, later, gap);
    forall k | 0 <= k < |a| ensures b[k] == a[k] {
      GroupsBeforeAppend(channel, quiet, time, gap, k);
    }
    LastGroup(channel, later, gap);
    assert |b| == |a| + 1 && later.alarms[|quiet.alarms|] == time;
    assert b[|a|] == Episode(channel, time, time, 1, ObservedQuietGap, Unknown);
    assert b == b[..|a|] + [b[|a|]] && b[..|a|] == a;
  }

  lemma GroupsBeforeAppend(channel: string, quiet: Log, time: int, gap: int, k: nat)
    requires Tidy(quiet) && quiet.alarms != [] && quiet.last == time
    requires time - quiet.alarms[|quiet.alarms| - 1] > gap * SECOND
    requires Cuts(Append(quiet, time).alarms, gap) == Cuts(quiet.alarms, gap) + [|quiet.alarms|]
    requires k < |Cuts(quiet.alarms, gap)|
    ensures Group(channel, Append(quiet, time), gap, k) == Group(channel, quiet, gap, k)
  {
    var cuts := Cuts(quiet.alarms, gap);
    assert cuts[k] < GroupEnd(cuts, k, |quiet.alarms|) <= |quiet.alarms|;
  }

  lemma FirstAlarm(channel: string, first: int, time: int, gap: int)
    requires first <= time && gap >= 0
    ensures ChannelEpisodes(channel, Log(first, time, [time]), gap)
         == [Episode(channel, time, time, 1, Observed(time - first > gap * SECOND), Unknown)]
  {
  }

  // The generator.

  function Optional(episode: Option<Episode>): seq<Episode> {
    if episode.Some? then [episode.value] else []
  }

  /** The group a later alarm could still join: the last one, while the log has shown no pause after it. */
  function OpenGroup(channel: string, log: Log, gap: int): Option<Episode> {
    if log.alarms != [] && log.last - log.alarms[|log.alarms| - 1] <= gap * SECOND then
      Some(Group(channel, log, gap, |Cuts(log.alarms, gap)| - 1))
    else
      None
  }

  function ClosedGroups(channel: string, log: Log, gap: int): seq<Episode> {
    var episodes := ChannelEpisodes(channel, log, gap);
    if OpenGroup(channel, log, gap).Some? then episodes[..|episodes| - 1] else episodes
  }

  lemma OpenOrClosed(channel: string, log: Log, gap: int)
    ensures ChannelEpisodes(channel, log, gap) == ClosedGroups(channel, log, gap) + Optional(OpenGroup(channel, log, gap))
  {
    if OpenGroup(channel, log, gap).Some? {
      LastGroup(channel, log, gap);
    }
  }

  lemma OpenIsLast(channel: string, log: Log, gap: int)
    requires log.alarms != []
    ensures var episodes, open := ChannelEpisodes(channel, log, gap), OpenGroup(channel, log, gap);
            && episodes != []
            && (open.Some? <==> log.last - log.alarms[|log.alarms| - 1] <= gap * SECOND)
            && (open.Some? ==> open.value == episodes[|episodes| - 1])
            && episodes[|episodes| - 1].last == log.alarms[|log.alarms| - 1]
            && episodes[|episodes| - 1].right == Observed(open.None?)
  {
    LastGroup(channel, log, gap);
  }

  /** Whether the next row proves a pause after the open group. */
  predicate Expires(open: Option<Episode>, time: int, gap: int) {
    open.Some? && time - open.value.last > gap * SECOND
  }

  function NextOpen(first: int, seen: bool, open: Option<Episode>, row: Row, gap: int): Option<Episode>
    requires row.Row?
  {
    var kept := if Expires(open, row.time, gap) then None else open;
    if !row.alarm then kept
    else if kept.Some? then Some(kept.value.(last := row.time, count := kept.value.count + 1))
    else Some(Episode(row.channel, row.time, row.time, 1, Observed(seen || row.time - first > gap * SECOND), Unknown))
  }

  lemma ExtendAtEnd(log: Log, row: Row)
    requires Tidy(log) && row.Row? && log.last <= row.time
    ensures Tidy(Extend(Some(log), row)) && Extend(Some(log), row).last == row.time
    ensures Extend(Some(log), row) == if row.alarm then Append(log, row.time) else log.(last := row.time)
  {
  }

  /** One more row of the same channel: what is closed by it, and what stays open after it. */
  ghost predicate StepLaw(channel: string, log: Log, later: Log, row: Row, gap: int)
    requires row.Row? && row.channel == channel
  {
    var open := OpenGroup(channel, log, gap);
    && OpenGroup(channel, later, gap) == NextOpen(log.first, log.alarms != [], open, row, gap)
    && ClosedGroups(channel, later, gap)
    == ClosedGroups(channel, log, gap) + (if Expires(open, row.time, gap) then [Closed(open.value, true)] else [])
  }

  lemma SameChannelStep(channel: string, log: Log, row: Row, gap: int)
    requires Tidy(log) && row.Row? && row.channel == channel && log.last <= row.time && gap > 0
    ensures StepLaw(channel, log, Extend(Some(log), row), row, gap)
  {
    ExtendAtEnd(log, row);
    if log.alarms == [] {
      if row.alarm {
        FirstAlarm(channel, log.first, row.time, gap);
        assert Append(log, row.time).alarms == [row.time];
        LastGroup(channel, Append(log, row.time), gap);
      }
    } else if !row.alarm {
      QuietStep(channel, log, row, gap);
    } else if row.time - log.alarms[|log.alarms| - 1] > gap * SECOND {
      SeparateStep(channel, log, row, gap);
    } else {
      JoiningStep(channel, log, row, gap);
    }
  }

  lemma QuietStep(channel: string, log: Log, row: Row, gap: int)
    requires Tidy(log) && row.Row? && row.channel == channel && log.last <= row.time && gap > 0
    requires log.alarms != [] && !row.alarm
    ensures StepLaw(channel, log, log.(last := row.time), row, gap)
  {
    OpenIsLast(channel, log, gap);
    OpenIsLast(channel, log.(last := row.time), gap);
    QuietRow(channel, log, row.time, gap);
  }

  lemma SeparateStep(channel: string, log: Log, row: Row, gap: int)
    requires Tidy(log) && row.Row? && row.channel == channel && log.last <= row.time && gap > 0
    requires log.alarms != [] && row.alarm && row.time - log.alarms[|log.alarms| - 1] > gap * SECOND
    ensures StepLaw(channel, log, Append(log, row.time), row, gap)
  {
    var before, after := ChannelEpisodes(channel, log, gap), ChannelEpisodes(channel, Append(log, row.time), gap);
    OpenIsLast(channel, log, gap);
    OpenIsLast(channel, Append(log, row.time), gap);
    SeparatedGroups(channel, log, row.time, gap);
    assert after[..|after| - 1] == Relast(before, Closed(before[|before| - 1], true));
  }

  lemma SeparatedGroups(channel: string, log: Log, time: int, gap: int)
    requires Tidy(log) && log.alarms != [] && log.last <= time
    requires gap >= 0 && time - log.alarms[|log.alarms| - 1] > gap * SECOND
    ensures var before := ChannelEpisodes(channel, log, gap);
            && before != []
            && ChannelEpisodes(channel, Append(log, time), gap)
            == Relast(before, Closed(before[|before| - 1], true)) + [Episode(channel, time, time, 1, ObservedQuietGap, Unknown)]
  {
    QuietRow(channel, log, time, gap);
    SeparateAlarm(channel, log, time, gap);
  }

  lemma JoiningStep(channel: string, log: Log, row: Row, gap: int)
    requires Tidy(log) && row.Row? && row.channel == channel && log.last <= row.time && gap > 0
    requires log.alarms != [] && row.alarm && row.time - log.alarms[|log.alarms| - 1] <= gap * SECOND
    ensures StepLaw(channel, log, Append(log, row.time), row, gap)
  {
    var before, after := ChannelEpisodes(channel, log, gap), ChannelEpisodes(channel, Append(log, row.time), gap);
    OpenIsLast(channel, log, gap);
    OpenIsLast(channel, Append(log, row.time), gap);
    JoiningAlarm(channel, log, row.time, gap);
    assert after[..|after| - 1] == before[..|before| - 1];
  }

  // From one channel to the whole stream.

  lemma OrderedPrefix(rows: seq<Row>, n: nat)
    requires Ordered(rows) && n <= |rows|
    ensures Ordered(rows[..n])
  {
    forall i | 0 < i < n ensures InStep(rows[..n], i) {
      assert InStep(rows, i);
    }
  }

  /** In an ordered stream the channel of the last row is the greatest name so far. */
  lemma {:induction false} LastChannelIsGreatest(rows: seq<Row>)
    requires Ordered(rows) && rows != []
    ensures var names := Channels(rows);
            names != [] && names[|names| - 1] == rows[|rows| - 1].channel
  {
    var n := |rows| - 1;
    if n > 0 {
      var front := rows[..n];
      OrderedPrefix(rows, n);
      LastChannelIsGreatest(front);
      assert InStep(rows, n);
      BeforeIsTotal(rows[n].channel, rows[n - 1].channel);
    }
  }

  lemma {:induction false} OtherChannelsUntouched(rows: seq<Row>, row: Row, names: seq<string>, gap: int)
    requires row.Row? && row.channel !in names
    ensures EpisodesOver(rows + [row], names, gap) == EpisodesOver(rows, names, gap)
  {
    if names != [] {
      OtherChannelsUntouched(rows, row, names[..|names| - 1], gap);
      assert names[|names| - 1] in names;
      assert (rows + [row])[..|rows|] == rows;
    }
  }

  /** The episodes of every channel except the last one of an ordered stream. */
  function Base(rows: seq<Row>, gap: int): seq<Episode>
    requires rows != [] && forall i | 0 <= i < |rows| :: rows[i].Row?
  {
    var names := Channels(rows);
    if names == [] then [] else EpisodesOver(rows, names[..|names| - 1], gap)
  }

  function LastLog(rows: seq<Row>): Log
    requires rows != [] && rows[|rows| - 1].Row?
  {
    LogOf(rows, rows[|rows| - 1].channel).value
  }

  lemma ReferenceSplit(rows: seq<Row>, gap: int)
    requires Ordered(rows) && rows != []
    ensures Reference(rows, gap) == Base(rows, gap) + ChannelEpisodes(rows[|rows| - 1].channel, LastLog(rows), gap)
  {
    LastChannelIsGreatest(rows);
  }

  lemma SameChannelBase(rows: seq<Row>, row: Row, gap: int)
    requires Ordered(rows) && rows != [] && row.Row? && row.channel == rows[|rows| - 1].channel
    ensures Base(rows + [row], gap) == Base(rows, gap)
    ensures LastLog(rows + [row]) == Extend(Some(LastLog(rows)), row)
  {
    var all := rows + [row];
    assert all[..|rows|] == rows && all[|rows|] == row;
    LastChannelIsGreatest(rows);
    var names := Channels(rows);
    ChannelsAreTheNames(rows);
    IncludeBelowIsAbsent(names);
    OtherChannelsUntouched(rows, row, names[..|names| - 1], gap);
    assert Channels(all) == names;
  }

  lemma NewChannelBase(rows: seq<Row>, row: Row, gap: int)
    requires Ordered(rows) && rows != [] && row.Row? && Before(rows[|rows| - 1].channel, row.channel)
    ensures Base(rows + [row], gap) == Reference(rows, gap)
    ensures LastLog(rows + [row]) == Extend(None, row)
  {
    var all := rows + [row];
    assert all[..|rows|] == rows && all[|rows|] == row;
    LastChannelIsGreatest(rows);
    var names := Channels(rows);
    ChannelsAreTheNames(rows);
    BeforeIsAsymmetric(names[|names| - 1], row.channel);
    IncludeAbove(names, row.channel);
    AboveIsAbsent(names, row.channel);
    OtherChannelsUntouched(rows, row, names, gap);
    assert Channels(all) == names + [row.channel];
  }

  lemma NextKey(rows: seq<Row>, row: Row)
    requires Ordered(rows + [row]) && rows != []
    ensures row.Row? && rows[|rows| - 1].Row?
    ensures row.channel == rows[|rows| - 1].channel ==> rows[|rows| - 1].time <= row.time
    ensures row.channel != rows[|rows| - 1].channel ==> Before(rows[|rows| - 1].channel, row.channel)
  {
    var all, n := rows + [row], |rows|;
    assert all[n] == row && all[n - 1] == rows[n - 1] && Accepted(all[n]) && Accepted(all[n - 1]);
    assert InStep(all, n);
    BeforeIsTotal(row.channel, rows[n - 1].channel);
  }

  lemma IncludeBelowIsAbsent(names: seq<string>)
    requires Ascending(names) && names != []
    ensures names[|names| - 1] !in names[..|names| - 1]
  {
    var last := names[|names| - 1];
    if last in names[..|names| - 1] {
      BeforeIsIrreflexive(last);
    }
  }

  lemma AboveIsAbsent(names: seq<string>, name: string)
    requires Ascending(names + [name])
    ensures name !in names
  {
    IncludeBelowIsAbsent(names + [name]);
    assert (names + [name])[..|names|] == names;
  }

  /** What an ordered stream leaves undecided: the group that one more row could still change. */
  function StillOpen(rows: seq<Row>, gap: int): Option<Episode>
    requires forall i | 0 <= i < |rows| :: rows[i].Row?
  {
    if rows == [] then None else OpenGroup(rows[|rows| - 1].channel, LastLog(rows), gap)
  }

  /** The generator's variables between two rows, and the episodes handed out so far. */
  datatype State = State(channel: string, firstTime: int, seenAlarm: bool, episode: Option<Episode>, yielded: seq<Episode>)

  function Feed(st: State, row: Row, gap: int): State
    requires row.Row?
  {
    var same := row.channel == st.channel;
    var yielded := if !same && st.episode.Some? then st.yielded + [st.episode.value] else st.yielded;
    var first, seen, open := if same then st.firstTime else row.time, same && st.seenAlarm, if same then st.episode else None;
    State(row.channel, first, seen || row.alarm, NextOpen(first, seen, open, row, gap),
          if Expires(open, row.time, gap) then yielded + [Closed(open.value, true)] else yielded)
  }

  function Run(rows: seq<Row>, gap: int): State
    requires forall i | 0 <= i < |rows| :: rows[i].Row?
  {
    if rows == [] then State("", 0, false, None, []) else Feed(Run(rows[..|rows| - 1], gap), rows[|rows| - 1], gap)
  }

  ghost predicate Tracks(rows: seq<Row>, gap: int, st: State)
    requires rows != [] && Ordered(rows)
  {
    var log := LastLog(rows);
    && st.channel == rows[|rows| - 1].channel
    && Tidy(log) && log.last == rows[|rows| - 1].time
    && st.firstTime == log.first && st.seenAlarm == (log.alarms != [])
    && st.episode == StillOpen(rows, gap)
    && st.yielded + Optional(st.episode) == Reference(rows, gap)
  }

  /** The generator's state describes the batch reference of the rows read so far. */
  lemma {:induction false} RunTracks(rows: seq<Row>, gap: int)
    requires Ordered(rows) && rows != [] && gap > 0
    ensures Tracks(rows, gap, Run(rows, gap))
  {
    var n := |rows| - 1;
    var front, row := rows[..n], rows[n];
    assert rows == front + [row];
    OrderedPrefix(rows, n);
    if n == 0 {
      FirstChannel(row, gap);
    } else {
      RunTracks(front, gap);
      NextKey(front, row);
      if row.channel == front[n - 1].channel {
        SameChannel(front, row, gap, Run(front, gap));
      } else {
        NewChannel(front, row, gap, Run(front, gap));
      }
    }
  }

  lemma SameChannel(rows: seq<Row>, row: Row, gap: int, st: State)
    requires rows != [] && Ordered(rows) && Tracks(rows, gap, st) && Ordered(rows + [row]) && gap > 0
    requires row.Row? && row.channel == rows[|rows| - 1].channel && rows[|rows| - 1].time <= row.time
    ensures Tracks(rows + [row], gap, Feed(st, row, gap))
  {
    SameChannelBase(rows, row, gap);
    ExtendAtEnd(LastLog(rows), row);
    SameChannelOutput(rows, row, gap, st.yielded);
    assert (rows + [row])[|rows|] == row;
  }

  lemma SameChannelOutput(rows: seq<Row>, row: Row, gap: int, yielded: seq<Episode>)
    requires Ordered(rows) && Ordered(rows + [row]) && gap > 0 && rows != []
    requires row.Row? && row.channel == rows[|rows| - 1].channel
    requires yielded + Optional(StillOpen(rows, gap)) == Reference(rows, gap)
    requires Tidy(LastLog(rows)) && LastLog(rows).last <= row.time
    ensures var log, open, later := LastLog(rows), StillOpen(rows, gap), StillOpen(rows + [row], gap);
            && later == NextOpen(log.first, log.alarms != [], open, row, gap)
            && (if Expires(open, row.time, gap) then yielded + [Closed(open.value, true)] else yielded) + Optional(later)
            == Reference(rows + [row], gap)
  {
    var after, log, channel := rows + [row], LastLog(rows), row.channel;
    var open := StillOpen(rows, gap);
    assert after[|rows|] == row;
    SameChannelBase(rows, row, gap);
    SameChannelStep(channel, log, row, gap);
    HandedOut(rows, gap, yielded);
    var base, groups, later := Base(rows, gap), ClosedGroups(channel, log, gap), ClosedGroups(channel, LastLog(after), gap);
    if Expires(open, row.time, gap) {
      var closed := Closed(open.value, true);
      assert later == groups + [closed];
      assert yielded + [closed] == base + later by {
        Regroup(base, groups, [closed]);
      }
    } else {
      assert later == groups + [] == groups;
      assert yielded == base + later;
    }
    ReferenceParts(after, gap);
  }

  lemma Regroup(a: seq<Episode>, b: seq<Episode>, c: seq<Episode>)
    ensures (a + b) + c == a + (b + c)
  {
  }

  lemma HandedOut(rows: seq<Row>, gap: int, yielded: seq<Episode>)
    requires Ordered(rows) && rows != []
    requires yielded + Optional(StillOpen(rows, gap)) == Reference(rows, gap)
    ensures yielded == Base(rows, gap) + ClosedGroups(rows[|rows| - 1].channel, LastLog(rows), gap)
  {
    ReferenceParts(rows, gap);
    SameTail(yielded, Base(rows, gap) + ClosedGroups(rows[|rows| - 1].channel, LastLog(rows), gap), Optional(StillOpen(rows, gap)));
  }

  lemma ReferenceParts(rows: seq<Row>, gap: int)
    requires Ordered(rows) && rows != []
    ensures Reference(rows, gap)
         == Base(rows, gap) + ClosedGroups(rows[|rows| - 1].channel, LastLog(rows), gap) + Optional(StillOpen(rows, gap))
  {
    ReferenceSplit(rows, gap);
    OpenOrClosed(rows[|rows| - 1].channel, LastLog(rows), gap);
  }

  lemma SameTail(a: seq<Episode>, b: seq<Episode>, tail: seq<Episode>)
    requires a + tail == b + tail
    ensures a == b
  {
    assert |a| == |b|;
    assert a == (a + tail)[..|a|] && b == (b + tail)[..|b|];
  }

  lemma NewChannel(rows: seq<Row>, row: Row, gap: int, st: State)
    requires rows != [] && Ordered(rows) && Tracks(rows, gap, st) && Ordered(rows + [row]) && gap > 0
    requires row.Row? && row.channel != rows[|rows| - 1].channel
    ensures Tracks(rows + [row], gap, Feed(st, row, gap))
  {
    var after := rows + [row];
    assert after[|rows|] == row;
    NextKey(rows, row);
    NewChannelBase(rows, row, gap);
    FirstRow(row, gap);
    ReferenceParts(after, gap);
  }

  lemma FirstChannel(row: Row, gap: int)
    requires Accepted(row) && gap > 0
    ensures Ordered([row]) && Tracks([row], gap, Feed(State("", 0, false, None, []), row, gap))
  {
    assert [row][..0] == [] && Channels([row]) == [row.channel];
    assert LogOf([row], row.channel) == Some(Extend(None, row));
    FirstRow(row, gap);
    ReferenceParts([row], gap);
  }

  lemma FirstRow(row: Row, gap: int)
    requires row.Row? && gap > 0
    ensures var log := Extend(None, row);
            && Tidy(log) && log.last == row.time && ClosedGroups(row.channel, log, gap) == []
            && OpenGroup(row.channel, log, gap) == NextOpen(row.time, false, None, row, gap)
  {
    if row.alarm {
      FirstAlarm(row.channel, row.time, row.time, gap);
      LastGroup(row.channel, Log(row.time, row.time, [row.time]), gap);
    }
  }

  function FaultAt(rows: seq<Row>, i: nat): Option<Error>
    requires i < |rows| && (i > 0 ==> rows[i - 1].Row?)
  {
    if !Accepted(rows[i]) then Some(BadEvent)
    else if i > 0 && KeyBefore(rows[i], rows[i - 1]) then Some(BadOrder)
    else None
  }

  lemma FaultStops(rows: seq<Row>, i: nat)
    requires i < |rows| && (i > 0 ==> rows[i - 1].Row?) && FaultAt(rows, i).Some?
    ensures !Ordered(rows)
  {
    if Accepted(rows[i]) {
      assert !InStep(rows, i);
    }
  }

  lemma FaultlessRow(rows: seq<Row>, i: nat)
    requires i < |rows| && Ordered(rows[..i])
    requires (i > 0 ==> rows[i - 1].Row?) && FaultAt(rows, i).None?
    ensures Ordered(rows[..i + 1])
  {
    var before, after := rows[..i], rows[..i + 1];
    assert after == before + [rows[i]];
    forall k: nat | 0 < k < |after| ensures InStep(after, k) {
      if k < i {
        assert InStep(before, k);
      }
    }
  }

  /**
   * The generator. `yielded` are the episodes handed out before it stopped, `consumed` the rows it accepted.
   * An ordered stream gives the batch reference; a fault stops it at the first bad row, and then exactly
   * the groups that no continuation could change have been handed out.
   */
  method IterEpisodes(rows: seq<Row>, gap: int) returns (yielded: seq<Episode>, error: Option<Error>, consumed: nat)
    ensures gap <= 0 ==> error == Some(BadGap) && yielded == [] && consumed == 0
    ensures consumed <= |rows| && Ordered(rows[..consumed])
    ensures gap > 0 ==> (error.None? <==> Ordered(rows))
    ensures error.None? ==> consumed == |rows| && yielded == Reference(rows, gap)
    ensures gap > 0 && error.Some? ==>
              && consumed < |rows| && error == FaultAt(rows, consumed)
              && yielded + Optional(StillOpen(rows[..consumed], gap)) == Reference(rows[..consumed], gap)
  {
    yielded, error, consumed := [], None, 0;
    if gap <= 0 {
      return [], Some(BadGap), 0;
    }
    var channel, firstTime, seenAlarm := "", 0, false;
    var previous: Option<Row> := None;
    var episode: Option<Episode> := None;
    while consumed < |rows|
      invariant consumed <= |rows| && Ordered(rows[..consumed])
      invariant previous == if consumed == 0 then None else Some(rows[consumed - 1])
      invariant previous.Some? ==> previous.value.Row?
      invariant episode.Some? ==> seenAlarm
      invariant State(channel, firstTime, seenAlarm, episode, yielded) == Run(rows[..consumed], gap)
    {
      var row := rows[consumed];
      if !Accepted(row) {
        error := Some(BadEvent);
        break;
      }
      if previous.Some? && KeyBefore(row, previous.value) {
        error := Some(BadOrder);
        break;
      }
      FaultlessRow(rows, consumed);
      assert rows[..consumed + 1][..consumed] == rows[..consumed];
      previous := Some(row);
      if row.channel != channel {
        if episode.Some? {
          yielded := yielded + [episode.value];
        }
        channel, firstTime, seenAlarm, episode := row.channel, row.time, false, None;
      }
      BeyondIsStrict(row.time - firstTime, gap);
      if episode.Some? {
        BeyondIsStrict(row.time - episode.value.last, gap);
        if Beyond(row.time - episode.value.last, gap) {
          yielded := yielded + [episode.value.(right := ObservedQuietGap)];
          episode := None;
        }
      }
      if row.alarm {
        if episode.None? {
          episode := Some(Episode(channel, row.time, row.time, 0,
                                  Observed(seenAlarm || Beyond(row.time - firstTime, gap)), Unknown));
          seenAlarm := true;
        }
        episode := Some(episode.value.(last := row.time, count := episode.value.count + 1));
      }
      consumed := consumed + 1;
    }
    if consumed > 0 {
      RunTracks(rows[..consumed], gap);
    }
    if error.Some? {
      FaultStops(rows, consumed);
      return;
    }
    assert rows[..consumed] == rows;
    if episode.Some? {
      yielded := yielded + [episode.value];
    }
  }

  // The reference does not depend on the order in which the journal was read.

  ghost predicate Spans(log: Log, rows: seq<Row>, channel: string) {
    && (exists i | 0 <= i < |rows| :: rows[i].Row? && rows[i].channel == channel && rows[i].time == log.first)
    && (exists i | 0 <= i < |rows| :: rows[i].Row? && rows[i].channel == channel && rows[i].time == log.last)
    && (forall i | 0 <= i < |rows| && rows[i].Row? && rows[i].channel == channel :: log.first <= rows[i].time <= log.last)
  }

  /** A log says: the extreme times of its channel, and the alarm times as an ascending multiset. */
  ghost predicate Summarises(log: Log, rows: seq<Row>, channel: string) {
    && Spans(log, rows, channel)
    && Sorted(log.alarms)
    && (forall t :: multiset(log.alarms)[t] == multiset(rows)[Row(channel, t, true)])
  }

  lemma {:induction false} LogSummarises(rows: seq<Row>, channel: string)
    ensures LogOf(rows, channel).Some? ==> Summarises(LogOf(rows, channel).value, rows, channel)
    ensures LogOf(rows, channel).None? ==> forall i | 0 <= i < |rows| && rows[i].Row? :: rows[i].channel != channel
  {
    if rows != [] {
      var n := |rows| - 1;
      var front, row := rows[..n], rows[n];
      assert rows == front + [row];
      LogSummarises(front, channel);
      if row.Row? && row.channel == channel {
        LogExtends(front, row, LogOf(front, channel));
      } else if LogOf(front, channel).Some? {
        var log := LogOf(front, channel).value;
        assert Summarises(log, front, channel);
        assert forall i | 0 <= i < n :: rows[i] == front[i];
      }
    }
  }

  lemma LogExtends(front: seq<Row>, row: Row, before: Option<Log>)
    requires row.Row?
    requires before.Some? ==> Summarises(before.value, front, row.channel)
    requires before.None? ==> forall i | 0 <= i < |front| && front[i].Row? :: front[i].channel != row.channel
    ensures Summarises(Extend(before, row), front + [row], row.channel)
  {
    SpanExtends(front, row, before);
    AlarmsExtend(front, row, if before.Some? then before.value.alarms else []) by {
      if before.None? {
        NoAlarms(front, row.channel);
      }
    }
  }

  lemma SpanExtends(front: seq<Row>, row: Row, before: Option<Log>)
    requires row.Row?
    requires before.Some? ==> Spans(before.value, front, row.channel)
    requires before.None? ==> forall i | 0 <= i < |front| && front[i].Row? :: front[i].channel != row.channel
    ensures Spans(Extend(before, row), front + [row], row.channel)
  {
    var rows := front + [row];
    assert forall i | 0 <= i < |front| :: rows[i] == front[i];
    assert rows[|front|] == row;
  }

  lemma NoAlarms(rows: seq<Row>, channel: string)
    requires forall i | 0 <= i < |rows| && rows[i].Row? :: rows[i].channel != channel
    ensures forall t :: multiset(rows)[Row(channel, t, true)] == 0
  {
    forall t ensures multiset(rows)[Row(channel, t, true)] == 0 {
      assert Row(channel, t, true) !in rows;
    }
  }

  lemma AlarmsExtend(front: seq<Row>, row: Row, alarms: seq<int>)
    requires row.Row? && Sorted(alarms)
    requires forall t :: multiset(alarms)[t] == multiset(front)[Row(row.channel, t, true)]
    ensures var more := if row.alarm then Insert(alarms, row.time) else alarms;
            && Sorted(more)
            && forall t :: multiset(more)[t] == multiset(front + [row])[Row(row.channel, t, true)]
  {
    InsertKeepsSorted(alarms, row.time);
    InsertAdds(alarms, row.time);
    assert multiset(front + [row]) == multiset(front) + multiset{row};
  }

  lemma SummaryIsUnique(a: Log, b: Log, rows: seq<Row>, other: seq<Row>, channel: string)
    requires Summarises(a, rows, channel) && Summarises(b, other, channel) && multiset(rows) == multiset(other)
    ensures a == b
  {
    SameBounds(a, b, rows, other, channel);
    SameBounds(b, a, other, rows, channel);
    assert forall t :: multiset(a.alarms)[t] == multiset(b.alarms)[t];
    assert multiset(a.alarms) == multiset(b.alarms);
    SortedIsCanonical(a.alarms, b.alarms);
  }

  lemma SameBounds(a: Log, b: Log, rows: seq<Row>, other: seq<Row>, channel: string)
    requires Summarises(a, rows, channel) && Summarises(b, other, channel) && multiset(rows) == multiset(other)
    ensures b.first <= a.first && a.last <= b.last
  {
    var i :| 0 <= i < |rows| && rows[i].Row? && rows[i].channel == channel && rows[i].time == a.first;
    var j :| 0 <= j < |rows| && rows[j].Row? && rows[j].channel == channel && rows[j].time == a.last;
    assert rows[i] in multiset(other) && rows[j] in multiset(other);
    assert rows[i] in other && rows[j] in other;
  }

  lemma LogIgnoresOrder(rows: seq<Row>, other: seq<Row>, channel: string)
    requires multiset(rows) == multiset(other)
    ensures LogOf(rows, channel) == LogOf(other, channel)
  {
    LogSummarises(rows, channel);
    LogSummarises(other, channel);
    match (LogOf(rows, channel), LogOf(other, channel)) {
      case (Some(a), Some(b)) => SummaryIsUnique(a, b, rows, other, channel);
      case (Some(a), None) => RowsAreShared(rows, other, channel);
      case (None, Some(b)) => RowsAreShared(other, rows, channel);
      case (None, None) =>
    }
  }

  lemma RowsAreShared(rows: seq<Row>, other: seq<Row>, channel: string)
    requires multiset(rows) == multiset(other)
    requires exists i | 0 <= i < |rows| :: rows[i].Row? && rows[i].channel == channel
    ensures exists i | 0 <= i < |other| :: other[i].Row? && other[i].channel == channel
  {
    var i :| 0 <= i < |rows| && rows[i].Row? && rows[i].channel == channel;
    assert rows[i] in multiset(other);
    assert rows[i] in other;
  }

  lemma {:induction false} EpisodesIgnoreOrder(rows: seq<Row>, other: seq<Row>, names: seq<string>, gap: int)
    requires multiset(rows) == multiset(other)
    ensures EpisodesOver(rows, names, gap) == EpisodesOver(other, names, gap)
  {
    if names != [] {
      LogIgnoresOrder(rows, other, names[|names| - 1]);
      EpisodesIgnoreOrder(rows, other, names[..|names| - 1], gap);
    }
  }

  /**
   * Sorting the journal by (channel, time) and streaming it computes the batch reference of the unsorted journal:
   * `IterEpisodes` on any ordered arrangement of `source` yields `Reference(source, gap)`.
   */
  lemma StreamingMatchesTheUnsortedSource(source: seq<Row>, stream: seq<Row>, gap: int)
    requires WellFormed(source) && WellFormed(stream) && multiset(source) == multiset(stream)
    ensures Reference(stream, gap) == Reference(source, gap)
  {
    ChannelsAreTheNames(source);
    ChannelsAreTheNames(stream);
    forall c ensures c in Channels(stream) <==> c in Channels(source) {
      LogIgnoresOrder(source, stream, c);
    }
    AscendingIsCanonical(Channels(stream), Channels(source));
    EpisodesIgnoreOrder(source, stream, Channels(source), gap);
  }

  // No alarm row is lost or counted twice.

  function TotalCount(episodes: seq<Episode>): nat {
    if episodes == [] then 0 else TotalCount(episodes[..|episodes| - 1]) + episodes[|episodes| - 1].count
  }

  lemma {:induction false} TotalCountAppend(a: seq<Episode>, b: seq<Episode>)
    ensures TotalCount(a + b) == TotalCount(a) + TotalCount(b)
  {
    if b == [] {
      assert a + b == a;
    } else {
      assert (a + b)[..|a + b| - 1] == a + b[..|b| - 1];
      TotalCountAppend(a, b[..|b| - 1]);
    }
  }

  lemma {:induction false} GroupsAddUp(channel: string, log: Log, gap: int, k: nat)
    requires log.alarms != [] && k <= |Cuts(log.alarms, gap)|
    ensures TotalCount(ChannelEpisodes(channel, log, gap)[..k]) == if k == 0 then 0 else GroupEnd(Cuts(log.alarms, gap), k - 1, |log.alarms|)
  {
    var episodes := ChannelEpisodes(channel, log, gap);
    if k > 0 {
      GroupsAddUp(channel, log, gap, k - 1);
      assert episodes[..k][..k - 1] == episodes[..k - 1];
      assert episodes[k - 1] == Group(channel, log, gap, k - 1);
    }
  }

  lemma ChannelCountsAddUp(channel: string, log: Log, gap: int)
    ensures TotalCount(ChannelEpisodes(channel, log, gap)) == |log.alarms|
  {
    if log.alarms != [] {
      var episodes := ChannelEpisodes(channel, log, gap);
      GroupsAddUp(channel, log, gap, |episodes|);
      assert episodes[..|episodes|] == episodes;
    }
  }

  predicate AlarmOf(r: Row, channel: string) {
    r.Row? && r.alarm && r.channel == channel
  }

  predicate AlarmIn(r: Row, names: seq<string>) {
    r.Row? && r.alarm && r.channel in names
  }

  lemma {:induction false} AlarmsOfChannel(rows: seq<Row>, channel: string)
    ensures Count(rows, (r: Row) => AlarmOf(r, channel))
         == (if LogOf(rows, channel).Some? then |LogOf(rows, channel).value.alarms| else 0)
  {
    if rows != [] {
      var front, row := rows[..|rows| - 1], rows[|rows| - 1];
      AlarmsOfChannel(front, channel);
      if AlarmOf(row, channel) {
        var before := LogOf(front, channel);
        var alarms := if before.Some? then before.value.alarms else [];
        InsertAdds(alarms, row.time);
        assert |Insert(alarms, row.time)| == |multiset(Insert(alarms, row.time))| == |alarms| + 1;
      }
    }
  }

  lemma {:induction false} EpisodeCountsOver(rows: seq<Row>, names: seq<string>, gap: int)
    requires Ascending(names)
    ensures TotalCount(EpisodesOver(rows, names, gap)) == Count(rows, (r: Row) => AlarmIn(r, names))
  {
    if names == [] {
      CountNone(rows, (r: Row) => AlarmIn(r, names));
    } else {
      var front, channel := names[..|names| - 1], names[|names| - 1];
      assert names == front + [channel];
      IncludeBelowIsAbsent(names);
      EpisodeCountsOver(rows, front, gap);
      AlarmsOfChannel(rows, channel);
      var log := LogOf(rows, channel);
      var own := if log.None? then [] else ChannelEpisodes(channel, log.value, gap);
      if log.Some? {
        ChannelCountsAddUp(channel, log.value, gap);
      }
      TotalCountAppend(EpisodesOver(rows, front, gap), own);
      CountUnion(rows, (r: Row) => AlarmIn(r, front), (r: Row) => AlarmOf(r, channel), (r: Row) => AlarmIn(r, names));
    }
  }

  /** The row counts of all episodes sum to the number of alarm rows of the journal. */
  lemma EveryAlarmRowIsCountedOnce(rows: seq<Row>, gap: int)
    requires WellFormed(rows)
    ensures TotalCount(Reference(rows, gap)) == Count(rows, (r: Row) => r.Row? && r.alarm)
  {
    var names := Channels(rows);
    ChannelsAreTheNames(rows);
    EpisodeCountsOver(rows, names, gap);
    forall r | r in rows ensures AlarmIn(r, names) == (r.Row? && r.alarm) {
      LogSummarises(rows, r.channel);
    }
    CountCongruence(rows, (r: Row) => AlarmIn(r, names), (r: Row) => r.Row? && r.alarm);
  }

  // What an episode of the reference says, about the journal rows alone.

  ghost predicate HasAlarm(rows: seq<Row>, channel: string, time: int) {
    Row(channel, time, true) in rows
  }

  ghost predicate HasRowBefore(rows: seq<Row>, channel: string, time: int) {
    exists r | r in rows :: r.Row? && r.channel == channel && r.time < time
  }

  ghost predicate HasRowAfter(rows: seq<Row>, channel: string, time: int) {
    exists r | r in rows :: r.Row? && r.channel == channel && r.time > time
  }

  function AlarmWithin(channel: string, first: int, last: int): Row -> bool {
    (r: Row) => r.Row? && r.channel == channel && r.alarm && first <= r.time <= last
  }

  /**
   * From an alarm to an alarm, never pausing for more than the gap, with nothing in reach on either side; the boundaries
   * say whether the channel has been seen at all beyond that reach.
   */
  ghost predicate IsEpisode(rows: seq<Row>, gap: int, e: Episode) {
    var reach := gap * SECOND;
    && HasAlarm(rows, e.channel, e.first) && HasAlarm(rows, e.channel, e.last) && e.first <= e.last
    && (forall t | e.first - reach <= t < e.first :: !HasAlarm(rows, e.channel, t))
    && (forall t | e.last < t <= e.last + reach :: !HasAlarm(rows, e.channel, t))
    && (forall t | e.first <= t < e.last && HasAlarm(rows, e.channel, t) :: exists u | t < u <= t + reach :: HasAlarm(rows, e.channel, u))
    && e.count == Count(rows, AlarmWithin(e.channel, e.first, e.last))
    && (e.left == ObservedQuietGap <==> HasRowBefore(rows, e.channel, e.first - reach))
    && (e.right == ObservedQuietGap <==> HasRowAfter(rows, e.channel, e.last + reach))
  }

  /** Between a cut and the next there is no pause, and before and after there is one. */
  lemma GroupShape(alarms: seq<int>, gap: int, k: nat)
    requires alarms != [] && k < |Cuts(alarms, gap)|
    ensures var cuts := Cuts(alarms, gap);
            var start, end := cuts[k], GroupEnd(cuts, k, |alarms|);
            && start < end <= |alarms|
            && (start > 0 ==> alarms[start] - alarms[start - 1] > gap * SECOND)
            && (end < |alarms| ==> alarms[end] - alarms[end - 1] > gap * SECOND)
            && forall i | start < i < end :: alarms[i] - alarms[i - 1] <= gap * SECOND
  {
    var cuts := Cuts(alarms, gap);
    var start, end := cuts[k], GroupEnd(cuts, k, |alarms|);
    assert start in cuts;
    CutsAreExactlyThePauses(alarms, gap, start);
    if end < |alarms| {
      assert end in cuts;
      CutsAreExactlyThePauses(alarms, gap, end);
    }
    forall i | start < i < end ensures alarms[i] - alarms[i - 1] <= gap * SECOND {
      forall j | 0 <= j < |cuts| ensures cuts[j] != i {
        if j > k {
          assert cuts[j] >= end;
        }
      }
      CutsAreExactlyThePauses(alarms, gap, i);
    }
  }

  /** The next later alarm of a group, past equal times. */
  lemma NextInGroup(alarms: seq<int>, start: nat, end: nat, i: nat, reach: int) returns (j: nat)
    requires start <= i < end <= |alarms| && Sorted(alarms) && alarms[i] < alarms[end - 1]
    requires forall m | start < m < end :: alarms[m] - alarms[m - 1] <= reach
    ensures start <= j < end && alarms[i] < alarms[j] <= alarms[i] + reach
  {
    j := i + 1;
    while alarms[j] == alarms[i]
      invariant i < j < end && alarms[j - 1] == alarms[i]
      decreases end - j
    {
      j := j + 1;
    }
  }

  function Inside(first: int, last: int): int -> bool {
    (t: int) => first <= t <= last
  }

  /** In an ascending list the entries from alarms[start] to alarms[end - 1] are exactly those positions, if it steps at both ends. */
  lemma CountOfRange(alarms: seq<int>, start: nat, end: nat)
    requires Sorted(alarms) && start < end <= |alarms|
    requires (start > 0 ==> alarms[start - 1] < alarms[start]) && (end < |alarms| ==> alarms[end - 1] < alarms[end])
    ensures Count(alarms, Inside(alarms[start], alarms[end - 1])) == end - start
  {
    FilterMiddle(alarms, start, end, Inside(alarms[start], alarms[end - 1]));
  }

  lemma InsertCounts(s: seq<int>, x: int, p: int -> bool)
    ensures Count(Insert(s, x), p) == Count(s, p) + (if p(x) then 1 else 0)
  {
    InsertAdds(s, x);
    assert multiset(s + [x]) == multiset(s) + multiset{x};
    CountPermutation(Insert(s, x), s + [x], p);
    CountSnoc(s, x, p);
  }

  lemma {:induction false} LogCounts(rows: seq<Row>, channel: string, first: int, last: int)
    ensures Count(rows, AlarmWithin(channel, first, last))
         == if LogOf(rows, channel).None? then 0 else Count(LogOf(rows, channel).value.alarms, Inside(first, last))
  {
    if rows != [] {
      var n := |rows| - 1;
      LogCounts(rows[..n], channel, first, last);
      var before := LogOf(rows[..n], channel);
      if rows[n].Row? && rows[n].channel == channel && rows[n].alarm {
        InsertCounts(if before.Some? then before.value.alarms else [], rows[n].time, Inside(first, last));
      }
    }
  }

  lemma AlarmsOfLog(rows: seq<Row>, channel: string, log: Log, t: int)
    requires LogOf(rows, channel) == Some(log)
    ensures HasAlarm(rows, channel, t) <==> t in log.alarms
  {
    LogSummarises(rows, channel);
    assert multiset(log.alarms)[t] == multiset(rows)[Row(channel, t, true)];
    assert t in log.alarms <==> t in multiset(log.alarms);
    assert Row(channel, t, true) in rows <==> Row(channel, t, true) in multiset(rows);
  }

  lemma BoundsOfLog(rows: seq<Row>, channel: string, log: Log, t: int)
    requires LogOf(rows, channel) == Some(log)
    ensures HasRowBefore(rows, channel, t) <==> log.first < t
    ensures HasRowAfter(rows, channel, t) <==> log.last > t
    ensures Tidy(log)
  {
    LogSummarises(rows, channel);
    var a :| 0 <= a < |rows| && rows[a].Row? && rows[a].channel == channel && rows[a].time == log.first;
    var b :| 0 <= b < |rows| && rows[b].Row? && rows[b].channel == channel && rows[b].time == log.last;
    assert rows[a] in rows && rows[b] in rows;
    forall i | 0 <= i < |log.alarms| ensures log.first <= log.alarms[i] <= log.last {
      AlarmsOfLog(rows, channel, log, log.alarms[i]);
      assert Row(channel, log.alarms[i], true) in rows;
    }
  }

  /** The positions from `start` up to `end`: ascending without a pause over the reach, and a longer pause on both sides. */
  ghost predicate IsBlock(alarms: seq<int>, start: nat, end: nat, reach: int) {
    && Sorted(alarms) && start < end <= |alarms| && reach >= 0
    && (start > 0 ==> alarms[start] - alarms[start - 1] > reach)
    && (end < |alarms| ==> alarms[end] - alarms[end - 1] > reach)
    && forall i | start < i < end :: alarms[i] - alarms[i - 1] <= reach
  }

  lemma NothingInReach(alarms: seq<int>, start: nat, end: nat, reach: int, t: int)
    requires IsBlock(alarms, start, end, reach) && t in alarms
    ensures !(alarms[start] - reach <= t < alarms[start]) && !(alarms[end - 1] < t <= alarms[end - 1] + reach)
  {
    var i :| 0 <= i < |alarms| && alarms[i] == t;
    if i < start {
      assert alarms[i] <= alarms[start - 1];
    } else if i >= end {
      assert alarms[end] <= alarms[i];
    }
  }

  lemma NextInBlock(alarms: seq<int>, start: nat, end: nat, reach: int, t: int) returns (u: int)
    requires IsBlock(alarms, start, end, reach) && t in alarms && alarms[start] <= t < alarms[end - 1]
    ensures u in alarms && t < u <= t + reach
  {
    var i :| 0 <= i < |alarms| && alarms[i] == t;
    assert start <= i;
    var j := NextInGroup(alarms, start, end, i, reach);
    u := alarms[j];
  }

  /** A group is a block, and carries its ends, its length and its two boundaries. */
  lemma GroupIsBlock(channel: string, log: Log, gap: int, k: nat) returns (start: nat, end: nat)
    requires log.alarms != [] && k < |Cuts(log.alarms, gap)| && gap >= 0 && Tidy(log)
    ensures IsBlock(log.alarms, start, end, gap * SECOND)
    ensures Group(channel, log, gap, k) == EpisodeOf(channel, log, start, end, gap * SECOND)
  {
    var cuts := Cuts(log.alarms, gap);
    start, end := cuts[k], GroupEnd(cuts, k, |log.alarms|);
    GroupShape(log.alarms, gap, k);
    GroupSays(channel, log, gap, k);
  }

  lemma GroupSays(channel: string, log: Log, gap: int, k: nat)
    requires log.alarms != [] && k < |Cuts(log.alarms, gap)|
    ensures var cuts := Cuts(log.alarms, gap);
            Group(channel, log, gap, k) == EpisodeOf(channel, log, cuts[k], GroupEnd(cuts, k, |log.alarms|), gap * SECOND)
  {
  }

  ghost function EpisodeOf(channel: string, log: Log, start: nat, end: nat, reach: int): Episode
    requires start < end <= |log.alarms|
  {
    Episode(channel, log.alarms[start], log.alarms[end - 1], end - start,
            Observed(start > 0 || log.alarms[start] - log.first > reach), Observed(log.last - log.alarms[end - 1] > reach))
  }

  lemma BlockReaches(rows: seq<Row>, channel: string, log: Log, start: nat, end: nat, reach: int)
    requires LogOf(rows, channel) == Some(log) && IsBlock(log.alarms, start, end, reach)
    ensures forall t | log.alarms[start] - reach <= t < log.alarms[start] :: !HasAlarm(rows, channel, t)
    ensures forall t | log.alarms[end - 1] < t <= log.alarms[end - 1] + reach :: !HasAlarm(rows, channel, t)
    ensures forall t | log.alarms[start] <= t < log.alarms[end - 1] && HasAlarm(rows, channel, t) ::
              exists u | t < u <= t + reach :: HasAlarm(rows, channel, u)
  {
    forall t | HasAlarm(rows, channel, t)
      ensures !(log.alarms[start] - reach <= t < log.alarms[start]) && !(log.alarms[end - 1] < t <= log.alarms[end - 1] + reach)
      ensures log.alarms[start] <= t < log.alarms[end - 1] ==> exists u | t < u <= t + reach :: HasAlarm(rows, channel, u)
    {
      AlarmsOfLog(rows, channel, log, t);
      NothingInReach(log.alarms, start, end, reach, t);
      if log.alarms[start] <= t < log.alarms[end - 1] {
        var u := NextInBlock(log.alarms, start, end, reach, t);
        AlarmsOfLog(rows, channel, log, u);
      }
    }
  }

  lemma BlockEnds(rows: seq<Row>, channel: string, log: Log, start: nat, end: nat, reach: int)
    requires LogOf(rows, channel) == Some(log) && IsBlock(log.alarms, start, end, reach)
    ensures HasAlarm(rows, channel, log.alarms[start]) && HasAlarm(rows, channel, log.alarms[end - 1])
  {
    AlarmsOfLog(rows, channel, log, log.alarms[start]);
    AlarmsOfLog(rows, channel, log, log.alarms[end - 1]);
    assert log.alarms[start] in log.alarms && log.alarms[end - 1] in log.alarms;
  }

  lemma BlockCounts(rows: seq<Row>, channel: string, log: Log, start: nat, end: nat, reach: int)
    requires LogOf(rows, channel) == Some(log) && IsBlock(log.alarms, start, end, reach)
    ensures Count(rows, AlarmWithin(channel, log.alarms[start], log.alarms[end - 1])) == end - start
  {
    LogCounts(rows, channel, log.alarms[start], log.alarms[end - 1]);
    CountOfRange(log.alarms, start, end);
  }

  lemma BlockBoundaries(rows: seq<Row>, channel: string, log: Log, start: nat, end: nat, reach: int)
    requires LogOf(rows, channel) == Some(log) && IsBlock(log.alarms, start, end, reach)
    ensures start > 0 || log.alarms[start] - log.first > reach <==> HasRowBefore(rows, channel, log.alarms[start] - reach)
    ensures log.last - log.alarms[end - 1] > reach <==> HasRowAfter(rows, channel, log.alarms[end - 1] + reach)
  {
    BoundsOfLog(rows, channel, log, log.alarms[start] - reach);
    BoundsOfLog(rows, channel, log, log.alarms[end - 1] + reach);
    if start > 0 {
      assert log.first <= log.alarms[start - 1];
    }
  }

  lemma BlockIsEpisode(rows: seq<Row>, channel: string, log: Log, start: nat, end: nat, gap: int)
    requires LogOf(rows, channel) == Some(log) && IsBlock(log.alarms, start, end, gap * SECOND)
    ensures IsEpisode(rows, gap, EpisodeOf(channel, log, start, end, gap * SECOND))
  {
    BlockEnds(rows, channel, log, start, end, gap * SECOND);
    BlockReaches(rows, channel, log, start, end, gap * SECOND);
    BlockCounts(rows, channel, log, start, end, gap * SECOND);
    BlockBoundaries(rows, channel, log, start, end, gap * SECOND);
  }

  lemma GroupIsEpisode(rows: seq<Row>, channel: string, log: Log, gap: int, k: nat)
    requires LogOf(rows, channel) == Some(log) && log.alarms != [] && k < |Cuts(log.alarms, gap)| && gap >= 0
    ensures IsEpisode(rows, gap, Group(channel, log, gap, k))
  {
    BoundsOfLog(rows, channel, log, 0);
    var start, end := GroupIsBlock(channel, log, gap, k);
    BlockIsEpisode(rows, channel, log, start, end, gap);
  }

  lemma {:induction false} EpisodesOverAreGroups(rows: seq<Row>, names: seq<string>, gap: int, e: Episode)
    requires e in EpisodesOver(rows, names, gap)
    ensures LogOf(rows, e.channel).Some?
    ensures var log := LogOf(rows, e.channel).value;
            log.alarms != [] && exists k: nat :: k < |Cuts(log.alarms, gap)| && e == Group(e.channel, log, gap, k)
  {
    var n := |names| - 1;
    var log := LogOf(rows, names[n]);
    if e in EpisodesOver(rows, names[..n], gap) {
      EpisodesOverAreGroups(rows, names[..n], gap, e);
    } else {
      var episodes := ChannelEpisodes(names[n], log.value, gap);
      var k :| 0 <= k < |episodes| && episodes[k] == e;
    }
  }

  /** Every episode of a journal, in whatever order its rows come, is one as its rows say. */
  lemma EpisodesAreAsTheRowsSay(rows: seq<Row>, gap: int, e: Episode)
    requires WellFormed(rows) && gap >= 0 && e in Reference(rows, gap)
    ensures IsEpisode(rows, gap, e)
  {
    EpisodesOverAreGroups(rows, Channels(rows), gap, e);
    var log := LogOf(rows, e.channel).value;
    var k: nat :| k < |Cuts(log.alarms, gap)| && e == Group(e.channel, log, gap, k);
    GroupIsEpisode(rows, e.channel, log, gap, k);
  }

  lemma {:induction false} GroupOfPosition(cuts: seq<nat>, n: nat, i: nat) returns (k: nat)
    requires cuts != [] && cuts[0] == 0 && i < n && forall j | 0 <= j < |cuts| :: cuts[j] < n
    ensures k < |cuts| && cuts[k] <= i < GroupEnd(cuts, k, n)
  {
    k := 0;
    while k + 1 < |cuts| && cuts[k + 1] <= i
      invariant k < |cuts| && cuts[k] <= i
      decreases |cuts| - k
    {
      k := k + 1;
    }
  }

  function Contribution(rows: seq<Row>, channel: string, gap: int): seq<Episode> {
    var log := LogOf(rows, channel);
    if log.None? then [] else ChannelEpisodes(channel, log.value, gap)
  }

  lemma LastContributes(rows: seq<Row>, names: seq<string>, gap: int)
    requires names != []
    ensures var n := |names| - 1;
            EpisodesOver(rows, names, gap) == EpisodesOver(rows, names[..n], gap) + Contribution(rows, names[n], gap)
  {
  }

  lemma {:induction false} EpisodesOverHave(rows: seq<Row>, names: seq<string>, j: nat, gap: int, own: seq<Episode>, e: Episode)
    requires j < |names| && own == Contribution(rows, names[j], gap) && e in own
    ensures e in EpisodesOver(rows, names, gap)
    decreases |names|
  {
    LastContributes(rows, names, gap);
    if j < |names| - 1 {
      EpisodesOverHave(rows, names[..|names| - 1], j, gap, own, e);
    }
  }

  lemma AlarmIsInGroup(channel: string, log: Log, gap: int, t: int) returns (e: Episode)
    requires t in log.alarms && Sorted(log.alarms)
    ensures e in ChannelEpisodes(channel, log, gap) && e.channel == channel && e.first <= t <= e.last
  {
    var i :| 0 <= i < |log.alarms| && log.alarms[i] == t;
    var k := GroupOfPosition(Cuts(log.alarms, gap), |log.alarms|, i);
    e := Group(channel, log, gap, k);
    assert ChannelEpisodes(channel, log, gap)[k] == e;
  }

  /** And every alarm of the journal lies in an episode of its channel. */
  lemma EveryAlarmHasAnEpisode(rows: seq<Row>, gap: int, channel: string, t: int) returns (e: Episode)
    requires WellFormed(rows) && HasAlarm(rows, channel, t)
    ensures e in Reference(rows, gap) && e.channel == channel && e.first <= t <= e.last
  {
    LogSummarises(rows, channel);
    var at :| 0 <= at < |rows| && rows[at] == Row(channel, t, true);
    var log := LogOf(rows, channel).value;
    AlarmsOfLog(rows, channel, log, t);
    e := AlarmIsInGroup(channel, log, gap, t);
    ChannelsAreTheNames(rows);
    var j :| 0 <= j < |Channels(rows)| && Channels(rows)[j] == channel;
    EpisodesOverHave(rows, Channels(rows), j, gap, Contribution(rows, channel, gap), e);
  }
}
