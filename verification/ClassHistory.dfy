/**
 * The history of an object's class episodes at one moment, computed in serving from the last 30 days of starts and a
 * "seen before" flag, and in training by binary search over packed keys of the full start list. Both rows must agree.
 */
module ClassHistory {
  import opened Lists
  import F = FeatureStore
  import K = PackedKeys

  const AGE_CAP: real := 720.0

  /** Starts within 24, 168 and 720 hours, and the hours since the last one, capped; `None` is a missing value. */
  datatype Row = Row(in24h: nat, in168h: nat, in720h: nat, age: Option<real>)

  function Capped(age: real): real {
    if age < AGE_CAP then age else AGE_CAP
  }

  function Hours(time: int): real {
    time as real / 3_600_000_000.0
  }

  function Window(hours: int, t: int): int -> bool {
    F.Between(t - hours * F.HOUR, t)
  }

  // Serving.

  function ServingRow(t: int, starts: seq<int>, seen: bool): Row {
    var latest := F.Latest(starts);
    Row(Count(starts, Window(24, t)), Count(starts, Window(168, t)), Count(starts, Window(720, t)),
        if latest.Some? then Some(Capped(Hours(t - latest.value))) else if seen then Some(AGE_CAP) else None)
  }

  function ClassAlarm(channel: string, states: seq<string>): F.Record -> bool {
    (r: F.Record) => r.channel == channel && r.alarm && r.state in states
  }

  function ClassAlarmInWindow(channel: string, states: seq<string>, t: int): F.Record -> bool {
    (r: F.Record) => r.channel == channel && r.alarm && r.state in states && t - F.WINDOW - F.GAP < r.time <= t
  }

  function ChannelAlarms(journal: seq<F.Record>, channel: string, states: seq<string>): seq<int> {
    F.Ordered(Filter(journal, ClassAlarm(channel, states)))
  }

  /** The starts that the windowed query returns for the channels of one object. */
  function ServingStarts(journal: seq<F.Record>, channels: seq<string>, states: seq<string>, t: int): seq<int> {
    if channels == [] then []
    else
      var n := |channels| - 1;
      ServingStarts(journal, channels[..n], states, t)
      + F.StartsAfter(F.Ordered(Filter(journal, ClassAlarmInWindow(channels[n], states, t))), t - F.WINDOW)
  }

  /** The starts of the object's channels over the whole journal. */
  function AllStarts(journal: seq<F.Record>, channels: seq<string>, states: seq<string>): seq<int> {
    if channels == [] then []
    else
      var n := |channels| - 1;
      AllStarts(journal, channels[..n], states) + F.Starts(ChannelAlarms(journal, channels[n], states))
  }

  /** Some channel's first class alarm is not after the moment. */
  ghost predicate Seen(journal: seq<F.Record>, channels: seq<string>, states: seq<string>, t: int) {
    exists c | c in channels :: SeenOn(journal, c, states, t)
  }

  predicate SeenOn(journal: seq<F.Record>, channel: string, states: seq<string>, t: int) {
    var first := F.Earliest(F.Times(Filter(journal, ClassAlarm(channel, states))));
    first.Some? && first.value <= t
  }

  lemma ChannelServesItsWindow(journal: seq<F.Record>, channel: string, states: seq<string>, t: int)
    ensures F.StartsAfter(F.Ordered(Filter(journal, ClassAlarmInWindow(channel, states, t))), t - F.WINDOW)
         == Filter(F.Starts(ChannelAlarms(journal, channel, states)), Window(720, t))
  {
    var own := Filter(journal, ClassAlarm(channel, states));
    FilterFilter(journal, ClassAlarm(channel, states), F.WithinTime(t - F.WINDOW - F.GAP, t), ClassAlarmInWindow(channel, states, t));
    F.OrderedWindow(own, F.WithinTime(t - F.WINDOW - F.GAP, t), t - F.WINDOW - F.GAP, t);
    F.OrderedIsSorted(own);
    F.TruncationLosesNoStart(F.Ordered(own), t - F.WINDOW - F.GAP, t - F.WINDOW, t);
    assert t - 720 * F.HOUR == t - F.WINDOW;
  }

  lemma {:induction false} ServingStartsAreTheWindow(journal: seq<F.Record>, channels: seq<string>, states: seq<string>, t: int)
    ensures ServingStarts(journal, channels, states, t) == Filter(AllStarts(journal, channels, states), Window(720, t))
  {
    if channels != [] {
      var n := |channels| - 1;
      ServingStartsAreTheWindow(journal, channels[..n], states, t);
      ChannelServesItsWindow(journal, channels[n], states, t);
      CountAppend(AllStarts(journal, channels[..n], states), F.Starts(ChannelAlarms(journal, channels[n], states)), Window(720, t));
    }
  }

  lemma {:induction false} StartIsAlarm(alarms: seq<int>, x: int)
    requires x in F.Starts(alarms)
    ensures x in alarms
  {
    var n := |alarms| - 1;
    if x in F.Starts(alarms[..n]) {
      StartIsAlarm(alarms[..n], x);
    }
  }

  lemma {:induction false} FirstAlarmIsStart(alarms: seq<int>)
    requires alarms != []
    ensures alarms[0] in F.Starts(alarms)
  {
    var n := |alarms| - 1;
    if n == 0 {
      assert F.Starts(alarms) == F.Starts(alarms[..0]) + [alarms[0]];
    } else {
      FirstAlarmIsStart(alarms[..n]);
      assert alarms[..n][0] == alarms[0];
    }
  }

  predicate AnyBy(s: seq<int>, t: int) {
    exists x | x in s :: x <= t
  }

  lemma AnyByIgnoresOrder(a: seq<int>, b: seq<int>, t: int)
    requires multiset(a) == multiset(b)
    ensures AnyBy(a, t) <==> AnyBy(b, t)
  {
    if x :| x in a && x <= t {
      assert x in multiset(a);
      assert x in b;
    }
    if x :| x in b && x <= t {
      assert x in multiset(b);
      assert x in a;
    }
  }

  lemma AnyStartBy(alarms: seq<int>, t: int)
    requires Sorted(alarms)
    ensures AnyBy(F.Starts(alarms), t) <==> AnyBy(alarms, t)
  {
    if x :| x in F.Starts(alarms) && x <= t {
      StartIsAlarm(alarms, x);
    }
    if x :| x in alarms && x <= t {
      FirstAlarmIsStart(alarms);
      assert alarms[0] <= x;
    }
  }

  lemma SeenOnIff(journal: seq<F.Record>, channel: string, states: seq<string>, t: int)
    ensures SeenOn(journal, channel, states, t) <==> AnyBy(F.Starts(ChannelAlarms(journal, channel, states)), t)
  {
    var times := F.Times(Filter(journal, ClassAlarm(channel, states)));
    SortSorts(times);
    F.FirstBefore(times, t);
    AnyByIgnoresOrder(times, Sort(times), t);
    AnyStartBy(Sort(times), t);
  }

  lemma AnyByAppend(a: seq<int>, b: seq<int>, t: int)
    ensures AnyBy(a + b, t) <==> AnyBy(a, t) || AnyBy(b, t)
  {
    if x :| x in a && x <= t {
      assert x in a + b;
    }
    if x :| x in b && x <= t {
      assert x in a + b;
    }
  }

  lemma {:induction false} SeenIff(journal: seq<F.Record>, channels: seq<string>, states: seq<string>, t: int)
    ensures Seen(journal, channels, states, t) <==> AnyBy(AllStarts(journal, channels, states), t)
  {
    if channels != [] {
      var n := |channels| - 1;
      SeenIff(journal, channels[..n], states, t);
      SeenOnIff(journal, channels[n], states, t);
      AnyByAppend(AllStarts(journal, channels[..n], states), F.Starts(ChannelAlarms(journal, channels[n], states)), t);
      SeenSnoc(journal, channels, states, t);
    }
  }

  lemma SeenSnoc(journal: seq<F.Record>, channels: seq<string>, states: seq<string>, t: int)
    requires channels != []
    ensures Seen(journal, channels, states, t)
       <==> Seen(journal, channels[..|channels| - 1], states, t) || SeenOn(journal, channels[|channels| - 1], states, t)
  {
    assert channels == channels[..|channels| - 1] + [channels[|channels| - 1]];
  }

  // What the row means, on the full list of starts.

  function NotAfter(t: int): int -> bool {
    (x: int) => x <= t
  }

  function Meaning(starts: seq<int>, t: int): Row {
    var latest := F.Latest(Filter(starts, NotAfter(t)));
    Row(Count(starts, Window(24, t)), Count(starts, Window(168, t)), Count(starts, Window(720, t)),
        if latest.Some? then Some(Capped(Hours(t - latest.value))) else None)
  }

  lemma LatestIs(s: seq<int>, x: int)
    requires x in s && forall y | y in s :: y <= x
    ensures F.Latest(s) == Some(x)
  {
    F.LatestIsGreatest(s);
  }

  lemma SameMembersSameLatest(a: seq<int>, b: seq<int>)
    requires multiset(a) == multiset(b)
    ensures F.Latest(a) == F.Latest(b)
  {
    F.LatestIsGreatest(a);
    F.LatestIsGreatest(b);
    assert forall x :: x in a <==> x in multiset(a);
    assert forall x :: x in b <==> x in multiset(b);
    if a != [] {
      assert a[0] in multiset(b);
    }
    if b != [] {
      assert b[0] in multiset(a);
    }
  }

  lemma WindowsIgnoreOrder(a: seq<int>, b: seq<int>, t: int)
    requires multiset(a) == multiset(b)
    ensures Count(a, Window(24, t)) == Count(b, Window(24, t))
    ensures Count(a, Window(168, t)) == Count(b, Window(168, t))
    ensures Count(a, Window(720, t)) == Count(b, Window(720, t))
  {
    CountPermutation(a, b, Window(24, t));
    CountPermutation(a, b, Window(168, t));
    CountPermutation(a, b, Window(720, t));
  }

  lemma MeaningIgnoresOrder(a: seq<int>, b: seq<int>, t: int)
    requires multiset(a) == multiset(b)
    ensures Meaning(a, t) == Meaning(b, t)
  {
    WindowsIgnoreOrder(a, b, t);
    LatestBeforeIgnoresOrder(a, b, t);
  }

  lemma LatestBeforeIgnoresOrder(a: seq<int>, b: seq<int>, t: int)
    requires multiset(a) == multiset(b)
    ensures F.Latest(Filter(a, NotAfter(t))) == F.Latest(Filter(b, NotAfter(t)))
  {
    CountPermutation(a, b, NotAfter(t));
    SameMembersSameLatest(Filter(a, NotAfter(t)), Filter(b, NotAfter(t)));
  }

  lemma ServingRowIgnoresOrder(a: seq<int>, b: seq<int>, t: int, seen: bool)
    requires multiset(a) == multiset(b)
    ensures ServingRow(t, a, seen) == ServingRow(t, b, seen)
  {
    WindowsIgnoreOrder(a, b, t);
    SameMembersSameLatest(a, b);
  }

  lemma CountsFromTheWindow(starts: seq<int>, t: int, hours: int)
    requires hours <= 720
    ensures Count(Filter(starts, Window(720, t)), Window(hours, t)) == Count(starts, Window(hours, t))
  {
    FilterFilter(starts, Window(720, t), Window(hours, t), Window(hours, t));
  }

  lemma AgeFromTheWindow(starts: seq<int>, t: int)
    ensures var recent, before := Filter(starts, Window(720, t)), Filter(starts, NotAfter(t));
            && (recent != [] ==> F.Latest(recent) == F.Latest(before))
            && (recent == [] && before != [] ==> F.Latest(before).Some? && Capped(Hours(t - F.Latest(before).value)) == AGE_CAP)
  {
    var recent, before := Filter(starts, Window(720, t)), Filter(starts, NotAfter(t));
    FilterMembers(starts, Window(720, t));
    FilterMembers(starts, NotAfter(t));
    F.LatestIsGreatest(recent);
    F.LatestIsGreatest(before);
    if recent != [] {
      assert recent[0] in recent;
      LatestIs(recent, F.Latest(before).value);
    } else if before != [] {
      var last := F.Latest(before).value;
      assert !Window(720, t)(last);
      CappedAge(t - last);
    }
  }

  lemma CappedAge(elapsed: int)
    requires elapsed >= 720 * F.HOUR
    ensures Capped(Hours(elapsed)) == AGE_CAP
  {
  }

  lemma NothingBefore(starts: seq<int>, t: int)
    ensures Filter(starts, NotAfter(t)) != [] <==> AnyBy(starts, t)
    ensures Filter(starts, Window(720, t)) != [] ==> AnyBy(starts, t)
  {
    FilterMembers(starts, NotAfter(t));
    FilterMembers(starts, Window(720, t));
    var before, recent := Filter(starts, NotAfter(t)), Filter(starts, Window(720, t));
    if before != [] {
      assert before[0] in before;
    }
    if recent != [] {
      assert recent[0] in recent;
    }
  }

  lemma WindowRowIsMeaning(all: seq<int>, t: int)
    ensures ServingRow(t, Filter(all, Window(720, t)), AnyBy(all, t)) == Meaning(all, t)
  {
    CountsFromTheWindow(all, t, 24);
    CountsFromTheWindow(all, t, 168);
    CountsFromTheWindow(all, t, 720);
    AgeFromTheWindow(all, t);
    NothingBefore(all, t);
    F.LatestIsGreatest(Filter(all, Window(720, t)));
    F.LatestIsGreatest(Filter(all, NotAfter(t)));
  }

  /** Serving from the window and the flag gives the row of the full list of starts. */
  lemma ServingMatchesTheFullList(journal: seq<F.Record>, channels: seq<string>, states: seq<string>, t: int, starts: seq<int>, seen: bool)
    requires multiset(starts) == multiset(ServingStarts(journal, channels, states, t))
    requires seen <==> Seen(journal, channels, states, t)
    ensures ServingRow(t, starts, seen) == Meaning(AllStarts(journal, channels, states), t)
  {
    ServingRowIgnoresOrder(starts, ServingStarts(journal, channels, states, t), t, seen);
    ServingStartsAreTheWindow(journal, channels, states, t);
    SeenIff(journal, channels, states, t);
    WindowRowIsMeaning(AllStarts(journal, channels, states), t);
  }

  // Training.

  /** A class episode start with the code of its object. */
  datatype Coded = Coded(code: nat, time: int)

  function CodedKeys(starts: seq<Coded>): seq<int> {
    seq(|starts|, i requires 0 <= i < |starts| => K.Key(starts[i].code, starts[i].time))
  }

  function WindowCount(table: seq<int>, code: nat, t: int, hours: int): int
    requires Sorted(table)
  {
    K.CountIn(table, K.Key(code, t - hours * F.HOUR), K.Key(code, t))
  }

  /** The training row as the packed table gives it; the counts are differences of searches and may be negative. */
  datatype Packed = Packed(in24h: int, in168h: int, in720h: int, age: Option<real>)

  /** The source reads `starts[max(right - 1, 0)]`, so its table of starts is never empty. */
  function TrainingRow(starts: seq<Coded>, code: nat, t: int): Packed
    requires starts != []
  {
    var table := Table(starts);
    var end := K.Key(code, t);
    var right := SearchRight(table, end);
    SortSorts(CodedKeys(starts));
    var previous := table[if right > 0 then right - 1 else 0];
    var found := right > 0 && previous / K.SPAN == code;
    Packed(WindowCount(table, code, t, 24), WindowCount(table, code, t, 168), WindowCount(table, code, t, 720),
           if found then Some(Capped(Hours(end - previous))) else None)
  }

  function OfCode(code: nat): Coded -> bool {
    (s: Coded) => s.code == code
  }

  function TimesOf(starts: seq<Coded>, code: nat): seq<int> {
    var own := Filter(starts, OfCode(code));
    seq(|own|, i requires 0 <= i < |own| => own[i].time)
  }

  /**
   * Codes below 2^15, the moment and every start from 2018 until 2^48 microseconds later, and no start that many
   * microseconds after the earliest window bound, which itself may lie before 2018.
   */
  ghost predicate Fits(starts: seq<Coded>, code: nat, t: int) {
    && code < K.CODES && K.InEra(t)
    && forall s | s in starts :: s.code < K.CODES && K.InEra(s.time) && s.time - (t - 720 * F.HOUR) < K.SPAN
  }

  function KeyWithin(code: nat, after: int, until: int): Coded -> bool {
    (s: Coded) => K.Key(code, after) < K.Key(s.code, s.time) <= K.Key(code, until)
  }

  function CodeWithin(code: nat, after: int, until: int): Coded -> bool {
    (s: Coded) => s.code == code && after < s.time <= until
  }

  lemma SearchesCountTheWindow(starts: seq<Coded>, code: nat, t: int, hours: int)
    requires Fits(starts, code, t) && 0 <= hours <= 720
    ensures WindowCount(Table(starts), code, t, hours) == Count(TimesOf(starts, code), Window(hours, t))
  {
    var after := t - hours * F.HOUR;
    K.KeyIsPlain(code, after);
    K.KeyIsPlain(code, t);
    RangeCount(CodedKeys(starts), K.Key(code, after), K.Key(code, t));
    CountsAgree(starts, KeyWithin(code, after, t), CodedKeys(starts), InRange(K.Key(code, after), K.Key(code, t)));
    forall s | s in starts ensures KeyWithin(code, after, t)(s) == CodeWithin(code, after, t)(s) {
      K.OwnStartIsCountedIff(code, after, t, s.code, s.time);
    }
    CountCongruence(starts, KeyWithin(code, after, t), CodeWithin(code, after, t));
    OwnCount(starts, code, after, t);
  }

  function TimeWithin(after: int, until: int): Coded -> bool {
    (s: Coded) => after < s.time <= until
  }

  lemma OwnCount(starts: seq<Coded>, code: nat, after: int, until: int)
    ensures Count(starts, CodeWithin(code, after, until)) == Count(TimesOf(starts, code), F.Between(after, until))
  {
    FilterFilter(starts, OfCode(code), TimeWithin(after, until), CodeWithin(code, after, until));
    CountsAgree(Filter(starts, OfCode(code)), TimeWithin(after, until), TimesOf(starts, code), F.Between(after, until));
  }

  lemma TimesOfMembers(starts: seq<Coded>, code: nat, x: int)
    ensures x in TimesOf(starts, code) <==> Coded(code, x) in starts
  {
    var own := Filter(starts, OfCode(code));
    FilterMembers(starts, OfCode(code));
    if x in TimesOf(starts, code) {
      var i :| 0 <= i < |own| && own[i].time == x;
      assert own[i] in own;
      assert own[i] == Coded(code, x);
    }
    if Coded(code, x) in starts {
      var i :| 0 <= i < |own| && own[i] == Coded(code, x);
      assert TimesOf(starts, code)[i] == x;
    }
  }

  lemma CodedKeysMembers(starts: seq<Coded>, key: int)
    ensures key in Sorting(CodedKeys(starts)) <==> exists s | s in starts :: K.Key(s.code, s.time) == key
  {
    var keys := CodedKeys(starts);
    SortSorts(keys);
    assert key in Sorting(keys) <==> key in multiset(keys);
    if key in keys {
      var i :| 0 <= i < |keys| && keys[i] == key;
      assert starts[i] in starts;
    }
    if s :| s in starts && K.Key(s.code, s.time) == key {
      var i :| 0 <= i < |starts| && starts[i] == s;
      assert keys[i] == key;
    }
  }

  function Table(starts: seq<Coded>): (table: seq<int>)
    ensures Sorted(table)
  {
    Sorting(CodedKeys(starts))
  }

  lemma EntryBefore(table: seq<int>, key: int, end: int)
    requires Sorted(table) && key in table && key <= end
    ensures var right := SearchRight(table, end);
            right > 0 && key <= table[right - 1] <= end
  {
    var j :| 0 <= j < |table| && table[j] == key;
  }

  lemma PreviousDecodes(starts: seq<Coded>, code: nat, t: int) returns (s: Coded)
    requires Fits(starts, code, t) && SearchRight(Table(starts), K.Key(code, t)) > 0
    ensures var previous := Table(starts)[SearchRight(Table(starts), K.Key(code, t)) - 1];
            && s in starts && previous == K.Key(s.code, s.time) <= K.Key(code, t)
            && previous / K.SPAN == s.code
  {
    var right := SearchRight(Table(starts), K.Key(code, t));
    var previous := Table(starts)[right - 1];
    assert previous in Table(starts);
    CodedKeysMembers(starts, previous);
    s :| s in starts && K.Key(s.code, s.time) == previous;
    K.KeyInEra(s.code, s.time);
  }

  ghost predicate LatestOwn(starts: seq<Coded>, code: nat, t: int, x: int) {
    Coded(code, x) in starts && x <= t && forall y :: Coded(code, y) in starts && y <= t ==> y <= x
  }

  lemma LatestOwnIs(starts: seq<Coded>, code: nat, t: int)
    ensures var latest := F.Latest(Filter(TimesOf(starts, code), NotAfter(t)));
            && (latest.Some? ==> LatestOwn(starts, code, t, latest.value))
            && (latest.None? ==> forall y :: Coded(code, y) in starts ==> y > t)
  {
    var own := TimesOf(starts, code);
    FilterMembers(own, NotAfter(t));
    F.LatestIsGreatest(Filter(own, NotAfter(t)));
    forall y ensures y in own <==> Coded(code, y) in starts {
      TimesOfMembers(starts, code, y);
    }
  }

  lemma PreviousWhenFound(starts: seq<Coded>, code: nat, t: int, x: int)
    requires Fits(starts, code, t) && LatestOwn(starts, code, t, x)
    ensures var right := SearchRight(Table(starts), K.Key(code, t));
            right > 0 && Table(starts)[right - 1] / K.SPAN == code && K.Key(code, t) - Table(starts)[right - 1] == t - x
  {
    K.KeysEmbedTheOrder(code, t, code, x);
    assert Coded(code, x).code == code && Coded(code, x).time == x;
    CodedKeysMembers(starts, K.Key(code, x));
    EntryBefore(Table(starts), K.Key(code, x), K.Key(code, t));
    var s := PreviousDecodes(starts, code, t);
    K.KeysEmbedTheOrder(s.code, s.time, code, x);
    K.KeysEmbedTheOrder(code, t, s.code, s.time);
    assert s == Coded(code, s.time);
    K.KeyInEra(code, t);
    K.KeyInEra(code, x);
  }

  lemma PreviousWhenMissing(starts: seq<Coded>, code: nat, t: int)
    requires Fits(starts, code, t) && forall y :: Coded(code, y) in starts ==> y > t
    ensures var right := SearchRight(Table(starts), K.Key(code, t));
            right > 0 ==> Table(starts)[right - 1] / K.SPAN != code
  {
    if SearchRight(Table(starts), K.Key(code, t)) > 0 {
      var s := PreviousDecodes(starts, code, t);
      K.KeysEmbedTheOrder(code, t, s.code, s.time);
      assert s.code == code ==> s == Coded(code, s.time);
    }
  }

  /** The entry before the insertion point is the latest own start, and belongs to the object exactly when there is one. */
  lemma PreviousIsLatest(starts: seq<Coded>, code: nat, t: int)
    requires Fits(starts, code, t) && starts != []
    ensures var latest := F.Latest(Filter(TimesOf(starts, code), NotAfter(t)));
            TrainingRow(starts, code, t).age == if latest.Some? then Some(Capped(Hours(t - latest.value))) else None
  {
    LatestOwnIs(starts, code, t);
    var latest := F.Latest(Filter(TimesOf(starts, code), NotAfter(t)));
    if latest.Some? {
      PreviousWhenFound(starts, code, t, latest.value);
    } else {
      PreviousWhenMissing(starts, code, t);
    }
  }

  function AsPacked(row: Row): Packed {
    Packed(row.in24h, row.in168h, row.in720h, row.age)
  }

  /** Under the bounds of the packing, the training row of an object is the row of its own full list of starts. */
  lemma TrainingRowIsMeaning(starts: seq<Coded>, code: nat, t: int)
    requires Fits(starts, code, t) && starts != []
    ensures TrainingRow(starts, code, t) == AsPacked(Meaning(TimesOf(starts, code), t))
  {
    SearchesCountTheWindow(starts, code, t, 24);
    SearchesCountTheWindow(starts, code, t, 168);
    SearchesCountTheWindow(starts, code, t, 720);
    PreviousIsLatest(starts, code, t);
  }

  /**
   * Parity: when the training table holds for an object exactly the class starts of its channels over the whole journal,
   * serving (30 days of starts and the flag) and training (packed keys of all starts) give the same row.
   */
  lemma ServingAgreesWithTraining(journal: seq<F.Record>, channels: seq<string>, states: seq<string>, t: int,
                                  served: seq<int>, seen: bool, table: seq<Coded>, code: nat)
    requires multiset(served) == multiset(ServingStarts(journal, channels, states, t))
    requires seen <==> Seen(journal, channels, states, t)
    requires table != [] && Fits(table, code, t)
    requires multiset(TimesOf(table, code)) == multiset(AllStarts(journal, channels, states))
    ensures AsPacked(ServingRow(t, served, seen)) == TrainingRow(table, code, t)
  {
    ServingMatchesTheFullList(journal, channels, states, t, served, seen);
    TrainingRowIsMeaning(table, code, t);
    MeaningIgnoresOrder(TimesOf(table, code), AllStarts(journal, channels, states), t);
  }

  // The row in hours and counts.

  /** The three counts are of the starts in the last 24, 168 and 720 hours, the moment included. */
  lemma CountsAreOfTheHours(starts: seq<int>, t: int)
    ensures Meaning(starts, t).in24h == Count(starts, InRange(t - 86_400_000_000, t))
    ensures Meaning(starts, t).in168h == Count(starts, InRange(t - 604_800_000_000, t))
    ensures Meaning(starts, t).in720h == Count(starts, InRange(t - 2_592_000_000_000, t))
  {
    CountCongruence(starts, Window(24, t), InRange(t - 86_400_000_000, t));
    CountCongruence(starts, Window(168, t), InRange(t - 604_800_000_000, t));
    CountCongruence(starts, Window(720, t), InRange(t - 2_592_000_000_000, t));
  }

  /** The last start that is not after the moment. */
  ghost predicate IsLastStart(starts: seq<int>, t: int, last: int) {
    last in starts && last <= t && forall x | x in starts && x <= t :: x <= last
  }

  /** The age is missing without such a start; otherwise it is the time since the last one in hours, but 720 from 720 hours on. */
  lemma AgeIsHoursSinceTheLastStart(starts: seq<int>, t: int)
    ensures Meaning(starts, t).age.None? <==> forall x | x in starts :: x > t
    ensures forall last | IsLastStart(starts, t, last) ::
              && Meaning(starts, t).age.Some?
              && (t - last < 2_592_000_000_000 ==> Meaning(starts, t).age.value * 3_600_000_000.0 == (t - last) as real)
              && (t - last >= 2_592_000_000_000 ==> Meaning(starts, t).age.value == 720.0)
  {
    var before := Filter(starts, NotAfter(t));
    FilterMembers(starts, NotAfter(t));
    F.LatestIsGreatest(before);
    if before != [] {
      assert before[0] in before;
    }
    forall last | IsLastStart(starts, t, last)
      ensures F.Latest(before) == Some(last)
      ensures t - last < 2_592_000_000_000 ==> Capped(Hours(t - last)) * 3_600_000_000.0 == (t - last) as real
      ensures t - last >= 2_592_000_000_000 ==> Capped(Hours(t - last)) == 720.0
    {
      LatestIs(before, last);
    }
  }
}
