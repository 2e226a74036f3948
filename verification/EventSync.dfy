/**
 * Materialising notable sensor readings as events, in batches behind a high-water mark. The reading ids grow, as an
 * autoincrement column hands them out; the channel table has one row per channel id.
 */
module EventSync {
  import opened Lists
  import opened Text
  import I = EventIds

  datatype Reading = Reading(id: nat, channel: string, occurred: int, alarm: bool, anomaly: bool, value: string)

  datatype Channel = Channel(pk: string, channel: string, sensorType: string, system: string, facility: Option<string>)

  datatype EventState = Fault | Alarm

  datatype Event = Event(id: string, reading: nat, kind: string, facility: Option<string>, sensor: string, occurred: int,
                         ingested: int, state: EventState, value: string, risk: Option<nat>)

  /** A corrupted reading is a fault whatever its alarm flag says. */
  function DeriveState(r: Reading): EventState {
    if r.anomaly then Fault else Alarm
  }

  predicate IsNotable(r: Reading) {
    r.alarm || r.anomaly
  }

  function ChannelOf(channels: seq<Channel>, channel: string): Option<Channel> {
    if channels == [] then None
    else if channels[0].channel == channel then Some(channels[0])
    else ChannelOf(channels[1..], channel)
  }

  lemma {:induction false} ChannelOfFinds(channels: seq<Channel>, channel: string)
    ensures ChannelOf(channels, channel).Some? ==> ChannelOf(channels, channel).value in channels && ChannelOf(channels, channel).value.channel == channel
    ensures ChannelOf(channels, channel).None? ==> forall c | c in channels :: c.channel != channel
  {
    if channels != [] {
      ChannelOfFinds(channels[1..], channel);
      assert channels == [channels[0]] + channels[1..];
    }
  }

  function Joined(channels: seq<Channel>, cursor: nat): Reading -> bool {
    (r: Reading) => r.id > cursor && IsNotable(r) && ChannelOf(channels, r.channel).Some?
  }

  function EventOf(r: Reading, channels: seq<Channel>, now: int): Event {
    var c := ChannelOf(channels, r.channel);
    Event(I.EventId(r.id), r.id, if c.Some? then c.value.sensorType else "", if c.Some? then c.value.facility else None,
          if c.Some? then c.value.pk else "", r.occurred, now, DeriveState(r), r.value, None)
  }

  ghost predicate IsEventOf(e: Event, r: Reading, c: Channel, now: int) {
    && e.id == I.EventId(r.id) && e.reading == r.id && e.kind == c.sensorType && e.facility == c.facility && e.sensor == c.pk
    && e.occurred == r.occurred && e.ingested == now && e.value == r.value && e.risk.None?
    && (r.anomaly ==> e.state == Fault) && (r.alarm && !r.anomaly ==> e.state == Alarm)
  }

  /** The event of a joined reading is an alarm, or a fault if the reading is corrupted, of a channel with the reading's name. */
  lemma EventIsOfItsReading(r: Reading, channels: seq<Channel>, cursor: nat, now: int)
    requires Joined(channels, cursor)(r)
    ensures exists c | c in channels :: c.channel == r.channel && IsEventOf(EventOf(r, channels, now), r, c, now)
  {
    ChannelOfFinds(channels, r.channel);
    assert IsEventOf(EventOf(r, channels, now), r, ChannelOf(channels, r.channel).value, now);
  }

  function EventsOf(rows: seq<Reading>, channels: seq<Channel>, now: int): (events: seq<Event>)
    ensures |events| == |rows|
  {
    seq(|rows|, k requires 0 <= k < |rows| => EventOf(rows[k], channels, now))
  }

  ghost predicate Growing(readings: seq<Reading>) {
    forall i, j | 0 <= i < j < |readings| :: readings[i].id < readings[j].id
  }

  /** The joined rows behind the cursor, in id order. */
  function Pending(readings: seq<Reading>, channels: seq<Channel>, cursor: nat): seq<Reading> {
    Filter(readings, Joined(channels, cursor))
  }

  function Advanced(cursor: nat, rows: seq<Reading>): nat {
    if rows == [] then cursor else rows[|rows| - 1].id
  }

  lemma {:induction false} FilterKeepsGrowing(readings: seq<Reading>, p: Reading -> bool)
    requires Growing(readings)
    ensures Growing(Filter(readings, p))
  {
    if readings != [] {
      var n := |readings| - 1;
      FilterKeepsGrowing(readings[..n], p);
      FilterMembers(readings[..n], p);
      var front := Filter(readings[..n], p);
      forall i | 0 <= i < |front| ensures front[i].id < readings[n].id {
        assert front[i] in front;
        var j :| 0 <= j < n && readings[j] == front[i];
      }
    }
  }

  function After(cursor: nat): Reading -> bool {
    (r: Reading) => r.id > cursor
  }

  lemma GrowingTail(rows: seq<Reading>, k: nat)
    requires Growing(rows) && 0 < k <= |rows|
    ensures Filter(rows, After(rows[k - 1].id)) == rows[k..]
  {
    FilterSuffix(rows, k, After(rows[k - 1].id));
  }

  /** Asking again behind the k-th row gives the rows after it. */
  lemma PendingAfter(readings: seq<Reading>, channels: seq<Channel>, cursor: nat, k: nat)
    requires Growing(readings) && k <= |Pending(readings, channels, cursor)|
    ensures var rows := Pending(readings, channels, cursor);
            Pending(readings, channels, Advanced(cursor, rows[..k])) == rows[k..]
  {
    var rows := Pending(readings, channels, cursor);
    if k > 0 {
      var next := rows[k - 1].id;
      FilterKeepsGrowing(readings, Joined(channels, cursor));
      GrowingTail(rows, k);
      FilterMembers(readings, Joined(channels, cursor));
      assert rows[k - 1] in rows;
      FilterFilter(readings, Joined(channels, cursor), After(next), Joined(channels, next));
    }
  }

  datatype Journal = Journal(readings: seq<Reading>, events: seq<Event>, cursor: nat)

  /** The first k pending readings turned into events. */
  function Taken(j: Journal, channels: seq<Channel>, k: nat, now: int): Journal
    requires k <= |Pending(j.readings, channels, j.cursor)|
  {
    var rows := Pending(j.readings, channels, j.cursor)[..k];
    Journal(j.readings, j.events + EventsOf(rows, channels, now), Advanced(j.cursor, rows))
  }

  /** What one whole sync does to the journal. */
  function Synced(j: Journal, channels: seq<Channel>, now: int): Journal {
    Taken(j, channels, |Pending(j.readings, channels, j.cursor)|, now)
  }

  lemma TakeSplit(events: seq<Event>, cursor: nat, pending: seq<Reading>, k: nat, n: nat, channels: seq<Channel>, now: int)
    requires k + n <= |pending|
    ensures (events + EventsOf(pending[..k], channels, now)) + EventsOf(pending[k..][..n], channels, now)
         == events + EventsOf(pending[..k + n], channels, now)
    ensures Advanced(Advanced(cursor, pending[..k]), pending[k..][..n]) == Advanced(cursor, pending[..k + n])
  {
  }

  lemma TakeMore(j: Journal, channels: seq<Channel>, k: nat, n: nat, now: int)
    requires Growing(j.readings) && k + n <= |Pending(j.readings, channels, j.cursor)|
    ensures var next := Taken(j, channels, k, now);
            && Pending(j.readings, channels, next.cursor) == Pending(j.readings, channels, j.cursor)[k..]
            && Taken(next, channels, n, now) == Taken(j, channels, k + n, now)
  {
    PendingAfter(j.readings, channels, j.cursor, k);
    TakeSplit(j.events, j.cursor, Pending(j.readings, channels, j.cursor), k, n, channels, now);
  }

  class EventJournal {
    var readings: seq<Reading>
    var channels: seq<Channel>
    var events: seq<Event>
    var cursor: nat

    ghost function State(): Journal
      reads this
    {
      Journal(readings, events, cursor)
    }

    /** One turn of the loop: at most `batch` of the pending readings become events, and the cursor follows. */
    method SyncBatch(batch: nat, now: int) returns (n: nat)
      modifies `events, `cursor
      ensures n == (if |Pending(readings, channels, old(cursor))| > batch then batch else |Pending(readings, channels, old(cursor))|)
      ensures State() == Taken(old(State()), channels, n, now)
    {
      var matching := Pending(readings, channels, cursor);
      n := if |matching| > batch then batch else |matching|;
      var rows := matching[..n];
      if rows == [] {
        return;
      }
      for k := 0 to |rows|
        invariant events == old(events) + EventsOf(rows[..k], channels, now)
        invariant cursor == old(cursor)
      {
        assert EventsOf(rows[..k + 1], channels, now) == EventsOf(rows[..k], channels, now) + [EventOf(rows[k], channels, now)];
        events := events + [EventOf(rows[k], channels, now)];
      }
      assert rows[..|rows|] == rows;
      cursor := rows[|rows| - 1].id;
    }

    /** One sync, batch by batch. The outcome does not depend on the batch size. */
    method SyncEvents(batch: nat, now: int) returns (count: nat)
      requires batch > 0 && Growing(readings)
      modifies `events, `cursor
      ensures State() == Synced(old(State()), channels, now)
      ensures count == |Pending(readings, channels, old(cursor))|
    {
      ghost var before, pending := State(), |Pending(readings, channels, cursor)|;
      count := 0;
      while true
        invariant count <= pending
        invariant State() == Taken(before, channels, count, now)
        decreases pending - count
      {
        TakeMore(before, channels, count, 0, now);
        var n := SyncBatch(batch, now);
        TakeMore(before, channels, count, n, now);
        count := count + n;
        if n < batch {
          break;
        }
      }
    }
  }

  // What each step keeps while the catalogue knows every channel.

  function Inserted(j: Journal, r: Reading): Journal {
    j.(readings := j.readings + [r])
  }

  /** Ids come from a growing positive counter, and the channel of a notable reading is in the catalogue. */
  ghost predicate MayInsert(j: Journal, channels: seq<Channel>, r: Reading) {
    && 0 < r.id < I.BOUND && (forall q | q in j.readings :: q.id < r.id)
    && (IsNotable(r) ==> ChannelOf(channels, r.channel).Some?)
  }

  function Start(): Journal {
    Journal([], [], 0)
  }

  function NotableUpTo(cursor: nat): Reading -> bool {
    (r: Reading) => IsNotable(r) && r.id <= cursor
  }

  /** The k-th event is that of the k-th notable reading up to the cursor, whenever it was taken in and whatever it links to. */
  ghost predicate Covers(j: Journal, channels: seq<Channel>) {
    var done := Filter(j.readings, NotableUpTo(j.cursor));
    && |j.events| == |done|
    && forall k | 0 <= k < |done| :: j.events[k].(risk := None) == EventOf(done[k], channels, j.events[k].ingested)
  }

  ghost predicate Sound(j: Journal, channels: seq<Channel>) {
    && Growing(j.readings) && Covers(j, channels)
    && (forall r | r in j.readings :: 0 < r.id < I.BOUND && (IsNotable(r) ==> ChannelOf(channels, r.channel).Some?))
    && (j.cursor == 0 || exists r | r in j.readings :: r.id == j.cursor)
  }

  lemma InsertKeepsCovers(j: Journal, channels: seq<Channel>, r: Reading)
    requires Covers(j, channels) && r.id > j.cursor
    ensures Covers(Inserted(j, r), channels)
  {
    CountSnoc(j.readings, r, NotableUpTo(j.cursor));
    assert Filter(Inserted(j, r).readings, NotableUpTo(j.cursor)) == Filter(j.readings, NotableUpTo(j.cursor));
  }

  lemma InsertKeepsGrowing(readings: seq<Reading>, r: Reading)
    requires Growing(readings) && forall q | q in readings :: q.id < r.id
    ensures Growing(readings + [r])
  {
    forall i | 0 <= i < |readings| ensures readings[i].id < r.id {
      assert readings[i] in readings;
    }
  }

  lemma InsertKeepsSound(j: Journal, channels: seq<Channel>, r: Reading)
    requires Sound(j, channels) && MayInsert(j, channels, r)
    ensures Sound(Inserted(j, r), channels)
  {
    if j.cursor > 0 {
      var q :| q in j.readings && q.id == j.cursor;
      assert q in Inserted(j, r).readings;
    }
    InsertKeepsCovers(j, channels, r);
    InsertKeepsGrowing(j.readings, r);
  }

  function NotableBetween(cursor: nat, until: nat): Reading -> bool {
    (r: Reading) => IsNotable(r) && cursor < r.id <= until
  }

  lemma {:induction false} SplitAtCursor(readings: seq<Reading>, cursor: nat, until: nat)
    requires Growing(readings) && cursor <= until
    ensures Filter(readings, NotableUpTo(until)) == Filter(readings, NotableUpTo(cursor)) + Filter(readings, NotableBetween(cursor, until))
  {
    if readings != [] {
      var n := |readings| - 1;
      SplitAtCursor(readings[..n], cursor, until);
      SplitSnoc(readings, cursor, until);
    }
  }

  lemma SplitSnoc(readings: seq<Reading>, cursor: nat, until: nat)
    requires Growing(readings) && readings != [] && cursor <= until
    requires var front := readings[..|readings| - 1];
             Filter(front, NotableUpTo(until)) == Filter(front, NotableUpTo(cursor)) + Filter(front, NotableBetween(cursor, until))
    ensures Filter(readings, NotableUpTo(until)) == Filter(readings, NotableUpTo(cursor)) + Filter(readings, NotableBetween(cursor, until))
  {
    var n := |readings| - 1;
    var front, last := readings[..n], readings[n];
    var low, mid := Filter(front, NotableUpTo(cursor)), Filter(front, NotableBetween(cursor, until));
    if !IsNotable(last) || last.id > until {
      assert Filter(readings, NotableUpTo(until)) == Filter(front, NotableUpTo(until));
      assert Filter(readings, NotableUpTo(cursor)) == low && Filter(readings, NotableBetween(cursor, until)) == mid;
    } else if last.id > cursor {
      assert Filter(readings, NotableUpTo(until)) == Filter(front, NotableUpTo(until)) + [last];
      assert Filter(readings, NotableUpTo(cursor)) == low && Filter(readings, NotableBetween(cursor, until)) == mid + [last];
    } else {
      NoneBetween(readings, cursor, until);
      assert Filter(readings, NotableUpTo(until)) == low + [last];
      assert Filter(readings, NotableUpTo(cursor)) == low + [last] && Filter(readings, NotableBetween(cursor, until)) == [];
    }
  }

  lemma NoneBetween(readings: seq<Reading>, cursor: nat, until: nat)
    requires Growing(readings) && readings != [] && readings[|readings| - 1].id <= cursor
    ensures Filter(readings[..|readings| - 1], NotableBetween(cursor, until)) == []
  {
    var front := readings[..|readings| - 1];
    forall r | r in front ensures !NotableBetween(cursor, until)(r) {
      var i :| 0 <= i < |front| && front[i] == r;
      assert readings[i].id < readings[|readings| - 1].id;
    }
    CountNone(front, NotableBetween(cursor, until));
    FilterMembers(front, NotableBetween(cursor, until));
  }

  /** A sync takes every notable reading behind the cursor. */
  lemma PendingIsTheRest(j: Journal, channels: seq<Channel>)
    requires Sound(j, channels)
    ensures var rows := Pending(j.readings, channels, j.cursor);
            && Advanced(j.cursor, rows) >= j.cursor
            && rows == Filter(j.readings, NotableBetween(j.cursor, Advanced(j.cursor, rows)))
            && (forall r | r in j.readings && IsNotable(r) :: r.id <= Advanced(j.cursor, rows))
  {
    var rows := Pending(j.readings, channels, j.cursor);
    FilterMembers(j.readings, Joined(channels, j.cursor));
    FilterKeepsGrowing(j.readings, Joined(channels, j.cursor));
    if rows != [] {
      assert rows[|rows| - 1] in rows;
    }
    forall r | r in j.readings && IsNotable(r) ensures r.id <= Advanced(j.cursor, rows) {
      if r.id > j.cursor {
        assert r in rows;
        var i :| 0 <= i < |rows| && rows[i] == r;
      }
    }
    CountCongruence(j.readings, Joined(channels, j.cursor), NotableBetween(j.cursor, Advanced(j.cursor, rows)));
  }

  lemma SyncKeepsCovers(j: Journal, channels: seq<Channel>, now: int)
    requires Sound(j, channels)
    ensures Covers(Synced(j, channels, now), channels)
  {
    var rows := Pending(j.readings, channels, j.cursor);
    var next := Synced(j, channels, now);
    PendingIsTheRest(j, channels);
    assert rows[..|rows|] == rows;
    SplitAtCursor(j.readings, j.cursor, next.cursor);
    var done := Filter(j.readings, NotableUpTo(j.cursor));
    assert Filter(j.readings, NotableUpTo(next.cursor)) == done + rows;
  }

  lemma SyncKeepsSound(j: Journal, channels: seq<Channel>, now: int)
    requires Sound(j, channels)
    ensures Sound(Synced(j, channels, now), channels)
  {
    var rows := Pending(j.readings, channels, j.cursor);
    SyncKeepsCovers(j, channels, now);
    FilterMembers(j.readings, Joined(channels, j.cursor));
    if rows != [] {
      assert rows[|rows| - 1] in rows;
    }
  }

  /** Right after a sync the events are those of all notable readings. */
  lemma SyncLeavesNothing(j: Journal, channels: seq<Channel>, now: int)
    requires Sound(j, channels)
    ensures Filter(j.readings, NotableUpTo(Synced(j, channels, now).cursor)) == Filter(j.readings, IsNotable)
  {
    PendingIsTheRest(j, channels);
    CountCongruence(j.readings, NotableUpTo(Synced(j, channels, now).cursor), IsNotable);
  }

  function FromReading(id: nat): Event -> bool {
    (e: Event) => e.reading == id
  }

  function WithId(id: nat): Reading -> bool {
    (r: Reading) => r.id == id
  }

  lemma {:induction false} CountById(rows: seq<Reading>, id: nat)
    requires Growing(rows)
    ensures Count(rows, WithId(id)) == if exists r | r in rows :: r.id == id then 1 else 0
  {
    if rows != [] {
      var n := |rows| - 1;
      CountById(rows[..n], id);
      assert rows == rows[..n] + [rows[n]];
      if rows[n].id == id {
        forall r | r in rows[..n] ensures r.id != id {
          var i :| 0 <= i < n && rows[i] == r;
        }
      }
    }
  }

  lemma EventsOfReading(j: Journal, channels: seq<Channel>, id: nat)
    requires Sound(j, channels)
    ensures Count(j.events, FromReading(id)) == Count(Filter(j.readings, NotableUpTo(j.cursor)), WithId(id))
  {
    var done := Filter(j.readings, NotableUpTo(j.cursor));
    forall k | 0 <= k < |done| ensures j.events[k].reading == done[k].id {
      assert j.events[k].(risk := None).reading == EventOf(done[k], channels, j.events[k].ingested).reading;
    }
    CountsAgree(j.events, FromReading(id), done, WithId(id));
  }

  /** A sync leaves exactly one event for every notable reading and none for the others. */
  lemma SyncedReading(j: Journal, channels: seq<Channel>, now: int, r: Reading)
    requires Sound(j, channels) && r in j.readings
    ensures Count(Synced(j, channels, now).events, FromReading(r.id)) == if IsNotable(r) then 1 else 0
  {
    SyncKeepsSound(j, channels, now);
    SyncLeavesNothing(j, channels, now);
    EventsOfReading(Synced(j, channels, now), channels, r.id);
    OneNotableWithId(j.readings, r);
  }

  lemma OneNotableWithId(readings: seq<Reading>, r: Reading)
    requires Growing(readings) && r in readings
    ensures Count(Filter(readings, IsNotable), WithId(r.id)) == if IsNotable(r) then 1 else 0
  {
    FilterKeepsGrowing(readings, IsNotable);
    CountById(Filter(readings, IsNotable), r.id);
    FilterMembers(readings, IsNotable);
    if !IsNotable(r) {
      forall q | q in Filter(readings, IsNotable) ensures q.id != r.id {
        if q.id == r.id {
          SameIdSameReading(readings, q, r);
        }
      }
    }
  }

  lemma SameIdSameReading(readings: seq<Reading>, a: Reading, b: Reading)
    requires Growing(readings) && a in readings && b in readings && a.id == b.id
    ensures a == b
  {
    var i :| 0 <= i < |readings| && readings[i] == a;
    var k :| 0 <= k < |readings| && readings[k] == b;
  }

  // What holds however the channel table changes between the syncs.

  ghost predicate IdsAscend(events: seq<Event>) {
    forall i, k | 0 <= i < k < |events| :: Before(events[i].id, events[k].id)
  }

  ghost predicate Numbered(e: Event, cursor: nat) {
    e.id == I.EventId(e.reading) && e.reading <= cursor && e.reading < I.BOUND
  }

  ghost predicate InOrder(j: Journal) {
    && Growing(j.readings) && (forall r | r in j.readings :: 0 < r.id < I.BOUND)
    && (j.cursor == 0 || exists r | r in j.readings :: r.id == j.cursor)
    && (forall k | 0 <= k < |j.events| :: Numbered(j.events[k], j.cursor))
    && (forall i, k | 0 <= i < k < |j.events| :: j.events[i].reading < j.events[k].reading)
  }

  lemma PendingBounds(j: Journal, channels: seq<Channel>)
    requires InOrder(j)
    ensures var rows := Pending(j.readings, channels, j.cursor);
            && Growing(rows) && j.cursor <= Advanced(j.cursor, rows)
            && (rows != [] ==> rows[|rows| - 1] in j.readings)
            && forall k | 0 <= k < |rows| :: j.cursor < rows[k].id < I.BOUND && rows[k].id <= Advanced(j.cursor, rows)
  {
    var rows := Pending(j.readings, channels, j.cursor);
    FilterMembers(j.readings, Joined(channels, j.cursor));
    FilterKeepsGrowing(j.readings, Joined(channels, j.cursor));
    forall k | 0 <= k < |rows| ensures rows[k] in j.readings && j.cursor < rows[k].id {
      assert rows[k] in rows;
    }
  }

  lemma SyncKeepsInOrder(j: Journal, channels: seq<Channel>, now: int)
    requires InOrder(j)
    ensures InOrder(Synced(j, channels, now))
  {
    var rows := Pending(j.readings, channels, j.cursor);
    assert rows[..|rows|] == rows;
    PendingBounds(j, channels);
    EventsInOrder(j.events, EventsOf(rows, channels, now), j.cursor);
  }

  lemma EventsInOrder(events: seq<Event>, more: seq<Event>, cursor: nat)
    requires forall k | 0 <= k < |events| :: events[k].reading <= cursor
    requires forall k | 0 <= k < |more| :: more[k].reading > cursor
    requires forall i, k | 0 <= i < k < |events| :: events[i].reading < events[k].reading
    requires forall i, k | 0 <= i < k < |more| :: more[i].reading < more[k].reading
    ensures forall i, k | 0 <= i < k < |events + more| :: (events + more)[i].reading < (events + more)[k].reading
  {
  }

  lemma InsertKeepsInOrder(j: Journal, r: Reading)
    requires InOrder(j) && 0 < r.id < I.BOUND && forall q | q in j.readings :: q.id < r.id
    ensures InOrder(Inserted(j, r))
  {
    InsertKeepsGrowing(j.readings, r);
    if j.cursor > 0 {
      var q :| q in j.readings && q.id == j.cursor;
      assert q in Inserted(j, r).readings;
    }
  }

  /** The journal stays in id order, so that other tables may use the id as a cursor. */
  lemma InOrderAscends(j: Journal)
    requires InOrder(j)
    ensures IdsAscend(j.events)
  {
    forall i, k | 0 <= i < k < |j.events| ensures Before(j.events[i].id, j.events[k].id) {
      assert Numbered(j.events[i], j.cursor) && Numbered(j.events[k], j.cursor);
      I.IdsEmbedTheOrder(j.events[i].reading, j.events[k].reading);
    }
  }

  /** A reading has at most one event. */
  lemma {:induction false} InOrderCountsOnce(events: seq<Event>, id: nat)
    requires forall i, k | 0 <= i < k < |events| :: events[i].reading < events[k].reading
    ensures Count(events, FromReading(id)) <= 1
  {
    if events != [] {
      var n := |events| - 1;
      InOrderCountsOnce(events[..n], id);
      if events[n].reading == id {
        forall e | e in events[..n] ensures !FromReading(id)(e) {
          var i :| 0 <= i < n && events[i] == e;
        }
        CountNone(events[..n], FromReading(id));
      }
    }
  }

  /** A sync gives a reading one more event exactly if it is joined: notable, behind the cursor, and of a known channel. */
  lemma SyncTakesIff(j: Journal, channels: seq<Channel>, now: int, r: Reading)
    requires InOrder(j) && r in j.readings
    ensures Count(Synced(j, channels, now).events, FromReading(r.id))
         == Count(j.events, FromReading(r.id)) + (if Joined(channels, j.cursor)(r) then 1 else 0)
  {
    var rows := Pending(j.readings, channels, j.cursor);
    assert rows[..|rows|] == rows;
    var more := EventsOf(rows, channels, now);
    CountAppend(j.events, more, FromReading(r.id));
    CountsAgree(more, FromReading(r.id), rows, WithId(r.id));
    FilterKeepsGrowing(j.readings, Joined(channels, j.cursor));
    CountById(rows, r.id);
    FilterMembers(j.readings, Joined(channels, j.cursor));
    if q :| q in rows && q.id == r.id {
      SameIdSameReading(j.readings, q, r);
    }
  }

  /** Events are of readings up to the cursor, so a reading behind it has none. */
  lemma NoEventBehindTheCursor(j: Journal, id: nat)
    requires InOrder(j) && id > j.cursor
    ensures Count(j.events, FromReading(id)) == 0
  {
    forall e | e in j.events ensures !FromReading(id)(e) {
      var k :| 0 <= k < |j.events| && j.events[k] == e;
      assert Numbered(j.events[k], j.cursor);
    }
    CountNone(j.events, FromReading(id));
  }

  /** A notable reading ahead of the cursor that a sync will pass without taking it: its channel is unknown, a later one's is not. */
  ghost predicate WillBeLost(j: Journal, channels: seq<Channel>, r: Reading) {
    && r in j.readings && IsNotable(r) && r.id > j.cursor && ChannelOf(channels, r.channel).None?
    && exists q | q in j.readings :: q.id > r.id && Joined(channels, j.cursor)(q)
  }

  /** Of the readings ahead of the cursor, a sync passes exactly those it takes and those it loses. */
  lemma SyncPassesIff(j: Journal, channels: seq<Channel>, now: int, r: Reading)
    requires InOrder(j) && r in j.readings && IsNotable(r) && r.id > j.cursor
    ensures r.id <= Synced(j, channels, now).cursor <==> Joined(channels, j.cursor)(r) || WillBeLost(j, channels, r)
  {
    var rows := Pending(j.readings, channels, j.cursor);
    assert rows[..|rows|] == rows;
    PendingBounds(j, channels);
    FilterMembers(j.readings, Joined(channels, j.cursor));
    var cursor := Synced(j, channels, now).cursor;
    if r.id <= cursor && !Joined(channels, j.cursor)(r) {
      var q := rows[|rows| - 1];
      assert q in rows;
      if q.id == r.id {
        SameIdSameReading(j.readings, q, r);
      }
    }
    if q :| q in j.readings && q.id >= r.id && Joined(channels, j.cursor)(q) {
      var i :| 0 <= i < |rows| && rows[i] == q;
    }
  }

  const EARLY: Reading := Reading(1, "a", 0, true, false, "")
  const LATE: Reading := Reading(2, "b", 0, true, false, "")
  const ONLY_B: seq<Channel> := [Channel("pk_b", "b", "", "", None)]

  /** Such a journal: two readings, the first of a channel that is not in the table. */
  lemma SomeReadingWillBeLost()
    ensures InOrder(Journal([EARLY, LATE], [], 0)) && WillBeLost(Journal([EARLY, LATE], [], 0), ONLY_B, EARLY)
  {
    assert [EARLY, LATE][0] == EARLY && [EARLY, LATE][1] == LATE;
    assert ONLY_B[1..] == [];
    assert LATE.id > EARLY.id && Joined(ONLY_B, 0)(LATE);
  }
}
