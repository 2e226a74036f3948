/**
 * Turning not-yet-evaluated events into risks: batches behind an id cursor, one group per sensor, one predictor call per
 * group. The predictor is an arbitrary function of the call and its number, and may fail.
 */
module RiskSync {
  import opened Lists
  import opened Text
  import E = EventSync

  datatype Verdict = Failed | NoAlert | Alert

  datatype Call = Call(sensor: string, riskType: string, asOf: int, events: seq<string>, alarms: nat, faults: nat, windowHours: real)

  datatype Risk = Risk(id: nat, riskType: string, sensor: string, facility: Option<string>, asOf: int)

  datatype Tally = Tally(created: nat, skipped: nat, noAlert: nat, missing: nat)

  /** Random risk ids are modelled as fresh numbers. */
  datatype Ledger = Ledger(events: seq<E.Event>, risks: seq<Risk>, calls: seq<Call>, tally: Tally)

  type Predictor = (nat, Call) -> Verdict

  type BatchSize = n: nat | n > 0 witness 1

  function RiskTypeFor(system: string): string {
    if system == "fire_protection" then "fire"
    else if system == "security" then "unauthorized_access"
    else if system == "diagnostic" then "flooding"
    else "sensor_failure"
  }

  function ByPk(channels: seq<E.Channel>, pk: string): Option<E.Channel> {
    if channels == [] then None
    else if channels[0].pk == pk then Some(channels[0])
    else ByPk(channels[1..], pk)
  }

  lemma {:induction false} ByPkFinds(channels: seq<E.Channel>, pk: string)
    ensures ByPk(channels, pk).Some? ==> ByPk(channels, pk).value in channels && ByPk(channels, pk).value.pk == pk
    ensures ByPk(channels, pk).None? ==> forall c | c in channels :: c.pk != pk
  {
    if channels != [] {
      ByPkFinds(channels[1..], pk);
      assert channels == [channels[0]] + channels[1..];
    }
  }

  // Groups.

  /** The sensors of a batch in order of first appearance, as the keys of the group dictionary. */
  function SensorsOf(rows: seq<E.Event>): seq<string> {
    if rows == [] then []
    else
      var before, sensor := SensorsOf(rows[..|rows| - 1]), rows[|rows| - 1].sensor;
      if sensor in before then before else before + [sensor]
  }

  lemma {:induction false} SensorsAreThose(rows: seq<E.Event>)
    ensures forall e | e in rows :: e.sensor in SensorsOf(rows)
    ensures forall i, k | 0 <= i < k < |SensorsOf(rows)| :: SensorsOf(rows)[i] != SensorsOf(rows)[k]
  {
    if rows != [] {
      SensorsAreThose(rows[..|rows| - 1]);
      assert rows == rows[..|rows| - 1] + [rows[|rows| - 1]];
    }
  }

  function OfSensor(sensor: string): E.Event -> bool {
    (e: E.Event) => e.sensor == sensor
  }

  function GroupOf(rows: seq<E.Event>, sensor: string): seq<E.Event> {
    Filter(rows, OfSensor(sensor))
  }

  function IdsOf(rows: seq<E.Event>): (ids: seq<string>)
    ensures |ids| == |rows|
  {
    seq(|rows|, k requires 0 <= k < |rows| => rows[k].id)
  }

  lemma IdsMembers(rows: seq<E.Event>, id: string)
    ensures id in IdsOf(rows) <==> exists e | e in rows :: e.id == id
  {
    if id in IdsOf(rows) {
      var k :| 0 <= k < |rows| && rows[k].id == id;
      assert rows[k] in rows;
    }
    if e :| e in rows && e.id == id {
      var k :| 0 <= k < |rows| && rows[k] == e;
      assert IdsOf(rows)[k] == id;
    }
  }

  function InState(state: E.EventState): E.Event -> bool {
    (e: E.Event) => e.state == state
  }

  function Span(rows: seq<E.Event>): int {
    if |rows| <= 1 then 0
    else LastOf(rows) - FirstOf(rows)
  }

  function FirstOf(rows: seq<E.Event>): int
    requires rows != []
  {
    if |rows| == 1 then rows[0].occurred
    else
      var before, t := FirstOf(rows[..|rows| - 1]), rows[|rows| - 1].occurred;
      if t < before then t else before
  }

  function LastOf(rows: seq<E.Event>): int
    requires rows != []
  {
    if |rows| == 1 then rows[0].occurred
    else
      var before, t := LastOf(rows[..|rows| - 1]), rows[|rows| - 1].occurred;
      if t > before then t else before
  }

  /** At least one hour. */
  function WindowHours(rows: seq<E.Event>): real {
    var hours := Span(rows) as real / 3_600_000_000.0;
    if hours > 1.0 then hours else 1.0
  }

  function CallFor(sensor: string, channel: E.Channel, now: int, group: seq<E.Event>): Call {
    Call(sensor, RiskTypeFor(channel.system), now, IdsOf(group),
         Count(group, InState(E.Alarm)), Count(group, InState(E.Fault)), WindowHours(group))
  }

  function HoursBetween(a: E.Event, b: E.Event): real {
    (a.occurred - b.occurred) as real / 3_600_000_000.0
  }

  lemma {:induction false} Extremes(rows: seq<E.Event>) returns (first: E.Event, last: E.Event)
    requires rows != []
    ensures first in rows && first.occurred == FirstOf(rows) && last in rows && last.occurred == LastOf(rows)
    ensures forall e | e in rows :: first.occurred <= e.occurred <= last.occurred
  {
    var n := |rows| - 1;
    first, last := rows[n], rows[n];
    if n > 0 {
      var a, b := Extremes(rows[..n]);
      first := if rows[n].occurred < a.occurred then rows[n] else a;
      last := if rows[n].occurred > b.occurred then rows[n] else b;
    }
    assert rows == rows[..n] + [rows[n]];
  }

  lemma LongerSpan(a: int, b: int)
    requires a <= b
    ensures a as real / 3_600_000_000.0 <= b as real / 3_600_000_000.0
  {
  }

  /** The window is at least an hour, spans every two events of the group, and is no longer than that. */
  lemma WindowSpansTheGroup(rows: seq<E.Event>)
    requires rows != []
    ensures WindowHours(rows) >= 1.0
    ensures forall a, b | a in rows && b in rows :: HoursBetween(a, b) <= WindowHours(rows)
    ensures WindowHours(rows) == 1.0 || exists a, b | a in rows && b in rows :: HoursBetween(a, b) == WindowHours(rows)
  {
    var first, last := Extremes(rows);
    forall x, y | x in rows && y in rows ensures HoursBetween(x, y) <= WindowHours(rows) {
      LongerSpan(x.occurred - y.occurred, Span(rows));
    }
    assert HoursBetween(last, first) == Span(rows) as real / 3_600_000_000.0;
  }

  /** Every event of a group is counted as an alarm or as a fault. */
  lemma {:induction false} StatesAddUp(rows: seq<E.Event>)
    ensures Count(rows, InState(E.Alarm)) + Count(rows, InState(E.Fault)) == |IdsOf(rows)|
  {
    if rows != [] {
      StatesAddUp(rows[..|rows| - 1]);
    }
  }

  /** `event.related_risk_id = risk_id` for the events of one group. */
  function Link(events: seq<E.Event>, ids: seq<string>, risk: nat): (linked: seq<E.Event>)
    ensures |linked| == |events|
  {
    seq(|events|, k requires 0 <= k < |events| => if events[k].id in ids then events[k].(risk := Some(risk)) else events[k])
  }

  // One group, one batch, all batches.

  function Evaluate(l: Ledger, channels: seq<E.Channel>, predict: Predictor, now: int, sensor: string, group: seq<E.Event>): Ledger {
    var c := ByPk(channels, sensor);
    if c.None? then l.(tally := l.tally.(missing := l.tally.missing + 1))
    else
      var call := CallFor(sensor, c.value, now, group);
      var asked := l.(calls := l.calls + [call]);
      match predict(|l.calls|, call)
      case Failed => asked.(tally := l.tally.(skipped := l.tally.skipped + 1))
      case NoAlert => asked.(tally := l.tally.(noAlert := l.tally.noAlert + 1))
      case Alert =>
        asked.(risks := l.risks + [Risk(|l.risks|, RiskTypeFor(c.value.system), sensor, c.value.facility, now)],
               events := Link(l.events, IdsOf(group), |l.risks|),
               tally := l.tally.(created := l.tally.created + 1))
  }

  function EvaluateAll(l: Ledger, channels: seq<E.Channel>, predict: Predictor, now: int, rows: seq<E.Event>, sensors: seq<string>): Ledger
    decreases |sensors|
  {
    if sensors == [] then l
    else
      var n := |sensors| - 1;
      Evaluate(EvaluateAll(l, channels, predict, now, rows, sensors[..n]), channels, predict, now, sensors[n], GroupOf(rows, sensors[n]))
  }

  function EvaluateBatch(l: Ledger, channels: seq<E.Channel>, predict: Predictor, now: int, rows: seq<E.Event>): Ledger {
    EvaluateAll(l, channels, predict, now, rows, SensorsOf(rows))
  }

  function EvaluateBatches(l: Ledger, channels: seq<E.Channel>, predict: Predictor, now: int, pending: seq<E.Event>, batch: BatchSize): Ledger
    decreases |pending|
  {
    if pending == [] then l
    else
      var n := if |pending| > batch then batch else |pending|;
      EvaluateBatches(EvaluateBatch(l, channels, predict, now, pending[..n]), channels, predict, now, pending[n..], batch)
  }

  function Unlinked(cursor: string): E.Event -> bool {
    (e: E.Event) => Before(cursor, e.id) && e.risk.None?
  }

  function Pending(events: seq<E.Event>, cursor: string): seq<E.Event> {
    Filter(events, Unlinked(cursor))
  }

  function Advanced(cursor: string, rows: seq<E.Event>): string {
    if rows == [] then cursor else rows[|rows| - 1].id
  }

  function Total(t: Tally): nat {
    t.created + t.skipped + t.noAlert + t.missing
  }

  // Every group ends in exactly one of the four outcomes; the other counters follow the tables.

  lemma {:induction false} GroupsAreAccountedFor(l: Ledger, channels: seq<E.Channel>, predict: Predictor, now: int, rows: seq<E.Event>, sensors: seq<string>)
    ensures var after := EvaluateAll(l, channels, predict, now, rows, sensors);
            && Total(after.tally) == Total(l.tally) + |sensors|
            && |after.risks| - |l.risks| == after.tally.created - l.tally.created
            && |after.calls| - |l.calls| == |sensors| - (after.tally.missing - l.tally.missing)
    decreases |sensors|
  {
    if sensors != [] {
      GroupsAreAccountedFor(l, channels, predict, now, rows, sensors[..|sensors| - 1]);
    }
  }

  // Calls: how often an event id reaches the predictor.

  function Mentions(id: string): string -> bool {
    (x: string) => x == id
  }

  function Reached(calls: seq<Call>, id: string): nat {
    if calls == [] then 0 else Reached(calls[..|calls| - 1], id) + Count(calls[|calls| - 1].events, Mentions(id))
  }

  lemma ReachedSnoc(calls: seq<Call>, call: Call, id: string)
    ensures Reached(calls + [call], id) == Reached(calls, id) + Count(call.events, Mentions(id))
  {
    assert (calls + [call])[..|calls|] == calls;
  }

  ghost predicate DistinctIds(rows: seq<E.Event>) {
    forall i, k | 0 <= i < k < |rows| :: rows[i].id != rows[k].id
  }

  ghost predicate Has(rows: seq<E.Event>, sensor: string, id: string) {
    exists e | e in rows :: e.id == id && e.sensor == sensor
  }

  lemma HasSnoc(rows: seq<E.Event>, sensor: string, id: string)
    requires rows != []
    ensures var n := |rows| - 1;
            Has(rows, sensor, id) <==> Has(rows[..n], sensor, id) || (rows[n].id == id && rows[n].sensor == sensor)
  {
    var n := |rows| - 1;
    assert rows == rows[..n] + [rows[n]];
  }

  lemma NoneBefore(rows: seq<E.Event>, sensor: string)
    requires DistinctIds(rows) && rows != []
    ensures !Has(rows[..|rows| - 1], sensor, rows[|rows| - 1].id)
  {
    var n := |rows| - 1;
    forall e | e in rows[..n] ensures e.id != rows[n].id {
      var k :| 0 <= k < n && rows[k] == e;
    }
  }

  /** A group names an event of its sensor once, and no other. */
  lemma {:induction false} GroupMentions(rows: seq<E.Event>, sensor: string, id: string)
    requires DistinctIds(rows)
    ensures Count(IdsOf(GroupOf(rows, sensor)), Mentions(id)) == if Has(rows, sensor, id) then 1 else 0
  {
    if rows != [] {
      var n := |rows| - 1;
      GroupMentions(rows[..n], sensor, id);
      HasSnoc(rows, sensor, id);
      NoneBefore(rows, sensor);
      var group := GroupOf(rows[..n], sensor);
      if rows[n].sensor == sensor {
        assert GroupOf(rows, sensor) == group + [rows[n]];
        assert IdsOf(group + [rows[n]]) == IdsOf(group) + [rows[n].id];
        CountSnoc(IdsOf(group), rows[n].id, Mentions(id));
      } else {
        assert GroupOf(rows, sensor) == group;
      }
    }
  }

  ghost predicate AskedAs(channels: seq<E.Channel>, rows: seq<E.Event>, sensor: string, id: string) {
    ByPk(channels, sensor).Some? && Has(rows, sensor, id)
  }

  ghost predicate Asked(channels: seq<E.Channel>, rows: seq<E.Event>, sensors: seq<string>, id: string) {
    exists s | s in sensors :: AskedAs(channels, rows, s, id)
  }

  lemma OneSensorPerId(rows: seq<E.Event>, a: string, b: string, id: string)
    requires DistinctIds(rows) && Has(rows, a, id) && Has(rows, b, id)
    ensures a == b
  {
    var x :| x in rows && x.id == id && x.sensor == a;
    var y :| y in rows && y.id == id && y.sensor == b;
    var i :| 0 <= i < |rows| && rows[i] == x;
    var k :| 0 <= k < |rows| && rows[k] == y;
  }

  lemma AskedSnoc(channels: seq<E.Channel>, rows: seq<E.Event>, sensors: seq<string>, id: string)
    requires sensors != [] && DistinctIds(rows) && forall i, k | 0 <= i < k < |sensors| :: sensors[i] != sensors[k]
    ensures var n := |sensors| - 1;
            && (Asked(channels, rows, sensors, id) <==> Asked(channels, rows, sensors[..n], id) || AskedAs(channels, rows, sensors[n], id))
            && (AskedAs(channels, rows, sensors[n], id) ==> !Asked(channels, rows, sensors[..n], id))
  {
    var n := |sensors| - 1;
    assert sensors == sensors[..n] + [sensors[n]];
    if AskedAs(channels, rows, sensors[n], id) {
      forall s | s in sensors[..n] ensures !AskedAs(channels, rows, s, id) {
        var k :| 0 <= k < n && sensors[k] == s;
        if Has(rows, s, id) {
          OneSensorPerId(rows, s, sensors[n], id);
        }
      }
    }
  }

  lemma EvaluateReaches(l: Ledger, channels: seq<E.Channel>, predict: Predictor, now: int, rows: seq<E.Event>, sensor: string, id: string)
    requires DistinctIds(rows)
    ensures Reached(Evaluate(l, channels, predict, now, sensor, GroupOf(rows, sensor)).calls, id)
         == Reached(l.calls, id) + (if AskedAs(channels, rows, sensor, id) then 1 else 0)
  {
    var c, group := ByPk(channels, sensor), GroupOf(rows, sensor);
    if c.Some? {
      ReachedSnoc(l.calls, CallFor(sensor, c.value, now, group), id);
      GroupMentions(rows, sensor, id);
    }
  }

  /** Evaluating the groups takes each event of the batch to the predictor once, if its channel is still there. */
  lemma {:induction false} EachEventIsAskedOnce(l: Ledger, channels: seq<E.Channel>, predict: Predictor, now: int,
                                                rows: seq<E.Event>, sensors: seq<string>, id: string)
    requires DistinctIds(rows) && forall i, k | 0 <= i < k < |sensors| :: sensors[i] != sensors[k]
    ensures Reached(EvaluateAll(l, channels, predict, now, rows, sensors).calls, id)
         == Reached(l.calls, id) + (if Asked(channels, rows, sensors, id) then 1 else 0)
    decreases |sensors|
  {
    if sensors != [] {
      var n := |sensors| - 1;
      EachEventIsAskedOnce(l, channels, predict, now, rows, sensors[..n], id);
      EvaluateReaches(EvaluateAll(l, channels, predict, now, rows, sensors[..n]), channels, predict, now, rows, sensors[n], id);
      AskedSnoc(channels, rows, sensors, id);
    }
  }

  // Links.

  /** Every linked event points at an existing risk of its own sensor. */
  ghost predicate LinksOk(events: seq<E.Event>, risks: seq<Risk>) {
    && (forall k | 0 <= k < |risks| :: risks[k].id == k)
    && forall k | 0 <= k < |events| :: LinkOk(events[k], risks)
  }

  ghost predicate LinkOk(e: E.Event, risks: seq<Risk>) {
    e.risk.Some? ==> e.risk.value < |risks| && risks[e.risk.value].sensor == e.sensor
  }

  /** The rows are snapshots of events of the table. */
  ghost predicate Snapshot(events: seq<E.Event>, rows: seq<E.Event>) {
    forall k, e | 0 <= k < |events| && e in rows && events[k].id == e.id :: events[k].sensor == e.sensor
  }

  /** Same events, except that those named in `ids` may have got another risk. */
  ghost predicate OnlyLinksOf(before: seq<E.Event>, after: seq<E.Event>, rows: seq<E.Event>) {
    && |before| == |after|
    && forall k | 0 <= k < |before| ::
         && after[k].(risk := None) == before[k].(risk := None)
         && (before[k].id !in IdsOf(rows) ==> after[k] == before[k])
  }

  lemma EvaluateKeepsLinks(l: Ledger, channels: seq<E.Channel>, predict: Predictor, now: int, rows: seq<E.Event>, sensor: string)
    requires LinksOk(l.events, l.risks) && Snapshot(l.events, rows)
    ensures var after := Evaluate(l, channels, predict, now, sensor, GroupOf(rows, sensor));
            && LinksOk(after.events, after.risks) && OnlyLinksOf(l.events, after.events, rows)
  {
    var group := GroupOf(rows, sensor);
    var after := Evaluate(l, channels, predict, now, sensor, group);
    FilterMembers(rows, OfSensor(sensor));
    forall k | 0 <= k < |l.events|
      ensures l.events[k].id in IdsOf(group) ==> l.events[k].sensor == sensor && l.events[k].id in IdsOf(rows)
      ensures LinkOk(l.events[k], l.risks)
    {
      IdsMembers(group, l.events[k].id);
      IdsMembers(rows, l.events[k].id);
    }
  }

  lemma {:induction false} EvaluateAllKeepsLinks(l: Ledger, channels: seq<E.Channel>, predict: Predictor, now: int,
                                                 rows: seq<E.Event>, sensors: seq<string>)
    requires LinksOk(l.events, l.risks) && Snapshot(l.events, rows)
    ensures var after := EvaluateAll(l, channels, predict, now, rows, sensors);
            && LinksOk(after.events, after.risks) && OnlyLinksOf(l.events, after.events, rows)
    decreases |sensors|
  {
    if sensors != [] {
      var n := |sensors| - 1;
      EvaluateAllKeepsLinks(l, channels, predict, now, rows, sensors[..n]);
      var before := EvaluateAll(l, channels, predict, now, rows, sensors[..n]);
      SnapshotStays(l.events, before.events, rows);
      EvaluateKeepsLinks(before, channels, predict, now, rows, sensors[n]);
    }
  }

  lemma SnapshotStays(before: seq<E.Event>, after: seq<E.Event>, rows: seq<E.Event>)
    requires Snapshot(before, rows) && OnlyLinksOf(before, after, rows)
    ensures Snapshot(after, rows)
  {
    forall k, e | 0 <= k < |after| && e in rows && after[k].id == e.id ensures after[k].sensor == e.sensor {
      assert after[k].(risk := None).id == before[k].(risk := None).id;
      assert after[k].(risk := None).sensor == before[k].(risk := None).sensor;
    }
  }

  // The cursor.

  /** The state between two batches: events in id order, links and calls only up to the cursor, no id called twice. */
  ghost predicate RegisterOk(l: Ledger, cursor: string) {
    && E.IdsAscend(l.events) && LinksOk(l.events, l.risks)
    && (forall k | 0 <= k < |l.events| :: LinkedByCursor(l.events[k], cursor))
    && (forall id :: CalledByCursor(l.calls, cursor, id))
  }

  ghost predicate LinkedByCursor(e: E.Event, cursor: string) {
    e.risk.Some? ==> AtMost(e.id, cursor)
  }

  ghost predicate CalledByCursor(calls: seq<Call>, cursor: string, id: string) {
    Reached(calls, id) <= 1 && (Reached(calls, id) > 0 ==> AtMost(id, cursor))
  }

  lemma {:induction false} FilterKeepsAscending(events: seq<E.Event>, p: E.Event -> bool)
    requires E.IdsAscend(events)
    ensures E.IdsAscend(Filter(events, p))
  {
    if events != [] {
      var n := |events| - 1;
      FilterKeepsAscending(events[..n], p);
      FilterMembers(events[..n], p);
      var front := Filter(events[..n], p);
      forall i | 0 <= i < |front| ensures Before(front[i].id, events[n].id) {
        assert front[i] in front;
        var j :| 0 <= j < n && events[j] == front[i];
      }
    }
  }

  lemma AscendingIsDistinct(rows: seq<E.Event>)
    requires E.IdsAscend(rows)
    ensures DistinctIds(rows)
  {
    forall i, k | 0 <= i < k < |rows| ensures rows[i].id != rows[k].id {
      BeforeIsIrreflexive(rows[i].id);
    }
  }

  lemma AscendingSnapshot(events: seq<E.Event>, rows: seq<E.Event>)
    requires E.IdsAscend(events) && forall e | e in rows :: e in events
    ensures Snapshot(events, rows)
  {
    AscendingIsDistinct(events);
    forall k, e | 0 <= k < |events| && e in rows && events[k].id == e.id ensures events[k].sensor == e.sensor {
      SameIdSameEvent(events, events[k], e);
    }
  }

  lemma SameIdSameEvent(rows: seq<E.Event>, a: E.Event, b: E.Event)
    requires DistinctIds(rows) && a in rows && b in rows && a.id == b.id
    ensures a == b
  {
    var i :| 0 <= i < |rows| && rows[i] == a;
    var k :| 0 <= k < |rows| && rows[k] == b;
  }

  /** The first n pending rows, and what is known about them. */
  ghost predicate IsBatch(events: seq<E.Event>, cursor: string, rows: seq<E.Event>) {
    && rows != [] && E.IdsAscend(rows)
    && (forall e | e in rows :: e in events && e.risk.None? && Before(cursor, e.id) && AtMost(e.id, Advanced(cursor, rows)))
  }

  lemma PrefixIsBatch(events: seq<E.Event>, cursor: string, n: nat)
    requires E.IdsAscend(events) && 0 < n <= |Pending(events, cursor)|
    ensures IsBatch(events, cursor, Pending(events, cursor)[..n])
  {
    var pending := Pending(events, cursor);
    FilterMembers(events, Unlinked(cursor));
    FilterKeepsAscending(events, Unlinked(cursor));
    forall e | e in pending[..n] ensures e in events && e.risk.None? && Before(cursor, e.id) && AtMost(e.id, pending[n - 1].id) {
      var k :| 0 <= k < n && pending[k] == e;
      assert pending[k] in pending;
    }
  }

  function Later(cursor: string): E.Event -> bool {
    (e: E.Event) => Before(cursor, e.id)
  }

  lemma LaterIff(rows: seq<E.Event>, n: nat, k: nat)
    requires E.IdsAscend(rows) && 0 < n <= |rows| && k < |rows|
    ensures Before(rows[n - 1].id, rows[k].id) <==> k >= n
  {
    if k == n - 1 {
      BeforeIsIrreflexive(rows[k].id);
    } else if k < n - 1 {
      BeforeIsAsymmetric(rows[k].id, rows[n - 1].id);
    }
  }

  lemma AscendingTail(rows: seq<E.Event>, n: nat)
    requires E.IdsAscend(rows) && 0 < n <= |rows|
    ensures Filter(rows, Later(rows[n - 1].id)) == rows[n..]
  {
    forall k: nat | k < |rows| ensures Later(rows[n - 1].id)(rows[k]) <==> k >= n {
      LaterIff(rows, n, k);
    }
    FilterSuffix(rows, n, Later(rows[n - 1].id));
  }

  /** Asking again behind the batch gives the rows after it. */
  lemma PendingAfter(events: seq<E.Event>, cursor: string, n: nat)
    requires E.IdsAscend(events) && 0 < n <= |Pending(events, cursor)|
    ensures Pending(events, Pending(events, cursor)[n - 1].id) == Pending(events, cursor)[n..]
  {
    var pending := Pending(events, cursor);
    var next := pending[n - 1].id;
    FilterMembers(events, Unlinked(cursor));
    FilterKeepsAscending(events, Unlinked(cursor));
    AscendingTail(pending, n);
    assert pending[n - 1] in pending;
    forall e | e in events ensures Unlinked(next)(e) == (Unlinked(cursor)(e) && Later(next)(e)) {
      if Before(next, e.id) {
        BeforeIsTransitive(cursor, next, e.id);
      }
    }
    FilterFilter(events, Unlinked(cursor), Later(next), Unlinked(next));
  }

  lemma {:induction false} FilterPointwise(a: seq<E.Event>, b: seq<E.Event>, p: E.Event -> bool)
    requires |a| == |b| && forall k | 0 <= k < |a| :: p(a[k]) == p(b[k]) && (p(a[k]) ==> a[k] == b[k])
    ensures Filter(a, p) == Filter(b, p)
  {
    if a != [] {
      FilterPointwise(a[..|a| - 1], b[..|b| - 1], p);
    }
  }

  lemma LinksDoNotDisturb(before: seq<E.Event>, after: seq<E.Event>, cursor: string, rows: seq<E.Event>)
    requires OnlyLinksOf(before, after, rows) && IsBatch(before, cursor, rows)
    ensures Pending(after, Advanced(cursor, rows)) == Pending(before, Advanced(cursor, rows))
  {
    var next := Advanced(cursor, rows);
    forall k | 0 <= k < |before| && Before(next, before[k].id) ensures before[k].id !in IdsOf(rows) {
      IdsMembers(rows, before[k].id);
      if before[k].id in IdsOf(rows) {
        NotBeyond(next, before[k].id);
      }
    }
    forall k | 0 <= k < |before| ensures after[k].id == before[k].id {
      assert after[k].(risk := None).id == before[k].(risk := None).id;
    }
    FilterPointwise(after, before, Unlinked(next));
  }

  lemma NotBeyond(cursor: string, id: string)
    ensures AtMost(id, cursor) ==> !Before(cursor, id)
  {
    BeforeIsIrreflexive(id);
    if Before(id, cursor) {
      BeforeIsAsymmetric(id, cursor);
    }
  }

  lemma BatchKeepsLinks(l: Ledger, cursor: string, channels: seq<E.Channel>, predict: Predictor, now: int, rows: seq<E.Event>)
    requires RegisterOk(l, cursor) && IsBatch(l.events, cursor, rows)
    ensures var after := EvaluateBatch(l, channels, predict, now, rows);
            && OnlyLinksOf(l.events, after.events, rows) && LinksOk(after.events, after.risks) && E.IdsAscend(after.events)
            && forall k | 0 <= k < |after.events| :: LinkedByCursor(after.events[k], Advanced(cursor, rows))
  {
    AscendingSnapshot(l.events, rows);
    EvaluateAllKeepsLinks(l, channels, predict, now, rows, SensorsOf(rows));
    var after := EvaluateBatch(l, channels, predict, now, rows);
    forall k | 0 <= k < |after.events|
      ensures after.events[k].id == l.events[k].id && LinkedByCursor(after.events[k], Advanced(cursor, rows))
    {
      assert after.events[k].(risk := None).id == l.events[k].(risk := None).id;
      LinkStays(l.events[k], after.events[k], cursor, rows);
    }
  }

  lemma LinkStays(before: E.Event, after: E.Event, cursor: string, rows: seq<E.Event>)
    requires rows != [] && forall e | e in rows :: Before(cursor, e.id) && AtMost(e.id, Advanced(cursor, rows))
    requires LinkedByCursor(before, cursor) && after.id == before.id && (before.id !in IdsOf(rows) ==> after == before)
    ensures LinkedByCursor(after, Advanced(cursor, rows))
  {
    IdsMembers(rows, before.id);
    assert rows[|rows| - 1] in rows;
    if Before(before.id, cursor) {
      BeforeIsTransitive(before.id, cursor, Advanced(cursor, rows));
    }
  }

  lemma BatchKeepsCalls(l: Ledger, cursor: string, channels: seq<E.Channel>, predict: Predictor, now: int, rows: seq<E.Event>, id: string)
    requires RegisterOk(l, cursor) && IsBatch(l.events, cursor, rows)
    ensures CalledByCursor(EvaluateBatch(l, channels, predict, now, rows).calls, Advanced(cursor, rows), id)
  {
    AscendingIsDistinct(rows);
    SensorsAreThose(rows);
    EachEventIsAskedOnce(l, channels, predict, now, rows, SensorsOf(rows), id);
    assert CalledByCursor(l.calls, cursor, id);
    assert rows[|rows| - 1] in rows;
    if Before(id, cursor) {
      BeforeIsTransitive(id, cursor, Advanced(cursor, rows));
    }
    if Asked(channels, rows, SensorsOf(rows), id) {
      var s :| s in SensorsOf(rows) && AskedAs(channels, rows, s, id);
      var e :| e in rows && e.id == id && e.sensor == s;
      NotBeyond(cursor, id);
    }
  }

  /** One batch keeps the register in order and moves the cursor to its last row. */
  lemma BatchKeepsRegister(l: Ledger, cursor: string, channels: seq<E.Channel>, predict: Predictor, now: int, n: nat)
    requires RegisterOk(l, cursor) && 0 < n <= |Pending(l.events, cursor)|
    ensures var rows := Pending(l.events, cursor)[..n];
            var after := EvaluateBatch(l, channels, predict, now, rows);
            && RegisterOk(after, Advanced(cursor, rows))
            && Pending(after.events, Advanced(cursor, rows)) == Pending(l.events, cursor)[n..]
  {
    var rows := Pending(l.events, cursor)[..n];
    PrefixIsBatch(l.events, cursor, n);
    BatchKeepsLinks(l, cursor, channels, predict, now, rows);
    var after := EvaluateBatch(l, channels, predict, now, rows);
    forall id ensures CalledByCursor(after.calls, Advanced(cursor, rows), id) {
      BatchKeepsCalls(l, cursor, channels, predict, now, rows, id);
    }
    LinksDoNotDisturb(l.events, after.events, cursor, rows);
    PendingAfter(l.events, cursor, n);
  }

  ghost predicate SameButLinks(before: seq<E.Event>, after: seq<E.Event>) {
    && |before| == |after|
    && forall k | 0 <= k < |before| :: LinkAdded(before[k], after[k])
  }

  /** An event may get a risk once; a risk it has stays. */
  ghost predicate LinkAdded(before: E.Event, after: E.Event) {
    after.(risk := None) == before.(risk := None) && (before.risk.Some? ==> after == before)
  }

  lemma BatchOnlyAddsLinks(l: Ledger, cursor: string, channels: seq<E.Channel>, predict: Predictor, now: int, rows: seq<E.Event>)
    requires RegisterOk(l, cursor) && IsBatch(l.events, cursor, rows)
    ensures SameButLinks(l.events, EvaluateBatch(l, channels, predict, now, rows).events)
  {
    BatchKeepsLinks(l, cursor, channels, predict, now, rows);
    forall k | 0 <= k < |l.events| && l.events[k].risk.Some? ensures l.events[k].id !in IdsOf(rows) {
      IdsMembers(rows, l.events[k].id);
      NotBeyond(cursor, l.events[k].id);
      assert LinkedByCursor(l.events[k], cursor);
    }
  }

  lemma LinksAddUp(a: seq<E.Event>, b: seq<E.Event>, c: seq<E.Event>)
    requires SameButLinks(a, b) && SameButLinks(b, c)
    ensures SameButLinks(a, c)
  {
    forall k | 0 <= k < |a| ensures LinkAdded(a[k], c[k]) {
      assert LinkAdded(a[k], b[k]) && LinkAdded(b[k], c[k]);
    }
  }

  /** What the batches still to come will make of the register, and where they will leave the cursor. */
  function Remaining(l: Ledger, channels: seq<E.Channel>, cursor: string, batch: BatchSize, predict: Predictor, now: int): Ledger
  {
    EvaluateBatches(l, channels, predict, now, Pending(l.events, cursor), batch)
  }

  function Destination(l: Ledger, cursor: string): string {
    Advanced(cursor, Pending(l.events, cursor))
  }

  function Least(a: nat, b: nat): nat {
    if a < b then a else b
  }

  lemma OneBatchFirst(l: Ledger, channels: seq<E.Channel>, predict: Predictor, now: int, pending: seq<E.Event>, batch: BatchSize, n: nat)
    requires pending != [] && n == Least(batch, |pending|)
    ensures EvaluateBatches(l, channels, predict, now, pending, batch)
         == EvaluateBatches(EvaluateBatch(l, channels, predict, now, pending[..n]), channels, predict, now, pending[n..], batch)
  {
  }

  lemma AdvancedInSteps(cursor: string, pending: seq<E.Event>, n: nat)
    requires 0 < n <= |pending|
    ensures Advanced(cursor, pending[..n]) == pending[n - 1].id
    ensures Advanced(pending[n - 1].id, pending[n..]) == Advanced(cursor, pending)
  {
  }

  /** One batch leaves the outcome of the sync as it was going to be. */
  lemma BatchIsAStep(l: Ledger, channels: seq<E.Channel>, cursor: string, batch: BatchSize, predict: Predictor, now: int)
    requires RegisterOk(l, cursor) && Pending(l.events, cursor) != []
    ensures var pending := Pending(l.events, cursor);
            var n := Least(batch, |pending|);
            var next, to := EvaluateBatch(l, channels, predict, now, pending[..n]), pending[n - 1].id;
            && RegisterOk(next, to) && SameButLinks(l.events, next.events)
            && |Pending(next.events, to)| == |pending| - n
            && Remaining(next, channels, to, batch, predict, now) == Remaining(l, channels, cursor, batch, predict, now)
            && Destination(next, to) == Destination(l, cursor)
  {
    var pending := Pending(l.events, cursor);
    var n := Least(batch, |pending|);
    PrefixIsBatch(l.events, cursor, n);
    BatchKeepsRegister(l, cursor, channels, predict, now, n);
    BatchOnlyAddsLinks(l, cursor, channels, predict, now, pending[..n]);
    OneBatchFirst(l, channels, predict, now, pending, batch, n);
    AdvancedInSteps(cursor, pending, n);
  }

  /** All batches of a sync together: the register stays in order, links are only added, and nothing is left behind the cursor. */
  lemma {:induction false} BatchesKeepRegister(l: Ledger, channels: seq<E.Channel>, cursor: string, batch: BatchSize, predict: Predictor, now: int)
    requires RegisterOk(l, cursor)
    ensures var after := Remaining(l, channels, cursor, batch, predict, now);
            && RegisterOk(after, Destination(l, cursor)) && SameButLinks(l.events, after.events)
            && Pending(after.events, Destination(l, cursor)) == []
    decreases |Pending(l.events, cursor)|
  {
    var pending := Pending(l.events, cursor);
    if pending != [] {
      var n := Least(batch, |pending|);
      var next := EvaluateBatch(l, channels, predict, now, pending[..n]);
      BatchIsAStep(l, channels, cursor, batch, predict, now);
      BatchesKeepRegister(next, channels, pending[n - 1].id, batch, predict, now);
      LinksAddUp(l.events, next.events, Remaining(l, channels, cursor, batch, predict, now).events);
    }
  }

  ghost predicate AskedIn(channels: seq<E.Channel>, rows: seq<E.Event>, id: string) {
    exists e | e in rows :: e.id == id && ByPk(channels, e.sensor).Some?
  }

  lemma AskedInBatch(channels: seq<E.Channel>, rows: seq<E.Event>, id: string)
    ensures Asked(channels, rows, SensorsOf(rows), id) <==> AskedIn(channels, rows, id)
  {
    SensorsAreThose(rows);
    if e :| e in rows && e.id == id && ByPk(channels, e.sensor).Some? {
      assert AskedAs(channels, rows, e.sensor, id);
    }
  }

  lemma AskedInSplit(channels: seq<E.Channel>, rows: seq<E.Event>, n: nat, id: string)
    requires DistinctIds(rows) && n <= |rows|
    ensures AskedIn(channels, rows, id) <==> AskedIn(channels, rows[..n], id) || AskedIn(channels, rows[n..], id)
    ensures AskedIn(channels, rows[..n], id) ==> !AskedIn(channels, rows[n..], id)
  {
    assert rows == rows[..n] + rows[n..];
    if AskedIn(channels, rows[..n], id) {
      var a :| a in rows[..n] && a.id == id;
      var i :| 0 <= i < n && rows[i] == a;
      forall b | b in rows[n..] ensures b.id != id {
        var k :| n <= k < |rows| && rows[k] == b;
      }
    }
  }

  /** During a sync every pending event whose channel is still there reaches the predictor exactly once, and no other does. */
  lemma {:induction false} SyncAsksEachEventOnce(l: Ledger, channels: seq<E.Channel>, predict: Predictor, now: int,
                                                 pending: seq<E.Event>, batch: BatchSize, id: string)
    requires DistinctIds(pending)
    ensures Reached(EvaluateBatches(l, channels, predict, now, pending, batch).calls, id)
         == Reached(l.calls, id) + (if AskedIn(channels, pending, id) then 1 else 0)
    decreases |pending|
  {
    if pending != [] {
      var n := if |pending| > batch then batch else |pending|;
      var rows := pending[..n];
      SensorsAreThose(rows);
      EachEventIsAskedOnce(l, channels, predict, now, rows, SensorsOf(rows), id);
      AskedInBatch(channels, rows, id);
      SyncAsksEachEventOnce(EvaluateBatch(l, channels, predict, now, rows), channels, predict, now, pending[n..], batch, id);
      AskedInSplit(channels, pending, n, id);
    }
  }

  // The service call.

  class RiskRegister {
    const journal: E.EventJournal
    var risks: seq<Risk>
    var calls: seq<Call>
    var cursor: string

    constructor (journal: E.EventJournal)
      ensures this.journal == journal && risks == [] && calls == [] && cursor == ""
    {
      this.journal := journal;
      risks, calls, cursor := [], [], "";
    }

    ghost function State(tally: Tally): Ledger
      reads this, journal
    {
      Ledger(journal.events, risks, calls, tally)
    }

    /** One group: find the channel, ask the predictor, and store and link a risk if it alerts. */
    method EvaluateGroup(predict: Predictor, now: int, sensor: string, group: seq<E.Event>, tally: Tally) returns (next: Tally)
      modifies `risks, `calls, journal`events
      ensures State(next) == Evaluate(old(State(tally)), journal.channels, predict, now, sensor, group)
      ensures Follows(old(State(tally)), State(next), journal.channels, predict, now)
    {
      GroupFollows(State(tally), journal.channels, predict, now, sensor, group);
      var channel := ByPk(journal.channels, sensor);
      if channel.None? {
        return tally.(missing := tally.missing + 1);
      }
      var call := CallFor(sensor, channel.value, now, group);
      var verdict := predict(|calls|, call);
      calls := calls + [call];
      if verdict.Failed? {
        return tally.(skipped := tally.skipped + 1);
      }
      if verdict.NoAlert? {
        return tally.(noAlert := tally.noAlert + 1);
      }
      var id := |risks|;
      risks := risks + [Risk(id, call.riskType, sensor, channel.value.facility, now)];
      journal.events := Link(journal.events, IdsOf(group), id);
      next := tally.(created := tally.created + 1);
    }

    /** The group dictionary of one batch, and its groups one after the other. */
    method EvaluateRows(predict: Predictor, now: int, rows: seq<E.Event>, tally: Tally) returns (next: Tally)
      modifies `risks, `calls, journal`events
      ensures State(next) == EvaluateBatch(old(State(tally)), journal.channels, predict, now, rows)
    {
      var sensors, groups := GroupBySensor(rows);
      next := tally;
      for k := 0 to |sensors|
        invariant State(next) == EvaluateAll(old(State(tally)), journal.channels, predict, now, rows, sensors[..k])
      {
        assert sensors[..k + 1][..k] == sensors[..k];
        next := EvaluateGroup(predict, now, sensors[k], groups[sensors[k]], next);
      }
      assert sensors[..|sensors|] == sensors;
    }

    /** One turn of the loop. */
    method SyncBatch(batch: BatchSize, predict: Predictor, now: int, tally: Tally) returns (n: nat, next: Tally)
      requires RegisterOk(State(tally), cursor)
      modifies `risks, `calls, `cursor, journal`events
      ensures n == Least(batch, |Pending(old(journal.events), old(cursor))|)
      ensures RegisterOk(State(next), cursor)
      ensures |Pending(journal.events, cursor)| == |Pending(old(journal.events), old(cursor))| - n
      ensures Remaining(State(next), journal.channels, cursor, batch, predict, now)
           == Remaining(old(State(tally)), journal.channels, old(cursor), batch, predict, now)
      ensures Destination(State(next), cursor) == Destination(old(State(tally)), old(cursor))
    {
      var pending := Pending(journal.events, cursor);
      n, next := Least(batch, |pending|), tally;
      if n == 0 {
        return;
      }
      BatchIsAStep(State(tally), journal.channels, cursor, batch, predict, now);
      next := EvaluateRows(predict, now, pending[..n], tally);
      cursor := pending[n - 1].id;
    }

    /** One sync: first the events, then batch after batch behind the cursor. */
    method SyncRisks(batch: BatchSize, predict: Predictor, now: int) returns (tally: Tally)
      requires E.InOrder(journal.State())
      requires RegisterOk(State(NOTHING), cursor)
      modifies this, journal`events, journal`cursor
      ensures journal.cursor == E.Synced(old(journal.State()), journal.channels, now).cursor
      ensures var l := WithSyncedEvents(old(State(NOTHING)), old(journal.State()), journal.channels, now);
              && State(tally) == Remaining(l, journal.channels, old(cursor), batch, predict, now)
              && cursor == Destination(l, old(cursor))
              && Follows(l, State(tally), journal.channels, predict, now)
    {
      ghost var l := WithSyncedEvents(State(NOTHING), journal.State(), journal.channels, now);
      ghost var marks := E.Synced(journal.State(), journal.channels, now).cursor;
      NewEventsKeepRegister(journal.State(), journal.channels, State(NOTHING), cursor, now);
      SyncFollowsTheCalls(l, journal.channels, predict, now, Pending(l.events, cursor), batch);
      var count := journal.SyncEvents(batch, now);
      tally := NOTHING;
      while true
        invariant RegisterOk(State(tally), cursor)
        invariant Remaining(State(tally), journal.channels, cursor, batch, predict, now) == Remaining(l, journal.channels, old(cursor), batch, predict, now)
        invariant Destination(State(tally), cursor) == Destination(l, old(cursor))
        invariant journal.cursor == marks
        decreases |Pending(journal.events, cursor)|
      {
        var n;
        n, tally := SyncBatch(batch, predict, now, tally);
        if n < batch {
          break;
        }
      }
    }
  }

  function WithSyncedEvents(l: Ledger, j: E.Journal, channels: seq<E.Channel>, now: int): Ledger {
    l.(events := E.Synced(j, channels, now).events)
  }

  const NOTHING: Tally := Tally(0, 0, 0, 0)

  lemma NewEventsKeepRegister(j: E.Journal, channels: seq<E.Channel>, l: Ledger, cursor: string, now: int)
    requires RegisterOk(l, cursor) && l.events == j.events && E.InOrder(j)
    ensures RegisterOk(WithSyncedEvents(l, j, channels, now), cursor)
  {
    E.SyncKeepsInOrder(j, channels, now);
    E.InOrderAscends(E.Synced(j, channels, now));
    forall id ensures CalledByCursor(l.calls, cursor, id) {
    }
  }

  method GroupBySensor(rows: seq<E.Event>) returns (sensors: seq<string>, groups: map<string, seq<E.Event>>)
    ensures sensors == SensorsOf(rows)
    ensures forall s | s in sensors :: s in groups && groups[s] == GroupOf(rows, s)
  {
    sensors, groups := [], map[];
    for i := 0 to |rows|
      invariant sensors == SensorsOf(rows[..i])
      invariant forall s :: s in sensors <==> s in groups
      invariant forall s | s in groups :: groups[s] == GroupOf(rows[..i], s)
    {
      var sensor := rows[i].sensor;
      assert rows[..i + 1][..i] == rows[..i];
      GroupIsNew(rows[..i], sensor);
      if sensor !in groups {
        sensors := sensors + [sensor];
        groups := groups[sensor := []];
      }
      groups := groups[sensor := groups[sensor] + [rows[i]]];
    }
    assert rows[..|rows|] == rows;
  }

  lemma GroupIsNew(rows: seq<E.Event>, sensor: string)
    ensures sensor !in SensorsOf(rows) ==> GroupOf(rows, sensor) == []
  {
    SensorsAreThose(rows);
    if sensor !in SensorsOf(rows) {
      CountNone(rows, OfSensor(sensor));
      FilterMembers(rows, OfSensor(sensor));
    }
  }

  // Accounting over a whole sync.

  function GroupsSeen(pending: seq<E.Event>, batch: BatchSize): nat
    decreases |pending|
  {
    if pending == [] then 0
    else
      var n := Least(batch, |pending|);
      |SensorsOf(pending[..n])| + GroupsSeen(pending[n..], batch)
  }

  /** Groups seen = created + skipped + without alert + without channel; created risks and calls are exactly the new rows. */
  lemma {:induction false} SyncAccountsForEveryGroup(l: Ledger, channels: seq<E.Channel>, predict: Predictor, now: int,
                                                     pending: seq<E.Event>, batch: BatchSize)
    ensures var after := EvaluateBatches(l, channels, predict, now, pending, batch);
            && Total(after.tally) - Total(l.tally) == GroupsSeen(pending, batch)
            && |after.risks| - |l.risks| == after.tally.created - l.tally.created
            && |after.calls| - |l.calls| == GroupsSeen(pending, batch) - (after.tally.missing - l.tally.missing)
    decreases |pending|
  {
    if pending != [] {
      var n := Least(batch, |pending|);
      GroupsAreAccountedFor(l, channels, predict, now, pending[..n], SensorsOf(pending[..n]));
      SyncAccountsForEveryGroup(EvaluateBatch(l, channels, predict, now, pending[..n]), channels, predict, now, pending[n..], batch);
    }
  }

  // Runs: readings arrive, the channel table changes, and both syncs happen, in any order.

  datatype World = World(journal: E.Journal, channels: seq<E.Channel>, risks: seq<Risk>, calls: seq<Call>, cursor: string)

  datatype Step =
    | Insert(reading: E.Reading)
    | Catalogue(channels: seq<E.Channel>)
    | SyncEvents(now: int)
    | SyncRisks(batch: BatchSize, predict: Predictor, now: int)

  function LedgerOf(w: World): Ledger {
    Ledger(w.journal.events, w.risks, w.calls, NOTHING)
  }

  function Do(w: World, step: Step): World {
    match step
    case Insert(reading) => w.(journal := E.Inserted(w.journal, reading))
    case Catalogue(channels) => w.(channels := channels)
    case SyncEvents(now) => w.(journal := E.Synced(w.journal, w.channels, now))
    case SyncRisks(batch, predict, now) => AfterSync(w, batch, predict, now)
  }

  function AfterSync(w: World, batch: BatchSize, predict: Predictor, now: int): World {
    var l := WithSyncedEvents(LedgerOf(w), w.journal, w.channels, now);
    var after := Remaining(l, w.channels, w.cursor, batch, predict, now);
    World(E.Journal(w.journal.readings, after.events, E.Synced(w.journal, w.channels, now).cursor), w.channels,
          after.risks, after.calls, Destination(l, w.cursor))
  }

  function Run(w: World, steps: seq<Step>): World
    decreases |steps|
  {
    if steps == [] then w else Do(Run(w, steps[..|steps| - 1]), steps[|steps| - 1])
  }

  function Start(channels: seq<E.Channel>): World {
    World(E.Start(), channels, [], [], "")
  }

  /** Reading ids come from a growing positive counter below 10^12; the real column is a 32-bit integer. */
  ghost predicate Legal(w: World, steps: seq<Step>)
    decreases |steps|
  {
    steps == [] ||
    (var n := |steps| - 1;
     && Legal(w, steps[..n])
     && (steps[n].Insert? ==> NewId(Run(w, steps[..n]).journal, steps[n].reading)))
  }

  ghost predicate NewId(j: E.Journal, r: E.Reading) {
    0 < r.id < E.I.BOUND && forall q | q in j.readings :: q.id < r.id
  }

  ghost predicate WorldOk(w: World) {
    E.InOrder(w.journal) && RegisterOk(LedgerOf(w), w.cursor)
  }

  lemma LinksKeepInOrder(j: E.Journal, events: seq<E.Event>)
    requires E.InOrder(j) && SameButLinks(j.events, events)
    ensures E.InOrder(j.(events := events))
  {
    forall k | 0 <= k < |events| ensures events[k].reading == j.events[k].reading && events[k].id == j.events[k].id {
      assert LinkAdded(j.events[k], events[k]);
      assert events[k].(risk := None).reading == j.events[k].(risk := None).reading;
      assert events[k].(risk := None).id == j.events[k].(risk := None).id;
    }
    forall k | 0 <= k < |events| ensures E.Numbered(events[k], j.cursor) {
      assert E.Numbered(j.events[k], j.cursor);
    }
  }

  lemma SyncRisksKeepsWorld(w: World, batch: BatchSize, predict: Predictor, now: int)
    requires WorldOk(w)
    ensures WorldOk(AfterSync(w, batch, predict, now))
    ensures SameButLinks(E.Synced(w.journal, w.channels, now).events, AfterSync(w, batch, predict, now).journal.events)
    ensures Pending(AfterSync(w, batch, predict, now).journal.events, AfterSync(w, batch, predict, now).cursor) == []
  {
    var l := WithSyncedEvents(LedgerOf(w), w.journal, w.channels, now);
    NewEventsKeepRegister(w.journal, w.channels, LedgerOf(w), w.cursor, now);
    BatchesKeepRegister(l, w.channels, w.cursor, batch, predict, now);
    E.SyncKeepsInOrder(w.journal, w.channels, now);
    LinksKeepInOrder(E.Synced(w.journal, w.channels, now), AfterSync(w, batch, predict, now).journal.events);
    TallyDoesNotMatter(Remaining(l, w.channels, w.cursor, batch, predict, now), Destination(l, w.cursor));
  }

  lemma TallyDoesNotMatter(l: Ledger, cursor: string)
    requires RegisterOk(l, cursor)
    ensures RegisterOk(l.(tally := NOTHING), cursor)
  {
    forall id ensures CalledByCursor(l.calls, cursor, id) {
    }
  }

  /** On every run, the journal stays in id order, links are sound, and calls and links stop at the cursor. */
  lemma {:induction false} RunKeepsWorld(channels: seq<E.Channel>, steps: seq<Step>)
    requires Legal(Start(channels), steps)
    ensures WorldOk(Run(Start(channels), steps))
    decreases |steps|
  {
    if steps != [] {
      var n := |steps| - 1;
      RunKeepsWorld(channels, steps[..n]);
      DoKeepsWorld(Run(Start(channels), steps[..n]), steps[n]);
    }
  }

  lemma DoKeepsWorld(w: World, step: Step)
    requires WorldOk(w) && (step.Insert? ==> NewId(w.journal, step.reading))
    ensures WorldOk(Do(w, step))
  {
    match step {
      case Insert(reading) => E.InsertKeepsInOrder(w.journal, reading);
      case Catalogue(_) =>
      case SyncEvents(now) =>
        E.SyncKeepsInOrder(w.journal, w.channels, now);
        NewEventsKeepRegister(w.journal, w.channels, LedgerOf(w), w.cursor, now);
      case SyncRisks(batch, predict, now) =>
        SyncRisksKeepsWorld(w, batch, predict, now);
    }
  }

  /** However the steps are interleaved, no reading has two events. */
  lemma NoReadingHasTwoEvents(channels: seq<E.Channel>, steps: seq<Step>, id: nat)
    requires Legal(Start(channels), steps)
    ensures Count(Run(Start(channels), steps).journal.events, E.FromReading(id)) <= 1
  {
    RunKeepsWorld(channels, steps);
    E.InOrderCountsOnce(Run(Start(channels), steps).journal.events, id);
  }

  /** However the steps are interleaved, no event reaches the predictor twice. */
  lemma NoEventIsAskedTwice(channels: seq<E.Channel>, steps: seq<Step>, id: string)
    requires Legal(Start(channels), steps)
    ensures Reached(Run(Start(channels), steps).calls, id) <= 1
  {
    RunKeepsWorld(channels, steps);
    assert CalledByCursor(Run(Start(channels), steps).calls, Run(Start(channels), steps).cursor, id);
  }

  /** However the steps are interleaved, a linked event has one existing risk, and that risk is of its own sensor. */
  lemma LinkedEventsHaveTheirRisk(channels: seq<E.Channel>, steps: seq<Step>, k: nat)
    requires Legal(Start(channels), steps) && k < |Run(Start(channels), steps).journal.events|
    ensures var w := Run(Start(channels), steps);
            w.journal.events[k].risk.Some? ==>
              && w.journal.events[k].risk.value < |w.risks|
              && w.risks[w.journal.events[k].risk.value].id == w.journal.events[k].risk.value
              && w.risks[w.journal.events[k].risk.value].sensor == w.journal.events[k].sensor
  {
    RunKeepsWorld(channels, steps);
    assert LinkOk(Run(Start(channels), steps).journal.events[k], Run(Start(channels), steps).risks);
  }

  // With a fixed catalogue that knows every channel, the events are those of the notable readings in their order.

  ghost predicate Known(w: World, steps: seq<Step>)
    decreases |steps|
  {
    steps == [] ||
    (var n := |steps| - 1;
     && Known(w, steps[..n]) && !steps[n].Catalogue?
     && (steps[n].Insert? ==> E.MayInsert(Run(w, steps[..n]).journal, w.channels, steps[n].reading)))
  }

  lemma LinksKeepSound(j: E.Journal, channels: seq<E.Channel>, events: seq<E.Event>)
    requires E.Sound(j, channels) && SameButLinks(j.events, events)
    ensures E.Sound(j.(events := events), channels)
  {
    var done := Filter(j.readings, E.NotableUpTo(j.cursor));
    forall k | 0 <= k < |done| ensures events[k].(risk := None) == E.EventOf(done[k], channels, events[k].ingested) {
      assert LinkAdded(j.events[k], events[k]);
      assert events[k].(risk := None).ingested == j.events[k].(risk := None).ingested;
    }
  }

  /** On every run, the k-th event is that of the k-th notable reading up to the cursor. */
  lemma {:induction false} KnownRunIsSound(channels: seq<E.Channel>, steps: seq<Step>)
    requires Known(Start(channels), steps)
    ensures Legal(Start(channels), steps)
    ensures Run(Start(channels), steps).channels == channels && E.Sound(Run(Start(channels), steps).journal, channels)
    decreases |steps|
  {
    if steps != [] {
      var n := |steps| - 1;
      KnownRunIsSound(channels, steps[..n]);
      var w := Run(Start(channels), steps[..n]);
      match steps[n] {
        case Insert(reading) => E.InsertKeepsSound(w.journal, channels, reading);
        case SyncEvents(now) => E.SyncKeepsSound(w.journal, channels, now);
        case SyncRisks(batch, predict, now) =>
          RunKeepsWorld(channels, steps[..n]);
          SyncRisksKeepsWorld(w, batch, predict, now);
          E.SyncKeepsSound(w.journal, channels, now);
          LinksKeepSound(E.Synced(w.journal, channels, now), channels, AfterSync(w, batch, predict, now).journal.events);
        case Catalogue(_) => assert false;
      }
    }
  }

  // Which readings get an event, on runs in which the catalogue changes arbitrarily.

  lemma LinksKeepCounts(before: seq<E.Event>, after: seq<E.Event>, id: nat)
    requires SameButLinks(before, after)
    ensures Count(after, E.FromReading(id)) == Count(before, E.FromReading(id))
  {
    forall k | 0 <= k < |before| ensures after[k].reading == before[k].reading {
      assert LinkAdded(before[k], after[k]);
      assert after[k].(risk := None).reading == before[k].(risk := None).reading;
    }
    CountsAgree(after, E.FromReading(id), before, E.FromReading(id));
  }

  predicate IsSync(step: Step) {
    step.SyncEvents? || step.SyncRisks?
  }

  /** The step is a sync that finds the reading notable, ahead of the cursor, and of a known channel. */
  ghost predicate Takes(w: World, step: Step, r: E.Reading) {
    IsSync(step) && r in w.journal.readings && E.Joined(w.channels, w.journal.cursor)(r)
  }

  lemma StepTakesIff(w: World, step: Step, r: E.Reading)
    requires WorldOk(w) && (step.Insert? ==> NewId(w.journal, step.reading)) && r in Do(w, step).journal.readings
    ensures Count(Do(w, step).journal.events, E.FromReading(r.id))
         == Count(w.journal.events, E.FromReading(r.id)) + (if Takes(w, step, r) then 1 else 0)
    ensures w.journal.cursor <= Do(w, step).journal.cursor
    ensures Takes(w, step, r) ==> r.id <= Do(w, step).journal.cursor
  {
    if IsSync(step) {
      E.SyncTakesIff(w.journal, w.channels, step.now, r);
      E.PendingBounds(w.journal, w.channels);
      FilterMembers(w.journal.readings, E.Joined(w.channels, w.journal.cursor));
      var synced, rows := E.Synced(w.journal, w.channels, step.now), E.Pending(w.journal.readings, w.channels, w.journal.cursor);
      assert rows[..|rows|] == rows;
      if step.SyncRisks? {
        SyncRisksKeepsWorld(w, step.batch, step.predict, step.now);
        LinksKeepCounts(synced.events, AfterSync(w, step.batch, step.predict, step.now).journal.events, r.id);
      }
    }
  }

  ghost predicate TakenAt(channels: seq<E.Channel>, steps: seq<Step>, k: nat, r: E.Reading)
    requires k < |steps|
  {
    Takes(Run(Start(channels), steps[..k]), steps[k], r)
  }

  ghost predicate Taken(channels: seq<E.Channel>, steps: seq<Step>, r: E.Reading) {
    exists k: nat :: k < |steps| && TakenAt(channels, steps, k, r)
  }

  lemma TakenSnoc(channels: seq<E.Channel>, steps: seq<Step>, r: E.Reading)
    requires steps != []
    ensures var n := |steps| - 1;
            Taken(channels, steps, r) <==> Taken(channels, steps[..n], r) || TakenAt(channels, steps, n, r)
  {
    var n := |steps| - 1;
    forall k: nat | k < n ensures TakenAt(channels, steps, k, r) == TakenAt(channels, steps[..n], k, r) {
      assert steps[..n][..k] == steps[..k];
    }
    if k: nat :| k < n && TakenAt(channels, steps[..n], k, r) {
      assert TakenAt(channels, steps, k, r);
    }
    if k: nat :| k < |steps| && TakenAt(channels, steps, k, r) {
      if k < n {
        assert TakenAt(channels, steps[..n], k, r);
      }
    }
  }

  /** A sync can only take readings that are there. */
  lemma {:induction false} TakenIsThere(channels: seq<E.Channel>, steps: seq<Step>, r: E.Reading)
    requires Taken(channels, steps, r)
    ensures r in Run(Start(channels), steps).journal.readings
    decreases |steps|
  {
    TakenSnoc(channels, steps, r);
    if Taken(channels, steps[..|steps| - 1], r) {
      TakenIsThere(channels, steps[..|steps| - 1], r);
    }
  }

  /** On every run, a reading has an event exactly if some sync ran while it was notable, ahead of the cursor and of a known channel. */
  lemma {:induction false} ReadingHasEventIff(channels: seq<E.Channel>, steps: seq<Step>, r: E.Reading)
    requires Legal(Start(channels), steps) && r in Run(Start(channels), steps).journal.readings
    ensures Count(Run(Start(channels), steps).journal.events, E.FromReading(r.id)) == if Taken(channels, steps, r) then 1 else 0
    decreases |steps|
  {
    if steps != [] {
      var n := |steps| - 1;
      var w := Run(Start(channels), steps[..n]);
      RunKeepsWorld(channels, steps[..n]);
      StepTakesIff(w, steps[n], r);
      TakenSnoc(channels, steps, r);
      NoReadingHasTwoEvents(channels, steps, r.id);
      if r in w.journal.readings {
        ReadingHasEventIff(channels, steps[..n], r);
      } else {
        InsertedIsBehind(w, r);
        if Taken(channels, steps[..n], r) {
          TakenIsThere(channels, steps[..n], r);
        }
      }
    }
  }

  lemma InsertedIsBehind(w: World, r: E.Reading)
    requires WorldOk(w) && NewId(w.journal, r)
    ensures r !in w.journal.readings && Count(w.journal.events, E.FromReading(r.id)) == 0
  {
    E.NoEventBehindTheCursor(w.journal, r.id);
  }

  lemma RunSnoc(w: World, steps: seq<Step>, step: Step)
    ensures Run(w, steps + [step]) == Do(Run(w, steps), step)
    ensures Legal(w, steps + [step]) <==> Legal(w, steps) && (step.Insert? ==> NewId(Run(w, steps).journal, step.reading))
  {
    var all := steps + [step];
    assert all[..|all| - 1] == steps && all[|all| - 1] == step;
  }

  lemma LastOfMore(steps: seq<Step>, more: seq<Step>)
    requires more != []
    ensures steps + more == (steps + more[..|more| - 1]) + [more[|more| - 1]]
  {
  }

  /** Whatever happens later, the catalogue included, a reading that the cursor has passed gains no event. */
  lemma {:induction false} PassedReadingsGainNothing(channels: seq<E.Channel>, steps: seq<Step>, more: seq<Step>, r: E.Reading)
    requires Legal(Start(channels), steps + more)
    requires r in Run(Start(channels), steps).journal.readings && r.id <= Run(Start(channels), steps).journal.cursor
    ensures var now, later := Run(Start(channels), steps), Run(Start(channels), steps + more);
            && r in later.journal.readings && r.id <= later.journal.cursor
            && Count(later.journal.events, E.FromReading(r.id)) == Count(now.journal.events, E.FromReading(r.id))
    decreases |more|
  {
    if more == [] {
      assert steps + more == steps;
    } else {
      var front := more[..|more| - 1];
      LastOfMore(steps, more);
      RunSnoc(Start(channels), steps + front, more[|more| - 1]);
      PassedReadingsGainNothing(channels, steps, front, r);
      RunKeepsWorld(channels, steps + front);
      StepTakesIff(Run(Start(channels), steps + front), more[|more| - 1], r);
    }
  }

  // Which readings are lost.

  /** The step is a sync that passes the reading without taking it. */
  ghost predicate Loses(w: World, step: Step, r: E.Reading) {
    IsSync(step) && E.WillBeLost(w.journal, w.channels, r)
  }

  lemma StepPassesIff(w: World, step: Step, r: E.Reading)
    requires WorldOk(w) && r in w.journal.readings && E.IsNotable(r) && r.id > w.journal.cursor
    ensures r.id <= Do(w, step).journal.cursor <==> Takes(w, step, r) || Loses(w, step, r)
  {
    if IsSync(step) {
      E.SyncPassesIff(w.journal, w.channels, step.now, r);
    }
  }

  ghost predicate LostAt(channels: seq<E.Channel>, steps: seq<Step>, k: nat, r: E.Reading)
    requires k < |steps|
  {
    Loses(Run(Start(channels), steps[..k]), steps[k], r)
  }

  ghost predicate Lost(channels: seq<E.Channel>, steps: seq<Step>, r: E.Reading) {
    exists k: nat :: k < |steps| && LostAt(channels, steps, k, r)
  }

  lemma LostSnoc(channels: seq<E.Channel>, steps: seq<Step>, r: E.Reading)
    requires steps != []
    ensures var n := |steps| - 1;
            Lost(channels, steps, r) <==> Lost(channels, steps[..n], r) || LostAt(channels, steps, n, r)
  {
    var n := |steps| - 1;
    forall k: nat | k < n ensures LostAt(channels, steps, k, r) == LostAt(channels, steps[..n], k, r) {
      assert steps[..n][..k] == steps[..k];
    }
    if k: nat :| k < n && LostAt(channels, steps[..n], k, r) {
      assert LostAt(channels, steps, k, r);
    }
    if k: nat :| k < |steps| && LostAt(channels, steps, k, r) {
      if k < n {
        assert LostAt(channels, steps[..n], k, r);
      }
    }
  }

  lemma {:induction false} LostIsThere(channels: seq<E.Channel>, steps: seq<Step>, r: E.Reading)
    requires Lost(channels, steps, r)
    ensures r in Run(Start(channels), steps).journal.readings
    decreases |steps|
  {
    LostSnoc(channels, steps, r);
    if Lost(channels, steps[..|steps| - 1], r) {
      LostIsThere(channels, steps[..|steps| - 1], r);
    }
  }

  /** On every run, the cursor has passed a notable reading without an event exactly if some sync found its channel unknown and a later reading's known. */
  lemma {:induction false} ReadingIsLostIff(channels: seq<E.Channel>, steps: seq<Step>, r: E.Reading)
    requires Legal(Start(channels), steps) && r in Run(Start(channels), steps).journal.readings && E.IsNotable(r)
    ensures var j := Run(Start(channels), steps).journal;
            r.id <= j.cursor && Count(j.events, E.FromReading(r.id)) == 0 <==> Lost(channels, steps, r)
    decreases |steps|
  {
    if steps != [] {
      var n := |steps| - 1;
      var w := Run(Start(channels), steps[..n]);
      RunKeepsWorld(channels, steps[..n]);
      StepTakesIff(w, steps[n], r);
      LostSnoc(channels, steps, r);
      if r in w.journal.readings {
        ReadingIsLostIff(channels, steps[..n], r);
        if r.id > w.journal.cursor {
          E.NoEventBehindTheCursor(w.journal, r.id);
          StepPassesIff(w, steps[n], r);
        }
      } else {
        InsertedIsAhead(w, r);
        if Lost(channels, steps[..n], r) {
          LostIsThere(channels, steps[..n], r);
        }
      }
    }
  }

  lemma InsertedIsAhead(w: World, r: E.Reading)
    requires WorldOk(w) && NewId(w.journal, r)
    ensures r.id > w.journal.cursor
  {
  }

  /** A reading that a sync has lost never becomes an event, whatever is added to the catalogue afterwards. */
  lemma LateChannelLosesTheReading(channels: seq<E.Channel>, steps: seq<Step>, more: seq<Step>, r: E.Reading)
    requires Legal(Start(channels), steps + more) && Lost(channels, steps, r)
    ensures Count(Run(Start(channels), steps + more).journal.events, E.FromReading(r.id)) == 0
  {
    LegalPrefix(Start(channels), steps, more);
    LostIsThere(channels, steps, r);
    LostIsNotable(channels, steps, r);
    ReadingIsLostIff(channels, steps, r);
    PassedReadingsGainNothing(channels, steps, more, r);
  }

  lemma LostIsNotable(channels: seq<E.Channel>, steps: seq<Step>, r: E.Reading)
    requires Lost(channels, steps, r)
    ensures E.IsNotable(r)
  {
    var k: nat :| k < |steps| && LostAt(channels, steps, k, r);
  }

  lemma {:induction false} LegalPrefix(w: World, steps: seq<Step>, more: seq<Step>)
    requires Legal(w, steps + more)
    ensures Legal(w, steps)
    decreases |more|
  {
    if more == [] {
      assert steps + more == steps;
    } else {
      LastOfMore(steps, more);
      RunSnoc(w, steps + more[..|more| - 1], more[|more| - 1]);
      LegalPrefix(w, steps, more[..|more| - 1]);
    }
  }

  lemma TwoInserts(w: World, first: E.Reading, second: E.Reading)
    requires NewId(w.journal, first) && NewId(E.Inserted(w.journal, first), second)
    ensures var steps := ([] + [Insert(first)]) + [Insert(second)];
            && Legal(w, steps) && Run(w, steps).channels == w.channels
            && Run(w, steps).journal == E.Inserted(E.Inserted(w.journal, first), second)
  {
    RunSnoc(w, [], Insert(first));
    RunSnoc(w, [] + [Insert(first)], Insert(second));
  }

  lemma LosingSync(channels: seq<E.Channel>, steps: seq<Step>, sync: Step, r: E.Reading)
    requires Legal(Start(channels), steps) && Loses(Run(Start(channels), steps), sync, r)
    ensures Legal(Start(channels), steps + [sync]) && Lost(channels, steps + [sync], r)
  {
    RunSnoc(Start(channels), steps, sync);
    assert (steps + [sync])[..|steps|] == steps;
    assert LostAt(channels, steps + [sync], |steps|, r);
  }

  /**
   * Such a run: two readings come in and are synced while only the second one's channel is in the catalogue. The writers of
   * the repository keep to the discipline below, so it takes another writer of readings to get there.
   */
  lemma SomeRunLosesAReading()
    ensures exists steps :: Legal(Start(E.ONLY_B), steps) && Lost(E.ONLY_B, steps, E.EARLY)
  {
    TwoInserts(Start(E.ONLY_B), E.EARLY, E.LATE);
    var steps := ([] + [Insert(E.EARLY)]) + [Insert(E.LATE)];
    assert ([] + [E.EARLY]) + [E.LATE] == [E.EARLY, E.LATE];
    E.SomeReadingWillBeLost();
    LosingSync(E.ONLY_B, steps, SyncEvents(0), E.EARLY);
  }

  // The discipline of the writers: a channel is in the catalogue before its first notable reading, and never leaves it.

  ghost predicate Keeps(before: seq<E.Channel>, after: seq<E.Channel>) {
    forall name :: E.ChannelOf(before, name).Some? ==> E.ChannelOf(after, name).Some?
  }

  ghost predicate Careful(w: World, steps: seq<Step>)
    decreases |steps|
  {
    steps == [] ||
    (var n := |steps| - 1;
     var now := Run(w, steps[..n]);
     && Careful(w, steps[..n])
     && (steps[n].Catalogue? ==> Keeps(now.channels, steps[n].channels))
     && (steps[n].Insert? ==> E.MayInsert(now.journal, now.channels, steps[n].reading)))
  }

  lemma {:induction false} CarefulRunKnowsItsChannels(channels: seq<E.Channel>, steps: seq<Step>)
    requires Careful(Start(channels), steps)
    ensures Legal(Start(channels), steps)
    ensures var w := Run(Start(channels), steps);
            forall r | r in w.journal.readings && E.IsNotable(r) :: E.ChannelOf(w.channels, r.channel).Some?
    decreases |steps|
  {
    if steps != [] {
      CarefulRunKnowsItsChannels(channels, steps[..|steps| - 1]);
    }
  }

  lemma {:induction false} CarefulRunLosesNothing(channels: seq<E.Channel>, steps: seq<Step>, r: E.Reading)
    requires Careful(Start(channels), steps)
    ensures !Lost(channels, steps, r)
    decreases |steps|
  {
    if steps != [] {
      CarefulRunLosesNothing(channels, steps[..|steps| - 1], r);
      CarefulRunKnowsItsChannels(channels, steps[..|steps| - 1]);
      LostSnoc(channels, steps, r);
    }
  }

  /** After any such interleaving, the next sync leaves one event for every notable reading and none for the others. */
  lemma EveryNotableReadingBecomesOneEvent(channels: seq<E.Channel>, steps: seq<Step>, sync: Step, r: E.Reading)
    requires Careful(Start(channels), steps) && IsSync(sync) && r in Run(Start(channels), steps).journal.readings
    ensures Count(Do(Run(Start(channels), steps), sync).journal.events, E.FromReading(r.id)) == if E.IsNotable(r) then 1 else 0
  {
    var w := Run(Start(channels), steps);
    CarefulRunKnowsItsChannels(channels, steps);
    RunKeepsWorld(channels, steps);
    StepTakesIff(w, sync, r);
    ReadingHasEventIff(channels, steps, r);
    if E.IsNotable(r) {
      CarefulRunLosesNothing(channels, steps, r);
      ReadingIsLostIff(channels, steps, r);
      if r.id > w.journal.cursor {
        E.NoEventBehindTheCursor(w.journal, r.id);
      }
    }
  }

  // What the predictor's answers leave in the tables, said from the list of calls alone.

  function AlertedAt(predict: Predictor, calls: seq<Call>, c: nat): bool
    requires c < |calls|
  {
    predict(c, calls[c]) == Alert
  }

  /** How many of the calls from `lo` up to n alerted. */
  function Alerts(predict: Predictor, calls: seq<Call>, lo: nat, n: nat): nat
    requires n <= |calls|
  {
    if n <= lo then 0 else Alerts(predict, calls, lo, n - 1) + (if AlertedAt(predict, calls, n - 1) then 1 else 0)
  }

  /** The number of the risk that the last alerting call about this event from `lo` up to n created. */
  function LinkBy(predict: Predictor, calls: seq<Call>, lo: nat, n: nat, base: nat, id: string): Option<nat>
    requires n <= |calls|
  {
    if n <= lo then None
    else if AlertedAt(predict, calls, n - 1) && id in calls[n - 1].events then Some(base + Alerts(predict, calls, lo, n - 1))
    else LinkBy(predict, calls, lo, n - 1, base, id)
  }

  ghost predicate EventFollows(before: E.Event, after: E.Event, link: Option<nat>) {
    after == if link.Some? then before.(risk := link) else before
  }

  /** Between the two states, calls were made, every alerting call created one risk, and linked it to the events it named. */
  ghost predicate Follows(l: Ledger, after: Ledger, channels: seq<E.Channel>, predict: Predictor, now: int) {
    && l.calls <= after.calls && l.risks <= after.risks && |after.events| == |l.events|
    && |after.risks| == |l.risks| + Alerts(predict, after.calls, |l.calls|, |after.calls|)
    && (forall c: nat | |l.calls| <= c < |after.calls| && AlertedAt(predict, after.calls, c) :: RiskFollows(l, after, channels, predict, now, c))
    && forall k | 0 <= k < |l.events| ::
         EventFollows(l.events[k], after.events[k], LinkBy(predict, after.calls, |l.calls|, |after.calls|, |l.risks|, l.events[k].id))
  }

  ghost predicate IsRiskOf(r: Risk, channel: E.Channel) {
    channel.pk == r.sensor && r.facility == channel.facility && r.riskType == RiskTypeFor(channel.system)
  }

  ghost predicate RiskFollows(l: Ledger, after: Ledger, channels: seq<E.Channel>, predict: Predictor, now: int, c: nat)
    requires c < |after.calls|
  {
    var r := |l.risks| + Alerts(predict, after.calls, |l.calls|, c);
    && r < |after.risks|
    && after.risks[r].id == r && after.risks[r].asOf == now
    && after.risks[r].sensor == after.calls[c].sensor && after.risks[r].riskType == after.calls[c].riskType
    && exists channel | channel in channels :: IsRiskOf(after.risks[r], channel)
  }

  lemma {:induction false} AlertsOfPrefix(predict: Predictor, calls: seq<Call>, more: seq<Call>, lo: nat, n: nat)
    requires n <= |calls| && calls <= more
    ensures Alerts(predict, more, lo, n) == Alerts(predict, calls, lo, n)
    ensures forall base, id :: LinkBy(predict, more, lo, n, base, id) == LinkBy(predict, calls, lo, n, base, id)
  {
    if n > lo {
      AlertsOfPrefix(predict, calls, more, lo, n - 1);
      assert more[n - 1] == calls[n - 1];
    }
  }

  lemma {:induction false} AlertsAddUp(predict: Predictor, calls: seq<Call>, lo: nat, mid: nat, n: nat)
    requires lo <= mid <= n <= |calls|
    ensures Alerts(predict, calls, lo, n) == Alerts(predict, calls, lo, mid) + Alerts(predict, calls, mid, n)
  {
    if mid < n {
      AlertsAddUp(predict, calls, lo, mid, n - 1);
    }
  }

  lemma {:induction false} LinksInTwoParts(predict: Predictor, calls: seq<Call>, lo: nat, mid: nat, n: nat, base: nat, id: string)
    requires lo <= mid <= n <= |calls|
    ensures var late := LinkBy(predict, calls, mid, n, base + Alerts(predict, calls, lo, mid), id);
            LinkBy(predict, calls, lo, n, base, id) == if late.Some? then late else LinkBy(predict, calls, lo, mid, base, id)
  {
    if mid < n {
      LinksInTwoParts(predict, calls, lo, mid, n - 1, base, id);
      AlertsAddUp(predict, calls, lo, mid, n - 1);
    }
  }

  lemma FollowsItself(l: Ledger, after: Ledger, channels: seq<E.Channel>, predict: Predictor, now: int)
    requires after.events == l.events && after.risks == l.risks && after.calls == l.calls
    ensures Follows(l, after, channels, predict, now)
  {
  }

  lemma RisksFollowOn(a: Ledger, b: Ledger, c: Ledger, channels: seq<E.Channel>, predict: Predictor, now: int, call: nat)
    requires Follows(a, b, channels, predict, now) && Follows(b, c, channels, predict, now)
    requires |a.calls| <= call < |c.calls| && AlertedAt(predict, c.calls, call)
    ensures RiskFollows(a, c, channels, predict, now, call)
  {
    if call < |b.calls| {
      assert AlertedAt(predict, b.calls, call) && RiskFollows(a, b, channels, predict, now, call);
      AlertsOfPrefix(predict, b.calls, c.calls, |a.calls|, call);
    } else {
      assert RiskFollows(b, c, channels, predict, now, call);
      AlertsAddUp(predict, c.calls, |a.calls|, |b.calls|, call);
      AlertsOfPrefix(predict, b.calls, c.calls, |a.calls|, |b.calls|);
    }
  }

  lemma FollowsOn(a: Ledger, b: Ledger, c: Ledger, channels: seq<E.Channel>, predict: Predictor, now: int)
    requires Follows(a, b, channels, predict, now) && Follows(b, c, channels, predict, now)
    ensures Follows(a, c, channels, predict, now)
  {
    AlertsOfPrefix(predict, b.calls, c.calls, |a.calls|, |b.calls|);
    AlertsAddUp(predict, c.calls, |a.calls|, |b.calls|, |c.calls|);
    forall call: nat | |a.calls| <= call < |c.calls| && AlertedAt(predict, c.calls, call) ensures RiskFollows(a, c, channels, predict, now, call) {
      RisksFollowOn(a, b, c, channels, predict, now, call);
    }
    forall k | 0 <= k < |a.events|
      ensures EventFollows(a.events[k], c.events[k], LinkBy(predict, c.calls, |a.calls|, |c.calls|, |a.risks|, a.events[k].id))
    {
      LinksInTwoParts(predict, c.calls, |a.calls|, |b.calls|, |c.calls|, |a.risks|, a.events[k].id);
      assert EventFollows(a.events[k], b.events[k], LinkBy(predict, b.calls, |a.calls|, |b.calls|, |a.risks|, a.events[k].id));
      assert EventFollows(b.events[k], c.events[k], LinkBy(predict, c.calls, |b.calls|, |c.calls|, |b.risks|, b.events[k].id));
    }
  }

  lemma GroupFollows(l: Ledger, channels: seq<E.Channel>, predict: Predictor, now: int, sensor: string, group: seq<E.Event>)
    ensures Follows(l, Evaluate(l, channels, predict, now, sensor, group), channels, predict, now)
  {
    var after, c := Evaluate(l, channels, predict, now, sensor, group), ByPk(channels, sensor);
    if c.None? {
      FollowsItself(l, after, channels, predict, now);
    } else {
      var n, call := |l.calls|, CallFor(sensor, c.value, now, group);
      ByPkFinds(channels, sensor);
      assert after.calls == l.calls + [call] && after.calls[n] == call;
      assert predict(n, call).Alert? ==> IsRiskOf(after.risks[|l.risks|], c.value);
      assert Alerts(predict, after.calls, n, n) == 0;
      forall k | 0 <= k < |l.events|
        ensures EventFollows(l.events[k], after.events[k], LinkBy(predict, after.calls, n, n + 1, |l.risks|, l.events[k].id))
      {
        assert LinkBy(predict, after.calls, n, n, |l.risks|, l.events[k].id) == None;
      }
    }
  }

  lemma {:induction false} GroupsFollow(l: Ledger, channels: seq<E.Channel>, predict: Predictor, now: int, rows: seq<E.Event>, sensors: seq<string>)
    ensures Follows(l, EvaluateAll(l, channels, predict, now, rows, sensors), channels, predict, now)
    decreases |sensors|
  {
    if sensors == [] {
      FollowsItself(l, l, channels, predict, now);
    } else {
      var n := |sensors| - 1;
      var before := EvaluateAll(l, channels, predict, now, rows, sensors[..n]);
      GroupsFollow(l, channels, predict, now, rows, sensors[..n]);
      GroupFollows(before, channels, predict, now, sensors[n], GroupOf(rows, sensors[n]));
      FollowsOn(l, before, EvaluateAll(l, channels, predict, now, rows, sensors), channels, predict, now);
    }
  }

  /** Over all batches of a sync: one risk per alerting call, linked to the events the call named, and no other link. */
  lemma {:induction false} SyncFollowsTheCalls(l: Ledger, channels: seq<E.Channel>, predict: Predictor, now: int, pending: seq<E.Event>, batch: BatchSize)
    ensures Follows(l, EvaluateBatches(l, channels, predict, now, pending, batch), channels, predict, now)
    decreases |pending|
  {
    if pending == [] {
      FollowsItself(l, l, channels, predict, now);
    } else {
      var n := Least(batch, |pending|);
      var next := EvaluateBatch(l, channels, predict, now, pending[..n]);
      GroupsFollow(l, channels, predict, now, pending[..n], SensorsOf(pending[..n]));
      SyncFollowsTheCalls(next, channels, predict, now, pending[n..], batch);
      OneBatchFirst(l, channels, predict, now, pending, batch, n);
      FollowsOn(l, next, EvaluateBatches(l, channels, predict, now, pending, batch), channels, predict, now);
    }
  }

  // Each event has one call at most, so the link of an event is the risk of its own call.

  lemma {:induction false} ReachedMonotone(calls: seq<Call>, id: string, c: nat, d: nat)
    requires c <= d <= |calls|
    ensures Reached(calls[..c], id) <= Reached(calls[..d], id)
  {
    if c < d {
      ReachedMonotone(calls, id, c, d - 1);
      assert calls[..d][..d - 1] == calls[..d - 1];
    }
  }

  lemma NamedAtMostOnce(calls: seq<Call>, id: string, c: nat, d: nat)
    requires Reached(calls, id) <= 1 && c < d < |calls| && id in calls[c].events
    ensures id !in calls[d].events
  {
    CountPositive(calls[c].events, Mentions(id));
    CountPositive(calls[d].events, Mentions(id));
    ReachedMonotone(calls, id, c + 1, d);
    ReachedMonotone(calls, id, d + 1, |calls|);
    assert calls[..|calls|] == calls && calls[..c + 1][..c] == calls[..c] && calls[..d + 1][..d] == calls[..d];
  }

  lemma {:induction false} NoCallNoLink(predict: Predictor, calls: seq<Call>, lo: nat, n: nat, base: nat, id: string)
    requires n <= |calls| && forall c: nat | lo <= c < n :: !(AlertedAt(predict, calls, c) && id in calls[c].events)
    ensures LinkBy(predict, calls, lo, n, base, id) == None
  {
    if n > lo {
      NoCallNoLink(predict, calls, lo, n - 1, base, id);
    }
  }

  lemma {:induction false} LinkOfItsCall(predict: Predictor, calls: seq<Call>, lo: nat, n: nat, base: nat, id: string, c: nat)
    requires lo <= c < n <= |calls| && Reached(calls, id) <= 1 && id in calls[c].events
    ensures LinkBy(predict, calls, lo, n, base, id) == if AlertedAt(predict, calls, c) then Some(base + Alerts(predict, calls, lo, c)) else None
    decreases n
  {
    if c < n - 1 {
      NamedAtMostOnce(calls, id, c, n - 1);
      LinkOfItsCall(predict, calls, lo, n - 1, base, id, c);
    } else {
      forall d: nat | lo <= d < c ensures id !in calls[d].events {
        if id in calls[d].events {
          NamedAtMostOnce(calls, id, d, c);
        }
      }
      NoCallNoLink(predict, calls, lo, c, base, id);
    }
  }

  /** The number of the risk of an alerting call. */
  function RiskOf(l: Ledger, predict: Predictor, calls: seq<Call>, c: nat): nat
    requires c < |calls|
  {
    |l.risks| + Alerts(predict, calls, |l.calls|, c)
  }

  ghost predicate Called(l: Ledger, after: Ledger, c: nat, id: string) {
    |l.calls| <= c < |after.calls| && id in after.calls[c].events
  }

  /**
   * A whole sync, event by event: an event that a call of this sync names gets the risk of that call if it alerted; every
   * other event keeps what it had. Each alerting call has its own risk, of its sensor and type.
   */
  lemma SyncLinksTheAlertedEvents(l: Ledger, channels: seq<E.Channel>, cursor: string, batch: BatchSize, predict: Predictor, now: int, k: nat)
    requires RegisterOk(l, cursor) && k < |l.events|
    ensures var after := Remaining(l, channels, cursor, batch, predict, now);
            && l.calls <= after.calls && |after.events| == |l.events|
            && (forall c: nat | Called(l, after, c, l.events[k].id) ::
                  after.events[k] == if AlertedAt(predict, after.calls, c) then l.events[k].(risk := Some(RiskOf(l, predict, after.calls, c))) else l.events[k])
            && ((forall c: nat :: !Called(l, after, c, l.events[k].id)) ==> after.events[k] == l.events[k])
  {
    var after := Remaining(l, channels, cursor, batch, predict, now);
    SyncFollowsTheCalls(l, channels, predict, now, Pending(l.events, cursor), batch);
    CalledOnce(l, channels, cursor, batch, predict, now, l.events[k].id);
    FollowedLinks(l, after, channels, predict, now, k);
  }

  lemma CalledOnce(l: Ledger, channels: seq<E.Channel>, cursor: string, batch: BatchSize, predict: Predictor, now: int, id: string)
    requires RegisterOk(l, cursor)
    ensures Reached(Remaining(l, channels, cursor, batch, predict, now).calls, id) <= 1
  {
    BatchesKeepRegister(l, channels, cursor, batch, predict, now);
    assert CalledByCursor(Remaining(l, channels, cursor, batch, predict, now).calls, Destination(l, cursor), id);
  }

  lemma FollowedLinks(l: Ledger, after: Ledger, channels: seq<E.Channel>, predict: Predictor, now: int, k: nat)
    requires Follows(l, after, channels, predict, now) && k < |l.events| && Reached(after.calls, l.events[k].id) <= 1
    ensures forall c: nat | Called(l, after, c, l.events[k].id) ::
              after.events[k] == if AlertedAt(predict, after.calls, c) then l.events[k].(risk := Some(RiskOf(l, predict, after.calls, c))) else l.events[k]
    ensures (forall c: nat :: !Called(l, after, c, l.events[k].id)) ==> after.events[k] == l.events[k]
  {
    var id, lo, n := l.events[k].id, |l.calls|, |after.calls|;
    assert EventFollows(l.events[k], after.events[k], LinkBy(predict, after.calls, lo, n, |l.risks|, id));
    forall c: nat | Called(l, after, c, id)
      ensures after.events[k] == if AlertedAt(predict, after.calls, c) then l.events[k].(risk := Some(RiskOf(l, predict, after.calls, c))) else l.events[k]
    {
      LinkOfItsCall(predict, after.calls, lo, n, |l.risks|, id, c);
    }
    if forall c: nat :: !Called(l, after, c, id) {
      forall c: nat | lo <= c < n ensures id !in after.calls[c].events {
        assert !Called(l, after, c, id);
      }
      NoCallNoLink(predict, after.calls, lo, n, |l.risks|, id);
    }
  }

  /** And the risks of a sync are exactly those of its alerting calls, in their order. */
  lemma SyncCreatesTheAlertedRisks(l: Ledger, channels: seq<E.Channel>, cursor: string, batch: BatchSize, predict: Predictor, now: int)
    ensures var after := Remaining(l, channels, cursor, batch, predict, now);
            && l.calls <= after.calls && l.risks <= after.risks
            && |after.risks| == |l.risks| + Alerts(predict, after.calls, |l.calls|, |after.calls|)
            && forall c: nat | |l.calls| <= c < |after.calls| && AlertedAt(predict, after.calls, c) :: RiskFollows(l, after, channels, predict, now, c)
  {
    SyncFollowsTheCalls(l, channels, predict, now, Pending(l.events, cursor), batch);
  }

  // One call per sensor of a batch, about all its events.

  ghost predicate NamesTheSensor(call: Call, rows: seq<E.Event>) {
    forall id :: id in call.events <==> exists e | e in rows :: e.id == id && e.sensor == call.sensor
  }

  lemma GroupNames(rows: seq<E.Event>, sensor: string, channel: E.Channel, now: int)
    ensures NamesTheSensor(CallFor(sensor, channel, now, GroupOf(rows, sensor)), rows)
  {
    FilterMembers(rows, OfSensor(sensor));
    forall id ensures id in IdsOf(GroupOf(rows, sensor)) <==> exists e | e in rows :: e.id == id && e.sensor == sensor {
      IdsMembers(GroupOf(rows, sensor), id);
    }
  }

  /** The calls of a batch are about different sensors of it, in their order, and each names all events of its sensor and no other. */
  ghost predicate CallsAre(calls: seq<Call>, lo: nat, rows: seq<E.Event>, sensors: seq<string>) {
    && (forall c | lo <= c < |calls| :: calls[c].sensor in sensors && NamesTheSensor(calls[c], rows))
    && forall c, d | lo <= c < d < |calls| :: calls[c].sensor != calls[d].sensor
  }

  lemma NextCall(calls: seq<Call>, lo: nat, rows: seq<E.Event>, sensors: seq<string>, sensor: string, call: Call)
    requires CallsAre(calls, lo, rows, sensors) && sensor !in sensors && call.sensor == sensor && NamesTheSensor(call, rows) && lo <= |calls|
    ensures CallsAre(calls + [call], lo, rows, sensors + [sensor])
  {
  }

  lemma NoCall(calls: seq<Call>, lo: nat, rows: seq<E.Event>, sensors: seq<string>, sensor: string)
    requires CallsAre(calls, lo, rows, sensors)
    ensures CallsAre(calls, lo, rows, sensors + [sensor])
  {
  }

  /** The calls of a batch are about different sensors of it, in their order, and each names all events of its sensor and no other. */
  lemma {:induction false} CallsAreTheGroups(l: Ledger, channels: seq<E.Channel>, predict: Predictor, now: int, rows: seq<E.Event>, sensors: seq<string>)
    requires forall i, k | 0 <= i < k < |sensors| :: sensors[i] != sensors[k]
    ensures var after := EvaluateAll(l, channels, predict, now, rows, sensors);
            l.calls <= after.calls && CallsAre(after.calls, |l.calls|, rows, sensors)
    decreases |sensors|
  {
    if sensors != [] {
      var n := |sensors| - 1;
      var before := EvaluateAll(l, channels, predict, now, rows, sensors[..n]);
      CallsAreTheGroups(l, channels, predict, now, rows, sensors[..n]);
      var channel := ByPk(channels, sensors[n]);
      assert sensors == sensors[..n] + [sensors[n]] && sensors[n] !in sensors[..n];
      if channel.Some? {
        GroupNames(rows, sensors[n], channel.value, now);
        NextCall(before.calls, |l.calls|, rows, sensors[..n], sensors[n], CallFor(sensors[n], channel.value, now, GroupOf(rows, sensors[n])));
      } else {
        NoCall(before.calls, |l.calls|, rows, sensors[..n], sensors[n]);
      }
    }
  }

  lemma BatchCallsAreTheGroups(l: Ledger, channels: seq<E.Channel>, predict: Predictor, now: int, rows: seq<E.Event>)
    ensures var after := EvaluateBatch(l, channels, predict, now, rows);
            && l.calls <= after.calls
            && (forall c | |l.calls| <= c < |after.calls| :: NamesTheSensor(after.calls[c], rows))
            && forall c, d | |l.calls| <= c < d < |after.calls| :: after.calls[c].sensor != after.calls[d].sensor
  {
    SensorsAreThose(rows);
    CallsAreTheGroups(l, channels, predict, now, rows, SensorsOf(rows));
  }

  // No risk without an event.

  ghost predicate HasEvent(events: seq<E.Event>, r: nat) {
    exists e | e in events :: e.risk == Some(r)
  }

  ghost predicate EveryRiskHasAnEvent(l: Ledger) {
    forall r: nat | r < |l.risks| :: HasEvent(l.events, r)
  }

  lemma {:induction false} AlertNumbered(predict: Predictor, calls: seq<Call>, lo: nat, n: nat, r: nat) returns (c: nat)
    requires n <= |calls| && r < Alerts(predict, calls, lo, n)
    ensures lo <= c < n && AlertedAt(predict, calls, c) && Alerts(predict, calls, lo, c) == r
  {
    if r < Alerts(predict, calls, lo, n - 1) {
      c := AlertNumbered(predict, calls, lo, n - 1, r);
    } else {
      c := n - 1;
    }
  }

  ghost predicate NamesAnEvent(events: seq<E.Event>, ids: seq<string>) {
    exists e | e in events :: e.id in ids
  }

  lemma {:induction false} GroupsName(l: Ledger, channels: seq<E.Channel>, predict: Predictor, now: int, rows: seq<E.Event>, sensors: seq<string>)
    requires forall s | s in sensors :: GroupOf(rows, s) != []
    ensures var after := EvaluateAll(l, channels, predict, now, rows, sensors);
            && l.calls <= after.calls
            && forall c: nat | |l.calls| <= c < |after.calls| :: NamesAnEvent(rows, after.calls[c].events)
    decreases |sensors|
  {
    if sensors != [] {
      var n := |sensors| - 1;
      GroupsName(l, channels, predict, now, rows, sensors[..n]);
      assert sensors[n] in sensors;
      var group := GroupOf(rows, sensors[n]);
      FilterMembers(rows, OfSensor(sensors[n]));
      assert group[0] in group && IdsOf(group)[0] == group[0].id;
    }
  }

  lemma {:induction false} SensorsHaveGroups(rows: seq<E.Event>)
    ensures forall s | s in SensorsOf(rows) :: GroupOf(rows, s) != []
  {
    if rows != [] {
      var front, last := rows[..|rows| - 1], rows[|rows| - 1];
      SensorsHaveGroups(front);
      forall s | s in SensorsOf(rows) ensures GroupOf(rows, s) != [] {
        if s != last.sensor {
          assert s in SensorsOf(front);
        }
      }
    }
  }

  lemma {:induction false} SyncNamesEvents(l: Ledger, channels: seq<E.Channel>, predict: Predictor, now: int, pending: seq<E.Event>, batch: BatchSize)
    ensures var after := EvaluateBatches(l, channels, predict, now, pending, batch);
            && l.calls <= after.calls
            && forall c: nat | |l.calls| <= c < |after.calls| :: NamesAnEvent(pending, after.calls[c].events)
    decreases |pending|
  {
    if pending != [] {
      var n := Least(batch, |pending|);
      var next, after := EvaluateBatch(l, channels, predict, now, pending[..n]), EvaluateBatches(l, channels, predict, now, pending, batch);
      SensorsHaveGroups(pending[..n]);
      GroupsName(l, channels, predict, now, pending[..n], SensorsOf(pending[..n]));
      SyncNamesEvents(next, channels, predict, now, pending[n..], batch);
      OneBatchFirst(l, channels, predict, now, pending, batch, n);
      forall c: nat | |l.calls| <= c < |after.calls| ensures NamesAnEvent(pending, after.calls[c].events) {
        if c < |next.calls| {
          assert NamesAnEvent(pending[..n], next.calls[c].events) && after.calls[c] == next.calls[c];
          var e :| e in pending[..n] && e.id in next.calls[c].events;
          assert e in pending;
        } else {
          assert NamesAnEvent(pending[n..], after.calls[c].events);
          var e :| e in pending[n..] && e.id in after.calls[c].events;
          assert e in pending;
        }
      }
    }
  }

  lemma PendingAreEvents(events: seq<E.Event>, cursor: string, ids: seq<string>)
    requires NamesAnEvent(Pending(events, cursor), ids)
    ensures NamesAnEvent(events, ids)
  {
    FilterMembers(events, Unlinked(cursor));
  }

  /** An event that an alerting call names carries the risk of that call afterwards. */
  lemma FollowedRiskHasEvent(l: Ledger, after: Ledger, channels: seq<E.Channel>, predict: Predictor, now: int, c: nat)
    requires Follows(l, after, channels, predict, now) && forall id :: Reached(after.calls, id) <= 1
    requires |l.calls| <= c < |after.calls| && AlertedAt(predict, after.calls, c) && NamesAnEvent(l.events, after.calls[c].events)
    ensures HasEvent(after.events, RiskOf(l, predict, after.calls, c))
  {
    var e :| e in l.events && e.id in after.calls[c].events;
    var k :| 0 <= k < |l.events| && l.events[k] == e;
    FollowedLinks(l, after, channels, predict, now, k);
    assert Called(l, after, c, l.events[k].id);
    assert after.events[k] in after.events;
  }

  lemma NamedBySync(l: Ledger, channels: seq<E.Channel>, cursor: string, batch: BatchSize, predict: Predictor, now: int, c: nat)
    requires |l.calls| <= c < |Remaining(l, channels, cursor, batch, predict, now).calls|
    ensures NamesAnEvent(l.events, Remaining(l, channels, cursor, batch, predict, now).calls[c].events)
  {
    SyncNamesEvents(l, channels, predict, now, Pending(l.events, cursor), batch);
    PendingAreEvents(l.events, cursor, Remaining(l, channels, cursor, batch, predict, now).calls[c].events);
  }

  lemma FollowedRisksHaveEvents(l: Ledger, after: Ledger, channels: seq<E.Channel>, predict: Predictor, now: int, r: nat)
    requires Follows(l, after, channels, predict, now) && |l.risks| <= r < |after.risks|
    requires forall id :: Reached(after.calls, id) <= 1
    requires forall c: nat | |l.calls| <= c < |after.calls| :: NamesAnEvent(l.events, after.calls[c].events)
    ensures HasEvent(after.events, r)
  {
    var c := AlertNumbered(predict, after.calls, |l.calls|, |after.calls|, r - |l.risks|);
    FollowedRiskHasEvent(l, after, channels, predict, now, c);
  }

  lemma NewRiskHasEvent(l: Ledger, channels: seq<E.Channel>, cursor: string, batch: BatchSize, predict: Predictor, now: int, r: nat)
    requires RegisterOk(l, cursor) && |l.risks| <= r < |Remaining(l, channels, cursor, batch, predict, now).risks|
    ensures HasEvent(Remaining(l, channels, cursor, batch, predict, now).events, r)
  {
    var after := Remaining(l, channels, cursor, batch, predict, now);
    SyncFollowsTheCalls(l, channels, predict, now, Pending(l.events, cursor), batch);
    forall id ensures Reached(after.calls, id) <= 1 {
      CalledOnce(l, channels, cursor, batch, predict, now, id);
    }
    forall c: nat | |l.calls| <= c < |after.calls| ensures NamesAnEvent(l.events, after.calls[c].events) {
      NamedBySync(l, channels, cursor, batch, predict, now, c);
    }
    FollowedRisksHaveEvents(l, after, channels, predict, now, r);
  }

  lemma LinkedStays(before: seq<E.Event>, after: seq<E.Event>, r: nat)
    requires SameButLinks(before, after) && HasEvent(before, r)
    ensures HasEvent(after, r)
  {
    var e :| e in before && e.risk == Some(r);
    var k :| 0 <= k < |before| && before[k] == e;
    assert LinkAdded(before[k], after[k]) && after[k] in after;
  }

  lemma AppendedStays(before: seq<E.Event>, after: seq<E.Event>, r: nat)
    requires before <= after && HasEvent(before, r)
    ensures HasEvent(after, r)
  {
    var e :| e in before && e.risk == Some(r);
    assert e in after;
  }

  lemma StepKeepsEvents(w: World, step: Step, r: nat)
    requires WorldOk(w) && r < |Do(w, step).risks| && (r < |w.risks| ==> HasEvent(w.journal.events, r))
    ensures HasEvent(Do(w, step).journal.events, r)
  {
    if IsSync(step) {
      var synced := E.Synced(w.journal, w.channels, step.now);
      if r < |w.risks| {
        AppendedStays(w.journal.events, synced.events, r);
      }
      if step.SyncRisks? {
        SyncRisksKeepsWorld(w, step.batch, step.predict, step.now);
        if r < |w.risks| {
          LinkedStays(synced.events, Do(w, step).journal.events, r);
        } else {
          var l := WithSyncedEvents(LedgerOf(w), w.journal, w.channels, step.now);
          NewEventsKeepRegister(w.journal, w.channels, LedgerOf(w), w.cursor, step.now);
          NewRiskHasEvent(l, w.channels, w.cursor, step.batch, step.predict, step.now, r);
        }
      }
    }
  }

  /** However the steps are interleaved, every risk has an event that is linked to it. */
  lemma {:induction false} NoRiskWithoutAnEvent(channels: seq<E.Channel>, steps: seq<Step>, r: nat)
    requires Legal(Start(channels), steps) && r < |Run(Start(channels), steps).risks|
    ensures HasEvent(Run(Start(channels), steps).journal.events, r)
    decreases |steps|
  {
    if steps != [] {
      var n := |steps| - 1;
      var w := Run(Start(channels), steps[..n]);
      RunKeepsWorld(channels, steps[..n]);
      if r < |w.risks| {
        NoRiskWithoutAnEvent(channels, steps[..n], r);
      }
      StepKeepsEvents(w, steps[n], r);
    }
  }

  // What an event says about its reading.

  ghost predicate Reports(e: E.Event, r: E.Reading) {
    && e.id == E.I.EventId(r.id) && e.reading == r.id && e.occurred == r.occurred && e.value == r.value && E.IsNotable(r)
    && (e.state == E.Fault <==> r.anomaly)
  }

  ghost predicate ReportsSome(e: E.Event, readings: seq<E.Reading>) {
    exists r | r in readings :: Reports(e, r)
  }

  ghost predicate AllReport(j: E.Journal) {
    forall k | 0 <= k < |j.events| :: ReportsSome(j.events[k], j.readings)
  }

  lemma SyncKeepsReports(j: E.Journal, channels: seq<E.Channel>, now: int)
    requires AllReport(j)
    ensures AllReport(E.Synced(j, channels, now))
  {
    var rows := E.Pending(j.readings, channels, j.cursor);
    assert rows[..|rows|] == rows;
    FilterMembers(j.readings, E.Joined(channels, j.cursor));
    var after := E.Synced(j, channels, now);
    forall k | 0 <= k < |after.events| ensures ReportsSome(after.events[k], j.readings) {
      if k >= |j.events| {
        var r := rows[k - |j.events|];
        assert r in rows && Reports(E.EventOf(r, channels, now), r);
      }
    }
  }

  lemma LinksKeepReports(j: E.Journal, events: seq<E.Event>)
    requires AllReport(j) && SameButLinks(j.events, events)
    ensures AllReport(j.(events := events))
  {
    forall k | 0 <= k < |events| ensures ReportsSome(events[k], j.readings) {
      assert LinkAdded(j.events[k], events[k]);
      assert ReportsSome(j.events[k], j.readings);
      var r :| r in j.readings && Reports(j.events[k], r);
      assert Reports(events[k].(risk := None), r) by {
        assert Reports(j.events[k].(risk := None), r);
      }
    }
  }

  lemma StepKeepsReports(w: World, step: Step)
    requires WorldOk(w) && AllReport(w.journal)
    ensures AllReport(Do(w, step).journal)
  {
    match step {
      case Insert(reading) =>
        forall k | 0 <= k < |w.journal.events| ensures ReportsSome(w.journal.events[k], w.journal.readings + [reading]) {
          assert ReportsSome(w.journal.events[k], w.journal.readings);
          var r :| r in w.journal.readings && Reports(w.journal.events[k], r);
          assert r in w.journal.readings + [reading];
        }
      case Catalogue(_) =>
      case SyncEvents(now) => SyncKeepsReports(w.journal, w.channels, now);
      case SyncRisks(batch, predict, now) =>
        SyncKeepsReports(w.journal, w.channels, now);
        SyncRisksKeepsWorld(w, batch, predict, now);
        LinksKeepReports(E.Synced(w.journal, w.channels, now), AfterSync(w, batch, predict, now).journal.events);
    }
  }

  /** However the steps are interleaved, every event reports a notable reading: its time, its value, and whether it was corrupted. */
  lemma {:induction false} EventsReportTheirReadings(channels: seq<E.Channel>, steps: seq<Step>)
    requires Legal(Start(channels), steps)
    ensures AllReport(Run(Start(channels), steps).journal)
    decreases |steps|
  {
    if steps != [] {
      var n := |steps| - 1;
      EventsReportTheirReadings(channels, steps[..n]);
      RunKeepsWorld(channels, steps[..n]);
      StepKeepsReports(Run(Start(channels), steps[..n]), steps[n]);
    }
  }

  // What a call says.

  /** Types of risks are told apart by the system, and every other system counts as a sensor failure. */
  lemma RiskTypes(system: string)
    ensures RiskTypeFor(system) == "fire" <==> system == "fire_protection"
    ensures RiskTypeFor(system) == "unauthorized_access" <==> system == "security"
    ensures RiskTypeFor(system) == "flooding" <==> system == "diagnostic"
    ensures RiskTypeFor(system) in {"fire", "unauthorized_access", "flooding", "sensor_failure"}
  {
  }

  function Corrupted(): E.Reading -> bool {
    (r: E.Reading) => r.anomaly
  }

  function PlainAlarm(): E.Reading -> bool {
    (r: E.Reading) => !r.anomaly
  }

  /** The anomalies of a call are the corrupted readings behind its events, its alarms the others. */
  lemma CallCountsTheReadings(sensor: string, channel: E.Channel, now: int, rows: seq<E.Reading>, channels: seq<E.Channel>, ingested: int)
    ensures var call := CallFor(sensor, channel, now, E.EventsOf(rows, channels, ingested));
            && call.faults == Count(rows, Corrupted()) && call.alarms == Count(rows, PlainAlarm())
            && call.asOf == now && call.sensor == sensor && |call.events| == |rows|
            && forall k | 0 <= k < |rows| :: call.events[k] == E.I.EventId(rows[k].id)
  {
    var group := E.EventsOf(rows, channels, ingested);
    CountsAgree(group, InState(E.Fault), rows, Corrupted());
    CountsAgree(group, InState(E.Alarm), rows, PlainAlarm());
  }
}
