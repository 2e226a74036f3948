/**
 * The replay engine: a virtual clock that runs through the window of the historical readings, wraps at
 * its end, and copies the readings it passes as fresh ones. Times are microseconds.
 */
module Replay {
  import opened Lists

  datatype Origin = Historical | Replayed | Fixture

  datatype Source = Journal(text: string) | ReplayOf(reading: int, tick: nat)

  datatype Payload = Payload(channel: string, alarm: bool, raw: string, numeric: Option<real>, anomaly: bool)

  datatype Reading = Reading(id: int, at: int, payload: Payload, origin: Origin, source: Source)

  datatype Window = Window(start: int, end: int)

  /** One call: the wall clock, the speed setting, and the interval assumed before the first tick. */
  datatype Tick = Tick(now: int, speed: real, interval: int)

  datatype Engine = Engine(readings: seq<Reading>, nextId: int, cursor: Option<int>, lastTickAt: Option<int>, tickCount: nat)

  function Max(a: int, b: int): int {
    if a < b then b else a
  }

  /** `timedelta` rounds to whole microseconds, halves to even. */
  function RoundHalfEven(x: real): int {
    var whole := x.Floor;
    var rest := x - whole as real;
    if rest < 0.5 || (rest == 0.5 && whole % 2 == 0) then whole else whole + 1
  }

  function Times(time: int, speed: real): real {
    time as real * speed
  }

  function VirtualDelta(lastTickAt: Option<int>, tick: Tick): int {
    var elapsed := if lastTickAt.Some? then tick.now - lastTickAt.value else tick.interval;
    RoundHalfEven(Times(Max(elapsed, 0), tick.speed))
  }

  lemma VirtualDeltaIsForward(lastTickAt: Option<int>, tick: Tick)
    requires tick.speed >= 0.0
    ensures VirtualDelta(lastTickAt, tick) >= 0
  {
    var elapsed := if lastTickAt.Some? then tick.now - lastTickAt.value else tick.interval;
    assert Times(Max(elapsed, 0), tick.speed) >= 0.0;
  }

  // One tick.

  predicate IsHistorical(r: Reading) {
    r.origin.Historical?
  }

  /** The historical readings later than lo and not later than hi. */
  function Slice(readings: seq<Reading>, lo: int, hi: int): seq<Reading> {
    Filter(readings, (r: Reading) => IsHistorical(r) && lo < r.at <= hi)
  }

  function NextCursor(w: Window, cursor: int, delta: int): int {
    var raw := cursor + delta;
    if raw <= w.end then raw
    else
      var span, overflow := w.end - w.start, raw - w.end;
      w.start + (if span > 0 then overflow % span else overflow)
  }

  /** The readings a tick passes: up to the new cursor, or to the window's end and again from its start. */
  function Passed(readings: seq<Reading>, w: Window, cursor: int, delta: int): seq<Reading> {
    if cursor + delta <= w.end then
      Slice(readings, cursor, cursor + delta)
    else
      Slice(readings, cursor, w.end) + Slice(readings, w.start - 1, NextCursor(w, cursor, delta))
  }

  function Copy(r: Reading, id: int, now: int, tick: nat): Reading {
    Reading(id, now, r.payload, Replayed, ReplayOf(r.id, tick))
  }

  function Copies(rows: seq<Reading>, id: int, now: int, tick: nat): seq<Reading> {
    if rows == [] then []
    else
      var n := |rows| - 1;
      Copies(rows[..n], id, now, tick) + [Copy(rows[n], id + n, now, tick)]
  }

  /** Smallest and largest time of the historical readings. */
  function Bounds(readings: seq<Reading>): Option<Window> {
    if readings == [] then None
    else
      var before, r := Bounds(readings[..|readings| - 1]), readings[|readings| - 1];
      if !IsHistorical(r) then before
      else if before.None? then Some(Window(r.at, r.at))
      else Some(Window(if r.at < before.value.start then r.at else before.value.start, Max(r.at, before.value.end)))
  }

  lemma {:induction false} BoundsAreTight(readings: seq<Reading>)
    ensures Bounds(readings).None? <==> forall r | r in readings :: !IsHistorical(r)
    ensures Bounds(readings).Some? ==>
              var w := Bounds(readings).value;
              && (forall r | r in readings && IsHistorical(r) :: w.start <= r.at <= w.end)
              && (exists r | r in readings :: IsHistorical(r) && r.at == w.start)
              && (exists r | r in readings :: IsHistorical(r) && r.at == w.end)
  {
    if readings != [] {
      var front, last := readings[..|readings| - 1], readings[|readings| - 1];
      assert readings == front + [last];
      BoundsAreTight(front);
      if IsHistorical(last) && Bounds(front).Some? {
        var w := Bounds(front).value;
        var a :| a in front && IsHistorical(a) && a.at == w.start;
        var b :| b in front && IsHistorical(b) && b.at == w.end;
        assert a in readings && b in readings && last in readings;
      }
    }
  }

  function Step(st: Engine, tick: Tick): Engine {
    var bounds := Bounds(st.readings);
    if bounds.None? then st
    else
      Advance(st, bounds.value, VirtualDelta(st.lastTickAt, tick), tick.now)
  }

  function CursorOf(st: Engine, w: Window): int {
    if st.cursor.Some? then st.cursor.value else w.start
  }

  function Advance(st: Engine, w: Window, delta: int, now: int): Engine {
    var rows := Passed(st.readings, w, CursorOf(st, w), delta);
    Engine(st.readings + Copies(rows, st.nextId, now, st.tickCount + 1), st.nextId + |rows|,
           Some(NextCursor(w, CursorOf(st, w), delta)), Some(now), st.tickCount + 1)
  }

  /** The engine and the tables it works on: the readings and its single state row. */
  class ReplayEngine {
    var readings: seq<Reading>
    var nextId: int
    var cursor: Option<int>
    var lastTickAt: Option<int>
    var tickCount: nat

    constructor (readings: seq<Reading>, nextId: int)
      ensures State() == Engine(readings, nextId, None, None, 0)
    {
      this.readings, this.nextId := readings, nextId;
      cursor, lastTickAt, tickCount := None, None, 0;
    }

    function State(): Engine
      reads this
    {
      Engine(readings, nextId, cursor, lastTickAt, tickCount)
    }

    method WindowBounds() returns (bounds: Option<Window>)
      ensures bounds == Bounds(readings)
    {
      bounds := None;
      for i := 0 to |readings|
        invariant bounds == Bounds(readings[..i])
      {
        assert readings[..i + 1][..i] == readings[..i];
        var r := readings[i];
        if r.origin.Historical? {
          if bounds.None? {
            bounds := Some(Window(r.at, r.at));
          } else {
            var low := if r.at < bounds.value.start then r.at else bounds.value.start;
            var high := if r.at > bounds.value.end then r.at else bounds.value.end;
            bounds := Some(Window(low, high));
          }
        }
      }
      assert readings[..|readings|] == readings;
    }

    method CopyRows(rows: seq<Reading>, id: int, now: int, tick: nat) returns (added: seq<Reading>)
      ensures added == Copies(rows, id, now, tick) && |added| == |rows|
    {
      added := [];
      for i := 0 to |rows|
        invariant added == Copies(rows[..i], id, now, tick) && |added| == i
      {
        assert rows[..i + 1][..i] == rows[..i];
        added := added + [Copy(rows[i], id + i, now, tick)];
      }
      assert rows[..|rows|] == rows;
    }

    /** `tick_once`: the whole new state is the pure step, and the result is the number of rows added. */
    method TickOnce(tick: Tick) returns (replayed: nat)
      modifies this
      ensures State() == Step(old(State()), tick)
      ensures |readings| == |old(readings)| + replayed
    {
      var bounds := WindowBounds();
      if bounds.None? {
        return 0;
      }
      var w := bounds.value;
      var from := if cursor.None? then w.start else cursor.value;
      var delta := VirtualDelta(lastTickAt, tick);
      var raw := from + delta;
      var rows, newCursor;
      if raw <= w.end {
        rows := Slice(readings, from, raw);
        newCursor := raw;
      } else {
        var overflow := raw - w.end;
        if w.end - w.start > 0 {
          overflow := overflow % (w.end - w.start);
        }
        newCursor := w.start + overflow;
        rows := Slice(readings, from, w.end) + Slice(readings, w.start - 1, newCursor);
      }
      assert rows == Passed(readings, w, from, delta) && newCursor == NextCursor(w, from, delta);
      var nextTick := tickCount + 1;
      var added := CopyRows(rows, nextId, tick.now, nextTick);
      readings, nextId := readings + added, nextId + |rows|;
      cursor, lastTickAt, tickCount := Some(newCursor), Some(tick.now), nextTick;
      replayed := |rows|;
      assert State() == Advance(old(State()), w, delta, tick.now);
    }
  }

  // What a reading's replays should be: one for every time the virtual clock passes it.

  /** Virtual time, counted from the window's start, at which a reading is first passed. */
  function FirstPass(offset: int, span: int): int {
    if offset > 0 then offset else span + 1
  }

  /** The length of that many whole spans. */
  function Spans(laps: nat, span: int): int {
    if laps == 0 then 0 else Spans(laps - 1, span) + span
  }

  lemma {:induction false} SpansGrow(few: nat, many: nat, span: int)
    requires few < many && span > 0
    ensures Spans(few, span) + span <= Spans(many, span)
  {
    if few + 1 < many {
      SpansGrow(few, many - 1, span);
    }
  }

  predicate IsLap(k: nat, span: int, first: int, t: int) {
    t == Spans(k, span) + first
  }

  /** At virtual time t the clock passes the reading: at its first pass, and once per span after that. */
  ghost predicate Passes(first: int, span: int, t: int) {
    exists k: nat :: IsLap(k, span, first, t)
  }

  ghost function Crossings(first: int, span: int, time: nat): nat {
    if time == 0 then 0 else Crossings(first, span, time - 1) + (if Passes(first, span, time) then 1 else 0)
  }

  /** The clock after `laps` wraps, `offset` into the window. */
  ghost predicate Clock(time: int, span: int, laps: nat, offset: int) {
    && time == Spans(laps, span) + offset
    && (1 <= offset <= span || (laps == 0 && offset == 0))
  }

  lemma LapIsUnique(k: nat, laps: nat, span: int, first: int, offset: int)
    requires span > 0 && 1 <= first <= span + 1 && 1 <= offset <= span
    requires Spans(k, span) + first == Spans(laps, span) + offset
    ensures (k == laps && first == offset) || (k + 1 == laps && first == span + 1 && offset == 1)
  {
    if k < laps {
      SpansGrow(k, laps, span);
      if k + 1 < laps {
        SpansGrow(k + 1, laps, span);
      }
    } else if laps < k {
      SpansGrow(laps, k, span);
    }
  }

  lemma PassesAt(first: int, span: int, time: int, laps: nat, offset: int)
    requires span > 0 && 1 <= first <= span + 1 && Clock(time, span, laps, offset) && offset > 0
    ensures Passes(first, span, time) <==> first == offset || (first == span + 1 && offset == 1 && laps >= 1)
  {
    if first == offset {
      assert IsLap(laps, span, first, time);
    }
    if first == span + 1 && offset == 1 && laps >= 1 {
      assert IsLap(laps - 1, span, first, time);
    }
    if Passes(first, span, time) {
      var k: nat :| IsLap(k, span, first, time);
      LapIsUnique(k, laps, span, first, offset);
    }
  }

  lemma {:induction false} CrossingsOnClock(first: int, span: int, time: nat, laps: nat, offset: int)
    requires span > 0 && 1 <= first <= span + 1 && Clock(time, span, laps, offset)
    ensures Crossings(first, span, time) == laps + (if first <= offset then 1 else 0)
  {
    if laps > 0 {
      SpansGrow(0, laps, span);
    }
    if offset > 1 {
      CrossingsOnClock(first, span, time - 1, laps, offset - 1);
      PassesAt(first, span, time, laps, offset);
    } else if laps > 0 {
      CrossingsOnClock(first, span, time - 1, laps - 1, span);
      PassesAt(first, span, time, laps, offset);
    } else if offset == 1 {
      CrossingsOnClock(first, span, 0, 0, 0);
      PassesAt(first, span, time, laps, offset);
    }
  }

  lemma {:induction false} CrossingsGrow(first: int, span: int, early: nat, late: nat)
    requires early <= late
    ensures Crossings(first, span, early) <= Crossings(first, span, late)
  {
    if early < late {
      CrossingsGrow(first, span, early, late - 1);
    }
  }

  function NextOffset(span: int, offset: int, delta: int): int {
    NextCursor(Window(0, span), offset, delta)
  }

  /** How often a tick's slices contain the reading at offset o. */
  function Replays(o: int, span: int, offset: int, delta: int): nat {
    if offset + delta <= span then
      (if offset < o <= offset + delta then 1 else 0)
    else
      (if offset < o <= span then 1 else 0) + (if 0 <= o <= NextOffset(span, offset, delta) then 1 else 0)
  }

  lemma GentleTick(o: int, span: int, time: nat, laps: nat, offset: int, delta: nat)
    requires span > 0 && 0 <= o <= span && Clock(time, span, laps, offset) && offset + delta < 2 * span
    ensures Crossings(FirstPass(o, span), span, time + delta)
         == Crossings(FirstPass(o, span), span, time) + Replays(o, span, offset, delta)
    ensures Clock(time + delta, span, if offset + delta <= span then laps else laps + 1, NextOffset(span, offset, delta))
  {
    var first := FirstPass(o, span);
    CrossingsOnClock(first, span, time, laps, offset);
    if offset + delta <= span {
      CrossingsOnClock(first, span, time + delta, laps, offset + delta);
    } else {
      OneWrap(span, offset, delta);
      CrossingsOnClock(first, span, time + delta, laps + 1, offset + delta - span);
    }
  }

  lemma OneWrap(span: int, offset: int, delta: nat)
    requires span > 0 && span < offset + delta < 2 * span
    ensures NextOffset(span, offset, delta) == offset + delta - span
  {
  }

  lemma OverlongTick(span: int, time: nat, laps: nat, offset: int, delta: nat)
    requires span > 0 && Clock(time, span, laps, offset) && offset + delta >= 2 * span
    ensures Crossings(span, span, time + delta) > Crossings(span, span, time) + Replays(span, span, offset, delta)
  {
    var passedTwice := Spans(laps + 1, span) + span;
    SpansGrow(0, laps + 1, span);
    CrossingsOnClock(span, span, time, laps, offset);
    CrossingsOnClock(span, span, passedTwice, laps + 1, span);
    CrossingsGrow(span, span, passedTwice, time + delta);
    assert NextOffset(span, offset, delta) < span;
  }

  /**
   * A tick replays every reading of the window exactly as often as the clock passes it if and only if the
   * clock overshoots the window's end by less than one span: the modulo drops whole laps silently.
   */
  lemma TickIsExactIff(span: int, time: nat, laps: nat, offset: int, delta: nat)
    requires span > 0 && Clock(time, span, laps, offset)
    ensures offset + delta - span < span <==>
            forall o | 0 <= o <= span ::
              Crossings(FirstPass(o, span), span, time + delta) == Crossings(FirstPass(o, span), span, time) + Replays(o, span, offset, delta)
  {
    if offset + delta < 2 * span {
      forall o | 0 <= o <= span
        ensures Crossings(FirstPass(o, span), span, time + delta) == Crossings(FirstPass(o, span), span, time) + Replays(o, span, offset, delta)
      {
        GentleTick(o, span, time, laps, offset, delta);
      }
    } else {
      OverlongTick(span, time, laps, offset, delta);
      assert FirstPass(span, span) == span;
    }
  }

  /** The cursor stays inside the window on every tick exactly when the window is not a single instant. */
  lemma CursorStaysInsideIff(w: Window)
    requires w.start <= w.end
    ensures w.start < w.end <==>
            forall cursor, delta: nat | w.start <= cursor <= w.end :: w.start <= NextCursor(w, cursor, delta) <= w.end
  {
    if w.start == w.end {
      assert NextCursor(w, w.start, 1) == w.start + 1;
    }
  }

  // Whole runs.

  function Run(st: Engine, ticks: seq<Tick>): Engine {
    if ticks == [] then st else Step(Run(st, ticks[..|ticks| - 1]), ticks[|ticks| - 1])
  }

  /** How far the virtual clock moves in a run. */
  function TotalVirtual(st: Engine, ticks: seq<Tick>): int {
    if ticks == [] then 0
    else
      var front := ticks[..|ticks| - 1];
      TotalVirtual(st, front) + VirtualDelta(Run(st, front).lastTickAt, ticks[|ticks| - 1])
  }

  /** No tick of the run overshoots the window's end by a whole span. */
  ghost predicate Gentle(st: Engine, ticks: seq<Tick>, w: Window) {
    ticks == []
    || var front, tick := ticks[..|ticks| - 1], ticks[|ticks| - 1];
       var before := Run(st, front);
       && Gentle(st, front, w)
       && tick.speed >= 0.0
       && CursorOf(before, w) + VirtualDelta(before.lastTickAt, tick) - w.end < w.end - w.start
  }

  function IsReplayOf(r: Reading, id: int): bool {
    r.origin.Replayed? && r.source.ReplayOf? && r.source.reading == id
  }

  function ReplayCount(readings: seq<Reading>, id: int): nat {
    Count(readings, (r: Reading) => IsReplayOf(r, id))
  }

  /** The historical part of the table determines the window and every slice. */
  function History(readings: seq<Reading>): seq<Reading> {
    Filter(readings, (r: Reading) => IsHistorical(r))
  }

  lemma {:induction false} BoundsFromHistory(readings: seq<Reading>)
    ensures Bounds(readings) == Bounds(History(readings))
  {
    if readings != [] {
      var front, last := readings[..|readings| - 1], readings[|readings| - 1];
      BoundsFromHistory(front);
      if IsHistorical(last) {
        assert History(readings)[..|History(readings)| - 1] == History(front);
      } else {
        assert History(readings) == History(front);
      }
    }
  }

  lemma {:induction false} CopiesAreNotHistorical(rows: seq<Reading>, id: int, now: int, tick: nat)
    ensures History(Copies(rows, id, now, tick)) == []
    ensures |Copies(rows, id, now, tick)| == |rows|
  {
    if rows != [] {
      var n := |rows| - 1;
      CopiesAreNotHistorical(rows[..n], id, now, tick);
      CountSnoc(Copies(rows[..n], id, now, tick), Copy(rows[n], id + n, now, tick), (r: Reading) => IsHistorical(r));
    }
  }

  lemma {:induction false} CopiesCount(rows: seq<Reading>, id: int, now: int, tick: nat, of: int)
    ensures ReplayCount(Copies(rows, id, now, tick), of) == Count(rows, (r: Reading) => r.id == of)
  {
    if rows != [] {
      var n := |rows| - 1;
      CopiesCount(rows[..n], id, now, tick, of);
      CountSnoc(Copies(rows[..n], id, now, tick), Copy(rows[n], id + n, now, tick), (r: Reading) => IsReplayOf(r, of));
    }
  }

  /** Ticks never touch the historical readings, hence not the window either. */
  lemma {:induction false} RunKeepsHistory(st: Engine, ticks: seq<Tick>)
    ensures History(Run(st, ticks).readings) == History(st.readings)
    ensures Bounds(Run(st, ticks).readings) == Bounds(st.readings)
  {
    if ticks != [] {
      var before, tick := Run(st, ticks[..|ticks| - 1]), ticks[|ticks| - 1];
      RunKeepsHistory(st, ticks[..|ticks| - 1]);
      StepKeepsHistory(before, tick);
    }
  }

  lemma StepKeepsHistory(st: Engine, tick: Tick)
    ensures History(Step(st, tick).readings) == History(st.readings)
    ensures Bounds(Step(st, tick).readings) == Bounds(st.readings)
  {
    var bounds := Bounds(st.readings);
    if bounds.Some? {
      AdvanceKeepsHistory(st, bounds.value, VirtualDelta(st.lastTickAt, tick), tick.now);
      BoundsFromHistory(Step(st, tick).readings);
      BoundsFromHistory(st.readings);
    }
  }

  lemma AdvanceKeepsHistory(st: Engine, w: Window, delta: int, now: int)
    ensures History(Advance(st, w, delta, now).readings) == History(st.readings)
  {
    AppendedCopies(st.readings, Passed(st.readings, w, CursorOf(st, w), delta), st.nextId, now, st.tickCount + 1);
  }

  lemma AppendedCopies(readings: seq<Reading>, rows: seq<Reading>, id: int, now: int, tick: nat)
    ensures History(readings + Copies(rows, id, now, tick)) == History(readings)
  {
    CopiesAreNotHistorical(rows, id, now, tick);
    CountAppend(readings, Copies(rows, id, now, tick), (r: Reading) => IsHistorical(r));
  }

  /** A reading with a unique id is in a slice once or not at all. */
  lemma SliceCount(readings: seq<Reading>, r: Reading, lo: int, hi: int)
    requires Unique(readings, r)
    ensures Count(Slice(readings, lo, hi), (q: Reading) => q.id == r.id) == if lo < r.at <= hi then 1 else 0
  {
    var within := (q: Reading) => IsHistorical(q) && lo < q.at <= hi;
    var same := (q: Reading) => q.id == r.id;
    var both := (q: Reading) => (IsHistorical(q) && lo < q.at <= hi) && q.id == r.id;
    FilterFilter(readings, within, same, both);
    if lo < r.at <= hi {
      CountCongruence(readings, both, (q: Reading) => IsHistorical(q) && q.id == r.id);
    } else {
      CountNone(readings, both);
    }
  }

  lemma PassedCount(readings: seq<Reading>, r: Reading, w: Window, cursor: int, delta: nat)
    requires Unique(readings, r) && w.start <= r.at <= w.end && w.start <= cursor <= w.end
    ensures Count(Passed(readings, w, cursor, delta), (q: Reading) => q.id == r.id)
         == Replays(r.at - w.start, w.end - w.start, cursor - w.start, delta)
  {
    ReplaysBySlice(w, r.at, cursor, delta, NextCursor(w, cursor, delta));
    if cursor + delta <= w.end {
      SliceCount(readings, r, cursor, cursor + delta);
    } else {
      TwoSlices(readings, r, cursor, w.end, w.start - 1, NextCursor(w, cursor, delta));
    }
  }

  lemma TwoSlices(readings: seq<Reading>, r: Reading, lo: int, hi: int, lo': int, hi': int)
    requires Unique(readings, r)
    ensures Count(Slice(readings, lo, hi) + Slice(readings, lo', hi'), (q: Reading) => q.id == r.id)
         == (if lo < r.at <= hi then 1 else 0) + (if lo' < r.at <= hi' then 1 else 0)
  {
    SliceCount(readings, r, lo, hi);
    SliceCount(readings, r, lo', hi');
    CountAppend(Slice(readings, lo, hi), Slice(readings, lo', hi'), (q: Reading) => q.id == r.id);
  }

  lemma ReplaysBySlice(w: Window, at: int, cursor: int, delta: int, next: int)
    requires w.start <= at <= w.end && next == NextCursor(w, cursor, delta)
    ensures Replays(at - w.start, w.end - w.start, cursor - w.start, delta)
         == if cursor + delta <= w.end then (if cursor < at <= cursor + delta then 1 else 0)
            else (if cursor < at <= w.end then 1 else 0) + (if w.start - 1 < at <= next then 1 else 0)
  {
    ShiftedWindow(w, cursor, delta);
  }

  lemma ShiftedWindow(w: Window, cursor: int, delta: int)
    ensures NextCursor(w, cursor, delta) - w.start == NextOffset(w.end - w.start, cursor - w.start, delta)
  {
  }

  /** The reading is in the table once, and its id is its own among the historical ones. */
  ghost predicate Unique(readings: seq<Reading>, r: Reading) {
    && IsHistorical(r)
    && Count(readings, (q: Reading) => IsHistorical(q) && q.id == r.id) == 1
    && forall q | q in readings && IsHistorical(q) && q.id == r.id :: q == r
  }

  lemma UniqueFromHistory(readings: seq<Reading>, later: seq<Reading>, r: Reading)
    requires Unique(readings, r) && History(readings) == History(later)
    ensures Unique(later, r)
  {
    var historical, same := (q: Reading) => IsHistorical(q), (q: Reading) => q.id == r.id;
    var both := (q: Reading) => IsHistorical(q) && q.id == r.id;
    FilterFilter(readings, historical, same, both);
    FilterFilter(later, historical, same, both);
    FilterMembers(readings, historical);
    FilterMembers(later, historical);
    forall q | q in later && IsHistorical(q) && q.id == r.id ensures q == r {
      assert q in History(later);
    }
  }

  /** A fresh engine over a window that is not a single instant. */
  ghost predicate Fresh(st: Engine, w: Window) {
    st.cursor.None? && Bounds(st.readings) == Some(w) && w.start < w.end
  }

  /** The state row shows the virtual clock at that time, and r was replayed once for every pass until then. */
  ghost predicate OnClock(st: Engine, w: Window, r: Reading, earlier: nat, time: nat, laps: nat) {
    var span := w.end - w.start;
    && Clock(time, span, laps, CursorOf(st, w) - w.start)
    && ReplayCount(st.readings, r.id) == earlier + Crossings(FirstPass(r.at - w.start, span), span, time)
  }

  /** On a gentle run the state row is the virtual clock, and each reading has been replayed once per pass. */
  lemma {:induction false} RunFollowsTheClock(st: Engine, ticks: seq<Tick>, w: Window, r: Reading) returns (laps: nat)
    requires Fresh(st, w) && Gentle(st, ticks, w) && Unique(st.readings, r) && w.start <= r.at <= w.end
    ensures TotalVirtual(st, ticks) >= 0
    ensures OnClock(Run(st, ticks), w, r, ReplayCount(st.readings, r.id), TotalVirtual(st, ticks), laps)
  {
    laps := 0;
    if ticks != [] {
      var front := ticks[..|ticks| - 1];
      laps := RunFollowsTheClock(st, front, w, r);
      var delta := LastTick(st, ticks, w);
      RunKeepsHistory(st, front);
      UniqueFromHistory(st.readings, Run(st, front).readings, r);
      laps := AdvanceOnClock(Run(st, front), Run(st, ticks), w, delta, ticks[|ticks| - 1].now, r,
                             ReplayCount(st.readings, r.id), TotalVirtual(st, front), TotalVirtual(st, ticks), laps);
    }
  }

  lemma LastTick(st: Engine, ticks: seq<Tick>, w: Window) returns (delta: nat)
    requires Fresh(st, w) && ticks != [] && Gentle(st, ticks, w)
    ensures var front := ticks[..|ticks| - 1];
            && Run(st, ticks) == Advance(Run(st, front), w, delta, ticks[|ticks| - 1].now)
            && TotalVirtual(st, ticks) == TotalVirtual(st, front) + delta
            && CursorOf(Run(st, front), w) + delta - w.end < w.end - w.start
  {
    var before, tick := Run(st, ticks[..|ticks| - 1]), ticks[|ticks| - 1];
    VirtualDeltaIsForward(before.lastTickAt, tick);
    RunKeepsHistory(st, ticks[..|ticks| - 1]);
    delta := VirtualDelta(before.lastTickAt, tick);
  }

  lemma AdvanceOnClock(st: Engine, st': Engine, w: Window, delta: nat, now: int, r: Reading, earlier: nat, time: nat, time': int, laps: nat)
    returns (laps': nat)
    requires st' == Advance(st, w, delta, now) && time' == time + delta
    requires w.start < w.end && Unique(st.readings, r) && w.start <= r.at <= w.end
    requires CursorOf(st, w) + delta - w.end < w.end - w.start
    requires OnClock(st, w, r, earlier, time, laps)
    ensures time' >= 0 && OnClock(st', w, r, earlier, time', laps')
  {
    AdvanceReplays(st, w, delta, now, r);
    GentleTick(r.at - w.start, w.end - w.start, time, laps, CursorOf(st, w) - w.start, delta);
    laps' := if CursorOf(st, w) + delta <= w.end then laps else laps + 1;
  }

  lemma AdvanceReplays(st: Engine, w: Window, delta: nat, now: int, r: Reading)
    requires w.start <= CursorOf(st, w) <= w.end
    requires Unique(st.readings, r) && w.start <= r.at <= w.end
    ensures ReplayCount(Advance(st, w, delta, now).readings, r.id)
         == ReplayCount(st.readings, r.id) + Replays(r.at - w.start, w.end - w.start, CursorOf(st, w) - w.start, delta)
    ensures CursorOf(Advance(st, w, delta, now), w) - w.start == NextOffset(w.end - w.start, CursorOf(st, w) - w.start, delta)
  {
    var rows := Passed(st.readings, w, CursorOf(st, w), delta);
    CopiesCount(rows, st.nextId, now, st.tickCount + 1, r.id);
    CountAppend(st.readings, Copies(rows, st.nextId, now, st.tickCount + 1), (q: Reading) => IsReplayOf(q, r.id));
    PassedCount(st.readings, r, w, CursorOf(st, w), delta);
    ShiftedWindow(w, CursorOf(st, w), delta);
  }

  /** How the virtual time is cut into ticks does not matter: only its total does. */
  lemma ReplaysDependOnTotalTimeOnly(st: Engine, some: seq<Tick>, other: seq<Tick>, w: Window, r: Reading)
    requires Fresh(st, w) && Gentle(st, some, w) && Gentle(st, other, w)
    requires TotalVirtual(st, some) == TotalVirtual(st, other)
    requires Unique(st.readings, r) && w.start <= r.at <= w.end
    ensures ReplayCount(Run(st, some).readings, r.id) == ReplayCount(Run(st, other).readings, r.id)
    ensures CursorOf(Run(st, some), w) == CursorOf(Run(st, other), w)
  {
    var laps := RunFollowsTheClock(st, some, w, r);
    var laps' := RunFollowsTheClock(st, other, w, r);
    SameClockSameReplays(Run(st, some), Run(st, other), w, r, ReplayCount(st.readings, r.id), TotalVirtual(st, some), laps, laps');
  }

  lemma SameClockSameReplays(st: Engine, st': Engine, w: Window, r: Reading, earlier: nat, time: nat, laps: nat, laps': nat)
    requires w.start < w.end && OnClock(st, w, r, earlier, time, laps) && OnClock(st', w, r, earlier, time, laps')
    ensures ReplayCount(st.readings, r.id) == ReplayCount(st'.readings, r.id) && CursorOf(st, w) == CursorOf(st', w)
  {
    ClockIsUnique(time, w.end - w.start, laps, CursorOf(st, w) - w.start, laps', CursorOf(st', w) - w.start);
  }

  lemma ClockIsUnique(time: int, span: int, laps: nat, offset: int, laps': nat, offset': int)
    requires span > 0 && Clock(time, span, laps, offset) && Clock(time, span, laps', offset')
    ensures laps == laps' && offset == offset'
  {
    if laps < laps' {
      SpansGrow(laps, laps', span);
    } else if laps' < laps {
      SpansGrow(laps', laps, span);
    }
  }

  // The virtual clock against the wall clock.

  /** Rounding moves a number by at most half a microsecond, and a whole number not at all. */
  lemma RoundingIsNear(x: real)
    ensures x - 0.5 <= RoundHalfEven(x) as real <= x + 0.5
    ensures x == x.Floor as real ==> RoundHalfEven(x) as real == x
    ensures RoundHalfEven(x) as real - x == 0.5 || x - RoundHalfEven(x) as real == 0.5 ==> RoundHalfEven(x) % 2 == 0
  {
  }

  /** At one speed and with the wall clock never running backwards from `from` on. */
  ghost predicate Steady(from: int, ticks: seq<Tick>, speed: real)
    decreases |ticks|
  {
    ticks == []
    || var n := |ticks| - 1;
       && Steady(from, ticks[..n], speed) && ticks[n].speed == speed
       && ticks[n].now >= LastMoment(from, ticks[..n])
  }

  function LastMoment(from: int, ticks: seq<Tick>): int {
    if ticks == [] then from else ticks[|ticks| - 1].now
  }

  /** Wall-clock time of a run: from the tick before it, or from one interval before its first tick, to its last tick. */
  function WallTime(lastTickAt: Option<int>, ticks: seq<Tick>): int {
    if ticks == [] then 0
    else ticks[|ticks| - 1].now - Since(lastTickAt, ticks[0])
  }

  function Since(lastTickAt: Option<int>, first: Tick): int {
    if lastTickAt.Some? then lastTickAt.value else first.now - first.interval
  }

  lemma {:induction false} LastTickIsRemembered(st: Engine, ticks: seq<Tick>)
    requires Bounds(st.readings).Some?
    ensures Run(st, ticks).lastTickAt == if ticks == [] then st.lastTickAt else Some(ticks[|ticks| - 1].now)
  {
    if ticks != [] {
      RunKeepsHistory(st, ticks[..|ticks| - 1]);
    }
  }

  /** How far a clock at this speed gets in that many microseconds: the product, by repeated addition. */
  function Ahead(time: nat, speed: real): real {
    if time == 0 then 0.0 else Ahead(time - 1, speed) + speed
  }

  lemma {:induction false} AheadIsProduct(time: nat, speed: real)
    ensures Ahead(time, speed) == Times(time, speed)
  {
    if time > 0 {
      AheadIsProduct(time - 1, speed);
    }
  }

  lemma {:induction false} AheadAdds(a: nat, b: nat, speed: real)
    ensures Ahead(a + b, speed) == Ahead(a, speed) + Ahead(b, speed)
  {
    if b > 0 {
      AheadAdds(a, b - 1, speed);
    }
  }

  ghost predicate IsNear(delta: int, target: real, error: real) {
    target - error <= delta as real <= target + error
  }

  lemma RoundedNear(x: real, target: real)
    requires x == target
    ensures IsNear(RoundHalfEven(x), target, 0.5)
    ensures target == target.Floor as real ==> RoundHalfEven(x) as real == target
  {
    RoundingIsNear(x);
  }

  /** What a tick adds: the time since the one before it, times the speed, up to half a microsecond. */
  lemma DeltaIsElapsed(lastTickAt: Option<int>, tick: Tick, elapsed: nat)
    requires elapsed == tick.now - Since(lastTickAt, tick)
    ensures IsNear(VirtualDelta(lastTickAt, tick), Ahead(elapsed, tick.speed), 0.5)
    ensures Ahead(elapsed, tick.speed) == Ahead(elapsed, tick.speed).Floor as real ==> VirtualDelta(lastTickAt, tick) as real == Ahead(elapsed, tick.speed)
  {
    AheadIsProduct(elapsed, tick.speed);
    RoundedNear(Times(elapsed, tick.speed), Ahead(elapsed, tick.speed));
    assert VirtualDelta(lastTickAt, tick) == RoundHalfEven(Times(elapsed, tick.speed));
  }

  /** When the wall clock has gone backwards, the virtual clock stands still. */
  lemma BackwardsClockStands(last: int, tick: Tick)
    requires tick.now <= last
    ensures VirtualDelta(Some(last), tick) == 0
  {
    assert Times(Max(tick.now - last, 0), tick.speed) == 0.0;
  }

  function Half(n: nat): real {
    n as real / 2.0
  }

  lemma {:induction false} WallTimeSplits(lastTickAt: Option<int>, ticks: seq<Tick>)
    requires ticks != []
    ensures var front, tick := ticks[..|ticks| - 1], ticks[|ticks| - 1];
            WallTime(lastTickAt, ticks) == WallTime(lastTickAt, front) + tick.now - Since(if front == [] then lastTickAt else Some(front[|front| - 1].now), tick)
  {
  }

  /** The last tick of a run: the time that has elapsed before it. */
  lemma LastElapsed(st: Engine, ticks: seq<Tick>, from: int, speed: real) returns (elapsed: nat)
    requires Bounds(st.readings).Some? && ticks != [] && Steady(from, ticks, speed) && StartsAt(st, ticks, from)
    ensures var front := ticks[..|ticks| - 1];
            && Steady(from, front, speed) && StartsAt(st, front, from)
            && WallTime(st.lastTickAt, ticks) == WallTime(st.lastTickAt, front) + elapsed
            && elapsed == ticks[|ticks| - 1].now - Since(Run(st, front).lastTickAt, ticks[|ticks| - 1])
  {
    var front, tick := ticks[..|ticks| - 1], ticks[|ticks| - 1];
    LastTickIsRemembered(st, front);
    WallTimeSplits(st.lastTickAt, ticks);
    elapsed := tick.now - Since(Run(st, front).lastTickAt, tick);
  }

  /** The last tick moves the virtual clock ahead by that time at that speed, up to its rounding. */
  lemma LastDelta(st: Engine, ticks: seq<Tick>, from: int, speed: real, elapsed: nat) returns (delta: int)
    requires ticks != [] && Steady(from, ticks, speed)
    requires elapsed == ticks[|ticks| - 1].now - Since(Run(st, ticks[..|ticks| - 1]).lastTickAt, ticks[|ticks| - 1])
    ensures TotalVirtual(st, ticks) == TotalVirtual(st, ticks[..|ticks| - 1]) + delta
    ensures IsNear(delta, Ahead(elapsed, speed), 0.5)
    ensures Ahead(elapsed, speed) == Ahead(elapsed, speed).Floor as real ==> delta as real == Ahead(elapsed, speed)
  {
    var last, tick := Run(st, ticks[..|ticks| - 1]).lastTickAt, ticks[|ticks| - 1];
    DeltaIsElapsed(last, tick, elapsed);
    delta := VirtualDelta(last, tick);
  }

  lemma NearAdds(total: int, target: real, delta: int, more: real, n: nat)
    requires IsNear(total, target, Half(n)) && IsNear(delta, more, 0.5)
    ensures IsNear(total + delta, target + more, Half(n + 1))
  {
  }

  /** Virtual time is wall-clock time at the given speed, up to half a microsecond per tick. */
  lemma {:induction false} VirtualTimeIsAhead(st: Engine, ticks: seq<Tick>, from: int, speed: real) returns (wall: nat)
    requires Bounds(st.readings).Some? && Steady(from, ticks, speed) && StartsAt(st, ticks, from)
    ensures wall == WallTime(st.lastTickAt, ticks)
    ensures IsNear(TotalVirtual(st, ticks), Ahead(wall, speed), Half(|ticks|))
  {
    wall := 0;
    if ticks != [] {
      var front := ticks[..|ticks| - 1];
      var elapsed := LastElapsed(st, ticks, from, speed);
      var delta := LastDelta(st, ticks, from, speed, elapsed);
      wall := VirtualTimeIsAhead(st, front, from, speed);
      AheadAdds(wall, elapsed, speed);
      NearAdds(TotalVirtual(st, front), Ahead(wall, speed), delta, Ahead(elapsed, speed), |front|);
      wall := wall + elapsed;
    }
  }

  /** Virtual time is the speed times wall-clock time, up to half a microsecond per tick. */
  lemma VirtualTimeIsWallTime(st: Engine, ticks: seq<Tick>, from: int, speed: real)
    requires Bounds(st.readings).Some? && Steady(from, ticks, speed) && StartsAt(st, ticks, from)
    ensures IsNear(TotalVirtual(st, ticks), Times(WallTime(st.lastTickAt, ticks), speed), Half(|ticks|))
  {
    var wall := VirtualTimeIsAhead(st, ticks, from, speed);
    AheadIsProduct(wall, speed);
  }

  /** `from` is the moment of the tick before the run; without one it is an interval before the first tick, and intervals are not negative. */
  ghost predicate StartsAt(st: Engine, ticks: seq<Tick>, from: int) {
    ticks != [] ==> from == Since(st.lastTickAt, ticks[0]) && (st.lastTickAt.None? ==> ticks[0].interval >= 0)
  }

  lemma {:induction false} WholeAhead(time: nat, speed: nat)
    ensures Ahead(time, speed as real) == (time * speed) as real
    ensures Ahead(time, speed as real) == Ahead(time, speed as real).Floor as real
  {
    if time > 0 {
      WholeAhead(time - 1, speed);
      Distributes(time - 1, 1, speed);
    }
  }

  lemma Distributes(a: int, b: int, speed: int)
    ensures (a + b) * speed == a * speed + b * speed
  {
  }

  /** At a whole speed nothing is rounded: virtual time is exactly the speed times wall-clock time. */
  lemma {:induction false} WholeSpeedIsExact(st: Engine, ticks: seq<Tick>, from: int, speed: nat) returns (wall: nat)
    requires Bounds(st.readings).Some? && Steady(from, ticks, speed as real) && StartsAt(st, ticks, from)
    ensures wall == WallTime(st.lastTickAt, ticks) && TotalVirtual(st, ticks) == wall * speed
  {
    wall := 0;
    if ticks != [] {
      var front := ticks[..|ticks| - 1];
      var elapsed := LastElapsed(st, ticks, from, speed as real);
      var delta := LastDelta(st, ticks, from, speed as real, elapsed);
      WholeAhead(elapsed, speed);
      wall := WholeSpeedIsExact(st, front, from, speed);
      Distributes(wall, elapsed, speed);
      wall := wall + elapsed;
    }
  }

  /**
   * So after a run at a whole speed, each reading has been replayed once for every time a clock running at that speed
   * since the wall-clock start has passed it.
   */
  lemma ReplaysFollowTheWallClock(st: Engine, ticks: seq<Tick>, from: int, speed: nat, w: Window, r: Reading)
    requires Fresh(st, w) && Gentle(st, ticks, w) && Unique(st.readings, r) && w.start <= r.at <= w.end
    requires Steady(from, ticks, speed as real) && StartsAt(st, ticks, from)
    ensures WallTime(st.lastTickAt, ticks) * speed >= 0
    ensures ReplayCount(Run(st, ticks).readings, r.id)
         == ReplayCount(st.readings, r.id) + Crossings(FirstPass(r.at - w.start, w.end - w.start), w.end - w.start, WallTime(st.lastTickAt, ticks) * speed)
  {
    var laps := RunFollowsTheClock(st, ticks, w, r);
    var wall := WholeSpeedIsExact(st, ticks, from, speed);
  }

  /** At any speed the replays lie between those of the two clocks that are half a microsecond per tick off. */
  lemma ReplaysAreNearTheWallClock(st: Engine, ticks: seq<Tick>, from: int, speed: real, w: Window, r: Reading, early: nat, late: nat)
    requires Fresh(st, w) && Gentle(st, ticks, w) && Unique(st.readings, r) && w.start <= r.at <= w.end
    requires Steady(from, ticks, speed) && StartsAt(st, ticks, from)
    requires early as real <= Times(WallTime(st.lastTickAt, ticks), speed) - Half(|ticks|)
    requires late as real >= Times(WallTime(st.lastTickAt, ticks), speed) + Half(|ticks|)
    ensures var span := w.end - w.start;
            var first, before := FirstPass(r.at - w.start, span), ReplayCount(st.readings, r.id);
            before + Crossings(first, span, early) <= ReplayCount(Run(st, ticks).readings, r.id) <= before + Crossings(first, span, late)
  {
    var laps := RunFollowsTheClock(st, ticks, w, r);
    var total := TotalVirtual(st, ticks);
    VirtualTimeIsWallTime(st, ticks, from, speed);
    assert early <= total <= late;
    CrossingsBetween(FirstPass(r.at - w.start, w.end - w.start), w.end - w.start, early, total, late);
  }

  lemma CrossingsBetween(first: int, span: int, early: nat, time: nat, late: nat)
    requires early <= time <= late
    ensures Crossings(first, span, early) <= Crossings(first, span, time) <= Crossings(first, span, late)
  {
    CrossingsGrow(first, span, early, time);
    CrossingsGrow(first, span, time, late);
  }

  // What a tick adds to the table.

  /** A fresh row: the payload of a historical reading, at the moment of the tick, marked with its origin and the tick's number. */
  ghost predicate IsFreshCopy(q: Reading, readings: seq<Reading>, id: int, now: int, tick: nat) {
    && q.id == id && q.at == now && q.origin == Replayed
    && exists r | r in readings :: r.origin == Historical && q.payload == r.payload && q.source == ReplayOf(r.id, tick)
  }

  lemma {:induction false} CopiesAreFresh(readings: seq<Reading>, rows: seq<Reading>, id: int, now: int, tick: nat)
    requires forall r | r in rows :: r in readings && r.origin == Historical
    ensures |Copies(rows, id, now, tick)| == |rows|
    ensures forall k | 0 <= k < |rows| :: IsFreshCopy(Copies(rows, id, now, tick)[k], readings, id + k, now, tick)
  {
    if rows != [] {
      var n := |rows| - 1;
      CopiesAreFresh(readings, rows[..n], id, now, tick);
      assert rows[n] in rows;
      assert rows == rows[..n] + [rows[n]];
    }
  }

  lemma SliceIsHistorical(readings: seq<Reading>, lo: int, hi: int)
    ensures forall r | r in Slice(readings, lo, hi) :: r in readings && r.origin == Historical
  {
    FilterMembers(readings, (r: Reading) => IsHistorical(r) && lo < r.at <= hi);
  }

  /** A tick keeps every row and adds only fresh copies under new ids; it is remembered with its number and moment. */
  lemma StepAddsFreshCopies(st: Engine, tick: Tick)
    requires Bounds(st.readings).Some?
    ensures var next := Step(st, tick);
            && st.readings <= next.readings && next.tickCount == st.tickCount + 1 && next.lastTickAt == Some(tick.now)
            && next.nextId == st.nextId + |next.readings| - |st.readings|
            && forall k | |st.readings| <= k < |next.readings| ::
                 IsFreshCopy(next.readings[k], st.readings, st.nextId + k - |st.readings|, tick.now, st.tickCount + 1)
  {
    var w, delta := Bounds(st.readings).value, VirtualDelta(st.lastTickAt, tick);
    var from := CursorOf(st, w);
    var rows := Passed(st.readings, w, from, delta);
    SliceIsHistorical(st.readings, from, from + delta);
    SliceIsHistorical(st.readings, from, w.end);
    SliceIsHistorical(st.readings, w.start - 1, NextCursor(w, from, delta));
    CopiesAreFresh(st.readings, rows, st.nextId, tick.now, st.tickCount + 1);
    var next := Step(st, tick);
    assert next.readings == st.readings + Copies(rows, st.nextId, tick.now, st.tickCount + 1);
  }

  /** Without a historical reading there is no window, and a tick does nothing at all. */
  lemma NoHistoryNoTick(st: Engine, tick: Tick)
    requires forall r | r in st.readings :: r.origin != Historical
    ensures Step(st, tick) == st
  {
    BoundsAreTight(st.readings);
  }
}
