/**
 * Channel code and moment packed into one 64-bit key (`code << 48` plus microseconds since 2018), and the
 * horizon labels that two binary searches over such keys compute.
 */
module PackedKeys {
  import opened Lists
  import opened Text

  const SPAN: int := 0x1_0000_0000_0000
  const CODES: int := 0x8000
  const EPOCH: int := 1_514_764_800_000_000
  const HOUR: int := 3_600_000_000

  /** Two's-complement wrap-around of the 64-bit columns. */
  function Int64(x: int): int {
    (x + 0x8000_0000_0000_0000) % 0x1_0000_0000_0000_0000 - 0x8000_0000_0000_0000
  }

  function Key(code: nat, moment: int): int {
    Int64(Int64(code * SPAN) + (moment - EPOCH))
  }

  /** From 2018-01-01 until 2^48 microseconds later, early in December 2026. */
  predicate InEra(moment: int) {
    EPOCH <= moment < EPOCH + SPAN
  }

  lemma KeyInEra(code: nat, moment: int)
    requires code < CODES && InEra(moment)
    ensures Key(code, moment) == code * SPAN + (moment - EPOCH)
  {
  }

  /** Within the bounds, keys are ordered by code and then by moment; in particular no two pairs share a key. */
  lemma KeysEmbedTheOrder(code: nat, moment: int, other: nat, later: int)
    requires code < CODES && other < CODES && InEra(moment) && InEra(later)
    ensures Key(code, moment) < Key(other, later) <==> code < other || (code == other && moment < later)
    ensures Key(code, moment) == Key(other, later) <==> code == other && moment == later
  {
    KeyInEra(code, moment);
    KeyInEra(other, later);
  }

  ghost predicate KeepsOrder(code: nat, moment: int, other: nat, later: int) {
    && (Key(code, moment) < Key(other, later) <==> code < other || (code == other && moment < later))
    && (Key(code, moment) == Key(other, later) <==> code == other && moment == later)
  }

  /** The keys of the codes below `codes` and the `span` microseconds from 2018 on are ordered by code and moment. */
  ghost predicate Embeds(codes: nat, span: nat) {
    forall code: nat, moment: int, other: nat, later: int ::
      && code < codes && other < codes
      && 1_514_764_800_000_000 <= moment < 1_514_764_800_000_000 + span && 1_514_764_800_000_000 <= later < 1_514_764_800_000_000 + span
      ==> KeepsOrder(code, moment, other, later)
  }

  /**
   * One microsecond past the era a key is that of the next code; a code of 2^15 sorts below every other; and 2^63
   * microseconds after 2018 even a single code wraps around.
   */
  lemma KeysCollideOutsideTheBounds()
    ensures Key(0, EPOCH + SPAN) == Key(1, EPOCH)
    ensures Key(CODES, EPOCH) < Key(0, EPOCH)
    ensures Key(0, EPOCH + SPAN * CODES) < Key(0, EPOCH)
  {
  }

  /** The bounds of the packing are exact: 2^15 codes and 2^48 microseconds, or 2^63 microseconds for a single code. */
  lemma KeysEmbedTheOrderIff(codes: nat, span: nat)
    ensures Embeds(codes, span) <==> codes == 0 || span == 0 || (codes == 1 && span <= SPAN * CODES) || (codes <= CODES && span <= SPAN)
  {
    KeysCollideOutsideTheBounds();
    if codes > 0 && span > 0 {
      if codes > CODES {
        assert !KeepsOrder(CODES, EPOCH, 0, EPOCH);
      } else if codes == 1 && span > SPAN * CODES {
        assert !KeepsOrder(0, EPOCH + SPAN * CODES, 0, EPOCH);
      } else if codes > 1 && span > SPAN {
        assert !KeepsOrder(0, EPOCH + SPAN, 1, EPOCH);
      } else if codes > 1 {
        forall code: nat, moment: int, other: nat, later: int
          | code < codes && other < codes && EPOCH <= moment < EPOCH + span && EPOCH <= later < EPOCH + span
          ensures KeepsOrder(code, moment, other, later)
        {
          KeysEmbedTheOrder(code, moment, other, later);
        }
      }
    }
  }

  /** A key that does not wrap around. */
  predicate InInt64(code: nat, moment: int) {
    code < CODES && code * SPAN + (moment - EPOCH) < 0x8000_0000_0000_0000 && -0x8000_0000_0000_0000 <= moment - EPOCH
  }

  /**
   * Without wrap-around, a start of another channel is counted in a window exactly when its moment lies in that window
   * moved by the code distance times 2^48 microseconds.
   */
  lemma ForeignStartIsCountedIff(code: nat, after: int, until: int, other: nat, moment: int)
    requires InInt64(code, after) && InInt64(code, until) && InInt64(other, moment)
    ensures Key(code, after) < Key(other, moment) <= Key(code, until)
       <==> after + (code - other) * SPAN < moment <= until + (code - other) * SPAN
  {
    KeyIsPlain(code, after);
    KeyIsPlain(code, until);
    KeyIsPlain(other, moment);
    assert (code - other) * SPAN == code * SPAN - other * SPAN;
  }

  lemma KeyIsPlain(code: nat, moment: int)
    requires InInt64(code, moment)
    ensures Key(code, moment) == code * SPAN + (moment - EPOCH)
  {
    assert Int64(code * SPAN) == code * SPAN;
  }

  /** When the start is less than 2^48 microseconds away from both ends, only an own start can be counted. */
  lemma OwnStartIsCountedIff(code: nat, after: int, until: int, other: nat, moment: int)
    requires InInt64(code, after) && InInt64(code, until) && InInt64(other, moment)
    requires moment - after < SPAN && until - moment < SPAN
    ensures Key(code, after) < Key(other, moment) <= Key(code, until) <==> code == other && after < moment <= until
  {
    ForeignStartIsCountedIff(code, after, until, other, moment);
    CodeDistance(code - other);
  }

  lemma CodeDistance(distance: int)
    ensures distance >= 1 ==> distance * SPAN >= SPAN
    ensures distance <= -1 ==> distance * SPAN <= -SPAN
  {
  }

  // Codes: positions among the sorted distinct names.

  function Unique(names: seq<string>): seq<string> {
    if names == [] then [] else Include(Unique(names[..|names| - 1]), names[|names| - 1])
  }

  lemma {:induction false} UniqueMembers(names: seq<string>)
    ensures Ascending(Unique(names)) && forall x :: x in Unique(names) <==> x in names
  {
    if names != [] {
      UniqueMembers(names[..|names| - 1]);
      IncludeKeepsAscending(Unique(names[..|names| - 1]), names[|names| - 1]);
      assert names == names[..|names| - 1] + [names[|names| - 1]];
    }
  }

  function Precedes(name: string): string -> bool {
    (x: string) => Before(x, name)
  }

  /** `np.searchsorted(names, name)`: how many names come before. */
  function Code(names: seq<string>, name: string): nat {
    Count(names, Precedes(name))
  }

  lemma CodeIsPosition(names: seq<string>, i: nat)
    requires Ascending(names) && i < |names|
    ensures Code(names, names[i]) == i
  {
    forall k | i <= k < |names| ensures !Before(names[k], names[i]) {
      BeforeIsIrreflexive(names[i]);
      if k > i {
        BeforeIsAsymmetric(names[i], names[k]);
      }
    }
    FilterPrefix(names, i, Precedes(names[i]));
  }

  lemma CodesIdentifyNames(names: seq<string>, a: string, b: string)
    requires Ascending(names) && a in names && b in names
    ensures Code(names, a) < |names|
    ensures Code(names, a) == Code(names, b) <==> a == b
  {
    var i :| 0 <= i < |names| && names[i] == a;
    var j :| 0 <= j < |names| && names[j] == b;
    CodeIsPosition(names, i);
    CodeIsPosition(names, j);
  }

  // Horizon labels.

  /** An episode start; `observed` says that the quiet gap before it was seen. */
  datatype Start = Start(channel: string, first: int, observed: bool)

  function ChannelOf(starts: seq<Start>): seq<string> {
    seq(|starts|, i requires 0 <= i < |starts| => starts[i].channel)
  }

  function Names(starts: seq<Start>, ids: seq<string>): seq<string> {
    Unique(ids + ChannelOf(starts))
  }

  function KeysOf(starts: seq<Start>, names: seq<string>): seq<int> {
    seq(|starts|, i requires 0 <= i < |starts| => Key(Code(names, starts[i].channel), starts[i].first))
  }

  function Observed(): Start -> bool {
    (s: Start) => s.observed
  }

  function Unobserved(): Start -> bool {
    (s: Start) => !s.observed
  }

  function CountIn(table: seq<int>, start: int, end: int): int
    requires Sorted(table)
  {
    SearchRight(table, end) - SearchRight(table, start)
  }

  predicate InWindow(s: Start, channel: string, after: int, until: int) {
    s.channel == channel && after < s.first <= until
  }

  /** Unknown if a start without an observed quiet gap falls in the horizon, else whether an observed one does. */
  function Meaning(starts: seq<Start>, channel: string, after: int, until: int): Option<bool> {
    if exists s | s in starts :: !s.observed && InWindow(s, channel, after, until) then None
    else Some(exists s | s in starts :: s.observed && InWindow(s, channel, after, until))
  }

  /** At most 2^15 names, and every moment involved inside the era. */
  ghost predicate Fits(starts: seq<Start>, ids: seq<string>, asOf: seq<int>, hours: int)
    requires |ids| == |asOf|
  {
    && |Names(starts, ids)| <= CODES
    && (forall s | s in starts :: InEra(s.first))
    && (forall i | 0 <= i < |asOf| :: InEra(asOf[i]) && InEra(asOf[i] + hours * HOUR))
  }

  lemma KeyInWindow(starts: seq<Start>, ids: seq<string>, asOf: seq<int>, hours: int, i: nat, s: Start)
    requires |ids| == |asOf| && i < |ids| && Fits(starts, ids, asOf, hours) && s in starts
    ensures var names := Names(starts, ids);
            var code := Code(names, ids[i]);
            Key(code, asOf[i]) < Key(Code(names, s.channel), s.first) <= Key(code, asOf[i] + hours * HOUR)
            <==> InWindow(s, ids[i], asOf[i], asOf[i] + hours * HOUR)
  {
    var names := Names(starts, ids);
    UniqueMembers(ids + ChannelOf(starts));
    var k :| 0 <= k < |starts| && starts[k] == s;
    assert (ids + ChannelOf(starts))[i] == ids[i] && (ids + ChannelOf(starts))[|ids| + k] == s.channel;
    CodesIdentifyNames(names, ids[i], s.channel);
    CodesIdentifyNames(names, s.channel, ids[i]);
    KeysEmbedTheOrder(Code(names, ids[i]), asOf[i], Code(names, s.channel), s.first);
    KeysEmbedTheOrder(Code(names, ids[i]), asOf[i] + hours * HOUR, Code(names, s.channel), s.first);
  }

  /** The two searches are positive exactly when a selected start of this channel lies in the horizon. */
  lemma SearchesFindTheWindow(starts: seq<Start>, ids: seq<string>, asOf: seq<int>, hours: int, i: nat, selected: Start -> bool)
    requires |ids| == |asOf| && i < |ids| && Fits(starts, ids, asOf, hours)
    ensures var names := Names(starts, ids);
            Counted(Table(starts, selected, names), Code(names, ids[i]), asOf[i], asOf[i] + hours * HOUR)
            <==> exists s | s in starts :: selected(s) && InWindow(s, ids[i], asOf[i], asOf[i] + hours * HOUR)
  {
    var names := Names(starts, ids);
    var code := Code(names, ids[i]);
    var keys := KeysOf(Filter(starts, selected), names);
    var start, end := Key(code, asOf[i]), Key(code, asOf[i] + hours * HOUR);
    RangeCount(keys, start, end);
    CountPositive(keys, InRange(start, end));
    if k :| k in keys && InRange(start, end)(k) {
      var s := StartOfKey(starts, selected, names, k);
      KeyInWindow(starts, ids, asOf, hours, i, s);
    }
    if s :| s in starts && selected(s) && InWindow(s, ids[i], asOf[i], asOf[i] + hours * HOUR) {
      KeyInWindow(starts, ids, asOf, hours, i, s);
      KeyIsThere(starts, selected, names, s);
    }
  }

  lemma StartOfKey(starts: seq<Start>, selected: Start -> bool, names: seq<string>, k: int) returns (s: Start)
    requires k in KeysOf(Filter(starts, selected), names)
    ensures s in starts && selected(s) && k == Key(Code(names, s.channel), s.first)
  {
    var chosen := Filter(starts, selected);
    FilterMembers(starts, selected);
    var j :| 0 <= j < |chosen| && KeysOf(chosen, names)[j] == k;
    s := chosen[j];
    assert s in chosen;
  }

  lemma KeyIsThere(starts: seq<Start>, selected: Start -> bool, names: seq<string>, s: Start)
    requires s in starts && selected(s)
    ensures Key(Code(names, s.channel), s.first) in KeysOf(Filter(starts, selected), names)
  {
    var chosen := Filter(starts, selected);
    FilterMembers(starts, selected);
    var j :| 0 <= j < |chosen| && chosen[j] == s;
    assert KeysOf(chosen, names)[j] == Key(Code(names, s.channel), s.first);
  }

  function Table(starts: seq<Start>, selected: Start -> bool, names: seq<string>): (table: seq<int>)
    ensures Sorted(table)
  {
    Sorting(KeysOf(Filter(starts, selected), names))
  }

  function Counted(table: seq<int>, code: nat, after: int, until: int): bool
    requires Sorted(table)
  {
    CountIn(table, Key(code, after), Key(code, until)) > 0
  }

  /** `count(table) > 0` for every row. */
  function AnyCounted(table: seq<int>, names: seq<string>, ids: seq<string>, asOf: seq<int>, hours: int): (r: seq<bool>)
    requires Sorted(table) && |ids| == |asOf|
    ensures |r| == |ids|
  {
    seq(|ids|, i requires 0 <= i < |ids| => Counted(table, Code(names, ids[i]), asOf[i], asOf[i] + hours * HOUR))
  }

  /** `labels[mask] = nan`. */
  method Overwrite(labels: array<Option<bool>>, mask: seq<bool>)
    requires labels.Length == |mask|
    modifies labels
    ensures forall i | 0 <= i < |mask| :: labels[i] == if mask[i] then None else old(labels[i])
  {
    for i := 0 to |mask|
      invariant forall k | 0 <= k < i :: labels[k] == if mask[k] then None else old(labels[k])
      invariant forall k | i <= k < |mask| :: labels[k] == old(labels[k])
    {
      if mask[i] {
        labels[i] := None;
      }
    }
  }

  /** The labels: first whether a known start is counted, then the missing value over the rows with an unknown one. */
  method HorizonLabels(starts: seq<Start>, ids: seq<string>, asOf: seq<int>, hours: int) returns (labels: seq<Option<bool>>)
    requires |ids| == |asOf|
    ensures |labels| == |ids|
    ensures Fits(starts, ids, asOf, hours) ==>
              forall i | 0 <= i < |ids| :: labels[i] == Meaning(starts, ids[i], asOf[i], asOf[i] + hours * 3_600_000_000)
  {
    var names := Names(starts, ids);
    var known := AnyCounted(Table(starts, Observed(), names), names, ids, asOf, hours);
    var unknown := AnyCounted(Table(starts, Unobserved(), names), names, ids, asOf, hours);
    var values := new Option<bool>[|ids|](i requires 0 <= i < |ids| => Some(known[i]));
    Overwrite(values, unknown);
    labels := values[..];
    if Fits(starts, ids, asOf, hours) {
      LabelsMeanTheWindows(starts, ids, asOf, hours, known, unknown);
    }
  }

  lemma LabelMeansTheWindow(starts: seq<Start>, ids: seq<string>, asOf: seq<int>, hours: int, i: nat)
    requires |ids| == |asOf| && i < |ids| && Fits(starts, ids, asOf, hours)
    ensures CountedAt(starts, Unobserved(), ids, asOf, hours, i) <==> Meaning(starts, ids[i], asOf[i], asOf[i] + hours * HOUR) == None
    ensures !CountedAt(starts, Unobserved(), ids, asOf, hours, i) ==>
              Meaning(starts, ids[i], asOf[i], asOf[i] + hours * HOUR) == Some(CountedAt(starts, Observed(), ids, asOf, hours, i))
  {
    SearchesFindTheWindow(starts, ids, asOf, hours, i, Observed());
    SearchesFindTheWindow(starts, ids, asOf, hours, i, Unobserved());
  }

  function CountedAt(starts: seq<Start>, selected: Start -> bool, ids: seq<string>, asOf: seq<int>, hours: int, i: nat): bool
    requires |ids| == |asOf| && i < |ids|
  {
    Counted(Table(starts, selected, Names(starts, ids)), Code(Names(starts, ids), ids[i]), asOf[i], asOf[i] + hours * HOUR)
  }

  lemma LabelsMeanTheWindows(starts: seq<Start>, ids: seq<string>, asOf: seq<int>, hours: int, known: seq<bool>, unknown: seq<bool>)
    requires |known| == |unknown| == |ids| == |asOf| && Fits(starts, ids, asOf, hours)
    requires forall i: nat | i < |ids| :: known[i] == CountedAt(starts, Observed(), ids, asOf, hours, i)
    requires forall i: nat | i < |ids| :: unknown[i] == CountedAt(starts, Unobserved(), ids, asOf, hours, i)
    ensures forall i | 0 <= i < |ids| ::
              (if unknown[i] then None else Some(known[i])) == Meaning(starts, ids[i], asOf[i], asOf[i] + hours * HOUR)
  {
    forall i | 0 <= i < |ids|
      ensures (if unknown[i] then None else Some(known[i])) == Meaning(starts, ids[i], asOf[i], asOf[i] + hours * HOUR)
    {
      LabelMeansTheWindow(starts, ids, asOf, hours, i);
    }
  }
}
