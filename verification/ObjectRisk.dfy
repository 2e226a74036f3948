/**
 * Facility risks from the risk map, created in one transaction per sync, and decisions on risks with a version check and
 * an append-only journal. A new risk's random id is modelled as its position in the table.
 */
module ObjectRisk {
  import opened Lists

  datatype Status = Open | Acknowledged | Rejected | Deferred

  datatype Target = Sensor | Facility

  datatype Risk = Risk(target: Target, targetId: string, model: string, riskType: string, end: int, status: Status, version: nat, updated: int)

  /** One row of the risk map. `parsed` is missing when the row is malformed. */
  datatype MapRow = MapRow(ok: bool, alert: bool, parsed: Option<Parsed>)

  datatype Parsed = Parsed(facility: string, model: string, suspects: seq<Option<string>>)

  /** The answer of the service for one target; `horizon` in microseconds. */
  datatype Answer = Unusable | RiskMap(horizon: int, rows: seq<MapRow>)

  datatype Purpose = Incident | Failure

  // The risk type of an incident: the first suspect channel that says anything decides.

  function TypeOf(suspect: Option<string>, systems: map<string, string>): Option<string> {
    if suspect.None? then None
    else if suspect.value == "Состояние насоса" || suspect.value == "Датчик затопления" then Some("flooding")
    else if suspect.value !in systems then None
    else match systems[suspect.value]
      case "fire_protection" => Some("fire")
      case "security" => Some("unauthorized_access")
      case "diagnostic" => Some("flooding")
      case _ => None
  }

  /** Pump and flood sensors mean flooding, others what their engineering system stands for, the rest nothing. */
  lemma TypeOfIff(name: string, systems: map<string, string>)
    ensures var flood := name == "Состояние насоса" || name == "Датчик затопления";
            var known := !flood && name in systems;
            && (TypeOf(Some(name), systems) == Some("flooding") <==> flood || (known && systems[name] == "diagnostic"))
            && (TypeOf(Some(name), systems) == Some("fire") <==> known && systems[name] == "fire_protection")
            && (TypeOf(Some(name), systems) == Some("unauthorized_access") <==> known && systems[name] == "security")
            && (TypeOf(Some(name), systems).Some? ==> TypeOf(Some(name), systems).value in {"flooding", "fire", "unauthorized_access"})
    ensures TypeOf(None, systems).None?
  {
  }

  function IncidentType(suspects: seq<Option<string>>, systems: map<string, string>): string {
    if suspects == [] then "unauthorized_access"
    else
      var t := TypeOf(suspects[0], systems);
      if t.Some? then t.value else IncidentType(suspects[1..], systems)
  }

  method IncidentRiskType(suspects: seq<Option<string>>, systems: map<string, string>) returns (riskType: string)
    ensures riskType == IncidentType(suspects, systems)
    ensures forall k | 0 <= k < |suspects| && TypeOf(suspects[k], systems).Some?
                       && (forall j | 0 <= j < k :: TypeOf(suspects[j], systems).None?) :: riskType == TypeOf(suspects[k], systems).value
    ensures (forall j | 0 <= j < |suspects| :: TypeOf(suspects[j], systems).None?) ==> riskType == "unauthorized_access"
  {
    assert suspects[0..] == suspects;
    for i := 0 to |suspects|
      invariant IncidentType(suspects, systems) == IncidentType(suspects[i..], systems)
      invariant forall j | 0 <= j < i :: TypeOf(suspects[j], systems).None?
    {
      assert suspects[i..][1..] == suspects[i + 1..];
      var t := TypeOf(suspects[i], systems);
      if t.Some? {
        return t.value;
      }
    }
    riskType := "unauthorized_access";
  }

  // The sync.

  function OpenAt(facility: string, model: string, now: int): Risk -> bool {
    (r: Risk) => r.target == Facility && r.targetId == facility && r.model == model && r.status == Open && r.end > now
  }

  /** The query sees the rows this very sync has added, because the session flushes before it asks. */
  predicate HasOpenRisk(risks: seq<Risk>, facility: string, model: string, now: int) {
    exists r | r in risks :: OpenAt(facility, model, now)(r)
  }

  datatype Context = Context(facilities: set<string>, systems: map<string, string>, now: int)

  function NewRisk(p: Parsed, purpose: Purpose, horizon: int, c: Context): Risk {
    Risk(Facility, p.facility, p.model, if purpose == Failure then "sensor_failure" else IncidentType(p.suspects, c.systems),
         c.now + horizon, Open, 1, c.now)
  }

  /** One row: nothing, one more risk, or an error. */
  function AfterRow(risks: seq<Risk>, row: MapRow, purpose: Purpose, horizon: int, c: Context): Option<seq<Risk>> {
    if !row.ok || !row.alert then Some(risks)
    else if row.parsed.None? then None
    else if row.parsed.value.facility !in c.facilities then Some(risks)
    else if HasOpenRisk(risks, row.parsed.value.facility, row.parsed.value.model, c.now) then Some(risks)
    else Some(risks + [NewRisk(row.parsed.value, purpose, horizon, c)])
  }

  function AfterRows(risks: seq<Risk>, rows: seq<MapRow>, purpose: Purpose, horizon: int, c: Context): Option<seq<Risk>>
    decreases |rows|
  {
    if rows == [] then Some(risks)
    else
      var before := AfterRows(risks, rows[..|rows| - 1], purpose, horizon, c);
      if before.None? then None else AfterRow(before.value, rows[|rows| - 1], purpose, horizon, c)
  }

  function AfterAnswer(risks: seq<Risk>, answer: Answer, purpose: Purpose, c: Context): Option<seq<Risk>> {
    if answer.Unusable? then None else AfterRows(risks, answer.rows, purpose, answer.horizon, c)
  }

  /** Both targets in one transaction; `None` when either fails. */
  function AfterSync(risks: seq<Risk>, incident: Answer, failure: Answer, c: Context): Option<seq<Risk>> {
    var first := AfterAnswer(risks, incident, Incident, c);
    if first.None? then None else AfterAnswer(first.value, failure, Failure, c)
  }

  // Decisions.

  /** A journal entry names the risk by its position. */
  datatype Entry = Entry(risk: nat, decision: Status, at: int)

  function Decided(risks: seq<Risk>, k: nat, decision: Status, now: int): seq<Risk>
    requires k < |risks|
  {
    risks[k := risks[k].(status := decision, version := risks[k].version + 1, updated := now)]
  }

  class RiskDesk {
    var risks: seq<Risk>
    var journal: seq<Entry>

    constructor ()
      ensures risks == [] && journal == []
    {
      risks, journal := [], [];
    }

    /** All additions of a sync are committed together or not at all. */
    method SyncObjectRisks(incident: Answer, failure: Answer, c: Context) returns (created: Option<nat>)
      modifies `risks
      ensures created.Some? <==> AfterSync(old(risks), incident, failure, c).Some?
      ensures created.Some? ==> Some(risks) == AfterSync(old(risks), incident, failure, c) && |risks| == |old(risks)| + created.value
      ensures created.None? ==> risks == old(risks)
    {
      var session := risks;
      var count := 0;
      for t := 0 to 2
        invariant risks == old(risks)
        invariant |session| == |risks| + count
        invariant t == 0 ==> session == risks
        invariant t == 1 ==> Some(session) == AfterAnswer(risks, incident, Incident, c)
        invariant t == 2 ==> Some(session) == AfterSync(risks, incident, failure, c)
      {
        var answer, purpose := if t == 0 then incident else failure, if t == 0 then Incident else Failure;
        if answer.Unusable? {
          return None;
        }
        ghost var before := session;
        for i := 0 to |answer.rows|
          invariant risks == old(risks)
          invariant |session| == |risks| + count
          invariant Some(session) == AfterRows(before, answer.rows[..i], purpose, answer.horizon, c)
        {
          assert answer.rows[..i + 1][..i] == answer.rows[..i];
          var row := answer.rows[i];
          if !row.ok || !row.alert {
            continue;
          }
          if row.parsed.None? {
            RowErrorEndsTheAnswer(before, answer.rows, i, purpose, answer.horizon, c);
            return None;
          }
          var p := row.parsed.value;
          if p.facility !in c.facilities || HasOpenRisk(session, p.facility, p.model, c.now) {
            continue;
          }
          session := session + [NewRisk(p, purpose, answer.horizon, c)];
          count := count + 1;
        }
        assert answer.rows[..|answer.rows|] == answer.rows;
      }
      risks := session;
      created := Some(count);
    }

    /** The version check, the status change and the journal entry of one decision. */
    method ApplyDecision(k: nat, decision: Status, expected: nat, now: int) returns (applied: bool)
      requires k < |risks| && decision != Open
      modifies this
      ensures applied <==> old(risks)[k].version == expected
      ensures applied ==> risks == Decided(old(risks), k, decision, now) && journal == old(journal) + [Entry(k, decision, now)]
      ensures !applied ==> risks == old(risks) && journal == old(journal)
    {
      if risks[k].version != expected {
        return false;
      }
      var risk := risks[k].(status := decision);
      risk := risk.(version := risk.version + 1);
      risks := risks[k := risk.(updated := now)];
      journal := journal + [Entry(k, decision, now)];
      applied := true;
    }
  }

  lemma {:induction false} ErrorStays(risks: seq<Risk>, rows: seq<MapRow>, i: nat, purpose: Purpose, horizon: int, c: Context)
    requires i <= |rows| && AfterRows(risks, rows[..i], purpose, horizon, c).None?
    ensures AfterRows(risks, rows, purpose, horizon, c).None?
    decreases |rows|
  {
    if i < |rows| {
      assert rows[..|rows| - 1][..i] == rows[..i];
      ErrorStays(risks, rows[..|rows| - 1], i, purpose, horizon, c);
    } else {
      assert rows[..i] == rows;
    }
  }

  lemma RowErrorEndsTheAnswer(risks: seq<Risk>, rows: seq<MapRow>, i: nat, purpose: Purpose, horizon: int, c: Context)
    requires i < |rows| && AfterRows(risks, rows[..i], purpose, horizon, c).Some?
    requires AfterRow(AfterRows(risks, rows[..i], purpose, horizon, c).value, rows[i], purpose, horizon, c).None?
    ensures AfterRows(risks, rows, purpose, horizon, c).None?
  {
    assert rows[..i + 1][..i] == rows[..i];
    ErrorStays(risks, rows, i + 1, purpose, horizon, c);
  }

  // Runs: syncs that may fail, decisions that may be stale, and sensor risks from elsewhere, with time never going back.

  datatype World = World(risks: seq<Risk>, journal: seq<Entry>, now: int)

  datatype Step =
    | Sync(incident: Answer, failure: Answer, context: Context)
    | Decide(k: nat, decision: Status, expected: nat, at: int)
    | SensorRisk(target: string, model: string, riskType: string, end: int, at: int)

  function TimeOf(step: Step): int {
    match step
    case Sync(_, _, c) => c.now
    case Decide(_, _, _, at) => at
    case SensorRisk(_, _, _, _, at) => at
  }

  function Do(w: World, step: Step): World {
    match step
    case Sync(incident, failure, c) =>
      var after := AfterSync(w.risks, incident, failure, c);
      World(if after.Some? then after.value else w.risks, w.journal, c.now)
    case Decide(k, decision, expected, at) =>
      if k < |w.risks| && decision != Open && w.risks[k].version == expected
      then World(Decided(w.risks, k, decision, at), w.journal + [Entry(k, decision, at)], at)
      else w.(now := at)
    case SensorRisk(target, model, riskType, end, at) =>
      World(w.risks + [Risk(Sensor, target, model, riskType, end, Open, 1, at)], w.journal, at)
  }

  function Run(w: World, steps: seq<Step>): World
    decreases |steps|
  {
    if steps == [] then w else Do(Run(w, steps[..|steps| - 1]), steps[|steps| - 1])
  }

  ghost predicate Timely(w: World, steps: seq<Step>)
    decreases |steps|
  {
    steps == [] || (Timely(w, steps[..|steps| - 1]) && Run(w, steps[..|steps| - 1]).now <= TimeOf(steps[|steps| - 1]))
  }

  function Start(now: int): World {
    World([], [], now)
  }

  // At most one open risk per facility and model.

  ghost predicate Single(risks: seq<Risk>, now: int) {
    forall f, m :: SingleFor(risks, f, m, now)
  }

  ghost predicate SingleFor(risks: seq<Risk>, facility: string, model: string, now: int) {
    Count(risks, OpenAt(facility, model, now)) <= 1
  }

  lemma TimePasses(risks: seq<Risk>, now: int, later: int)
    requires Single(risks, now) && now <= later
    ensures Single(risks, later)
  {
    forall f, m ensures SingleFor(risks, f, m, later) {
      assert SingleFor(risks, f, m, now);
      CountMonotone(risks, OpenAt(f, m, later), OpenAt(f, m, now));
    }
  }

  lemma RowKeepsSingle(risks: seq<Risk>, row: MapRow, purpose: Purpose, horizon: int, c: Context)
    requires Single(risks, c.now) && AfterRow(risks, row, purpose, horizon, c).Some?
    ensures Single(AfterRow(risks, row, purpose, horizon, c).value, c.now)
  {
    var after := AfterRow(risks, row, purpose, horizon, c).value;
    if after != risks {
      var p := row.parsed.value;
      forall f, m ensures SingleFor(after, f, m, c.now) {
        assert SingleFor(risks, f, m, c.now);
        CountSnoc(risks, NewRisk(p, purpose, horizon, c), OpenAt(f, m, c.now));
        CountPositive(risks, OpenAt(f, m, c.now));
      }
    }
  }

  lemma {:induction false} RowsKeepSingle(risks: seq<Risk>, rows: seq<MapRow>, purpose: Purpose, horizon: int, c: Context)
    requires Single(risks, c.now) && AfterRows(risks, rows, purpose, horizon, c).Some?
    ensures Single(AfterRows(risks, rows, purpose, horizon, c).value, c.now)
    decreases |rows|
  {
    if rows != [] {
      RowsKeepSingle(risks, rows[..|rows| - 1], purpose, horizon, c);
      RowKeepsSingle(AfterRows(risks, rows[..|rows| - 1], purpose, horizon, c).value, rows[|rows| - 1], purpose, horizon, c);
    }
  }

  /** A sync that commits leaves at most one open risk per facility and model, however often a facility is listed. */
  lemma SyncKeepsSingle(risks: seq<Risk>, incident: Answer, failure: Answer, c: Context)
    requires Single(risks, c.now) && AfterSync(risks, incident, failure, c).Some?
    ensures Single(AfterSync(risks, incident, failure, c).value, c.now)
  {
    RowsKeepSingle(risks, incident.rows, Incident, incident.horizon, c);
    var first := AfterAnswer(risks, incident, Incident, c).value;
    RowsKeepSingle(first, failure.rows, Failure, failure.horizon, c);
  }

  // Which facilities a sync covers.

  ghost predicate Alerts(row: MapRow, facility: string, model: string) {
    row.ok && row.alert && row.parsed.Some? && row.parsed.value.facility == facility && row.parsed.value.model == model
  }

  lemma {:induction false} HasOpenStays(before: seq<Risk>, after: seq<Risk>, facility: string, model: string, now: int)
    requires before <= after && HasOpenRisk(before, facility, model, now)
    ensures HasOpenRisk(after, facility, model, now)
  {
    var r :| r in before && OpenAt(facility, model, now)(r);
    assert r in after;
  }

  /** With a horizon ahead, every known facility that the answer alerts on has an open unfinished risk afterwards. */
  lemma {:induction false} AlertedFacilitiesAreCovered(risks: seq<Risk>, rows: seq<MapRow>, purpose: Purpose, horizon: int, c: Context,
                                                       facility: string, model: string)
    requires AfterRows(risks, rows, purpose, horizon, c).Some? && horizon > 0 && facility in c.facilities
    requires exists row | row in rows :: Alerts(row, facility, model)
    ensures HasOpenRisk(AfterRows(risks, rows, purpose, horizon, c).value, facility, model, c.now)
    decreases |rows|
  {
    var n := |rows| - 1;
    var before, after := AfterRows(risks, rows[..n], purpose, horizon, c).value, AfterRows(risks, rows, purpose, horizon, c).value;
    if Alerts(rows[n], facility, model) {
      if after != before {
        assert after[|before|] == NewRisk(rows[n].parsed.value, purpose, horizon, c);
        assert after[|before|] in after && OpenAt(facility, model, c.now)(after[|before|]);
      }
    } else {
      assert rows == rows[..n] + [rows[n]];
      AlertedFacilitiesAreCovered(risks, rows[..n], purpose, horizon, c, facility, model);
      HasOpenStays(before, after, facility, model, c.now);
    }
  }

  /** The type is that of the first suspect that has one, or unauthorized access if none has. */
  ghost predicate SuspectDecides(suspects: seq<Option<string>>, systems: map<string, string>, riskType: string) {
    || ((forall j | 0 <= j < |suspects| :: TypeOf(suspects[j], systems).None?) && riskType == "unauthorized_access")
    || exists k | 0 <= k < |suspects| :: FirstTyped(suspects, systems, k) && TypeOf(suspects[k], systems) == Some(riskType)
  }

  ghost predicate FirstTyped(suspects: seq<Option<string>>, systems: map<string, string>, k: nat)
    requires k < |suspects|
  {
    TypeOf(suspects[k], systems).Some? && forall j | 0 <= j < k :: TypeOf(suspects[j], systems).None?
  }

  lemma {:induction false} SuspectDecidesIncident(suspects: seq<Option<string>>, systems: map<string, string>)
    ensures SuspectDecides(suspects, systems, IncidentType(suspects, systems))
  {
    if suspects != [] {
      if TypeOf(suspects[0], systems).Some? {
        assert FirstTyped(suspects, systems, 0);
      } else {
        var rest := suspects[1..];
        SuspectDecidesIncident(rest, systems);
        if k: nat :| k < |rest| && FirstTyped(rest, systems, k) && TypeOf(rest[k], systems) == Some(IncidentType(suspects, systems)) {
          assert suspects[k + 1] == rest[k];
          forall j | 0 <= j < k + 1 ensures TypeOf(suspects[j], systems).None? {
            if j > 0 {
              assert suspects[j] == rest[j - 1];
            }
          }
          assert FirstTyped(suspects, systems, k + 1);
        } else {
          forall j | 0 <= j < |suspects| ensures TypeOf(suspects[j], systems).None? {
            if j > 0 {
              assert suspects[j] == rest[j - 1];
            }
          }
        }
      }
    }
  }

  /** A risk of this facility and model that still blocks a new one: open, and its window not over. */
  ghost predicate Blocks(r: Risk, facility: string, model: string, now: int) {
    r.target == Facility && r.targetId == facility && r.model == model && r.status == Open && now < r.end
  }

  /** One alerting row adds a risk exactly if its facility is known and no risk blocks it; a malformed one fails; the others add nothing. */
  lemma RowAddsIff(risks: seq<Risk>, row: MapRow, purpose: Purpose, horizon: int, c: Context)
    ensures var after := AfterRow(risks, row, purpose, horizon, c);
            && (after.None? <==> row.ok && row.alert && row.parsed.None?)
            && (after.Some? ==> after.value == risks || (|after.value| == |risks| + 1 && risks <= after.value))
            && (after.Some? && after.value != risks <==>
                  && row.ok && row.alert && row.parsed.Some? && row.parsed.value.facility in c.facilities
                  && forall r | r in risks :: !Blocks(r, row.parsed.value.facility, row.parsed.value.model, c.now))
  {
    if row.parsed.Some? {
      var p := row.parsed.value;
      forall r | r in risks ensures Blocks(r, p.facility, p.model, c.now) <==> OpenAt(p.facility, p.model, c.now)(r) {
      }
    }
  }

  /** Every added risk is the one of some alerting row about a known facility. */
  lemma {:induction false} NewRisksComeFromAlerts(risks: seq<Risk>, rows: seq<MapRow>, purpose: Purpose, horizon: int, c: Context, k: nat)
    requires AfterRows(risks, rows, purpose, horizon, c).Some? && |risks| <= k < |AfterRows(risks, rows, purpose, horizon, c).value|
    ensures var r := AfterRows(risks, rows, purpose, horizon, c).value[k];
            && r.target == Facility && r.targetId in c.facilities && r.status == Open && r.version == 1
            && r.end == c.now + horizon && r.updated == c.now
            && (purpose == Failure ==> r.riskType == "sensor_failure")
            && exists row | row in rows :: Alerts(row, r.targetId, r.model) && (purpose == Incident ==> SuspectDecides(row.parsed.value.suspects, c.systems, r.riskType))
    decreases |rows|
  {
    if rows != [] {
      var n := |rows| - 1;
      var before := AfterRows(risks, rows[..n], purpose, horizon, c).value;
      var r := AfterRows(risks, rows, purpose, horizon, c).value[k];
      assert rows == rows[..n] + [rows[n]];
      if k < |before| {
        NewRisksComeFromAlerts(risks, rows[..n], purpose, horizon, c, k);
        assert r == before[k];
      } else {
        SuspectDecidesIncident(rows[n].parsed.value.suspects, c.systems);
        assert rows[n] in rows && Alerts(rows[n], r.targetId, r.model);
      }
    }
  }

  lemma {:induction false} CountAfterChange(risks: seq<Risk>, k: nat, r: Risk, p: Risk -> bool)
    requires k < |risks|
    ensures Count(risks[k := r], p) == Count(risks, p) - (if p(risks[k]) then 1 else 0) + (if p(r) then 1 else 0)
  {
    var n := |risks| - 1;
    if k < n {
      CountAfterChange(risks[..n], k, r, p);
      assert risks[k := r][..n] == risks[..n][k := r];
    } else {
      assert risks[k := r][..n] == risks[..n];
    }
  }

  lemma DecisionKeepsSingle(risks: seq<Risk>, k: nat, decision: Status, at: int)
    requires k < |risks| && decision != Open && Single(risks, at)
    ensures Single(Decided(risks, k, decision, at), at)
  {
    forall f, m ensures SingleFor(Decided(risks, k, decision, at), f, m, at) {
      assert SingleFor(risks, f, m, at);
      CountAfterChange(risks, k, Decided(risks, k, decision, at)[k], OpenAt(f, m, at));
    }
  }

  // Version and status follow the journal.

  function OfRisk(k: nat): Entry -> bool {
    (e: Entry) => e.risk == k
  }

  function LastDecision(journal: seq<Entry>, k: nat): Status {
    if journal == [] then Open
    else if journal[|journal| - 1].risk == k then journal[|journal| - 1].decision
    else LastDecision(journal[..|journal| - 1], k)
  }

  function LastMoment(journal: seq<Entry>, k: nat): Option<int> {
    if journal == [] then None
    else if journal[|journal| - 1].risk == k then Some(journal[|journal| - 1].at)
    else LastMoment(journal[..|journal| - 1], k)
  }

  ghost predicate FollowsJournal(r: Risk, journal: seq<Entry>, k: nat) {
    && r.version == 1 + Count(journal, OfRisk(k)) && r.status == LastDecision(journal, k)
    && (LastMoment(journal, k).Some? ==> r.updated == LastMoment(journal, k).value)
  }

  ghost predicate Journaled(risks: seq<Risk>, journal: seq<Entry>) {
    && (forall e | e in journal :: e.risk < |risks|)
    && forall k: nat | k < |risks| :: FollowsJournal(risks[k], journal, k)
  }

  lemma {:induction false} NoDecisionYet(journal: seq<Entry>, k: nat)
    requires forall e | e in journal :: e.risk != k
    ensures Count(journal, OfRisk(k)) == 0 && LastDecision(journal, k) == Open && LastMoment(journal, k).None?
  {
    if journal != [] {
      NoDecisionYet(journal[..|journal| - 1], k);
      assert journal[|journal| - 1] in journal;
    }
  }

  lemma AddKeepsJournaled(risks: seq<Risk>, journal: seq<Entry>, r: Risk)
    requires Journaled(risks, journal) && r.status == Open && r.version == 1
    ensures Journaled(risks + [r], journal)
  {
    NoDecisionYet(journal, |risks|);
    forall k: nat | k < |risks| + 1 ensures FollowsJournal((risks + [r])[k], journal, k) {
      if k < |risks| {
        assert FollowsJournal(risks[k], journal, k);
      }
    }
  }

  lemma {:induction false} RowsKeepJournaled(risks: seq<Risk>, journal: seq<Entry>, rows: seq<MapRow>, purpose: Purpose, horizon: int, c: Context)
    requires Journaled(risks, journal) && AfterRows(risks, rows, purpose, horizon, c).Some?
    ensures Journaled(AfterRows(risks, rows, purpose, horizon, c).value, journal)
    decreases |rows|
  {
    if rows != [] {
      RowsKeepJournaled(risks, journal, rows[..|rows| - 1], purpose, horizon, c);
      var before, row := AfterRows(risks, rows[..|rows| - 1], purpose, horizon, c).value, rows[|rows| - 1];
      if AfterRow(before, row, purpose, horizon, c).value != before {
        AddKeepsJournaled(before, journal, NewRisk(row.parsed.value, purpose, horizon, c));
      }
    }
  }

  lemma SyncKeepsJournaled(risks: seq<Risk>, journal: seq<Entry>, incident: Answer, failure: Answer, c: Context)
    requires Journaled(risks, journal) && AfterSync(risks, incident, failure, c).Some?
    ensures Journaled(AfterSync(risks, incident, failure, c).value, journal)
  {
    RowsKeepJournaled(risks, journal, incident.rows, Incident, incident.horizon, c);
    RowsKeepJournaled(AfterAnswer(risks, incident, Incident, c).value, journal, failure.rows, Failure, failure.horizon, c);
  }

  lemma DecisionKeepsJournaled(risks: seq<Risk>, journal: seq<Entry>, k: nat, decision: Status, at: int)
    requires k < |risks| && Journaled(risks, journal)
    ensures Journaled(Decided(risks, k, decision, at), journal + [Entry(k, decision, at)])
  {
    var later := journal + [Entry(k, decision, at)];
    assert later[..|journal|] == journal;
    forall i: nat | i < |risks| ensures FollowsJournal(Decided(risks, k, decision, at)[i], later, i) {
      assert FollowsJournal(risks[i], journal, i);
      CountSnoc(journal, Entry(k, decision, at), OfRisk(i));
    }
  }

  /** On every run: one open unfinished risk per facility and model at most, and every risk is as its journal says. */
  lemma {:induction false} RunKeepsDesk(steps: seq<Step>, start: int)
    requires Timely(Start(start), steps)
    ensures Single(Run(Start(start), steps).risks, Run(Start(start), steps).now)
    ensures Journaled(Run(Start(start), steps).risks, Run(Start(start), steps).journal)
  {
    if steps == [] {
      forall f, m ensures SingleFor([], f, m, start) {
      }
    } else {
      var n := |steps| - 1;
      RunKeepsDesk(steps[..n], start);
      var w := Run(Start(start), steps[..n]);
      TimePasses(w.risks, w.now, TimeOf(steps[n]));
      StepKeepsDesk(w, steps[n]);
    }
  }

  lemma StepKeepsDesk(w: World, step: Step)
    requires Single(w.risks, TimeOf(step)) && Journaled(w.risks, w.journal)
    ensures Single(Do(w, step).risks, Do(w, step).now) && Journaled(Do(w, step).risks, Do(w, step).journal)
  {
    match step {
      case Sync(incident, failure, c) =>
        if AfterSync(w.risks, incident, failure, c).Some? {
          SyncKeepsSingle(w.risks, incident, failure, c);
          SyncKeepsJournaled(w.risks, w.journal, incident, failure, c);
        }
      case Decide(k, decision, expected, at) =>
        if k < |w.risks| && decision != Open && w.risks[k].version == expected {
          DecisionKeepsSingle(w.risks, k, decision, at);
          DecisionKeepsJournaled(w.risks, w.journal, k, decision, at);
        }
      case SensorRisk(target, model, riskType, end, at) =>
        SensorRiskKeepsSingle(w.risks, Do(w, step).risks[|w.risks|], at);
        AddKeepsJournaled(w.risks, w.journal, Do(w, step).risks[|w.risks|]);
    }
  }

  lemma SensorRiskKeepsSingle(risks: seq<Risk>, r: Risk, now: int)
    requires Single(risks, now) && r.target == Sensor
    ensures Single(risks + [r], now)
  {
    forall f, m ensures SingleFor(risks + [r], f, m, now) {
      assert SingleFor(risks, f, m, now);
      CountSnoc(risks, r, OpenAt(f, m, now));
    }
  }

  lemma {:induction false} LastEntryDecides(journal: seq<Entry>, i: nat)
    requires i < |journal| && forall j | i < j < |journal| :: journal[j].risk != journal[i].risk
    ensures LastDecision(journal, journal[i].risk) == journal[i].decision && LastMoment(journal, journal[i].risk) == Some(journal[i].at)
  {
    if i < |journal| - 1 {
      LastEntryDecides(journal[..|journal| - 1], i);
    }
  }

  // Nothing is ever removed, and versions only rise.

  ghost predicate Extends(after: seq<Risk>, before: seq<Risk>) {
    |before| <= |after| && forall k | 0 <= k < |before| :: Succeeds(after[k], before[k])
  }

  ghost predicate Succeeds(after: Risk, before: Risk) {
    && before.version <= after.version
    && (after.version == before.version ==> after == before)
    && after.(status := before.status, version := before.version, updated := before.updated) == before
  }

  lemma {:induction false} RowsOnlyAppend(risks: seq<Risk>, rows: seq<MapRow>, purpose: Purpose, horizon: int, c: Context)
    requires AfterRows(risks, rows, purpose, horizon, c).Some?
    ensures risks <= AfterRows(risks, rows, purpose, horizon, c).value
    decreases |rows|
  {
    if rows != [] {
      RowsOnlyAppend(risks, rows[..|rows| - 1], purpose, horizon, c);
    }
  }

  lemma StepExtends(w: World, step: Step)
    ensures Extends(Do(w, step).risks, w.risks)
  {
    if step.Sync? && AfterSync(w.risks, step.incident, step.failure, step.context).Some? {
      RowsOnlyAppend(w.risks, step.incident.rows, Incident, step.incident.horizon, step.context);
      var first := AfterAnswer(w.risks, step.incident, Incident, step.context).value;
      RowsOnlyAppend(first, step.failure.rows, Failure, step.failure.horizon, step.context);
    }
  }

  lemma {:induction false} RunExtends(w: World, steps: seq<Step>)
    ensures Extends(Run(w, steps).risks, w.risks)
    decreases |steps|
  {
    if steps != [] {
      var n := |steps| - 1;
      RunExtends(w, steps[..n]);
      StepExtends(Run(w, steps[..n]), steps[n]);
      var mid, after := Run(w, steps[..n]).risks, Run(w, steps).risks;
      forall k | 0 <= k < |w.risks| ensures Succeeds(after[k], w.risks[k]) {
        assert Succeeds(mid[k], w.risks[k]) && Succeeds(after[k], mid[k]);
      }
    }
  }

  /** Once a decision was applied at a version, no later decision that expects it is applied, whatever happens between. */
  lemma AppliedVersionIsGone(w: World, k: nat, first: Status, expected: nat, at: int, steps: seq<Step>, second: Status, later: int)
    requires k < |w.risks| && first != Open && w.risks[k].version == expected
    ensures var meanwhile := Run(Do(w, Decide(k, first, expected, at)), steps);
            Do(meanwhile, Decide(k, second, expected, later)) == meanwhile.(now := later)
  {
    var once := Do(w, Decide(k, first, expected, at));
    RunExtends(once, steps);
    assert Succeeds(Run(once, steps).risks[k], once.risks[k]);
  }

  // What each step of a run brings about.

  lemma RunSnoc(w: World, steps: seq<Step>, step: Step)
    ensures Run(w, steps + [step]) == Do(Run(w, steps), step)
  {
    var all := steps + [step];
    assert all[..|all| - 1] == steps && all[|all| - 1] == step;
  }

  ghost predicate Malformed(answer: Answer) {
    answer.Unusable? || exists row | row in answer.rows :: row.ok && row.alert && row.parsed.None?
  }

  lemma {:induction false} RowsFailIff(risks: seq<Risk>, rows: seq<MapRow>, purpose: Purpose, horizon: int, c: Context)
    ensures AfterRows(risks, rows, purpose, horizon, c).None? <==> exists row | row in rows :: row.ok && row.alert && row.parsed.None?
    decreases |rows|
  {
    if rows != [] {
      var n := |rows| - 1;
      RowsFailIff(risks, rows[..n], purpose, horizon, c);
      assert rows == rows[..n] + [rows[n]];
    }
  }

  /** A sync fails exactly if an answer cannot be used or has a malformed alerting row. */
  lemma SyncFailsIff(risks: seq<Risk>, incident: Answer, failure: Answer, c: Context)
    ensures AfterSync(risks, incident, failure, c).None? <==> Malformed(incident) || Malformed(failure)
  {
    if incident.RiskMap? {
      RowsFailIff(risks, incident.rows, Incident, incident.horizon, c);
      var first := AfterAnswer(risks, incident, Incident, c);
      if first.Some? && failure.RiskMap? {
        RowsFailIff(first.value, failure.rows, Failure, failure.horizon, c);
      }
    }
  }

  ghost predicate AlertedIn(answer: Answer, facility: string, model: string) {
    answer.RiskMap? && answer.horizon > 0 && exists row | row in answer.rows :: Alerts(row, facility, model)
  }

  /** After any run, a sync that does not fail leaves every known facility with an alert covered, and one that fails changes no risk. */
  lemma SyncTakesEffect(start: int, steps: seq<Step>, incident: Answer, failure: Answer, c: Context, facility: string, model: string)
    ensures var before, after := Run(Start(start), steps).risks, Run(Start(start), steps + [Sync(incident, failure, c)]).risks;
            && (Malformed(incident) || Malformed(failure) ==> after == before)
            && (!Malformed(incident) && !Malformed(failure) ==> before <= after)
            && (!Malformed(incident) && !Malformed(failure) && facility in c.facilities
                && (AlertedIn(incident, facility, model) || AlertedIn(failure, facility, model)) ==>
                  exists r | r in after :: Blocks(r, facility, model, c.now))
  {
    var w := Run(Start(start), steps);
    RunSnoc(Start(start), steps, Sync(incident, failure, c));
    SyncFailsIff(w.risks, incident, failure, c);
    if !Malformed(incident) && !Malformed(failure) {
      SyncCovers(w.risks, incident, failure, c, facility, model);
    }
  }

  lemma SyncCovers(risks: seq<Risk>, incident: Answer, failure: Answer, c: Context, facility: string, model: string)
    requires AfterSync(risks, incident, failure, c).Some?
    ensures risks <= AfterSync(risks, incident, failure, c).value
    ensures facility in c.facilities && (AlertedIn(incident, facility, model) || AlertedIn(failure, facility, model)) ==>
              exists r | r in AfterSync(risks, incident, failure, c).value :: Blocks(r, facility, model, c.now)
  {
    var first, second := AfterAnswer(risks, incident, Incident, c).value, AfterSync(risks, incident, failure, c).value;
    RowsOnlyAppend(risks, incident.rows, Incident, incident.horizon, c);
    RowsOnlyAppend(first, failure.rows, Failure, failure.horizon, c);
    if facility in c.facilities && AlertedIn(failure, facility, model) {
      AlertedFacilitiesAreCovered(first, failure.rows, Failure, failure.horizon, c, facility, model);
    } else if facility in c.facilities && AlertedIn(incident, facility, model) {
      AlertedFacilitiesAreCovered(risks, incident.rows, Incident, incident.horizon, c, facility, model);
      HasOpenStays(first, second, facility, model, c.now);
    }
    if HasOpenRisk(second, facility, model, c.now) {
      var r :| r in second && OpenAt(facility, model, c.now)(r);
      assert Blocks(r, facility, model, c.now);
    }
  }

  /** After any run, a decision at the current version changes that risk and nothing else, and is journalled; a stale one changes nothing. */
  lemma DecisionTakesEffect(start: int, steps: seq<Step>, k: nat, decision: Status, expected: nat, at: int)
    requires k < |Run(Start(start), steps).risks| && decision != Open
    ensures var before, after := Run(Start(start), steps), Run(Start(start), steps + [Decide(k, decision, expected, at)]);
            if before.risks[k].version == expected then
              && |after.risks| == |before.risks| && after.journal == before.journal + [Entry(k, decision, at)]
              && after.risks[k].status == decision && after.risks[k].version == expected + 1 && after.risks[k].updated == at
              && after.risks[k].(status := before.risks[k].status, version := expected, updated := before.risks[k].updated) == before.risks[k]
              && forall i | 0 <= i < |before.risks| && i != k :: after.risks[i] == before.risks[i]
            else after.risks == before.risks && after.journal == before.journal
  {
    RunSnoc(Start(start), steps, Decide(k, decision, expected, at));
  }
}
