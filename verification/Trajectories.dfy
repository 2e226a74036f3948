/**
 * Rebuilding run-to-failure trajectories from a table whose rows carry only a pump, a time and sometimes a
 * fault label: a backward count says how many trajectories must be open at each step, a forward loop then
 * hands the rows of each step to the open trajectories in order.
 */
module Trajectories {
  import opened Lists

  /** `time` is in microseconds since the origin of the observation window. */
  datatype Row = Row(pump: string, time: int, labelled: bool)

  datatype Reason =
    | NegativeStep(pump: string)
    | WrongRowCount(pump: string, step: nat)
    | LabelledExtra(pump: string, step: nat)
    | ExtraRows(pump: string)
    | RowsVersusOpen(pump: string, step: nat)
    | NoFaultLabel(pump: string)
    | BadLengths
    | NotOneLabel
    | StrayLabel

  datatype Result<T> = Ok(value: T) | NotReconstructable(reason: Reason)

  const STEP: int := 5 * 60 * 1_000_000
  const MAX: nat := 288

  function StepOf(row: Row): int {
    row.time / STEP
  }

  /** A row lies in its five-minute step, also before the window. */
  lemma StepHoldsItsRow(row: Row)
    ensures StepOf(row) * 300_000_000 <= row.time < (StepOf(row) + 1) * 300_000_000
  {
  }

  predicate AllowedLength(n: nat) {
    n == 12 || n == 96 || n == 288
  }

  // The rows of one pump at one step, in table order.

  function RowsAt(rows: seq<Row>, pump: string, step: int, n: nat): seq<nat>
    requires n <= |rows|
  {
    if n == 0 then []
    else
      var before := RowsAt(rows, pump, step, n - 1);
      if rows[n - 1].pump == pump && StepOf(rows[n - 1]) == step then before + [n - 1] else before
  }

  ghost predicate AtStep(rows: seq<Row>, pump: string, step: int, r: nat) {
    r < |rows| && rows[r].pump == pump && StepOf(rows[r]) == step
  }

  lemma {:induction false} RowsAtAreThose(rows: seq<Row>, pump: string, step: int, n: nat)
    requires n <= |rows|
    ensures forall r: nat :: r in RowsAt(rows, pump, step, n) <==> r < n && AtStep(rows, pump, step, r)
    ensures forall i, j | 0 <= i < j < |RowsAt(rows, pump, step, n)| :: RowsAt(rows, pump, step, n)[i] < RowsAt(rows, pump, step, n)[j]
  {
    if n > 0 {
      RowsAtAreThose(rows, pump, step, n - 1);
      var before := RowsAt(rows, pump, step, n - 1);
      assert forall i | 0 <= i < |before| :: before[i] in before;
    }
  }

  function At(rows: seq<Row>, pump: string, step: int): seq<nat> {
    RowsAt(rows, pump, step, |rows|)
  }

  function Labelled(rows: seq<Row>, indices: seq<nat>): nat {
    if indices == [] then 0
    else
      var r := indices[|indices| - 1];
      Labelled(rows, indices[..|indices| - 1]) + (if r < |rows| && rows[r].labelled then 1 else 0)
  }

  /** How many trajectories must be open at a step, counted backwards from the rows of the last step. */
  function OpenCount(rows: seq<Row>, pump: string, step: nat): nat
    requires step < MAX
    decreases MAX - step
  {
    if step == MAX - 1 then |At(rows, pump, step)|
    else OpenCount(rows, pump, step + 1) + Labelled(rows, At(rows, pump, step))
  }

  function Surplus(rows: seq<Row>, pump: string, step: nat): int
    requires step < MAX
  {
    |At(rows, pump, step)| - OpenCount(rows, pump, step)
  }

  /** Every step has exactly the rows it needs, or one unlabelled row more, which comes first. */
  ghost predicate Balanced(rows: seq<Row>, pump: string) {
    forall s: nat | s < MAX :: BalancedAt(rows, pump, s)
  }

  predicate BalancedAt(rows: seq<Row>, pump: string, step: nat)
    requires step < MAX
  {
    && 0 <= Surplus(rows, pump, step) <= 1
    && (Surplus(rows, pump, step) == 1 ==> IsUnlabelled(rows, At(rows, pump, step)[0]))
  }

  predicate IsUnlabelled(rows: seq<Row>, r: nat) {
    r < |rows| && !rows[r].labelled
  }

  /** The row a step has too many of. */
  ghost predicate IsExtra(rows: seq<Row>, pump: string, r: nat) {
    && r < |rows| && rows[r].pump == pump && 0 <= StepOf(rows[r]) < MAX
    && Surplus(rows, pump, StepOf(rows[r])) == 1 && |At(rows, pump, StepOf(rows[r]))| > 0
    && r == At(rows, pump, StepOf(rows[r]))[0]
  }

  /** The rows of a step that take part in the matching. */
  function Kept(rows: seq<Row>, pump: string, step: nat): seq<nat>
    requires step < MAX
  {
    if Surplus(rows, pump, step) == 1 && |At(rows, pump, step)| > 0 then At(rows, pump, step)[1..] else At(rows, pump, step)
  }

  method CountOpen(rows: seq<Row>, pump: string) returns (openCount: array<nat>)
    ensures fresh(openCount) && openCount.Length == MAX
    ensures forall s: nat | s < MAX :: openCount[s] == OpenCount(rows, pump, s)
  {
    openCount := new nat[MAX];
    openCount[MAX - 1] := |At(rows, pump, MAX - 1)|;
    var current := MAX - 1;
    while current > 0
      invariant 0 <= current < MAX
      invariant forall s: nat | current <= s < MAX :: openCount[s] == OpenCount(rows, pump, s)
    {
      current := current - 1;
      openCount[current] := openCount[current + 1] + Labelled(rows, At(rows, pump, current));
    }
  }

  /** The first step whose surplus is neither 0 nor 1. */
  method FindWrongCount(rows: seq<Row>, pump: string, openCount: array<nat>) returns (bad: Option<nat>)
    requires openCount.Length == MAX && forall s: nat | s < MAX :: openCount[s] == OpenCount(rows, pump, s)
    ensures bad.None? ==> CountsRight(rows, pump, MAX)
    ensures bad.Some? ==> IsWrongCount(rows, pump, bad.value)
  {
    for s := 0 to MAX
      invariant CountsRight(rows, pump, s)
    {
      var surplus := |At(rows, pump, s)| - openCount[s];
      if surplus < 0 || surplus > 1 {
        return Some(s);
      }
    }
    bad := None;
  }

  /** The first row of every surplus step before `step`. */
  function Extras(rows: seq<Row>, pump: string, step: nat): seq<nat>
    requires step <= MAX
  {
    if step == 0 then []
    else
      var before, at := Extras(rows, pump, step - 1), At(rows, pump, step - 1);
      if Surplus(rows, pump, step - 1) == 1 && at != [] then before + [at[0]] else before
  }

  lemma {:induction false} ExtrasAreThose(rows: seq<Row>, pump: string, step: nat)
    requires step <= MAX
    ensures forall r: nat :: r in Extras(rows, pump, step) <==> IsExtra(rows, pump, r) && StepOf(rows[r]) < step
  {
    if step > 0 {
      ExtrasAreThose(rows, pump, step - 1);
      FirstAt(rows, pump, step - 1);
    }
  }

  lemma StepBalance(rows: seq<Row>, pump: string, step: nat)
    requires step < MAX && 0 <= Surplus(rows, pump, step) <= 1
    ensures Surplus(rows, pump, step) == 0 ==> BalancedAt(rows, pump, step)
    ensures Surplus(rows, pump, step) == 1 ==> At(rows, pump, step) != [] && At(rows, pump, step)[0] < |rows|
    ensures Surplus(rows, pump, step) == 1 ==> (BalancedAt(rows, pump, step) <==> !rows[At(rows, pump, step)[0]].labelled)
  {
    FirstAt(rows, pump, step);
  }

  ghost predicate CountsRight(rows: seq<Row>, pump: string, n: nat) {
    forall s: nat | s < n && s < MAX :: 0 <= Surplus(rows, pump, s) <= 1
  }

  /** The first step whose row count is off. */
  ghost predicate IsWrongCount(rows: seq<Row>, pump: string, step: nat) {
    step < MAX && !(0 <= Surplus(rows, pump, step) <= 1) && CountsRight(rows, pump, step)
  }

  ghost predicate BalancedBefore(rows: seq<Row>, pump: string, n: nat) {
    forall s: nat | s < n && s < MAX :: BalancedAt(rows, pump, s)
  }

  /** All counts are right, and this is the first step whose extra row carries a label. */
  ghost predicate IsLabelledExtra(rows: seq<Row>, pump: string, step: nat) {
    step < MAX && !BalancedAt(rows, pump, step) && CountsRight(rows, pump, MAX) && BalancedBefore(rows, pump, step)
  }

  lemma BalancedIff(rows: seq<Row>, pump: string)
    ensures Balanced(rows, pump) <==> BalancedBefore(rows, pump, MAX)
    ensures Balanced(rows, pump) ==> CountsRight(rows, pump, MAX)
  {
    if Balanced(rows, pump) {
      forall s: nat | s < MAX ensures 0 <= Surplus(rows, pump, s) <= 1 {
        assert BalancedAt(rows, pump, s);
      }
    }
  }

  /** The first row of each surplus step, or the first such step whose first row is labelled. */
  method PickExtras(rows: seq<Row>, pump: string, openCount: array<nat>) returns (extra: seq<nat>, bad: Option<nat>)
    requires openCount.Length == MAX && forall s: nat | s < MAX :: openCount[s] == OpenCount(rows, pump, s)
    requires CountsRight(rows, pump, MAX)
    ensures bad.None? ==> BalancedBefore(rows, pump, MAX) && extra == Extras(rows, pump, MAX)
    ensures bad.Some? ==> IsLabelledExtra(rows, pump, bad.value)
  {
    extra, bad := [], None;
    for s := 0 to MAX
      invariant BalancedBefore(rows, pump, s)
      invariant extra == Extras(rows, pump, s)
    {
      assert 0 <= Surplus(rows, pump, s) <= 1;
      StepBalance(rows, pump, s);
      if |At(rows, pump, s)| - openCount[s] == 1 {
        var first := At(rows, pump, s)[0];
        if rows[first].labelled {
          bad := Some(s);
          return;
        }
        extra := extra + [first];
      }
    }
  }

  /** The backward count and the search for extra rows. */
  method ExtraRowsOf(rows: seq<Row>, pump: string) returns (result: Result<seq<nat>>)
    ensures result.Ok? <==> Balanced(rows, pump)
    ensures result.Ok? ==> forall r: nat :: r in result.value <==> IsExtra(rows, pump, r)
    ensures result.NotReconstructable? ==>
              || (result.reason.WrongRowCount? && result.reason.pump == pump && IsWrongCount(rows, pump, result.reason.step))
              || (result.reason.LabelledExtra? && result.reason.pump == pump && IsLabelledExtra(rows, pump, result.reason.step))
  {
    BalancedIff(rows, pump);
    var openCount := CountOpen(rows, pump);
    var bad := FindWrongCount(rows, pump, openCount);
    if bad.Some? {
      return NotReconstructable(WrongRowCount(pump, bad.value));
    }
    var extra;
    extra, bad := PickExtras(rows, pump, openCount);
    if bad.Some? {
      return NotReconstructable(LabelledExtra(pump, bad.value));
    }
    ExtrasAreThose(rows, pump, MAX);
    result := Ok(extra);
  }

  lemma FirstAt(rows: seq<Row>, pump: string, step: nat)
    ensures At(rows, pump, step) != [] ==> AtStep(rows, pump, step, At(rows, pump, step)[0])
  {
    RowsAtAreThose(rows, pump, step, |rows|);
    if At(rows, pump, step) != [] {
      assert At(rows, pump, step)[0] in At(rows, pump, step);
    }
  }

  // After dropping the extra rows, every step has exactly as many rows as trajectories are open.

  lemma {:induction false} LabelledTail(rows: seq<Row>, indices: seq<nat>)
    requires indices != []
    ensures Labelled(rows, indices)
         == Labelled(rows, indices[1..]) + (if indices[0] < |rows| && rows[indices[0]].labelled then 1 else 0)
  {
    if |indices| > 1 {
      var front := indices[..|indices| - 1];
      LabelledTail(rows, front);
      assert indices[1..][..|indices| - 2] == front[1..];
    } else {
      assert indices[..0] == [] && indices[1..] == [];
    }
  }

  lemma KeptMatchesOpen(rows: seq<Row>, pump: string, step: nat)
    requires Balanced(rows, pump) && step < MAX
    ensures |Kept(rows, pump, step)| == OpenCount(rows, pump, step)
    ensures step < MAX - 1 ==> OpenCount(rows, pump, step + 1) == OpenCount(rows, pump, step) - Labelled(rows, Kept(rows, pump, step))
  {
    assert BalancedAt(rows, pump, step);
    if Surplus(rows, pump, step) == 1 {
      LabelledTail(rows, At(rows, pump, step));
    }
  }

  lemma KeptAreThose(rows: seq<Row>, pump: string, step: nat)
    requires step < MAX
    ensures forall r: nat :: r in Kept(rows, pump, step) <==> AtStep(rows, pump, step, r) && !IsExtra(rows, pump, r)
    ensures forall i, j | 0 <= i < j < |Kept(rows, pump, step)| :: Kept(rows, pump, step)[i] < Kept(rows, pump, step)[j]
  {
    RowsAtAreThose(rows, pump, step, |rows|);
    var at, kept := At(rows, pump, step), Kept(rows, pump, step);
    if at != [] {
      assert at == [at[0]] + at[1..];
      assert at[0] !in at[1..];
    }
  }

  // Threads: the rows of one trajectory in step order, as a witness that nothing is missing or doubled.

  datatype Thread = Thread(pump: string, rows: seq<nat>)

  ghost predicate LinkOk(rows: seq<Row>, trajectory: seq<int>, id: nat, t: Thread, j: nat)
    requires |trajectory| == |rows| && j < |t.rows|
  {
    var r := t.rows[j];
    && AtStep(rows, t.pump, j, r)
    && trajectory[r] == id
    && (j + 1 < |t.rows| ==> !rows[r].labelled)
  }

  ghost predicate ThreadOk(rows: seq<Row>, trajectory: seq<int>, id: nat, t: Thread)
    requires |trajectory| == |rows|
  {
    forall j: nat | j < |t.rows| :: LinkOk(rows, trajectory, id, t, j)
  }

  ghost predicate Placed(rows: seq<Row>, trajectory: seq<int>, threads: seq<Thread>, r: nat)
    requires |trajectory| == |rows| && r < |rows|
  {
    trajectory[r] == -1
    || (&& 0 <= trajectory[r] < |threads|
        && 0 <= StepOf(rows[r]) < |threads[trajectory[r]].rows|
        && threads[trajectory[r]].rows[StepOf(rows[r])] == r)
  }

  ghost predicate Consistent(rows: seq<Row>, trajectory: seq<int>, threads: seq<Thread>) {
    && |trajectory| == |rows|
    && (forall id: nat | id < |threads| :: ThreadOk(rows, trajectory, id, threads[id]))
    && (forall r: nat | r < |rows| :: Placed(rows, trajectory, threads, r))
  }

  /** A thread another row can follow: empty, or its last row carries no fault label. */
  ghost predicate Growable(rows: seq<Row>, t: Thread) {
    t.rows == [] || IsUnlabelled(rows, t.rows[|t.rows| - 1])
  }

  ghost predicate Ended(rows: seq<Row>, t: Thread) {
    t.rows != [] && t.rows[|t.rows| - 1] < |rows| && rows[t.rows[|t.rows| - 1]].labelled
  }

  function Grown(t: Thread, r: nat): Thread {
    t.(rows := t.rows + [r])
  }

  lemma GrowThread(rows: seq<Row>, trajectory: seq<int>, threads: seq<Thread>, id: nat, r: nat)
    requires Consistent(rows, trajectory, threads) && id < |threads| && Growable(rows, threads[id])
    requires AtStep(rows, threads[id].pump, |threads[id].rows|, r) && trajectory[r] == -1
    ensures Consistent(rows, trajectory[r := id], threads[id := Grown(threads[id], r)])
  {
    var trajectory', threads' := trajectory[r := id], threads[id := Grown(threads[id], r)];
    forall k: nat | k < |threads'| ensures ThreadOk(rows, trajectory', k, threads'[k]) {
      assert ThreadOk(rows, trajectory, k, threads[k]);
      forall j: nat | j < |threads'[k].rows| ensures LinkOk(rows, trajectory', k, threads'[k], j) {
        if j < |threads[k].rows| {
          assert LinkOk(rows, trajectory, k, threads[k], j);
        }
      }
    }
    forall q: nat | q < |rows| ensures Placed(rows, trajectory', threads', q) {
      assert Placed(rows, trajectory, threads, q);
    }
  }

  /** The trajectories whose row of this step carries no label. */
  function StillOpen(rows: seq<Row>, at: seq<nat>, open: seq<nat>): seq<nat>
    requires |at| == |open|
  {
    if at == [] then []
    else
      var n := |at| - 1;
      StillOpen(rows, at[..n], open[..n]) + (if IsUnlabelled(rows, at[n]) then [open[n]] else [])
  }

  ghost predicate Rising(s: seq<nat>) {
    forall i, j | 0 <= i < j < |s| :: s[i] < s[j]
  }

  lemma {:induction false} StillOpenCount(rows: seq<Row>, at: seq<nat>, open: seq<nat>)
    requires |at| == |open| && forall k | 0 <= k < |at| :: at[k] < |rows|
    ensures |StillOpen(rows, at, open)| == |at| - Labelled(rows, at)
  {
    if at != [] {
      StillOpenCount(rows, at[..|at| - 1], open[..|at| - 1]);
    }
  }

  ghost predicate KeepsOpen(rows: seq<Row>, at: seq<nat>, open: seq<nat>, id: nat)
    requires |at| == |open|
  {
    exists k :: 0 <= k < |open| && open[k] == id && IsUnlabelled(rows, at[k])
  }

  lemma KeepsOpenSnoc(rows: seq<Row>, at: seq<nat>, open: seq<nat>, id: nat)
    requires |at| == |open| > 0
    ensures var n := |at| - 1;
            KeepsOpen(rows, at, open, id) <==> KeepsOpen(rows, at[..n], open[..n], id) || (open[n] == id && IsUnlabelled(rows, at[n]))
  {
    var n := |at| - 1;
    if KeepsOpen(rows, at[..n], open[..n], id) {
      var k :| 0 <= k < n && open[..n][k] == id && IsUnlabelled(rows, at[..n][k]);
      assert open[k] == id && IsUnlabelled(rows, at[k]);
    }
    if KeepsOpen(rows, at, open, id) && !(open[n] == id && IsUnlabelled(rows, at[n])) {
      var k :| 0 <= k < |open| && open[k] == id && IsUnlabelled(rows, at[k]);
      assert open[..n][k] == id && IsUnlabelled(rows, at[..n][k]);
    }
  }

  lemma {:induction false} StillOpenFacts(rows: seq<Row>, at: seq<nat>, open: seq<nat>)
    requires |at| == |open| && Rising(open)
    ensures Rising(StillOpen(rows, at, open))
    ensures forall id: nat :: id in StillOpen(rows, at, open) <==> KeepsOpen(rows, at, open, id)
    ensures forall id: nat :: id in StillOpen(rows, at, open) ==> id in open
  {
    if at != [] {
      var n := |at| - 1;
      StillOpenFacts(rows, at[..n], open[..n]);
      var front := StillOpen(rows, at[..n], open[..n]);
      assert open == open[..n] + [open[n]];
      assert forall i | 0 <= i < |front| :: front[i] in front;
      forall id: nat ensures id in StillOpen(rows, at, open) <==> KeepsOpen(rows, at, open, id) {
        KeepsOpenSnoc(rows, at, open, id);
      }
    }
  }

  // The forward loop.

  /** The rows of one step, in order, can be handed to the open trajectories, in order. */
  ghost predicate Ready(rows: seq<Row>, trajectory: seq<int>, threads: seq<Thread>, pump: string, step: nat, at: seq<nat>, open: seq<nat>) {
    && Consistent(rows, trajectory, threads)
    && |at| == |open| && Rising(at) && Rising(open)
    && (forall k | 0 <= k < |at| :: AtStep(rows, pump, step, at[k]) && trajectory[at[k]] == -1)
    && (forall k | 0 <= k < |open| :: OpenAt(rows, threads, pump, step, open[k]))
  }

  ghost predicate OpenAt(rows: seq<Row>, threads: seq<Thread>, pump: string, step: nat, id: nat) {
    id < |threads| && threads[id].pump == pump && |threads[id].rows| == step && Growable(rows, threads[id])
  }

  /** `trajectory[rows] = open_ids`. */
  function Assigned(trajectory: seq<int>, at: seq<nat>, open: seq<nat>): seq<int>
    requires |at| == |open| && forall k | 0 <= k < |at| :: at[k] < |trajectory|
    ensures |Assigned(trajectory, at, open)| == |trajectory|
  {
    if at == [] then trajectory
    else
      var n := |at| - 1;
      Assigned(trajectory, at[..n], open[..n])[at[n] := open[n]]
  }

  ghost function GrownAll(threads: seq<Thread>, at: seq<nat>, open: seq<nat>): seq<Thread>
    requires |at| == |open| && forall k | 0 <= k < |open| :: open[k] < |threads|
    ensures |GrownAll(threads, at, open)| == |threads|
  {
    if at == [] then threads
    else
      var n := |at| - 1;
      var before := GrownAll(threads, at[..n], open[..n]);
      before[open[n] := Grown(before[open[n]], at[n])]
  }

  lemma {:induction false} AssignedFacts(trajectory: seq<int>, at: seq<nat>, open: seq<nat>)
    requires |at| == |open| && Rising(at) && forall k | 0 <= k < |at| :: at[k] < |trajectory|
    ensures forall k | 0 <= k < |at| :: Assigned(trajectory, at, open)[at[k]] == open[k]
    ensures forall r: nat | r < |trajectory| && r !in at :: Assigned(trajectory, at, open)[r] == trajectory[r]
  {
    if at != [] {
      var n := |at| - 1;
      AssignedFacts(trajectory, at[..n], open[..n]);
      assert at == at[..n] + [at[n]];
      assert at[n] !in at[..n];
    }
  }

  lemma {:induction false} GrownFacts(threads: seq<Thread>, at: seq<nat>, open: seq<nat>)
    requires |at| == |open| && Rising(open) && forall k | 0 <= k < |open| :: open[k] < |threads|
    ensures forall k | 0 <= k < |open| :: GrownAll(threads, at, open)[open[k]] == Grown(threads[open[k]], at[k])
    ensures forall id: nat | id < |threads| && id !in open :: GrownAll(threads, at, open)[id] == threads[id]
  {
    if at != [] {
      var n := |at| - 1;
      GrownFacts(threads, at[..n], open[..n]);
      assert open == open[..n] + [open[n]];
      assert open[n] !in open[..n];
    }
  }

  /** Handing a step's rows to the open trajectories keeps every thread intact. */
  lemma {:induction false} StepKeepsThreads(rows: seq<Row>, trajectory: seq<int>, threads: seq<Thread>, pump: string, step: nat,
                                            at: seq<nat>, open: seq<nat>)
    requires Ready(rows, trajectory, threads, pump, step, at, open)
    ensures Consistent(rows, Assigned(trajectory, at, open), GrownAll(threads, at, open))
  {
    if at != [] {
      var n := |at| - 1;
      ReadyPrefix(rows, trajectory, threads, pump, step, at, open);
      StepKeepsThreads(rows, trajectory, threads, pump, step, at[..n], open[..n]);
      LastIsUntouched(rows, trajectory, threads, pump, step, at, open);
      GrowThread(rows, Assigned(trajectory, at[..n], open[..n]), GrownAll(threads, at[..n], open[..n]), open[n], at[n]);
    }
  }

  lemma ReadyPrefix(rows: seq<Row>, trajectory: seq<int>, threads: seq<Thread>, pump: string, step: nat, at: seq<nat>, open: seq<nat>)
    requires Ready(rows, trajectory, threads, pump, step, at, open) && at != []
    ensures Ready(rows, trajectory, threads, pump, step, at[..|at| - 1], open[..|at| - 1])
  {
  }

  lemma LastIsUntouched(rows: seq<Row>, trajectory: seq<int>, threads: seq<Thread>, pump: string, step: nat, at: seq<nat>, open: seq<nat>)
    requires Ready(rows, trajectory, threads, pump, step, at, open) && at != []
    ensures var n := |at| - 1;
            var t := GrownAll(threads, at[..n], open[..n])[open[n]];
            && t == threads[open[n]] && Growable(rows, t) && AtStep(rows, t.pump, |t.rows|, at[n])
            && Assigned(trajectory, at[..n], open[..n])[at[n]] == -1
  {
    var n := |at| - 1;
    AssignedFacts(trajectory, at[..n], open[..n]);
    GrownFacts(threads, at[..n], open[..n]);
    assert OpenAt(rows, threads, pump, step, open[n]);
    assert at[n] !in at[..n] && open[n] !in open[..n];
  }

  method MatchStep(rows: seq<Row>, at: seq<nat>, trajectory: array<int>, open: seq<nat>) returns (still: seq<nat>)
    requires |at| == |open| && trajectory.Length == |rows| && forall k | 0 <= k < |at| :: at[k] < |rows|
    modifies trajectory
    ensures trajectory[..] == Assigned(old(trajectory[..]), at, open)
    ensures still == StillOpen(rows, at, open)
  {
    still := [];
    for k := 0 to |at|
      invariant trajectory[..] == Assigned(old(trajectory[..]), at[..k], open[..k])
      invariant still == StillOpen(rows, at[..k], open[..k])
    {
      assert at[..k + 1][..k] == at[..k] && open[..k + 1][..k] == open[..k];
      trajectory[at[k]] := open[k];
      if !rows[at[k]].labelled {
        still := still + [open[k]];
      }
    }
    assert at[..|at|] == at && open[..|open|] == open;
  }

  function NotIn(extra: seq<nat>): nat -> bool {
    (r: nat) => r !in extra
  }

  lemma DropExtra(rows: seq<Row>, pump: string, step: nat, extra: seq<nat>)
    requires step < MAX && forall r: nat :: r in extra <==> IsExtra(rows, pump, r)
    ensures Filter(At(rows, pump, step), NotIn(extra)) == Kept(rows, pump, step)
  {
    var at, kept := At(rows, pump, step), Kept(rows, pump, step);
    KeptAreThose(rows, pump, step);
    CountAll(kept, NotIn(extra));
    if kept != at {
      FirstAt(rows, pump, step);
      assert at == [at[0]] + at[1..] && IsExtra(rows, pump, at[0]);
      CountAppend([at[0]], at[1..], NotIn(extra));
      assert [at[0]][..0] == [];
      assert Filter([at[0]], NotIn(extra)) == [];
    }
  }

  /** A row of this pump before `step` has been handed out unless it is extra; every other row is as before. */
  ghost predicate Covered(rows: seq<Row>, pump: string, before: seq<int>, trajectory: seq<int>, step: nat, r: nat)
    requires |before| == |trajectory| == |rows| && r < |rows|
  {
    if rows[r].pump == pump && 0 <= StepOf(rows[r]) < step && !IsExtra(rows, pump, r)
    then trajectory[r] != -1
    else trajectory[r] == before[r]
  }

  ghost predicate OpenOrEnded(rows: seq<Row>, pump: string, threads: seq<Thread>, open: seq<nat>, step: nat, id: nat)
    requires id < |threads|
  {
    threads[id].pump == pump && (if id in open then OpenAt(rows, threads, pump, step, id) else Ended(rows, threads[id]))
  }

  /** One pump, just before the rows of `step` are handed out. */
  ghost predicate Midway(rows: seq<Row>, pump: string, before: seq<int>, trajectory: seq<int>, base: nat,
                         threads: seq<Thread>, open: seq<nat>, step: nat)
  {
    && Consistent(rows, trajectory, threads) && |before| == |rows| && base <= |threads|
    && Rising(open) && (forall k | 0 <= k < |open| :: base <= open[k] < |threads|)
    && (forall id: nat | base <= id < |threads| :: OpenOrEnded(rows, pump, threads, open, step, id))
    && (forall r: nat | r < |rows| && rows[r].pump == pump :: before[r] == -1)
    && (forall r: nat | r < |rows| :: Covered(rows, pump, before, trajectory, step, r))
  }

  lemma MidwayIsReady(rows: seq<Row>, pump: string, before: seq<int>, trajectory: seq<int>, base: nat,
                      threads: seq<Thread>, open: seq<nat>, step: nat)
    requires step < MAX && Midway(rows, pump, before, trajectory, base, threads, open, step)
    requires |Kept(rows, pump, step)| == |open|
    ensures Ready(rows, trajectory, threads, pump, step, Kept(rows, pump, step), open)
  {
    var at := Kept(rows, pump, step);
    KeptAreThose(rows, pump, step);
    forall k | 0 <= k < |at| ensures AtStep(rows, pump, step, at[k]) && trajectory[at[k]] == -1 {
      assert at[k] in at;
      assert Covered(rows, pump, before, trajectory, step, at[k]);
    }
    forall k | 0 <= k < |open| ensures OpenAt(rows, threads, pump, step, open[k]) {
      assert open[k] in open;
      assert OpenOrEnded(rows, pump, threads, open, step, open[k]);
    }
  }

  lemma ThreadsAfterStep(rows: seq<Row>, pump: string, threads: seq<Thread>, base: nat, at: seq<nat>, open: seq<nat>, step: nat, next: nat)
    requires next == step + 1
    requires |at| == |open| && Rising(open) && forall k | 0 <= k < |at| :: at[k] < |rows|
    requires forall k | 0 <= k < |open| :: base <= open[k] < |threads|
    requires forall id: nat | base <= id < |threads| :: OpenOrEnded(rows, pump, threads, open, step, id)
    ensures forall id: nat | base <= id < |threads| ::
              OpenOrEnded(rows, pump, GrownAll(threads, at, open), StillOpen(rows, at, open), next, id)
  {
    var threads', still := GrownAll(threads, at, open), StillOpen(rows, at, open);
    GrownFacts(threads, at, open);
    StillOpenFacts(rows, at, open);
    forall id: nat | base <= id < |threads| ensures OpenOrEnded(rows, pump, threads', still, next, id) {
      assert OpenOrEnded(rows, pump, threads, open, step, id);
      if id in open {
        var k :| 0 <= k < |open| && open[k] == id;
        assert threads'[open[k]] == Grown(threads[open[k]], at[k]);
        assert KeepsOpen(rows, at, open, id) <==> IsUnlabelled(rows, at[k]);
      } else {
        assert id !in still;
      }
    }
  }

  lemma CoverageAfterStep(rows: seq<Row>, pump: string, before: seq<int>, trajectory: seq<int>, open: seq<nat>, step: nat, next: nat)
    requires next == step + 1 && step < MAX && |before| == |trajectory| == |rows| && |Kept(rows, pump, step)| == |open|
    requires forall k | 0 <= k < |Kept(rows, pump, step)| :: Kept(rows, pump, step)[k] < |rows|
    requires forall r: nat | r < |rows| :: Covered(rows, pump, before, trajectory, step, r)
    ensures forall r: nat | r < |rows| ::
              Covered(rows, pump, before, Assigned(trajectory, Kept(rows, pump, step), open), next, r)
  {
    var at := Kept(rows, pump, step);
    KeptAreThose(rows, pump, step);
    AssignedFacts(trajectory, at, open);
    forall r: nat | r < |rows| ensures Covered(rows, pump, before, Assigned(trajectory, at, open), next, r) {
      assert Covered(rows, pump, before, trajectory, step, r);
      if r in at {
        var k :| 0 <= k < |at| && at[k] == r;
        assert Assigned(trajectory, at, open)[at[k]] == open[k];
      }
    }
  }

  lemma MidwayStep(rows: seq<Row>, pump: string, before: seq<int>, trajectory: seq<int>, base: nat,
                   threads: seq<Thread>, open: seq<nat>, step: nat)
    requires step < MAX && Midway(rows, pump, before, trajectory, base, threads, open, step)
    requires |Kept(rows, pump, step)| == |open|
    ensures var at := Kept(rows, pump, step);
            && (forall k | 0 <= k < |at| :: at[k] < |rows|)
            && Midway(rows, pump, before, Assigned(trajectory, at, open), base, GrownAll(threads, at, open), StillOpen(rows, at, open), step + 1)
            && |StillOpen(rows, at, open)| == |at| - Labelled(rows, at)
            && threads[..base] == GrownAll(threads, at, open)[..base]
  {
    var at := Kept(rows, pump, step);
    MidwayIsReady(rows, pump, before, trajectory, base, threads, open, step);
    assert forall k | 0 <= k < |at| :: AtStep(rows, pump, step, at[k]);
    StepKeepsThreads(rows, trajectory, threads, pump, step, at, open);
    ThreadsAfterStep(rows, pump, threads, base, at, open, step, step + 1);
    CoverageAfterStep(rows, pump, before, trajectory, open, step, step + 1);
    StillOpenFacts(rows, at, open);
    StillOpenCount(rows, at, open);
    var still := StillOpen(rows, at, open);
    forall k | 0 <= k < |still| ensures base <= still[k] < |threads| {
      assert still[k] in still;
    }
    GrownFacts(threads, at, open);
  }

  /** At the first step every row opens a trajectory of its own. */
  lemma OpenFresh(rows: seq<Row>, pump: string, before: seq<int>, trajectory: seq<int>, threads: seq<Thread>, m: nat)
    requires Midway(rows, pump, before, trajectory, |threads|, threads, [], 0)
    ensures var threads' := threads + seq(m, _ => Thread(pump, []));
            Midway(rows, pump, before, trajectory, |threads|, threads', seq(m, i => |threads| + i), 0)
  {
    var threads' := threads + seq(m, _ => Thread(pump, []));
    var open: seq<nat> := seq(m, i => |threads| + i);
    forall id: nat | id < |threads'| ensures ThreadOk(rows, trajectory, id, threads'[id]) {
      if id < |threads| {
        assert ThreadOk(rows, trajectory, id, threads[id]);
      }
    }
    forall r: nat | r < |rows| ensures Placed(rows, trajectory, threads', r) {
      assert Placed(rows, trajectory, threads, r);
    }
    forall id: nat | |threads| <= id < |threads'| ensures OpenOrEnded(rows, pump, threads', open, 0, id) {
      assert open[id - |threads|] == id;
    }
  }

  /** How many trajectories the rows of the steps before `step` leave open. */
  function OpenAfter(rows: seq<Row>, pump: string, step: nat): int
    requires step <= MAX
  {
    if step < MAX then OpenCount(rows, pump, step)
    else |At(rows, pump, MAX - 1)| - Labelled(rows, At(rows, pump, MAX - 1))
  }

  /** At step 0 every row opens a trajectory; later none does. */
  method OpenAtStart(rows: seq<Row>, pump: string, current: nat, count: nat, trajectory: array<int>, open: seq<nat>, next: nat,
                     ghost before: seq<int>, ghost base: nat, ghost threads: seq<Thread>)
    returns (open': seq<nat>, next': nat, ghost threads': seq<Thread>)
    requires Midway(rows, pump, before, trajectory[..], base, threads, open, current) && next == |threads|
    requires current == 0 ==> base == |threads| && open == []
    ensures Midway(rows, pump, before, trajectory[..], base, threads', open', current) && next' == |threads'|
    ensures threads <= threads'
    ensures |open'| == if current == 0 then count else |open|
  {
    open', next', threads' := open, next, threads;
    if current == 0 {
      OpenFresh(rows, pump, before, trajectory[..], threads, count);
      open' := seq(count, i => next + i);
      threads' := threads + seq(count, _ => Thread(pump, []));
      next' := next + count;
    }
  }

  /** Hands the rows of one step to the open trajectories. The rows-against-open error of the source is the `assert false`. */
  method HandOut(rows: seq<Row>, pump: string, at: seq<nat>, current: nat, trajectory: array<int>, open: seq<nat>,
                 ghost before: seq<int>, ghost base: nat, ghost threads: seq<Thread>)
    returns (still: seq<nat>, ghost threads': seq<Thread>)
    requires current < MAX && Balanced(rows, pump) && at == Kept(rows, pump, current)
    requires Midway(rows, pump, before, trajectory[..], base, threads, open, current)
    requires |open| == if current == 0 then |at| else OpenAfter(rows, pump, current)
    modifies trajectory
    ensures Midway(rows, pump, before, trajectory[..], base, threads', still, current + 1)
    ensures |threads'| == |threads| && threads'[..base] == threads[..base]
    ensures |still| == OpenAfter(rows, pump, current + 1)
  {
    OpenMatchesRows(rows, pump, current, |open|);
    if |at| != |open| {
      assert false;
    }
    MidwayStep(rows, pump, before, trajectory[..], base, threads, open, current);
    threads' := GrownAll(threads, at, open);
    still := MatchStep(rows, at, trajectory, open);
  }

  /** Just before the rows of `step` are handed out, with the right number of open trajectories. */
  ghost predicate Matching(rows: seq<Row>, pump: string, before: seq<int>, trajectory: seq<int>, earlier: seq<Thread>,
                           threads: seq<Thread>, open: seq<nat>, step: nat)
  {
    && step <= MAX && earlier <= threads
    && Midway(rows, pump, before, trajectory, |earlier|, threads, open, step)
    && (if step == 0 then threads == earlier && open == [] else |open| == OpenAfter(rows, pump, step))
  }

  /** One turn of the matching loop. */
  method MatchCurrent(rows: seq<Row>, pump: string, extra: seq<nat>, current: nat, trajectory: array<int>, open: seq<nat>, next: nat,
                      ghost before: seq<int>, ghost earlier: seq<Thread>, ghost threads: seq<Thread>)
    returns (still: seq<nat>, next': nat, ghost threads': seq<Thread>)
    requires current < MAX && Balanced(rows, pump) && forall r: nat :: r in extra <==> IsExtra(rows, pump, r)
    requires Matching(rows, pump, before, trajectory[..], earlier, threads, open, current) && next == |threads|
    modifies trajectory
    ensures Matching(rows, pump, before, trajectory[..], earlier, threads', still, current + 1) && next' == |threads'|
  {
    DropExtra(rows, pump, current, extra);
    var at := Filter(At(rows, pump, current), NotIn(extra));
    still, next', threads' := OpenAtStart(rows, pump, current, |at|, trajectory, open, next, before, |earlier|, threads);
    assert threads'[..|earlier|] == earlier;
    still, threads' := HandOut(rows, pump, at, current, trajectory, still, before, |earlier|, threads');
  }

  /** The matching loop of one pump. */
  method MatchPump(rows: seq<Row>, pump: string, extra: seq<nat>, trajectory: array<int>, nextId: nat, ghost threads: seq<Thread>)
    returns (result: Result<nat>, ghost threads': seq<Thread>)
    requires Balanced(rows, pump) && forall r: nat :: r in extra <==> IsExtra(rows, pump, r)
    requires trajectory.Length == |rows| && nextId == |threads|
    requires Midway(rows, pump, trajectory[..], trajectory[..], nextId, threads, [], 0)
    modifies trajectory
    ensures result.Ok? ==> result.value == |threads'| && threads <= threads'
    ensures result.Ok? ==> Midway(rows, pump, old(trajectory[..]), trajectory[..], |threads|, threads', [], MAX)
    ensures result.NotReconstructable? ==> result.reason == NoFaultLabel(pump)
    ensures result.Ok? <==> Labelled(rows, At(rows, pump, MAX - 1)) == |At(rows, pump, MAX - 1)|
  {
    var open: seq<nat> := [];
    var next := nextId;
    ghost var before := trajectory[..];
    threads' := threads;
    for current := 0 to MAX
      invariant Matching(rows, pump, before, trajectory[..], threads, threads', open, current) && next == |threads'|
    {
      open, next, threads' := MatchCurrent(rows, pump, extra, current, trajectory, open, next, before, threads, threads');
    }
    if open != [] {
      return NotReconstructable(NoFaultLabel(pump)), threads';
    }
    result := Ok(next);
  }

  lemma OpenMatchesRows(rows: seq<Row>, pump: string, step: nat, open: nat)
    requires Balanced(rows, pump) && step < MAX
    requires open == if step == 0 then |Kept(rows, pump, step)| else OpenAfter(rows, pump, step)
    ensures open == |Kept(rows, pump, step)|
    ensures open - Labelled(rows, Kept(rows, pump, step)) == OpenAfter(rows, pump, step + 1)
  {
    KeptMatchesOpen(rows, pump, step);
  }

  // The checks on the finished table, as the group-by aggregates compute them.

  function SizeOf(trajectory: seq<int>, id: int): nat {
    Count(trajectory, EqualTo(id))
  }

  function EqualTo(id: int): int -> bool {
    (x: int) => x == id
  }

  function MaxStepOf(rows: seq<Row>, trajectory: seq<int>, id: int, n: nat): int
    requires |trajectory| == |rows| && n <= |rows|
  {
    if n == 0 then -1
    else
      var before := MaxStepOf(rows, trajectory, id, n - 1);
      if trajectory[n - 1] == id && StepOf(rows[n - 1]) > before then StepOf(rows[n - 1]) else before
  }

  function LabelsOf(rows: seq<Row>, trajectory: seq<int>, id: int, n: nat): nat
    requires |trajectory| == |rows| && n <= |rows|
  {
    if n == 0 then 0
    else LabelsOf(rows, trajectory, id, n - 1) + (if trajectory[n - 1] == id && rows[n - 1].labelled then 1 else 0)
  }

  ghost predicate Complete(rows: seq<Row>, trajectory: seq<int>, threads: seq<Thread>, id: nat) {
    Consistent(rows, trajectory, threads) && id < |threads| && Ended(rows, threads[id])
  }

  lemma InThreadIff(rows: seq<Row>, trajectory: seq<int>, threads: seq<Thread>, id: nat, r: nat)
    requires Complete(rows, trajectory, threads, id) && r < |rows|
    ensures trajectory[r] == id <==> r in threads[id].rows
    ensures r in threads[id].rows ==> 0 <= StepOf(rows[r]) < |threads[id].rows| && threads[id].rows[StepOf(rows[r])] == r
  {
    assert Placed(rows, trajectory, threads, r) && ThreadOk(rows, trajectory, id, threads[id]);
    if r in threads[id].rows {
      var j :| 0 <= j < |threads[id].rows| && threads[id].rows[j] == r;
      assert LinkOk(rows, trajectory, id, threads[id], j);
    }
  }

  function Below(n: int): nat -> bool {
    (r: nat) => r < n
  }

  lemma {:induction false} OccursOnce(s: seq<nat>, x: nat, at: int)
    requires forall j | 0 <= j < |s| :: s[j] == x <==> j == at
    ensures Count(s, Below(x + 1)) == Count(s, Below(x)) + (if 0 <= at < |s| then 1 else 0)
  {
    if s != [] {
      OccursOnce(s[..|s| - 1], x, at);
    }
  }

  lemma {:induction false} SizeIsThreadLength(rows: seq<Row>, trajectory: seq<int>, threads: seq<Thread>, id: nat, n: nat)
    requires Complete(rows, trajectory, threads, id) && n <= |rows|
    ensures Count(trajectory[..n], EqualTo(id)) == Count(threads[id].rows, Below(n))
  {
    var t := threads[id].rows;
    if n == 0 {
      CountNone(t, Below(0));
    } else {
      SizeIsThreadLength(rows, trajectory, threads, id, n - 1);
      assert trajectory[..n][..n - 1] == trajectory[..n - 1];
      InThreadIff(rows, trajectory, threads, id, n - 1);
      OnlyAtItsStep(rows, trajectory, threads, id, n - 1);
      OccursOnce(t, n - 1, if n - 1 in t then StepOf(rows[n - 1]) else -1);
    }
  }

  lemma OnlyAtItsStep(rows: seq<Row>, trajectory: seq<int>, threads: seq<Thread>, id: nat, r: nat)
    requires Complete(rows, trajectory, threads, id) && r < |rows|
    ensures var t := threads[id].rows;
            forall j | 0 <= j < |t| :: t[j] == r <==> j == if r in t then StepOf(rows[r]) else -1
  {
    var t := threads[id].rows;
    InThreadIff(rows, trajectory, threads, id, r);
    forall j | 0 <= j < |t| && t[j] == r ensures j == StepOf(rows[r]) {
      assert ThreadOk(rows, trajectory, id, threads[id]) && LinkOk(rows, trajectory, id, threads[id], j);
    }
  }

  lemma {:induction false} LastRowDecides(rows: seq<Row>, trajectory: seq<int>, threads: seq<Thread>, id: nat, n: nat)
    requires Complete(rows, trajectory, threads, id) && n <= |rows|
    ensures var t := threads[id].rows;
            var last := t[|t| - 1];
            && MaxStepOf(rows, trajectory, id, n) <= |t| - 1
            && (last < n ==> MaxStepOf(rows, trajectory, id, n) == |t| - 1)
            && LabelsOf(rows, trajectory, id, n) == if last < n then 1 else 0
  {
    if n > 0 {
      LastRowDecides(rows, trajectory, threads, id, n - 1);
      InThreadIff(rows, trajectory, threads, id, n - 1);
      var t := threads[id].rows;
      assert ThreadOk(rows, trajectory, id, threads[id]) && LinkOk(rows, trajectory, id, threads[id], |t| - 1);
      if trajectory[n - 1] == id {
        assert LinkOk(rows, trajectory, id, threads[id], StepOf(rows[n - 1]));
      }
    }
  }

  /** Gap-free steps and exactly one label follow from the matching: those two checks can never fail. */
  lemma ChecksFollowFromMatching(rows: seq<Row>, trajectory: seq<int>, threads: seq<Thread>, id: nat)
    requires Complete(rows, trajectory, threads, id)
    ensures SizeOf(trajectory, id) == |threads[id].rows|
    ensures SizeOf(trajectory, id) == MaxStepOf(rows, trajectory, id, |rows|) + 1
    ensures LabelsOf(rows, trajectory, id, |rows|) == 1
  {
    var t := threads[id].rows;
    SizeIsThreadLength(rows, trajectory, threads, id, |rows|);
    assert trajectory[..|rows|] == trajectory;
    forall r | r in t ensures r < |rows| {
      var j :| 0 <= j < |t| && t[j] == r;
      assert ThreadOk(rows, trajectory, id, threads[id]) && LinkOk(rows, trajectory, id, threads[id], j);
    }
    CountAll<nat>(t, Below(|rows|));
    LastRowDecides(rows, trajectory, threads, id, |rows|);
  }

  // The whole reconstruction.

  /** `pd.unique`: the pumps in order of first appearance. */
  function Pumps(rows: seq<Row>): seq<string> {
    if rows == [] then []
    else
      var before, pump := Pumps(rows[..|rows| - 1]), rows[|rows| - 1].pump;
      if pump in before then before else before + [pump]
  }

  lemma {:induction false} PumpsAreThose(rows: seq<Row>)
    ensures forall r | r in rows :: r.pump in Pumps(rows)
    ensures forall i, j | 0 <= i < j < |Pumps(rows)| :: Pumps(rows)[i] != Pumps(rows)[j]
  {
    if rows != [] {
      PumpsAreThose(rows[..|rows| - 1]);
      assert rows == rows[..|rows| - 1] + [rows[|rows| - 1]];
    }
  }

  predicate HasNegativeStep(rows: seq<Row>, pump: string) {
    exists r | r in rows :: r.pump == pump && StepOf(r) < 0
  }

  ghost predicate InTrajectory(rows: seq<Row>, r: nat)
    requires r < |rows|
  {
    StepOf(rows[r]) < 288 && !IsExtra(rows, rows[r].pump, r)
  }

  /**
   * What a returned reconstruction is: the threads are gap-free, of one pump and an allowed length, and labelled
   * exactly on their last row; every row inside the window is in exactly one of them unless it is an extra row,
   * every row outside is in none, and extra rows carry no label (and do not exist unless they are allowed).
   */
  ghost predicate Reconstruction(rows: seq<Row>, allowExtra: bool, trajectory: seq<int>, threads: seq<Thread>) {
    && Consistent(rows, trajectory, threads)
    && (forall id: nat | id < |threads| :: Ended(rows, threads[id]) && AllowedLength(|threads[id].rows|))
    && (forall r: nat | r < |rows| :: trajectory[r] != -1 <==> InTrajectory(rows, r))
    && (forall r: nat | r < |rows| && rows[r].labelled :: trajectory[r] != -1)
    && (!allowExtra ==> forall r: nat | r < |rows| :: !IsExtra(rows, rows[r].pump, r))
  }

  /** Between two pumps: those handled are finished, the rows of the others untouched. */
  ghost predicate Between(rows: seq<Row>, trajectory: seq<int>, threads: seq<Thread>, handled: seq<string>) {
    && Consistent(rows, trajectory, threads)
    && (forall id: nat | id < |threads| :: Ended(rows, threads[id]))
    && (forall r: nat | r < |rows| :: trajectory[r] != -1 <==> rows[r].pump in handled && InTrajectory(rows, r))
  }

  lemma NextPump(rows: seq<Row>, before: seq<int>, threads: seq<Thread>, handled: seq<string>, pump: string,
                 trajectory: seq<int>, threads': seq<Thread>)
    requires Between(rows, before, threads, handled) && threads <= threads' && pump !in handled
    requires !HasNegativeStep(rows, pump)
    requires Midway(rows, pump, before, trajectory, |threads|, threads', [], MAX)
    ensures Between(rows, trajectory, threads', handled + [pump])
  {
    forall id: nat | id < |threads'| ensures Ended(rows, threads'[id]) {
      if id < |threads| {
        assert threads'[id] == threads[id];
      } else {
        assert OpenOrEnded(rows, pump, threads', [], MAX, id);
      }
    }
    forall r: nat | r < |rows|
      ensures trajectory[r] != -1 <==> rows[r].pump in handled + [pump] && InTrajectory(rows, r)
    {
      assert Covered(rows, pump, before, trajectory, MAX, r);
      if rows[r].pump == pump {
        assert rows[r] in rows;
        assert before[r] == -1;
      }
    }
  }

  lemma BeforePump(rows: seq<Row>, trajectory: seq<int>, threads: seq<Thread>, handled: seq<string>, pump: string)
    requires Between(rows, trajectory, threads, handled) && pump !in handled
    ensures Midway(rows, pump, trajectory, trajectory, |threads|, threads, [], 0)
  {
  }

  /** A row of the pump lies before the origin of the window. */
  ghost predicate StartsTooEarly(rows: seq<Row>, pump: string) {
    exists r | r in rows :: r.pump == pump && r.time < 0
  }

  lemma NegativeStepIff(rows: seq<Row>, pump: string)
    ensures HasNegativeStep(rows, pump) <==> StartsTooEarly(rows, pump)
  {
    forall r | r in rows ensures StepOf(r) < 0 <==> r.time < 0 {
      StepHoldsItsRow(r);
    }
  }

  ghost predicate HasExtra(rows: seq<Row>, pump: string) {
    exists r: nat :: IsExtra(rows, pump, r)
  }

  ghost predicate LastStepLabelled(rows: seq<Row>, pump: string) {
    Labelled(rows, At(rows, pump, MAX - 1)) == |At(rows, pump, MAX - 1)|
  }

  ghost predicate PumpOk(rows: seq<Row>, allowExtra: bool, pump: string) {
    !StartsTooEarly(rows, pump) && Balanced(rows, pump) && (allowExtra || !HasExtra(rows, pump)) && LastStepLabelled(rows, pump)
  }

  /** What is wrong with the rows of one pump: the first of these that applies, at its first step. */
  ghost predicate PumpFault(rows: seq<Row>, allowExtra: bool, pump: string, reason: Reason) {
    match reason
    case NegativeStep(p) => p == pump && StartsTooEarly(rows, pump)
    case WrongRowCount(p, step) => p == pump && !StartsTooEarly(rows, pump) && IsWrongCount(rows, pump, step)
    case LabelledExtra(p, step) => p == pump && !StartsTooEarly(rows, pump) && IsLabelledExtra(rows, pump, step)
    case ExtraRows(p) => p == pump && !StartsTooEarly(rows, pump) && Balanced(rows, pump) && !allowExtra && HasExtra(rows, pump)
    case NoFaultLabel(p) =>
      && p == pump && !StartsTooEarly(rows, pump) && Balanced(rows, pump) && (allowExtra || !HasExtra(rows, pump))
      && !LastStepLabelled(rows, pump)
    case _ => false
  }

  /** A labelled row inside the window that would end a trajectory of another length than 12, 96 or 288. */
  ghost predicate EndsBadly(rows: seq<Row>, r: nat)
    requires r < |rows|
  {
    rows[r].labelled && StepOf(rows[r]) < 288 && !(StepOf(rows[r]) == 11 || StepOf(rows[r]) == 95 || StepOf(rows[r]) == 287)
  }

  ghost predicate LengthsOk(rows: seq<Row>) {
    forall r: nat | r < |rows| :: !EndsBadly(rows, r)
  }

  ghost predicate NoStrayLabel(rows: seq<Row>) {
    forall r: nat | r < |rows| && rows[r].labelled :: StepOf(rows[r]) < 288
  }

  /** The tables that can be reconstructed, said about their rows alone. */
  ghost predicate Reconstructable(rows: seq<Row>, allowExtra: bool) {
    && (forall pump | pump in Pumps(rows) :: PumpOk(rows, allowExtra, pump))
    && LengthsOk(rows) && NoStrayLabel(rows)
  }

  ghost predicate PumpsOk(rows: seq<Row>, allowExtra: bool, n: nat) {
    forall i | 0 <= i < n && i < |Pumps(rows)| :: PumpOk(rows, allowExtra, Pumps(rows)[i])
  }

  ghost predicate PumpFaultAt(rows: seq<Row>, allowExtra: bool, i: nat, reason: Reason) {
    i < |Pumps(rows)| && PumpsOk(rows, allowExtra, i) && PumpFault(rows, allowExtra, Pumps(rows)[i], reason)
  }

  /** The fault of a table: that of its first faulty pump, then the lengths, then labels outside the window. */
  ghost predicate FaultIs(rows: seq<Row>, allowExtra: bool, reason: Reason) {
    match reason
    case BadLengths => PumpsOk(rows, allowExtra, |Pumps(rows)|) && !LengthsOk(rows)
    case StrayLabel => PumpsOk(rows, allowExtra, |Pumps(rows)|) && LengthsOk(rows) && !NoStrayLabel(rows)
    case _ => exists i: nat :: PumpFaultAt(rows, allowExtra, i, reason)
  }

  lemma PumpFaultExcludesOk(rows: seq<Row>, allowExtra: bool, pump: string, a: Reason, b: Reason)
    requires PumpFault(rows, allowExtra, pump, a)
    ensures !PumpOk(rows, allowExtra, pump)
    ensures PumpFault(rows, allowExtra, pump, b) ==> a == b
  {
    BalancedIff(rows, pump);
  }

  /** A table has at most one fault, and one that has it cannot be reconstructed. */
  lemma FaultIsUnique(rows: seq<Row>, allowExtra: bool, a: Reason, b: Reason)
    requires FaultIs(rows, allowExtra, a)
    ensures !Reconstructable(rows, allowExtra)
    ensures FaultIs(rows, allowExtra, b) ==> a == b
  {
    if !a.BadLengths? && !a.StrayLabel? {
      var i: nat :| PumpFaultAt(rows, allowExtra, i, a);
      PumpFaultExcludesOk(rows, allowExtra, Pumps(rows)[i], a, b);
      if FaultIs(rows, allowExtra, b) && !b.BadLengths? && !b.StrayLabel? {
        var k: nat :| PumpFaultAt(rows, allowExtra, k, b);
        PumpFaultExcludesOk(rows, allowExtra, Pumps(rows)[k], b, a);
      }
    } else if FaultIs(rows, allowExtra, b) && !b.BadLengths? && !b.StrayLabel? {
      var k: nat :| PumpFaultAt(rows, allowExtra, k, b);
      PumpFaultExcludesOk(rows, allowExtra, Pumps(rows)[k], b, a);
    }
  }

  /** An extra row carries no label, so a labelled row inside the window is in a trajectory. */
  lemma LabelledIsPlaced(rows: seq<Row>, allowExtra: bool, r: nat)
    requires PumpsOk(rows, allowExtra, |Pumps(rows)|) && r < |rows| && rows[r].labelled
    ensures InTrajectory(rows, r) <==> StepOf(rows[r]) < MAX
  {
    var pump := rows[r].pump;
    PumpsAreThose(rows);
    assert rows[r] in rows;
    var i :| 0 <= i < |Pumps(rows)| && Pumps(rows)[i] == pump;
    assert PumpOk(rows, allowExtra, pump);
    if 0 <= StepOf(rows[r]) < MAX {
      assert BalancedAt(rows, pump, StepOf(rows[r]));
    }
  }

  /** The finished threads have allowed lengths exactly if every labelled row of the window is at a last step of one. */
  lemma LengthsAreTheLabels(rows: seq<Row>, allowExtra: bool, trajectory: seq<int>, threads: seq<Thread>)
    requires Between(rows, trajectory, threads, Pumps(rows)) && PumpsOk(rows, allowExtra, |Pumps(rows)|)
    ensures (forall t | t in threads :: AllowedLength(|t.rows|)) <==> LengthsOk(rows)
  {
    if forall t | t in threads :: AllowedLength(|t.rows|) {
      forall r: nat | r < |rows| ensures !EndsBadly(rows, r) {
        if rows[r].labelled && StepOf(rows[r]) < MAX {
          LabelledEndsItsThread(rows, allowExtra, trajectory, threads, r);
          assert threads[trajectory[r]] in threads;
        }
      }
    }
    if LengthsOk(rows) {
      forall t | t in threads ensures AllowedLength(|t.rows|) {
        var id: nat :| id < |threads| && threads[id] == t;
        var j := |t.rows| - 1;
        assert Ended(rows, threads[id]) && ThreadOk(rows, trajectory, id, threads[id]);
        assert LinkOk(rows, trajectory, id, t, j);
        assert !EndsBadly(rows, t.rows[j]);
        ThreadIsShort(rows, trajectory, threads, id);
      }
    }
  }

  lemma LabelledEndsItsThread(rows: seq<Row>, allowExtra: bool, trajectory: seq<int>, threads: seq<Thread>, r: nat)
    requires Between(rows, trajectory, threads, Pumps(rows)) && PumpsOk(rows, allowExtra, |Pumps(rows)|)
    requires r < |rows| && rows[r].labelled && StepOf(rows[r]) < MAX
    ensures 0 <= trajectory[r] < |threads| && |threads[trajectory[r]].rows| == StepOf(rows[r]) + 1
  {
    LabelledIsPlaced(rows, allowExtra, r);
    PumpsAreThose(rows);
    assert rows[r] in rows;
    assert Placed(rows, trajectory, threads, r);
    var id := trajectory[r];
    assert ThreadOk(rows, trajectory, id, threads[id]);
    assert LinkOk(rows, trajectory, id, threads[id], StepOf(rows[r]));
  }

  /** A thread's rows lie inside the window. */
  lemma ThreadIsShort(rows: seq<Row>, trajectory: seq<int>, threads: seq<Thread>, id: nat)
    requires Between(rows, trajectory, threads, Pumps(rows)) && id < |threads|
    ensures 0 < |threads[id].rows| <= MAX
  {
    var t := threads[id];
    assert Ended(rows, t) && ThreadOk(rows, trajectory, id, t);
    assert LinkOk(rows, trajectory, id, t, |t.rows| - 1);
    assert InTrajectory(rows, t.rows[|t.rows| - 1]);
  }

  lemma {:induction false} LabelledAtMost(rows: seq<Row>, indices: seq<nat>)
    ensures Labelled(rows, indices) <= |indices|
  {
    if indices != [] {
      LabelledAtMost(rows, indices[..|indices| - 1]);
    }
  }

  method HandlePump(rows: seq<Row>, allowExtra: bool, pump: string, trajectory: array<int>, nextId: nat,
                    ghost threads: seq<Thread>, ghost handled: seq<string>)
    returns (result: Result<nat>, ghost threads': seq<Thread>)
    requires trajectory.Length == |rows| && nextId == |threads|
    requires Between(rows, trajectory[..], threads, handled) && pump !in handled
    modifies trajectory
    ensures result.Ok? ==> result.value == |threads'| && Between(rows, trajectory[..], threads', handled + [pump])
    ensures result.Ok? ==> PumpOk(rows, allowExtra, pump)
    ensures result.NotReconstructable? ==> PumpFault(rows, allowExtra, pump, result.reason)
  {
    threads' := threads;
    NegativeStepIff(rows, pump);
    if HasNegativeStep(rows, pump) {
      return NotReconstructable(NegativeStep(pump)), threads;
    }
    var extra := ExtraRowsOf(rows, pump);
    if extra.NotReconstructable? {
      return NotReconstructable(extra.reason), threads;
    }
    if extra.value != [] && !allowExtra {
      assert extra.value[0] in extra.value;
      return NotReconstructable(ExtraRows(pump)), threads;
    }
    ghost var before := trajectory[..];
    BeforePump(rows, before, threads, handled, pump);
    result, threads' := MatchPump(rows, pump, extra.value, trajectory, nextId, threads);
    LabelledAtMost(rows, At(rows, pump, MAX - 1));
    if result.Ok? {
      NextPump(rows, before, threads, handled, pump, trajectory[..], threads');
    }
  }

  /** The group-by checks of the finished table; gaps and label counts cannot fail any more. */
  method CheckTrajectories(rows: seq<Row>, table: seq<int>, nextId: nat, ghost threads: seq<Thread>, ghost handled: seq<string>)
    returns (fault: Option<Reason>)
    requires Between(rows, table, threads, handled) && nextId == |threads|
    ensures fault == None || fault == Some(BadLengths)
    ensures fault.None? <==> forall t | t in threads :: AllowedLength(|t.rows|)
  {
    for id := 0 to nextId
      invariant forall k: nat | k < id :: AllowedLength(|threads[k].rows|)
    {
      ChecksFollowFromMatching(rows, table, threads, id);
      if !AllowedLength(SizeOf(table, id)) {
        assert threads[id] in threads;
        return Some(BadLengths);
      }
      if SizeOf(table, id) != MaxStepOf(rows, table, id, |rows|) + 1 || LabelsOf(rows, table, id, |rows|) != 1 {
        assert false;
      }
    }
    fault := None;
  }

  method CheckStrayLabels(rows: seq<Row>, table: seq<int>) returns (fault: Option<Reason>)
    requires |table| == |rows|
    ensures fault == None || fault == Some(StrayLabel)
    ensures fault.None? <==> forall r: nat | r < |rows| && rows[r].labelled :: table[r] >= 0
  {
    for r := 0 to |rows|
      invariant forall q: nat | q < r && rows[q].labelled :: table[q] >= 0
    {
      if rows[r].labelled && table[r] < 0 {
        return Some(StrayLabel);
      }
    }
    fault := None;
  }

  lemma Finished(rows: seq<Row>, table: seq<int>, threads: seq<Thread>)
    requires Between(rows, table, threads, Pumps(rows))
    ensures forall r: nat | r < |rows| :: table[r] != -1 <==> InTrajectory(rows, r)
    ensures forall r: nat | r < |rows| :: table[r] >= -1
  {
    PumpsAreThose(rows);
    forall r: nat | r < |rows| ensures table[r] >= -1 && (table[r] != -1 <==> InTrajectory(rows, r)) {
      assert rows[r] in rows;
      assert Placed(rows, table, threads, r);
    }
  }

  /** Some division of the rows into threads makes the table a reconstruction. */
  ghost predicate IsReconstruction(rows: seq<Row>, allowExtra: bool, trajectory: seq<int>) {
    exists threads :: Reconstruction(rows, allowExtra, trajectory, threads)
  }

  method Reconstruct(rows: seq<Row>, allowExtra: bool) returns (result: Result<seq<int>>)
    ensures result.Ok? <==> Reconstructable(rows, allowExtra)
    ensures result.Ok? ==> IsReconstruction(rows, allowExtra, result.value)
    ensures result.NotReconstructable? ==> FaultIs(rows, allowExtra, result.reason)
  {
    var trajectory := new int[|rows|](_ => -1);
    var nextId := 0;
    ghost var threads: seq<Thread> := [];
    var pumps := Pumps(rows);
    PumpsAreThose(rows);
    for i := 0 to |pumps|
      invariant nextId == |threads|
      invariant Between(rows, trajectory[..], threads, pumps[..i])
      invariant PumpsOk(rows, allowExtra, i)
    {
      var pump := pumps[i];
      assert pump !in pumps[..i] && pumps[..i + 1] == pumps[..i] + [pump];
      var handled;
      handled, threads := HandlePump(rows, allowExtra, pump, trajectory, nextId, threads, pumps[..i]);
      if handled.NotReconstructable? {
        assert PumpFaultAt(rows, allowExtra, i, handled.reason);
        FaultIsUnique(rows, allowExtra, handled.reason, handled.reason);
        return NotReconstructable(handled.reason);
      }
      nextId := handled.value;
    }
    assert pumps[..|pumps|] == pumps;
    var fault := CheckTable(rows, allowExtra, trajectory[..], nextId, threads);
    if fault.Some? {
      FaultIsUnique(rows, allowExtra, fault.value, fault.value);
      return NotReconstructable(fault.value);
    }
    ReconstructableIsOk(rows, allowExtra, trajectory[..], threads);
    result := Ok(trajectory[..]);
  }

  lemma ReconstructableIsOk(rows: seq<Row>, allowExtra: bool, trajectory: seq<int>, threads: seq<Thread>)
    requires Between(rows, trajectory, threads, Pumps(rows)) && PumpsOk(rows, allowExtra, |Pumps(rows)|)
    requires LengthsOk(rows) && NoStrayLabel(rows)
    ensures Reconstructable(rows, allowExtra) && Reconstruction(rows, allowExtra, trajectory, threads)
  {
    Finished(rows, trajectory, threads);
    LengthsAreTheLabels(rows, allowExtra, trajectory, threads);
    forall pump | pump in Pumps(rows) ensures PumpOk(rows, allowExtra, pump) {
      var i :| 0 <= i < |Pumps(rows)| && Pumps(rows)[i] == pump;
    }
    forall id: nat | id < |threads| ensures Ended(rows, threads[id]) && AllowedLength(|threads[id].rows|) {
      assert threads[id] in threads;
    }
    PumpsAreThose(rows);
    forall r: nat | r < |rows|
      ensures rows[r].labelled ==> trajectory[r] != -1
      ensures !allowExtra ==> !IsExtra(rows, rows[r].pump, r)
    {
      assert rows[r] in rows;
      assert PumpOk(rows, allowExtra, rows[r].pump);
      if rows[r].labelled {
        LabelledIsPlaced(rows, allowExtra, r);
      }
    }
  }

  /** The checks of the finished table, in the source's order. */
  method CheckTable(rows: seq<Row>, allowExtra: bool, table: seq<int>, nextId: nat, ghost threads: seq<Thread>) returns (fault: Option<Reason>)
    requires Between(rows, table, threads, Pumps(rows)) && nextId == |threads|
    requires PumpsOk(rows, allowExtra, |Pumps(rows)|)
    ensures fault.Some? ==> (fault.value.BadLengths? || fault.value.StrayLabel?) && FaultIs(rows, allowExtra, fault.value)
    ensures fault.None? <==> LengthsOk(rows) && NoStrayLabel(rows)
  {
    Finished(rows, table, threads);
    LengthsAreTheLabels(rows, allowExtra, table, threads);
    fault := CheckTrajectories(rows, table, nextId, threads, Pumps(rows));
    if fault.None? {
      fault := CheckStrayLabels(rows, table);
      forall r: nat | r < |rows| && rows[r].labelled ensures table[r] >= 0 <==> StepOf(rows[r]) < MAX {
        LabelledIsPlaced(rows, allowExtra, r);
      }
    }
  }
}
