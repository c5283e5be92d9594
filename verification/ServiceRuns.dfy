/** What every run of the service keeps, what it does not, and why it does not get stuck. */
module ServiceRuns {
  import opened Wrappers
  import opened BundleTable
  import opened Backoff
  import opened Service

  ghost predicate Reachable(c: Config, s: State) {
    exists steps :: Run(c, Start(c), steps) == Some(s)
  }

  lemma ReachableHolds(c: Config, s: State)
    requires Reachable(c, s)
    ensures Invariant(c, s)
  {
    var steps :| Run(c, Start(c), steps) == Some(s);
    RunKeeps(c, Start(c), steps);
  }

  /** Aggregates in flight share no row, together they are the unconfirmed rows, and there are never
      more of them than configured. */
  lemma FlightsAreSeparate(c: Config, s: State)
    requires Reachable(c, s)
    ensures forall f, g :: f in s.flights && g in s.flights && f != g ==> s.flights[f].rows !! s.flights[g].rows
    ensures forall id :: id in s.unconfirmedRowIds <==> exists f :: f in s.flights && id in s.flights[f].rows
    ensures |s.flights| <= c.maxUnconfirmedAggregations
  {
    ReachableHolds(c, s);
    assert forall id :: InFlight(s.flights, id) <==> exists f :: f in s.flights && id in s.flights[f].rows;
  }

  // ---- Final rows ----

  /** The rows confirmed since the transaction began: none at BEGIN, then those of every flight whose
      receipt arrives. */
  function NowConfirmed(s: State, step: Step, since: set<RowId>): set<RowId> {
    match step
    case BeginAdd => {}
    case BeginSubmission => {}
    case Confirm(f) => if f in s.flights then since + s.flights[f].rows else since
    case _ => since
  }

  /** The same over a schedule; it looks at no table and no snapshot. */
  function ConfirmedSinceBegin(c: Config, s: State, steps: seq<Step>, since: set<RowId>): set<RowId>
    requires Run(c, s, steps).Some?
    decreases |steps|
  {
    if steps == [] then since
    else ConfirmedSinceBegin(c, Apply(c, s, steps[0]).value, steps[1..], NowConfirmed(s, steps[0], since))
  }

  ghost predicate Tracks(s: State, since: set<RowId>) {
    CanThrow(s.body) ==> forall id :: 0 <= id < |s.table| ==>
      0 <= id < |s.snapshot| && (id in since <==> s.snapshot[id] != s.table[id])
  }

  lemma StepTracks(c: Config, s: State, step: Step, since: set<RowId>)
    requires Invariant(c, s) && Tracks(s, since) && Apply(c, s, step).Some?
    ensures Tracks(Apply(c, s, step).value, NowConfirmed(s, step, since))
  {
    if step.Confirm? {
      ConfirmRows(c, s, step.f);
    }
  }

  lemma {:induction false} RunTracks(c: Config, s: State, steps: seq<Step>, since: set<RowId>)
    requires Invariant(c, s) && Tracks(s, since) && Run(c, s, steps).Some?
    ensures Tracks(Run(c, s, steps).value, ConfirmedSinceBegin(c, s, steps, since))
    decreases |steps|
  {
    if steps == [] {
    } else {
      StepKeeps(c, s, steps[0]);
      StepTracks(c, s, steps[0], since);
      RunTracks(c, Apply(c, s, steps[0]).value, steps[1..], NowConfirmed(s, steps[0], since));
    }
  }

  /** What a rollback does, exactly: the rows confirmed since its BEGIN go back to pending, and
      nothing else changes. */
  lemma RollbackUndoesConfirmations(c: Config, steps: seq<Step>, id: RowId)
    requires Run(c, Start(c), steps).Some? && Apply(c, Run(c, Start(c), steps).value, Throw).Some?
    requires id < |Run(c, Start(c), steps).value.table|
    ensures var s := Run(c, Start(c), steps).value;
            var s', undone := Apply(c, s, Throw).value, id in ConfirmedSinceBegin(c, Start(c), steps, {});
            && |s'.table| == |s.table|
            && (undone ==> s.table[id].status == Confirmed)
            && s'.table[id] == if undone then s.table[id].(status := Pending) else s.table[id]
  {
    RunKeeps(c, Start(c), steps);
    RunTracks(c, Start(c), steps, {});
  }

  lemma StepUndoes(c: Config, s: State, step: Step, since: set<RowId>, id: RowId)
    requires Invariant(c, s) && Tracks(s, since) && Apply(c, s, step).Some?
    requires id < |s.table| && s.table[id].status != Pending
    ensures var s' := Apply(c, s, step).value;
            && id < |s'.table|
            && (s'.table[id] != s.table[id] <==> step.Throw? && id in since)
            && (s'.table[id] != s.table[id] ==> s.table[id].status == Confirmed)
  {
    if step.Confirm? {
      ConfirmRows(c, s, step.f);
    }
  }

  /** Exactly when a step changes a confirmed or failed row. */
  lemma FinalUnlessRolledBack(c: Config, steps: seq<Step>, step: Step, id: RowId)
    requires Run(c, Start(c), steps).Some? && Apply(c, Run(c, Start(c), steps).value, step).Some?
    requires var s := Run(c, Start(c), steps).value; id < |s.table| && s.table[id].status != Pending
    ensures var s := Run(c, Start(c), steps).value;
            var s' := Apply(c, s, step).value;
            && id < |s'.table|
            && (s'.table[id] != s.table[id] <==>
                  step.Throw? && id in ConfirmedSinceBegin(c, Start(c), steps, {}))
  {
    RunKeeps(c, Start(c), steps);
    RunTracks(c, Start(c), steps, {});
    StepUndoes(c, Run(c, Start(c), steps).value, step, ConfirmedSinceBegin(c, Start(c), steps, {}), id);
  }

  /** No group rolls back over a confirmation of this row. */
  ghost predicate NeverUndone(c: Config, s: State, steps: seq<Step>, since: set<RowId>, id: RowId)
    requires Run(c, s, steps).Some?
    decreases |steps|
  {
    steps != [] ==>
      && !(steps[0].Throw? && id in since)
      && NeverUndone(c, Apply(c, s, steps[0]).value, steps[1..], NowConfirmed(s, steps[0], since), id)
  }

  /** The row reads like this all along. */
  ghost predicate Stays(c: Config, s: State, steps: seq<Step>, id: RowId, row: Entry)
    requires Run(c, s, steps).Some?
    decreases |steps|
  {
    && id < |s.table| && s.table[id] == row
    && (steps != [] ==> Stays(c, Apply(c, s, steps[0]).value, steps[1..], id, row))
  }

  lemma {:induction false} StaysIfNeverUndone(c: Config, s: State, steps: seq<Step>, since: set<RowId>, id: RowId)
    requires Invariant(c, s) && Tracks(s, since) && Run(c, s, steps).Some?
    requires id < |s.table| && s.table[id].status != Pending
    ensures Stays(c, s, steps, id, s.table[id]) <==> NeverUndone(c, s, steps, since, id)
    ensures s.table[id].status == Failed ==> NeverUndone(c, s, steps, since, id)
    decreases |steps|
  {
    if steps == [] {
    } else {
      var s' := Apply(c, s, steps[0]).value;
      StepKeeps(c, s, steps[0]);
      StepTracks(c, s, steps[0], since);
      StepUndoes(c, s, steps[0], since, id);
      if s'.table[id] == s.table[id] {
        StaysIfNeverUndone(c, s', steps[1..], NowConfirmed(s, steps[0], since), id);
      }
    }
  }

  /** From the moment a row is confirmed it stays confirmed if and only if no group rolls back over
      its own confirmation; what happens to other rows does not matter. */
  lemma FinalStaysFinal(c: Config, before: seq<Step>, steps: seq<Step>, id: RowId)
    requires Run(c, Start(c), before).Some? && Run(c, Run(c, Start(c), before).value, steps).Some?
    requires var s := Run(c, Start(c), before).value; id < |s.table| && s.table[id].status != Pending
    ensures var s := Run(c, Start(c), before).value;
            Stays(c, s, steps, id, s.table[id]) <==>
            NeverUndone(c, s, steps, ConfirmedSinceBegin(c, Start(c), before, {}), id)
  {
    RunKeeps(c, Start(c), before);
    RunTracks(c, Start(c), before, {});
    StaysIfNeverUndone(c, Run(c, Start(c), before).value, steps, ConfirmedSinceBegin(c, Start(c), before, {}), id);
  }

  /** A failed row is final in every run. */
  lemma FailedStaysFailed(c: Config, s: State, steps: seq<Step>, id: RowId)
    requires Reachable(c, s) && Run(c, s, steps).Some?
    requires id < |s.table| && s.table[id].status == Failed
    ensures Stays(c, s, steps, id, s.table[id])
  {
    var before :| Run(c, Start(c), before) == Some(s);
    RunKeeps(c, Start(c), before);
    RunTracks(c, Start(c), before, {});
    StaysIfNeverUndone(c, s, steps, ConfirmedSinceBegin(c, Start(c), before, {}), id);
  }

  lemma {:induction false} RunSnoc(c: Config, s: State, steps: seq<Step>, step: Step)
    requires Run(c, s, steps).Some?
    ensures Run(c, s, steps + [step]) == Apply(c, Run(c, s, steps).value, step)
    decreases |steps|
  {
    if steps == [] {
      assert [] + [step] == [step];
    } else {
      assert (steps + [step])[1..] == steps[1..] + [step];
      RunSnoc(c, Apply(c, s, steps[0]).value, steps[1..], step);
    }
  }

  lemma ReachableNext(c: Config, s: State, step: Step)
    requires Reachable(c, s) && Apply(c, s, step).Some?
    ensures Reachable(c, Apply(c, s, step).value)
  {
    var steps :| Run(c, Start(c), steps) == Some(s);
    RunSnoc(c, Start(c), steps, step);
  }

  /** The rows a submission decides on are pending and in no flight, and although they are written
      from copies read earlier nothing written since is overwritten. */
  lemma DecisionsAreUpToDate(c: Config, s: State, included: set<RowId>, failed: set<RowId>)
    requires Reachable(c, s) && Apply(c, s, Decide(included, failed)).Some?
    ensures var s' := Apply(c, s, Decide(included, failed)).value;
            && |s'.table| == |s.table| && s'.unconfirmedRowIds == s.unconfirmedRowIds
            && (forall id :: id in included + failed ==>
                  id < |s.table| && s.table[id].status == Pending && id !in s.unconfirmedRowIds)
            && (forall id :: 0 <= id < |s.table| ==>
                  s'.table[id] == if id in failed then HandleFailedRow(s.table[id], s.body.block, c.maxEligibilityDelay)
                                  else s.table[id])
  {
    ReachableHolds(c, s);
  }

  // ---- Failures ----

  /** In every reachable state the failures recorded for a row determine it up to confirmation, and
      obey the bounds of Backoff. */
  lemma RowsFollowTheirFailures(c: Config, s: State, id: RowId)
    requires Reachable(c, s) && id < |s.table|
    ensures |s.histories| == |s.table|
    ensures var failures := s.histories[id].failures;
            && |failures| <= Retries(c.maxEligibilityDelay) + 1
            && (s.table[id].status == Failed <==> |failures| == Retries(c.maxEligibilityDelay) + 1)
            && (failures == [] ==> s.table[id].eligibleAfter == s.histories[id].added)
            && (0 < |failures| <= Retries(c.maxEligibilityDelay) ==>
                  s.table[id].eligibleAfter == failures[|failures| - 1] + Pow2(|failures| - 1))
            && (forall k :: 0 <= k && k + 1 < |failures| ==> failures[k + 1] >= failures[k] + Pow2(k))
            && (forall k :: 0 <= k < |failures| ==> failures[k] >= s.histories[id].added + Pow2(k) - 1)
  {
    ReachableHolds(c, s);
    var added, failures := s.histories[id].added, s.histories[id].failures;
    FailuresDetermine(added, failures, c.maxEligibilityDelay);
    FailuresAreSpaced(added, failures, c.maxEligibilityDelay);
  }

  /** The block of the last query for rows in a schedule. */
  function SelectedAt(steps: seq<Step>): nat {
    if steps == [] then 0
    else if steps[|steps| - 1].Select? then steps[|steps| - 1].block
    else SelectedAt(steps[..|steps| - 1])
  }

  /** The blocks at which a schedule adds rows, in order. */
  function AddedBlocks(steps: seq<Step>): seq<nat> {
    if steps == [] then []
    else
      var last := steps[|steps| - 1];
      AddedBlocks(steps[..|steps| - 1]) + if last.AddRow? then [last.block] else []
  }

  /** For every decision in a schedule that fails this row, the block of the query it rests on. */
  function FailureBlocks(steps: seq<Step>, id: RowId): seq<nat> {
    if steps == [] then []
    else
      var front, last := steps[..|steps| - 1], steps[|steps| - 1];
      FailureBlocks(front, id) + if last.Decide? && id in last.failed then [SelectedAt(front)] else []
  }

  /** What a state logs of the schedule that led to it. */
  ghost predicate Logs(s: State, steps: seq<Step>) {
    && (s.body.Selected? ==> s.body.block == SelectedAt(steps))
    && |s.histories| == |AddedBlocks(steps)|
    && forall id :: 0 <= id < |s.histories| ==>
         s.histories[id].added == AddedBlocks(steps)[id] && s.histories[id].failures == FailureBlocks(steps, id)
  }

  ghost predicate NotYetFailed(s: State, steps: seq<Step>) {
    forall id: nat {:trigger FailureBlocks(steps, id)} :: id >= |s.histories| ==> FailureBlocks(steps, id) == []
  }

  lemma ScheduleSnoc(front: seq<Step>, step: Step, id: RowId)
    ensures SelectedAt(front + [step]) == if step.Select? then step.block else SelectedAt(front)
    ensures AddedBlocks(front + [step]) == AddedBlocks(front) + if step.AddRow? then [step.block] else []
    ensures FailureBlocks(front + [step], id)
            == FailureBlocks(front, id) + if step.Decide? && id in step.failed then [SelectedAt(front)] else []
  {
    var steps := front + [step];
    assert steps[..|front|] == front && steps[|front|] == step;
  }

  lemma DecideLogs(c: Config, s: State, front: seq<Step>, step: Step)
    requires Reachable(c, s) && Logs(s, front) && NotYetFailed(s, front) && step.Decide? && Apply(c, s, step).Some?
    ensures var s' := Apply(c, s, step).value; Logs(s', front + [step]) && NotYetFailed(s', front + [step])
  {
    ReachableHolds(c, s);
    DecisionsAreUpToDate(c, s, step.included, step.failed);
    forall id: nat
      ensures id >= |s.histories| ==> FailureBlocks(front + [step], id) == FailureBlocks(front, id)
    {
      ScheduleSnoc(front, step, id);
    }
    forall id: nat | id < |s.histories|
      ensures FailureBlocks(front + [step], id)
              == FailureBlocks(front, id) + if id in step.failed then [s.body.block] else []
    {
      ScheduleSnoc(front, step, id);
    }
    ScheduleSnoc(front, step, 0);
  }

  lemma OtherLogs(c: Config, s: State, front: seq<Step>, step: Step)
    requires Logs(s, front) && NotYetFailed(s, front) && !step.Decide? && Apply(c, s, step).Some?
    ensures var s' := Apply(c, s, step).value; Logs(s', front + [step]) && NotYetFailed(s', front + [step])
  {
    ScheduleSnoc(front, step, 0);
    forall id: nat
      ensures FailureBlocks(front + [step], id) == FailureBlocks(front, id)
    {
      ScheduleSnoc(front, step, id);
    }
  }

  lemma StepLogs(c: Config, s: State, front: seq<Step>, step: Step)
    requires Reachable(c, s) && Logs(s, front) && NotYetFailed(s, front) && Apply(c, s, step).Some?
    ensures var s' := Apply(c, s, step).value; Logs(s', front + [step]) && NotYetFailed(s', front + [step])
  {
    if step.Decide? {
      DecideLogs(c, s, front, step);
    } else {
      OtherLogs(c, s, front, step);
    }
  }

  lemma {:induction false} RunFront(c: Config, s: State, front: seq<Step>, last: Step)
    requires Run(c, s, front + [last]).Some?
    ensures Run(c, s, front).Some?
    ensures Run(c, s, front + [last]) == Apply(c, Run(c, s, front).value, last)
    decreases |front|
  {
    if front == [] {
      assert [] + [last] == [last];
    } else {
      assert (front + [last])[1..] == front[1..] + [last];
      RunFront(c, Apply(c, s, front[0]).value, front[1..], last);
    }
  }

  /** The failures recorded are those of the schedule: one for each decision that fails the row, at the
      block for which its rows were queried. */
  lemma {:induction false} HistoriesFollowSchedule(c: Config, steps: seq<Step>)
    requires Run(c, Start(c), steps).Some?
    ensures Logs(Run(c, Start(c), steps).value, steps)
    ensures NotYetFailed(Run(c, Start(c), steps).value, steps)
  {
    if steps == [] {
    } else {
      var front, last := steps[..|steps| - 1], steps[|steps| - 1];
      assert steps == front + [last];
      RunFront(c, Start(c), front, last);
      HistoriesFollowSchedule(c, front);
      StepLogs(c, Run(c, Start(c), front).value, front, last);
    }
  }

  /** The sets of rows that a schedule's decisions include, in order; a decision that includes nothing
      leads to no aggregate. */
  function IncludedSets(steps: seq<Step>): seq<set<RowId>> {
    if steps == [] then []
    else
      var last := steps[|steps| - 1];
      IncludedSets(steps[..|steps| - 1]) + if last.Decide? && last.included != {} then [last.included] else []
  }

  /** The aggregates launched so far are the first of these; the body works on the one after them. */
  ghost predicate Carries(s: State, included: seq<set<RowId>>) {
    && (forall f :: f in s.flights ==> f < s.nextFlight <= |included| && s.flights[f].rows == included[f])
    && (if s.body.NeedsPermit? || s.body.HasPermit?
        then |included| == s.nextFlight + 1 && s.body.rows == included[s.nextFlight]
        else |included| == s.nextFlight)
  }

  lemma StepCarries(c: Config, s: State, included: seq<set<RowId>>, step: Step)
    requires Carries(s, included) && Apply(c, s, step).Some?
    ensures Carries(Apply(c, s, step).value,
                    included + if step.Decide? && step.included != {} then [step.included] else [])
  {
  }

  /** Every decision to include rows becomes one aggregate of exactly those rows, in order. */
  lemma {:induction false} FlightsAreDecisions(c: Config, steps: seq<Step>)
    requires Run(c, Start(c), steps).Some?
    ensures Carries(Run(c, Start(c), steps).value, IncludedSets(steps))
  {
    if steps == [] {
    } else {
      var front, last := steps[..|steps| - 1], steps[|steps| - 1];
      assert steps == front + [last];
      RunFront(c, Start(c), front, last);
      FlightsAreDecisions(c, front);
      StepCarries(c, Run(c, Start(c), front).value, IncludedSets(front), last);
    }
  }

  /** What can be queried: pending rows whose time has come and that are not in flight, and only these. */
  lemma SelectsExactly(c: Config, s: State, picked: set<RowId>, block: nat)
    requires Reachable(c, s) && s.body.Begun?
    ensures Apply(c, s, Select(picked, block)).Some? <==>
            forall id :: id in picked ==>
              id < |s.table| && s.table[id].status == Pending && s.table[id].eligibleAfter <= block
              && forall f :: f in s.flights ==> id !in s.flights[f].rows
  {
    ReachableHolds(c, s);
    assert forall id :: id in s.unconfirmedRowIds <==> InFlight(s.flights, id);
    if forall id :: id in picked ==>
         id < |s.table| && s.table[id].status == Pending && s.table[id].eligibleAfter <= block
         && forall f :: f in s.flights ==> id !in s.flights[f].rows
    {
      assert forall id :: id in picked ==> Selectable(s, id, block);
    } else {
      var id :| id in picked
                && !(id < |s.table| && s.table[id].status == Pending && s.table[id].eligibleAfter <= block
                     && forall f :: f in s.flights ==> id !in s.flights[f].rows);
      assert !Selectable(s, id, block);
    }
  }

  function FailuresDecided(steps: seq<Step>): nat {
    if steps == [] then 0
    else (if steps[0].Decide? then |steps[0].failed| else 0) + FailuresDecided(steps[1..])
  }

  function Recordings(histories: seq<History>): nat {
    if histories == [] then 0
    else Recordings(histories[..|histories| - 1]) + |histories[|histories| - 1].failures|
  }

  lemma LoggedButLast(histories: seq<History>, rows: set<RowId>, block: nat)
    requires histories != []
    ensures var n := |histories| - 1;
            && Logged(histories, rows, block)[..n] == Logged(histories[..n], rows - {n}, block)
            && |Logged(histories, rows, block)[n].failures| == |histories[n].failures| + if n in rows then 1 else 0
  {
  }

  lemma RemoveOne(rows: set<RowId>, id: RowId)
    ensures |rows| == |rows - {id}| + if id in rows then 1 else 0
  {
    if id !in rows {
      assert rows - {id} == rows;
    }
  }

  lemma {:induction false} LoggedOnceEach(histories: seq<History>, rows: set<RowId>, block: nat)
    requires forall id :: id in rows ==> id < |histories|
    ensures Recordings(Logged(histories, rows, block)) == Recordings(histories) + |rows|
  {
    if histories == [] {
      assert rows == {};
    } else {
      var n := |histories| - 1;
      LoggedOnceEach(histories[..n], rows - {n}, block);
      LoggedButLast(histories, rows, block);
      RemoveOne(rows, n);
    }
  }

  lemma StepRecords(c: Config, s: State, step: Step)
    requires Reachable(c, s) && Apply(c, s, step).Some?
    ensures Recordings(Apply(c, s, step).value.histories) == Recordings(s.histories) + FailuresDecided([step])
  {
    ReachableHolds(c, s);
    assert [step][1..] == [];
    match step
    case Decide(included, failed) =>
      DecisionsAreUpToDate(c, s, included, failed);
      LoggedOnceEach(s.histories, failed, s.body.block);
    case AddRow(block) =>
      assert (s.histories + [History(block, [])])[..|s.histories|] == s.histories;
    case _ =>
  }

  lemma {:induction false} RunRecords(c: Config, s: State, steps: seq<Step>)
    requires Reachable(c, s) && Run(c, s, steps).Some?
    ensures Recordings(Run(c, s, steps).value.histories) == Recordings(s.histories) + FailuresDecided(steps)
    decreases |steps|
  {
    if steps == [] {
    } else {
      StepRecords(c, s, steps[0]);
      ReachableNext(c, s, steps[0]);
      RunRecords(c, Apply(c, s, steps[0]).value, steps[1..]);
      assert [steps[0]][1..] == [];
    }
  }

  lemma {:induction false} BoundedRecordings(histories: seq<History>, most: nat)
    requires forall h :: h in histories ==> |h.failures| <= most
    ensures Recordings(histories) <= |histories| * most
  {
    if histories == [] {
    } else {
      var front, last := histories[..|histories| - 1], histories[|histories| - 1];
      BoundedRecordings(front, most);
      assert last in histories;
      assert |histories| * most == |front| * most + most;
    }
  }

  /** No run decides more failures than its rows have in them, each counted: so rounds that fail
      some row, as loss prevention does with two or more included rows, come to an end. */
  lemma FailuresRunOut(c: Config, steps: seq<Step>)
    requires Run(c, Start(c), steps).Some?
    ensures FailuresDecided(steps)
            <= |Run(c, Start(c), steps).value.table| * (Retries(c.maxEligibilityDelay) + 1)
  {
    var s := Run(c, Start(c), steps).value;
    assert Run(c, Start(c), []) == Some(Start(c));
    assert Reachable(c, Start(c)) && Reachable(c, s);
    RunRecords(c, Start(c), steps);
    ReachableHolds(c, s);
    forall h | h in s.histories
      ensures |h.failures| <= Retries(c.maxEligibilityDelay) + 1
    {
      var id: nat :| id < |s.histories| && s.histories[id] == h;
      RowsFollowTheirFailures(c, s, id);
    }
    BoundedRecordings(s.histories, Retries(c.maxEligibilityDelay) + 1);
  }

  // ---- The counter ----

  /** `tryAggregating` goes ahead only when the counter is zero: when no submission is live and none
      ever threw. */
  lemma CounterIsLiveOrThrown(c: Config, s: State)
    requires Reachable(c, s)
    ensures s.submissionsInProgress == 0 <==>
            s.waitingSubmissions == 0 && !IsSubmission(s.body) && s.returning == 0 && s.throws == 0
  {
    ReachableHolds(c, s);
  }

  lemma AThrowCounts(c: Config, s: State, step: Step)
    requires Apply(c, s, step).Some?
    ensures Apply(c, s, step).value.throws
            == s.throws + if step.Throw? && IsSubmission(s.body) then 1 else 0
  {
  }

  lemma {:induction false} ThrowsStay(c: Config, s: State, steps: seq<Step>)
    requires Run(c, s, steps).Some?
    ensures Run(c, s, steps).value.throws >= s.throws
    decreases |steps|
  {
    if steps == [] {
    } else {
      AThrowCounts(c, s, steps[0]);
      ThrowsStay(c, Apply(c, s, steps[0]).value, steps[1..]);
    }
  }

  lemma {:induction false} RunConcat(c: Config, s: State, a: seq<Step>, b: seq<Step>)
    requires Run(c, s, a).Some?
    ensures Run(c, s, a + b) == Run(c, Run(c, s, a).value, b)
    decreases |a|
  {
    if a == [] {
      assert a + b == b;
    } else {
      assert (a + b)[1..] == a[1..] + b;
      RunConcat(c, Apply(c, s, a[0]).value, a[1..], b);
    }
  }

  /** One throw in a submission and the counter is never zero again. */
  lemma AThrowIsForever(c: Config, s: State, steps: seq<Step>)
    requires Reachable(c, s) && s.throws > 0 && Run(c, s, steps).Some?
    ensures Run(c, s, steps).value.submissionsInProgress > 0
  {
    ThrowsStay(c, s, steps);
    var before :| Run(c, Start(c), before) == Some(s);
    RunConcat(c, Start(c), before, steps);
    CounterIsLiveOrThrown(c, Run(c, s, steps).value);
  }

  // ---- Permits and the lock ----

  ghost predicate DroppedByStopping(s: State) {
    !s.stopping ==> forall f :: f in s.flights ==> !s.flights[f].phase.Dropped?
  }

  lemma StepDropsOnlyStopped(c: Config, s: State, step: Step)
    requires DroppedByStopping(s) && Apply(c, s, step).Some?
    ensures DroppedByStopping(Apply(c, s, step).value)
  {
  }

  lemma {:induction false} DroppedOnlyByStopping(c: Config, s: State, steps: seq<Step>)
    requires DroppedByStopping(s) && Run(c, s, steps).Some?
    ensures DroppedByStopping(Run(c, s, steps).value)
    decreases |steps|
  {
    if steps == [] {
    } else {
      StepDropsOnlyStopped(c, s, steps[0]);
      DroppedOnlyByStopping(c, Apply(c, s, steps[0]).value, steps[1..]);
    }
  }

  /** A submission waits for a permit inside its transaction, so nobody else gets the lock. */
  predicate WaitsForPermit(s: State) {
    s.body.NeedsPermit? && s.permits == 0
  }

  /** Some flight can give back its permit by itself, and then the submission goes on. */
  ghost predicate CanGoOn(c: Config, s: State) {
    exists f :: && Apply(c, s, Land(f)).Some?
                && Apply(c, Apply(c, s, Land(f)).value, Acquire).Some?
  }

  ghost predicate AllDropped(s: State) {
    forall f :: f in s.flights ==> s.flights[f].phase.Dropped?
  }

  lemma GoesOnUnlessAllDropped(c: Config, s: State)
    requires WaitsForPermit(s)
    ensures CanGoOn(c, s) <==> !AllDropped(s)
  {
    if !AllDropped(s) {
      var f :| f in s.flights && !s.flights[f].phase.Dropped?;
      assert Apply(c, s, Land(f)).Some?;
    }
  }

  /** No deadlock before the service is stopped. */
  lemma NoDeadlock(c: Config, s: State)
    requires Reachable(c, s) && c.maxUnconfirmedAggregations > 0
    requires WaitsForPermit(s) && !s.stopping
    ensures CanGoOn(c, s)
  {
    ReachableHolds(c, s);
    var steps :| Run(c, Start(c), steps) == Some(s);
    DroppedOnlyByStopping(c, Start(c), steps);
    assert s.flights != map[];
    var f :| f in s.flights;
    assert !s.flights[f].phase.Dropped?;
    GoesOnUnlessAllDropped(c, s);
  }

  /** If every flight was dropped the wait is for ever, whatever happens. */
  lemma {:induction false} StuckForEver(c: Config, s: State, steps: seq<Step>)
    requires WaitsForPermit(s) && AllDropped(s) && Run(c, s, steps).Some?
    ensures var s' := Run(c, s, steps).value; WaitsForPermit(s') && AllDropped(s')
    decreases |steps|
  {
    if steps == [] {
    } else {
      StuckForEver(c, Apply(c, s, steps[0]).value, steps[1..]);
    }
  }

  // ---- Runs that show what can go wrong ----

  /** One more step of a run under construction. */
  lemma Extend(c: Config, s: State, step: Step) returns (s': State)
    requires Reachable(c, s) && Apply(c, s, step).Some?
    ensures s' == Apply(c, s, step).value && Reachable(c, s')
  {
    ReachableNext(c, s, step);
    s' := Apply(c, s, step).value;
  }

  lemma Begin(c: Config) returns (s: State)
    ensures s == Start(c) && Reachable(c, s)
  {
    s := Start(c);
    assert Run(c, s, []) == Some(s);
  }

  /** A row is added. */
  lemma WithRow(c: Config, s0: State) returns (s: State)
    requires Reachable(c, s0) && s0.body.NoGroup? && s0.waitingAdds == 0
    ensures Reachable(c, s)
    ensures s == s0.(table := s0.table + [AddedAt(0)], snapshot := s0.table,
                     histories := s0.histories + [History(0, [])])
  {
    s := Extend(c, s0, AskAdd);
    s := Extend(c, s, BeginAdd);
    s := Extend(c, s, AddRow(0));
    s := Extend(c, s, Commit);
  }

  /** A submission wants to send this row. */
  lemma WithSubmission(c: Config, s0: State, id: RowId) returns (s: State)
    requires Reachable(c, s0) && s0.body.NoGroup? && s0.waitingSubmissions == 0
    requires Selectable(s0, id, 0)
    ensures Reachable(c, s)
    ensures s == s0.(submissionsInProgress := s0.submissionsInProgress + 1, snapshot := s0.table,
                     body := NeedsPermit(s0.table, {id}))
  {
    s := Extend(c, s0, AskSubmission);
    s := Extend(c, s, BeginSubmission);
    s := Extend(c, s, Select({id}, 0));
    ReachableHolds(c, s);
    NothingFails(c, s, id);
    s := Extend(c, s, Decide({id}, {}));
  }

  lemma NothingFails(c: Config, s: State, id: RowId)
    requires s.body.Selected? && s.body.rows == {id} && |s.histories| == |s.table|
    ensures Apply(c, s, Decide({id}, {})) == Some(s.(body := NeedsPermit(s.body.read, {id})))
  {
    assert Written(s.table, s.body.read, {}, Rescheduling(s.body.block, c.maxEligibilityDelay)) == s.table;
    assert Logged(s.histories, {}, s.body.block) == s.histories;
    assert s.unconfirmedRowIds - {} == s.unconfirmedRowIds;
  }

  /** A row's only flight is confirmed while an `add` is in its transaction. */
  lemma ConfirmedDuringAdd(c: Config) returns (s: State)
    requires c.maxUnconfirmedAggregations > 0
    ensures Reachable(c, s) && s.body.Adding? && s.snapshot == [AddedAt(0)]
    ensures |s.table| == 1 && s.table[0].status == Confirmed
    ensures s.flights == map[0 := Flight([AddedAt(0)], {0}, Paid)] && s.unconfirmedRowIds == {0}
  {
    s := Begin(c);
    s := WithRow(c, s);
    s := WithSubmission(c, s, 0);
    s := Extend(c, s, Acquire);
    s := Extend(c, s, Launch);
    s := Extend(c, s, Commit);
    s := Extend(c, s, AskAdd);
    s := Extend(c, s, BeginAdd);
    s := Extend(c, s, Confirm(0));
  }

  /** The confirmation is undone when that `add` throws, and the row, already paid for on chain, can
      be selected once more. */
  lemma ConfirmationCanBeLost(c: Config) returns (confirmed: State, s: State)
    requires c.maxUnconfirmedAggregations > 0
    ensures Reachable(c, confirmed) && |confirmed.table| == 1 && confirmed.table[0].status == Confirmed
    ensures Run(c, confirmed, [Throw, Land(0)]) == Some(s) && Selectable(s, 0, 0)
  {
    confirmed := ConfirmedDuringAdd(c);
    var rolledBack := Apply(c, confirmed, Throw).value;
    s := Apply(c, rolledBack, Land(0)).value;
    assert Run(c, s, []) == Some(s);
    assert [Land(0)][1..] == [] && Run(c, rolledBack, [Land(0)]) == Some(s);
    assert [Throw, Land(0)][1..] == [Land(0)];
  }

  /** A submission whose group throws, in three steps; see AThrowIsForever for what follows. */
  lemma SubmissionCanThrow(c: Config) returns (s: State)
    ensures Reachable(c, s) && s.throws == 1
    ensures s.waitingSubmissions == 0 && s.body.NoGroup? && s.returning == 0 && s.submissionsInProgress == 1
  {
    s := Begin(c);
    s := Extend(c, s, AskSubmission);
    s := Extend(c, s, BeginSubmission);
    s := Extend(c, s, Throw);
  }

  /** The service is stopping, the first rows are in dropped flights, one each, and there are more
      pending rows. */
  ghost predicate DroppedSoFar(c: Config, s: State, k: nat, rows: nat) {
    && Reachable(c, s)
    && s.stopping && s.body.NoGroup? && s.waitingAdds == 0 && s.waitingSubmissions == 0
    && |s.table| == rows && (forall id :: 0 <= id < rows ==> s.table[id] == AddedAt(0))
    && k <= rows && k <= c.maxUnconfirmedAggregations && s.permits == c.maxUnconfirmedAggregations - k
    && (forall id :: id in s.unconfirmedRowIds ==> id < k)
    && AllDropped(s)
  }

  lemma {:induction false} RowsOnly(c: Config, rows: nat) returns (s: State)
    ensures DroppedSoFar(c, s, 0, rows)
  {
    if rows == 0 {
      s := Begin(c);
      s := Extend(c, s, Stop);
    } else {
      s := RowsOnly(c, rows - 1);
      s := WithRow(c, s);
    }
  }

  lemma DropOne(c: Config, s0: State, k: nat, rows: nat) returns (s: State)
    requires DroppedSoFar(c, s0, k, rows) && k < rows && k < c.maxUnconfirmedAggregations
    ensures DroppedSoFar(c, s, k + 1, rows)
  {
    s := WithSubmission(c, s0, k);
    s := Extend(c, s, Acquire);
    s := Extend(c, s, Launch);
    s := Extend(c, s, Commit);
  }

  lemma {:induction false} DropMany(c: Config, k: nat, rows: nat) returns (s: State)
    requires k <= rows && k <= c.maxUnconfirmedAggregations
    ensures DroppedSoFar(c, s, k, rows)
  {
    if k == 0 {
      s := RowsOnly(c, rows);
    } else {
      s := DropMany(c, k - 1, rows);
      s := DropOne(c, s, k - 1, rows);
    }
  }

  /** Once the service is stopping, submissions that already had a permit or still get one are dropped
      with it; when all permits are gone the next submission waits inside its transaction for ever. */
  lemma StopCanDeadlock(c: Config) returns (s: State)
    ensures Reachable(c, s) && WaitsForPermit(s) && AllDropped(s)
  {
    s := DropMany(c, c.maxUnconfirmedAggregations, c.maxUnconfirmedAggregations + 1);
    s := WithSubmission(c, s, c.maxUnconfirmedAggregations);
  }
}
