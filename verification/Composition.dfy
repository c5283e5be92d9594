/** How the parts fit together: what the strategy returns is a decision the service can take, and
    every interleaving of query groups is one the service's single body can follow. */
module Composition {
  import opened Wrappers
  import opened QueryGroups
  import AggregationRun
  import FilterRows
  import Operations
  import Strategy
  import Service
  import ServiceRuns

  // ---- The strategy's result as a decision ----

  function IdsOf(rows: seq<FilterRows.BundleRow>): set<nat> {
    set r | r in rows :: r.id
  }

  ghost predicate UniqueIds(rows: seq<FilterRows.BundleRow>) {
    forall i, j :: 0 <= i < j < |rows| ==> rows[i].id != rows[j].id
  }

  lemma SameIdSameRow(rows: seq<FilterRows.BundleRow>, a: FilterRows.BundleRow, b: FilterRows.BundleRow)
    requires UniqueIds(rows) && a in rows && b in rows && a.id == b.id
    ensures a == b
  {
  }

  /** Rows that the result settles are told apart by their ids. */
  lemma SettledIds(result: AggregationRun.Result, rows: seq<FilterRows.BundleRow>)
    requires UniqueIds(rows) && AggregationRun.Settles(result, rows)
    ensures IdsOf(result.includedRows) !! IdsOf(result.failedRows)
    ensures IdsOf(result.includedRows) + IdsOf(result.failedRows) <= IdsOf(rows)
  {
    var both := result.includedRows + result.failedRows;
    assert forall r :: r in result.includedRows || r in result.failedRows ==> r in both;
    forall a, b | a in result.includedRows && b in result.failedRows
      ensures a.id != b.id
    {
      var i :| 0 <= i < |result.includedRows| && result.includedRows[i] == a;
      var j :| 0 <= j < |result.failedRows| && result.failedRows[j] == b;
      assert both[i] == a && both[|result.includedRows| + j] == b;
      if a.id == b.id {
        SameIdSameRow(rows, a, b);
      }
    }
  }

  lemma IdsOfSome(rows: seq<FilterRows.BundleRow>)
    ensures IdsOf(rows) == {} <==> rows == []
  {
    if rows != [] {
      assert rows[0].id in IdsOf(rows);
    }
  }

  lemma DecisionApplies(c: Service.Config, state: Service.State, included: set<nat>, failed: set<nat>)
    requires state.body.Selected? && included !! failed && included + failed <= state.body.rows
    ensures var next := Service.Apply(c, state, Service.Decide(included, failed));
            next.Some? && (next.value.body.NeedsPermit? <==> included != {})
  {
  }

  /** Whatever `run` returns for the rows that a submission selected, the service can act on it, and
      it goes on to ask for a permit exactly if there is an aggregate. */
  lemma RunIsADecision(c: Service.Config, state: Service.State, s: Strategy.Setting, concurrency: nat,
                       fees: Strategy.Fees, eligibleRows: seq<FilterRows.BundleRow>,
                       filterAnswers: FilterRows.Answers, bundle: Operations.Bundle, cost: int,
                       result: AggregationRun.Result)
    requires FilterRows.RowsPaired(eligibleRows) && UniqueIds(eligibleRows)
    requires state.body.Selected? && state.body.rows == IdsOf(eligibleRows)
    requires var tried := Strategy.RowsTried(s, concurrency, FilterRows.Filtered(eligibleRows, filterAnswers));
             var included := Strategy.Chosen(s, Strategy.Included, tried, s.overheadGas);
             AggregationRun.IsResult(fees, included, Strategy.Unsuccessful(s, tried), bundle,
                                     Strategy.Sum(Strategy.FeesOf(s, included)), cost, result)
    ensures var next := Service.Apply(c, state, Service.Decide(IdsOf(result.includedRows), IdsOf(result.failedRows)));
            next.Some? && (next.value.body.NeedsPermit? <==> result.aggregateBundle.Some?)
  {
    AggregationRun.RunIsSafe(s, concurrency, fees, eligibleRows, filterAnswers, bundle, cost, result);
    SettledIds(result, eligibleRows);
    DecisionApplies(c, state, IdsOf(result.includedRows), IdsOf(result.failedRows));
    IdsOfSome(result.includedRows);
  }

  // ---- Query groups as the service's body ----

  /** What a step of a group means to the service; bodies that do nothing stand for all. */
  function Lift(isSubmission: Group -> bool, q: QueryGroups.State, step: QueryGroups.Step): seq<Service.Step> {
    match step
    case Ask(g) => [if isSubmission(g) then Service.AskSubmission else Service.AskAdd]
    case Resume(g) => [if isSubmission(g) then Service.BeginSubmission else Service.BeginAdd]
    case BodyEnds(_, _) => []
    case Release(_) => []
    case Finish(g) =>
      if !PhaseOf(q, g).Released? || !PhaseOf(q, g).completed then [Service.Throw]
      else if isSubmission(g) then [Service.Select({}, 0), Service.Decide({}, {}), Service.Commit]
      else [Service.AddRow(0), Service.Commit]
  }

  function LiftAll(isSubmission: Group -> bool, q: QueryGroups.State, steps: seq<QueryGroups.Step>): seq<Service.Step>
    requires QueryGroups.Run(q, steps).Some?
    decreases |steps|
  {
    if steps == [] then []
    else
      Lift(isSubmission, q, steps[0]) + LiftAll(isSubmission, QueryGroups.Apply(q, steps[0]).value, steps[1..])
  }

  predicate NotBegun(phase: Phase) {
    phase.Waiting? || phase.Granted?
  }

  function Submissions(groups: set<Group>, isSubmission: Group -> bool): set<Group> {
    set g | g in groups && isSubmission(g)
  }

  function Body(isSubmission: Group -> bool, owner: Option<Group>): Service.Body {
    match owner
    case None => Service.NoGroup
    case Some(g) => if isSubmission(g) then Service.Begun else Service.Adding
  }

  /** The service's body is the group in its transaction, if any, and its counters count the groups
      that have not begun. */
  ghost predicate Follows(isSubmission: Group -> bool, q: QueryGroups.State, s: Service.State, owner: Option<Group>,
                          pending: set<Group>) {
    && (forall g: Group {:trigger PhaseOf(q, g)} :: InTransaction(PhaseOf(q, g)) <==> owner == Some(g))
    && (forall g: Group {:trigger PhaseOf(q, g)} :: NotBegun(PhaseOf(q, g)) <==> g in pending)
    && s.body == Body(isSubmission, owner)
    && s.waitingSubmissions == |Submissions(pending, isSubmission)|
    && s.waitingAdds == |pending - Submissions(pending, isSubmission)|
  }

  lemma CountAdded(pending: set<Group>, g: Group, isSubmission: Group -> bool)
    requires g !in pending
    ensures var before, after := Submissions(pending, isSubmission), Submissions(pending + {g}, isSubmission);
            && |after| == |before| + (if isSubmission(g) then 1 else 0)
            && |(pending + {g}) - after| == |pending - before| + (if isSubmission(g) then 0 else 1)
  {
    var before, after := Submissions(pending, isSubmission), Submissions(pending + {g}, isSubmission);
    if isSubmission(g) {
      assert after == before + {g} && (pending + {g}) - after == pending - before;
    } else {
      assert after == before && (pending + {g}) - after == (pending - before) + {g};
    }
  }

  lemma AskFollows(c: Service.Config, isSubmission: Group -> bool, q: QueryGroups.State, s: Service.State,
                   owner: Option<Group>, pending: set<Group>, g: Group)
    requires Follows(isSubmission, q, s, owner, pending)
    requires QueryGroups.Apply(q, Ask(g)).Some?
    ensures var lifted := Service.Apply(c, s, Lift(isSubmission, q, Ask(g))[0]);
            && lifted.Some?
            && Follows(isSubmission, QueryGroups.Apply(q, Ask(g)).value, lifted.value, owner, pending + {g})
  {
    var q' := QueryGroups.Apply(q, Ask(g)).value;
    assert PhaseOf(q, g) == Done;
    assert forall h: Group :: h != g ==> PhaseOf(q', h) == PhaseOf(q, h);
    CountAdded(pending, g, isSubmission);
  }

  lemma ResumeKeepsPhases(q: QueryGroups.State, owner: Option<Group>, pending: set<Group>, g: Group)
    requires forall h: Group {:trigger PhaseOf(q, h)} :: InTransaction(PhaseOf(q, h)) <==> owner == Some(h)
    requires forall h: Group {:trigger PhaseOf(q, h)} :: NotBegun(PhaseOf(q, h)) <==> h in pending
    requires QueryGroups.Apply(q, Resume(g)).Some? && forall h: Group :: !InTransaction(PhaseOf(q, h))
    ensures owner.None? && g in pending
    ensures var q' := QueryGroups.Apply(q, Resume(g)).value;
            && (forall h: Group {:trigger PhaseOf(q', h)} :: InTransaction(PhaseOf(q', h)) <==> h == g)
            && (forall h: Group {:trigger PhaseOf(q', h)} :: NotBegun(PhaseOf(q', h)) <==> h in pending - {g})
  {
    var q' := QueryGroups.Apply(q, Resume(g)).value;
    var o := if owner.Some? then owner.value else g;
    assert InTransaction(PhaseOf(q, o)) <==> owner == Some(o);
    assert NotBegun(PhaseOf(q, g));
    assert forall h: Group :: h != g ==> PhaseOf(q', h) == PhaseOf(q, h);
  }

  lemma CountRemoved(pending: set<Group>, g: Group, isSubmission: Group -> bool)
    requires g in pending
    ensures var before, after := Submissions(pending, isSubmission), Submissions(pending - {g}, isSubmission);
            && |before| == |after| + (if isSubmission(g) then 1 else 0)
            && |pending - before| == |(pending - {g}) - after| + (if isSubmission(g) then 0 else 1)
  {
    CountAdded(pending - {g}, g, isSubmission);
    assert (pending - {g}) + {g} == pending;
  }

  lemma ResumeFollows(c: Service.Config, isSubmission: Group -> bool, q: QueryGroups.State, s: Service.State,
                      owner: Option<Group>, pending: set<Group>, g: Group)
    requires Follows(isSubmission, q, s, owner, pending)
    requires QueryGroups.Apply(q, Resume(g)).Some? && forall h: Group :: !InTransaction(PhaseOf(q, h))
    ensures var lifted := Service.Apply(c, s, Lift(isSubmission, q, Resume(g))[0]);
            && lifted.Some?
            && Follows(isSubmission, QueryGroups.Apply(q, Resume(g)).value, lifted.value, Some(g), pending - {g})
  {
    ResumeKeepsPhases(q, owner, pending, g);
    CountRemoved(pending, g, isSubmission);
  }

  lemma QuietFollows(isSubmission: Group -> bool, q: QueryGroups.State, s: Service.State, owner: Option<Group>,
                     pending: set<Group>, step: QueryGroups.Step)
    requires QueryGroups.Invariant(q) && Follows(isSubmission, q, s, owner, pending)
    requires (step.BodyEnds? || step.Release?) && QueryGroups.Apply(q, step).Some?
    ensures Follows(isSubmission, QueryGroups.Apply(q, step).value, s, owner, pending)
  {
    var q' := QueryGroups.Apply(q, step).value;
    var holder, o :| Locked(q, holder) && Bracketed(q, holder, o);
    if step.Release? && q.mutex.queue != [] {
      var next := q.mutex.queue[0];
      assert PhaseOf(q, next).Waiting?;
      assert forall h: Group :: h != step.g && h != next ==> PhaseOf(q', h) == PhaseOf(q, h);
    } else {
      assert forall h: Group :: h != step.g ==> PhaseOf(q', h) == PhaseOf(q, h);
    }
  }

  lemma FinishFollows(c: Service.Config, isSubmission: Group -> bool, q: QueryGroups.State, s: Service.State,
                      owner: Option<Group>, pending: set<Group>, g: Group)
    requires Follows(isSubmission, q, s, owner, pending)
    requires QueryGroups.Apply(q, Finish(g)).Some?
    ensures var lifted := Service.Run(c, s, Lift(isSubmission, q, Finish(g)));
            && lifted.Some?
            && Follows(isSubmission, QueryGroups.Apply(q, Finish(g)).value, lifted.value, None, pending)
  {
    var q' := QueryGroups.Apply(q, Finish(g)).value;
    assert forall h: Group :: h != g ==> PhaseOf(q', h) == PhaseOf(q, h);
    assert owner == Some(g) by {
      assert InTransaction(PhaseOf(q, g));
    }
    BodyRuns(c, s, isSubmission(g), q.phases[g].completed);
  }

  /** The shortest bodies. */
  lemma BodyRuns(c: Service.Config, s: Service.State, submission: bool, completed: bool)
    requires s.body == if submission then Service.Begun else Service.Adding
    ensures var steps := if !completed then [Service.Throw]
                         else if submission then [Service.Select({}, 0), Service.Decide({}, {}), Service.Commit]
                         else [Service.AddRow(0), Service.Commit];
            var after := Service.Run(c, s, steps);
            && after.Some? && after.value.body.NoGroup?
            && after.value.waitingSubmissions == s.waitingSubmissions && after.value.waitingAdds == s.waitingAdds
  {
    if !completed {
      OneStep(c, s, Service.Throw, []);
    } else if submission {
      var s1 := Service.Apply(c, s, Service.Select({}, 0)).value;
      var s2 := Service.Apply(c, s1, Service.Decide({}, {})).value;
      OneStep(c, s, Service.Select({}, 0), [Service.Decide({}, {}), Service.Commit]);
      OneStep(c, s1, Service.Decide({}, {}), [Service.Commit]);
      OneStep(c, s2, Service.Commit, []);
    } else {
      var s1 := Service.Apply(c, s, Service.AddRow(0)).value;
      OneStep(c, s, Service.AddRow(0), [Service.Commit]);
      OneStep(c, s1, Service.Commit, []);
    }
  }

  lemma OneStep(c: Service.Config, s: Service.State, step: Service.Step, others: seq<Service.Step>)
    requires Service.Apply(c, s, step).Some?
    ensures Service.Run(c, s, [step] + others) == Service.Run(c, Service.Apply(c, s, step).value, others)
    ensures others == [] ==> Service.Run(c, s, [step]) == Service.Apply(c, s, step)
  {
    assert ([step] + others)[1..] == others;
    assert [step] + [] == [step];
  }

  lemma NobodyBegun(q: QueryGroups.State, g: Group)
    requires QueryGroups.Invariant(q) && QueryGroups.Apply(q, Resume(g)).Some?
    ensures forall h: Group :: !InTransaction(PhaseOf(q, h))
  {
    var holder, owner :| Locked(q, holder) && Bracketed(q, holder, owner);
    IdleOwnerHolds(q, holder, owner);
    assert HoldsLock(PhaseOf(q, g));
  }

  lemma StepFollows(c: Service.Config, isSubmission: Group -> bool, q: QueryGroups.State, s: Service.State,
                    owner: Option<Group>, pending: set<Group>, step: QueryGroups.Step)
    returns (owner': Option<Group>, pending': set<Group>)
    requires QueryGroups.Invariant(q) && Follows(isSubmission, q, s, owner, pending)
    requires QueryGroups.Apply(q, step).Some?
    ensures var lifted := Service.Run(c, s, Lift(isSubmission, q, step));
            && lifted.Some?
            && Follows(isSubmission, QueryGroups.Apply(q, step).value, lifted.value, owner', pending')
  {
    match step
    case Ask(g) =>
      AskFollows(c, isSubmission, q, s, owner, pending, g);
      OneStep(c, s, Lift(isSubmission, q, step)[0], []);
      owner', pending' := owner, pending + {g};
    case Resume(g) =>
      NobodyBegun(q, g);
      ResumeFollows(c, isSubmission, q, s, owner, pending, g);
      OneStep(c, s, Lift(isSubmission, q, step)[0], []);
      owner', pending' := Some(g), pending - {g};
    case Finish(g) =>
      FinishFollows(c, isSubmission, q, s, owner, pending, g);
      owner', pending' := None, pending;
    case _ =>
      QuietFollows(isSubmission, q, s, owner, pending, step);
      owner', pending' := owner, pending;
  }

  lemma {:induction false} RunFollows(c: Service.Config, isSubmission: Group -> bool, q: QueryGroups.State,
                                      s: Service.State, owner: Option<Group>, pending: set<Group>,
                                      steps: seq<QueryGroups.Step>)
    returns (owner': Option<Group>, pending': set<Group>)
    requires QueryGroups.Invariant(q) && Follows(isSubmission, q, s, owner, pending)
    requires QueryGroups.Run(q, steps).Some?
    ensures var lifted := Service.Run(c, s, LiftAll(isSubmission, q, steps));
            && lifted.Some?
            && Follows(isSubmission, QueryGroups.Run(q, steps).value, lifted.value, owner', pending')
    decreases |steps|
  {
    if steps == [] {
      owner', pending' := owner, pending;
    } else {
      var q' := QueryGroups.Apply(q, steps[0]).value;
      var first := Lift(isSubmission, q, steps[0]);
      owner', pending' := StepFollows(c, isSubmission, q, s, owner, pending, steps[0]);
      var s' := Service.Run(c, s, first).value;
      QueryGroups.StepKeeps(q, steps[0]);
      owner', pending' := RunFollows(c, isSubmission, q', s', owner', pending', steps[1..]);
      ServiceRuns.RunConcat(c, s, first, LiftAll(isSubmission, q', steps[1..]));
    }
  }

  /** For every interleaving of query groups, whichever of them are submissions and whether or not
      they throw, the service has a run whose body is at each end the group in its transaction. */
  lemma ServiceFollowsGroups(c: Service.Config, isSubmission: Group -> bool, steps: seq<QueryGroups.Step>)
    returns (owner: Option<Group>)
    requires QueryGroups.Run(START, steps).Some?
    ensures var q := QueryGroups.Run(START, steps).value;
            var s := Service.Run(c, Service.Start(c), LiftAll(isSubmission, START, steps));
            && s.Some?
            && s.value.body == Body(isSubmission, owner)
            && forall g: Group :: InTransaction(PhaseOf(q, g)) <==> owner == Some(g)
  {
    StartHolds();
    assert Submissions({}, isSubmission) == {};
    assert Follows(isSubmission, START, Service.Start(c), None, {});
    var pending;
    owner, pending := RunFollows(c, isSubmission, START, Service.Start(c), None, {}, steps);
  }

  // ---- The same transactions ----

  /** What a step of the service does to the database's transactions. */
  function SqlOf(step: Service.Step): seq<Sql> {
    match step
    case BeginAdd => [Begin]
    case BeginSubmission => [Begin]
    case Commit => [Sql.Commit]
    case Throw => [Rollback]
    case _ => []
  }

  function SqlOfAll(steps: seq<Service.Step>): seq<Sql> {
    if steps == [] then [] else SqlOf(steps[0]) + SqlOfAll(steps[1..])
  }

  lemma {:induction false} SqlOfConcat(a: seq<Service.Step>, b: seq<Service.Step>)
    ensures SqlOfAll(a + b) == SqlOfAll(a) + SqlOfAll(b)
  {
    if a == [] {
      assert a + b == b;
    } else {
      assert (a + b)[1..] == a[1..] + b;
      SqlOfConcat(a[1..], b);
    }
  }

  lemma SqlOfOne(a: Service.Step, others: seq<Service.Step>)
    ensures SqlOfAll([a] + others) == SqlOf(a) + SqlOfAll(others)
    ensures SqlOfAll([a]) == SqlOf(a)
  {
    assert ([a] + others)[1..] == others && [a][1..] == [];
    NothingMore(SqlOf(a));
  }

  lemma FinishIssues(submission: bool, completed: bool)
    ensures SqlOfAll(if !completed then [Service.Throw]
                     else if submission then [Service.Select({}, 0), Service.Decide({}, {}), Service.Commit]
                     else [Service.AddRow(0), Service.Commit])
            == [if completed then Sql.Commit else Rollback]
  {
    var commit: seq<Service.Step> := [Service.Commit];
    SqlOfOne(Service.Throw, []);
    SqlOfOne(Service.Commit, []);
    SqlOfOne(Service.AddRow(0), commit);
    SqlOfOne(Service.Decide({}, {}), commit);
    SqlOfOne(Service.Select({}, 0), [Service.Decide({}, {})] + commit);
    assert [Service.Select({}, 0), Service.Decide({}, {}), Service.Commit]
           == [Service.Select({}, 0)] + ([Service.Decide({}, {})] + commit);
    assert [Service.AddRow(0), Service.Commit] == [Service.AddRow(0)] + commit;
    NothingMore([Sql.Commit]);
  }

  lemma StepIssues(isSubmission: Group -> bool, q: QueryGroups.State, step: QueryGroups.Step)
    requires QueryGroups.Apply(q, step).Some?
    ensures QueryGroups.Apply(q, step).value.trace == q.trace + SqlOfAll(Lift(isSubmission, q, step))
  {
    NothingMore(q.trace);
    match step
    case Ask(g) => SqlOfOne(Lift(isSubmission, q, step)[0], []);
    case Resume(g) => SqlOfOne(Lift(isSubmission, q, step)[0], []);
    case Finish(g) => FinishIssues(isSubmission(g), q.phases[g].completed);
    case _ =>
  }

  lemma {:induction false} RunIssues(isSubmission: Group -> bool, q: QueryGroups.State, steps: seq<QueryGroups.Step>)
    requires QueryGroups.Run(q, steps).Some?
    ensures QueryGroups.Run(q, steps).value.trace == q.trace + SqlOfAll(LiftAll(isSubmission, q, steps))
    decreases |steps|
  {
    if steps == [] {
      NothingMore(q.trace);
    } else {
      var q' := QueryGroups.Apply(q, steps[0]).value;
      var first, others := Lift(isSubmission, q, steps[0]), LiftAll(isSubmission, q', steps[1..]);
      StepIssues(isSubmission, q, steps[0]);
      RunIssues(isSubmission, q', steps[1..]);
      SqlOfConcat(first, others);
      Regroup(q.trace, SqlOfAll(first), SqlOfAll(others));
    }
  }

  /** The lifted run begins, commits and rolls back exactly where the groups do. */
  lemma ServiceIssuesTrace(isSubmission: Group -> bool, steps: seq<QueryGroups.Step>)
    requires QueryGroups.Run(START, steps).Some?
    ensures SqlOfAll(LiftAll(isSubmission, START, steps)) == QueryGroups.Run(START, steps).value.trace
  {
    RunIssues(isSubmission, START, steps);
    NothingMore(SqlOfAll(LiftAll(isSubmission, START, steps)));
  }
}
