/** The aggregator service (BundleService.ts) over every interleaving. A step is the code between two
    awaits. QueryGroups shows that at most one group at a time is between BEGIN and its end; here
    that group is `body`, and groups that wait for the lock are only counted. What the network, the
    strategy and the timer answer or do is an arbitrary choice of steps. */
module Service {
  import opened Wrappers
  import opened BundleTable
  import opened Backoff

  datatype Config = Config(maxUnconfirmedAggregations: nat, maxEligibilityDelay: nat)

  /** Rows are numbered by their position in the table. */
  type RowId = nat

  /** The group in its transaction. `read` holds the row objects as the query returned them: what is
      written later is computed from these copies, not from the table. */
  datatype Body =
    | NoGroup
    | Adding                                                        // `add` before it inserts the row
    | Begun                                                         // `runSubmission` awaits the block number
    | Selected(read: seq<Entry>, rows: set<RowId>, block: nat)      // awaits the strategy and the hash
    | NeedsPermit(read: seq<Entry>, rows: set<RowId>)               // awaits the semaphore
    | HasPermit(read: seq<Entry>, rows: set<RowId>)                 // the permit is granted
    | Leaving(submission: bool)                                     // COMMIT is next

  /** Paid: the rows are marked as confirmed and the L1 fee is awaited. Dropped: `addTask` ignored
      the submission because the service is stopping. */
  datatype Phase = Flying | Paid | Dropped

  /** An aggregate from its permit to the release of it. */
  datatype Flight = Flight(read: seq<Entry>, rows: set<RowId>, phase: Phase)

  type FlightId = nat

  /** When a row was added and the blocks at which its failures were recorded. */
  datatype History = History(added: nat, failures: seq<nat>)

  /** `throws`, `histories` and `nextFlight` only log what happened. */
  datatype State = State(
    table: seq<Entry>,
    snapshot: seq<Entry>,             // the table at BEGIN, which ROLLBACK restores
    body: Body,
    waitingAdds: nat,
    waitingSubmissions: nat,
    returning: nat,                   // submissions whose group is committed but which have not resumed
    submissionsInProgress: nat,
    throws: nat,
    unconfirmedRowIds: set<RowId>,
    flights: map<FlightId, Flight>,
    nextFlight: FlightId,
    permits: nat,
    stopping: bool,
    histories: seq<History>)

  function Start(c: Config): State {
    State([], [], NoGroup, 0, 0, 0, 0, 0, {}, map[], 0, c.maxUnconfirmedAggregations, false, [])
  }

  datatype Step =
    | AskAdd
    | AskSubmission
    | BeginAdd
    | BeginSubmission
    | AddRow(block: nat)
    | Select(picked: set<RowId>, block: nat)
    | Decide(included: set<RowId>, failed: set<RowId>)
    | Acquire
    | Launch
    | Commit
    | Return
    | Throw
    | Confirm(f: FlightId)
    | Land(f: FlightId)
    | Stop

  /** Rows written from their copies; other rows stay. */
  function Written(table: seq<Entry>, read: seq<Entry>, rows: set<RowId>, write: Entry -> Entry): (r: seq<Entry>)
    ensures |r| == |table|
  {
    seq(|table|, i requires 0 <= i < |table| => if i in rows && i < |read| then write(read[i]) else table[i])
  }

  function Rescheduling(block: nat, maxDelay: nat): Entry -> Entry {
    e => HandleFailedRow(e, block, maxDelay)
  }

  function Logged(histories: seq<History>, rows: set<RowId>, block: nat): (r: seq<History>)
    ensures |r| == |histories|
  {
    seq(|histories|, i requires 0 <= i < |histories| =>
      if i in rows then histories[i].(failures := histories[i].failures + [block]) else histories[i])
  }

  predicate Selectable(s: State, id: RowId, block: nat) {
    && id < |s.table|
    && s.table[id].status == Pending && s.table[id].eligibleAfter <= block
    && id !in s.unconfirmedRowIds
  }

  /** A group that has written nothing yet can still throw. */
  predicate CanThrow(body: Body) {
    body.Adding? || body.Begun? || body.Selected?
  }

  predicate IsSubmission(body: Body) {
    body.Begun? || body.Selected? || body.NeedsPermit? || body.HasPermit? || body == Leaving(true)
  }

  function Apply(c: Config, s: State, step: Step): Option<State> {
    match step
    case AskAdd => Some(s.(waitingAdds := s.waitingAdds + 1))
    case AskSubmission =>
      Some(s.(waitingSubmissions := s.waitingSubmissions + 1, submissionsInProgress := s.submissionsInProgress + 1))
    case BeginAdd =>
      if !s.body.NoGroup? || s.waitingAdds == 0 then None
      else Some(s.(waitingAdds := s.waitingAdds - 1, body := Adding, snapshot := s.table))
    case BeginSubmission =>
      if !s.body.NoGroup? || s.waitingSubmissions == 0 then None
      else Some(s.(waitingSubmissions := s.waitingSubmissions - 1, body := Begun, snapshot := s.table))
    case AddRow(block) =>
      if !s.body.Adding? then None
      else Some(s.(table := s.table + [AddedAt(block)], histories := s.histories + [History(block, [])],
                   body := Leaving(false)))
    case Select(picked, block) =>
      // which eligible rows the limit leaves is not needed here
      if !s.body.Begun? || exists id :: id in picked && !Selectable(s, id, block) then None
      else Some(s.(body := Selected(s.table, picked, block)))
    case Decide(included, failed) =>
      if !s.body.Selected? || !(included !! failed) || !(included + failed <= s.body.rows) then None
      else
        Some(s.(table := Written(s.table, s.body.read, failed, Rescheduling(s.body.block, c.maxEligibilityDelay)),
                histories := Logged(s.histories, failed, s.body.block),
                unconfirmedRowIds := s.unconfirmedRowIds - failed,
                body := if included == {} then Leaving(true) else NeedsPermit(s.body.read, included)))
    case Acquire =>
      if !s.body.NeedsPermit? || s.permits == 0 then None
      else Some(s.(permits := s.permits - 1, body := HasPermit(s.body.read, s.body.rows)))
    case Launch =>
      if !s.body.HasPermit? then None
      else
        var flight := Flight(s.body.read, s.body.rows, if s.stopping then Dropped else Flying);
        Some(s.(unconfirmedRowIds := s.unconfirmedRowIds + s.body.rows, flights := s.flights[s.nextFlight := flight],
                nextFlight := s.nextFlight + 1, body := Leaving(true)))
    case Commit =>
      if !s.body.Leaving? then None
      else Some(s.(body := NoGroup, returning := if s.body.submission then s.returning + 1 else s.returning))
    case Return =>
      if s.returning == 0 || s.submissionsInProgress == 0 then None
      else Some(s.(returning := s.returning - 1, submissionsInProgress := s.submissionsInProgress - 1))
    case Throw =>
      // the decrement after `runQueryGroup` is skipped
      if !CanThrow(s.body) then None
      else Some(s.(table := s.snapshot, body := NoGroup,
                   throws := if IsSubmission(s.body) then s.throws + 1 else s.throws))
    case Confirm(f) =>
      if f !in s.flights || !s.flights[f].phase.Flying? then None
      else
        var flight := s.flights[f];
        Some(s.(table := Written(s.table, flight.read, flight.rows, (e: Entry) => e.(status := Confirmed)),
                flights := s.flights[f := flight.(phase := Paid)]))
    case Land(f) =>
      // from Flying when an answer of the network was an error
      if f !in s.flights || s.flights[f].phase.Dropped? then None
      else Some(s.(unconfirmedRowIds := s.unconfirmedRowIds - s.flights[f].rows, flights := s.flights - {f},
                   permits := s.permits + 1))
    case Stop => Some(s.(stopping := true))
  }

  function Run(c: Config, s: State, steps: seq<Step>): Option<State>
    decreases |steps|
  {
    if steps == [] then Some(s)
    else
      var s' :- Apply(c, s, steps[0]);
      Run(c, s', steps[1..])
  }

  // ---- The invariant ----

  ghost predicate InFlight(flights: map<FlightId, Flight>, id: RowId) {
    exists f :: f in flights && id in flights[f].rows
  }

  /** In-flight aggregates share no row, and together are what counts as unconfirmed. */
  ghost predicate Separate(s: State) {
    && (forall f, g :: f in s.flights && g in s.flights && f != g ==> s.flights[f].rows !! s.flights[g].rows)
    && (forall id :: id in s.unconfirmedRowIds <==> InFlight(s.flights, id))
    && (forall f :: f in s.flights ==> f < s.nextFlight)
  }

  ghost predicate Copied(table: seq<Entry>, read: seq<Entry>, rows: set<RowId>) {
    forall id :: id in rows ==> id < |table| && id < |read| && read[id] == table[id] && read[id].status == Pending
  }

  function Unconfirmed(e: Entry): Entry {
    if e.status == Confirmed then e.(status := Pending) else e
  }

  /** The copies a flight holds are up to date, except that its own confirmation is not in them. */
  ghost predicate Current(table: seq<Entry>, flight: Flight) {
    if flight.phase == Paid then
      forall id :: id in flight.rows ==>
        && id < |table| && id < |flight.read|
        && flight.read[id] == Unconfirmed(table[id]) && flight.read[id].status == Pending
    else Copied(table, flight.read, flight.rows)
  }

  ghost predicate FlightsCurrent(s: State) {
    forall f :: f in s.flights ==> Current(s.table, s.flights[f])
  }

  /** The rows a submission works on are pending, in no flight, and as they were read. */
  ghost predicate BodyCurrent(s: State) {
    match s.body
    case Selected(read, rows, block) =>
      && Copied(s.table, read, rows) && rows !! s.unconfirmedRowIds
      && forall id :: id in rows ==> read[id].eligibleAfter <= block
    case NeedsPermit(read, rows) => Copied(s.table, read, rows) && rows !! s.unconfirmedRowIds
    case HasPermit(read, rows) => Copied(s.table, read, rows) && rows !! s.unconfirmedRowIds
    case _ => true
  }

  predicate LostIfRestored(before: Entry, now: Entry) {
    before.status == Pending && now == before.(status := Confirmed)
  }

  /** The tables agree but for rows confirmed in the second. */
  ghost predicate AgreeButConfirmed(before: seq<Entry>, now: seq<Entry>) {
    && |before| == |now|
    && forall id :: 0 <= id < |now| ==> now[id] == before[id] || LostIfRestored(before[id], now[id])
  }

  ghost predicate Restorable(s: State) {
    CanThrow(s.body) ==> AgreeButConfirmed(s.snapshot, s.table)
  }

  /** Every permit is there, held by a flight or just granted. */
  ghost predicate PermitsAddUp(c: Config, s: State) {
    s.permits + |s.flights| + (if s.body.HasPermit? then 1 else 0) == c.maxUnconfirmedAggregations
  }

  /** The counter is the number of submissions that are live plus those that threw. */
  ghost predicate CounterAddsUp(s: State) {
    s.submissionsInProgress
    == s.waitingSubmissions + (if IsSubmission(s.body) then 1 else 0) + s.returning + s.throws
  }

  /** Every row is as its recorded failures leave it, whatever was rolled back. */
  ghost predicate Recorded(c: Config, table: seq<Entry>, histories: seq<History>) {
    && |histories| == |table|
    && forall id :: 0 <= id < |table| ==>
         Replay(histories[id].added, histories[id].failures, c.maxEligibilityDelay) == Some(Unconfirmed(table[id]))
  }

  ghost predicate Invariant(c: Config, s: State) {
    && Separate(s)
    && FlightsCurrent(s)
    && BodyCurrent(s)
    && Restorable(s)
    && PermitsAddUp(c, s)
    && CounterAddsUp(s)
    && Recorded(c, s.table, s.histories)
  }

  // ---- Every step keeps it ----

  lemma SelectKeeps(c: Config, s: State, step: Step)
    requires Invariant(c, s) && step.Select? && Apply(c, s, step).Some?
    ensures Invariant(c, Apply(c, s, step).value)
  {
    assert forall id :: id in step.picked ==> Selectable(s, id, step.block);
  }

  lemma DecideRecords(c: Config, s: State, step: Step)
    requires Invariant(c, s) && step.Decide? && Apply(c, s, step).Some?
    ensures var s' := Apply(c, s, step).value; Recorded(c, s'.table, s'.histories)
  {
    var s' := Apply(c, s, step).value;
    forall id | 0 <= id < |s'.table|
      ensures Replay(s'.histories[id].added, s'.histories[id].failures, c.maxEligibilityDelay)
              == Some(Unconfirmed(s'.table[id]))
    {
      if id in step.failed {
        assert id in s.body.rows;
        var failures := s.histories[id].failures;
        assert (failures + [s.body.block])[..|failures|] == failures;
      }
    }
  }

  lemma FailedAreElsewhere(s: State, failed: set<RowId>, table': seq<Entry>)
    requires Separate(s) && FlightsCurrent(s)
    requires failed !! s.unconfirmedRowIds
    requires |table'| == |s.table| && forall id :: 0 <= id < |s.table| && id !in failed ==> table'[id] == s.table[id]
    ensures forall f :: f in s.flights ==> Current(table', s.flights[f])
  {
    forall f | f in s.flights
      ensures Current(table', s.flights[f])
    {
      assert Current(s.table, s.flights[f]);
      forall id | id in s.flights[f].rows
        ensures id !in failed
      {
        assert InFlight(s.flights, id);
      }
    }
  }

  lemma DecideKeeps(c: Config, s: State, step: Step)
    requires Invariant(c, s) && step.Decide? && Apply(c, s, step).Some?
    ensures Invariant(c, Apply(c, s, step).value)
  {
    var s' := Apply(c, s, step).value;
    DecideRecords(c, s, step);
    assert s.unconfirmedRowIds - step.failed == s.unconfirmedRowIds;
    FailedAreElsewhere(s, step.failed, s'.table);
    assert Separate(s');
    assert BodyCurrent(s');
  }

  lemma LaunchKeeps(c: Config, s: State)
    requires Invariant(c, s) && Apply(c, s, Launch).Some?
    ensures Invariant(c, Apply(c, s, Launch).value)
  {
    var s' := Apply(c, s, Launch).value;
    LaunchSeparate(c, s);
    assert s'.flights - {s.nextFlight} == s.flights;
    forall f | f in s'.flights
      ensures Current(s'.table, s'.flights[f])
    {
      assert f != s.nextFlight ==> f in s.flights;
    }
  }

  lemma LaunchSeparate(c: Config, s: State)
    requires Invariant(c, s) && Apply(c, s, Launch).Some?
    ensures Separate(Apply(c, s, Launch).value)
  {
    var s' := Apply(c, s, Launch).value;
    forall f | f in s.flights
      ensures s.flights[f].rows !! s.body.rows
    {
      forall id | id in s.flights[f].rows
        ensures id !in s.body.rows
      {
        assert InFlight(s.flights, id);
      }
    }
    forall id
      ensures id in s'.unconfirmedRowIds <==> InFlight(s'.flights, id)
    {
      if id in s.body.rows {
        assert s.nextFlight in s'.flights && id in s'.flights[s.nextFlight].rows;
      } else if InFlight(s.flights, id) {
        var f :| f in s.flights && id in s.flights[f].rows;
        assert f in s'.flights && id in s'.flights[f].rows;
      }
    }
  }

  lemma ConfirmRows(c: Config, s: State, f: FlightId)
    requires Invariant(c, s) && Apply(c, s, Confirm(f)).Some?
    ensures var s' := Apply(c, s, Confirm(f)).value;
            && (forall id :: 0 <= id < |s.table| ==> Unconfirmed(s'.table[id]) == Unconfirmed(s.table[id]))
            && (forall id :: 0 <= id < |s.table| ==>
                  s'.table[id] == if id in s.flights[f].rows then s.table[id].(status := Confirmed) else s.table[id])
            && (forall id :: 0 <= id < |s.table| && id in s.flights[f].rows ==> s.table[id].status == Pending)
  {
    assert Current(s.table, s.flights[f]);
  }

  lemma ConfirmFlights(c: Config, s: State, f: FlightId)
    requires Invariant(c, s) && Apply(c, s, Confirm(f)).Some?
    ensures FlightsCurrent(Apply(c, s, Confirm(f)).value)
  {
    var s' := Apply(c, s, Confirm(f)).value;
    ConfirmRows(c, s, f);
    forall g | g in s'.flights
      ensures Current(s'.table, s'.flights[g])
    {
      assert Current(s.table, s.flights[g]);
    }
  }

  lemma ConfirmBody(c: Config, s: State, f: FlightId)
    requires Invariant(c, s) && Apply(c, s, Confirm(f)).Some?
    ensures var s' := Apply(c, s, Confirm(f)).value; BodyCurrent(s') && Restorable(s')
  {
    ConfirmRows(c, s, f);
    assert forall id :: id in s.flights[f].rows ==> InFlight(s.flights, id);
  }

  lemma ConfirmKeeps(c: Config, s: State, f: FlightId)
    requires Invariant(c, s) && Apply(c, s, Confirm(f)).Some?
    ensures Invariant(c, Apply(c, s, Confirm(f)).value)
  {
    var s' := Apply(c, s, Confirm(f)).value;
    ConfirmFlights(c, s, f);
    ConfirmBody(c, s, f);
    assert s'.flights.Keys == s.flights.Keys;
    SameRowsSeparate(s, s');
    SameSize(s.flights, s'.flights);
    ConfirmRecords(c, s, f);
  }

  lemma ConfirmRecords(c: Config, s: State, f: FlightId)
    requires Invariant(c, s) && Apply(c, s, Confirm(f)).Some?
    ensures Recorded(c, Apply(c, s, Confirm(f)).value.table, s.histories)
  {
    ConfirmRows(c, s, f);
  }

  lemma SameSize(a: map<FlightId, Flight>, b: map<FlightId, Flight>)
    requires a.Keys == b.Keys
    ensures |a| == |b|
  {
    assert |a.Keys| == |a| && |b.Keys| == |b|;
  }

  lemma SameRowsSeparate(s: State, s': State)
    requires Separate(s)
    requires s'.unconfirmedRowIds == s.unconfirmedRowIds && s'.nextFlight == s.nextFlight
    requires s'.flights.Keys == s.flights.Keys
    requires forall g :: g in s.flights ==> s'.flights[g].rows == s.flights[g].rows
    ensures Separate(s')
  {
    forall id
      ensures InFlight(s.flights, id) <==> InFlight(s'.flights, id)
    {
      if InFlight(s.flights, id) {
        var g :| g in s.flights && id in s.flights[g].rows;
        assert g in s'.flights && id in s'.flights[g].rows;
      }
      if InFlight(s'.flights, id) {
        var g :| g in s'.flights && id in s'.flights[g].rows;
        assert g in s.flights && id in s.flights[g].rows;
      }
    }
  }

  lemma LandKeeps(c: Config, s: State, f: FlightId)
    requires Invariant(c, s) && Apply(c, s, Land(f)).Some?
    ensures Invariant(c, Apply(c, s, Land(f)).value)
  {
    var s' := Apply(c, s, Land(f)).value;
    assert s'.flights.Keys == s.flights.Keys - {f};
    assert |s'.flights| == |s'.flights.Keys| == |s.flights.Keys| - 1;
    forall id
      ensures id in s'.unconfirmedRowIds <==> InFlight(s'.flights, id)
    {
      if InFlight(s'.flights, id) {
        var g :| g in s'.flights && id in s'.flights[g].rows;
        assert g in s.flights && id in s.flights[g].rows;
      }
      if id in s.unconfirmedRowIds && id !in s.flights[f].rows {
        var g :| g in s.flights && id in s.flights[g].rows;
        assert g in s'.flights && id in s'.flights[g].rows;
      }
    }
  }

  lemma ThrowKeeps(c: Config, s: State)
    requires Invariant(c, s) && Apply(c, s, Throw).Some?
    ensures Invariant(c, Apply(c, s, Throw).value)
  {
    var s' := Apply(c, s, Throw).value;
    assert forall id :: 0 <= id < |s.table| ==> Unconfirmed(s'.table[id]) == Unconfirmed(s.table[id]);
    forall f | f in s.flights
      ensures Current(s'.table, s.flights[f])
    {
      assert Current(s.table, s.flights[f]);
    }
  }

  lemma StepKeeps(c: Config, s: State, step: Step)
    requires Invariant(c, s) && Apply(c, s, step).Some?
    ensures Invariant(c, Apply(c, s, step).value)
  {
    match step
    case Select(_, _) => SelectKeeps(c, s, step);
    case Decide(_, _) => DecideKeeps(c, s, step);
    case Launch => LaunchKeeps(c, s);
    case Confirm(f) => ConfirmKeeps(c, s, f);
    case Land(f) => LandKeeps(c, s, f);
    case Throw => ThrowKeeps(c, s);
    case AddRow(block) => AddRowKeeps(c, s, block);
    case _ =>
  }

  lemma AddRowKeeps(c: Config, s: State, block: nat)
    requires Invariant(c, s) && Apply(c, s, AddRow(block)).Some?
    ensures Invariant(c, Apply(c, s, AddRow(block)).value)
  {
    var s' := Apply(c, s, AddRow(block)).value;
    forall f | f in s.flights
      ensures Current(s'.table, s.flights[f])
    {
      assert Current(s.table, s.flights[f]);
    }
  }

  lemma {:induction false} RunKeeps(c: Config, s: State, steps: seq<Step>)
    requires Invariant(c, s) && Run(c, s, steps).Some?
    ensures Invariant(c, Run(c, s, steps).value)
    decreases |steps|
  {
    if steps == [] {
    } else {
      StepKeeps(c, s, steps[0]);
      RunKeeps(c, Apply(c, s, steps[0]).value, steps[1..]);
    }
  }
}
