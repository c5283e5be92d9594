/** The service's object (BundleService.ts): its methods, piece by piece between awaits, take the
    steps of the machine in Service. */
module BundleServiceObject {
  import opened Wrappers
  import opened BundleTable
  import opened Backoff
  import opened Service

  function Ids(rows: seq<RowId>): set<RowId> {
    set id | id in rows
  }

  lemma SelectedRowsExist(s: State, rows: set<RowId>)
    requires BodyCurrent(s) && s.body.Selected? && rows <= s.body.rows
    ensures forall id :: id in rows ==> id < |s.table| && id < |s.body.read|
  {
  }

  lemma FlyingRowsExist(s: State, f: FlightId)
    requires FlightsCurrent(s) && f in s.flights
    ensures forall id :: id in s.flights[f].rows ==> id < |s.table| && id < |s.flights[f].read|
  {
    assert Current(s.table, s.flights[f]);
  }

  /** What the methods require of the state is part of the invariant of every reachable one; besides
      that they only say which step is due. */
  class BundleService {
    const config: Config
    var table: seq<Entry>
    var unconfirmedRowIds: set<RowId>
    var submissionsInProgress: nat
    var permits: nat
    var stopping: bool
    ghost var others: State    // what no field holds: running closures, the database's snapshot, logs

    ghost function Value(): State
      reads this
    {
      others.(table := table, unconfirmedRowIds := unconfirmedRowIds, permits := permits, stopping := stopping,
              submissionsInProgress := submissionsInProgress)
    }

    constructor (config: Config)
      ensures this.config == config && Value() == Start(config)
    {
      this.config := config;
      table, unconfirmedRowIds, submissionsInProgress := [], {}, 0;
      permits, stopping := config.maxUnconfirmedAggregations, false;
      others := Start(config);
    }

    /** The first lines of `runSubmission`. */
    method EnterSubmission()
      modifies this
      ensures Some(Value()) == Apply(config, old(Value()), AskSubmission)
    {
      submissionsInProgress := submissionsInProgress + 1;
      others := others.(waitingSubmissions := others.waitingSubmissions + 1);
    }

    method HandleFailedRow(id: RowId, row: Entry, currentBlockNumber: nat)
      requires id < |table|
      modifies this`table, this`unconfirmedRowIds
      ensures table == old(table)[id := Backoff.HandleFailedRow(row, currentBlockNumber, config.maxEligibilityDelay)]
      ensures if row.nextEligibilityDelay <= config.maxEligibilityDelay
              then table[id] == Entry(row.status, currentBlockNumber + row.nextEligibilityDelay,
                                      2 * row.nextEligibilityDelay)
              else table[id] == row.(status := Failed)
      ensures unconfirmedRowIds == old(unconfirmedRowIds) - {id}
    {
      if row.nextEligibilityDelay <= config.maxEligibilityDelay {
        table := table[id := Entry(row.status, currentBlockNumber + row.nextEligibilityDelay,
                                   row.nextEligibilityDelay * 2)];
      } else {
        table := table[id := row.(status := Failed)];
      }
      unconfirmedRowIds := unconfirmedRowIds - {id};
    }

    /** The loop over the rows that failed. */
    method HandleFailedRows(read: seq<Entry>, failedRows: seq<RowId>, block: nat)
      requires forall id :: id in failedRows ==> id < |table| && id < |read|
      modifies this`table, this`unconfirmedRowIds
      ensures table == Written(old(table), read, Ids(failedRows), Rescheduling(block, config.maxEligibilityDelay))
      ensures unconfirmedRowIds == old(unconfirmedRowIds) - Ids(failedRows)
    {
      for i := 0 to |failedRows|
        invariant table == Written(old(table), read, Ids(failedRows[..i]),
                                   Rescheduling(block, config.maxEligibilityDelay))
        invariant unconfirmedRowIds == old(unconfirmedRowIds) - Ids(failedRows[..i])
      {
        assert failedRows[i] in failedRows;
        assert Ids(failedRows[..i + 1]) == Ids(failedRows[..i]) + {failedRows[i]};
        HandleFailedRow(failedRows[i], read[failedRows[i]], block);
      }
      assert failedRows[..|failedRows|] == failedRows;
    }

    /** `runSubmission` once the strategy has answered. */
    method RecordDecision(read: seq<Entry>, ghost picked: set<RowId>, block: nat, includedRows: seq<RowId>,
                          failedRows: seq<RowId>) returns (submit: bool)
      requires BodyCurrent(Value())
      requires Value().body == Selected(read, picked, block)
      requires Ids(includedRows) !! Ids(failedRows) && Ids(includedRows) + Ids(failedRows) <= picked
      modifies this
      ensures Some(Value()) == Apply(config, old(Value()), Decide(Ids(includedRows), Ids(failedRows)))
      ensures submit <==> Value().body.NeedsPermit?
    {
      SelectedRowsExist(Value(), Ids(failedRows));
      assert forall id :: id in failedRows ==> id in Ids(failedRows);
      HandleFailedRows(read, failedRows, block);
      submit := |includedRows| != 0;
      assert submit ==> includedRows[0] in Ids(includedRows);
      others := others.(histories := Logged(others.histories, Ids(failedRows), block),
                        body := if submit then NeedsPermit(read, Ids(includedRows)) else Leaving(true));
    }

    /** `submitAggregateBundle` once the permit is granted. */
    method RegisterFlight(read: seq<Entry>, includedRows: seq<RowId>)
      requires Value().body == HasPermit(read, Ids(includedRows))
      modifies this
      ensures Some(Value()) == Apply(config, old(Value()), Launch)
    {
      for i := 0 to |includedRows|
        invariant others == old(others) && table == old(table)
        invariant unconfirmedRowIds == old(unconfirmedRowIds) + Ids(includedRows[..i])
        invariant permits == old(permits) && stopping == old(stopping)
        invariant submissionsInProgress == old(submissionsInProgress)
      {
        assert Ids(includedRows[..i + 1]) == Ids(includedRows[..i]) + {includedRows[i]};
        unconfirmedRowIds := unconfirmedRowIds + {includedRows[i]};
      }
      assert includedRows[..|includedRows|] == includedRows;
      others := others.(flights := others.flights[others.nextFlight :=
                                     Flight(read, Ids(includedRows), if stopping then Dropped else Flying)],
                        nextFlight := others.nextFlight + 1, body := Leaving(true));
    }

    /** The pending submission of an aggregate when its receipt is there. */
    method MarkConfirmed(f: FlightId, read: seq<Entry>, includedRows: seq<RowId>)
      requires FlightsCurrent(Value())
      requires f in Value().flights && Value().flights[f] == Flight(read, Ids(includedRows), Flying)
      modifies this
      ensures Some(Value()) == Apply(config, old(Value()), Confirm(f))
    {
      FlyingRowsExist(Value(), f);
      ghost var before := table;
      ghost var write := (e: Entry) => e.(status := Confirmed);
      for i := 0 to |includedRows|
        invariant others == old(others) && unconfirmedRowIds == old(unconfirmedRowIds)
        invariant table == Written(before, read, Ids(includedRows[..i]), write)
        invariant permits == old(permits) && stopping == old(stopping)
        invariant submissionsInProgress == old(submissionsInProgress)
      {
        assert Ids(includedRows[..i + 1]) == Ids(includedRows[..i]) + {includedRows[i]};
        var id := includedRows[i];
        assert id in Ids(includedRows);
        table := table[id := read[id].(status := Confirmed)];
      }
      assert includedRows[..|includedRows|] == includedRows;
      others := others.(flights := others.flights[f := Flight(read, Ids(includedRows), Paid)]);
    }

    /** Its `finally` block. */
    method Settle(f: FlightId, includedRows: seq<RowId>)
      requires f in Value().flights && !Value().flights[f].phase.Dropped?
      requires Value().flights[f].rows == Ids(includedRows)
      modifies this
      ensures Some(Value()) == Apply(config, old(Value()), Land(f))
    {
      for i := 0 to |includedRows|
        invariant others == old(others) && table == old(table)
        invariant unconfirmedRowIds == old(unconfirmedRowIds) - Ids(includedRows[..i])
        invariant permits == old(permits) && stopping == old(stopping)
        invariant submissionsInProgress == old(submissionsInProgress)
      {
        assert Ids(includedRows[..i + 1]) == Ids(includedRows[..i]) + {includedRows[i]};
        unconfirmedRowIds := unconfirmedRowIds - {includedRows[i]};
      }
      assert includedRows[..|includedRows|] == includedRows;
      permits := permits + 1;
      others := others.(flights := others.flights - {f});
    }

    /** The last lines of `runSubmission`: whether `tryAggregating` is to be scheduled again. */
    method LeaveSubmission(bundleSubmitted: bool) returns (tryAgain: bool)
      requires CounterAddsUp(Value())
      requires Value().returning > 0
      modifies this
      ensures Some(Value()) == Apply(config, old(Value()), Return)
      ensures tryAgain <==> bundleSubmitted && !stopping
    {
      submissionsInProgress := submissionsInProgress - 1;
      others := others.(returning := others.returning - 1);
      tryAgain := bundleSubmitted && !stopping;
    }
  }
}
