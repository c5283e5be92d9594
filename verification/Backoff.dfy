/** Retrying failed rows (BundleService.ts, `handleFailedRow` and `add`): every failure doubles the
    delay until it exceeds the maximum; the next failure is final. */
module Backoff {
  import opened Wrappers
  import opened BundleTable

  /** The columns of a row that retrying reads and writes. */
  datatype Entry = Entry(status: Status, eligibleAfter: nat, nextEligibilityDelay: nat)

  function AddedAt(block: nat): Entry {
    Entry(Pending, block, 1)
  }

  function HandleFailedRow(e: Entry, currentBlockNumber: nat, maxEligibilityDelay: nat): Entry {
    if e.nextEligibilityDelay <= maxEligibilityDelay
    then Entry(e.status, currentBlockNumber + e.nextEligibilityDelay, 2 * e.nextEligibilityDelay)
    else e.(status := Failed)
  }

  /** A row added at some block and failing at these blocks, each time when it is eligible; None if
      it was not. */
  function Replay(added: nat, failures: seq<nat>, maxDelay: nat): Option<Entry> {
    if failures == [] then Some(AddedAt(added))
    else
      var before :- Replay(added, failures[..|failures| - 1], maxDelay);
      var block := failures[|failures| - 1];
      if before.status != Pending || block < before.eligibleAfter then None
      else Some(HandleFailedRow(before, block, maxDelay))
  }

  function Pow2(n: nat): (r: nat)
    ensures r >= 1
  {
    if n == 0 then 1 else 2 * Pow2(n - 1)
  }

  /** How often a row is rescheduled. */
  function Retries(maxDelay: nat): nat {
    if maxDelay == 0 then 0 else 1 + Retries(maxDelay / 2)
  }

  /** It is the number of binary digits of the maximum delay. */
  lemma {:induction false} RetriesIsLogarithm(maxDelay: nat)
    ensures maxDelay < Pow2(Retries(maxDelay))
    ensures maxDelay > 0 ==> Retries(maxDelay) > 0 && Pow2(Retries(maxDelay) - 1) <= maxDelay
  {
    if maxDelay == 0 {
    } else {
      RetriesIsLogarithm(maxDelay / 2);
    }
  }

  lemma {:induction false} Pow2Grows(a: nat, b: nat)
    requires a <= b
    ensures Pow2(a) <= Pow2(b)
  {
    if a == b {
    } else {
      Pow2Grows(a, b - 1);
    }
  }

  lemma WithinDelay(n: nat, maxDelay: nat)
    ensures Pow2(n) <= maxDelay <==> n < Retries(maxDelay)
  {
    RetriesIsLogarithm(maxDelay);
    if n < Retries(maxDelay) {
      Pow2Grows(n, Retries(maxDelay) - 1);
    } else {
      Pow2Grows(Retries(maxDelay), n);
    }
  }

  function Min(a: nat, b: nat): nat {
    if a <= b then a else b
  }

  /** After k failures a row has been rescheduled every time, up to its number of retries, and one
      more failure is its last. The delay doubles each time and starts at the block of the failure. */
  lemma {:induction false} FailuresDetermine(added: nat, failures: seq<nat>, maxDelay: nat)
    requires Replay(added, failures, maxDelay).Some?
    ensures |failures| <= Retries(maxDelay) + 1
    ensures var e := Replay(added, failures, maxDelay).value;
            && e.status == (if |failures| <= Retries(maxDelay) then Pending else Failed)
            && e.nextEligibilityDelay == Pow2(Min(|failures|, Retries(maxDelay)))
            && e.eligibleAfter >= added + Pow2(Min(|failures|, Retries(maxDelay))) - 1
            && (failures == [] ==> e.eligibleAfter == added)
            && (0 < |failures| <= Retries(maxDelay) ==>
                  e.eligibleAfter == failures[|failures| - 1] + Pow2(|failures| - 1))
    ensures forall k :: 0 <= k < |failures| ==> failures[k] >= added + Pow2(k) - 1
  {
    if failures == [] {
    } else {
      var front := failures[..|failures| - 1];
      FailuresDetermine(added, front, maxDelay);
      WithinDelay(|front|, maxDelay);
      assert forall k :: 0 <= k < |front| ==> failures[k] == front[k];
    }
  }

  /** A failure waits out the delay set by the one before. */
  lemma LastIsSpaced(added: nat, failures: seq<nat>, maxDelay: nat)
    requires Replay(added, failures, maxDelay).Some? && |failures| > 1
    ensures failures[|failures| - 1] >= failures[|failures| - 2] + Pow2(|failures| - 2)
  {
    var front := failures[..|failures| - 1];
    FailuresDetermine(added, front, maxDelay);
    FailuresDetermine(added, failures, maxDelay);
    assert front[|front| - 1] == failures[|failures| - 2];
  }

  /** So the first failure comes no earlier than the row, and each further one no earlier than the
      delay then set allows. */
  lemma {:induction false} FailuresAreSpaced(added: nat, failures: seq<nat>, maxDelay: nat)
    requires Replay(added, failures, maxDelay).Some?
    ensures failures != [] ==> failures[0] >= added
    ensures forall k :: 0 <= k && k + 1 < |failures| ==> failures[k + 1] >= failures[k] + Pow2(k)
  {
    if failures == [] {
    } else {
      var front := failures[..|failures| - 1];
      FailuresAreSpaced(added, front, maxDelay);
      if |failures| > 1 {
        LastIsSpaced(added, failures, maxDelay);
      }
      assert forall k :: 0 <= k < |front| ==> failures[k] == front[k];
    }
  }

  function EarliestFailures(added: nat, k: nat): (failures: seq<nat>)
    ensures |failures| == k
  {
    if k == 0 then [] else EarliestFailures(added, k - 1) + [added + Pow2(k - 1) - 1]
  }

  /** The earliest failures reschedule the row as often as it can be. */
  lemma {:induction false} EarliestReschedule(added: nat, k: nat, maxDelay: nat)
    requires k <= Retries(maxDelay)
    ensures Replay(added, EarliestFailures(added, k), maxDelay) == Some(Entry(Pending, added + Pow2(k) - 1, Pow2(k)))
  {
    if k == 0 {
      assert EarliestFailures(added, 0) == [] && Pow2(0) == 1;
    } else {
      EarliestReschedule(added, k - 1, maxDelay);
      OneMoreFailure(added, k, maxDelay);
    }
  }

  lemma OneMoreFailure(added: nat, k: nat, maxDelay: nat)
    requires 0 < k <= Retries(maxDelay)
    requires Replay(added, EarliestFailures(added, k - 1), maxDelay)
             == Some(Entry(Pending, added + Pow2(k - 1) - 1, Pow2(k - 1)))
    ensures Replay(added, EarliestFailures(added, k), maxDelay) == Some(Entry(Pending, added + Pow2(k) - 1, Pow2(k)))
  {
    WithinDelay(k - 1, maxDelay);
    FailAtOnce(added, EarliestFailures(added, k - 1), Pow2(k - 1), maxDelay);
  }

  /** Both bounds are attained: the row can fail that often and that early. */
  lemma BoundsAreAttained(added: nat, k: nat, maxDelay: nat)
    requires k <= Retries(maxDelay) + 1
    ensures Replay(added, EarliestFailures(added, k), maxDelay).Some?
    ensures k <= Retries(maxDelay) ==>
              Replay(added, EarliestFailures(added, k), maxDelay) == Some(Entry(Pending, added + Pow2(k) - 1, Pow2(k)))
  {
    if k <= Retries(maxDelay) {
      EarliestReschedule(added, k, maxDelay);
    } else {
      EarliestReschedule(added, k - 1, maxDelay);
      FailAtOnce(added, EarliestFailures(added, k - 1), Pow2(k - 1), maxDelay);
    }
  }

  /** A failure as soon as the row is eligible. */
  lemma FailAtOnce(added: nat, front: seq<nat>, delay: nat, maxDelay: nat)
    requires delay >= 1
    requires Replay(added, front, maxDelay) == Some(Entry(Pending, added + delay - 1, delay))
    ensures var after := Replay(added, front + [added + delay - 1], maxDelay);
            && after.Some?
            && (delay <= maxDelay ==> after.value == Entry(Pending, added + 2 * delay - 1, 2 * delay))
  {
    ReplaySnoc(added, front, added + delay - 1, maxDelay);
  }

  lemma ReplaySnoc(added: nat, front: seq<nat>, block: nat, maxDelay: nat)
    ensures Replay(added, front + [block], maxDelay)
            == match Replay(added, front, maxDelay)
               case None => None
               case Some(before) =>
                 if before.status != Pending || block < before.eligibleAfter then None
                 else Some(HandleFailedRow(before, block, maxDelay))
  {
    assert (front + [block])[..|front|] == front;
  }
}
