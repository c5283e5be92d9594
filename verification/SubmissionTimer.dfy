/** The submission timer (SubmissionTimer.ts): a delay that is armed while bundles wait, and the
    listeners that await a number of completed submissions. */
module SubmissionTimer {
  import opened Wrappers

  /** One call of `clock.wait`. */
  type Wait = nat

  type ListenerId = nat

  datatype Listener = Listener(id: ListenerId, completedSubmissionCount: nat)

  /** The listeners that wait for more than this. */
  function StillWaiting(listeners: seq<Listener>, completed: nat): (r: seq<Listener>)
    ensures forall l :: l in r <==> l in listeners && completed < l.completedSubmissionCount
  {
    if listeners == [] then []
    else (if listeners[0].completedSubmissionCount <= completed then [] else [listeners[0]])
         + StillWaiting(listeners[1..], completed)
  }

  /** The listeners that have waited long enough. */
  function Resolved(listeners: seq<Listener>, completed: nat): set<ListenerId> {
    set l | l in listeners && l.completedSubmissionCount <= completed :: l.id
  }

  /** Whoever asked is resolved or still listed, according to the count. */
  ghost predicate Settled(asked: map<ListenerId, nat>, listeners: seq<Listener>, resolved: set<ListenerId>,
                          count: nat) {
    && (forall id :: id in resolved <==> id in asked && asked[id] <= count)
    && (forall l :: l in listeners <==>
          l.id in asked && asked[l.id] == l.completedSubmissionCount && count < l.completedSubmissionCount)
  }

  lemma CompletionSettles(asked: map<ListenerId, nat>, listeners: seq<Listener>, resolved: set<ListenerId>, count: nat)
    requires Settled(asked, listeners, resolved, count)
    ensures Settled(asked, StillWaiting(listeners, count + 1), resolved + Resolved(listeners, count + 1), count + 1)
  {
    assert forall id :: id in asked && count < asked[id] ==> Listener(id, asked[id]) in listeners;
  }

  class Timer {
    /** The wait whose `cleared` flag `clearTimer` would set; None when there is no `clearTimer`. */
    var clearTimer: Option<Wait>
    var listeners: seq<Listener>
    var completedSubmissionCount: nat
    var resolved: set<ListenerId>
    /** Waits begun and not cleared: those that trigger a submission when they end. */
    var uncleared: set<Wait>
    var waits: nat
    ghost var asked: map<ListenerId, nat>

    /** At most one wait can trigger, the one that can be cleared. Listeners are resolved exactly
        when enough submissions have completed. */
    ghost predicate Valid()
      reads this
    {
      && uncleared == (if clearTimer.Some? then {clearTimer.value} else {})
      && (clearTimer.Some? ==> clearTimer.value < waits)
      && Settled(asked, listeners, resolved, completedSubmissionCount)
    }

    constructor ()
      ensures Valid() && asked == map[] && completedSubmissionCount == 0 && clearTimer.None?
    {
      clearTimer, listeners, completedSubmissionCount := None, [], 0;
      resolved, uncleared, waits, asked := {}, {}, 0, map[];
    }

    /** Arms the timer unless it is armed; a wait under way is not prolonged. */
    method NotifyActive()
      requires Valid()
      modifies this`clearTimer, this`uncleared, this`waits
      ensures Valid() && clearTimer.Some?
      ensures old(clearTimer).Some? ==> clearTimer == old(clearTimer) && waits == old(waits)
      ensures old(clearTimer).None? ==> clearTimer == Some(old(waits)) && waits == old(waits) + 1
    {
      if clearTimer.None? {
        clearTimer, uncleared, waits := Some(waits), uncleared + {waits}, waits + 1;
      }
    }

    method Clear()
      requires Valid()
      modifies this`clearTimer, this`uncleared
      ensures Valid() && clearTimer.None? && uncleared == {}
    {
      if clearTimer.Some? {
        uncleared := uncleared - {clearTimer.value};
        clearTimer := None;
      }
    }

    /** A wait ends: it triggers a submission unless it was cleared, and then no other wait can. */
    method WaitEnds(wait: Wait) returns (trigger: bool)
      requires Valid()
      modifies this`clearTimer, this`uncleared
      ensures Valid() && trigger == (wait in old(uncleared))
      ensures trigger ==> clearTimer.None? && uncleared == {}
      ensures !trigger ==> clearTimer == old(clearTimer) && uncleared == old(uncleared)
    {
      trigger := wait in uncleared;
      if trigger {
        Clear();
      }
    }

    /** A triggered submission has run without throwing. */
    method SubmissionCompletes()
      requires Valid()
      modifies this`completedSubmissionCount, this`listeners, this`resolved
      ensures Valid() && completedSubmissionCount == old(completedSubmissionCount) + 1
    {
      CompletionSettles(asked, listeners, resolved, completedSubmissionCount);
      completedSubmissionCount := completedSubmissionCount + 1;
      resolved := resolved + Resolved(listeners, completedSubmissionCount);
      listeners := StillWaiting(listeners, completedSubmissionCount);
    }

    method WaitForCompletedSubmissions(count: nat, id: ListenerId)
      requires Valid() && id !in asked
      modifies this`listeners, this`resolved, this`asked
      ensures Valid() && asked == old(asked)[id := count]
    {
      asked := asked[id := count];
      if count <= completedSubmissionCount {
        resolved := resolved + {id};
      } else {
        listeners := listeners + [Listener(id, count)];
      }
    }
  }
}
