/** SQL transaction brackets (runQueryGroup.ts) over every interleaving. A group asks for the lock;
    when its continuation runs it issues BEGIN and the body; after the body it releases the lock
    and only then issues COMMIT or ROLLBACK. Releasing resolves the next waiter's promise, which
    merely queues that waiter's continuation: while a group is running nobody else runs. */
module QueryGroups {
  import opened Wrappers
  import Mutex

  type Group = nat

  datatype Sql = Begin | Commit | Rollback

  datatype Phase =
    | Waiting
    | Granted(lock: Mutex.Lock)                    // the promise is resolved, BEGIN not yet issued
    | InBody(lock: Mutex.Lock)                     // the body awaits something
    | Leaving(lock: Mutex.Lock, completed: bool)   // in the finally block, before the release
    | Released(completed: bool)                    // after the release, before COMMIT or ROLLBACK
    | Done

  /** `running` is the group whose code is on the stack; `asked` and `served` log the order of
      requests and grants. */
  datatype State = State(mutex: Mutex.State, phases: map<Group, Phase>, running: Option<Group>,
                         trace: seq<Sql>, asked: seq<Group>, served: seq<Group>)

  const START := State(Mutex.UNLOCKED, map[], None, [], [], [])

  datatype Step =
    | Ask(g: Group)
    | Resume(g: Group)
    | BodyEnds(g: Group, completed: bool)
    | Release(g: Group)
    | Finish(g: Group)

  function PhaseOf(s: State, g: Group): Phase {
    if g in s.phases then s.phases[g] else Done
  }

  /** What a step does, or None where it cannot happen. A release that throws cannot happen
      either; NoInvalidRelease shows that none is lost this way. */
  function Apply(s: State, step: Step): Option<State> {
    match step
    case Ask(g) =>
      if s.running.Some? || g in s.phases then None
      else
        var (mutex, lock) := Mutex.Request(s.mutex, g);
        Some(s.(mutex := mutex, asked := s.asked + [g],
                phases := s.phases[g := if lock.Some? then Granted(lock.value) else Waiting],
                served := if lock.Some? then s.served + [g] else s.served))
    case Resume(g) =>
      if s.running.Some? || !PhaseOf(s, g).Granted? then None
      else Some(s.(phases := s.phases[g := InBody(s.phases[g].lock)], trace := s.trace + [Begin]))
    case BodyEnds(g, completed) =>
      if s.running.Some? || !PhaseOf(s, g).InBody? then None
      else Some(s.(phases := s.phases[g := Leaving(s.phases[g].lock, completed)], running := Some(g)))
    case Release(g) =>
      if s.running != Some(g) || !PhaseOf(s, g).Leaving? then None
      else
        var (mutex, resolved) :- Mutex.HandOver(s.mutex, s.phases[g].lock);
        var phases := s.phases[g := Released(s.phases[g].completed)];
        Some(match resolved
             case None => s.(mutex := mutex, phases := phases)
             case Some((next, lock)) =>
               s.(mutex := mutex, phases := phases[next := Granted(lock)], served := s.served + [next]))
    case Finish(g) =>
      if s.running != Some(g) || !PhaseOf(s, g).Released? then None
      else Some(s.(phases := s.phases[g := Done], running := None,
                   trace := s.trace + [if s.phases[g].completed then Commit else Rollback]))
  }

  function Run(s: State, steps: seq<Step>): Option<State>
    decreases |steps|
  {
    if steps == [] then Some(s)
    else
      var s' :- Apply(s, steps[0]);
      Run(s', steps[1..])
  }

  /** Whether a transaction is open after the trace; None where brackets nest or do not match. */
  function Open(trace: seq<Sql>): Option<bool> {
    if trace == [] then Some(false)
    else
      var open :- Open(trace[..|trace| - 1]);
      var last := trace[|trace| - 1];
      if last == Begin then (if open then None else Some(true))
      else if open then Some(false) else None
  }

  predicate HoldsLock(phase: Phase) {
    phase.Granted? || phase.InBody? || phase.Leaving?
  }

  predicate InTransaction(phase: Phase) {
    phase.InBody? || phase.Leaving? || phase.Released?
  }

  /** The current lock is held by exactly one group, the holder. */
  ghost predicate Locked(s: State, holder: Option<Group>) {
    && (forall g: Group {:trigger PhaseOf(s, g)} :: HoldsLock(PhaseOf(s, g)) <==> holder == Some(g))
    && s.mutex.currentLock == (if holder.Some? then Some(PhaseOf(s, holder.value).lock) else None)
  }

  /** Waiting groups are queued once each, only while the lock is held, and first come is first
      served. */
  ghost predicate Queued(s: State) {
    && (forall g: Group {:trigger PhaseOf(s, g)} :: PhaseOf(s, g).Waiting? <==> g in s.mutex.queue)
    && (forall i, j :: 0 <= i < j < |s.mutex.queue| ==> s.mutex.queue[i] != s.mutex.queue[j])
    && (s.mutex.queue != [] ==> s.mutex.currentLock.Some?)
    && s.asked == s.served + s.mutex.queue
  }

  /** A transaction is open exactly while some group, the owner, is between BEGIN and its end. If
      the lock has passed on, the owner is on the stack and the new holder has not begun. */
  ghost predicate Bracketed(s: State, holder: Option<Group>, owner: Option<Group>) {
    && (forall g: Group {:trigger PhaseOf(s, g)} :: InTransaction(PhaseOf(s, g)) <==> owner == Some(g))
    && (forall g: Group {:trigger PhaseOf(s, g)} ::
          s.running == Some(g) <==> PhaseOf(s, g).Leaving? || PhaseOf(s, g).Released?)
    && (owner.Some? && holder.Some? && owner != holder ==> PhaseOf(s, holder.value).Granted?)
    && Open(s.trace) == Some(owner.Some?)
  }

  ghost predicate Invariant(s: State) {
    Queued(s) && exists holder, owner :: Locked(s, holder) && Bracketed(s, holder, owner)
  }

  lemma OpenSnoc(trace: seq<Sql>, sql: Sql)
    requires Open(trace).Some?
    ensures Open(trace + [sql]) == if sql == Begin then (if Open(trace).value then None else Some(true))
                                   else if Open(trace).value then Some(false) else None
  {
    assert (trace + [sql])[..|trace|] == trace;
  }

  lemma AskKeeps(s: State, g: Group, holder: Option<Group>, owner: Option<Group>)
    requires Queued(s) && Locked(s, holder) && Bracketed(s, holder, owner)
    requires Apply(s, Ask(g)).Some?
    ensures Invariant(Apply(s, Ask(g)).value)
  {
    var s' := Apply(s, Ask(g)).value;
    assert forall h :: h != g ==> PhaseOf(s', h) == PhaseOf(s, h);
    assert PhaseOf(s, g) == Done;
    assert s.asked + [g] == s'.served + s'.mutex.queue;
    var holder' := if holder.None? then Some(g) else holder;
    assert Locked(s', holder') && Bracketed(s', holder', owner);
  }

  /** With nobody on the stack, an open transaction belongs to the lock's holder. */
  lemma IdleOwnerHolds(s: State, holder: Option<Group>, owner: Option<Group>)
    requires Locked(s, holder) && Bracketed(s, holder, owner) && s.running.None?
    ensures owner.Some? ==> owner == holder && PhaseOf(s, owner.value).InBody?
  {
    if owner.Some? {
      assert InTransaction(PhaseOf(s, owner.value));
    }
  }

  lemma ResumeKeeps(s: State, g: Group, holder: Option<Group>, owner: Option<Group>)
    requires Queued(s) && Locked(s, holder) && Bracketed(s, holder, owner)
    requires Apply(s, Resume(g)).Some?
    ensures Invariant(Apply(s, Resume(g)).value)
  {
    var s' := Apply(s, Resume(g)).value;
    assert forall h :: h != g ==> PhaseOf(s', h) == PhaseOf(s, h);
    IdleOwnerHolds(s, holder, owner);
    assert holder == Some(g) && owner.None?;
    OpenSnoc(s.trace, Begin);
    assert Locked(s', holder) && Bracketed(s', holder, Some(g));
  }

  lemma BodyEndsKeeps(s: State, g: Group, completed: bool, holder: Option<Group>, owner: Option<Group>)
    requires Queued(s) && Locked(s, holder) && Bracketed(s, holder, owner)
    requires Apply(s, BodyEnds(g, completed)).Some?
    ensures Invariant(Apply(s, BodyEnds(g, completed)).value)
  {
    var s' := Apply(s, BodyEnds(g, completed)).value;
    assert forall h :: h != g ==> PhaseOf(s', h) == PhaseOf(s, h);
    assert holder == Some(g) && owner == Some(g);
    assert Locked(s', holder) && Bracketed(s', holder, owner);
  }

  lemma ReleaseKeeps(s: State, g: Group, holder: Option<Group>, owner: Option<Group>)
    requires Queued(s) && Locked(s, holder) && Bracketed(s, holder, owner)
    requires Apply(s, Release(g)).Some?
    ensures Invariant(Apply(s, Release(g)).value)
  {
    var s' := Apply(s, Release(g)).value;
    assert holder == Some(g) && owner == Some(g);
    if s.mutex.queue == [] {
      assert forall h :: h != g ==> PhaseOf(s', h) == PhaseOf(s, h);
      assert Locked(s', None) && Bracketed(s', None, owner);
    } else {
      var next := s.mutex.queue[0];
      assert PhaseOf(s, next).Waiting?;
      assert forall h :: h != g && h != next ==> PhaseOf(s', h) == PhaseOf(s, h);
      NextLeavesQueue(s.mutex.queue);
      assert s.asked == s'.served + s'.mutex.queue;
      assert Locked(s', Some(next)) && Bracketed(s', Some(next), owner);
    }
  }

  lemma NextLeavesQueue(queue: seq<Group>)
    requires queue != []
    requires forall i, j :: 0 <= i < j < |queue| ==> queue[i] != queue[j]
    ensures queue == [queue[0]] + queue[1..]
    ensures forall g :: g in queue[1..] <==> g in queue && g != queue[0]
  {
  }

  lemma FinishKeeps(s: State, g: Group, holder: Option<Group>, owner: Option<Group>)
    requires Queued(s) && Locked(s, holder) && Bracketed(s, holder, owner)
    requires Apply(s, Finish(g)).Some?
    ensures Invariant(Apply(s, Finish(g)).value)
  {
    var s' := Apply(s, Finish(g)).value;
    assert forall h :: h != g ==> PhaseOf(s', h) == PhaseOf(s, h);
    assert owner == Some(g);
    OpenSnoc(s.trace, if s.phases[g].completed then Commit else Rollback);
    assert Locked(s', holder) && Bracketed(s', holder, None);
  }

  lemma StepKeeps(s: State, step: Step)
    requires Invariant(s) && Apply(s, step).Some?
    ensures Invariant(Apply(s, step).value)
  {
    var holder, owner :| Locked(s, holder) && Bracketed(s, holder, owner);
    match step
    case Ask(g) => AskKeeps(s, g, holder, owner);
    case Resume(g) => ResumeKeeps(s, g, holder, owner);
    case BodyEnds(g, completed) => BodyEndsKeeps(s, g, completed, holder, owner);
    case Release(g) => ReleaseKeeps(s, g, holder, owner);
    case Finish(g) => FinishKeeps(s, g, holder, owner);
  }

  lemma {:induction false} RunKeeps(s: State, steps: seq<Step>)
    requires Invariant(s) && Run(s, steps).Some?
    ensures Invariant(Run(s, steps).value)
    decreases |steps|
  {
    if steps == [] {
    } else {
      StepKeeps(s, steps[0]);
      RunKeeps(Apply(s, steps[0]).value, steps[1..]);
    }
  }

  lemma StartHolds()
    ensures Invariant(START)
  {
    assert Locked(START, None) && Bracketed(START, None, None);
  }

  /** Over every interleaving: transactions never nest or dangle, at most one group holds the lock and
      at most one is in a transaction, waiters exist only while the lock is held, and grants follow
      the order of the requests. */
  lemma EveryRunIsBracketed(steps: seq<Step>)
    requires Run(START, steps).Some?
    ensures var s := Run(START, steps).value;
            && Open(s.trace).Some?
            && (forall g: Group, h: Group :: HoldsLock(PhaseOf(s, g)) && HoldsLock(PhaseOf(s, h)) ==> g == h)
            && (forall g: Group, h: Group :: InTransaction(PhaseOf(s, g)) && InTransaction(PhaseOf(s, h)) ==> g == h)
            && (s.mutex.currentLock.Some? <==> exists g: Group :: HoldsLock(PhaseOf(s, g)))
            && (s.mutex.queue != [] ==> s.mutex.currentLock.Some?)
            && s.served <= s.asked
  {
    StartHolds();
    RunKeeps(START, steps);
  }

  /** `release` never throws: the group leaving holds the current lock. */
  lemma NoInvalidRelease(steps: seq<Step>, g: Group)
    requires Run(START, steps).Some?
    requires var s := Run(START, steps).value; PhaseOf(s, g).Leaving?
    ensures Apply(Run(START, steps).value, Release(g)).Some?
  {
    StartHolds();
    RunKeeps(START, steps);
  }

  // ---- What the schedule says about the trace ----

  function OutcomeOf(step: Step): seq<bool> {
    if step.BodyEnds? then [step.completed] else []
  }

  /** How the bodies ended, in order. */
  function Outcomes(steps: seq<Step>): seq<bool> {
    if steps == [] then [] else OutcomeOf(steps[0]) + Outcomes(steps[1..])
  }

  lemma Regroup<T>(a: seq<T>, b: seq<T>, c: seq<T>)
    ensures (a + b) + c == a + (b + c)
  {
  }

  lemma NothingMore<T>(a: seq<T>)
    ensures a + [] == a && [] + a == a
  {
  }

  lemma EndingsForSnoc(outcomes: seq<bool>, completed: bool)
    ensures EndingsFor(outcomes + [completed]) == EndingsFor(outcomes) + EndingsFor([completed])
    ensures EndingsFor([]) == [] && EndingsFor([completed]) == [if completed then Commit else Rollback]
  {
  }

  function EndingsFor(outcomes: seq<bool>): (r: seq<Sql>)
    ensures |r| == |outcomes|
    ensures forall i :: 0 <= i < |outcomes| ==> r[i] == if outcomes[i] then Commit else Rollback
  {
    seq(|outcomes|, i requires 0 <= i < |outcomes| => if outcomes[i] then Commit else Rollback)
  }

  /** The COMMITs and ROLLBACKs of a trace, in order. */
  function Endings(trace: seq<Sql>): seq<Sql> {
    if trace == [] then []
    else Endings(trace[..|trace| - 1]) + if trace[|trace| - 1] == Begin then [] else [trace[|trace| - 1]]
  }

  lemma EndingsSnoc(trace: seq<Sql>, sql: Sql)
    ensures Endings(trace + [sql]) == Endings(trace) + if sql == Begin then [] else [sql]
  {
    assert (trace + [sql])[..|trace|] == trace;
  }

  /** The outcome of the group that has ended its body and not yet its transaction. */
  function Outstanding(s: State): seq<bool> {
    match s.running
    case None => []
    case Some(g) =>
      match PhaseOf(s, g)
      case Leaving(_, completed) => [completed]
      case Released(completed) => [completed]
      case _ => []
  }

  ghost predicate Ended(s: State, outcomes: seq<bool>) {
    EndingsFor(outcomes) == Endings(s.trace) + EndingsFor(Outstanding(s))
  }

  lemma ResumeEnds(s: State, g: Group, outcomes: seq<bool>)
    requires Ended(s, outcomes) && Apply(s, Resume(g)).Some?
    ensures Ended(Apply(s, Resume(g)).value, outcomes)
  {
    EndingsSnoc(s.trace, Begin);
    NothingMore(Endings(s.trace));
  }

  lemma BodyEndsEnds(s: State, g: Group, completed: bool, outcomes: seq<bool>)
    requires Ended(s, outcomes) && Apply(s, BodyEnds(g, completed)).Some?
    ensures Ended(Apply(s, BodyEnds(g, completed)).value, outcomes + [completed])
  {
    EndingsForSnoc(outcomes, completed);
    EndingsForSnoc([], completed);
    NothingMore(Endings(s.trace));
    NothingMore([completed]);
    assert Outstanding(Apply(s, BodyEnds(g, completed)).value) == [completed];
  }

  lemma FinishEnds(s: State, g: Group, outcomes: seq<bool>)
    requires Ended(s, outcomes) && Apply(s, Finish(g)).Some?
    ensures Ended(Apply(s, Finish(g)).value, outcomes)
  {
    var s', completed := Apply(s, Finish(g)).value, s.phases[g].completed;
    assert Outstanding(s) == [completed];
    EndingsForSnoc([], completed);
    NothingMore([completed]);
    EndingsSnoc(s.trace, if completed then Commit else Rollback);
    NothingMore(Endings(s'.trace));
  }

  lemma StepEnds(s: State, step: Step, outcomes: seq<bool>)
    requires Invariant(s) && Ended(s, outcomes) && Apply(s, step).Some?
    ensures Ended(Apply(s, step).value, outcomes + OutcomeOf(step))
  {
    NothingMore(outcomes);
    match step
    case Ask(g) =>
    case Resume(g) => ResumeEnds(s, g, outcomes);
    case BodyEnds(g, completed) => BodyEndsEnds(s, g, completed, outcomes);
    case Release(g) => ReleaseIsQuiet(s, g);
    case Finish(g) => FinishEnds(s, g, outcomes);
  }

  lemma ReleaseIsQuiet(s: State, g: Group)
    requires Invariant(s) && Apply(s, Release(g)).Some?
    ensures var s' := Apply(s, Release(g)).value;
            s'.running == Some(g) && PhaseOf(s', g) == Released(s.phases[g].completed)
  {
    if s.mutex.queue != [] {
      assert PhaseOf(s, s.mutex.queue[0]).Waiting?;
    }
  }

  lemma {:induction false} RunEnds(s: State, steps: seq<Step>, outcomes: seq<bool>)
    requires Invariant(s) && Ended(s, outcomes) && Run(s, steps).Some?
    ensures Ended(Run(s, steps).value, outcomes + Outcomes(steps))
    decreases |steps|
  {
    if steps == [] {
      NothingMore(outcomes);
    } else {
      StepKeeps(s, steps[0]);
      StepEnds(s, steps[0], outcomes);
      RunEnds(Apply(s, steps[0]).value, steps[1..], outcomes + OutcomeOf(steps[0]));
      Regroup(outcomes, OutcomeOf(steps[0]), Outcomes(steps[1..]));
    }
  }

  /** Transactions end in the order of their bodies, COMMIT after one that completed and ROLLBACK
      after one that threw; at most the last body's ending is still to come, and then it is that of
      the group on the stack. */
  lemma EndingsFollowOutcomes(steps: seq<Step>)
    requires Run(START, steps).Some?
    ensures var s := Run(START, steps).value;
            && EndingsFor(Outcomes(steps)) == Endings(s.trace) + EndingsFor(Outstanding(s))
            && |Outstanding(s)| == if s.running.Some? then 1 else 0
  {
    StartHolds();
    EndingsForSnoc([], true);
    RunEnds(START, steps, []);
    NothingMore(Outcomes(steps));
    RunKeeps(START, steps);
    var s := Run(START, steps).value;
    if s.running.Some? {
      assert PhaseOf(s, s.running.value).Leaving? || PhaseOf(s, s.running.value).Released?;
    }
  }

  function AskOf(step: Step): seq<Group> {
    if step.Ask? then [step.g] else []
  }

  /** Who asked for the lock, in order. */
  function Asked(steps: seq<Step>): seq<Group> {
    if steps == [] then [] else AskOf(steps[0]) + Asked(steps[1..])
  }

  function BeginOf(step: Step): seq<Group> {
    if step.Resume? then [step.g] else []
  }

  /** Who began, in order. */
  function Began(steps: seq<Step>): seq<Group> {
    if steps == [] then [] else BeginOf(steps[0]) + Began(steps[1..])
  }

  ghost predicate NoneGranted(s: State, began: seq<Group>) {
    s.served == began && forall g: Group {:trigger PhaseOf(s, g)} :: !PhaseOf(s, g).Granted?
  }

  ghost predicate OneGranted(s: State, began: seq<Group>, next: Group) {
    && s.served == began + [next]
    && forall g: Group {:trigger PhaseOf(s, g)} :: PhaseOf(s, g).Granted? <==> g == next
  }

  /** At most one group is granted the lock and has not begun. */
  ghost predicate Served(s: State, began: seq<Group>) {
    NoneGranted(s, began) || exists next: Group :: OneGranted(s, began, next)
  }

  lemma StepAsks(s: State, step: Step)
    requires Apply(s, step).Some?
    ensures Apply(s, step).value.asked == s.asked + AskOf(step)
  {
    NothingMore(s.asked);
  }

  lemma StepServes(s: State, step: Step, began: seq<Group>)
    requires Invariant(s) && Served(s, began) && Apply(s, step).Some?
    ensures Served(Apply(s, step).value, began + BeginOf(step))
  {
    var s' := Apply(s, step).value;
    NothingMore(began);
    match step
    case Ask(g) => AskServes(s, g, began);
    case Resume(g) => ResumeServes(s, g, began);
    case BodyEnds(g, _) =>
      assert forall h: Group :: h != g ==> PhaseOf(s', h) == PhaseOf(s, h);
      SameServed(s, s', began);
    case Release(g) => ReleaseServes(s, g, began);
    case Finish(g) =>
      assert forall h: Group :: h != g ==> PhaseOf(s', h) == PhaseOf(s, h);
      SameServed(s, s', began);
  }

  lemma SameServed(s: State, s': State, began: seq<Group>)
    requires Served(s, began) && s'.served == s.served
    requires forall g: Group {:trigger PhaseOf(s', g)} :: PhaseOf(s', g).Granted? <==> PhaseOf(s, g).Granted?
    ensures Served(s', began)
  {
    if NoneGranted(s, began) {
      assert NoneGranted(s', began);
    } else {
      var next: Group :| OneGranted(s, began, next);
      assert OneGranted(s', began, next);
    }
  }

  lemma NobodyGranted(s: State, began: seq<Group>)
    requires Served(s, began) && forall g: Group {:trigger PhaseOf(s, g)} :: !PhaseOf(s, g).Granted?
    ensures s.served == began
  {
    forall next: Group
      ensures !OneGranted(s, began, next)
    {
      assert !PhaseOf(s, next).Granted?;
    }
  }

  lemma AskServes(s: State, g: Group, began: seq<Group>)
    requires Invariant(s) && Served(s, began) && Apply(s, Ask(g)).Some?
    ensures Served(Apply(s, Ask(g)).value, began)
  {
    var s' := Apply(s, Ask(g)).value;
    var holder, owner :| Locked(s, holder) && Bracketed(s, holder, owner);
    assert PhaseOf(s, g) == Done;
    assert forall h: Group :: h != g ==> PhaseOf(s', h) == PhaseOf(s, h);
    if s.mutex.currentLock.None? {
      NobodyGranted(s, began);
      assert OneGranted(s', began, g);
    } else {
      SameServed(s, s', began);
    }
  }

  lemma ResumeServes(s: State, g: Group, began: seq<Group>)
    requires Served(s, began) && Apply(s, Resume(g)).Some?
    ensures Served(Apply(s, Resume(g)).value, began + [g])
  {
    var s' := Apply(s, Resume(g)).value;
    assert PhaseOf(s, g).Granted?;
    var next: Group :| OneGranted(s, began, next);
    assert forall h: Group :: h != g ==> PhaseOf(s', h) == PhaseOf(s, h);
    assert NoneGranted(s', began + [g]);
  }

  lemma ReleaseServes(s: State, g: Group, began: seq<Group>)
    requires Invariant(s) && Served(s, began) && Apply(s, Release(g)).Some?
    ensures Served(Apply(s, Release(g)).value, began)
  {
    var s' := Apply(s, Release(g)).value;
    var holder, owner :| Locked(s, holder) && Bracketed(s, holder, owner);
    assert PhaseOf(s, g).Leaving?;
    NobodyGranted(s, began);
    if s.mutex.queue == [] {
      assert forall h: Group :: h != g ==> PhaseOf(s', h) == PhaseOf(s, h);
      assert NoneGranted(s', began);
    } else {
      var next := s.mutex.queue[0];
      assert PhaseOf(s, next).Waiting?;
      assert forall h: Group :: h != g && h != next ==> PhaseOf(s', h) == PhaseOf(s, h);
      assert OneGranted(s', began, next);
    }
  }

  lemma {:induction false} RunServes(s: State, steps: seq<Step>, began: seq<Group>)
    requires Invariant(s) && Served(s, began) && Run(s, steps).Some?
    ensures Served(Run(s, steps).value, began + Began(steps))
    decreases |steps|
  {
    if steps == [] {
      NothingMore(began);
    } else {
      StepKeeps(s, steps[0]);
      StepServes(s, steps[0], began);
      RunServes(Apply(s, steps[0]).value, steps[1..], began + BeginOf(steps[0]));
      Regroup(began, BeginOf(steps[0]), Began(steps[1..]));
    }
  }

  lemma {:induction false} RunAsks(s: State, steps: seq<Step>)
    requires Run(s, steps).Some?
    ensures Run(s, steps).value.asked == s.asked + Asked(steps)
    decreases |steps|
  {
    if steps == [] {
      NothingMore(s.asked);
    } else {
      StepAsks(s, steps[0]);
      RunAsks(Apply(s, steps[0]).value, steps[1..]);
      Regroup(s.asked, AskOf(steps[0]), Asked(steps[1..]));
    }
  }

  /** Groups begin in the order in which they asked for the lock. */
  lemma BeginsInOrder(steps: seq<Step>)
    requires Run(START, steps).Some?
    ensures Began(steps) <= Asked(steps)
  {
    StartHolds();
    assert NoneGranted(START, []);
    RunServes(START, steps, []);
    RunAsks(START, steps);
    RunKeeps(START, steps);
    NothingMore(Asked(steps));
    NothingMore(Began(steps));
    ServedFirst(Run(START, steps).value, Began(steps));
  }

  lemma ServedFirst(s: State, began: seq<Group>)
    requires Queued(s) && Served(s, began)
    ensures began <= s.asked
  {
    if s.served != began {
      var next: Group :| OneGranted(s, began, next);
      Regroup(began, [next], s.mutex.queue);
    }
  }

  /** A group that begins finds no transaction open, so one body at a time is a faithful view. */
  lemma BeginsAlone(steps: seq<Step>, g: Group)
    requires Run(START, steps).Some? && Apply(Run(START, steps).value, Resume(g)).Some?
    ensures forall h: Group :: !InTransaction(PhaseOf(Run(START, steps).value, h))
    ensures Open(Run(START, steps).value.trace) == Some(false)
  {
    StartHolds();
    RunKeeps(START, steps);
    var s := Run(START, steps).value;
    var holder, owner :| Locked(s, holder) && Bracketed(s, holder, owner);
    IdleOwnerHolds(s, holder, owner);
    assert HoldsLock(PhaseOf(s, g));
  }

  /** Why running to completion matters: between the release and the COMMIT the next group already
      has its lock, and a BEGIN issued there would nest. */
  lemma HandoffBeforeCommitWouldNest(steps: seq<Step>, g: Group, next: Group)
    requires Run(START, steps).Some?
    requires var s := Run(START, steps).value; PhaseOf(s, g).Released? && PhaseOf(s, next).Granted?
    ensures var s := Run(START, steps).value;
            Open(s.trace + [Begin]).None? && Apply(s, Resume(next)).None?
  {
    StartHolds();
    RunKeeps(START, steps);
    var s := Run(START, steps).value;
    assert InTransaction(s.phases[g]);
    OpenSnoc(s.trace, Begin);
  }

  /** Such a moment is reached by two groups in five steps. */
  lemma HandoffHappens()
    ensures var steps := [Ask(0), Ask(1), Resume(0), BodyEnds(0, true), Release(0)];
            && Run(START, steps).Some?
            && PhaseOf(Run(START, steps).value, 0).Released?
            && PhaseOf(Run(START, steps).value, 1).Granted?
  {
    var steps := [Ask(0), Ask(1), Resume(0), BodyEnds(0, true), Release(0)];
    var s1 := Apply(START, Ask(0)).value;
    var s2 := Apply(s1, Ask(1)).value;
    var s3 := Apply(s2, Resume(0)).value;
    var s4 := Apply(s3, BodyEnds(0, true)).value;
    var s5 := Apply(s4, Release(0)).value;
    assert Run(s5, steps[5..]) == Some(s5);
    assert Run(s4, steps[4..]) == Some(s5) by { assert steps[4..][1..] == steps[5..]; }
    assert Run(s3, steps[3..]) == Some(s5) by { assert steps[3..][1..] == steps[4..]; }
    assert Run(s2, steps[2..]) == Some(s5) by { assert steps[2..][1..] == steps[3..]; }
    assert Run(s1, steps[1..]) == Some(s5) by { assert steps[1..][1..] == steps[2..]; }
  }
}
