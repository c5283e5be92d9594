/** The aggregator's mutex (Mutex.ts): one current lock, and a queue of waiters that `release`
    serves first come, first served. */
module Mutex {
  import opened Wrappers

  /** Each grant makes a new lock object. */
  type Lock = nat

  /** Whoever waits for a promised lock. */
  type Waiter = nat

  datatype State = State(currentLock: Option<Lock>, queue: seq<Waiter>, nextLock: Lock)

  const UNLOCKED := State(None, [], 0)

  function TakeIfFree(s: State): (State, Option<Lock>) {
    if s.currentLock.None? then (s.(currentLock := Some(s.nextLock), nextLock := s.nextLock + 1), Some(s.nextLock))
    else (s, None)
  }

  /** Some lock: the promise is resolved at once; None: the waiter joined the queue. */
  function Request(s: State, waiter: Waiter): (State, Option<Lock>) {
    var (s', lock) := TakeIfFree(s);
    if lock.Some? then (s', lock) else (s.(queue := s.queue + [waiter]), None)
  }

  /** None: the lock is not the current one and `release` throws. Otherwise the new state and the
      waiter whose promise is resolved with a new lock, if any was queued. */
  function HandOver(s: State, lock: Lock): Option<(State, Option<(Waiter, Lock)>)> {
    if s.currentLock != Some(lock) then None
    else if s.queue == [] then Some((s.(currentLock := None), None))
    else
      var (s', next) := TakeIfFree(s.(currentLock := None, queue := s.queue[1..]));
      Some((s', Some((s.queue[0], next.value))))
  }

  class MutexObject {
    var currentLock: Option<Lock>
    var queue: seq<Waiter>
    var nextLock: Lock

    function Value(): State
      reads this
    {
      State(currentLock, queue, nextLock)
    }

    constructor ()
      ensures Value() == UNLOCKED
    {
      currentLock, queue, nextLock := None, [], 0;
    }

    method TryLock() returns (lock: Option<Lock>)
      modifies this
      ensures (Value(), lock) == TakeIfFree(old(Value()))
      ensures lock.Some? <==> old(currentLock).None?
      ensures lock.Some? ==> currentLock == lock && lock.value == old(nextLock) < nextLock
      ensures lock.None? ==> Value() == old(Value())
      ensures queue == old(queue)
    {
      if currentLock.None? {
        currentLock, nextLock := Some(nextLock), nextLock + 1;
        return currentLock;
      }
      return None;
    }

    method Lock(waiter: Waiter) returns (lock: Option<Lock>)
      modifies this
      ensures (Value(), lock) == Request(old(Value()), waiter)
      ensures lock.Some? <==> old(currentLock).None?
      ensures lock.Some? ==> currentLock == lock && queue == old(queue)
      ensures lock.None? ==> currentLock == old(currentLock) && queue == old(queue) + [waiter]
    {
      lock := TryLock();
      if lock.None? {
        queue := queue + [waiter];
      }
    }

    method Release(lock: Lock) returns (ok: bool, resolved: Option<(Waiter, Lock)>)
      modifies this
      ensures ok <==> HandOver(old(Value()), lock).Some?
      ensures ok ==> HandOver(old(Value()), lock) == Some((Value(), resolved))
      ensures !ok ==> Value() == old(Value()) && resolved == None
      ensures ok <==> old(currentLock) == Some(lock)
      ensures ok && old(queue) == [] ==> currentLock.None? && queue == [] && resolved.None?
      ensures ok && old(queue) != [] ==>
                && resolved.Some? && resolved.value.0 == old(queue)[0] && resolved.value.1 == old(nextLock)
                && currentLock == Some(resolved.value.1) && queue == old(queue)[1..]
    {
      if currentLock != Some(lock) {
        return false, None;
      }
      currentLock := None;
      ok, resolved := true, None;
      if queue != [] {
        var resolveNext := queue[0];
        queue := queue[1..];
        var next := TryLock();
        resolved := Some((resolveNext, next.value));
      }
    }
  }
}
