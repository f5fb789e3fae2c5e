// The concurrency limiter guarding calls to the external rewrite service:
// a counter of slots in use and a FIFO queue of waiting callers. Waiting
// callers are identified by a number; resuming a waiter (the JavaScript
// promise resolution) is modelled by reporting which waiter was handed the slot.
module Limiter {
  import opened Wrappers

  datatype LimiterState = LimiterState(maxConcurrent: nat, running: nat, queue: seq<nat>)

  /** The limiter's invariant: never more holders than slots, and callers wait only when all slots are taken. */
  ghost predicate Inv(ls: LimiterState)
  {
    ls.running <= ls.maxConcurrent && (|ls.queue| > 0 ==> ls.running == ls.maxConcurrent)
  }

  /** `acquire`: take a free slot, or join the end of the queue. Returns the new state and whether a slot was granted. */
  function AcquireStep(ls: LimiterState, waiter: nat): (LimiterState, bool)
  {
    if ls.running < ls.maxConcurrent then (ls.(running := ls.running + 1), true)
    else (ls.(queue := ls.queue + [waiter]), false)
  }

  /** `release`: give the slot up; if someone waits, the oldest waiter takes it over. */
  function ReleaseStep(ls: LimiterState): (LimiterState, Option<nat>)
    requires ls.running >= 1
  {
    var running := ls.running - 1;
    if |ls.queue| > 0 then (ls.(running := running + 1, queue := ls.queue[1..]), Some(ls.queue[0]))
    else (ls.(running := running), None)
  }

  /** Acquire keeps the invariant; it grants exactly when a slot is free, and otherwise queues the caller last. */
  lemma AcquireSpec(ls: LimiterState, waiter: nat)
    requires Inv(ls)
    ensures var (ls', granted) := AcquireStep(ls, waiter);
      && Inv(ls')
      && ls'.maxConcurrent == ls.maxConcurrent
      && (granted <==> ls.running < ls.maxConcurrent)
      && (granted ==> ls'.running == ls.running + 1 && ls'.queue == ls.queue)
      && (!granted ==> ls'.running == ls.running && ls'.queue == ls.queue + [waiter])
  {
  }

  /** Release keeps the invariant; with waiters the oldest one takes the slot and the count
      is unchanged, without waiters the count drops by one. */
  lemma ReleaseSpec(ls: LimiterState)
    requires Inv(ls) && ls.running >= 1
    ensures var (ls', woken) := ReleaseStep(ls);
      && Inv(ls')
      && ls'.maxConcurrent == ls.maxConcurrent
      && (|ls.queue| > 0 ==> woken == Some(ls.queue[0]) && ls'.queue == ls.queue[1..] && ls'.running == ls.running)
      && (|ls.queue| == 0 ==> woken == None && ls'.queue == [] && ls'.running == ls.running - 1)
  {
  }

  /** A granted acquire followed by a release gives back the state it started from. */
  lemma AcquireReleaseRoundTrip(ls: LimiterState, waiter: nat)
    requires Inv(ls) && ls.running < ls.maxConcurrent
    ensures AcquireStep(ls, waiter).1
    ensures ReleaseStep(AcquireStep(ls, waiter).0) == (ls, None)
  {
  }

  /** The limiter object of the evolver. */
  class ConcurrencyLimiter {
    const maxConcurrent: nat
    var running: nat
    var queue: seq<nat>

    function State(): LimiterState
      reads this
    {
      LimiterState(maxConcurrent, running, queue)
    }

    ghost predicate Valid()
      reads this
    {
      Inv(State())
    }

    constructor (maxConcurrent: nat)
      ensures Valid()
      ensures State() == LimiterState(maxConcurrent, 0, [])
    {
      this.maxConcurrent := maxConcurrent;
      running := 0;
      queue := [];
    }

    method Acquire(waiter: nat) returns (granted: bool)
      requires Valid()
      modifies this
      ensures Valid()
      ensures (State(), granted) == AcquireStep(old(State()), waiter)
    {
      AcquireSpec(State(), waiter);
      if running < maxConcurrent {
        running := running + 1;
        return true;
      }
      queue := queue + [waiter];
      return false;
    }

    method Release() returns (woken: Option<nat>)
      requires Valid() && running >= 1
      modifies this
      ensures Valid()
      ensures (State(), woken) == ReleaseStep(old(State()))
    {
      ReleaseSpec(State());
      running := running - 1;
      woken := None;
      if |queue| > 0 {
        running := running + 1;
        woken := Some(queue[0]);
        queue := queue[1..];
      }
    }
  }
}
