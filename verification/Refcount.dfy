/** The two reference counts: the one under a lock, and the one with compare-and-swap. */
module Refcount {
  import opened Basics

  /** `CRYPTO_REFCOUNT_MAX`. */
  const MAX: nat := 0xffff_ffff

  datatype Op = Inc | Dec

  /** What a call gives: nothing, whether the count is now zero, or an abort of the process. */
  datatype Result = Void | IsZero(flag: bool) | Abort

  /** The atomic specification: what one call does to a count. */
  function Atomic(op: Op, count: nat): (r: (nat, Result)) {
    match op
    case Inc => (if count < MAX then count + 1 else count, Void)
    case Dec =>
      if count == 0 then (0, Abort)
      else
        var after := if count < MAX then count - 1 else count;
        (after, IsZero(after == 0))
  }

  /** The locked version, section by section as it runs under the lock. */
  class LockedCount {
    var count: nat

    constructor (count: nat)
      ensures this.count == count
    {
      this.count := count;
    }

    method Increment()
      modifies this
      ensures count == Atomic(Inc, old(count)).0
    {
      if count < MAX {
        count := count + 1;
      }
    }

    /** The flag is meaningless if the process aborts. */
    method DecrementAndTestZero() returns (aborted: bool, zero: bool)
      modifies this
      ensures count == Atomic(Dec, old(count)).0
      ensures Atomic(Dec, old(count)).1 == if aborted then Abort else IsZero(zero)
    {
      if count == 0 {
        return true, false;
      }
      if count < MAX {
        count := count - 1;
      }
      return false, count == 0;
    }
  }

  /** A thread outside the functions, in the retry loop with the value it last saw, or about to return. */
  datatype Thread = Idle | Trying(op: Op, expected: nat) | Finished(op: Op, result: Result)

  /** One call with its result. */
  datatype Call = Call(thread: nat, op: Op, result: Result)

  /** The shared count and the threads. `log` lists the calls in the order in which they took effect,
      `returned` those that have returned. */
  datatype State = State(count: nat, threads: seq<Thread>, log: seq<Call>, returned: seq<Call>, aborted: bool)

  /** One scheduling decision. A compare-and-swap may fail spuriously. */
  datatype Step = Start(thread: nat, op: Op) | CompareAndSwap(thread: nat, spurious: bool) | Return(thread: nat)

  function TakeEffect(s: State, t: nat, op: Op, result: Result): State
    requires t < |s.threads|
  {
    s.(threads := s.threads[t := Finished(op, result)], log := s.log + [Call(t, op, result)], aborted := result == Abort)
  }

  /** A thread has just read the count, by the first load or by a compare-and-swap that failed: the tests
      at the head of the two loops. */
  function Observe(s: State, t: nat, op: Op): State
    requires t < |s.threads|
  {
    if op == Inc && s.count == MAX then TakeEffect(s, t, op, Void)
    else if op == Dec && s.count == 0 then TakeEffect(s, t, op, Abort)
    else if op == Dec && s.count == MAX then TakeEffect(s, t, op, IsZero(false))
    else s.(threads := s.threads[t := Trying(op, s.count)])
  }

  /** The value that a thread tries to put in: 32-bit arithmetic. */
  function Swapped(op: Op, expected: nat): nat {
    if op == Inc then (expected + 1) % (MAX + 1) else (expected + MAX) % (MAX + 1)
  }

  /** The effect of a step, which does nothing if it is not possible. */
  function Next(s: State, step: Step): State {
    if s.aborted || step.thread >= |s.threads| then s
    else
      var t := step.thread;
      match (step, s.threads[t])
      case (Start(_, op), Idle) => Observe(s, t, op)
      case (CompareAndSwap(_, spurious), Trying(op, expected)) =>
        if s.count == expected && !spurious then
          var newValue := Swapped(op, expected);
          TakeEffect(s, t, op, if op == Inc then Void else IsZero(newValue == 0)).(count := newValue)
        else
          Observe(s, t, op)
      case (Return(_), Finished(op, result)) =>
        s.(threads := s.threads[t := Idle], returned := s.returned + [Call(t, op, result)])
      case _ => s
  }

  function Run(s: State, steps: seq<Step>): State {
    if steps == [] then s else Next(Run(s, steps[..|steps| - 1]), steps[|steps| - 1])
  }

  function Start0(count: nat, n: nat): State {
    State(count, seq(n, _ => Idle), [], [], false)
  }

  /** The calls of a log, one after another on the locked version: the count they leave, provided that
      each gives the result it gave in the log. */
  function Replay(initial: nat, log: seq<Call>): (count: Option<nat>) {
    if log == [] then Some(initial)
    else
      var c := log[|log| - 1];
      match Replay(initial, log[..|log| - 1])
      case None => None
      case Some(before) =>
        var (after, result) := Atomic(c.op, before);
        if result == c.result then Some(after) else None
  }

  /** The calls of thread `t`. */
  function Of(t: nat, calls: seq<Call>): seq<Call> {
    if calls == [] then []
    else
      var c := calls[|calls| - 1];
      Of(t, calls[..|calls| - 1]) + if c.thread == t then [c] else []
  }

  function Pending(t: nat, th: Thread): seq<Call> {
    if th.Finished? then [Call(t, th.op, th.result)] else []
  }

  ghost predicate Inv(initial: nat, s: State) {
    && s.count <= MAX
    && Replay(initial, s.log) == Some(s.count)
    && (forall t | 0 <= t < |s.threads| && s.threads[t].Trying? ::
          s.threads[t].expected < MAX && (s.threads[t].op == Dec ==> s.threads[t].expected > 0))
    && (forall t | 0 <= t < |s.threads| :: Of(t, s.log) == Of(t, s.returned) + Pending(t, s.threads[t]))
  }

  lemma {:induction false} OfAppend(t: nat, calls: seq<Call>, c: Call)
    ensures Of(t, calls + [c]) == Of(t, calls) + if c.thread == t then [c] else []
  {
    assert (calls + [c])[..|calls|] == calls;
  }

  lemma {:induction false} ReplayAppend(initial: nat, log: seq<Call>, before: nat, c: Call, after: nat)
    requires Replay(initial, log) == Some(before) && Atomic(c.op, before) == (after, c.result)
    ensures Replay(initial, log + [c]) == Some(after)
  {
    assert (log + [c])[..|log|] == log;
  }

  /** A call that takes effect does so as one call of the locked version would. */
  lemma {:induction false} TakeEffectKeeps(initial: nat, s: State, t: nat, op: Op, result: Result, after: nat)
    requires Inv(initial, s) && t < |s.threads| && !s.threads[t].Finished?
    requires Atomic(op, s.count) == (after, result) && after <= MAX
    ensures Inv(initial, TakeEffect(s, t, op, result).(count := after))
  {
    var c := Call(t, op, result);
    var s' := TakeEffect(s, t, op, result).(count := after);
    assert Replay(initial, s'.log) == Some(after) by {
      ReplayAppend(initial, s.log, s.count, c, after);
    }
    forall u | 0 <= u < |s.threads|
      ensures Of(u, s'.log) == Of(u, s'.returned) + Pending(u, s'.threads[u])
    {
      OfAppend(u, s.log, c);
      assert Of(u, s.log) == Of(u, s.returned) + Pending(u, s.threads[u]);
    }
  }

  lemma {:induction false} SwappedIsAtomic(op: Op, count: nat)
    requires count < MAX && (op == Dec ==> count > 0)
    ensures var after := Swapped(op, count);
      after <= MAX && Atomic(op, count) == (after, if op == Inc then Void else IsZero(after == 0))
  {
  }

  lemma {:induction false} SwapKeeps(initial: nat, s: State, t: nat)
    requires Inv(initial, s) && t < |s.threads| && s.threads[t].Trying? && s.threads[t].expected == s.count
    ensures var op := s.threads[t].op;
      var after := Swapped(op, s.count);
      Inv(initial, TakeEffect(s, t, op, if op == Inc then Void else IsZero(after == 0)).(count := after))
  {
    var op := s.threads[t].op;
    var after := Swapped(op, s.count);
    SwappedIsAtomic(op, s.count);
    TakeEffectKeeps(initial, s, t, op, if op == Inc then Void else IsZero(after == 0), after);
  }

  lemma {:induction false} ReturnKeeps(initial: nat, s: State, t: nat)
    requires Inv(initial, s) && t < |s.threads| && s.threads[t].Finished?
    ensures var c := Call(t, s.threads[t].op, s.threads[t].result);
      Inv(initial, s.(threads := s.threads[t := Idle], returned := s.returned + [c]))
  {
    forall u | 0 <= u < |s.threads| {
      OfAppend(u, s.returned, Call(t, s.threads[t].op, s.threads[t].result));
    }
  }

  lemma {:induction false} NextKeeps(initial: nat, s: State, step: Step)
    requires Inv(initial, s)
    ensures Inv(initial, Next(s, step))
  {
    if !s.aborted && step.thread < |s.threads| {
      var t := step.thread;
      match (step, s.threads[t])
      case (Start(_, op), Idle) =>
        ObserveKeeps(initial, s, t, op);
      case (CompareAndSwap(_, spurious), Trying(op, expected)) =>
        if s.count == expected && !spurious {
          SwapKeeps(initial, s, t);
        } else {
          ObserveKeeps(initial, s, t, op);
        }
      case (Return(_), Finished(op, result)) =>
        ReturnKeeps(initial, s, t);
      case _ =>
    }
  }

  lemma {:induction false} NoChangeKeeps(initial: nat, s: State, t: nat, op: Op, result: Result)
    requires Inv(initial, s) && t < |s.threads| && !s.threads[t].Finished? && Atomic(op, s.count) == (s.count, result)
    ensures Inv(initial, TakeEffect(s, t, op, result))
  {
    TakeEffectKeeps(initial, s, t, op, result, s.count);
    assert TakeEffect(s, t, op, result).(count := s.count) == TakeEffect(s, t, op, result);
  }

  lemma {:induction false} TryKeeps(initial: nat, s: State, t: nat, op: Op)
    requires Inv(initial, s) && t < |s.threads| && !s.threads[t].Finished?
    requires s.count < MAX && (op == Dec ==> s.count > 0)
    ensures Inv(initial, s.(threads := s.threads[t := Trying(op, s.count)]))
  {
  }

  lemma {:induction false} ObserveKeeps(initial: nat, s: State, t: nat, op: Op)
    requires Inv(initial, s) && t < |s.threads| && !s.threads[t].Finished?
    ensures Inv(initial, Observe(s, t, op))
  {
    if op == Inc && s.count == MAX {
      NoChangeKeeps(initial, s, t, op, Void);
    } else if op == Dec && s.count == 0 {
      NoChangeKeeps(initial, s, t, op, Abort);
    } else if op == Dec && s.count == MAX {
      NoChangeKeeps(initial, s, t, op, IsZero(false));
    } else {
      TryKeeps(initial, s, t, op);
    }
  }

  /** Any number of threads, any interleaving, any spurious failures: the count is explained by running
      the logged calls one by one on the locked version, with the same results; and the calls of each
      thread are in the log once each, in order, with the results they returned. */
  lemma {:induction false} RunRefinesLocked(initial: nat, n: nat, steps: seq<Step>)
    requires initial <= MAX
    ensures Inv(initial, Run(Start0(initial, n), steps))
  {
    if steps != [] {
      RunRefinesLocked(initial, n, steps[..|steps| - 1]);
      NextKeeps(initial, Run(Start0(initial, n), steps[..|steps| - 1]), steps[|steps| - 1]);
    }
  }

  lemma {:induction false} NextGrows(s: State, step: Step)
    ensures s.log <= Next(s, step).log && s.returned <= Next(s, step).returned
    ensures |Next(s, step).threads| == |s.threads|
  {
  }

  lemma {:induction false} RunGrows(s: State, steps: seq<Step>, k: nat)
    requires k <= |steps|
    ensures var (a, b) := (Run(s, steps[..k]), Run(s, steps));
      a.log <= b.log && a.returned <= b.returned && |a.threads| == |b.threads| == |s.threads|
  {
    if k == |steps| {
      assert steps[..k] == steps;
      if k > 0 {
        RunGrows(s, steps[..k - 1], k - 1);
        NextGrows(Run(s, steps[..k - 1]), steps[k - 1]);
      }
    } else {
      var m := |steps| - 1;
      assert steps[..m][..k] == steps[..k];
      RunGrows(s, steps[..m], k);
      NextGrows(Run(s, steps[..m]), steps[m]);
    }
  }

  lemma {:induction false} OfJoin(t: nat, calls: seq<Call>, more: seq<Call>)
    ensures Of(t, calls + more) == Of(t, calls) + Of(t, more)
  {
    if more == [] {
      assert calls + more == calls;
    } else {
      var k := |more| - 1;
      assert (calls + more)[..|calls + more| - 1] == calls + more[..k];
      OfJoin(t, calls, more[..k]);
    }
  }

  /** The atomic point of a call lies between its start and its return. Take any moment of a run, after the first `k` steps,
      and cut the log there: the part before the cut has of each thread the calls that have returned, and one more
      only if a thread has yet to return from it; the part after the cut has the calls that were still trying or had
      not started. So a call that returns before another starts comes first. */
  lemma {:induction false} AtomicPointInside(initial: nat, n: nat, steps: seq<Step>, k: nat, t: nat)
    requires initial <= MAX && k <= |steps| && t < n
    ensures
      var (a, b) := (Run(Start0(initial, n), steps[..k]), Run(Start0(initial, n), steps));
      && a.log <= b.log && a.returned <= b.returned && |a.threads| == |b.threads| == n
      && Of(t, a.log) == Of(t, a.returned) + Pending(t, a.threads[t])
      && Of(t, b.returned) + Pending(t, b.threads[t])
         == Of(t, a.returned) + Pending(t, a.threads[t]) + Of(t, b.log[|a.log|..])
  {
    var (a, b) := (Run(Start0(initial, n), steps[..k]), Run(Start0(initial, n), steps));
    RunGrows(Start0(initial, n), steps, k);
    RunRefinesLocked(initial, n, steps[..k]);
    RunRefinesLocked(initial, n, steps);
    OfJoin(t, a.log, b.log[|a.log|..]);
    assert b.log == a.log + b.log[|a.log|..];
  }

  /** A thread that is not disturbed completes its call in three steps, with the effect and the result of the locked version. */
  lemma {:induction false} RunsAlone(initial: nat, s: State, t: nat, op: Op)
    requires Inv(initial, s) && !s.aborted && t < |s.threads| && s.threads[t].Idle?
    ensures var s' := Next(Next(Next(s, Start(t, op)), CompareAndSwap(t, false)), Return(t));
      var (after, result) := Atomic(op, s.count);
      && s'.log == s.log + [Call(t, op, result)] && s'.count == after
      && (result == Abort <==> s'.aborted)
      && (result != Abort ==> s'.returned == s.returned + [Call(t, op, result)] && s'.threads == s.threads)
  {
    var s1 := Next(s, Start(t, op));
    if s.count < MAX && (op == Dec ==> s.count > 0) {
      SwappedIsAtomic(op, s.count);
      assert s1 == s.(threads := s.threads[t := Trying(op, s.count)]);
    }
  }

  lemma {:induction false} SaturatedStep(initial: nat, s: State, step: Step)
    requires Inv(initial, s) && s.count == MAX
    ensures Next(s, step).count == MAX
  {
  }

  lemma {:induction false} LastStepSaturated(initial: nat, n: nat, steps: seq<Step>)
    requires initial <= MAX && steps != [] && Run(Start0(initial, n), steps[..|steps| - 1]).count == MAX
    ensures Run(Start0(initial, n), steps).count == MAX
  {
    RunRefinesLocked(initial, n, steps[..|steps| - 1]);
    SaturatedStep(initial, Run(Start0(initial, n), steps[..|steps| - 1]), steps[|steps| - 1]);
  }

  /** A saturated count never changes again. */
  lemma {:induction false} SaturationIsFinal(initial: nat, n: nat, steps: seq<Step>, k: nat)
    requires initial <= MAX && k <= |steps|
    requires Run(Start0(initial, n), steps[..k]).count == MAX
    ensures Run(Start0(initial, n), steps).count == MAX
  {
    if k == |steps| {
      assert steps[..k] == steps;
    } else {
      var m := |steps| - 1;
      assert steps[..m][..k] == steps[..k];
      SaturationIsFinal(initial, n, steps[..m], k);
      LastStepSaturated(initial, n, steps);
    }
  }

  /** The number of calls of kind `op` in a log, not counting aborts. */
  function Count(op: Op, log: seq<Call>): nat {
    if log == [] then 0
    else
      var c := log[|log| - 1];
      Count(op, log[..|log| - 1]) + if c.op == op && c.result != Abort then 1 else 0
  }

  /** Below saturation nothing is lost: the count is the initial one plus increments minus decrements. */
  lemma {:induction false} Conservation(initial: nat, log: seq<Call>, count: nat)
    requires initial <= MAX && Replay(initial, log) == Some(count)
    ensures count <= MAX
    ensures count < MAX ==> count + Count(Dec, log) == initial + Count(Inc, log)
  {
    if log != [] {
      var k := |log| - 1;
      Conservation(initial, log[..k], Replay(initial, log[..k]).value);
    }
  }
}
