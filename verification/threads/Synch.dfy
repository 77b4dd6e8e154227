/**
 Semaphores, locks and condition variables (threads/synch.cc), one atomic step at a time.

 Kernel code can only be switched out where interrupts are re-enabled or where a thread
 sleeps, so everything between two such points is one step.  Each object carries, next to
 the fields of the C++ class, the bookkeeping its correctness is stated with: the threads
 woken but not yet resumed, and the thread whose P() on a lock has completed.
 */
module Synch {
  import opened Options
  import opened Sequences

  type Tid = nat

  // ---------------------------------------------------------------- semaphores

  /** `woken`: threads V() took off the queue that have not yet re-tested `value`. */
  datatype Sem = Sem(value: int, queue: seq<Tid>, woken: set<Tid>)

  /** One trip of the loop test in Semaphore::P by `t`: consume the value, or queue and sleep. */
  function Test(s: Sem, t: Tid): Sem {
    if s.value == 0 then Sem(0, s.queue + [t], s.woken - {t})
    else Sem(s.value - 1, s.queue, s.woken - {t})
  }

  /** Semaphore::V: make the head of the queue ready, then increment. */
  function Vee(s: Sem): Sem {
    if s.queue == [] then s.(value := s.value + 1)
    else Sem(s.value + 1, s.queue[1..], s.woken + {s.queue[0]})
  }

  /** The last conjunct is "no lost wakeup": an available value never sits beside sleepers nobody woke. */
  ghost predicate SemInv(s: Sem) {
    && s.value >= 0
    && NoDuplicates(s.queue)
    && (forall t :: t in s.queue ==> t !in s.woken)
    && (s.queue != [] ==> s.value <= |s.woken|)
  }

  lemma TestKeepsInv(s: Sem, t: Tid)
    requires SemInv(s) && t !in s.queue
    ensures SemInv(Test(s, t))
  {
    if t in s.woken {
      assert |s.woken - {t}| == |s.woken| - 1;
    } else {
      assert s.woken - {t} == s.woken;
    }
  }

  lemma VeeKeepsInv(s: Sem)
    requires SemInv(s)
    ensures SemInv(Vee(s))
  {
    if s.queue != [] {
      assert |s.woken + {s.queue[0]}| == |s.woken| + 1;
    }
  }

  /** What threads do to a semaphore: one loop test of P by a thread, or one V. */
  datatype SemEvent = TestBy(t: Tid) | Post

  /** A thread asleep on the queue cannot run, hence cannot test. */
  predicate Enabled(s: Sem, e: SemEvent) {
    e.TestBy? ==> e.t !in s.queue
  }

  function Apply(s: Sem, e: SemEvent): Sem {
    match e
    case TestBy(t) => Test(s, t)
    case Post => Vee(s)
  }

  ghost predicate IsRun(s: Sem, es: seq<SemEvent>)
    decreases es
  {
    es == [] || (Enabled(s, es[0]) && IsRun(Apply(s, es[0]), es[1..]))
  }

  ghost function After(s: Sem, es: seq<SemEvent>): Sem
    decreases es
  {
    if es == [] then s else After(Apply(s, es[0]), es[1..])
  }

  ghost function Vees(es: seq<SemEvent>): nat {
    if es == [] then 0 else (if es[0].Post? then 1 else 0) + Vees(es[1..])
  }

  /** The number of P() calls that complete in the run, over all threads. */
  ghost function Completed(s: Sem, es: seq<SemEvent>): nat
    decreases es
  {
    if es == [] then 0
    else (if es[0].TestBy? && s.value != 0 then 1 else 0) + Completed(Apply(s, es[0]), es[1..])
  }

  /** In every run by any number of threads: value = initial + V's - completed P's, and no wakeup is lost. */
  lemma {:induction false} SemaphoreCounting(s: Sem, es: seq<SemEvent>)
    requires SemInv(s) && IsRun(s, es)
    ensures After(s, es).value == s.value + Vees(es) - Completed(s, es)
    ensures SemInv(After(s, es))
    decreases es
  {
    if es != [] {
      if es[0].TestBy? { TestKeepsInv(s, es[0].t); } else { VeeKeepsInv(s); }
      SemaphoreCounting(Apply(s, es[0]), es[1..]);
    }
  }

  lemma {:induction false} RunAppend(s: Sem, es: seq<SemEvent>, e: SemEvent)
    requires IsRun(s, es) && Enabled(After(s, es), e)
    ensures IsRun(s, es + [e])
    ensures After(s, es + [e]) == Apply(After(s, es), e)
    ensures Vees(es + [e]) == Vees(es) + (if e.Post? then 1 else 0)
    ensures Completed(s, es + [e]) == Completed(s, es) + (if e.TestBy? && After(s, es).value != 0 then 1 else 0)
    decreases es
  {
    if es == [] {
      assert es + [e] == [e];
    } else {
      RunAppend(Apply(s, es[0]), es[1..], e);
      assert (es + [e])[1..] == es[1..] + [e];
    }
  }

  /** The threads that found the value zero and went to sleep, in that order. */
  ghost function Slept(s: Sem, es: seq<SemEvent>): seq<Tid>
    decreases es
  {
    if es == [] then []
    else (if es[0].TestBy? && s.value == 0 then [es[0].t] else []) + Slept(Apply(s, es[0]), es[1..])
  }

  /** The number of V's that found a sleeper. */
  ghost function Wakings(s: Sem, es: seq<SemEvent>): nat
    decreases es
  {
    if es == [] then 0
    else (if es[0].Post? && s.queue != [] then 1 else 0) + Wakings(Apply(s, es[0]), es[1..])
  }

  /** Threads are woken in the order they went to sleep: those still asleep are the last ones that did. */
  lemma {:induction false} WokenInOrder(s: Sem, es: seq<SemEvent>)
    ensures Wakings(s, es) <= |s.queue + Slept(s, es)|
    ensures After(s, es).queue == (s.queue + Slept(s, es))[Wakings(s, es)..]
    decreases es
  {
    if es != [] {
      var s1, rest := Apply(s, es[0]), es[1..];
      WokenInOrder(s1, rest);
      if es[0].TestBy? && s.value == 0 {
        assert s1.queue + Slept(s1, rest) == s.queue + Slept(s, es);
      } else if es[0].Post? && s.queue != [] {
        assert s1.queue + Slept(s1, rest) == (s.queue + Slept(s, es))[1..];
      } else {
        assert s1.queue + Slept(s1, rest) == s.queue + Slept(s, es);
      }
    }
  }

  /** The semaphore object; `woken` is bookkeeping. */
  class Semaphore {
    var value: int
    var queue: seq<Tid>
    ghost var woken: set<Tid>

    ghost function State(): Sem
      reads this
    {
      Sem(value, queue, woken)
    }

    constructor (initialValue: nat)
      ensures State() == Sem(initialValue, [], {}) && SemInv(State())
    {
      value, queue, woken := initialValue, [], {};
    }

    method V() returns (thread: Option<Tid>)
      requires SemInv(State())
      modifies this
      ensures State() == Vee(old(State())) && SemInv(State())
      ensures thread == if old(queue) == [] then None else Some(old(queue[0]))
    {
      VeeKeepsInv(State());
      thread := None;
      if queue != [] {
        thread := Some(queue[0]);
        woken := woken + {queue[0]};
        queue := queue[1..];
      }
      value := value + 1;
    }

    /**
     P() as the calling thread sees it: test, and while the value is zero queue up and sleep.
     While `current` sleeps the other threads run; `others` is the schedule of what they do,
     of which the events of threads that are themselves asleep cannot happen.  The call has
     returned iff `done`; otherwise the schedule ended with `current` still asleep.
     */
    method P(current: Tid, others: seq<SemEvent>) returns (done: bool, ghost trace: seq<SemEvent>)
      requires SemInv(State()) && current !in queue
      requires forall e :: e in others && e.TestBy? ==> e.t != current
      modifies this
      ensures IsRun(old(State()), trace) && State() == After(old(State()), trace) && SemInv(State())
      ensures value == old(value) + Vees(trace) - Completed(old(State()), trace)
      ensures done <==> current !in queue
      ensures done ==> trace != [] && trace[|trace| - 1] == TestBy(current)
      ensures !done ==> forall k :: 0 <= k < |trace| && trace[k] == TestBy(current) ==>
                          After(old(State()), trace[..k]).value == 0
      ensures done ==> forall k :: 0 <= k < |trace| && trace[k] == TestBy(current) ==>
                         (After(old(State()), trace[..k]).value == 0 <==> k < |trace| - 1)
    {
      ghost var start := State();
      var next := 0;
      trace := [];
      while value == 0
        invariant SemInv(State()) && current !in queue
        invariant 0 <= next <= |others|
        invariant IsRun(start, trace) && State() == After(start, trace)
        invariant AllFailed(start, trace, current)
        decreases |others| - next
      {
        TestKeepsInv(State(), current);
        RunAppend(start, trace, TestBy(current));
        FailedAppend(start, trace, TestBy(current), current);
        Step(current);
        next, trace := WaitAsleep(current, others, next, start, trace + [TestBy(current)]);
        if current in queue {
          SemaphoreCounting(start, trace);
          return false, trace;
        }
      }
      TestKeepsInv(State(), current);
      RunAppend(start, trace, TestBy(current));
      LastSucceeds(start, trace, current);
      Step(current);
      trace := trace + [TestBy(current)];
      SemaphoreCounting(start, trace);
      done := true;
    }

    /** While `current` is asleep the others run on, until one of them wakes it or the schedule ends. */
    method WaitAsleep(current: Tid, others: seq<SemEvent>, from: nat, ghost start: Sem, ghost sofar: seq<SemEvent>)
      returns (next: nat, ghost trace: seq<SemEvent>)
      requires SemInv(State()) && current in queue && from <= |others|
      requires forall e :: e in others && e.TestBy? ==> e.t != current
      requires IsRun(start, sofar) && State() == After(start, sofar) && AllFailed(start, sofar, current)
      modifies this
      ensures SemInv(State()) && from <= next <= |others|
      ensures IsRun(start, trace) && State() == After(start, trace) && AllFailed(start, trace, current)
      ensures current !in queue ==> from < next
    {
      next, trace := from, sofar;
      while current in queue && next < |others|
        invariant SemInv(State())
        invariant from <= next <= |others|
        invariant current !in queue ==> from < next
        invariant IsRun(start, trace) && State() == After(start, trace)
        invariant AllFailed(start, trace, current)
      {
        var e := others[next];
        if e.Post? || e.t !in queue {
          RunAppend(start, trace, e);
          FailedAppend(start, trace, e, current);
          trace := trace + [e];
          if e.Post? {
            var _ := V();
          } else {
            TestKeepsInv(State(), e.t);
            Step(e.t);
          }
        }
        next := next + 1;
      }
    }

    /** One loop test of P by some thread `t`. */
    method Step(t: Tid)
      requires t !in queue
      modifies this
      ensures State() == Test(old(State()), t)
    {
      woken := woken - {t};
      if value == 0 {
        queue := queue + [t];
      } else {
        value := value - 1;
      }
    }
  }

  /** Every test by `t` in the run found the value zero. */
  ghost predicate AllFailed(s: Sem, es: seq<SemEvent>, t: Tid) {
    forall k :: 0 <= k < |es| && es[k] == TestBy(t) ==> After(s, es[..k]).value == 0
  }

  lemma LastSucceeds(s: Sem, es: seq<SemEvent>, t: Tid)
    requires AllFailed(s, es, t) && After(s, es).value != 0
    ensures forall k :: 0 <= k <= |es| && (es + [TestBy(t)])[k] == TestBy(t) ==>
              (After(s, (es + [TestBy(t)])[..k]).value == 0 <==> k < |es|)
  {
    var all := es + [TestBy(t)];
    forall k | 0 <= k <= |es| ensures all[..k] == es[..k] {
    }
    assert es[..|es|] == es;
  }

  lemma {:induction false} FailedAppend(s: Sem, es: seq<SemEvent>, e: SemEvent, t: Tid)
    requires AllFailed(s, es, t)
    requires e == TestBy(t) ==> After(s, es).value == 0
    ensures AllFailed(s, es + [e], t)
  {
    assert (es + [e])[..|es|] == es;
    assert forall k :: 0 <= k < |es| ==> (es + [e])[..k] == es[..k];
  }

  // ---------------------------------------------------------------- locks

  /** `holder`: the thread whose P() on `sem` has completed and whose V() has not yet happened. */
  datatype Lock = Lock(sem: Sem, owner: Option<Tid>, holder: Option<Tid>)

  const FREE_LOCK := Lock(Sem(1, [], {}), None, None)

  /** One loop test of the P() inside Lock::Acquire.  Setting `owner` is a later step. */
  function AcquireTest(l: Lock, t: Tid): Lock {
    Lock(Test(l.sem, t), l.owner, if l.sem.value == 0 then l.holder else Some(t))
  }

  function SetOwner(l: Lock, t: Tid): Lock {
    l.(owner := Some(t))
  }

  function Release(l: Lock): Lock {
    Lock(Vee(l.sem), None, None)
  }

  /** At most one holder, `value` is one exactly without a holder, and only the holder is ever the owner. */
  ghost predicate LockInv(l: Lock) {
    && SemInv(l.sem)
    && l.sem.value == (if l.holder.Some? then 0 else 1)
    && (l.owner.Some? ==> l.owner == l.holder)
    && (l.holder.Some? ==> l.holder.value !in l.sem.queue && l.holder.value !in l.sem.woken)
  }

  lemma AcquireTestKeepsInv(l: Lock, t: Tid)
    requires LockInv(l) && t !in l.sem.queue && l.holder != Some(t)
    ensures LockInv(AcquireTest(l, t))
  {
    TestKeepsInv(l.sem, t);
  }

  /** As far as the books of the lock go, Release is in order whenever somebody holds it. */
  lemma ReleaseKeepsInvIff(l: Lock)
    requires LockInv(l)
    ensures LockInv(Release(l)) <==> l.holder.Some?
  {
    VeeKeepsInv(l.sem);
  }

  /** With the lock free, sleepers imply somebody already woken to take it. */
  lemma FreeLockHasTaker(l: Lock)
    requires LockInv(l) && l.holder.None? && l.sem.queue != []
    ensures exists t :: t in l.sem.woken
  {
    assert l.sem.woken != {};
  }

  /** A lock and the threads inside: those whose Acquire has got past P and that have not released. */
  datatype LockUse = LockUse(lock: Lock, inside: set<Tid>)

  datatype LockEvent = Acquiring(t: Tid) | Owning(t: Tid) | Releasing(t: Tid)

  /** Locks are acquired by threads not inside and released by threads inside. */
  predicate LockEnabled(u: LockUse, e: LockEvent) {
    match e
    case Acquiring(t) => t !in u.lock.sem.queue && t !in u.inside
    case Owning(t) => t in u.inside
    case Releasing(t) => t in u.inside
  }

  function ApplyLock(u: LockUse, e: LockEvent): LockUse {
    match e
    case Acquiring(t) => LockUse(AcquireTest(u.lock, t), u.inside + if u.lock.sem.value == 0 then {} else {t})
    case Owning(t) => u.(lock := SetOwner(u.lock, t))
    case Releasing(t) => LockUse(Release(u.lock), u.inside - {t})
  }

  ghost predicate IsLockRun(u: LockUse, es: seq<LockEvent>)
    decreases es
  {
    es == [] || (LockEnabled(u, es[0]) && IsLockRun(ApplyLock(u, es[0]), es[1..]))
  }

  ghost function AfterLock(u: LockUse, es: seq<LockEvent>): LockUse
    decreases es
  {
    if es == [] then u else AfterLock(ApplyLock(u, es[0]), es[1..])
  }

  ghost predicate UseInv(u: LockUse) {
    LockInv(u.lock) && u.inside == if u.lock.holder.Some? then {u.lock.holder.value} else {}
  }

  /**
   Release never checks its caller.  It keeps mutual exclusion exactly if its caller is inside; any
   other caller, whether or not somebody is inside, leaves room for one thread too many.
   */
  lemma ReleaseKeepsExclusionIff(u: LockUse, t: Tid)
    requires UseInv(u)
    ensures UseInv(ApplyLock(u, Releasing(t))) <==> t in u.inside
    ensures var u' := ApplyLock(u, Releasing(t));
      |u'.inside| + u'.lock.sem.value == if t in u.inside then 1 else 2
  {
    ReleaseKeepsInvIff(u.lock);
    if u.lock.holder.Some? && t !in u.inside {
      assert u.inside - {t} == u.inside;
    } else if u.lock.holder.Some? {
      assert u.inside - {t} == {};
    }
  }

  /** Thread 0 is inside; thread 1 calls Release and then Acquire, and both are inside. */
  lemma OutsiderLetsTwoIn()
    ensures AfterLock(LockUse(FREE_LOCK, {}), [Acquiring(0), Owning(0), Releasing(1), Acquiring(1)]).inside == {0, 1}
  {
    var u2 := ApplyLock(ApplyLock(LockUse(FREE_LOCK, {}), Acquiring(0)), Owning(0));
    assert u2.inside == {0} && u2.lock.sem == Sem(0, [], {});
    var u4 := ApplyLock(ApplyLock(u2, Releasing(1)), Acquiring(1));
    var es := [Acquiring(0), Owning(0), Releasing(1), Acquiring(1)];
    assert es[1..] == [Owning(0), Releasing(1), Acquiring(1)] && es[1..][1..] == [Releasing(1), Acquiring(1)];
    assert es[1..][1..][1..] == [Acquiring(1)];
    assert u4.inside == {0, 1} && AfterLock(u4, []) == u4;
  }

  lemma {:induction false} LockRunKeepsInv(u: LockUse, es: seq<LockEvent>)
    requires UseInv(u) && IsLockRun(u, es)
    ensures UseInv(AfterLock(u, es))
    decreases es
  {
    if es != [] {
      match es[0] {
        case Acquiring(t) => AcquireTestKeepsInv(u.lock, t);
        case Owning(t) =>
        case Releasing(t) => ReleaseKeepsInvIff(u.lock);
      }
      LockRunKeepsInv(ApplyLock(u, es[0]), es[1..]);
    }
  }

  /** In every run the threads inside and the semaphore's value add up to one, and an owner is inside. */
  lemma HoldersPlusValueIsOne(es: seq<LockEvent>)
    requires IsLockRun(LockUse(FREE_LOCK, {}), es)
    ensures var u := AfterLock(LockUse(FREE_LOCK, {}), es);
      |u.inside| + u.lock.sem.value == 1 && (u.lock.owner.Some? ==> u.lock.owner.value in u.inside)
  {
    LockRunKeepsInv(LockUse(FREE_LOCK, {}), es);
  }

  // ---------------------------------------------------------------- condition variables

  /** The waiters, and the threads made ready, in order. */
  datatype Cond = Cond(queue: seq<Tid>, ready: seq<Tid>)

  /** Condition::Signal does nothing unless its caller is the lock's owner. */
  function SignalIf(c: Cond, isOwner: bool): Cond {
    if !isOwner || c.queue == [] then c else Cond(c.queue[1..], c.ready + [c.queue[0]])
  }

  function SignalTimes(c: Cond, isOwner: bool, n: nat): Cond
    decreases n
  {
    if n == 0 then c else SignalTimes(SignalIf(c, isOwner), isOwner, n - 1)
  }

  /** Broadcast by the owner wakes every waiter, first come first. */
  lemma BroadcastWakesAll(c: Cond)
    ensures SignalTimes(c, true, |c.queue|) == Cond([], c.ready + c.queue)
  {
    SignalledPrefix(c, |c.queue|);
    assert c.queue[..|c.queue|] == c.queue;
  }

  /** Broadcast's loop ends exactly if its caller owns the lock or nobody waits: otherwise Signal never empties the queue. */
  lemma BroadcastEndsIff(c: Cond, isOwner: bool)
    ensures (exists n: nat :: SignalTimes(c, isOwner, n).queue == []) <==> isOwner || c.queue == []
  {
    if isOwner {
      BroadcastWakesAll(c);
      assert SignalTimes(c, isOwner, |c.queue|).queue == [];
    } else {
      forall n: nat ensures SignalTimes(c, isOwner, n) == c {
        SignalsByOthers(c, n);
      }
      assert SignalTimes(c, isOwner, 0).queue == c.queue;
    }
  }

  lemma {:induction false} SignalledPrefix(c: Cond, n: nat)
    requires n <= |c.queue|
    ensures SignalTimes(c, true, n) == Cond(c.queue[n..], c.ready + c.queue[..n])
    decreases n
  {
    if n > 0 {
      SignalledPrefix(SignalIf(c, true), n - 1);
      assert c.queue[..n] == [c.queue[0]] + c.queue[1..][..n - 1];
      assert c.queue[n..] == c.queue[1..][n - 1..];
    }
  }

  lemma {:induction false} SignalsByOthers(c: Cond, n: nat)
    ensures SignalTimes(c, false, n) == c
  {
    if n > 0 {
      SignalsByOthers(c, n - 1);
    }
  }

  class Condition {
    var queue: seq<Tid>
    ghost var ready: seq<Tid>

    ghost function State(): Cond
      reads this
    {
      Cond(queue, ready)
    }

    method SignalOne(isOwner: bool) returns (thread: Option<Tid>)
      modifies this
      ensures State() == SignalIf(old(State()), isOwner)
      ensures thread == if isOwner && old(queue) != [] then Some(old(queue[0])) else None
    {
      if !isOwner || queue == [] {
        return None;
      }
      thread := Some(queue[0]);
      ready := ready + [queue[0]];
      queue := queue[1..];
    }

    /**
     The loop of Broadcast, followed for at most `rounds` of its rounds; `ends` if it is over by then.
     Its owner holds the lock throughout, so nobody new can start waiting between two signals.
     */
    method Broadcast(isOwner: bool, rounds: nat) returns (ends: bool)
      modifies this
      ensures State() == SignalTimes(old(State()), isOwner, if rounds < |old(queue)| then rounds else |old(queue)|)
      ensures ends <==> queue == []
      ensures isOwner && rounds >= |old(queue)| ==> ends && State() == Cond([], old(ready) + old(queue))
      ensures !isOwner ==> State() == old(State())
    {
      ghost var start, limit := State(), if rounds < |queue| then rounds else |queue|;
      var i := 0;
      while queue != [] && i < rounds
        invariant 0 <= i <= rounds
        invariant isOwner ==> i <= |start.queue| && State() == Cond(start.queue[i..], start.ready + start.queue[..i])
        invariant !isOwner ==> State() == start
      {
        var _ := SignalOne(isOwner);
        i := i + 1;
      }
      if isOwner {
        SignalledPrefix(start, i);
      } else {
        SignalsByOthers(start, limit);
      }
      ends := queue == [];
    }
  }
}
