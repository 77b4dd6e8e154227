/**
 Threads and the scheduler (threads/thread.cc, threads/scheduler.cc): the ready list, the thread
 running, and the threads asleep on wait queues.  Each operation is one step of the running
 thread with interrupts off; it ends where SWITCH has put another thread in charge.
 */
module Scheduler {
  import opened Options
  import opened Sequences

  type Tid = nat
  type QueueId = nat

  datatype Status = JustCreated | Running | Ready | Blocked

  /**
   `status` has an entry for every thread object alive.  `unstarted` are those on the ready list
   for the first time: they will begin in ThreadRoot, not behind the SWITCH in Scheduler::Run.
   The last four fields are bookkeeping: which queue a sleeper is on, the threads that have called
   Finish and are not yet deleted, and the logs of the ready list.
   */
  datatype Kernel = Kernel(
    ready: seq<Tid>, current: Tid, status: map<Tid, Status>, waiting: map<QueueId, seq<Tid>>,
    threadToBeDestroyed: Option<Tid>, unstarted: set<Tid>, deleted: set<Tid>,
    home: map<Tid, QueueId>, finished: set<Tid>, enqueued: seq<Tid>, dispatched: seq<Tid>, halted: bool)

  function Init(main: Tid): (s: Kernel)
    ensures Inv(s)
  {
    Kernel([], main, map[main := Running], map[], None, {}, {}, map[], {}, [], [], false)
  }

  function Queue(waiting: map<QueueId, seq<Tid>>, q: QueueId): seq<Tid> {
    if q in waiting then waiting[q] else []
  }

  // ---------------------------------------------------------------- the operations

  function ReadyToRun(s: Kernel, t: Tid): Kernel {
    s.(status := s.status[t := Ready], ready := s.ready + [t], enqueued := s.enqueued + [t])
  }

  /** FindNextToRun takes the head off the ready list; Run switches to it and buries a finished thread. */
  function RunNext(s: Kernel): Kernel
    requires s.ready != []
  {
    var next := s.ready[0];
    var s1 := s.(ready := s.ready[1..], dispatched := s.dispatched + [next],
                 current := next, status := s.status[next := Running], unstarted := s.unstarted - {next});
    if next in s.unstarted || s.threadToBeDestroyed.None? then s1
    else
      var dead := s.threadToBeDestroyed.value;
      s1.(threadToBeDestroyed := None, status := s1.status - {dead}, deleted := s1.deleted + {dead}, finished := s1.finished - {dead})
  }

  /** A V() or Signal: the head of a wait queue becomes ready. */
  function Wake(s: Kernel, q: QueueId): Kernel {
    if Queue(s.waiting, q) == [] then s
    else ReadyToRun(s.(waiting := s.waiting[q := Queue(s.waiting, q)[1..]]), Queue(s.waiting, q)[0])
  }

  /** Interrupt handlers that run while nothing is ready, one wake-up each. */
  function Idle(s: Kernel, wakes: seq<QueueId>): Kernel
    decreases wakes
  {
    if s.ready != [] || wakes == [] then s else Idle(Wake(s, wakes[0]), wakes[1..])
  }

  /** Thread::Sleep; when nothing gets ready and no interrupt is left, the machine halts. */
  function Sleep(s: Kernel, wakes: seq<QueueId>): Kernel {
    var s1 := Idle(s.(status := s.status[s.current := Blocked]), wakes);
    if s1.ready == [] then s1.(halted := true) else RunNext(s1)
  }

  datatype Op =
    | Create(t: Tid)
    | Fork(t: Tid)
    | Yield
    | SleepOn(q: QueueId, wakes: seq<QueueId>)
    | Finish(wakes: seq<QueueId>)
    | WakeUp(q: QueueId)

  /** What the running thread may do: a thread object is made once and forked once. */
  predicate Enabled(s: Kernel, op: Op) {
    match op
    case Create(t) => t !in s.status && t !in s.deleted
    case Fork(t) => t in s.status && s.status[t] == JustCreated
    case _ => true
  }

  /** Thread::Fork: the thread will start at its procedure.  It is not checked for having been forked before. */
  function ForkOf(s: Kernel, t: Tid): Kernel {
    ReadyToRun(s.(unstarted := s.unstarted + {t}), t)
  }

  function Do(s: Kernel, op: Op): Kernel {
    if s.halted || !Enabled(s, op) then s
    else
      match op
      case Create(t) => s.(status := s.status[t := JustCreated])
      case Fork(t) => ForkOf(s, t)
      case Yield => if s.ready == [] then s else YieldTo(s)
      case SleepOn(q, wakes) =>
        Sleep(s.(waiting := s.waiting[q := Queue(s.waiting, q) + [s.current]], home := s.home[s.current := q]), wakes)
      case Finish(wakes) => Sleep(s.(threadToBeDestroyed := Some(s.current), finished := s.finished + {s.current}), wakes)
      case WakeUp(q) => Wake(s, q)
  }

  /** Yield takes the next thread off the list before it puts itself on. */
  function YieldTo(s: Kernel): Kernel
    requires s.ready != []
  {
    RunNext(ReadyToRun(s, s.current))
  }

  function RunFrom(s: Kernel, ops: seq<Op>): Kernel {
    if ops == [] then s else Do(RunFrom(s, ops[..|ops| - 1]), ops[|ops| - 1])
  }

  function Run(main: Tid, ops: seq<Op>): Kernel {
    RunFrom(Init(main), ops)
  }

  // ---------------------------------------------------------------- the invariant

  predicate Waits(s: Kernel, t: Tid) {
    t in s.home && t in Queue(s.waiting, s.home[t])
  }

  /** A thread's status says where it is: on the ready list, running, asleep on one queue or finished, or unborn. */
  ghost predicate Placed(s: Kernel, t: Tid) {
    && (t in s.ready <==> t in s.status && s.status[t] == Ready)
    && (Waits(s, t) || t in s.finished <==> t in s.status && s.status[t] == Blocked)
    && !(Waits(s, t) && t in s.finished)
    && (forall q :: t in Queue(s.waiting, q) ==> Waits(s, t) && s.home[t] == q)
    && (t in s.unstarted ==> t in s.ready)
    && !(t in s.status && t in s.deleted)
  }

  /** Everything but the status of the thread in charge. */
  ghost predicate InvBut(s: Kernel) {
    && NoDuplicates(s.ready)
    && (forall q :: NoDuplicates(Queue(s.waiting, q)))
    && (forall t: Tid :: Placed(s, t))
    && (forall t: Tid :: t in s.status && s.status[t] == Running ==> t == s.current)
    && s.current in s.status
    && (s.threadToBeDestroyed.Some? ==> s.threadToBeDestroyed.value in s.finished)
    && s.dispatched + s.ready == s.enqueued
  }

  ghost predicate Inv(s: Kernel) {
    InvBut(s) && (s.halted || s.status[s.current] == Running)
  }

  /** Thread `t` is on no list and everything else is in its place. */
  ghost predicate InLimbo(s: Kernel, t: Tid) {
    && NoDuplicates(s.ready)
    && (forall q :: NoDuplicates(Queue(s.waiting, q)))
    && (forall u: Tid :: u != t ==> Placed(s, u))
    && (forall u: Tid :: u != t && u in s.status && s.status[u] == Running ==> u == s.current)
    && s.current in s.status
    && (s.threadToBeDestroyed.Some? ==> s.threadToBeDestroyed.value in s.finished)
    && s.dispatched + s.ready == s.enqueued
    && t in s.status && t !in s.ready && t !in s.finished && t !in s.deleted && !Waits(s, t)
    && (forall q :: t !in Queue(s.waiting, q))
  }

  lemma ReadyKeepsInv(s: Kernel, t: Tid)
    requires InLimbo(s, t)
    ensures InvBut(ReadyToRun(s, t))
  {
    var s' := ReadyToRun(s, t);
    forall u: Tid ensures Placed(s', u) {
      assert u != t ==> Placed(s, u);
    }
    forall q ensures NoDuplicates(Queue(s'.waiting, q)) {
      assert Queue(s'.waiting, q) == Queue(s.waiting, q);
    }
  }

  lemma RunNextKeepsInv(s: Kernel)
    requires InvBut(s) && s.ready != [] && s.status[s.current] != Running
    ensures Inv(RunNext(s))
  {
    var s' := RunNext(s);
    assert s.ready == [s.ready[0]] + s.ready[1..];
    assert Placed(s, s.ready[0]);
    if s.threadToBeDestroyed.Some? {
      assert Placed(s, s.threadToBeDestroyed.value);
    }
    forall u: Tid ensures Placed(s', u) {
      RunNextKeepsPlace(s, u);
    }
    forall q ensures NoDuplicates(Queue(s'.waiting, q)) {
      assert Queue(s'.waiting, q) == Queue(s.waiting, q);
    }
  }

  lemma RunNextKeepsPlace(s: Kernel, u: Tid)
    requires NoDuplicates(s.ready) && s.ready != [] && s.current in s.status && s.status[s.current] != Running
    requires Placed(s, s.ready[0]) && Placed(s, u)
    requires s.threadToBeDestroyed.Some? ==> s.threadToBeDestroyed.value in s.finished && Placed(s, s.threadToBeDestroyed.value)
    ensures Placed(RunNext(s), u)
  {
    assert s.ready == [s.ready[0]] + s.ready[1..];
  }

  lemma WakeKeepsInv(s: Kernel, q: QueueId)
    requires InvBut(s)
    ensures InvBut(Wake(s, q))
    ensures Wake(s, q).current == s.current && Wake(s, q).halted == s.halted
    ensures s.status[s.current] != Running ==> Wake(s, q).status[s.current] != Running
    ensures s.status[s.current] == Running ==> Wake(s, q).status[s.current] == Running
  {
    if Queue(s.waiting, q) != [] {
      var t := Queue(s.waiting, q)[0];
      var s1 := s.(waiting := s.waiting[q := Queue(s.waiting, q)[1..]]);
      assert Placed(s, t);
      forall p ensures NoDuplicates(Queue(s1.waiting, p)) && t !in Queue(s1.waiting, p) {
        assert NoDuplicates(Queue(s.waiting, p));
      }
      forall u: Tid | u != t ensures Placed(s1, u) {
        assert Placed(s, u);
        assert forall p :: u in Queue(s1.waiting, p) <==> u in Queue(s.waiting, p);
      }
      ReadyKeepsInv(s1, t);
    }
  }

  lemma {:induction false} IdleKeepsInv(s: Kernel, wakes: seq<QueueId>)
    requires InvBut(s) && s.status[s.current] != Running
    ensures InvBut(Idle(s, wakes)) && Idle(s, wakes).status[Idle(s, wakes).current] != Running
    decreases wakes
  {
    if s.ready == [] && wakes != [] {
      WakeKeepsInv(s, wakes[0]);
      IdleKeepsInv(Wake(s, wakes[0]), wakes[1..]);
    }
  }

  lemma SleepKeepsInv(s: Kernel, wakes: seq<QueueId>)
    requires InvBut(s.(status := s.status[s.current := Blocked]))
    ensures Inv(Sleep(s, wakes))
  {
    var s1 := s.(status := s.status[s.current := Blocked]);
    IdleKeepsInv(s1, wakes);
    var s2 := Idle(s1, wakes);
    if s2.ready != [] {
      RunNextKeepsInv(s2);
    } else {
      forall u: Tid ensures Placed(s2.(halted := true), u) {
        assert Placed(s2, u);
      }
    }
  }

  lemma SleepOnKeepsInv(s: Kernel, q: QueueId, wakes: seq<QueueId>)
    requires Inv(s) && !s.halted
    ensures Inv(Do(s, SleepOn(q, wakes)))
  {
    var me := s.current;
    var s1 := s.(waiting := s.waiting[q := Queue(s.waiting, q) + [me]], home := s.home[me := q]);
    assert Placed(s, me);
    assert forall p :: me !in Queue(s.waiting, p);
    assert forall p :: p != q ==> Queue(s1.waiting, p) == Queue(s.waiting, p);
    assert forall u: Tid :: u != me ==> (u in Queue(s1.waiting, q) <==> u in Queue(s.waiting, q));
    var s2 := s1.(status := s1.status[me := Blocked]);
    forall u: Tid ensures Placed(s2, u) {
      assert Placed(s, u);
      if u == me {
        assert Queue(s2.waiting, q)[|Queue(s.waiting, q)|] == me;
      }
    }
    forall p ensures NoDuplicates(Queue(s2.waiting, p)) {
      assert NoDuplicates(Queue(s.waiting, p));
    }
    SleepKeepsInv(s1, wakes);
  }

  lemma FinishKeepsInv(s: Kernel, wakes: seq<QueueId>)
    requires Inv(s) && !s.halted
    ensures Inv(Do(s, Finish(wakes)))
  {
    var me := s.current;
    var s1 := s.(threadToBeDestroyed := Some(me), finished := s.finished + {me});
    assert Placed(s, me);
    var s2 := s1.(status := s1.status[me := Blocked]);
    forall u: Tid ensures Placed(s2, u) {
      assert Placed(s, u);
    }
    SleepKeepsInv(s1, wakes);
  }

  lemma YieldKeepsInv(s: Kernel)
    requires Inv(s) && !s.halted && s.ready != []
    ensures Inv(YieldTo(s))
  {
    assert Placed(s, s.current);
    ReadyKeepsInv(s, s.current);
    RunNextKeepsInv(ReadyToRun(s, s.current));
  }

  /** Fork checks nothing: it leaves every thread in one place exactly if its thread has not been forked before. */
  lemma ForkKeepsInvIff(s: Kernel, t: Tid)
    requires Inv(s) && !s.halted && t in s.status
    ensures Inv(ForkOf(s, t)) <==> s.status[t] == JustCreated
  {
    assert Placed(s, t);
    var s1, s' := s.(unstarted := s.unstarted + {t}), ForkOf(s, t);
    if s.status[t] == JustCreated {
      forall u: Tid | u != t ensures Placed(s1, u) {
        assert Placed(s, u);
      }
      ReadyKeepsInv(s1, t);
    } else if t in s.ready {
      var i :| 0 <= i < |s.ready| && s.ready[i] == t;
      assert s'.ready[i] == s'.ready[|s.ready|];
    } else if s.status[t] == Blocked {
      assert s'.waiting == s.waiting && s'.home == s.home && s'.finished == s.finished;
      assert !Placed(s', t);
    }
  }

  lemma DoKeepsInv(s: Kernel, op: Op)
    requires Inv(s)
    ensures Inv(Do(s, op))
  {
    if !s.halted && Enabled(s, op) {
      match op
      case Create(t) =>
        assert Placed(s, t);
        forall u: Tid ensures Placed(Do(s, op), u) {
          assert Placed(s, u);
        }
      case Fork(t) => ForkKeepsInvIff(s, t);
      case Yield => if s.ready != [] { YieldKeepsInv(s); }
      case SleepOn(q, wakes) => SleepOnKeepsInv(s, q, wakes);
      case Finish(wakes) => FinishKeepsInv(s, wakes);
      case WakeUp(q) => WakeKeepsInv(s, q);
    }
  }

  // ---------------------------------------------------------------- every reachable kernel state

  lemma {:induction false} RunFromKeepsInv(s: Kernel, ops: seq<Op>)
    requires Inv(s)
    ensures Inv(RunFrom(s, ops))
  {
    if ops != [] {
      RunFromKeepsInv(s, ops[..|ops| - 1]);
      DoKeepsInv(RunFrom(s, ops[..|ops| - 1]), ops[|ops| - 1]);
    }
  }

  ghost predicate OnReadyList(s: Kernel, t: Tid) {
    exists i :: 0 <= i < |s.ready| && s.ready[i] == t && forall j :: 0 <= j < |s.ready| && s.ready[j] == t ==> j == i
  }

  ghost predicate OnOneQueue(s: Kernel, t: Tid) {
    exists q :: t in Queue(s.waiting, q) && NoDuplicates(Queue(s.waiting, q))
                && forall p :: t in Queue(s.waiting, p) ==> p == q
  }

  /** Until the machine halts, every thread alive is in exactly one place, and its status names the place. */
  lemma EveryThreadHasOnePlace(main: Tid, ops: seq<Op>, t: Tid)
    ensures var s := Run(main, ops); !s.halted && t in s.status ==>
      match s.status[t]
      case Running => t == s.current && t !in s.ready && t !in s.finished && forall q :: t !in Queue(s.waiting, q)
      case Ready => t != s.current && OnReadyList(s, t) && t !in s.finished && forall q :: t !in Queue(s.waiting, q)
      case Blocked => t != s.current && t !in s.ready && (OnOneQueue(s, t) <==> t !in s.finished)
      case JustCreated => t != s.current && t !in s.ready && t !in s.finished && forall q :: t !in Queue(s.waiting, q)
  {
    RunFromKeepsInv(Init(main), ops);
    var s := Run(main, ops);
    assert Placed(s, t);
    if t in s.ready {
      var i :| 0 <= i < |s.ready| && s.ready[i] == t;
      assert OnReadyList(s, t);
    }
  }

  /** A deleted thread is never current, on the ready list, or on a wait queue. */
  lemma DeletedIsGone(main: Tid, ops: seq<Op>, t: Tid)
    requires t in Run(main, ops).deleted
    ensures var s := Run(main, ops); t != s.current && t !in s.ready && t !in s.status && forall q :: t !in Queue(s.waiting, q)
  {
    RunFromKeepsInv(Init(main), ops);
    assert Placed(Run(main, ops), t);
  }

  lemma IdleExtendsLogs(s: Kernel, wakes: seq<QueueId>)
    ensures s.enqueued <= Idle(s, wakes).enqueued && s.dispatched == Idle(s, wakes).dispatched
    decreases wakes
  {
    if s.ready == [] && wakes != [] {
      IdleExtendsLogs(Wake(s, wakes[0]), wakes[1..]);
    }
  }

  lemma SleepExtendsLogs(s: Kernel, wakes: seq<QueueId>)
    ensures s.enqueued <= Sleep(s, wakes).enqueued && s.dispatched <= Sleep(s, wakes).dispatched
  {
    IdleExtendsLogs(s.(status := s.status[s.current := Blocked]), wakes);
  }

  lemma DoExtendsLogs(s: Kernel, op: Op)
    ensures s.enqueued <= Do(s, op).enqueued && s.dispatched <= Do(s, op).dispatched
  {
    match op
    case SleepOn(q, wakes) =>
      SleepExtendsLogs(s.(waiting := s.waiting[q := Queue(s.waiting, q) + [s.current]], home := s.home[s.current := q]), wakes);
    case Finish(wakes) =>
      SleepExtendsLogs(s.(threadToBeDestroyed := Some(s.current), finished := s.finished + {s.current}), wakes);
    case _ =>
  }

  lemma {:induction false} RunExtendsLogs(s: Kernel, ops: seq<Op>)
    ensures s.enqueued <= RunFrom(s, ops).enqueued && s.dispatched <= RunFrom(s, ops).dispatched
  {
    if ops != [] {
      RunExtendsLogs(s, ops[..|ops| - 1]);
      DoExtendsLogs(RunFrom(s, ops[..|ops| - 1]), ops[|ops| - 1]);
    }
  }

  /** First come, first served: the thread at position k of the ready list is the (k+1)-th dispatched from then on. */
  lemma DispatchIsFifo(main: Tid, ops: seq<Op>, more: seq<Op>, k: nat)
    requires k < |Run(main, ops).ready|
    ensures var s, s' := Run(main, ops), RunFrom(Run(main, ops), more);
      |s'.dispatched| > |s.dispatched| + k ==> s'.dispatched[|s.dispatched| + k] == s.ready[k]
  {
    RunFromKeepsInv(Init(main), ops);
    DispatchIsFifoFrom(Run(main, ops), more, k);
  }

  lemma DispatchIsFifoFrom(s: Kernel, more: seq<Op>, k: nat)
    requires Inv(s) && k < |s.ready|
    ensures var s' := RunFrom(s, more);
      |s'.dispatched| > |s.dispatched| + k ==> s'.dispatched[|s.dispatched| + k] == s.ready[k]
  {
    var s' := RunFrom(s, more);
    RunFromKeepsInv(s, more);
    RunExtendsLogs(s, more);
    LogsOf(s);
    LogsOf(s');
    if |s'.dispatched| > |s.dispatched| + k {
      LogsAreFifo(s.dispatched, s.ready, s'.dispatched, s'.ready, k);
    }
  }

  lemma LogsOf(s: Kernel)
    requires Inv(s)
    ensures s.dispatched + s.ready == s.enqueued
  {
  }

  /** What is dispatched and then ready is what was made ready, of which the earlier part stays the same. */
  lemma LogsAreFifo(dispatched: seq<Tid>, ready: seq<Tid>, dispatched': seq<Tid>, ready': seq<Tid>, k: nat)
    requires dispatched + ready <= dispatched' + ready' && k < |ready| && |dispatched'| > |dispatched| + k
    ensures dispatched'[|dispatched| + k] == ready[k]
  {
    assert (dispatched + ready)[|dispatched| + k] == (dispatched' + ready')[|dispatched| + k];
  }

  // ---------------------------------------------------------------- who runs next

  /** Yield: the head of the ready list runs and the caller goes to its end; alone, the caller goes on. */
  lemma YieldSwitches(s: Kernel)
    requires Inv(s) && !s.halted
    ensures var s' := Do(s, Yield);
      if s.ready == [] then s' == s
      else
        && s'.current == s.ready[0] && s'.ready == s.ready[1..] + [s.current] && s'.waiting == s.waiting && !s'.halted
        && s.current in s'.status && s'.status[s.current] == Ready
        && s'.current in s'.status && s'.status[s'.current] == Running
  {
    if s.ready != [] {
      YieldKeepsInv(s);
      assert Placed(s, s.current);
      assert (s.ready + [s.current])[1..] == s.ready[1..] + [s.current];
      var s' := YieldTo(s);
      assert Placed(s', s.current) && s'.ready[|s.ready| - 1] == s.current;
    }
  }

  /** n times Yield. */
  function Yields(n: nat): seq<Op> {
    if n == 0 then [] else Yields(n - 1) + [Yield]
  }

  /** The ready list and the thread running after n + 1 Yields. */
  lemma {:induction false} YieldsRotate(s: Kernel, n: nat)
    requires Inv(s) && !s.halted && n < |s.ready|
    ensures Rotated(s, n, RunFrom(s, Yields(n + 1)))
  {
    OneMoreYield(s, n);
    var s1 := RunFrom(s, Yields(n));
    if n == 0 {
      FirstRotation(s);
    } else {
      YieldsRotate(s, n - 1);
      NextRotation(s, n, s1);
    }
  }

  ghost predicate Rotated(s: Kernel, n: nat, s': Kernel)
    requires n < |s.ready|
  {
    Inv(s') && !s'.halted && s'.current == s.ready[n] && s'.ready == s.ready[n + 1..] + [s.current] + s.ready[..n]
  }

  lemma OneMoreYield(s: Kernel, n: nat)
    ensures RunFrom(s, Yields(n + 1)) == Do(RunFrom(s, Yields(n)), Yield)
  {
    YieldsLength(n);
    assert Yields(n + 1)[..n] == Yields(n);
  }

  lemma FirstRotation(s: Kernel)
    requires Inv(s) && !s.halted && s.ready != []
    ensures Rotated(s, 0, Do(s, Yield))
  {
    YieldSwitches(s);
    DoKeepsInv(s, Yield);
    assert s.ready[1..] + [s.current] + s.ready[..0] == s.ready[1..] + [s.current];
  }

  lemma NextRotation(s: Kernel, n: nat, s1: Kernel)
    requires 0 < n < |s.ready| && Rotated(s, n - 1, s1)
    ensures Rotated(s, n, Do(s1, Yield))
  {
    YieldSwitches(s1);
    DoKeepsInv(s1, Yield);
    TurnedOnce(s.ready, s.current, n);
  }

  lemma TurnedOnce(ready: seq<Tid>, current: Tid, n: nat)
    requires 0 < n < |ready|
    ensures var turned := ready[n..] + [current] + ready[..n - 1];
      turned[0] == ready[n] && turned[1..] + [ready[n - 1]] == ready[n + 1..] + [current] + ready[..n]
  {
  }

  lemma {:induction false} YieldsLength(n: nat)
    ensures |Yields(n)| == n && forall i :: 0 <= i < n ==> Yields(n)[i] == Yield
  {
    if n > 0 {
      YieldsLength(n - 1);
    }
  }

  /** From any state reached: k + 1 Yields give the processor to the thread at position k of the ready list. */
  lemma YieldsDispatch(main: Tid, ops: seq<Op>, k: nat)
    requires var s := Run(main, ops); !s.halted && k < |s.ready|
    ensures RunFrom(Run(main, ops), Yields(k + 1)).current == Run(main, ops).ready[k]
  {
    RunFromKeepsInv(Init(main), ops);
    YieldsRotate(Run(main, ops), k);
  }

  /** The first of these wake-ups that finds a sleeper, or |wakes|. */
  ghost function FirstWaking(waiting: map<QueueId, seq<Tid>>, wakes: seq<QueueId>): (k: nat)
    ensures k <= |wakes| && (k < |wakes| ==> Queue(waiting, wakes[k]) != [])
    ensures forall j :: 0 <= j < k ==> Queue(waiting, wakes[j]) == []
  {
    if wakes == [] || Queue(waiting, wakes[0]) != [] then 0 else 1 + FirstWaking(waiting, wakes[1..])
  }

  /** The processor has gone to `next`, taken off the ready list, while the queues are these. */
  ghost predicate Dispatched(s': Kernel, next: Tid, ready: seq<Tid>, waiting: map<QueueId, seq<Tid>>) {
    && s'.current == next && s'.ready == ready && s'.waiting == waiting && !s'.halted
    && next in s'.status && s'.status[next] == Running
  }

  /** A sleep with the queues `waiting`: the ready list is served first, then the first wake-up that finds a sleeper. */
  ghost predicate Slept(ready: seq<Tid>, waiting: map<QueueId, seq<Tid>>, wakes: seq<QueueId>, s': Kernel) {
    var k := FirstWaking(waiting, wakes);
    if ready != [] then Dispatched(s', ready[0], ready[1..], waiting)
    else if k < |wakes| then
      Dispatched(s', Queue(waiting, wakes[k])[0], [], waiting[wakes[k] := Queue(waiting, wakes[k])[1..]])
    else s'.halted && s'.ready == [] && s'.waiting == waiting
  }

  lemma {:induction false} IdleWakesFirst(s: Kernel, wakes: seq<QueueId>)
    requires s.ready == []
    ensures var k := FirstWaking(s.waiting, wakes); Idle(s, wakes) == if k < |wakes| then Wake(s, wakes[k]) else s
    decreases wakes
  {
    if wakes != [] && Queue(s.waiting, wakes[0]) == [] {
      IdleWakesFirst(s, wakes[1..]);
    }
  }

  lemma SleepServes(s: Kernel, wakes: seq<QueueId>)
    requires Inv(Sleep(s, wakes)) && !s.halted
    ensures Slept(s.ready, s.waiting, wakes, Sleep(s, wakes))
  {
    var s1 := s.(status := s.status[s.current := Blocked]);
    if s.ready == [] {
      IdleWakesFirst(s1, wakes);
    }
  }

  /** Thread::Sleep by way of a wait queue: the caller is its last, Blocked unless it is woken at once; the next thread runs. */
  lemma SleepDispatches(s: Kernel, q: QueueId, wakes: seq<QueueId>)
    requires Inv(s) && !s.halted
    ensures var s' := Do(s, SleepOn(q, wakes));
      && Slept(s.ready, s.waiting[q := Queue(s.waiting, q) + [s.current]], wakes, s')
      && s.current in s'.status && (s'.halted || s'.current != s.current ==> s'.status[s.current] == Blocked)
  {
    var s' := Do(s, SleepOn(q, wakes));
    SleepOnKeepsInv(s, q, wakes);
    var s1 := s.(waiting := s.waiting[q := Queue(s.waiting, q) + [s.current]], home := s.home[s.current := q]);
    SleepServes(s1, wakes);
    assert Placed(s, s.current);
    StillBlocked(s1, wakes);
  }

  lemma StillBlocked(s: Kernel, wakes: seq<QueueId>)
    requires !s.halted && s.current in s.status && s.current !in s.ready && (s.threadToBeDestroyed.Some? ==> s.threadToBeDestroyed.value != s.current)
    ensures var s' := Sleep(s, wakes); s.current in s'.status && (s'.halted || s'.current != s.current ==> s'.status[s.current] == Blocked)
  {
    var s1 := s.(status := s.status[s.current := Blocked]);
    if s.ready == [] {
      IdleWakesFirst(s1, wakes);
    }
  }

  /** Thread::Finish: the next thread runs; the caller is finished, and deleted or named to be. */
  lemma FinishDispatches(s: Kernel, wakes: seq<QueueId>)
    requires Inv(s) && !s.halted
    ensures var s' := Do(s, Finish(wakes));
      && Slept(s.ready, s.waiting, wakes, s') && s.current !in s'.ready && (s'.halted || s'.current != s.current)
      && (s.current in s'.deleted || s'.threadToBeDestroyed == Some(s.current))
  {
    FinishKeepsInv(s, wakes);
    var s1 := s.(threadToBeDestroyed := Some(s.current), finished := s.finished + {s.current});
    SleepServes(s1, wakes);
    assert Placed(s, s.current);
    SleepBuries(s1, wakes, s.current);
    assert Placed(Do(s, Finish(wakes)), s.current);
  }

  /** V() or Signal from a running thread: the head of the queue is ready, behind all others. */
  lemma WakeUpReadies(s: Kernel, q: QueueId)
    requires Inv(s) && !s.halted
    ensures var s', queue := Do(s, WakeUp(q)), Queue(s.waiting, q);
      if queue == [] then s' == s
      else
        && s'.ready == s.ready + [queue[0]] && s'.waiting == s.waiting[q := queue[1..]] && s'.current == s.current
        && queue[0] in s'.status && s'.status[queue[0]] == Ready
  {
  }

  // ---------------------------------------------------------------- finished threads

  lemma {:induction false} IdleLeaves(s: Kernel, wakes: seq<QueueId>)
    ensures var s' := Idle(s, wakes);
      && s'.finished == s.finished && s'.deleted == s.deleted && s'.threadToBeDestroyed == s.threadToBeDestroyed
      && s'.unstarted == s.unstarted && s'.dispatched == s.dispatched && s'.halted == s.halted
    decreases wakes
  {
    if s.ready == [] && wakes != [] {
      IdleLeaves(Wake(s, wakes[0]), wakes[1..]);
    }
  }

  /** What the switch does to the thread to be destroyed. */
  lemma SwitchBuries(s: Kernel, t: Tid)
    requires s.ready != [] && s.threadToBeDestroyed == Some(t) && t !in s.deleted
    ensures RunNext(s).current == s.ready[0] && RunNext(s).dispatched == s.dispatched + [s.ready[0]]
    ensures if s.ready[0] in s.unstarted then RunNext(s).threadToBeDestroyed == Some(t) && t !in RunNext(s).deleted
            else t in RunNext(s).deleted
  {
  }

  /** The operation, not a Finish, gives the processor to a thread that has run before. */
  ghost predicate HandsOver(s: Kernel, op: Op) {
    !op.Finish? && ToStarted(s, Do(s, op))
  }

  /** From the one state to the other the processor has been switched to a thread that had run before. */
  ghost predicate ToStarted(s: Kernel, s': Kernel) {
    |s'.dispatched| > |s.dispatched| && s'.current !in s.unstarted
  }

  /** The operation puts another thread's name into threadToBeDestroyed. */
  ghost predicate Renames(s: Kernel, op: Op) {
    op.Finish? && !s.halted
  }

  lemma SleepBuries(s: Kernel, wakes: seq<QueueId>, t: Tid)
    requires s.threadToBeDestroyed == Some(t) && t !in s.deleted
    ensures var s' := Sleep(s, wakes);
      if ToStarted(s, s') then t in s'.deleted
      else s'.threadToBeDestroyed == Some(t) && t !in s'.deleted
  {
    var s1 := s.(status := s.status[s.current := Blocked]);
    IdleLeaves(s1, wakes);
    if Idle(s1, wakes).ready != [] {
      SwitchBuries(Idle(s1, wakes), t);
    }
  }

  /** One operation on a kernel that has a thread to destroy: it forgets it, deletes it, or keeps its name. */
  lemma NamedStep(s: Kernel, op: Op, t: Tid)
    requires Inv(s) && s.threadToBeDestroyed == Some(t)
    ensures var s' := Do(s, op);
      if Renames(s, op) then t in s'.finished && t !in s'.deleted && s'.threadToBeDestroyed != Some(t)
      else if HandsOver(s, op) then t in s'.deleted
      else s'.threadToBeDestroyed == Some(t) && t !in s'.deleted
  {
    assert Placed(s, t) && Placed(s, s.current);
    if !s.halted && Enabled(s, op) {
      match op
      case Yield =>
        if s.ready != [] {
          SwitchBuries(ReadyToRun(s, s.current), t);
        }
      case SleepOn(q, wakes) =>
        SleepBuries(s.(waiting := s.waiting[q := Queue(s.waiting, q) + [s.current]], home := s.home[s.current := q]), wakes, t);
      case Finish(wakes) =>
        var s1 := s.(threadToBeDestroyed := Some(s.current), finished := s.finished + {s.current});
        ForgottenSleep(s1, wakes, t);
      case _ =>
    }
  }

  lemma ForgottenSleep(s: Kernel, wakes: seq<QueueId>, t: Tid)
    requires t in s.finished && t !in s.deleted && s.threadToBeDestroyed != Some(t)
    ensures var s' := Sleep(s, wakes); t in s'.finished && t !in s'.deleted && s'.threadToBeDestroyed != Some(t)
  {
    IdleLeaves(s.(status := s.status[s.current := Blocked]), wakes);
  }

  lemma ForgottenStep(s: Kernel, op: Op, t: Tid)
    requires Inv(s) && t in s.finished && s.threadToBeDestroyed != Some(t)
    ensures var s' := Do(s, op); t in s'.finished && t !in s'.deleted && s'.threadToBeDestroyed != Some(t)
  {
    assert Placed(s, t);
    if !s.halted {
      match op
      case SleepOn(q, wakes) =>
        ForgottenSleep(s.(waiting := s.waiting[q := Queue(s.waiting, q) + [s.current]], home := s.home[s.current := q]), wakes, t);
      case Finish(wakes) =>
        assert Placed(s, s.current);
        ForgottenSleep(s.(threadToBeDestroyed := Some(s.current), finished := s.finished + {s.current}), wakes, t);
      case _ =>
    }
  }

  lemma DeletedStep(s: Kernel, op: Op, t: Tid)
    requires t in s.deleted
    ensures t in Do(s, op).deleted
  {
    match op
    case SleepOn(q, wakes) =>
      IdleLeaves(s.(waiting := s.waiting[q := Queue(s.waiting, q) + [s.current]], home := s.home[s.current := q],
                    status := s.status[s.current := Blocked]), wakes);
    case Finish(wakes) =>
      IdleLeaves(s.(threadToBeDestroyed := Some(s.current), finished := s.finished + {s.current},
                    status := s.status[s.current := Blocked]), wakes);
    case _ =>
  }

  /** A finished thread that `threadToBeDestroyed` no longer names is never deleted. */
  lemma {:induction false} OverwrittenIsNeverDeleted(s: Kernel, ops: seq<Op>, t: Tid)
    requires Inv(s) && t in s.finished && s.threadToBeDestroyed != Some(t)
    ensures var s' := RunFrom(s, ops); t in s'.finished && t !in s'.deleted && s'.threadToBeDestroyed != Some(t)
  {
    if ops == [] {
      assert Placed(s, t);
    } else {
      var most := ops[..|ops| - 1];
      OverwrittenIsNeverDeleted(s, most, t);
      RunFromKeepsInv(s, most);
      ForgottenStep(RunFrom(s, most), ops[|ops| - 1], t);
    }
  }

  ghost predicate RenamesAt(s: Kernel, ops: seq<Op>, j: nat) {
    j < |ops| && Renames(RunFrom(s, ops[..j]), ops[j])
  }

  /** At operation k the processor goes to a thread that has run before, and no thread has finished since `s`. */
  ghost predicate BuriedAt(s: Kernel, ops: seq<Op>, k: nat) {
    && k < |ops| && HandsOver(RunFrom(s, ops[..k]), ops[k])
    && forall j: nat :: j < k ==> !RenamesAt(s, ops, j)
  }

  lemma RenamesBefore(s: Kernel, ops: seq<Op>, op: Op, j: nat)
    requires j < |ops|
    ensures RenamesAt(s, ops + [op], j) <==> RenamesAt(s, ops, j)
  {
    assert (ops + [op])[..j] == ops[..j];
  }

  lemma BuriedBefore(s: Kernel, ops: seq<Op>, op: Op, k: nat)
    requires k < |ops|
    ensures BuriedAt(s, ops + [op], k) <==> BuriedAt(s, ops, k)
  {
    assert (ops + [op])[..k] == ops[..k];
    forall j: nat | j < k ensures RenamesAt(s, ops + [op], j) <==> RenamesAt(s, ops, j) {
      RenamesBefore(s, ops, op, j);
    }
  }

  /** The three things that can have become of the thread to be destroyed by the end of a run. */
  ghost predicate Fated(s: Kernel, ops: seq<Op>, s': Kernel, t: Tid) {
    if exists k: nat :: BuriedAt(s, ops, k) then t in s'.deleted
    else if exists j: nat :: RenamesAt(s, ops, j) then t in s'.finished && t !in s'.deleted && s'.threadToBeDestroyed != Some(t)
    else s'.threadToBeDestroyed == Some(t) && t !in s'.deleted
  }

  lemma {:induction false} Fate(s: Kernel, ops: seq<Op>, t: Tid)
    requires Inv(s) && s.threadToBeDestroyed == Some(t)
    ensures Fated(s, ops, RunFrom(s, ops), t)
  {
    if ops == [] {
      FatedAtFirst(s, t);
    } else {
      var most, op := ops[..|ops| - 1], ops[|ops| - 1];
      assert most + [op] == ops;
      Fate(s, most, t);
      RunFromKeepsInv(s, most);
      FateStep(s, most, op, t);
    }
  }

  lemma FatedAtFirst(s: Kernel, t: Tid)
    requires Inv(s) && s.threadToBeDestroyed == Some(t)
    ensures Fated(s, [], s, t)
  {
    assert Placed(s, t);
  }

  lemma FateStep(s: Kernel, ops: seq<Op>, op: Op, t: Tid)
    requires Inv(RunFrom(s, ops)) && Fated(s, ops, RunFrom(s, ops), t)
    ensures Fated(s, ops + [op], Do(RunFrom(s, ops), op), t)
  {
    var s1, all := RunFrom(s, ops), ops + [op];
    assert all[..|ops|] == ops && all[|ops|] == op;
    if k: nat :| BuriedAt(s, ops, k) {
      DeletedStep(s1, op, t);
      BuriedBefore(s, ops, op, k);
    } else if j: nat :| RenamesAt(s, ops, j) {
      ForgottenStep(s1, op, t);
      RenamesBefore(s, ops, op, j);
      forall k: nat ensures !BuriedAt(s, all, k) {
        if k < |ops| { BuriedBefore(s, ops, op, k); }
      }
    } else {
      NamedStep(s1, op, t);
      forall k: nat | k < |ops| ensures !BuriedAt(s, all, k) && !RenamesAt(s, all, k) {
        BuriedBefore(s, ops, op, k);
        RenamesBefore(s, ops, op, k);
      }
      assert BuriedAt(s, all, |ops|) <==> HandsOver(s1, op);
      assert RenamesAt(s, all, |ops|) <==> Renames(s1, op);
    }
  }

  /**
   The thread to be destroyed is deleted in a run exactly if, before any other thread finishes, the
   processor goes to a thread that has run before.
   */
  lemma NamedIsDeletedIff(s: Kernel, ops: seq<Op>, t: Tid)
    requires Inv(s) && s.threadToBeDestroyed == Some(t)
    ensures t in RunFrom(s, ops).deleted <==>
            exists k: nat :: k < |ops| && HandsOver(RunFrom(s, ops[..k]), ops[k])
                             && forall j: nat :: j < k ==> !Renames(RunFrom(s, ops[..j]), ops[j])
  {
    Fate(s, ops, t);
    if k: nat :| BuriedAt(s, ops, k) {
      assert forall j: nat :: j < k ==> RenamesAt(s, ops, j) == Renames(RunFrom(s, ops[..j]), ops[j]);
    }
    if k: nat :| k < |ops| && HandsOver(RunFrom(s, ops[..k]), ops[k]) && forall j: nat :: j < k ==> !Renames(RunFrom(s, ops[..j]), ops[j]) {
      assert BuriedAt(s, ops, k);
    }
  }

  lemma {:induction false} DeletedStays(s: Kernel, ops: seq<Op>, t: Tid)
    requires t in s.deleted
    ensures t in RunFrom(s, ops).deleted
  {
    if ops != [] {
      DeletedStays(s, ops[..|ops| - 1], t);
      DeletedStep(RunFrom(s, ops[..|ops| - 1]), ops[|ops| - 1], t);
    }
  }

  /**
   From its Finish on: a thread is deleted in a run exactly if its own switch goes to a thread that
   has run before, or a later one does before any other thread finishes.
   */
  lemma FinishedIsDeletedIff(s: Kernel, wakes: seq<QueueId>, ops: seq<Op>)
    requires Inv(s) && !s.halted
    ensures var s1 := Do(s, Finish(wakes));
      s.current in RunFrom(s1, ops).deleted <==>
        || ToStarted(s, s1)
        || exists k: nat :: k < |ops| && HandsOver(RunFrom(s1, ops[..k]), ops[k])
                            && forall j: nat :: j < k ==> !Renames(RunFrom(s1, ops[..j]), ops[j])
  {
    var t, s1 := s.current, Do(s, Finish(wakes));
    assert Placed(s, t);
    SleepBuries(s.(threadToBeDestroyed := Some(t), finished := s.finished + {t}), wakes, t);
    if ToStarted(s, s1) {
      DeletedStays(s1, ops, t);
    } else {
      DoKeepsInv(s, Finish(wakes));
      NamedIsDeletedIff(s1, ops, t);
    }
  }

  /** Thread 0 has forked 1 and 2, which have not run yet. */
  const TWO_FORKED := Kernel([1, 2], 0, map[0 := Running, 1 := Ready, 2 := Ready], map[], None, {1, 2}, {}, map[], {}, [1, 2], [], false)

  lemma ForkTwo()
    ensures Do(Do(Do(Do(Init(0), Create(1)), Fork(1)), Create(2)), Fork(2)) == TWO_FORKED
  {
    var s2 := Do(Do(Init(0), Create(1)), Fork(1));
    assert s2.status == map[0 := Running, 1 := Ready];
    assert s2.ready == [1] && s2.enqueued == [1] && s2.unstarted == {1};
  }

  lemma FinishTwo()
    ensures var s := Do(Do(TWO_FORKED, Finish([])), Finish([])); s.finished == {0, 1} && s.threadToBeDestroyed == Some(1) && s.deleted == {}
  {
    var s1 := Do(TWO_FORKED, Finish([]));
    assert s1.ready == [2] && s1.current == 1 && s1.unstarted == {2} && s1.finished == {0} && s1.deleted == {};
  }

  /** Two threads finishing one after the other while only new threads are ready: the first is never deleted. */
  lemma FinishedThreadCanLeak(more: seq<Op>)
    ensures var s := RunFrom(Run(0, [Create(1), Fork(1), Create(2), Fork(2), Finish([]), Finish([])]), more);
      0 in s.finished && 0 !in s.deleted
  {
    var ops := [Create(1), Fork(1), Create(2), Fork(2), Finish([]), Finish([])];
    RunFromKeepsInv(Init(0), ops);
    ForkTwo();
    FinishTwo();
    Unrolled(ops);
    OverwrittenIsNeverDeleted(Run(0, ops), more, 0);
  }

  lemma Unrolled(ops: seq<Op>)
    requires |ops| == 6
    ensures Run(0, ops) == Do(Do(Do(Do(Do(Do(Init(0), ops[0]), ops[1]), ops[2]), ops[3]), ops[4]), ops[5])
  {
    assert ops[..5][..4] == ops[..4] && ops[..4][..3] == ops[..3] && ops[..3][..2] == ops[..2] && ops[..2][..1] == ops[..1];
    assert RunFrom(Init(0), ops[..1]) == Do(Init(0), ops[0]);
    assert RunFrom(Init(0), ops[..2]) == Do(RunFrom(Init(0), ops[..1]), ops[1]);
    assert RunFrom(Init(0), ops[..3]) == Do(RunFrom(Init(0), ops[..2]), ops[2]);
    assert RunFrom(Init(0), ops[..4]) == Do(RunFrom(Init(0), ops[..3]), ops[3]);
    assert RunFrom(Init(0), ops[..5]) == Do(RunFrom(Init(0), ops[..4]), ops[4]);
  }

  // ---------------------------------------------------------------- the kernel updated in place

  class Threads {
    var readyList: seq<Tid>
    var currentThread: Tid
    var status: map<Tid, Status>
    var waiting: map<QueueId, seq<Tid>>
    var threadToBeDestroyed: Option<Tid>
    var unstarted: set<Tid>
    var halted: bool
    ghost var deleted: set<Tid>
    ghost var home: map<Tid, QueueId>
    ghost var finished: set<Tid>
    ghost var enqueued: seq<Tid>
    ghost var dispatched: seq<Tid>

    ghost function View(): Kernel
      reads this
    {
      Kernel(readyList, currentThread, status, waiting, threadToBeDestroyed, unstarted, deleted, home, finished,
             enqueued, dispatched, halted)
    }

    constructor (main: Tid)
      ensures View() == Init(main)
    {
      readyList, currentThread, status, waiting := [], main, map[main := Running], map[];
      threadToBeDestroyed, unstarted, halted := None, {}, false;
      deleted, home, finished, enqueued, dispatched := {}, map[], {}, [], [];
    }

    method MakeReady(t: Tid)
      modifies this
      ensures View() == ReadyToRun(old(View()), t)
      ensures readyList == old(readyList) + [t] && status == old(status)[t := Ready]
      ensures currentThread == old(currentThread) && unstarted == old(unstarted)
    {
      status := status[t := Ready];
      readyList := readyList + [t];
      enqueued := enqueued + [t];
    }

    method FindNextToRun() returns (next: Option<Tid>)
      modifies this`readyList
      ensures next == if old(readyList) == [] then None else Some(old(readyList)[0])
      ensures readyList == if old(readyList) == [] then [] else old(readyList)[1..]
    {
      if readyList == [] {
        return None;
      }
      next := Some(readyList[0]);
      readyList := readyList[1..];
    }

    /** Scheduler::Run; `next` has been taken off the ready list. */
    method SwitchTo(next: Tid)
      modifies this
      ensures View() == RunNext(old(View()).(ready := [next] + old(readyList)))
      ensures currentThread == next && readyList == old(readyList) && unstarted == old(unstarted) - {next}
      ensures threadToBeDestroyed == if next in old(unstarted) then old(threadToBeDestroyed) else None
    {
      currentThread := next;
      status := status[next := Running];
      dispatched := dispatched + [next];
      if next in unstarted {
        unstarted := unstarted - {next};
      } else if threadToBeDestroyed.Some? {
        status := status - {threadToBeDestroyed.value};
        deleted := deleted + {threadToBeDestroyed.value};
        finished := finished - {threadToBeDestroyed.value};
        threadToBeDestroyed := None;
      }
    }

    method ForkThread(t: Tid)
      requires t in status
      modifies this
      ensures View() == ForkOf(old(View()), t)
      ensures readyList == old(readyList) + [t] && status == old(status)[t := Ready] && unstarted == old(unstarted) + {t}
    {
      unstarted := unstarted + {t};
      MakeReady(t);
    }

    method YieldThread()
      requires !halted
      modifies this
      ensures View() == Do(old(View()), Yield)
      ensures if old(readyList) == [] then View() == old(View())
              else currentThread == old(readyList)[0] && readyList == old(readyList)[1..] + [old(currentThread)]
    {
      ghost var before := View();
      var next := FindNextToRun();
      if next.Some? {
        MakeReady(currentThread);
        assert [next.value] + readyList == before.ready + [before.current];
        SwitchTo(next.value);
      }
    }

    method WakeHead(q: QueueId)
      modifies this
      ensures View() == Wake(old(View()), q)
      ensures Queue(old(waiting), q) != [] ==>
                && readyList == old(readyList) + [Queue(old(waiting), q)[0]]
                && waiting == old(waiting)[q := Queue(old(waiting), q)[1..]]
      ensures Queue(old(waiting), q) == [] ==> View() == old(View())
    {
      if Queue(waiting, q) != [] {
        var t := Queue(waiting, q)[0];
        waiting := waiting[q := Queue(waiting, q)[1..]];
        MakeReady(t);
      }
    }

    /** Thread::Sleep; `wakes` are the wake-ups interrupt handlers bring while the processor idles. */
    method SleepThread(wakes: seq<QueueId>)
      modifies this
      ensures View() == Sleep(old(View()), wakes)
    {
      status := status[currentThread := Blocked];
      ghost var start := View();
      var i := 0;
      var next := FindNextToRun();
      while next.None? && i < |wakes|
        invariant 0 <= i <= |wakes|
        invariant next.None? ==> readyList == [] && Idle(start, wakes) == Idle(View(), wakes[i..])
        invariant next.Some? ==> Idle(start, wakes) == View().(ready := [next.value] + readyList)
      {
        WakeHead(wakes[i]);
        i := i + 1;
        next := FindNextToRun();
      }
      if next.None? {
        halted := true;
      } else {
        SwitchTo(next.value);
      }
    }

    method SleepOnQueue(q: QueueId, wakes: seq<QueueId>)
      requires !halted
      modifies this
      ensures View() == Do(old(View()), SleepOn(q, wakes))
    {
      waiting := waiting[q := Queue(waiting, q) + [currentThread]];
      home := home[currentThread := q];
      SleepThread(wakes);
    }

    method FinishThread(wakes: seq<QueueId>)
      requires !halted
      modifies this
      ensures View() == Do(old(View()), Finish(wakes))
    {
      threadToBeDestroyed := Some(currentThread);
      finished := finished + {currentThread};
      SleepThread(wakes);
    }
  }
}
