/**
 The synchronized list (threads/synchlist.h): any number of threads that append and remove
 through one lock, Remove waiting on a Mesa-style condition while the list is empty.
 Steps are cut at the switch points, and any thread that is awake may take the next one.
 */
module SynchList {
  import opened Options
  import opened Sequences
  import opened Synch

  datatype Call<Item> = Append(item: Item) | Remove

  /** Why a thread tests the lock; `Rewait` is the re-acquire inside Condition::Wait. */
  datatype Op<Item> = Enter(call: Call<Item>) | Rewait

  datatype Pc<Item> =
    | Outside                   // in no call
    | LockAsleep(op: Op<Item>)  // on the lock's queue
    | LockWoken(op: Op<Item>)   // taken off it, about to test again
    | GotSem(call: Call<Item>)  // P() completed; `owner` not yet set
    | AppendSignalled           // in Append, after Signal
    | CondAsleep                // in Remove, on the queue of listEmpty
    | CondWoken                 // in Remove, signalled
    | WaitDone                  // Wait has re-acquired the lock; the list is to be tested again

  /**
   The list, its lock and condition queue, and the threads' program points.  The last three
   fields are bookkeeping: the threads signalled that have not yet re-tested the list, and the
   items appended and removed so far, in order.
   */
  datatype State<Item> = State(
    list: seq<Item>, lock: Lock, waiters: seq<Tid>, pc: map<Tid, Pc<Item>>,
    signalled: set<Tid>, appended: seq<Item>, removed: seq<Item>)

  function PcOf<Item>(s: State<Item>, t: Tid): Pc<Item> {
    if t in s.pc then s.pc[t] else Outside
  }

  function At<Item>(s: State<Item>, t: Tid, pc: Pc<Item>): State<Item> {
    s.(pc := s.pc[t := pc])
  }

  function Init<Item>(): (s: State<Item>)
    ensures Inv(s)
  {
    State([], FREE_LOCK, [], map[], {}, [], [])
  }

  function TestLock<Item>(s: State<Item>, t: Tid, op: Op<Item>): State<Item> {
    var l := AcquireTest(s.lock, t);
    if s.lock.sem.value == 0 then At(s.(lock := l), t, LockAsleep(op))
    else match op
      case Enter(call) => At(s.(lock := l), t, GotSem(call))
      case Rewait => At(s.(lock := SetOwner(l, t)), t, WaitDone)
  }

  /** Lock::Release by thread `t`, which goes on at `next`. */
  function ReleaseTo<Item>(s: State<Item>, t: Tid, next: Pc<Item>): State<Item> {
    var q := s.lock.sem.queue;
    var s' := s.(lock := Release(s.lock));
    At(if q != [] && PcOf(s, q[0]).LockAsleep? then At(s', q[0], LockWoken(PcOf(s, q[0]).op)) else s', t, next)
  }

  /** Condition::Signal on listEmpty by thread `t`. */
  function Signal<Item>(s: State<Item>, t: Tid): State<Item> {
    if s.lock.owner != Some(t) || s.waiters == [] then s
    else At(s.(waiters := s.waiters[1..], signalled := s.signalled + {s.waiters[0]}), s.waiters[0], CondWoken)
  }

  /** One trip of Remove's loop: wait while the list is empty, otherwise take the first item and leave. */
  function TakeOrWait<Item>(s: State<Item>, t: Tid): State<Item> {
    var s' := s.(signalled := s.signalled - {t});
    if s.list != [] then ReleaseTo(s'.(list := s.list[1..], removed := s.removed + [s.list[0]]), t, Outside)
    else if s.lock.owner != Some(t) then s'   // Wait returns at once and the loop tests again
    else ReleaseTo(s', t, CondAsleep).(waiters := s.waiters + [t])
  }

  /** The step of thread `t`; `call` is what it does next if it is in no call. */
  function Step<Item>(s: State<Item>, t: Tid, call: Call<Item>): State<Item> {
    match PcOf(s, t)
    case Outside => TestLock(s, t, Enter(call))
    case LockWoken(op) => TestLock(s, t, op)
    case CondWoken => TestLock(s, t, Rewait)
    case GotSem(Append(item)) =>
      var s1 := s.(lock := SetOwner(s.lock, t), list := s.list + [item], appended := s.appended + [item]);
      At(Signal(s1, t), t, AppendSignalled)
    case AppendSignalled => ReleaseTo(s, t, Outside)
    case GotSem(Remove) => TakeOrWait(s.(lock := SetOwner(s.lock, t)), t)
    case WaitDone => TakeOrWait(s, t)
    case _ => s
  }

  function Run<Item>(schedule: seq<(Tid, Call<Item>)>): State<Item> {
    if schedule == [] then Init()
    else
      var last := schedule[|schedule| - 1];
      Step(Run(schedule[..|schedule| - 1]), last.0, last.1)
  }

  // ---------------------------------------------------------------- the invariant

  predicate Owning<Item>(pc: Pc<Item>) {
    pc.AppendSignalled? || pc.WaitDone?
  }

  predicate Holding<Item>(pc: Pc<Item>) {
    pc.GotSem? || Owning(pc)
  }

  /** Signalled, and not yet back at the loop test of Remove. */
  predicate OnItsWay<Item>(pc: Pc<Item>) {
    pc.CondWoken? || pc.WaitDone? || ((pc.LockAsleep? || pc.LockWoken?) && pc.op.Rewait?)
  }

  ghost predicate Booked<Item>(s: State<Item>, t: Tid) {
    var pc := PcOf(s, t);
    && (t in s.lock.sem.queue <==> pc.LockAsleep?)
    && (t in s.lock.sem.woken <==> pc.LockWoken?)
    && (s.lock.holder == Some(t) <==> Holding(pc))
    && (s.lock.owner == Some(t) <==> Owning(pc))
    && (t in s.waiters <==> pc.CondAsleep?)
    && (t in s.signalled <==> OnItsWay(pc))
  }

  /** Items and waiters together imply enough threads already signalled to take the items. */
  ghost predicate Inv<Item>(s: State<Item>) {
    && LockInv(s.lock)
    && NoDuplicates(s.waiters)
    && (forall t: Tid :: Booked(s, t))
    && (s.waiters != [] ==> |s.list| <= |s.signalled|)
    && s.appended == s.removed + s.list
  }

  lemma TestLockKeepsInv<Item>(s: State<Item>, t: Tid, op: Op<Item>)
    requires Inv(s)
    requires PcOf(s, t) == LockWoken(op) || PcOf(s, t) == (if op.Rewait? then CondWoken else Outside)
    ensures Inv(TestLock(s, t, op))
  {
    assert Booked(s, t);
    AcquireTestKeepsInv(s.lock, t);
    forall u: Tid ensures Booked(TestLock(s, t, op), u) {
      assert Booked(s, u);
    }
  }

  /** Thread `t` owns the lock; everything else is as the invariant says. */
  ghost predicate InvBut<Item>(s: State<Item>, t: Tid) {
    && LockInv(s.lock)
    && NoDuplicates(s.waiters)
    && (forall u: Tid :: u != t ==> Booked(s, u))
    && s.lock.owner == s.lock.holder == Some(t)
    && t !in s.waiters && t !in s.signalled
    && s.appended == s.removed + s.list
  }

  lemma ReleaseKeepsInv<Item>(s: State<Item>, t: Tid, next: Pc<Item>)
    requires InvBut(s, t) && (s.waiters != [] ==> |s.list| <= |s.signalled|)
    requires next.Outside?
    ensures Inv(ReleaseTo(s, t, next))
  {
    ReleaseKeepsInvIff(s.lock);
    forall u: Tid ensures Booked(ReleaseTo(s, t, next), u) {
      assert u != t ==> Booked(s, u);
    }
  }

  lemma WaitKeepsInv<Item>(s: State<Item>, t: Tid)
    requires InvBut(s, t) && s.list == []
    ensures Inv(ReleaseTo(s, t, CondAsleep).(waiters := s.waiters + [t]))
  {
    ReleaseKeepsInvIff(s.lock);
    var s' := ReleaseTo(s, t, CondAsleep).(waiters := s.waiters + [t]);
    forall u: Tid ensures Booked(s', u) {
      assert u != t ==> Booked(s, u);
    }
  }

  /** `s` is a state whose thread `t` has just set `owner`; barging or signalled makes no difference. */
  lemma TakeOrWaitKeepsInv<Item>(s: State<Item>, t: Tid)
    requires InvBut(s.(signalled := s.signalled - {t}), t)
    requires s.waiters != [] ==> |s.list| <= |s.signalled|
    ensures Inv(TakeOrWait(s, t))
  {
    var s' := s.(signalled := s.signalled - {t});
    if s.list == [] {
      WaitKeepsInv(s', t);
    } else {
      assert s.list == [s.list[0]] + s.list[1..];
      assert |s.signalled| <= |s'.signalled| + 1 by {
        if t !in s.signalled { assert s'.signalled == s.signalled; }
      }
      var taken := s'.(list := s.list[1..], removed := s.removed + [s.list[0]]);
      forall u: Tid | u != t ensures Booked(taken, u) {
        assert Booked(s', u);
      }
      ReleaseKeepsInv(taken, t, Outside);
    }
  }

  lemma AppendKeepsInv<Item>(s: State<Item>, t: Tid, item: Item)
    requires Inv(s) && PcOf(s, t) == GotSem(Append(item))
    ensures Inv(Step(s, t, Append(item)))
  {
    var s' := Step(s, t, Append(item));
    assert Booked(s, t);
    if s.waiters != [] {
      assert s.waiters[0] in s.waiters && Booked(s, s.waiters[0]);
      assert |s.signalled + {s.waiters[0]}| == |s.signalled| + 1;
    }
    forall u: Tid ensures Booked(s', u) {
      assert Booked(s, u);
    }
  }

  lemma StepKeepsInv<Item>(s: State<Item>, t: Tid, call: Call<Item>)
    requires Inv(s)
    ensures Inv(Step(s, t, call))
  {
    assert Booked(s, t);
    match PcOf(s, t)
    case Outside => TestLockKeepsInv(s, t, Enter(call));
    case LockWoken(op) => TestLockKeepsInv(s, t, op);
    case CondWoken => TestLockKeepsInv(s, t, Rewait);
    case GotSem(Append(item)) => AppendKeepsInv(s, t, item);
    case GotSem(Remove) =>
      var s1 := s.(lock := SetOwner(s.lock, t), signalled := s.signalled - {t});
      forall u: Tid | u != t ensures Booked(s1, u) {
        assert Booked(s, u);
      }
      TakeOrWaitKeepsInv(s.(lock := SetOwner(s.lock, t)), t);
    case WaitDone =>
      forall u: Tid | u != t ensures Booked(s.(signalled := s.signalled - {t}), u) {
        assert Booked(s, u);
      }
      TakeOrWaitKeepsInv(s, t);
    case AppendSignalled =>
      ReleaseKeepsInv(s, t, Outside);
    case _ =>
  }

  // ---------------------------------------------------------------- every reachable state

  lemma RunKeepsInv<Item>(schedule: seq<(Tid, Call<Item>)>)
    ensures Inv(Run(schedule))
  {
    if schedule != [] {
      var last := schedule[|schedule| - 1];
      RunKeepsInv(schedule[..|schedule| - 1]);
      StepKeepsInv(Run(schedule[..|schedule| - 1]), last.0, last.1);
    }
  }

  // ---------------------------------------------------------------- the list is what the calls made of it

  /** The call thread `t` made last: the one it named when it was in none. */
  ghost function CallOf<Item>(schedule: seq<(Tid, Call<Item>)>, t: Tid): Option<Call<Item>> {
    if schedule == [] then None
    else
      var before, last := schedule[..|schedule| - 1], schedule[|schedule| - 1];
      if last.0 == t && PcOf(Run(before), t).Outside? then Some(last.1) else CallOf(before, t)
  }

  /** The items of the Append calls that have got past the lock, in that order. */
  ghost function Appends<Item>(schedule: seq<(Tid, Call<Item>)>): seq<Item> {
    if schedule == [] then []
    else
      var before, t := schedule[..|schedule| - 1], schedule[|schedule| - 1].0;
      var call := CallOf(before, t);
      Appends(before) + if PcOf(Run(before), t).GotSem? && call.Some? && call.value.Append? then [call.value.item] else []
  }

  /** The number of Remove calls that have returned. */
  ghost function Removals<Item>(schedule: seq<(Tid, Call<Item>)>): nat {
    if schedule == [] then 0
    else
      var before, t := schedule[..|schedule| - 1], schedule[|schedule| - 1].0;
      var leaves := !PcOf(Run(before), t).Outside? && PcOf(Run(schedule), t).Outside?;
      Removals(before) + if leaves && CallOf(before, t) == Some(Remove) then 1 else 0
  }

  /** The call a program point belongs to, as far as the point tells. */
  ghost predicate IsIn<Item>(pc: Pc<Item>, call: Option<Call<Item>>) {
    match pc
    case Outside => true
    case LockAsleep(Enter(c)) => call == Some(c)
    case LockWoken(Enter(c)) => call == Some(c)
    case GotSem(c) => call == Some(c)
    case AppendSignalled => call.Some? && call.value.Append?
    case _ => call == Some(Remove)
  }

  /** The queues hold sleepers only, and thread `t`, which takes a step, is on neither. */
  lemma HeadsSleep<Item>(s: State<Item>, t: Tid)
    requires Inv(s)
    ensures s.waiters != [] ==> PcOf(s, s.waiters[0]).CondAsleep?
    ensures s.lock.sem.queue != [] ==> PcOf(s, s.lock.sem.queue[0]).LockAsleep?
    ensures Booked(s, t)
  {
    assert Booked(s, t);
    if s.waiters != [] {
      assert s.waiters[0] in s.waiters && Booked(s, s.waiters[0]);
    }
    if s.lock.sem.queue != [] {
      assert s.lock.sem.queue[0] in s.lock.sem.queue && Booked(s, s.lock.sem.queue[0]);
    }
  }

  /** All a step does to another thread is to wake it. */
  lemma OthersAreWoken<Item>(s: State<Item>, t: Tid, call: Call<Item>, u: Tid)
    requires Inv(s) && t != u
    ensures var pc, pc' := PcOf(s, u), PcOf(Step(s, t, call), u);
      pc' == pc || (pc.LockAsleep? && pc' == LockWoken(pc.op)) || (pc.CondAsleep? && pc' == CondWoken)
  {
    HeadsSleep(s, t);
  }

  lemma OwnStepStaysInCall<Item>(s: State<Item>, t: Tid, call: Call<Item>, mine: Option<Call<Item>>)
    requires Inv(s) && IsIn(PcOf(s, t), mine)
    ensures IsIn(PcOf(Step(s, t, call), t), if PcOf(s, t).Outside? then Some(call) else mine)
  {
    HeadsSleep(s, t);
  }

  lemma StepStaysInCall<Item>(s: State<Item>, t: Tid, call: Call<Item>, u: Tid, mine: Option<Call<Item>>)
    requires Inv(s) && IsIn(PcOf(s, u), mine)
    ensures IsIn(PcOf(Step(s, t, call), u), if t == u && PcOf(s, t).Outside? then Some(call) else mine)
  {
    if t == u {
      OwnStepStaysInCall(s, t, call, mine);
    } else {
      OthersAreWoken(s, t, call, u);
    }
  }

  lemma {:induction false} RunStaysInCall<Item>(schedule: seq<(Tid, Call<Item>)>, u: Tid)
    ensures IsIn(PcOf(Run(schedule), u), CallOf(schedule, u))
  {
    if schedule != [] {
      var before, last := schedule[..|schedule| - 1], schedule[|schedule| - 1];
      RunStaysInCall(before, u);
      RunKeepsInv(before);
      StepStaysInCall(Run(before), last.0, last.1, u, CallOf(before, u));
    }
  }

  /** What one step does to the list: an Append past the lock adds its item, a Remove that returns has taken the first. */
  lemma StepMovesItems<Item>(s: State<Item>, t: Tid, call: Call<Item>, mine: Option<Call<Item>>)
    requires Inv(s) && IsIn(PcOf(s, t), mine)
    ensures var s', pc := Step(s, t, call), PcOf(s, t);
      var added := if pc.GotSem? && mine.Some? && mine.value.Append? then [mine.value.item] else [];
      var leaves := !pc.Outside? && PcOf(s', t).Outside? && mine == Some(Remove);
      && s'.removed + s'.list == s.removed + s.list + added
      && |s'.removed| == |s.removed| + (if leaves then 1 else 0)
  {
    HeadsSleep(s, t);
    match PcOf(s, t)
    case GotSem(Append(item)) =>
      assert s.removed + (s.list + [item]) == s.removed + s.list + [item];
    case GotSem(Remove) => TakingMovesOne(s.(lock := SetOwner(s.lock, t)), t);
    case WaitDone => TakingMovesOne(s, t);
    case _ => ListStays(s, t, call);
  }

  lemma TakingMovesOne<Item>(s: State<Item>, t: Tid)
    requires s.waiters != [] ==> s.waiters[0] != t
    requires s.lock.owner == Some(t) && t !in s.lock.sem.queue
    ensures var s' := TakeOrWait(s, t);
      && s'.removed + s'.list == s.removed + s.list
      && |s'.removed| == |s.removed| + (if PcOf(s', t).Outside? then 1 else 0)
  {
    if s.list != [] {
      assert s.removed + s.list == (s.removed + [s.list[0]]) + s.list[1..];
    }
  }

  lemma ListStays<Item>(s: State<Item>, t: Tid, call: Call<Item>)
    requires !PcOf(s, t).GotSem? && !PcOf(s, t).WaitDone?
    ensures Step(s, t, call).list == s.list && Step(s, t, call).removed == s.removed
    ensures !PcOf(s, t).Outside? && PcOf(Step(s, t, call), t).Outside? ==> PcOf(s, t).AppendSignalled?
  {
  }

  /**
   First in, first out, by the calls made: the list holds the items of the Appends past the lock less
   as many from the front as Removes have returned, and those are what the Removes took, in order.
   */
  lemma {:induction false} ListIsAppendsLessRemovals<Item>(schedule: seq<(Tid, Call<Item>)>)
    ensures var s, n := Run(schedule), Removals(schedule);
      n <= |Appends(schedule)| && s.list == Appends(schedule)[n..] && s.removed == Appends(schedule)[..n]
  {
    MovedItems(schedule);
    var s := Run(schedule);
    assert (s.removed + s.list)[|s.removed|..] == s.list;
    assert (s.removed + s.list)[..|s.removed|] == s.removed;
  }

  lemma {:induction false} MovedItems<Item>(schedule: seq<(Tid, Call<Item>)>)
    ensures var s := Run(schedule); s.removed + s.list == Appends(schedule) && |s.removed| == Removals(schedule)
  {
    if schedule != [] {
      var before, last := schedule[..|schedule| - 1], schedule[|schedule| - 1];
      MovedItems(before);
      RunStaysInCall(before, last.0);
      RunKeepsInv(before);
      StepMovesItems(Run(before), last.0, last.1, CallOf(before, last.0));
    }
  }

  predicate Runnable<Item>(pc: Pc<Item>) {
    !pc.LockAsleep? && !pc.CondAsleep?
  }

  /** Every step of a thread that is awake takes it somewhere else. */
  lemma {:induction false} AwakeMoves<Item>(schedule: seq<(Tid, Call<Item>)>, t: Tid, call: Call<Item>)
    requires Runnable(PcOf(Run(schedule), t))
    ensures PcOf(Step(Run(schedule), t, call), t) != PcOf(Run(schedule), t)
  {
    RunKeepsInv(schedule);
    var s := Run(schedule);
    HeadsSleep(s, t);
  }

  // ---------------------------------------------------------------- safety

  /** While a thread sleeps on the condition, every item on the list has a signalled thread coming for it. */
  lemma {:induction false} NoLostWakeup<Item>(schedule: seq<(Tid, Call<Item>)>, t: Tid)
    ensures var s := Run(schedule);
      PcOf(s, t).CondAsleep? ==>
        && |s.list| <= |s.signalled|
        && forall u :: u in s.signalled ==> OnItsWay(PcOf(s, u))
  {
    RunKeepsInv(schedule);
    var s := Run(schedule);
    assert Booked(s, t);
    forall u | u in s.signalled ensures OnItsWay(PcOf(s, u)) {
      assert Booked(s, u);
    }
  }

  /** One thread at a time is between the P() and the V() of the lock. */
  lemma MutualExclusion<Item>(schedule: seq<(Tid, Call<Item>)>, t: Tid, u: Tid)
    ensures var s := Run(schedule); Holding(PcOf(s, t)) && Holding(PcOf(s, u)) ==> t == u
  {
    RunKeepsInv(schedule);
    assert Booked(Run(schedule), t) && Booked(Run(schedule), u);
  }

  /** No thread that is awake is inside a call. */
  ghost predicate Quiet<Item>(s: State<Item>) {
    forall t: Tid :: PcOf(s, t).Outside? || PcOf(s, t).LockAsleep? || PcOf(s, t).CondAsleep?
  }

  /**
   When nothing is left to run, the lock is free, nobody sleeps on it, and whoever is still
   inside a call is a Remove facing an empty list.
   */
  lemma QuietMeansEmpty<Item>(schedule: seq<(Tid, Call<Item>)>, t: Tid)
    requires Quiet(Run(schedule))
    ensures var s := Run(schedule);
      && s.lock.holder.None? && s.lock.sem.value == 1 && s.lock.sem.queue == []
      && (PcOf(s, t).Outside? || (PcOf(s, t).CondAsleep? && s.list == []))
  {
    RunKeepsInv(schedule);
    var s := Run(schedule);
    forall h: Option<Tid> | h.Some? ensures h != s.lock.holder {
      assert Booked(s, h.value);
    }
    assert s.lock.holder.None?;
    forall u: Tid ensures u !in s.lock.sem.woken {
      assert Booked(s, u);
    }
    assert s.lock.sem.woken == {} && s.lock.sem.queue == [];
    forall u: Tid ensures u !in s.signalled {
      assert Booked(s, u);
    }
    assert s.signalled == {};
    assert Booked(s, t);
  }

  // ---------------------------------------------------------------- the list updated in place

  /** The fields of the C++ class and of its lock and condition, with the threads' program points. */
  class SynchronizedList<Item> {
    var list: seq<Item>
    var lock: Lock
    var listEmpty: seq<Tid>
    var pc: map<Tid, Pc<Item>>
    ghost var signalled: set<Tid>
    ghost var appended: seq<Item>
    ghost var removed: seq<Item>

    ghost function View(): State<Item>
      reads this
    {
      State(list, lock, listEmpty, pc, signalled, appended, removed)
    }

    constructor ()
      ensures View() == Init()
    {
      list, lock, listEmpty, pc := [], FREE_LOCK, [], map[];
      signalled, appended, removed := {}, [], [];
    }

    function PcOfThread(t: Tid): (p: Pc<Item>)
      reads this
      ensures p == PcOf(View(), t)
    {
      if t in pc then pc[t] else Outside
    }

    method TestTheLock(t: Tid, op: Op<Item>)
      modifies this
      ensures View() == TestLock(old(View()), t, op)
    {
      var available := lock.sem.value != 0;
      lock := AcquireTest(lock, t);
      if !available {
        pc := pc[t := LockAsleep(op)];
      } else {
        match op
        case Enter(call) => pc := pc[t := GotSem(call)];
        case Rewait =>
          lock := SetOwner(lock, t);
          pc := pc[t := WaitDone];
      }
    }

    method ReleaseTheLock(t: Tid, next: Pc<Item>)
      modifies this
      ensures View() == ReleaseTo(old(View()), t, next)
    {
      var queue := lock.sem.queue;
      if queue != [] && PcOfThread(queue[0]).LockAsleep? {
        pc := pc[queue[0] := LockWoken(PcOfThread(queue[0]).op)];
      }
      lock := Release(lock);
      pc := pc[t := next];
    }

    method SignalListEmpty(t: Tid)
      modifies this
      ensures View() == Signal(old(View()), t)
      ensures lock.owner == Some(t) && old(listEmpty) != [] ==>
                listEmpty == old(listEmpty)[1..] && PcOfThread(old(listEmpty)[0]) == CondWoken
      ensures lock.owner != Some(t) || old(listEmpty) == [] ==> listEmpty == old(listEmpty)
    {
      if lock.owner == Some(t) && listEmpty != [] {
        pc := pc[listEmpty[0] := CondWoken];
        signalled := signalled + {listEmpty[0]};
        listEmpty := listEmpty[1..];
      }
    }

    /** One trip of the loop in Remove; the item is returned when the call is over. */
    method TakeOrWaitForItem(t: Tid) returns (item: Option<Item>)
      modifies this
      ensures View() == TakeOrWait(old(View()), t)
      ensures item == if old(list) == [] then None else Some(old(list)[0])
      ensures listEmpty == old(listEmpty) + if old(list) == [] && old(lock).owner == Some(t) then [t] else []
    {
      item := None;
      signalled := signalled - {t};
      if list != [] {
        item := Some(list[0]);
        removed := removed + [list[0]];
        list := list[1..];
        ReleaseTheLock(t, Outside);
      } else if lock.owner == Some(t) {
        ReleaseTheLock(t, CondAsleep);
        listEmpty := listEmpty + [t];
      }
    }

    /** Thread `t` runs from its switch point to the next; a Remove that returns yields its item. */
    method Resume(t: Tid, call: Call<Item>) returns (item: Option<Item>)
      modifies this
      ensures View() == Step(old(View()), t, call)
      ensures item.Some? ==> removed == old(removed) + [item.value]
      ensures item.None? ==> removed == old(removed)
      ensures item.Some? <==> (old(PcOfThread(t)) == GotSem(Remove) || old(PcOfThread(t)).WaitDone?) && old(list) != []
      ensures item.Some? ==> old(list) == [item.value] + list
      ensures item.None? ==>
                list == old(list) + match old(PcOfThread(t)) case GotSem(Append(x)) => [x] case _ => []
    {
      item := None;
      match PcOfThread(t)
      case Outside => TestTheLock(t, Enter(call));
      case LockWoken(op) => TestTheLock(t, op);
      case CondWoken => TestTheLock(t, Rewait);
      case GotSem(Append(x)) =>
        lock := SetOwner(lock, t);
        list := list + [x];
        appended := appended + [x];
        SignalListEmpty(t);
        pc := pc[t := AppendSignalled];
      case AppendSignalled => ReleaseTheLock(t, Outside);
      case GotSem(Remove) =>
        lock := SetOwner(lock, t);
        item := TakeOrWaitForItem(t);
      case WaitDone => item := TakeOrWaitForItem(t);
      case _ =>
    }
  }
}
