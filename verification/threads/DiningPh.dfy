/**
 The dining-philosophers monitor (threads/diningph.cc): five threads that call
 pickup(who) and putdown(who) in turn, over one lock and five condition variables.

 A step runs one thread from where it last was switched out to the next switch point.
 Any thread that is not asleep may take the next step, so the runs below include every
 interleaving the scheduler and the time slicer can produce.
 */
module DiningPh {
  import opened Options
  import opened Synch

  datatype Phil = Thinking | Hungry | Eating

  /** Why a thread tests the lock: to enter pickup, to enter putdown, or inside Condition::Wait. */
  datatype Op = Pickup | Putdown | Rewait

  /** Where a thread was switched out; `Inside` is the only one that is not a switch point. */
  datatype Pc =
    | Outside             // about to call pickup
    | Returned            // pickup has returned; about to call putdown
    | LockAsleep(op: Op)  // on the lock's queue
    | LockWoken(op: Op)   // taken off it, about to test again
    | GotSem(op: Op)      // P() completed; `owner` not yet set
    | Inside              // running with the lock held and `owner` set
    | Signalled           // in pickup, after the Signal of test(who)
    | SignalledLeft       // in putdown, after the Signal of test(who + 4)
    | SignalledRight      // in putdown, after the Signal of test(who + 1)
    | CondAsleep          // in Wait, on the queue of self[who]
    | CondWoken           // in Wait, signalled
    | WaitDone            // Wait has re-acquired the lock

  datatype Monitor = Monitor(lock: Lock, state: seq<Phil>, cond: seq<seq<Tid>>, pc: seq<Pc>)

  type Table = s: Monitor | |s.state| == |s.cond| == |s.pc| == 5
    witness Monitor(FREE_LOCK, seq(5, _ => Thinking), seq(5, _ => []), seq(5, _ => Outside))

  type Who = t: Tid | t < 5

  function Left(i: Who): Who { (i + 4) % 5 }

  function Right(i: Who): Who { (i + 1) % 5 }

  function Init(): (s: Table)
    ensures Inv(s)
  {
    Monitor(FREE_LOCK, seq(5, _ => Thinking), seq(5, _ => []), seq(5, _ => Outside))
  }

  // ---------------------------------------------------------------- the pieces of a step

  function At(s: Table, t: Who, pc: Pc): Table {
    s.(pc := s.pc[t := pc])
  }

  function TestLock(s: Table, t: Who, op: Op): Table {
    var l := AcquireTest(s.lock, t);
    if s.lock.sem.value == 0 then At(s.(lock := l), t, LockAsleep(op))
    else if op == Rewait then At(s.(lock := SetOwner(l, t)), t, WaitDone)
    else At(s.(lock := l), t, GotSem(op))
  }

  /** ReadyToRun on the head of the lock's queue. */
  function WakeLocked(pc: seq<Pc>, q: seq<Tid>): (r: seq<Pc>)
    ensures |r| == |pc|
  {
    if q != [] && q[0] < |pc| && pc[q[0]].LockAsleep? then pc[q[0] := LockWoken(pc[q[0]].op)] else pc
  }

  /** Lock::Release by thread `t`, which goes on at `next`. */
  function ReleaseTo(s: Table, t: Who, next: Pc): Table {
    At(s.(lock := Release(s.lock), pc := WakeLocked(s.pc, s.lock.sem.queue)), t, next)
  }

  /** Condition::Signal on self[i] by thread `t`. */
  function Signal(s: Table, t: Who, i: Who): Table {
    if s.lock.owner != Some(t) || s.cond[i] == [] then s
    else
      var woken := s.cond[i][0];
      s.(cond := s.cond[i := s.cond[i][1..]],
         pc := if woken < 5 then s.pc[woken := CondWoken] else s.pc)
  }

  /** The condition of test(i). */
  predicate CanEat(s: Table, i: Who) {
    s.state[Left(i)] != Eating && s.state[i] == Hungry && s.state[Right(i)] != Eating
  }

  /** test(i) by thread `t` when its condition holds, up to the switch point inside Signal. */
  function Feed(s: Table, t: Who, i: Who, here: Pc): Table {
    At(Signal(s.(state := s.state[i := Eating]), t, i), t, here)
  }

  /** The tail of pickup: wait if still Hungry, otherwise release and return. */
  function WaitOrReturn(s: Table, t: Who): Table {
    if s.state[t] == Hungry && s.lock.owner == Some(t) then
      var s' := ReleaseTo(s, t, CondAsleep);
      s'.(cond := s'.cond[t := s'.cond[t] + [t]])
    else
      ReleaseTo(s, t, Returned)
  }

  function TestRight(s: Table, t: Who): Table {
    if CanEat(s, Right(t)) then Feed(s, t, Right(t), SignalledRight)
    else ReleaseTo(s, t, Outside)
  }

  /** P() has completed: set `owner` and the philosopher's own state. */
  function Enter(s: Table, t: Who, mine: Phil): Table {
    At(s.(lock := SetOwner(s.lock, t), state := s.state[t := mine]), t, Inside)
  }

  /** The step of thread `t`, from its switch point to the next one; a thread asleep has none. */
  function Step(s: Table, t: Who): Table {
    match s.pc[t]
    case Outside => TestLock(s, t, Pickup)
    case Returned => TestLock(s, t, Putdown)
    case CondWoken => TestLock(s, t, Rewait)
    case LockWoken(op) => TestLock(s, t, op)
    case GotSem(Pickup) =>
      var s1 := Enter(s, t, Hungry);
      if CanEat(s1, t) then Feed(s1, t, t, Signalled) else WaitOrReturn(s1, t)
    case Signalled => WaitOrReturn(s, t)
    case GotSem(_) =>
      var s1 := Enter(s, t, Thinking);
      if CanEat(s1, Left(t)) then Feed(s1, t, Left(t), SignalledLeft) else TestRight(s1, t)
    case SignalledLeft => TestRight(s, t)
    case SignalledRight => ReleaseTo(s, t, Outside)
    case WaitDone => ReleaseTo(s, t, Returned)
    case _ => s
  }

  predicate Runnable(pc: Pc) {
    !pc.LockAsleep? && !pc.CondAsleep?
  }

  /** The table after the threads named in `schedule` have run, in that order. */
  function Run(schedule: seq<Who>): Table {
    if schedule == [] then Init()
    else Step(Run(schedule[..|schedule| - 1]), schedule[|schedule| - 1])
  }

  // ---------------------------------------------------------------- the invariant

  predicate Owning(pc: Pc) {
    pc.Inside? || pc.Signalled? || pc.SignalledLeft? || pc.SignalledRight? || pc.WaitDone?
  }

  predicate Holding(pc: Pc) {
    pc.GotSem? || Owning(pc)
  }

  /** The state of a philosopher at each switch point of its program. */
  function StateAt(pc: Pc): Phil {
    match pc
    case Outside => Thinking
    case LockAsleep(Pickup) => Thinking
    case LockWoken(Pickup) => Thinking
    case GotSem(Pickup) => Thinking
    case SignalledLeft => Thinking
    case SignalledRight => Thinking
    case CondAsleep => Hungry
    case _ => Eating
  }

  /** The books kept on thread `t` by the lock and the conditions agree with its program point. */
  ghost predicate Booked(s: Table, t: Who) {
    && (t in s.lock.sem.queue <==> s.pc[t].LockAsleep?)
    && (t in s.lock.sem.woken <==> s.pc[t].LockWoken?)
    && (s.lock.holder == Some(t) <==> Holding(s.pc[t]))
    && (s.lock.owner == Some(t) <==> Owning(s.pc[t]))
    && s.cond[t] == (if s.pc[t].CondAsleep? then [t] else [])
    && s.pc[t] != GotSem(Rewait)
  }

  ghost predicate Places(s: Table) {
    && LockInv(s.lock)
    && (forall t :: t in s.lock.sem.queue ==> t < 5)
    && (forall t :: t in s.lock.sem.woken ==> t < 5)
    && (s.lock.holder.Some? ==> s.lock.holder.value < 5)
    && (forall t: Who :: Booked(s, t))
  }

  ghost predicate NoNeighboursEat(s: Table) {
    forall i: Who :: s.state[i] == Eating ==> s.state[Right(i)] != Eating
  }

  ghost predicate StatesAgree(s: Table) {
    forall t: Who :: s.pc[t] != Inside && s.state[t] == StateAt(s.pc[t])
  }

  /** The philosopher a thread in the middle of putdown has yet to test. */
  ghost function Untested(s: Table): set<Tid> {
    if s.lock.holder.Some? && s.lock.holder.value < 5 && s.pc[s.lock.holder.value] == SignalledLeft
    then {Right(s.lock.holder.value)}
    else {}
  }

  /** Every Hungry philosopher outside `but` has an Eating neighbour. */
  ghost predicate BlockedBut(s: Table, but: set<Tid>) {
    forall i: Who :: s.state[i] == Hungry && i !in but ==> s.state[Left(i)] == Eating || s.state[Right(i)] == Eating
  }

  ghost predicate Meal(s: Table, but: set<Tid>) {
    NoNeighboursEat(s) && BlockedBut(s, but)
  }

  ghost predicate Inv(s: Table) {
    Places(s) && StatesAgree(s) && Meal(s, Untested(s))
  }

  lemma SubQueue(q: seq<Tid>)
    ensures q != [] ==> q[0] in q && forall t :: t in q[1..] ==> t in q
  {
  }

  lemma TestLockKeepsPlaces(s: Table, t: Who, op: Op)
    requires Places(s)
    requires s.pc[t] == LockWoken(op) || s.pc[t] == (match op case Pickup => Outside case Putdown => Returned case Rewait => CondWoken)
    ensures Places(TestLock(s, t, op))
  {
    assert Booked(s, t);
    AcquireTestKeepsInv(s.lock, t);
    var s' := TestLock(s, t, op);
    forall u: Who ensures Booked(s', u) {
      assert Booked(s, u);
    }
  }

  lemma ReleaseKeepsPlaces(s: Table, t: Who, next: Pc)
    requires Places(s) && Owning(s.pc[t])
    requires next.Outside? || next.Returned?
    ensures Places(ReleaseTo(s, t, next))
  {
    assert Booked(s, t);
    ReleaseKeepsInvIff(s.lock);
    var s' := ReleaseTo(s, t, next);
    SubQueue(s.lock.sem.queue);
    forall u: Who ensures Booked(s', u) {
      assert Booked(s, u) && Booked(s, t);
    }
  }

  lemma EnterKeepsPlaces(s: Table, t: Who, mine: Phil)
    requires Places(s) && s.pc[t].GotSem?
    ensures Places(Enter(s, t, mine))
  {
    assert Booked(s, t);
    var s' := Enter(s, t, mine);
    forall u: Who ensures Booked(s', u) {
      assert Booked(s, u) && Booked(s, t);
    }
  }

  lemma FeedKeepsPlaces(s: Table, t: Who, i: Who, here: Pc)
    requires Places(s) && Owning(s.pc[t]) && Owning(here)
    ensures Places(Feed(s, t, i, here))
  {
    var s' := Feed(s, t, i, here);
    forall u: Who ensures Booked(s', u) {
      assert Booked(s, u) && Booked(s, t) && Booked(s, i);
    }
  }

  lemma WaitKeepsPlaces(s: Table, t: Who)
    requires Places(s) && Owning(s.pc[t])
    ensures Places(WaitOrReturn(s, t))
  {
    if s.state[t] == Hungry && s.lock.owner == Some(t) {
      assert Booked(s, t);
      ReleaseKeepsInvIff(s.lock);
      SubQueue(s.lock.sem.queue);
      var s' := WaitOrReturn(s, t);
      forall u: Who ensures Booked(s', u) {
        assert Booked(s, u) && Booked(s, t);
      }
    } else {
      ReleaseKeepsPlaces(s, t, Returned);
    }
  }

  lemma StepKeepsPlaces(s: Table, t: Who)
    requires Places(s)
    ensures Places(Step(s, t))
  {
    assert Booked(s, t);
    match s.pc[t]
    case Outside => TestLockKeepsPlaces(s, t, Pickup);
    case Returned => TestLockKeepsPlaces(s, t, Putdown);
    case CondWoken => TestLockKeepsPlaces(s, t, Rewait);
    case LockWoken(op) => TestLockKeepsPlaces(s, t, op);
    case GotSem(Pickup) =>
      var s1 := Enter(s, t, Hungry);
      EnterKeepsPlaces(s, t, Hungry);
      if CanEat(s1, t) { FeedKeepsPlaces(s1, t, t, Signalled); } else { WaitKeepsPlaces(s1, t); }
    case Signalled => WaitKeepsPlaces(s, t);
    case GotSem(_) =>
      var s1 := Enter(s, t, Thinking);
      EnterKeepsPlaces(s, t, Thinking);
      if CanEat(s1, Left(t)) { FeedKeepsPlaces(s1, t, Left(t), SignalledLeft); } else { TestRightKeepsPlaces(s1, t); }
    case SignalledLeft => TestRightKeepsPlaces(s, t);
    case SignalledRight => ReleaseKeepsPlaces(s, t, Outside);
    case WaitDone => ReleaseKeepsPlaces(s, t, Returned);
    case _ =>
  }

  lemma TestRightKeepsPlaces(s: Table, t: Who)
    requires Places(s) && Owning(s.pc[t])
    ensures Places(TestRight(s, t))
  {
    if CanEat(s, Right(t)) { FeedKeepsPlaces(s, t, Right(t), SignalledRight); } else { ReleaseKeepsPlaces(s, t, Outside); }
  }

  ghost predicate OthersAgree(s: Table, t: Who) {
    forall u: Who :: u != t ==> s.pc[u] != Inside && s.state[u] == StateAt(s.pc[u])
  }

  lemma ReleaseKeepsStates(s: Table, t: Who, next: Pc)
    requires Places(s) && Owning(s.pc[t]) && OthersAgree(s, t)
    requires next != Inside && s.state[t] == StateAt(next)
    ensures StatesAgree(ReleaseTo(s, t, next))
  {
  }

  /** Whoever test() lets eat was asleep on its own condition, so the Signal reaches it. */
  lemma FeedKeepsStates(s: Table, t: Who, i: Who, here: Pc)
    requires Places(s) && Owning(s.pc[t]) && OthersAgree(s, t) && CanEat(s, i)
    requires here != Inside && (if i == t then Eating else s.state[t]) == StateAt(here)
    ensures StatesAgree(Feed(s, t, i, here))
  {
    assert Booked(s, t) && Booked(s, i);
    if i != t {
      assert s.pc[i] == CondAsleep;
    }
  }

  lemma TestRightKeepsStates(s: Table, t: Who)
    requires Places(s) && Owning(s.pc[t]) && OthersAgree(s, t) && s.state[t] == Thinking
    ensures StatesAgree(TestRight(s, t))
  {
    if CanEat(s, Right(t)) {
      FeedKeepsStates(s, t, Right(t), SignalledRight);
    } else {
      ReleaseKeepsStates(s, t, Outside);
    }
  }

  lemma WaitKeepsStates(s: Table, t: Who)
    requires Places(s) && Owning(s.pc[t]) && OthersAgree(s, t)
    requires s.state[t] != Thinking
    ensures StatesAgree(WaitOrReturn(s, t))
  {
    assert Booked(s, t);
    if s.state[t] != Hungry {
      ReleaseKeepsStates(s, t, Returned);
    }
  }

  lemma StepKeepsStates(s: Table, t: Who)
    requires Places(s) && StatesAgree(s)
    ensures StatesAgree(Step(s, t))
  {
    assert Booked(s, t);
    match s.pc[t]
    case GotSem(Pickup) => PickupKeepsStates(s, t);
    case GotSem(_) => PutdownKeepsStates(s, t);
    case Signalled => WaitKeepsStates(s, t);
    case SignalledLeft => TestRightKeepsStates(s, t);
    case SignalledRight => ReleaseKeepsStates(s, t, Outside);
    case WaitDone => ReleaseKeepsStates(s, t, Returned);
    case _ =>
  }

  lemma PickupKeepsStates(s: Table, t: Who)
    requires Places(s) && StatesAgree(s) && s.pc[t] == GotSem(Pickup)
    ensures StatesAgree(Step(s, t))
  {
    assert Booked(s, t);
    var s1 := Enter(s, t, Hungry);
    EnterKeepsPlaces(s, t, Hungry);
    if CanEat(s1, t) {
      FeedKeepsStates(s1, t, t, Signalled);
    } else {
      WaitKeepsStates(s1, t);
    }
  }

  lemma PutdownKeepsStates(s: Table, t: Who)
    requires Places(s) && StatesAgree(s) && s.pc[t] == GotSem(Putdown)
    ensures StatesAgree(Step(s, t))
  {
    assert Booked(s, t);
    var s1 := Enter(s, t, Thinking);
    EnterKeepsPlaces(s, t, Thinking);
    if CanEat(s1, Left(t)) {
      FeedKeepsStates(s1, t, Left(t), SignalledLeft);
    } else {
      TestRightKeepsStates(s1, t);
    }
  }

  lemma LeftRight(i: Who)
    ensures Left(Right(i)) == i == Right(Left(i)) && Left(i) != i && Right(i) != i && Left(i) != Right(i)
  {
  }

  lemma FeedKeepsMeal(s: Table, t: Who, i: Who, here: Pc, but: set<Tid>)
    requires Meal(s, but) && CanEat(s, i)
    ensures Meal(Feed(s, t, i, here), but - {i})
  {
    var s' := Feed(s, t, i, here);
    LeftRight(i);
    assert s'.state == s.state[i := Eating];
    forall j: Who ensures s'.state[j] == Eating ==> s'.state[Right(j)] != Eating {
      LeftRight(j);
    }
  }

  lemma EnterHungryMeal(s: Table, t: Who)
    requires Meal(s, {}) && s.state[t] == Thinking
    ensures Meal(Enter(s, t, Hungry), {t})
  {
  }

  lemma EnterMeal(s: Table, t: Who)
    requires Meal(s, {})
    ensures Meal(Enter(s, t, Thinking), {t, Left(t), Right(t)})
  {
    forall j: Who | Enter(s, t, Thinking).state[j] == Hungry && j !in {t, Left(t), Right(t)}
      ensures s.state[j] == Hungry && Left(j) != t && Right(j) != t
    {
      LeftRight(j);
    }
  }

  lemma NotFed(s: Table, i: Who, but: set<Tid>)
    requires Meal(s, but) && !CanEat(s, i)
    ensures Meal(s, but - {i})
  {
  }

  lemma TestRightKeepsMeal(s: Table, t: Who)
    requires Meal(s, {Right(t)})
    ensures Meal(TestRight(s, t), {})
  {
    if CanEat(s, Right(t)) {
      FeedKeepsMeal(s, t, Right(t), SignalledRight, {Right(t)});
    } else {
      NotFed(s, Right(t), {Right(t)});
    }
    assert {Right(t)} - {Right(t)} == {};
  }

  lemma PutdownKeepsMeal(s: Table, t: Who)
    requires Meal(s, {t, Left(t), Right(t)}) && s.state[t] == Thinking
    ensures CanEat(s, Left(t)) ==> Meal(Feed(s, t, Left(t), SignalledLeft), {Right(t)})
    ensures !CanEat(s, Left(t)) ==> Meal(TestRight(s, t), {})
  {
    assert Meal(s, {Left(t), Right(t)});
    LeftRight(t);
    assert {Left(t), Right(t)} - {Left(t)} == {Right(t)};
    if CanEat(s, Left(t)) {
      FeedKeepsMeal(s, t, Left(t), SignalledLeft, {Left(t), Right(t)});
    } else {
      NotFed(s, Left(t), {Left(t), Right(t)});
      TestRightKeepsMeal(s, t);
    }
  }

  /** Once a thread has made a step with the lock held, it alone can be in the middle of putdown. */
  lemma UntestedAfter(s: Table, t: Who)
    requires Places(s) && (s.lock.holder.None? || s.lock.holder == Some(t))
    ensures Untested(s) == if s.pc[t] == SignalledLeft then {Right(t)} else {}
  {
    assert Booked(s, t);
  }

  lemma PickupKeepsMeal(s: Table, t: Who)
    requires Inv(s) && s.pc[t] == GotSem(Pickup)
    ensures Meal(Step(s, t), Untested(Step(s, t)))
  {
    assert Booked(s, t);
    var s1 := Enter(s, t, Hungry);
    EnterHungryMeal(s, t);
    if CanEat(s1, t) { FeedKeepsMeal(s1, t, t, Signalled, {t}); } else { NotFed(s1, t, {t}); }
    assert {t} - {t} == {};
    StepKeepsPlaces(s, t);
    UntestedAfter(Step(s, t), t);
  }

  lemma PutdownStepKeepsMeal(s: Table, t: Who)
    requires Inv(s) && s.pc[t] == GotSem(Putdown)
    ensures Meal(Step(s, t), Untested(Step(s, t)))
  {
    assert Booked(s, t);
    EnterMeal(s, t);
    PutdownKeepsMeal(Enter(s, t, Thinking), t);
    StepKeepsPlaces(s, t);
    UntestedAfter(Step(s, t), t);
  }

  lemma SecondTestKeepsMeal(s: Table, t: Who)
    requires Inv(s) && s.pc[t] == SignalledLeft
    ensures Meal(Step(s, t), Untested(Step(s, t)))
  {
    assert Booked(s, t);
    UntestedAfter(s, t);
    TestRightKeepsMeal(s, t);
    StepKeepsPlaces(s, t);
    UntestedAfter(Step(s, t), t);
  }

  /** The other steps change no philosopher's state, and no thread enters or leaves the middle of putdown. */
  lemma OtherStepKeepsMeal(s: Table, t: Who)
    requires Inv(s) && s.pc[t] !in {GotSem(Pickup), GotSem(Putdown), SignalledLeft}
    ensures Meal(Step(s, t), Untested(Step(s, t)))
  {
    assert Booked(s, t);
    OtherStepSameStates(s, t);
    OtherStepSameUntested(s, t);
  }

  lemma OtherStepSameStates(s: Table, t: Who)
    requires Inv(s) && s.pc[t] !in {GotSem(Pickup), GotSem(Putdown), SignalledLeft}
    ensures Step(s, t).state == s.state
  {
    assert Booked(s, t);
  }

  lemma OtherStepSameUntested(s: Table, t: Who)
    requires Inv(s) && s.pc[t] !in {GotSem(Pickup), GotSem(Putdown), SignalledLeft}
    ensures Untested(Step(s, t)) == Untested(s)
  {
    assert Booked(s, t);
  }

  lemma StepKeepsMeal(s: Table, t: Who)
    requires Inv(s)
    ensures Meal(Step(s, t), Untested(Step(s, t)))
  {
    assert Booked(s, t);
    if s.pc[t] == GotSem(Pickup) {
      PickupKeepsMeal(s, t);
    } else if s.pc[t] == GotSem(Putdown) {
      PutdownStepKeepsMeal(s, t);
    } else if s.pc[t] == SignalledLeft {
      SecondTestKeepsMeal(s, t);
    } else {
      OtherStepKeepsMeal(s, t);
    }
  }

  lemma StepKeepsInv(s: Table, t: Who)
    requires Inv(s)
    ensures Inv(Step(s, t))
  {
    StepKeepsPlaces(s, t);
    StepKeepsStates(s, t);
    StepKeepsMeal(s, t);
  }

  // ---------------------------------------------------------------- every reachable table

  lemma {:induction false} RunKeepsInv(schedule: seq<Who>)
    ensures Inv(Run(schedule))
  {
    if schedule != [] {
      RunKeepsInv(schedule[..|schedule| - 1]);
      StepKeepsInv(Run(schedule[..|schedule| - 1]), schedule[|schedule| - 1]);
    }
  }

  /** No two neighbours ever eat together, whatever the schedule. */
  lemma {:induction false} NeighboursNeverEatTogether(schedule: seq<Who>, i: Who)
    ensures var s := Run(schedule); !(s.state[i] == Eating && s.state[Right(i)] == Eating)
  {
    RunKeepsInv(schedule);
  }

  /** pickup(who) returns only with who Eating, and who goes on Eating until its putdown enters the monitor. */
  lemma {:induction false} PickupReturnsEating(schedule: seq<Who>, i: Who)
    ensures var s := Run(schedule);
      s.pc[i] in {Returned, LockAsleep(Putdown), LockWoken(Putdown), GotSem(Putdown)} ==> s.state[i] == Eating
  {
    RunKeepsInv(schedule);
  }

  /** At most one thread is between the P() and the V() of the lock. */
  lemma MutualExclusion(schedule: seq<Who>, i: Who, j: Who)
    ensures var s := Run(schedule); Holding(s.pc[i]) && Holding(s.pc[j]) ==> i == j
  {
    RunKeepsInv(schedule);
    var s := Run(schedule);
    assert Booked(s, i) && Booked(s, j);
  }

  /** With the lock free, whoever is Hungry is asleep on its own condition beside an Eating neighbour. */
  lemma {:induction false} HungryMeansBlocked(schedule: seq<Who>, i: Who)
    ensures var s := Run(schedule);
      s.lock.sem.value != 0 && s.state[i] == Hungry ==>
        && s.pc[i] == CondAsleep && s.cond[i] == [i]
        && (s.state[Left(i)] == Eating || s.state[Right(i)] == Eating)
  {
    RunKeepsInv(schedule);
    var s := Run(schedule);
    assert Booked(s, i);
  }

  lemma RunnableMoves(s: Table, t: Who)
    requires Places(s) && (Runnable(s.pc[t]) || s.lock.holder == Some(t) || t in s.lock.sem.woken) && s.pc[t] != Inside
    ensures Runnable(s.pc[t]) && Step(s, t).pc[t] != s.pc[t]
  {
    assert Booked(s, t);
  }

  /** While thread `i` is in a call or eating, somebody who is can run. */
  lemma SomeoneRuns(s: Table, i: Who) returns (t: Who)
    requires Inv(s) && s.pc[i] != Outside
    ensures s.pc[t] != Outside && Runnable(s.pc[t]) && Step(s, t).pc[t] != s.pc[t]
  {
    assert Booked(s, i);
    if s.lock.holder.Some? {
      t := s.lock.holder.value;
      assert Booked(s, t);
    } else if s.lock.sem.queue != [] {
      FreeLockHasTaker(s.lock);
      t :| t in s.lock.sem.woken;
      assert Booked(s, t);
    } else if Runnable(s.pc[i]) {
      t := i;
    } else {
      t := if s.state[Left(i)] == Eating then Left(i) else Right(i);
      assert Booked(s, t);
    }
    RunnableMoves(s, t);
  }

  /**
   The table never deadlocks: while a philosopher is hungry, or in any call, some thread that is in a
   call or eating is awake and its step takes it somewhere else.  An idle one may always start.
   */
  lemma NeverDeadlocked(schedule: seq<Who>, i: Who)
    ensures var s := Run(schedule);
      s.state[i] == Hungry || s.pc[i] != Outside ==>
        exists t: Who :: s.pc[t] != Outside && Runnable(s.pc[t]) && Step(s, t).pc[t] != s.pc[t]
    ensures var s := Run(schedule); s.pc[i] == Outside ==> Runnable(s.pc[i]) && Step(s, i).pc[i] != Outside
  {
    RunKeepsInv(schedule);
    var s := Run(schedule);
    if s.pc[i] != Outside {
      var t := SomeoneRuns(s, i);
    } else {
      RunnableMoves(s, i);
    }
  }

  // ---------------------------------------------------------------- the monitor updated in place

  /** The monitor's fields as the C++ class has them, with the threads' program points beside them. */
  class DiningPhilosophers {
    var lock: Lock
    const state: array<Phil>
    const cond: array<seq<Tid>>
    const pc: array<Pc>

    ghost predicate Valid() {
      && state.Length == 5 && cond.Length == 5 && pc.Length == 5
      && state as object != cond && state as object != pc && cond as object != pc
    }

    ghost function View(): Table
      requires Valid()
      reads this, state, cond, pc
    {
      Monitor(lock, state[..], cond[..], pc[..])
    }

    constructor ()
      ensures Valid() && fresh(state) && fresh(cond) && fresh(pc)
      ensures View() == Init()
    {
      lock := FREE_LOCK;
      state := new Phil[5](_ => Thinking);
      cond := new seq<Tid>[5](_ => []);
      pc := new Pc[5](_ => Outside);
    }

    method TestTheLock(t: Who, op: Op)
      requires Valid()
      modifies this, pc
      ensures Valid() && View() == TestLock(old(View()), t, op)
    {
      var available := lock.sem.value != 0;
      lock := AcquireTest(lock, t);
      if !available {
        pc[t] := LockAsleep(op);
      } else if op == Rewait {
        lock := SetOwner(lock, t);
        pc[t] := WaitDone;
      } else {
        pc[t] := GotSem(op);
      }
    }

    method ReleaseTheLock(t: Who, next: Pc)
      requires Valid()
      modifies this, pc
      ensures Valid() && View() == ReleaseTo(old(View()), t, next)
    {
      var queue := lock.sem.queue;
      if queue != [] && queue[0] < 5 && pc[queue[0]].LockAsleep? {
        pc[queue[0]] := LockWoken(pc[queue[0]].op);
      }
      lock := Release(lock);
      pc[t] := next;
    }

    /** DiningPh::test(i) by thread `t`, which stops at `here` if there is a Signal to stop in. */
    method TestPhilosopher(t: Who, i: Who, here: Pc) returns (stopped: bool)
      requires Valid()
      modifies state, cond, pc
      ensures Valid() && lock == old(lock)
      ensures stopped == CanEat(old(View()), i)
      ensures View() == if stopped then Feed(old(View()), t, i, here) else old(View())
    {
      stopped := state[Left(i)] != Eating && state[i] == Hungry && state[Right(i)] != Eating;
      if stopped {
        state[i] := Eating;
        if lock.owner == Some(t) && cond[i] != [] {
          var woken := cond[i][0];
          cond[i] := cond[i][1..];
          if woken < 5 {
            pc[woken] := CondWoken;
          }
        }
        pc[t] := here;
      }
    }

    /** The tail of pickup. */
    method WaitIfHungry(t: Who)
      requires Valid()
      modifies this, cond, pc
      ensures Valid() && View() == WaitOrReturn(old(View()), t)
    {
      if state[t] == Hungry && lock.owner == Some(t) {
        ReleaseTheLock(t, CondAsleep);
        cond[t] := cond[t] + [t];
      } else {
        ReleaseTheLock(t, Returned);
      }
    }

    /** The tail of putdown. */
    method TestRightNeighbour(t: Who)
      requires Valid()
      modifies this, state, cond, pc
      ensures Valid() && View() == TestRight(old(View()), t)
    {
      var stopped := TestPhilosopher(t, Right(t), SignalledRight);
      if !stopped {
        ReleaseTheLock(t, Outside);
      }
    }

    /** Thread `t` runs from its switch point to the next. */
    method Resume(t: Who)
      requires Valid()
      modifies this, state, cond, pc
      ensures Valid() && View() == Step(old(View()), t)
    {
      match pc[t]
      case Outside => TestTheLock(t, Pickup);
      case Returned => TestTheLock(t, Putdown);
      case CondWoken => TestTheLock(t, Rewait);
      case LockWoken(op) => TestTheLock(t, op);
      case GotSem(Pickup) =>
        lock := SetOwner(lock, t);
        state[t] := Hungry;
        pc[t] := Inside;
        var stopped := TestPhilosopher(t, t, Signalled);
        if !stopped {
          WaitIfHungry(t);
        }
      case Signalled => WaitIfHungry(t);
      case GotSem(_) =>
        lock := SetOwner(lock, t);
        state[t] := Thinking;
        pc[t] := Inside;
        var stopped := TestPhilosopher(t, Left(t), SignalledLeft);
        if !stopped {
          TestRightNeighbour(t);
        }
      case SignalledLeft => TestRightNeighbour(t);
      case SignalledRight => ReleaseTheLock(t, Outside);
      case WaitDone => ReleaseTheLock(t, Returned);
      case _ =>
    }
  }
}
