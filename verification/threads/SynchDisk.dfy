/**
 The synchronous disk (filesys/synchdisk.cc) over the asynchronous one (machine/disk.cc): any
 number of threads in ReadSector or WriteSector, and the disk's completion interrupt, which may
 come at any time while a request is active.  Both calls have the same structure, so a call is
 identified by its thread alone.
 */
module SynchDisk {
  import opened Options
  import opened Synch

  datatype Pc =
    | Outside     // in no call
    | LockAsleep  // on the lock's queue
    | LockWoken   // taken off it, about to test again
    | GotSem      // P() on the lock completed; `owner` not yet set
    | SemAsleep   // request issued, asleep on the semaphore
    | SemWoken    // woken by the interrupt handler, about to test again
    | IoDone      // P() on the semaphore completed; the call is about to release and return

  /**
   `active` is the flag of the Disk.  Bookkeeping: the threads of the requests issued so far, the
   number of interrupts so far, each thread's latest request, and whether ASSERT(!active) ever failed.
   */
  datatype State = State(
    lock: Lock, sem: Sem, active: bool, pc: map<Tid, Pc>,
    issued: seq<Tid>, interrupts: nat, mine: map<Tid, nat>, asserted: bool)

  /** The scheduler runs a thread, or the disk interrupts. */
  datatype Event = Resume(t: Tid) | DiskInterrupt

  function PcOf(s: State, t: Tid): Pc {
    if t in s.pc then s.pc[t] else Outside
  }

  function At(s: State, t: Tid, pc: Pc): State {
    s.(pc := s.pc[t := pc])
  }

  function Init(): (s: State)
    ensures Inv(s)
  {
    State(FREE_LOCK, Sem(0, [], {}), false, map[], [], 0, map[], false)
  }

  function TestLock(s: State, t: Tid): State {
    At(s.(lock := AcquireTest(s.lock, t)), t, if s.lock.sem.value == 0 then LockAsleep else GotSem)
  }

  function TestSem(s: State, t: Tid): State {
    At(s.(sem := Test(s.sem, t)), t, if s.sem.value == 0 then SemAsleep else IoDone)
  }

  /** Disk::ReadRequest or WriteRequest. */
  function Request(s: State, t: Tid): State {
    s.(asserted := s.asserted || s.active, active := true, issued := s.issued + [t], mine := s.mine[t := |s.issued|])
  }

  function Step(s: State, t: Tid): State {
    match PcOf(s, t)
    case Outside => TestLock(s, t)
    case LockWoken => TestLock(s, t)
    case GotSem => TestSem(Request(s.(lock := SetOwner(s.lock, t)), t), t)
    case SemWoken => TestSem(s, t)
    case IoDone =>
      var q := s.lock.sem.queue;
      var s' := s.(lock := Release(s.lock));
      At(if q == [] then s' else At(s', q[0], LockWoken), t, Outside)
    case _ => s
  }

  /** Disk::HandleInterrupt: the request is over and the handler calls V(). */
  function Interrupt(s: State): State {
    var q := s.sem.queue;
    var s' := s.(active := false, interrupts := s.interrupts + 1, sem := Vee(s.sem));
    if q == [] then s' else At(s', q[0], SemWoken)
  }

  function Handle(s: State, e: Event): State {
    match e
    case Resume(t) => Step(s, t)
    case DiskInterrupt => if s.active then Interrupt(s) else s
  }

  function Run(events: seq<Event>): State {
    if events == [] then Init()
    else Handle(Run(events[..|events| - 1]), events[|events| - 1])
  }

  // ---------------------------------------------------------------- the invariant

  predicate Owning(pc: Pc) {
    pc.SemAsleep? || pc.SemWoken? || pc.IoDone?
  }

  predicate Holding(pc: Pc) {
    pc.GotSem? || Owning(pc)
  }

  ghost predicate Booked(s: State, t: Tid) {
    var pc := PcOf(s, t);
    && (t in s.lock.sem.queue <==> pc.LockAsleep?)
    && (t in s.lock.sem.woken <==> pc.LockWoken?)
    && (s.lock.holder == Some(t) <==> Holding(pc))
    && (s.lock.owner == Some(t) <==> Owning(pc))
    && (t in s.sem.queue <==> pc.SemAsleep?)
    && (t in s.sem.woken <==> pc.SemWoken?)
    && (t in s.mine ==> s.mine[t] < |s.issued| && s.issued[s.mine[t]] == t)
    && (Owning(pc) ==> t in s.mine && s.mine[t] == |s.issued| - 1)
  }

  /** The program point of the thread holding the lock, if any, fixes the state of the disk. */
  ghost predicate DiskAgrees(s: State) {
    var phase := if s.lock.holder.Some? then PcOf(s, s.lock.holder.value) else Outside;
    && s.active == phase.SemAsleep?
    && s.sem.value == (if phase.SemWoken? then 1 else 0)
    && s.interrupts + (if s.active then 1 else 0) == |s.issued|
  }

  ghost predicate Inv(s: State) {
    && LockInv(s.lock)
    && SemInv(s.sem)
    && (forall t: Tid :: Booked(s, t))
    && DiskAgrees(s)
    && !s.asserted
  }

  lemma TestLockKeepsInv(s: State, t: Tid)
    requires Inv(s) && (PcOf(s, t).Outside? || PcOf(s, t).LockWoken?)
    ensures Inv(TestLock(s, t))
  {
    assert Booked(s, t);
    AcquireTestKeepsInv(s.lock, t);
    forall u: Tid ensures Booked(TestLock(s, t), u) {
      assert Booked(s, u);
    }
  }

  lemma IssueKeepsInv(s: State, t: Tid)
    requires Inv(s) && PcOf(s, t).GotSem?
    ensures Inv(Step(s, t))
  {
    assert Booked(s, t);
    TestKeepsInv(s.sem, t);
    forall u: Tid ensures Booked(Step(s, t), u) {
      assert Booked(s, u);
    }
  }

  lemma RetestKeepsInv(s: State, t: Tid)
    requires Inv(s) && PcOf(s, t).SemWoken?
    ensures Inv(TestSem(s, t))
  {
    assert Booked(s, t);
    TestKeepsInv(s.sem, t);
    forall u: Tid ensures Booked(TestSem(s, t), u) {
      assert Booked(s, u);
    }
  }

  lemma ReleaseKeepsInv(s: State, t: Tid)
    requires Inv(s) && PcOf(s, t).IoDone?
    ensures Inv(Step(s, t))
  {
    assert Booked(s, t);
    ReleaseKeepsInvIff(s.lock);
    forall u: Tid ensures Booked(Step(s, t), u) {
      assert Booked(s, u);
    }
  }

  lemma StepKeepsInv(s: State, t: Tid)
    requires Inv(s)
    ensures Inv(Step(s, t))
  {
    match PcOf(s, t)
    case Outside | LockWoken => TestLockKeepsInv(s, t);
    case GotSem => IssueKeepsInv(s, t);
    case SemWoken => RetestKeepsInv(s, t);
    case IoDone => ReleaseKeepsInv(s, t);
    case _ =>
  }

  lemma InterruptKeepsInv(s: State)
    requires Inv(s) && s.active
    ensures Inv(Interrupt(s))
  {
    var h := s.lock.holder.value;
    assert Booked(s, h);
    VeeKeepsInv(s.sem);
    assert s.sem.queue[0] == h by {
      assert Booked(s, s.sem.queue[0]);
    }
    forall u: Tid ensures Booked(Interrupt(s), u) {
      assert Booked(s, u);
    }
  }

  // ---------------------------------------------------------------- every reachable state

  lemma {:induction false} RunKeepsInv(events: seq<Event>)
    ensures Inv(Run(events))
  {
    if events != [] {
      var before := Run(events[..|events| - 1]);
      RunKeepsInv(events[..|events| - 1]);
      match events[|events| - 1]
      case Resume(t) => StepKeepsInv(before, t);
      case DiskInterrupt => if before.active { InterruptKeepsInv(before); }
    }
  }

  /** ASSERT(!active) in ReadRequest and WriteRequest never fails, and at most one request is in flight. */
  lemma {:induction false} OneRequestInFlight(events: seq<Event>)
    ensures var s := Run(events);
      && !s.asserted
      && |s.issued| - 1 <= s.interrupts <= |s.issued|
      && (s.active <==> s.interrupts < |s.issued|)
  {
    RunKeepsInv(events);
  }

  /** A call about to return has had the interrupt of the request it issued itself. */
  lemma ReturnsAfterOwnInterrupt(events: seq<Event>, t: Tid)
    ensures var s := Run(events);
      PcOf(s, t).IoDone? ==> t in s.mine && s.mine[t] < s.interrupts && s.mine[t] < |s.issued| && s.issued[s.mine[t]] == t
  {
    RunKeepsInv(events);
    assert Booked(Run(events), t);
  }

  /** A call whose interrupt has not come does not get past the semaphore. */
  lemma WaitsForOwnInterrupt(events: seq<Event>, t: Tid)
    ensures var s := Run(events);
      s.active && t in s.mine && s.mine[t] == s.interrupts ==> PcOf(s, t).SemAsleep?
  {
    RunKeepsInv(events);
    var s := Run(events);
    if s.active && t in s.mine && s.mine[t] == s.interrupts {
      LatestIsHolder(s, t);
    }
  }

  lemma LatestIsHolder(s: State, t: Tid)
    requires Inv(s) && s.active && t in s.mine && s.mine[t] == |s.issued| - 1
    ensures PcOf(s, t).SemAsleep?
  {
    var h := s.lock.holder.value;
    assert Booked(s, h);
    assert PcOf(s, h).SemAsleep?;
    assert Booked(s, t);
    assert s.issued[s.mine[h]] == h && s.issued[s.mine[t]] == t;
  }

  /** When no thread that is awake is inside a call and the disk is idle, no thread is inside a call at all. */
  lemma QuietMeansDone(events: seq<Event>, t: Tid)
    requires forall u: Tid :: var pc := PcOf(Run(events), u); pc.Outside? || pc.LockAsleep? || pc.SemAsleep?
    requires !Run(events).active
    ensures PcOf(Run(events), t).Outside?
  {
    RunKeepsInv(events);
    var s := Run(events);
    forall h: Option<Tid> | h.Some? ensures h != s.lock.holder {
      assert Booked(s, h.value);
    }
    assert s.lock.holder.None?;
    forall u: Tid ensures u !in s.lock.sem.woken {
      assert Booked(s, u);
    }
    assert s.lock.sem.woken == {};
    assert Booked(s, t);
  }

  /** The threads whose calls have got past the lock, in that order. */
  ghost function Callers(events: seq<Event>): seq<Tid> {
    if events == [] then []
    else
      var before, e := events[..|events| - 1], events[|events| - 1];
      Callers(before) + if e.Resume? && PcOf(Run(before), e.t).GotSem? then [e.t] else []
  }

  /** Every call past the lock has issued one request, in the order of the calls, and nobody else has. */
  lemma {:induction false} OneRequestACall(events: seq<Event>)
    ensures Run(events).issued == Callers(events)
  {
    if events != [] {
      OneRequestACall(events[..|events| - 1]);
      Issues(Run(events[..|events| - 1]), events[|events| - 1]);
    }
  }

  lemma Issues(s: State, e: Event)
    ensures Handle(s, e).issued == s.issued + if e.Resume? && PcOf(s, e.t).GotSem? then [e.t] else []
  {
  }

  /** Every step of a thread that is awake takes it somewhere else. */
  lemma AwakeMoves(events: seq<Event>, t: Tid)
    requires !PcOf(Run(events), t).LockAsleep? && !PcOf(Run(events), t).SemAsleep?
    ensures PcOf(Step(Run(events), t), t) != PcOf(Run(events), t)
  {
    RunKeepsInv(events);
    assert Booked(Run(events), t);
  }

  /** The interrupt of a request in flight wakes the thread that issued it. */
  lemma InterruptWakesIssuer(events: seq<Event>)
    requires Run(events).active
    ensures var s, s' := Run(events), Handle(Run(events), DiskInterrupt);
      s.issued != [] && PcOf(s', s.issued[|s.issued| - 1]).SemWoken? && !s'.active && s'.interrupts == s.interrupts + 1
  {
    RunKeepsInv(events);
    var s := Run(events);
    var h := s.lock.holder.value;
    assert Booked(s, h);
    assert Booked(s, s.sem.queue[0]);
  }

  // ---------------------------------------------------------------- the objects updated in place

  /** SynchDisk's lock and semaphore, the Disk's flag, and the threads' program points. */
  class SynchronousDisk {
    var lock: Lock
    var semaphore: Sem
    var active: bool
    var pc: map<Tid, Pc>
    ghost var issued: seq<Tid>
    ghost var interrupts: nat
    ghost var mine: map<Tid, nat>
    ghost var asserted: bool

    ghost function View(): State
      reads this
    {
      State(lock, semaphore, active, pc, issued, interrupts, mine, asserted)
    }

    constructor ()
      ensures View() == Init()
    {
      lock, semaphore, active, pc := FREE_LOCK, Sem(0, [], {}), false, map[];
      issued, interrupts, mine, asserted := [], 0, map[], false;
    }

    method TestTheLock(t: Tid)
      modifies this
      ensures View() == TestLock(old(View()), t)
    {
      pc := pc[t := if lock.sem.value == 0 then LockAsleep else GotSem];
      lock := AcquireTest(lock, t);
    }

    method TestTheSemaphore(t: Tid)
      modifies this
      ensures View() == TestSem(old(View()), t)
    {
      pc := pc[t := if semaphore.value == 0 then SemAsleep else IoDone];
      semaphore := Test(semaphore, t);
    }

    method IssueRequest(t: Tid)
      modifies this
      ensures View() == Request(old(View()), t)
      ensures active && issued == old(issued) + [t] && (asserted <==> old(asserted) || old(active))
    {
      asserted := asserted || active;
      active := true;
      mine := mine[t := |issued|];
      issued := issued + [t];
    }

    /** Thread `t` runs from its switch point to the next. */
    method ResumeThread(t: Tid)
      modifies this
      ensures View() == Step(old(View()), t)
    {
      match if t in pc then pc[t] else Outside
      case Outside => TestTheLock(t);
      case LockWoken => TestTheLock(t);
      case GotSem =>
        lock := SetOwner(lock, t);
        IssueRequest(t);
        TestTheSemaphore(t);
      case SemWoken => TestTheSemaphore(t);
      case IoDone =>
        if lock.sem.queue != [] {
          pc := pc[lock.sem.queue[0] := LockWoken];
        }
        lock := Release(lock);
        pc := pc[t := Outside];
      case _ =>
    }

    method HandleInterrupt()
      modifies this
      ensures View() == Interrupt(old(View()))
    {
      active := false;
      interrupts := interrupts + 1;
      if semaphore.queue != [] {
        pc := pc[semaphore.queue[0] := SemWoken];
      }
      semaphore := Vee(semaphore);
    }
  }
}
