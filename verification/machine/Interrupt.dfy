/**
 The interrupt simulation of machine/interrupt.cc: simulated time, and a queue of pending
 interrupts sorted by the time they are due.  What the device handlers do is a parameter, for each
 call afresh: a handler may schedule further interrupts, always strictly in the future, and may ask
 for a context switch.
 */
module Interrupts {
  import opened Options
  import opened LinkedList

  import MachineObject
  import Mips
  import Translation

  datatype IntStatus = IntOff | IntOn

  datatype MachineStatus = IdleMode | SystemMode | UserMode

  datatype IntType = TimerInt | DiskInt | ConsoleWriteInt | ConsoleReadInt | NetworkSendInt | NetworkRecvInt

  /** `handler` and `arg` stand for the procedure and its argument. */
  datatype PendingInterrupt = PendingInterrupt(handler: nat, arg: nat, when: int, kind: IntType)

  datatype DelayedCall = DelayedCall(handler: nat, arg: nat, fromNow: int, kind: IntType)

  /** Schedule asserts that the delay is positive. */
  type Request = r: DelayedCall | r.fromNow > 0
    witness DelayedCall(0, 0, 1, TimerInt)

  /** What one invocation of a handler does: the interrupts it schedules, and whether it calls YieldOnReturn. */
  datatype Response = Response(requests: seq<Request>, wantsYield: bool)

  /** The registers of the simulated machine, which a kernel without user programs does not have. */
  type Registers = r: Mips.Regs | Mips.RegsOk(r)
    witness seq(40, _ => 0)

  const SYSTEM_TICK := 10
  const USER_TICK := 1

  type Queue = seq<Entry<PendingInterrupt>>

  function ToPending(r: Request, now: int): PendingInterrupt {
    PendingInterrupt(r.handler, r.arg, now + r.fromNow, r.kind)
  }

  /** What a call of Schedule at time `now` asks for: the handler called with its argument `fromNow` ticks later. */
  function Stamped(r: Request, now: int): Entry<PendingInterrupt> {
    (PendingInterrupt(r.handler, r.arg, now + r.fromNow, r.kind), now + r.fromNow)
  }

  function StampedAll(rs: seq<Request>, now: int): seq<Entry<PendingInterrupt>> {
    seq(|rs|, i requires 0 <= i < |rs| => Stamped(rs[i], now))
  }

  function Keyed(p: PendingInterrupt): Entry<PendingInterrupt> {
    (p, p.when)
  }

  /** Sorted by key, and the key is the due time. */
  ghost predicate InOrder(q: Queue) {
    Sorted(q) && forall i :: 0 <= i < |q| ==> q[i] == Keyed(q[i].0)
  }

  lemma InsertKeepsOrder(q: Queue, p: PendingInterrupt)
    requires InOrder(q)
    ensures InOrder(Insert(q, Keyed(p)))
    ensures multiset(Insert(q, Keyed(p))) == multiset(q) + multiset{Keyed(p)}
    ensures forall e :: e in Insert(q, Keyed(p)) ==> e in q || e == Keyed(p)
  {
    InsertSorts(q, Keyed(p));
  }

  /** Scheduling something later than `now` does not change how much is due at `now`. */
  lemma InsertLater(q: Queue, p: PendingInterrupt, now: int)
    requires InOrder(q) && now < p.when
    ensures Prefix(Insert(q, Keyed(p)), now) == Prefix(q, now)
  {
    PrefixIs(Insert(q, Keyed(p)), now, Prefix(q, now));
  }

  /**
   The simulation: the fields of class Interrupt, the counters of machine/stats.h that simulated
   time consists of, the registers of the machine, and two logs: every interrupt ever scheduled, and
   those whose handler has been called.  `pending` is the contents of the sorted list, on which
   SortedInsert is `Insert`.
   */
  datatype Sim = Sim(
    level: IntStatus, pending: Queue, inHandler: bool, yieldOnReturn: bool, status: MachineStatus,
    totalTicks: int, idleTicks: int, systemTicks: int, userTicks: int, registers: Option<Registers>,
    scheduled: Queue, fired: Queue)

  /** Nothing fired early or out of order. */
  ghost predicate Timely(now: int, q: Queue, fired: Queue) {
    && InOrder(q)
    && InOrder(fired)
    && (fired != [] ==> fired[|fired| - 1].1 <= now)
    && (fired != [] && q != [] ==> fired[|fired| - 1].1 <= q[0].1)
  }

  /** Nothing was lost or fired twice. */
  ghost predicate Conserved(q: Queue, fired: Queue, scheduled: Queue) {
    multiset(scheduled) == multiset(fired) + multiset(q)
  }

  ghost predicate Sound(s: Sim) {
    && Timely(s.totalTicks, s.pending, s.fired)
    && Conserved(s.pending, s.fired, s.scheduled)
    && s.totalTicks == s.idleTicks + s.systemTicks + s.userTicks
  }

  lemma InsertIsTimely(now: int, q: Queue, fired: Queue, scheduled: Queue, p: PendingInterrupt)
    requires Timely(now, q, fired) && Conserved(q, fired, scheduled) && now < p.when
    ensures Timely(now, Insert(q, Keyed(p)), fired) && Conserved(Insert(q, Keyed(p)), fired, scheduled + [Keyed(p)])
    ensures Prefix(Insert(q, Keyed(p)), now) == Prefix(q, now)
  {
    InsertKeepsOrder(q, p);
    InsertLater(q, p, now);
    var q' := Insert(q, Keyed(p));
    assert q'[0] in q';
    if q'[0] in q {
      HeadIsLeast(q);
    }
  }

  lemma FireIsTimely(now: int, q: Queue, fired: Queue, scheduled: Queue)
    requires Timely(now, q, fired) && Conserved(q, fired, scheduled) && q != [] && q[0].1 <= now
    ensures Timely(now, q[1..], fired + [q[0]]) && Conserved(q[1..], fired + [q[0]], scheduled)
    ensures Prefix(q, now) == 1 + Prefix(q[1..], now)
  {
    HeadIsLeast(q);
  }

  lemma PutBackIsTimely(now: int, q: Queue, fired: Queue, scheduled: Queue)
    requires Timely(now, q, fired) && Conserved(q, fired, scheduled) && q != []
    ensures Timely(now, Insert(q[1..], q[0]), fired) && Conserved(Insert(q[1..], q[0]), fired, scheduled)
    ensures multiset(Insert(q[1..], q[0])) == multiset(q) && Insert(q[1..], q[0])[0].1 == q[0].1
  {
    HeadIsLeast(q);
    InsertKeepsOrder(q[1..], q[0].0);
    var q' := Insert(q[1..], q[0]);
    assert q'[0] in q' && q[0] in q';
    HeadIsLeast(q');
    assert q'[0] in multiset(q');
  }

  /** The number of interrupts due now. */
  ghost function Due(s: Sim): nat {
    Prefix(s.pending, s.totalTicks)
  }

  function Schedule(s: Sim, r: Request): Sim {
    var e := Keyed(ToPending(r, s.totalTicks));
    s.(pending := Insert(s.pending, e), scheduled := s.scheduled + [e])
  }

  function ScheduleAll(s: Sim, rs: seq<Request>): Sim {
    if rs == [] then s else Schedule(ScheduleAll(s, rs[..|rs| - 1]), rs[|rs| - 1])
  }

  /** DelayedLoad(0, 0): nothing is left pending when the kernel is entered. */
  function Flushed(registers: Option<Registers>): Option<Registers> {
    match registers
    case None => None
    case Some(r) => Some(Mips.DelayedLoad(r, 0, 0))
  }

  /** A handler is about to be called for `e`. */
  function Taken(s: Sim, e: Entry<PendingInterrupt>): Sim {
    s.(fired := s.fired + [e], registers := Flushed(s.registers))
  }

  /** Call the handler of an interrupt taken off the queue; `response` is what it does. */
  function Handled(s: Sim, e: Entry<PendingInterrupt>, response: Response): Sim {
    Responded(Taken(s, e), response)
  }

  function Responded(s: Sim, response: Response): Sim {
    ScheduleAll(s, response.requests).(yieldOnReturn := s.yieldOnReturn || response.wantsYield)
  }

  /** Take the head off the queue and call its handler. */
  function Fire(s: Sim, response: Response): Sim
    requires s.pending != []
  {
    Handled(s.(pending := s.pending[1..]), s.pending[0], response)
  }

  function Requeued(s: Sim, e: Entry<PendingInterrupt>): Sim {
    s.(pending := Insert(s.pending, e))
  }

  /** Put the head back where it came from. */
  function PutBack(s: Sim): Sim
    requires s.pending != []
  {
    Requeued(s.(pending := s.pending[1..]), s.pending[0])
  }

  lemma ScheduleIsSound(s: Sim, r: Request)
    requires Sound(s)
    ensures Sound(Schedule(s, r)) && Due(Schedule(s, r)) == Due(s)
  {
    InsertIsTimely(s.totalTicks, s.pending, s.fired, s.scheduled, ToPending(r, s.totalTicks));
  }

  /** Scheduling reads and changes nothing but the clock, the queue and its log. */
  lemma {:induction false} ScheduleAllFrame(s: Sim, t: Sim, rs: seq<Request>)
    requires s.pending == t.pending && s.scheduled == t.scheduled && s.totalTicks == t.totalTicks
    ensures var s' := ScheduleAll(s, rs); ScheduleAll(t, rs) == t.(pending := s'.pending, scheduled := s'.scheduled)
    decreases rs
  {
    if rs != [] {
      ScheduleAllFrame(s, t, rs[..|rs| - 1]);
      ScheduleAllFrame(s, s, rs[..|rs| - 1]);
    }
  }

  /** Every request is scheduled, in turn, for the time it asks for. */
  lemma {:induction false} AllScheduled(s: Sim, rs: seq<Request>)
    ensures ScheduleAll(s, rs).scheduled == s.scheduled + StampedAll(rs, s.totalTicks)
    decreases rs
  {
    if rs != [] {
      var most, last := rs[..|rs| - 1], rs[|rs| - 1];
      AllScheduled(s, most);
      ScheduleAllFrame(s, s, most);
      ScheduledFor(ScheduleAll(s, most), last);
      StampedInTurn(rs, s.totalTicks);
    }
  }

  lemma StampedInTurn(rs: seq<Request>, now: int)
    requires rs != []
    ensures StampedAll(rs, now) == StampedAll(rs[..|rs| - 1], now) + [Stamped(rs[|rs| - 1], now)]
  {
  }

  lemma ScheduledFor(s: Sim, r: Request)
    ensures Schedule(s, r).scheduled == s.scheduled + [Stamped(r, s.totalTicks)]
    ensures multiset(Schedule(s, r).pending) == multiset(s.pending) + multiset{Stamped(r, s.totalTicks)}
  {
    InsertGainsOne(s.pending, Stamped(r, s.totalTicks));
  }

  lemma {:induction false} ScheduleAllIsSound(s: Sim, rs: seq<Request>)
    requires Sound(s)
    ensures Sound(ScheduleAll(s, rs)) && Due(ScheduleAll(s, rs)) == Due(s)
    ensures var s' := ScheduleAll(s, rs); s' == s.(pending := s'.pending, scheduled := s'.scheduled)
  {
    if rs != [] {
      ScheduleAllIsSound(s, rs[..|rs| - 1]);
      ScheduleIsSound(ScheduleAll(s, rs[..|rs| - 1]), rs[|rs| - 1]);
    }
  }

  /** Firing the head when it is due leaves one interrupt fewer due, whatever the handler schedules. */
  lemma FireIsSound(s: Sim, response: Response)
    requires Sound(s) && s.pending != [] && s.pending[0].1 <= s.totalTicks
    ensures Sound(Fire(s, response)) && Due(Fire(s, response)) == Due(s) - 1
    ensures Fire(s, response).totalTicks == s.totalTicks && Fire(s, response).fired == s.fired + [s.pending[0]]
  {
    FireIsTimely(s.totalTicks, s.pending, s.fired, s.scheduled);
    ScheduleAllIsSound(Taken(s.(pending := s.pending[1..]), s.pending[0]), response.requests);
  }

  lemma PutBackIsSound(s: Sim)
    requires Sound(s) && s.pending != []
    ensures Sound(PutBack(s))
    ensures multiset(PutBack(s).pending) == multiset(s.pending) && PutBack(s).pending[0].1 == s.pending[0].1
  {
    PutBackIsTimely(s.totalTicks, s.pending, s.fired, s.scheduled);
  }

  // ---------------------------------------------------------------- CheckIfDue

  function AdvanceTo(s: Sim, when: int): Sim {
    s.(idleTicks := s.idleTicks + (when - s.totalTicks), totalTicks := when)
  }

  /** CheckIfDue(advanceClock), and whether it fired; `response` is what the handler does if it is called. */
  function Check(s: Sim, response: Response, advanceClock: bool): (Sim, bool) {
    if s.pending == [] then (s, false)
    else CheckHead(s.(pending := s.pending[1..]), s.pending[0], response, advanceClock)
  }

  /** The same with `head` taken off the queue. */
  function CheckHead(s: Sim, head: Entry<PendingInterrupt>, response: Response, advanceClock: bool): (Sim, bool) {
    if advanceClock && head.1 > s.totalTicks then CheckNow(AdvanceTo(s, head.1), head, response)
    else if head.1 > s.totalTicks then (Requeued(s, head), false)
    else CheckNow(s, head, response)
  }

  /** The same once `head` is due. */
  function CheckNow(s: Sim, head: Entry<PendingInterrupt>, response: Response): (Sim, bool) {
    if s.status == IdleMode && head.0.kind == TimerInt && s.pending == [] then (Requeued(s, head), false)
    else (Handled(s, head, response), true)
  }

  lemma AdvanceIsSound(s: Sim, when: int)
    requires Sound(s) && s.totalTicks <= when
    ensures Sound(AdvanceTo(s, when))
  {
    assert Timely(when, s.pending, s.fired);
  }

  lemma InsertEarlier(q: Queue, e: Entry<PendingInterrupt>, now: int)
    requires Sorted(q) && e.1 <= now
    ensures Prefix(Insert(q, e), now) == 1 + Prefix(q, now)
  {
    PrefixIs(Insert(q, e), now, 1 + Prefix(q, now));
  }

  lemma PutBackKeepsDue(s: Sim)
    requires Sound(s) && s.pending != []
    ensures Due(PutBack(s)) == Due(s)
  {
    if s.pending[0].1 <= s.totalTicks {
      FireIsTimely(s.totalTicks, s.pending, s.fired, s.scheduled);
      InsertEarlier(s.pending[1..], s.pending[0], s.totalTicks);
    } else {
      PutBackIsSound(s);
      PrefixIs(PutBack(s).pending, s.totalTicks, 0);
    }
  }

  /** Time never runs back, nothing fires early, and without `advanceClock` each firing leaves one less due. */
  ghost predicate Checked(s: Sim, s': Sim, fires: bool, advanceClock: bool) {
    && Sound(s')
    && s.totalTicks <= s'.totalTicks
    && (!advanceClock ==> s'.totalTicks == s.totalTicks && Due(s') == Due(s) - (if fires then 1 else 0))
    && (if fires then s.pending != [] && s'.fired == s.fired + [s.pending[0]] && s.pending[0].1 <= s'.totalTicks
        else s'.fired == s.fired && s'.scheduled == s.scheduled)
  }

  lemma CheckIsSound(s: Sim, response: Response, advanceClock: bool)
    requires Sound(s)
    ensures var (s', fires) := Check(s, response, advanceClock); Checked(s, s', fires, advanceClock)
  {
    if s.pending != [] {
      AdvancedIs(s, response, advanceClock);
      if advanceClock && s.pending[0].1 > s.totalTicks {
        AdvanceIsSound(s, s.pending[0].1);
        CheckHeadIsSound(AdvanceTo(s, s.pending[0].1), response);
      } else {
        CheckHeadIsSound(s, response);
      }
    }
  }

  lemma AdvancedIs(s: Sim, response: Response, advanceClock: bool)
    requires s.pending != []
    ensures Check(s, response, advanceClock) ==
            Check(if advanceClock && s.pending[0].1 > s.totalTicks then AdvanceTo(s, s.pending[0].1) else s, response, false)
  {
  }

  lemma CheckHeadIsSound(s: Sim, response: Response)
    requires Sound(s) && s.pending != []
    ensures var (s', fires) := Check(s, response, false); Checked(s, s', fires, false)
  {
    if Check(s, response, false).1 {
      FireIsSound(s, response);
    } else {
      PutBackIsSound(s);
      PutBackKeepsDue(s);
    }
  }

  /** When CheckIfDue(false) fires nothing, nothing is due, or all there is is the timer of an idle machine. */
  predicate NothingDue(s: Sim) {
    || s.pending == []
    || s.totalTicks < s.pending[0].1
    || (s.status == IdleMode && |s.pending| == 1 && s.pending[0].0.kind == TimerInt)
  }

  lemma UnfiredMeansNothingDue(s: Sim, response: Response)
    requires Sound(s) && !Check(s, response, false).1
    ensures NothingDue(Check(s, response, false).0)
  {
    if s.pending != [] {
      PutBackIsSound(s);
      if |s.pending| == 1 {
        assert Insert([], s.pending[0]) == s.pending;
      }
    }
  }

  lemma TickIsSound(s: Sim, s': Sim)
    requires Sound(s) && s.totalTicks <= s'.totalTicks
    requires s'.pending == s.pending && s'.fired == s.fired && s'.scheduled == s.scheduled
    requires s'.totalTicks == s'.idleTicks + s'.systemTicks + s'.userTicks
    ensures Sound(s')
  {
    assert Timely(s'.totalTicks, s.pending, s.fired);
  }

  /** An idle machine fires unless nothing is pending, or only the timer. */
  lemma IdleFires(s: Sim, response: Response)
    requires s.status == IdleMode
    ensures Check(s, response, true).1 <==> !(s.pending == [] || (|s.pending| == 1 && s.pending[0].0.kind == TimerInt))
  {
    if s.pending != [] {
      assert s.pending[1..] == [] <==> |s.pending| == 1;
    }
  }

  /** What CheckIfDue leaves as it is. */
  predicate SameModes(s: Sim, s': Sim) {
    && s'.level == s.level && s'.inHandler == s.inHandler && s'.status == s.status
    && s'.systemTicks == s.systemTicks && s'.userTicks == s.userTicks
  }

  lemma CheckKeeps(s: Sim, response: Response, advanceClock: bool)
    ensures var (s', fires) := Check(s, response, advanceClock);
      && SameModes(s, s') && s'.registers == (if fires then Flushed(s.registers) else s.registers)
      && s'.totalTicks ==
         (if advanceClock && s.pending != [] && s.pending[0].1 > s.totalTicks then s.pending[0].1 else s.totalTicks)
      && (!advanceClock ==> s'.idleTicks == s.idleTicks)
      && (s'.yieldOnReturn <==> s.yieldOnReturn || (fires && response.wantsYield))
      && s'.scheduled == (if fires then s.scheduled + StampedAll(response.requests, s'.totalTicks) else s.scheduled)
  {
    if s.pending != [] {
      var s1 := s.(pending := s.pending[1..]);
      HandledKeeps(s1, s.pending[0], response);
      HandledKeeps(AdvanceTo(s1, s.pending[0].1), s.pending[0], response);
    }
  }

  lemma HandledKeeps(s: Sim, e: Entry<PendingInterrupt>, response: Response)
    ensures var s' := Handled(s, e, response);
      && SameModes(s, s') && s'.registers == Flushed(s.registers) && s'.totalTicks == s.totalTicks && s'.idleTicks == s.idleTicks
      && (s'.yieldOnReturn <==> s.yieldOnReturn || response.wantsYield)
      && s'.scheduled == s.scheduled + StampedAll(response.requests, s.totalTicks)
  {
    var taken := Taken(s, e);
    AllScheduled(taken, response.requests);
    ScheduleAllFrame(taken, taken, response.requests);
  }

  /** The handler runs in system mode and with `inHandler` set, which it cannot tell. */
  lemma HandledInside(s: Sim, e: Entry<PendingInterrupt>, response: Response)
    requires !s.inHandler
    ensures Handled(s, e, response) ==
            Responded(Entered(s, e), response).(status := s.status, inHandler := false)
  {
    var taken := Taken(s, e);
    ScheduleAllFrame(taken, taken, response.requests);
    ScheduleAllFrame(taken, Entered(s, e), response.requests);
  }

  function Entered(s: Sim, e: Entry<PendingInterrupt>): Sim {
    Taken(s, e).(inHandler := true, status := SystemMode)
  }

  /** Whether one of these calls of a handler asks for a switch. */
  ghost predicate Asked(respond: nat -> Response, from: nat, upto: nat) {
    exists k: nat :: from <= k < upto && respond(k).wantsYield
  }

  lemma AskedOnceMore(respond: nat -> Response, from: nat, upto: nat)
    requires from <= upto
    ensures Asked(respond, from, upto + 1) <==> Asked(respond, from, upto) || respond(upto).wantsYield
  {
  }

  /** What these calls of handlers schedule, one call after the other. */
  ghost function Requested(respond: nat -> Response, from: nat, upto: nat, now: int): Queue
    decreases upto
  {
    if upto <= from then [] else Requested(respond, from, upto - 1, now) + StampedAll(respond(upto - 1).requests, now)
  }

  /** `s'` is `s` with more handlers called, all of them due, and the clock standing still. */
  ghost predicate AllFired(respond: nat -> Response, s: Sim, s': Sim) {
    && Sound(s') && SameModes(s, s') && s'.totalTicks == s.totalTicks && s'.idleTicks == s.idleTicks
    && s.fired <= s'.fired && (forall k :: |s.fired| <= k < |s'.fired| ==> s'.fired[k].1 <= s.totalTicks)
    && s'.registers == (if s'.fired == s.fired then s.registers else Flushed(s.registers))
    && Answered(respond, s, s')
  }

  /** What the handlers called since `s` asked for is noted and scheduled. */
  ghost predicate Answered(respond: nat -> Response, s: Sim, s': Sim) {
    && (s'.yieldOnReturn <==> s.yieldOnReturn || Asked(respond, |s.fired|, |s'.fired|))
    && s'.scheduled == s.scheduled + Requested(respond, |s.fired|, |s'.fired|, s.totalTicks)
  }

  lemma NoneFired(respond: nat -> Response, s: Sim)
    requires Sound(s)
    ensures AllFired(respond, s, s)
  {
    assert Requested(respond, |s.fired|, |s.fired|, s.totalTicks) == [];
  }

  lemma ChecksAreFirings(respond: nat -> Response, start: Sim, s: Sim)
    requires AllFired(respond, start, s)
    ensures var (s', fires) := Check(s, respond(|s.fired|), false);
      && AllFired(respond, start, s')
      && (fires ==> Due(s') < Due(s)) && (!fires ==> Due(s') == Due(s))
  {
    var response := respond(|s.fired|);
    CheckIsSound(s, response, false);
    CheckKeeps(s, response, false);
    FlushedTwice(start.registers);
    AnsweredOnceMore(respond, start, s, Check(s, response, false).0, Check(s, response, false).1);
  }

  lemma AnsweredOnceMore(respond: nat -> Response, start: Sim, s: Sim, s': Sim, fires: bool)
    requires |start.fired| <= |s.fired| && s.totalTicks == s'.totalTicks == start.totalTicks && Answered(respond, start, s)
    requires |s'.fired| == |s.fired| + (if fires then 1 else 0)
    requires s'.yieldOnReturn <==> s.yieldOnReturn || (fires && respond(|s.fired|).wantsYield)
    requires s'.scheduled == if fires then s.scheduled + StampedAll(respond(|s.fired|).requests, s.totalTicks) else s.scheduled
    ensures Answered(respond, start, s')
  {
    AskedOnceMore(respond, |start.fired|, |s.fired|);
  }

  /**
   What OneTick has done once interrupts are on again.  The caller gives up the processor exactly if
   one of the handlers called asked for it, now or before.
   */
  ghost predicate TickDone(respond: nat -> Response, s: Sim, s': Sim, switches: bool) {
    var ticks := if s.status == SystemMode then 10 else 1;
    && s'.totalTicks == s.totalTicks + ticks && s'.idleTicks == s.idleTicks
    && s'.systemTicks == s.systemTicks + (if s.status == SystemMode then ticks else 0)
    && s'.level == IntOn && s'.status == s.status && s'.inHandler == s.inHandler && !s'.yieldOnReturn
    && s.fired <= s'.fired && (forall k :: |s.fired| <= k < |s'.fired| ==> s'.fired[k].1 <= s'.totalTicks)
    && s'.registers == (if s'.fired == s.fired then s.registers else Flushed(s.registers))
    && (switches <==> s.yieldOnReturn || Asked(respond, |s.fired|, |s'.fired|))
    && s'.scheduled == s.scheduled + Requested(respond, |s.fired|, |s'.fired|, s'.totalTicks)
    && Sound(s') && NothingDue(s')
  }

  lemma TicksAreDone(respond: nat -> Response, s: Sim, ticked: Sim, s': Sim)
    requires ticked == Happen(s, Tick(s.status != SystemMode)).(level := IntOff)
    requires AllFired(respond, ticked, s') && NothingDue(s')
    ensures TickDone(respond, s, s'.(level := IntOn, yieldOnReturn := false), s'.yieldOnReturn)
  {
  }

  /** What Idle has done: the clock has run to the first interrupt pending, or there was none to wait for. */
  ghost predicate IdleDone(s: Sim, s': Sim, halts: bool) {
    && (halts <==> s.pending == [] || (|s.pending| == 1 && s.pending[0].0.kind == TimerInt))
    && s.totalTicks <= s'.totalTicks && s'.systemTicks == s.systemTicks && s'.userTicks == s.userTicks
    && (if halts then s'.fired == s.fired
        else
          && s.pending != [] && s.fired + [s.pending[0]] <= s'.fired
          && s'.totalTicks == (if s.totalTicks < s.pending[0].1 then s.pending[0].1 else s.totalTicks)
          && s'.status == SystemMode && !s'.yieldOnReturn
          && NothingDue(s'.(status := IdleMode))
          && forall k :: |s.fired| <= k < |s'.fired| ==> s'.fired[k].1 <= s'.totalTicks)
    && Sound(s')
  }

  ghost predicate IdleChecked(s: Sim, s': Sim, fires: bool) {
    if fires then IdleFired(s, s') else IdleDone(s, s', true)
  }

  lemma IdleChecks(s: Sim, response: Response)
    requires Sound(s)
    ensures var (s', fires) := Check(s.(status := IdleMode), response, true);
      IdleChecked(s, s', fires)
  {
    var idle := s.(status := IdleMode);
    TickIsSound(s, idle);
    IdleFires(idle, response);
    CheckIsSound(idle, response, true);
    CheckKeeps(idle, response, true);
  }

  /** The first interrupt of an idle machine has been fired. */
  ghost predicate IdleFired(s: Sim, s': Sim) {
    && Sound(s')
    && s'.systemTicks == s.systemTicks && s'.userTicks == s.userTicks && s'.inHandler == s.inHandler && s'.level == s.level
    && !(s.pending == [] || (|s.pending| == 1 && s.pending[0].0.kind == TimerInt))
    && s'.fired == s.fired + [s.pending[0]] && s'.status == IdleMode
    && s'.totalTicks == (if s.totalTicks < s.pending[0].1 then s.pending[0].1 else s.totalTicks)
  }

  lemma WakesFromIdle(respond: nat -> Response, s: Sim, checked: Sim, s': Sim)
    requires Sound(s) && IdleFired(s, checked) && AllFired(respond, checked, s') && NothingDue(s')
    ensures IdleDone(s, s'.(yieldOnReturn := false, status := SystemMode), false)
  {
  }

  // ---------------------------------------------------------------- whole runs

  /** What happens to the simulation: a device schedules, time passes, or the queue is checked. */
  datatype Event =
    | Scheduling(r: Request)
    | Tick(user: bool)
    | Checking(advanceClock: bool, response: Response)
    | Mode(status: MachineStatus)

  function Happen(s: Sim, e: Event): Sim {
    match e
    case Scheduling(r) => Schedule(s, r)
    case Tick(false) => s.(totalTicks := s.totalTicks + SYSTEM_TICK, systemTicks := s.systemTicks + SYSTEM_TICK)
    case Tick(true) => s.(totalTicks := s.totalTicks + USER_TICK, userTicks := s.userTicks + USER_TICK)
    case Checking(advanceClock, response) => Check(s, response, advanceClock).0
    case Mode(status) => s.(status := status)
  }

  function RunFrom(s: Sim, events: seq<Event>): Sim {
    if events == [] then s else Happen(RunFrom(s, events[..|events| - 1]), events[|events| - 1])
  }

  /** The constructor's state. */
  function Start(registers: Option<Registers>): Sim {
    Sim(IntOff, [], false, false, SystemMode, 0, 0, 0, 0, registers, [], [])
  }

  lemma HappenIsSound(s: Sim, e: Event)
    requires Sound(s)
    ensures Sound(Happen(s, e)) && s.totalTicks <= Happen(s, e).totalTicks
  {
    match e
    case Scheduling(r) => ScheduleIsSound(s, r);
    case Checking(advanceClock, response) => CheckIsSound(s, response, advanceClock);
    case Tick(_) => TickIsSound(s, Happen(s, e));
    case Mode(_) => TickIsSound(s, Happen(s, e));
  }

  lemma {:induction false} RunIsSound(registers: Option<Registers>, events: seq<Event>)
    ensures Sound(RunFrom(Start(registers), events))
  {
    if events != [] {
      RunIsSound(registers, events[..|events| - 1]);
      HappenIsSound(RunFrom(Start(registers), events[..|events| - 1]), events[|events| - 1]);
    }
  }

  /** An interrupt is called at most as often as it was scheduled, and the calls come in order of the due times. */
  lemma FiredInOrderAndOnce(registers: Option<Registers>, events: seq<Event>, p: PendingInterrupt)
    ensures var s := RunFrom(Start(registers), events);
      && multiset(s.fired)[Keyed(p)] + multiset(s.pending)[Keyed(p)] == multiset(s.scheduled)[Keyed(p)]
      && (forall i, j :: 0 <= i < j < |s.fired| ==> s.fired[i].0.when <= s.fired[j].0.when)
      && s.totalTicks == s.idleTicks + s.systemTicks + s.userTicks
  {
    RunIsSound(registers, events);
    var s := RunFrom(Start(registers), events);
    assert forall i :: 0 <= i < |s.fired| ==> s.fired[i].1 == s.fired[i].0.when;
  }

  /** The clock never runs back, and whatever an event fires was due by then and not before its time. */
  lemma NeverEarly(registers: Option<Registers>, events: seq<Event>, e: Event)
    ensures var s, s' := RunFrom(Start(registers), events), RunFrom(Start(registers), events + [e]);
      && s.totalTicks <= s'.totalTicks
      && (s'.fired == s.fired || exists p :: s'.fired == s.fired + [Keyed(p)] && p.when <= s'.totalTicks)
  {
    RunIsSound(registers, events);
    assert (events + [e])[..|events|] == events;
    assert (events + [e])[|events|] == e;
    HappensInTime(RunFrom(Start(registers), events), e);
  }

  lemma HappensInTime(s: Sim, e: Event)
    requires Sound(s)
    ensures var s' := Happen(s, e);
      && s.totalTicks <= s'.totalTicks
      && (s'.fired == s.fired || exists p :: s'.fired == s.fired + [Keyed(p)] && p.when <= s'.totalTicks)
  {
    HappenIsSound(s, e);
    if e.Checking? {
      CheckIsSound(s, e.response, e.advanceClock);
      if Check(s, e.response, e.advanceClock).1 {
        assert s.pending[0] == Keyed(s.pending[0].0);
      }
    }
  }

  // ---------------------------------------------------------------- what the interrupted program sees

  /** However many handlers are called, all the registers show of it is the pending load finished. */
  lemma {:induction false} InterruptsOnlyFlush(s: Sim, events: seq<Event>)
    ensures RunFrom(s, events).registers in {s.registers, Flushed(s.registers)}
  {
    if events != [] {
      var s1, e := RunFrom(s, events[..|events| - 1]), events[|events| - 1];
      InterruptsOnlyFlush(s, events[..|events| - 1]);
      FlushedTwice(s.registers);
      if e.Checking? {
        CheckKeeps(s1, e.response, e.advanceClock);
      }
    }
  }

  /** What finishing the pending load means: its target has the value, the rest stays, and nothing is pending. */
  lemma FlushFinishesLoad(r: Registers)
    ensures var r' := Flushed(Some(r)).value;
      && (forall k :: 1 <= k < 37 || k == 39 ==> r'[k] == if k == r[37] then r[38] else r[k])
      && r'[0] == 0 && r'[37] == 0 && r'[38] == 0
  {
  }

  lemma FlushedTwice(registers: Option<Registers>)
    ensures Flushed(Flushed(registers)) == Flushed(registers)
  {
    if registers.Some? {
      var r: Mips.Regs := Mips.DelayedLoad(registers.value, 0, 0);
      assert Mips.DelayedLoad(r, 0, 0) == r;
    }
  }

  /**
   Interrupts are invisible to the program they interrupt: whatever happens between two
   instructions, the next one does the same, unless it touches the target of the pending load.
   */
  lemma InterruptsAreTransparent(s: Sim, events: seq<Event>, m: Translation.Memory)
    requires s.registers.Some? && Translation.WellFormed(m)
    requires var r := s.registers.value; var fetch := Translation.ReadMem(m, r[Mips.PC_REG], 4);
             fetch.exception == Translation.NoException ==> !Mips.Touches(Mips.Decode(fetch.value), r[Mips.LOAD_REG])
    ensures var s' := RunFrom(s, events);
      && s'.registers.Some?
      && Mips.SameResult(Mips.OneInstruction(Mips.Cpu(s'.registers.value, m)),
                         Mips.OneInstruction(Mips.Cpu(s.registers.value, m)))
  {
    var r: Mips.Regs := s.registers.value;
    InterruptsOnlyFlush(s, events);
    assert r[Mips.BAD_VADDR_REG := r[Mips.BAD_VADDR_REG]] == r;
    Mips.FlushIsInvisible(r, m, r[Mips.BAD_VADDR_REG]);
  }

  // ---------------------------------------------------------------- the object

  class Interrupt {
    var level: IntStatus
    const pending: List<PendingInterrupt>
    var inHandler: bool
    var yieldOnReturn: bool
    var status: MachineStatus
    var totalTicks: int
    var idleTicks: int
    var systemTicks: int
    var userTicks: int
    const machine: MachineObject.Machine?
    /** What the k-th handler called does, and how many have been called. */
    const respond: nat -> Response
    var calls: nat
    ghost var scheduled: Queue
    ghost var fired: Queue
    ghost var repr: set<object>

    ghost predicate Valid()
      reads this, pending, pending.elements, machine, if machine == null then {} else {machine.registers}
    {
      && this in repr && pending.Repr() <= repr && (machine != null ==> machine.registers in repr)
      && pending.Valid()
      && calls == |fired|
      && (machine != null ==> machine.Valid() && Mips.RegsOk(machine.registers[..]))
    }

    ghost function View(): Sim
      requires Valid()
      reads this, pending, pending.elements, machine, if machine == null then {} else {machine.registers}
    {
      Sim(level, pending.contents, inHandler, yieldOnReturn, status, totalTicks, idleTicks, systemTicks, userTicks,
          if machine == null then None else Some(machine.registers[..]), scheduled, fired)
    }

    /** What the next handler called does. */
    function Next(): Response
      reads this
    {
      respond(calls)
    }

    constructor (respond: nat -> Response, machine: MachineObject.Machine?)
      requires machine != null ==> machine.Valid() && Mips.RegsOk(machine.registers[..])
      ensures Valid() && Sound(View()) && this.respond == respond && this.machine == machine && fresh(pending)
      ensures View() == Start(if machine == null then None else Some(machine.registers[..]))
    {
      pending := new List();
      level, inHandler, yieldOnReturn, status := IntOff, false, false, SystemMode;
      totalTicks, idleTicks, systemTicks, userTicks := 0, 0, 0, 0;
      this.respond, this.machine, calls := respond, machine, 0;
      scheduled, fired := [], [];
      new;
      repr := {this as object} + pending.Repr() + (if machine == null then {} else {machine.registers});
    }

    method ScheduleInterrupt(r: Request)
      requires Valid() && Sound(View())
      modifies repr
      ensures Valid() && fresh(repr - old(repr))
      ensures View() == Schedule(old(View()), r) && Sound(View())
      ensures View().scheduled == old(View()).scheduled + [Stamped(r, old(View()).totalTicks)]
      ensures multiset(View().pending) == multiset(old(View()).pending) + multiset{Stamped(r, old(View()).totalTicks)}
    {
      ScheduleIsSound(View(), r);
      ScheduledFor(View(), r);
      Enqueue(ToPending(r, totalTicks));
    }

    /** SortedInsert by the due time, noted in the log. */
    method Enqueue(toOccur: PendingInterrupt)
      requires Valid()
      modifies pending.Repr(), this`repr, this`scheduled
      ensures Valid() && fresh(repr - old(repr))
      ensures View() == old(View()).(pending := Insert(old(pending.contents), Keyed(toOccur)),
                                     scheduled := old(scheduled) + [Keyed(toOccur)])
    {
      Requeue(toOccur, toOccur.when);
      scheduled := scheduled + [Keyed(toOccur)];
    }

    method CheckIfDue(advanceClock: bool) returns (fires: bool)
      requires Valid() && level == IntOff && !inHandler
      modifies repr
      ensures Valid() && fresh(repr - old(repr))
      ensures (View(), fires) == Check(old(View()), old(Next()), advanceClock)
    {
      var toOccur, when := Dequeue();
      if toOccur.None? {
        return false;
      }
      fires := CheckTaken(toOccur.value, when, advanceClock);
    }

    /** The part of CheckIfDue that follows with the head taken off. */
    method CheckTaken(toOccur: PendingInterrupt, when: int, advanceClock: bool) returns (fires: bool)
      requires Valid() && !inHandler
      modifies repr
      ensures Valid() && fresh(repr - old(repr))
      ensures (View(), fires) == CheckHead(old(View()), (toOccur, when), old(Next()), advanceClock)
    {
      if advanceClock && when > totalTicks {
        Advance(when);
      } else if when > totalTicks {
        Requeue(toOccur, when);
        return false;
      }
      fires := HandleNow(toOccur, when);
    }

    method Dequeue() returns (toOccur: Option<PendingInterrupt>, when: int)
      requires Valid()
      modifies pending
      ensures Valid()
      ensures toOccur.None? <==> old(View()).pending == []
      ensures View() == if toOccur.None? then old(View()) else old(View()).(pending := old(View()).pending[1..])
      ensures toOccur.Some? ==> old(View()).pending[0] == (toOccur.value, when)
    {
      toOccur, when := pending.SortedRemove();
    }

    /** The part of CheckIfDue that follows once the interrupt is due. */
    method HandleNow(toOccur: PendingInterrupt, when: int) returns (fires: bool)
      requires Valid() && !inHandler
      modifies repr
      ensures Valid() && fresh(repr - old(repr))
      ensures (View(), fires) == CheckNow(old(View()), (toOccur, when), old(Next()))
    {
      if status == IdleMode && toOccur.kind == TimerInt && pending.IsEmpty() {
        Requeue(toOccur, when);
        return false;
      }
      CallHandler(toOccur, when);
      return true;
    }

    method Requeue(toOccur: PendingInterrupt, when: int)
      requires Valid()
      modifies pending.Repr(), this`repr
      ensures Valid() && fresh(repr - old(repr)) && View() == Requeued(old(View()), (toOccur, when))
    {
      pending.SortedInsert(toOccur, when);
      repr := repr + pending.Repr();
    }

    /** The clock of an idle machine runs on. */
    method Advance(when: int)
      requires Valid()
      modifies this`idleTicks, this`totalTicks
      ensures Valid() && View() == AdvanceTo(old(View()), when)
    {
      idleTicks := idleTicks + (when - totalTicks);
      totalTicks := when;
    }

    method SetStatus(now: MachineStatus)
      requires Valid()
      modifies this`status
      ensures Valid() && View() == old(View()).(status := now)
    {
      status := now;
    }

    /** The part of CheckIfDue that finishes the machine's pending load and calls the handler. */
    method CallHandler(toOccur: PendingInterrupt, when: int)
      requires Valid() && !inHandler
      modifies repr
      ensures Valid() && fresh(repr - old(repr))
      ensures View() == Handled(old(View()), (toOccur, when), old(Next()))
    {
      var response, before := Next(), status;
      HandledInside(View(), (toOccur, when), response);
      EnterHandler(toOccur, when);
      Respond(response);
      LeaveHandler(before);
    }

    method EnterHandler(toOccur: PendingInterrupt, when: int)
      requires Valid()
      modifies this`fired, this`calls, this`inHandler, this`status, if machine == null then {} else {machine.registers}
      ensures Valid() && View() == Entered(old(View()), (toOccur, when))
    {
      FinishLoad();
      fired := fired + [(toOccur, when)];
      calls := calls + 1;
      inHandler := true;
      status := SystemMode;
    }

    method LeaveHandler(before: MachineStatus)
      requires Valid()
      modifies this`inHandler, this`status
      ensures Valid() && View() == old(View()).(status := before, inHandler := false)
    {
      status := before;
      inHandler := false;
    }

    method FinishLoad()
      requires Valid()
      modifies if machine == null then {} else {machine.registers}
      ensures Valid() && View() == old(View()).(registers := Flushed(old(View()).registers))
    {
      if machine != null {
        machine.DoDelayedLoad(0, 0);
      }
    }

    /** What the handler does. */
    method Respond(response: Response)
      requires Valid()
      modifies repr
      ensures Valid() && fresh(repr - old(repr)) && View() == Responded(old(View()), response)
    {
      ghost var start := View();
      EnqueueAll(response.requests);
      ScheduleAllFrame(start, start, response.requests);
      yieldOnReturn := yieldOnReturn || response.wantsYield;
    }

    /** The calls of Schedule that a handler makes. */
    method EnqueueAll(rs: seq<Request>)
      requires Valid()
      modifies repr
      ensures Valid() && fresh(repr - old(repr)) && View() == ScheduleAll(old(View()), rs)
    {
      ghost var start := View();
      for i := 0 to |rs|
        invariant Valid() && fresh(repr - old(repr))
        invariant View() == ScheduleAll(start, rs[..i])
      {
        assert rs[..i + 1][..i] == rs[..i];
        ScheduleAllFrame(start, start, rs[..i]);
        Enqueue(ToPending(rs[i], totalTicks));
      }
      assert rs[..|rs|] == rs;
    }

    /** The loop that calls every handler due; it ends because handlers only schedule strictly in the future. */
    method FireAllDue()
      requires Valid() && Sound(View()) && level == IntOff && !inHandler
      modifies repr
      ensures Valid() && fresh(repr - old(repr))
      ensures AllFired(respond, old(View()), View()) && NothingDue(View())
    {
      ghost var start := View();
      NoneFired(respond, start);
      var more := true;
      while more
        invariant Valid() && fresh(repr - old(repr))
        invariant AllFired(respond, start, View())
        invariant !more ==> NothingDue(View())
        decreases Due(View()), more
      {
        ghost var before, response := View(), Next();
        more := CheckIfDue(false);
        ChecksAreFirings(respond, start, before);
        if !more {
          UnfiredMeansNothingDue(before, response);
        }
      }
    }

    /** `switches`: the current thread gives up the processor here. */
    method OneTick() returns (switches: bool)
      requires Valid() && Sound(View()) && !inHandler
      modifies repr
      ensures Valid() && fresh(repr - old(repr))
      ensures TickDone(respond, old(View()), View(), switches)
    {
      ghost var start := View();
      BeginTick();
      ghost var ticked := View();
      TickIsSound(start, ticked);
      FireAllDue();
      TicksAreDone(respond, start, ticked, View());
      switches := EndTick();
    }

    method ChangeLevel(now: IntStatus)
      requires Valid()
      modifies this`level
      ensures Valid() && View() == old(View()).(level := now)
    {
      level := now;
    }

    /** Time advances by what the mode costs, and interrupts are turned off. */
    method BeginTick()
      requires Valid()
      modifies this`totalTicks, this`systemTicks, this`userTicks, this`level
      ensures Valid() && View() == Happen(old(View()), Tick(status != SystemMode)).(level := IntOff)
    {
      if status == SystemMode {
        totalTicks := totalTicks + SYSTEM_TICK;
        systemTicks := systemTicks + SYSTEM_TICK;
      } else {
        totalTicks := totalTicks + USER_TICK;
        userTicks := userTicks + USER_TICK;
      }
      ChangeLevel(IntOff);
    }

    /** Interrupts are on again; a switch a handler asked for is done in system mode, the mode being restored. */
    method EndTick() returns (switches: bool)
      requires Valid()
      modifies this`level, this`yieldOnReturn, this`status
      ensures Valid() && View() == old(View()).(level := IntOn, yieldOnReturn := false) && switches == old(yieldOnReturn)
    {
      ChangeLevel(IntOn);
      switches := yieldOnReturn;
      if yieldOnReturn {
        var before := status;
        yieldOnReturn := false;
        status := SystemMode;
        status := before;
      }
    }

    method SetLevel(now: IntStatus) returns (was: IntStatus, switches: bool)
      requires Valid() && Sound(View()) && (now == IntOff || !inHandler)
      modifies repr
      ensures Valid() && fresh(repr - old(repr))
      ensures was == old(level)
      ensures if now == IntOn && was == IntOff then TickDone(respond, old(View()), View(), switches)
              else View() == old(View()).(level := now) && !switches
    {
      was, switches := level, false;
      ChangeLevel(now);
      if now == IntOn && was == IntOff {
        switches := OneTick();
      }
    }

    /** The ready list is empty: run the clock to the next interrupt.  `halts` if there is none worth waiting for. */
    method Idle() returns (halts: bool)
      requires Valid() && Sound(View()) && level == IntOff && !inHandler
      modifies repr
      ensures Valid() && fresh(repr - old(repr))
      ensures IdleDone(old(View()), View(), halts)
    {
      ghost var start := View();
      var any := CheckIdle();
      FinishIdle(start, any);
      return !any;
    }

    /** The part of Idle that runs the clock to the first interrupt and fires it. */
    method CheckIdle() returns (any: bool)
      requires Valid() && Sound(View()) && level == IntOff && !inHandler
      modifies repr
      ensures Valid() && fresh(repr - old(repr))
      ensures IdleChecked(old(View()), View(), any)
    {
      IdleChecks(View(), Next());
      SetStatus(IdleMode);
      any := CheckIfDue(true);
    }

    /** The part of Idle that follows. */
    method FinishIdle(ghost start: Sim, any: bool)
      requires Valid() && Sound(start) && start.level == IntOff && !start.inHandler && IdleChecked(start, View(), any)
      modifies repr
      ensures Valid() && fresh(repr - old(repr))
      ensures IdleDone(start, View(), !any)
    {
      if any {
        ghost var checked := View();
        FireAllDue();
        WakesFromIdle(respond, start, checked, View());
        WakeFromIdle();
      }
    }

    method WakeFromIdle()
      requires Valid()
      modifies this`yieldOnReturn, this`status
      ensures Valid() && View() == old(View()).(yieldOnReturn := false, status := SystemMode)
    {
      yieldOnReturn := false;
      status := SystemMode;
    }
  }
}
