/**
 The timing of the simulated disk (machine/disk.cc): seeks, rotation and the track buffer.
 A track is 32 sectors; the head spends ROTATION_TIME ticks over each, so that slot k, the ticks
 from k * ROTATION_TIME up to (k + 1) * ROTATION_TIME, has the sectors with offset k % 32 under it.
 */
module DiskTiming {
  const SECTORS_PER_TRACK: nat := 32
  const ROTATION_TIME: nat := 500
  const SEEK_TIME: nat := 500

  type SectorNumber = s: nat | s < 1024

  type Offset = o: nat | o < 32

  function Track(s: SectorNumber): nat { s / SECTORS_PER_TRACK }

  /** Seek time, and the wait from the end of the seek to the next sector boundary. */
  function TimeToSeek(lastSector: SectorNumber, newSector: SectorNumber, now: nat): (nat, nat) {
    var distance := if Track(newSector) < Track(lastSector) then Track(lastSector) - Track(newSector) else Track(newSector) - Track(lastSector);
    var seek := distance * SEEK_TIME;
    var over := (now + seek) % ROTATION_TIME;
    (seek, if over > 0 then ROTATION_TIME - over else 0)
  }

  function ModuloDiff(to: int, from: int): int {
    ((to % SECTORS_PER_TRACK - from % SECTORS_PER_TRACK) + SECTORS_PER_TRACK) % SECTORS_PER_TRACK
  }

  /** The condition under which a request is served from the track buffer. */
  predicate Buffered(lastSector: SectorNumber, bufferInit: nat, newSector: SectorNumber, now: nat, writing: bool) {
    var (seek, rotation) := TimeToSeek(lastSector, newSector, now);
    var timeAfter := now + seek + rotation;
    !writing && seek == 0 && (timeAfter - bufferInit) / ROTATION_TIME > ModuloDiff(newSector, bufferInit / ROTATION_TIME)
  }

  function ComputeLatency(lastSector: SectorNumber, bufferInit: nat, newSector: SectorNumber, now: nat, writing: bool): int {
    var (seek, rotation) := TimeToSeek(lastSector, newSector, now);
    var timeAfter := now + seek + rotation;
    if Buffered(lastSector, bufferInit, newSector, now, writing) then ROTATION_TIME
    else seek + (rotation + ModuloDiff(newSector, timeAfter / ROTATION_TIME) * ROTATION_TIME) + ROTATION_TIME
  }

  function UpdateBufferInit(lastSector: SectorNumber, bufferInit: nat, newSector: SectorNumber, now: nat): nat {
    var (seek, rotation) := TimeToSeek(lastSector, newSector, now);
    if seek != 0 then now + seek + rotation else bufferInit
  }

  // ---------------------------------------------------------------- what the numbers mean

  /** In slot k the head passes over the sector's offset. */
  predicate Under(k: nat, s: SectorNumber) {
    k % 32 == s % 32
  }

  function Distance(a: int, b: int): nat { if a < b then b - a else a - b }

  /** 500 ticks for every track of 32 sectors the head crosses. */
  lemma SeekTimeIs(lastSector: SectorNumber, newSector: SectorNumber, now: nat)
    ensures TimeToSeek(lastSector, newSector, now).0 == 500 * Distance(lastSector / 32, newSector / 32)
  {
  }

  /** The seek ends, and the wait for the boundary is the shortest there is. */
  lemma SeekEndsOnBoundary(lastSector: SectorNumber, newSector: SectorNumber, now: nat)
    ensures var (seek, rotation) := TimeToSeek(lastSector, newSector, now);
      && (now + seek + rotation) % ROTATION_TIME == 0
      && rotation < ROTATION_TIME
      && (seek == 0 <==> Track(newSector) == Track(lastSector))
  {
    var (seek, rotation) := TimeToSeek(lastSector, newSector, now);
    NextBoundary(now + seek);
  }

  lemma NextBoundary(t: nat)
    ensures var over := t % ROTATION_TIME; (t + (if over > 0 then ROTATION_TIME - over else 0)) % ROTATION_TIME == 0
  {
    var over := t % ROTATION_TIME;
    assert t == t / ROTATION_TIME * ROTATION_TIME + over;
    if over > 0 {
      assert t + (ROTATION_TIME - over) == (t / ROTATION_TIME + 1) * ROTATION_TIME;
    }
  }

  /** `from + ModuloDiff(to, from)` is the first slot at or after slot `from` with `to` under the head. */
  lemma ModuloDiffIsNext(to: SectorNumber, from: nat)
    ensures 0 <= ModuloDiff(to, from) < SECTORS_PER_TRACK
    ensures Under(from + ModuloDiff(to, from), to)
    ensures forall k: nat :: from <= k && Under(k, to) ==> from + ModuloDiff(to, from) <= k
  {
    var d := ModuloDiff(to, from);
    var f, t := from % SECTORS_PER_TRACK, to % SECTORS_PER_TRACK;
    assert d == if t >= f then t - f else t - f + 32;
    assert (from + d) % 32 == (f + d) % 32;
    forall k: nat | from <= k && Under(k, to) ensures from + d <= k {
      NoneEarlier(to, from, k);
    }
  }

  lemma NoneEarlier(to: SectorNumber, from: nat, k: nat)
    requires from <= k && Under(k, to)
    ensures from + ModuloDiff(to, from) <= k
  {
    var f, t, e := from % SECTORS_PER_TRACK, to % SECTORS_PER_TRACK, k - from;
    assert ModuloDiff(to, from) == if t >= f then t - f else t - f + 32;
    assert k % 32 == (f + e) % 32;
  }

  /**
   The track buffer serves a read exactly when some whole slot with the sector under the head lies
   between the time the buffer started loading and the next sector boundary.
   */
  lemma BufferedIff(lastSector: SectorNumber, bufferInit: nat, newSector: SectorNumber, now: nat)
    requires bufferInit % ROTATION_TIME == 0 && bufferInit <= now
    ensures var (seek, rotation) := TimeToSeek(lastSector, newSector, now);
      Buffered(lastSector, bufferInit, newSector, now, false) <==>
        && Track(newSector) == Track(lastSector)
        && exists k: nat :: Under(k, newSector) && bufferInit <= k * ROTATION_TIME && (k + 1) * ROTATION_TIME <= now + rotation
  {
    SeekEndsOnBoundary(lastSector, newSector, now);
    var (seek, rotation) := TimeToSeek(lastSector, newSector, now);
    var first, next := bufferInit / ROTATION_TIME, (now + seek + rotation) / ROTATION_TIME;
    ModuloDiffIsNext(newSector, first);
    var k0 := first + ModuloDiff(newSector, first);
    assert bufferInit == first * 500 && now + seek + rotation == next * 500;
    assert (now + seek + rotation - bufferInit) / ROTATION_TIME == next - first;
    if seek == 0 {
      if Buffered(lastSector, bufferInit, newSector, now, false) {
        assert Under(k0, newSector) && bufferInit <= k0 * ROTATION_TIME && (k0 + 1) * ROTATION_TIME <= now + rotation;
      }
      forall k: nat | Under(k, newSector) && bufferInit <= k * ROTATION_TIME && (k + 1) * ROTATION_TIME <= now + rotation
        ensures k0 + 1 <= next
      {
        assert first <= k;
      }
    }
  }

  /** A request is over no sooner than one sector time after it was made, and a buffered one after exactly that. */
  lemma LatencyAtLeastOneSector(lastSector: SectorNumber, bufferInit: nat, newSector: SectorNumber, now: nat, writing: bool)
    ensures ComputeLatency(lastSector, bufferInit, newSector, now, writing) >= ROTATION_TIME
    ensures Buffered(lastSector, bufferInit, newSector, now, writing) ==>
              var (seek, rotation) := TimeToSeek(lastSector, newSector, now);
              now + rotation <= now + ComputeLatency(lastSector, bufferInit, newSector, now, writing)
  {
    var (seek, rotation) := TimeToSeek(lastSector, newSector, now);
    ModuloDiffIsNext(newSector, (now + seek + rotation) / ROTATION_TIME);
    SeekEndsOnBoundary(lastSector, newSector, now);
  }

  /** Otherwise the request ends with the first slot after the seek in which the sector passes under the head. */
  lemma UnbufferedEndsAfterSector(lastSector: SectorNumber, bufferInit: nat, newSector: SectorNumber, now: nat, writing: bool)
    requires !Buffered(lastSector, bufferInit, newSector, now, writing)
    ensures var (seek, _) := TimeToSeek(lastSector, newSector, now);
      var done := now + ComputeLatency(lastSector, bufferInit, newSector, now, writing);
      exists k: nat ::
        && done == (k + 1) * ROTATION_TIME && Under(k, newSector) && now + seek <= k * ROTATION_TIME
        && forall j: nat :: Under(j, newSector) && now + seek <= j * ROTATION_TIME ==> k <= j
  {
    SeekEndsOnBoundary(lastSector, newSector, now);
    var (seek, rotation) := TimeToSeek(lastSector, newSector, now);
    var next := (now + seek + rotation) / ROTATION_TIME;
    ModuloDiffIsNext(newSector, next);
    var k := next + ModuloDiff(newSector, next);
    assert now + seek + rotation == next * 500;
    forall j: nat | Under(j, newSector) && now + seek <= j * ROTATION_TIME ensures k <= j {
      assert next * 500 < now + seek + 500;
      assert next <= j;
    }
  }

  /** A whole slot of the sector lies between the time the buffer began to load and the next boundary after now. */
  ghost predicate PassedSince(bufferInit: nat, sector: SectorNumber, now: nat) {
    exists k: nat :: Under(k, sector) && bufferInit <= 500 * k && 500 * (k + 1) < now + 500
  }

  /** Time `done` is the end of the first slot of the sector that begins no sooner than `from`. */
  ghost predicate EndsFirstPass(done: int, sector: SectorNumber, from: nat) {
    exists k: nat ::
      && Under(k, sector) && done == 500 * (k + 1) && from <= 500 * k
      && forall j: nat :: Under(j, sector) && from <= 500 * j ==> k <= j
  }

  /**
   When a request is over: one sector's time from now for a read of a sector that has passed under the
   head since it came to this track, and else after the first whole pass of the sector since the seek.
   */
  lemma LatencyIs(lastSector: SectorNumber, bufferInit: nat, newSector: SectorNumber, now: nat, writing: bool)
    requires bufferInit % 500 == 0 && bufferInit <= now
    ensures var ticks := ComputeLatency(lastSector, bufferInit, newSector, now, writing);
      if !writing && newSector / 32 == lastSector / 32 && PassedSince(bufferInit, newSector, now) then ticks == 500
      else EndsFirstPass(now + ticks, newSector, now + 500 * Distance(lastSector / 32, newSector / 32))
  {
    SeekTimeIs(lastSector, newSector, now);
    if !writing {
      PassedIff(lastSector, bufferInit, newSector, now);
    }
    SeekEndsOnBoundary(lastSector, newSector, now);
    if !Buffered(lastSector, bufferInit, newSector, now, writing) {
      EndsAfterPass(lastSector, bufferInit, newSector, now, writing);
    }
  }

  lemma PassedIff(lastSector: SectorNumber, bufferInit: nat, newSector: SectorNumber, now: nat)
    requires bufferInit % 500 == 0 && bufferInit <= now
    ensures Buffered(lastSector, bufferInit, newSector, now, false) <==>
            newSector / 32 == lastSector / 32 && PassedSince(bufferInit, newSector, now)
  {
    BufferedIff(lastSector, bufferInit, newSector, now);
    SeekEndsOnBoundary(lastSector, newSector, now);
    var (seek, rotation) := TimeToSeek(lastSector, newSector, now);
    if Track(newSector) == Track(lastSector) {
      if k: nat :| Under(k, newSector) && bufferInit <= k * ROTATION_TIME && (k + 1) * ROTATION_TIME <= now + rotation {
        BeforeBoundary(k + 1, now, rotation);
        assert Under(k, newSector) && bufferInit <= 500 * k && 500 * (k + 1) < now + 500;
      }
      if PassedSince(bufferInit, newSector, now) {
        var k: nat :| Under(k, newSector) && bufferInit <= 500 * k && 500 * (k + 1) < now + 500;
        BeforeBoundary(k + 1, now, rotation);
        assert Under(k, newSector) && bufferInit <= k * ROTATION_TIME && (k + 1) * ROTATION_TIME <= now + rotation;
      }
    }
  }

  lemma BeforeBoundary(k: nat, now: nat, rotation: nat)
    requires (now + rotation) % 500 == 0 && rotation < 500
    ensures k * 500 <= now + rotation <==> 500 * k < now + 500
  {
  }

  lemma EndsAfterPass(lastSector: SectorNumber, bufferInit: nat, newSector: SectorNumber, now: nat, writing: bool)
    requires !Buffered(lastSector, bufferInit, newSector, now, writing)
    ensures EndsFirstPass(now + ComputeLatency(lastSector, bufferInit, newSector, now, writing), newSector,
                          now + TimeToSeek(lastSector, newSector, now).0)
  {
    UnbufferedEndsAfterSector(lastSector, bufferInit, newSector, now, writing);
    var seek, done := TimeToSeek(lastSector, newSector, now).0, now + ComputeLatency(lastSector, bufferInit, newSector, now, writing);
    var k: nat :|
      && done == (k + 1) * ROTATION_TIME && Under(k, newSector) && now + seek <= k * ROTATION_TIME
      && forall j: nat :: Under(j, newSector) && now + seek <= j * ROTATION_TIME ==> k <= j;
    forall j: nat | Under(j, newSector) && now + seek <= 500 * j ensures k <= j {
    }
    assert Under(k, newSector) && done == 500 * (k + 1) && now + seek <= 500 * k;
  }

  // ---------------------------------------------------------------- runs of requests

  /**
   The disk between requests.  Bookkeeping: when the head last came to rest on its track, and when
   the latest request was over.
   */
  datatype State = State(lastSector: SectorNumber, bufferInit: nat, settled: nat, idleFrom: nat)

  datatype Request = Request(sector: SectorNumber, now: nat, writing: bool)

  const INITIAL := State(0, 0, 0, 0)

  /** One request at a time: the next is made when the one before is over. */
  predicate CanServe(s: State, r: Request) {
    s.idleFrom <= r.now
  }

  function Done(s: State, r: Request): int {
    r.now + ComputeLatency(s.lastSector, s.bufferInit, r.sector, r.now, r.writing)
  }

  function Serve(s: State, r: Request): State
    requires CanServe(s, r)
  {
    var (seek, _) := TimeToSeek(s.lastSector, r.sector, r.now);
    LatencyAtLeastOneSector(s.lastSector, s.bufferInit, r.sector, r.now, r.writing);
    State(r.sector, UpdateBufferInit(s.lastSector, s.bufferInit, r.sector, r.now),
          if seek != 0 then r.now + seek else s.settled, Done(s, r))
  }

  /** The buffer has been loading from the first sector boundary after the head came to rest. */
  ghost predicate Inv(s: State) {
    && s.bufferInit % ROTATION_TIME == 0
    && s.settled <= s.bufferInit < s.settled + ROTATION_TIME
    && s.bufferInit <= s.idleFrom
  }

  lemma ServeKeepsInv(s: State, r: Request)
    requires Inv(s) && CanServe(s, r)
    ensures Inv(Serve(s, r))
  {
    SeekEndsOnBoundary(s.lastSector, r.sector, r.now);
    var (seek, rotation) := TimeToSeek(s.lastSector, r.sector, r.now);
    ModuloDiffIsNext(r.sector, (r.now + seek + rotation) / ROTATION_TIME);
  }

  ghost predicate IsRun(s: State, rs: seq<Request>)
    decreases rs
  {
    rs == [] || (CanServe(s, rs[0]) && IsRun(Serve(s, rs[0]), rs[1..]))
  }

  function After(s: State, rs: seq<Request>): State
    requires IsRun(s, rs)
    decreases rs
  {
    if rs == [] then s else After(Serve(s, rs[0]), rs[1..])
  }

  lemma {:induction false} RunKeepsInv(s: State, rs: seq<Request>)
    requires Inv(s) && IsRun(s, rs)
    ensures Inv(After(s, rs))
    decreases rs
  {
    if rs != [] {
      ServeKeepsInv(s, rs[0]);
      RunKeepsInv(Serve(s, rs[0]), rs[1..]);
    }
  }

  /**
   After any requests: a read is served from the buffer only if the sector went by whole under the
   head after the head came to rest on its track, and by the time the request is over.
   */
  lemma BufferHoldsSector(rs: seq<Request>, r: Request)
    requires IsRun(INITIAL, rs) && CanServe(After(INITIAL, rs), r)
    ensures var s := After(INITIAL, rs);
      Buffered(s.lastSector, s.bufferInit, r.sector, r.now, r.writing) ==>
        && !r.writing && Track(r.sector) == Track(s.lastSector)
        && exists k: nat :: Under(k, r.sector) && s.settled <= k * ROTATION_TIME && (k + 1) * ROTATION_TIME <= Done(s, r)
  {
    RunKeepsInv(INITIAL, rs);
    var s := After(INITIAL, rs);
    if Buffered(s.lastSector, s.bufferInit, r.sector, r.now, r.writing) {
      BufferedIff(s.lastSector, s.bufferInit, r.sector, r.now);
      LatencyAtLeastOneSector(s.lastSector, s.bufferInit, r.sector, r.now, r.writing);
      var (_, rotation) := TimeToSeek(s.lastSector, r.sector, r.now);
      var k: nat :| Under(k, r.sector) && s.bufferInit <= k * ROTATION_TIME && (k + 1) * ROTATION_TIME <= r.now + rotation;
      assert (k + 1) * ROTATION_TIME <= Done(s, r);
    }
  }

  // ---------------------------------------------------------------- the device

  class Disk {
    var active: bool
    var lastSector: SectorNumber
    var bufferInit: nat
    ghost var settled: nat
    ghost var idleFrom: nat

    ghost function View(): State
      reads this
    {
      State(lastSector, bufferInit, settled, idleFrom)
    }

    constructor ()
      ensures !active && View() == INITIAL && Inv(View())
    {
      active, lastSector, bufferInit, settled, idleFrom := false, 0, 0, 0, 0;
    }

    /** ReadRequest and WriteRequest: the completion interrupt is scheduled `ticks` from now. */
    method StartRequest(sectorNumber: SectorNumber, now: nat, writing: bool) returns (ticks: int)
      requires !active && Inv(View()) && idleFrom <= now
      modifies this
      ensures active && ticks >= ROTATION_TIME
      ensures View() == Serve(old(View()), Request(sectorNumber, now, writing)) && Inv(View())
      ensures idleFrom == now + ticks
      ensures if !writing && sectorNumber / 32 == old(lastSector) / 32 && PassedSince(old(bufferInit), sectorNumber, now) then ticks == 500
              else EndsFirstPass(now + ticks, sectorNumber, now + 500 * Distance(old(lastSector) / 32, sectorNumber / 32))
      ensures lastSector == sectorNumber
      ensures var arrived := now + 500 * Distance(old(lastSector) / 32, sectorNumber / 32);
        if arrived == now then bufferInit == old(bufferInit) && settled == old(settled)
        else settled == arrived <= bufferInit < arrived + 500 && bufferInit % 500 == 0
    {
      LatencyIs(lastSector, bufferInit, sectorNumber, now, writing);
      SeekTimeIs(lastSector, sectorNumber, now);
      SeekEndsOnBoundary(lastSector, sectorNumber, now);
      ServeKeepsInv(View(), Request(sectorNumber, now, writing));
      LatencyAtLeastOneSector(lastSector, bufferInit, sectorNumber, now, writing);
      var (seek, rotation) := TimeToSeek(lastSector, sectorNumber, now);
      var timeAfter := now + seek + rotation;
      if !writing && seek == 0 && (timeAfter - bufferInit) / ROTATION_TIME > ModuloDiff(sectorNumber, bufferInit / ROTATION_TIME) {
        ticks := ROTATION_TIME;
      } else {
        rotation := rotation + ModuloDiff(sectorNumber, timeAfter / ROTATION_TIME) * ROTATION_TIME;
        ticks := seek + rotation + ROTATION_TIME;
      }
      active := true;
      UpdateLast(sectorNumber, now);
      idleFrom := now + ticks;
    }

    method UpdateLast(newSector: SectorNumber, now: nat)
      modifies this`lastSector, this`bufferInit, this`settled
      ensures lastSector == newSector
      ensures bufferInit == UpdateBufferInit(old(lastSector), old(bufferInit), newSector, now)
      ensures settled == var seek := TimeToSeek(old(lastSector), newSector, now).0; if seek != 0 then now + seek else old(settled)
    {
      var (seek, rotate) := TimeToSeek(lastSector, newSector, now);
      if seek != 0 {
        bufferInit := now + seek + rotate;
        settled := now + seek;
      }
      lastSector := newSector;
    }

    method HandleInterrupt()
      requires active
      modifies this`active
      ensures !active
    {
      active := false;
    }
  }
}
