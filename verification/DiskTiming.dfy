/**
 * The simulated disk's clockwork: seeks, rotation and the track buffer. One sector passes the head every 500
 * ticks and the head crosses one track every 500 ticks; a track has 32 sectors and the disk 32 tracks.
 * Time slot `k` is the interval `[500 * k, 500 * (k + 1))`: sector offset `k % 32` is under the head during it.
 */
module DiskTiming {
  const NUM_SECTORS := 1024
  const ROTATION_TIME := 500
  const MAX_LATENCY := 31999

  /** The slot that time `t` is in. */
  function Slot(t: int): int {
    t / 500
  }

  predicate OnBoundary(t: int) {
    t % 500 == 0
  }

  function Track(sector: int): int {
    sector / 32
  }

  function Offset(slot: int): int {
    slot % 32
  }

  function Abs(x: int): nat {
    if x < 0 then -x else x
  }

  predicate OnDisk(sector: int) {
    0 <= sector < NUM_SECTORS
  }

  /** The first sector boundary at or after time `t`. */
  function Boundary(t: nat): (b: nat)
    ensures OnBoundary(b) && t <= b < t + ROTATION_TIME
  {
    (t + 499) / 500 * 500
  }

  function SeekTicks(oldSector: int, newSector: int): nat {
    Abs(Track(newSector) - Track(oldSector)) * 500
  }

  /** When the head is on the new track and at a sector boundary. */
  function Settled(oldSector: int, newSector: int, now: nat): nat {
    Boundary(now + SeekTicks(oldSector, newSector))
  }

  // ---- the head that these times describe ----

  /** Where a head bound for track `to` is after `elapsed` ticks: it crosses one track every 500. */
  function HeadAt(from: int, to: int, elapsed: nat): int
    decreases elapsed
  {
    if from == to || elapsed < 500 then from
    else HeadAt(if from < to then from + 1 else from - 1, to, elapsed - 500)
  }

  /** A head that has not had 500 ticks for each track is not there yet; after that it is. */
  lemma {:induction false} HeadArrives(from: int, to: int, elapsed: nat)
    ensures HeadAt(from, to, elapsed) == to <==> Abs(to - from) * 500 <= elapsed
    decreases elapsed
  {
    if from != to && elapsed >= 500 {
      HeadArrives(if from < to then from + 1 else from - 1, to, elapsed - 500);
    }
  }

  /** A seek takes exactly until the head first is on the new track. */
  lemma {:induction false} SeekIsTravel(oldSector: int, newSector: int, elapsed: nat)
    ensures HeadAt(Track(oldSector), Track(newSector), elapsed) == Track(newSector) <==> SeekTicks(oldSector, newSector) <= elapsed
  {
    HeadArrives(Track(oldSector), Track(newSector), elapsed);
  }

  /** Seeks take as long back as forth, 500 ticks to a neighbouring track, and add up over a track between. */
  lemma {:induction false} SeekDistances(a: int, b: int, c: int)
    ensures SeekTicks(a, b) == SeekTicks(b, a)
    ensures Abs(Track(a) - Track(b)) == 1 ==> SeekTicks(a, b) == 500
    ensures Track(a) <= Track(b) <= Track(c) ==> SeekTicks(a, c) == SeekTicks(a, b) + SeekTicks(b, c)
  {}

  /** The head has settled at the first sector boundary at which it is on the new track. */
  lemma {:induction false} SettledMeaning(oldSector: int, newSector: int, now: nat, b: nat)
    requires OnBoundary(b) && now <= b
    ensures OnBoundary(Settled(oldSector, newSector, now)) && now <= Settled(oldSector, newSector, now)
    ensures HeadAt(Track(oldSector), Track(newSector), b - now) == Track(newSector) <==> Settled(oldSector, newSector, now) <= b
  {
    SeekIsTravel(oldSector, newSector, b - now);
  }

  /** A sector is its track and its place on the track. */
  lemma {:induction false} Geometry(sector: int)
    ensures sector == 32 * Track(sector) + Offset(sector) && 0 <= Offset(sector) < 32
    ensures OnDisk(sector) <==> 0 <= Track(sector) < 32
  {}

  /** Some whole slot from time `start` up to time `end` showed the head this sector's offset. */
  ghost predicate Passed(sector: int, start: int, end: int) {
    exists k :: Slot(start) <= k < Slot(end) && Offset(k) == Offset(sector)
  }

  /** `end` is the first time at which the whole sector has passed under a head that settled at `settled`. */
  ghost predicate EndsUnderHead(sector: int, settled: int, end: int) {
    && OnBoundary(end) && settled <= end - ROTATION_TIME
    && Offset(Slot(end) - 1) == Offset(sector)
    && forall k :: Slot(settled) <= k < Slot(end) - 1 ==> Offset(k) != Offset(sector)
  }

  datatype State = State(active: bool, lastSector: int, bufferInit: nat, doneAt: nat)

  datatype Request = Request(now: nat, sector: int, writing: bool)

  /** The track buffer can serve this request. */
  ghost predicate Hit(s: State, q: Request) {
    && !q.writing && Track(q.sector) == Track(s.lastSector)
    && Passed(q.sector, s.bufferInit, Boundary(q.now))
  }

  /** How long a request takes, said without computing it. */
  ghost predicate Latency(s: State, q: Request, ticks: int) {
    if Hit(s, q) then
      ticks == ROTATION_TIME
    else
      EndsUnderHead(q.sector, Settled(s.lastSector, q.sector, q.now), q.now + ticks)
  }

  /** What every request finds: the buffer began at a sector boundary, and not in the future. */
  predicate Ready(s: State, now: nat) {
    !s.active && OnDisk(s.lastSector) && OnBoundary(s.bufferInit) && s.bufferInit <= now
  }

  function ModuloDiff(target: int, from: int): (d: int)
    ensures 0 <= d < 32 && Offset(from + d) == Offset(target)
  {
    ((target % 32 - from % 32) + 32) % 32
  }

  lemma {:induction false} NotBefore(target: int, from: int, k: int)
    requires from <= k < from + ModuloDiff(target, from)
    ensures Offset(k) != Offset(target)
  {
    OffsetsDiffer(k, from + ModuloDiff(target, from));
  }

  lemma {:induction false} OffsetsDiffer(x: int, y: int)
    requires 0 < y - x < 32
    ensures Offset(x) != Offset(y)
  {}

  class Disk {
    var active: bool
    var lastSector: int
    var bufferInit: nat
    ghost var doneAt: nat

    ghost function Now(): State
      reads this
    {
      State(active, lastSector, bufferInit, doneAt)
    }

    constructor ()
      ensures Now() == Initial()
    {
      lastSector := 0;
      bufferInit := 0;
      active := false;
      doneAt := 0;
    }

    method TimeToSeek(now: nat, newSector: int) returns (seek: nat, rotation: nat)
      requires OnDisk(newSector) && OnDisk(lastSector)
      ensures seek == SeekTicks(lastSector, newSector)
      ensures now + seek + rotation == Settled(lastSector, newSector, now)
    {
      var newTrack := newSector / 32;
      var oldTrack := lastSector / 32;
      seek := Abs(newTrack - oldTrack) * 500;
      var over := (now + seek) % 500;
      rotation := 0;
      if over > 0 {
        rotation := ROTATION_TIME - over;
      }
      BoundaryUnique(now + seek, now + seek + rotation);
    }

    method ComputeLatency(now: nat, newSector: int, writing: bool) returns (ticks: nat)
      requires OnDisk(newSector) && Ready(Now(), now)
      ensures Latency(Now(), Request(now, newSector, writing), ticks)
      ensures ROTATION_TIME <= ticks <= MAX_LATENCY
    {
      ghost var q := Request(now, newSector, writing);
      var seek, rotation := TimeToSeek(now, newSector);
      var timeAfter := now + seek + rotation;
      HitTest(Now(), q, timeAfter);
      if !writing && seek == 0
        && Slot(timeAfter - bufferInit) > ModuloDiff(newSector, Slot(bufferInit))
      {
        return ROTATION_TIME;
      }
      var behind := ModuloDiff(newSector, Slot(timeAfter));
      Waits(newSector, timeAfter, behind);
      ticks := seek + (rotation + behind * 500) + ROTATION_TIME;
      LatencyBounds(Now(), q, ticks);
    }

    method UpdateLast(now: nat, newSector: int)
      requires OnDisk(newSector) && OnDisk(lastSector)
      modifies this
      ensures lastSector == newSector && active == old(active) && doneAt == old(doneAt)
      ensures bufferInit == BufferStart(old(Now()), Request(now, newSector, false))
    {
      var seek, rotate := TimeToSeek(now, newSector);
      if seek != 0 {
        bufferInit := now + seek + rotate;
      }
      lastSector := newSector;
    }

    /** `ReadRequest` and `WriteRequest`, which differ only in `writing` and in the direction of the transfer. */
    method Submit(now: nat, sectorNumber: int, writing: bool) returns (ticks: nat)
      requires OnDisk(sectorNumber) && Ready(Now(), now)
      modifies this
      ensures Latency(old(Now()), Request(now, sectorNumber, writing), ticks) && ROTATION_TIME <= ticks <= MAX_LATENCY
      ensures Accepted(old(Now()), Request(now, sectorNumber, writing), Now()) && doneAt == now + ticks
    {
      ticks := ComputeLatency(now, sectorNumber, writing);
      active := true;
      UpdateLast(now, sectorNumber);
      doneAt := now + ticks;
    }

    method HandleInterrupt()
      modifies this
      ensures Now() == old(Now()).(active := false)
    {
      active := false;
    }
  }

  lemma {:induction false} BoundaryUnique(t: nat, b: nat)
    requires OnBoundary(b) && t <= b < t + ROTATION_TIME
    ensures b == Boundary(t)
  {}

  /** The code's arithmetic test for the track buffer is the buffer's meaning. */
  lemma {:induction false} HitTest(s: State, q: Request, timeAfter: nat)
    requires OnDisk(q.sector) && Ready(s, q.now) && timeAfter == Settled(s.lastSector, q.sector, q.now)
    ensures Hit(s, q) <==>
      !q.writing && SeekTicks(s.lastSector, q.sector) == 0
      && Slot(timeAfter - s.bufferInit) > ModuloDiff(q.sector, Slot(s.bufferInit))
  {
    var from, upto := Slot(s.bufferInit), Slot(Boundary(q.now));
    var d := ModuloDiff(q.sector, from);
    if upto - from > d {
      assert Offset(from + d) == Offset(q.sector);
    } else {
      forall k | from <= k < upto
        ensures Offset(k) != Offset(q.sector)
      {
        NotBefore(q.sector, from, k);
      }
    }
  }

  lemma {:induction false} Waits(sector: int, settled: nat, behind: nat)
    requires OnBoundary(settled) && behind == ModuloDiff(sector, Slot(settled))
    ensures EndsUnderHead(sector, settled, settled + behind * 500 + ROTATION_TIME)
  {
    var first := Slot(settled);
    assert Slot(settled + behind * 500 + ROTATION_TIME) - 1 == first + behind;
    forall k | first <= k < first + behind
      ensures Offset(k) != Offset(sector)
    {
      NotBefore(sector, first, k);
    }
  }

  // Whole runs

  function Initial(): State {
    State(false, 0, 0, 0)
  }

  /** The track buffer is kept over requests on the track and started afresh by a seek. */
  function BufferStart(s: State, q: Request): nat {
    if Track(q.sector) == Track(s.lastSector) then s.bufferInit else Settled(s.lastSector, q.sector, q.now)
  }

  ghost predicate Accepted(s: State, q: Request, s': State) {
    && s'.active && s'.lastSector == q.sector && s'.bufferInit == BufferStart(s, q)
    && s'.doneAt >= q.now && Latency(s, q, s'.doneAt - q.now)
  }

  /** One request, and then its completion interrupt: the disk takes no request in between. */
  ghost predicate Served(s: State, q: Request, s': State) {
    exists mid: State :: Accepted(s, q, mid) && s' == mid.(active := false)
  }

  /**
   * A run: requests to sectors of the disk, each made when the disk is idle and so not before the last one's
   * interrupt, which is never early.
   */
  ghost predicate Run(states: seq<State>, requests: seq<Request>) {
    && |states| == |requests| + 1 && states[0] == Initial()
    && (forall i :: 0 <= i < |requests| ==> OnDisk(requests[i].sector) && states[i].doneAt <= requests[i].now)
    && (forall i :: 0 <= i < |requests| ==> Served(states[i], requests[i], states[i + 1]))
  }

  /** Every latency is within the bounds, and no interrupt is earlier than the start of the buffer. */
  lemma {:induction false} LatencyBounds(s: State, q: Request, ticks: int)
    requires Ready(s, q.now) && OnDisk(q.sector) && Latency(s, q, ticks)
    ensures ROTATION_TIME <= ticks <= MAX_LATENCY
    ensures BufferStart(s, q) <= q.now + ticks && OnBoundary(BufferStart(s, q))
  {
    if !Hit(s, q) {
      var settled := Settled(s.lastSector, q.sector, q.now);
      var d := ModuloDiff(q.sector, Slot(settled));
      assert Offset(Slot(settled) + d) == Offset(q.sector);
      assert Slot(q.now + ticks) - 1 <= Slot(settled) + d;
    }
  }

  /** Both bounds are attained: by a sector that is in the buffer, and by the worst seek to a sector just missed. */
  lemma {:induction false} BoundsAttained() returns (s: State, hit: Request, miss: Request)
    ensures OnDisk(hit.sector) && Ready(s, hit.now) && Latency(s, hit, ROTATION_TIME)
    ensures OnDisk(miss.sector) && Ready(s, miss.now) && Latency(s, miss, MAX_LATENCY)
  {
    s, hit, miss := Initial(), Request(500, 0, false), Request(1, 1023, true);
    assert Slot(0) <= 0 < Slot(Boundary(500)) && Offset(0) == Offset(hit.sector);
    assert SeekTicks(0, 1023) == 15500;
    assert Boundary(15501) == 16000;
    forall k | Slot(16000) <= k < Slot(32000) - 1
      ensures Offset(k) != Offset(1023)
    {
      assert 32 <= k < 63;
    }
  }

  lemma {:induction false} ServedLeaves(s: State, q: Request, s': State)
    requires Ready(s, q.now) && OnDisk(q.sector) && Served(s, q, s')
    ensures ROTATION_TIME <= s'.doneAt - q.now <= MAX_LATENCY && Ready(s', s'.doneAt)
  {
    var mid :| Accepted(s, q, mid) && s' == mid.(active := false);
    LatencyBounds(s, q, mid.doneAt - q.now);
  }

  /** In every run, whatever the requests and their timing, each request finds the disk ready. */
  lemma {:induction false} EveryRequestReady(states: seq<State>, requests: seq<Request>, i: nat)
    requires Run(states, requests) && i < |requests|
    ensures Ready(states[i], requests[i].now)
    ensures ROTATION_TIME <= states[i + 1].doneAt - requests[i].now <= MAX_LATENCY
  {
    if i > 0 {
      EveryRequestReady(states, requests, i - 1);
      ServedLeaves(states[i - 1], requests[i - 1], states[i]);
    }
    ServedLeaves(states[i], requests[i], states[i + 1]);
  }

  function SectorBefore(requests: seq<Request>, i: int): int {
    if 0 < i <= |requests| then requests[i - 1].sector else 0
  }

  /**
   * What the buffer's start time means: request `i` moved the head, no later one of the first `n` did, and the
   * buffer starts at the sector boundary at which the head settled then; or, for -1, the head has never left
   * the first track, and the buffer starts at time 0.
   */
  ghost predicate StartsAt(requests: seq<Request>, n: nat, i: int, start: nat)
    requires n <= |requests|
  {
    && -1 <= i < n
    && (forall j :: i < j < n ==> Track(requests[j].sector) == Track(SectorBefore(requests, i + 1)))
    && (i == -1 ==> start == 0)
    && (i >= 0 ==>
          && Track(SectorBefore(requests, i)) != Track(requests[i].sector)
          && start == Settled(SectorBefore(requests, i), requests[i].sector, requests[i].now))
  }

  /** In every run, after every request. */
  lemma {:induction false} BufferMeaning(states: seq<State>, requests: seq<Request>, n: nat) returns (i: int)
    requires Run(states, requests) && n <= |requests|
    ensures states[n].lastSector == SectorBefore(requests, n)
    ensures StartsAt(requests, n, i, states[n].bufferInit)
  {
    if n == 0 {
      i := -1;
    } else {
      i := BufferMeaning(states, requests, n - 1);
      assert Served(states[n - 1], requests[n - 1], states[n]);
      var q, before := requests[n - 1], SectorBefore(requests, n - 1);
      if Track(q.sector) == Track(before) {
        StaysOnTrack(requests, n, i, states[n].bufferInit);
      } else {
        i := n - 1;
      }
    }
  }

  lemma {:induction false} StaysOnTrack(requests: seq<Request>, n: nat, i: int, start: nat)
    requires 0 < n <= |requests| && StartsAt(requests, n - 1, i, start)
    requires Track(requests[n - 1].sector) == Track(SectorBefore(requests, n - 1))
    ensures StartsAt(requests, n, i, start)
  {
    assert n - 1 > i + 1 ==> Track(requests[n - 2].sector) == Track(SectorBefore(requests, i + 1));
  }
}
