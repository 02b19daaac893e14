/**
 * The interrupt simulator: simulated time, the sorted list of pending interrupts, and their delivery.
 * A handler is arbitrary: its n-th invocation schedules any interrupts it likes, all in the future, and may
 * ask for a yield. `Handlers` is the table of those choices, so that "for all tables" is "for all handlers".
 */
module Interrupts {
  import opened Lists

  datatype Device = TimerInt | DiskInt | ConsoleWriteInt | ConsoleReadInt | NetworkSendInt | NetworkRecvInt

  datatype Interruption = Interruption(handler: int, arg: int, device: Device)

  type Delay = d: int | d > 0 witness 1

  datatype Effects = Effects(requests: seq<(Interruption, Delay)>, wantsYield: bool)

  type Handlers = nat -> Effects

  datatype Status = IdleMode | SystemMode | UserMode

  /** A delivered interrupt: what it was, when it was due, and the clock when its handler ran. */
  datatype Firing = Firing(entry: Entry<Interruption>, at: int)

  datatype Sim = Sim(
    level: bool,
    status: Status,
    yieldOnReturn: bool,
    halted: bool,
    pending: seq<Entry<Interruption>>,
    total: int,
    idle: int,
    system: int,
    user: int,
    scheduled: multiset<Entry<Interruption>>,
    fired: seq<Firing>)

  // ---- the steps ----

  /** The pending list with one more interrupt: after everything due no later. */
  function Queued(p: seq<Entry<Interruption>>, what: Interruption, when: int): seq<Entry<Interruption>> {
    if p == [] || when < p[0].1 then [(what, when)] + p else [p[0]] + Queued(p[1..], what, when)
  }

  /** It is the sorted insertion of the kernel's lists. */
  lemma {:induction false} QueuedIsInserted(p: seq<Entry<Interruption>>, what: Interruption, when: int)
    ensures Queued(p, what, when) == Inserted(p, what, when)
  {
    if p != [] && p[0].1 <= when {
      QueuedIsInserted(p[1..], what, when);
      var j := Slot(p[1..], when);
      assert p[..j + 1] == [p[0]] + p[1..][..j];
    }
  }

  function Pended(s: Sim, p: seq<Entry<Interruption>>, more: Entry<Interruption>): Sim {
    s.(pending := p, scheduled := s.scheduled + multiset{more})
  }

  /** When an interrupt asked for at time `now` is to occur. */
  function Due(now: int, fromNow: Delay): (when: int)
    ensures when > now
  {
    now + fromNow
  }

  /** One more interrupt, to occur at time `when`. */
  function Scheduled(s: Sim, what: Interruption, when: int): Sim {
    Pended(s, Queued(s.pending, what, when), (what, when))
  }

  function ScheduledAll(s: Sim, requests: seq<(Interruption, Delay)>): Sim {
    if requests == [] then s
    else
      var n := |requests| - 1;
      var t := ScheduledAll(s, requests[..n]);
      Scheduled(t, requests[n].0, Due(t.total, requests[n].1))
  }

  /** The state in which the head of the list is looked at: it is off the list, and the clock may have moved. */
  function HeadTaken(s: Sim, advanceClock: bool): Sim
    requires s.pending != []
  {
    var when := s.pending[0].1;
    var s' := s.(pending := s.pending[1..]);
    if advanceClock && when > s.total then s'.(idle := s.idle + (when - s.total), total := when) else s'
  }

  /** Nothing but the time-slice timer is left while the machine idles. */
  predicate LoneTimer(s: Sim) {
    s.status == IdleMode && |s.pending| == 1 && s.pending[0].0.device == TimerInt
  }

  predicate NotYet(s: Sim, advanceClock: bool) {
    s.pending != [] && !advanceClock && s.pending[0].1 > s.total
  }

  /** The delivery is noted, with the handler's wish for a yield. */
  function Noted(s: Sim, entry: Entry<Interruption>, effects: Effects): Sim {
    s.(fired := s.fired + [Firing(entry, s.total)], yieldOnReturn := s.yieldOnReturn || effects.wantsYield)
  }

  /** The handler of `entry`, which is off the list, has run. */
  function Handled(s: Sim, entry: Entry<Interruption>, effects: Effects): Sim {
    ScheduledAll(Noted(s, entry, effects), effects.requests)
  }

  function Entered(s: Sim, advanceClock: bool, effects: Effects): Sim
    requires s.pending != []
  {
    Noted(HeadTaken(s, advanceClock), s.pending[0], effects)
  }

  function CheckDue(s: Sim, advanceClock: bool, h: Handlers): (Sim, bool) {
    if s.pending == [] then
      (s, false)
    else
      var head := s.pending[0];
      var s' := HeadTaken(s, advanceClock);
      if NotYet(s, advanceClock) || LoneTimer(s) then
        (s'.(pending := Queued(s'.pending, head.0, head.1)), false)
      else
        (Handled(s', head, h(|s.fired|)), true)
  }

  // ---- what holds throughout ----

  /** Sorted by due time, with no due time below `floor`. */
  predicate Ascending(p: seq<Entry<Interruption>>, floor: int) {
    p == [] || (p[0].1 >= floor && Ascending(p[1..], p[0].1))
  }

  /** Deliveries so far: never early, at most one system tick late, and in order both of due time and of clock. */
  predicate Punctual(fired: seq<Firing>, now: int) {
    if fired == [] then true
    else
      var n := |fired| - 1;
      var last := fired[n];
      && last.entry.1 <= last.at <= last.entry.1 + 10 && last.at <= now
      && (n > 0 ==> fired[n - 1].entry.1 <= last.entry.1)
      && Punctual(fired[..n], last.at)
  }

  function Delivered(fired: seq<Firing>): multiset<Entry<Interruption>> {
    if fired == [] then multiset{}
    else Delivered(fired[..|fired| - 1]) + multiset{fired[|fired| - 1].entry}
  }

  /** The pending list as a multiset. */
  function Bag(p: seq<Entry<Interruption>>): multiset<Entry<Interruption>> {
    if p == [] then multiset{} else Bag(p[1..]) + multiset{p[0]}
  }

  lemma {:induction false} BagMeans(p: seq<Entry<Interruption>>)
    ensures Bag(p) == multiset(p)
  {
    if p != [] {
      BagMeans(p[1..]);
      assert p == [p[0]] + p[1..];
    }
  }

  lemma {:induction false} BagQueued(p: seq<Entry<Interruption>>, what: Interruption, when: int)
    ensures Bag(Queued(p, what, when)) == Bag(p) + multiset{(what, when)}
  {
    var r := Queued(p, what, when);
    if p == [] || when < p[0].1 {
      assert r[1..] == p;
    } else {
      BagQueued(p[1..], what, when);
      assert r[1..] == Queued(p[1..], what, when);
    }
  }

  /** Nothing pending is due before the last delivery, or overdue by more than a system tick. */
  function Floor(fired: seq<Firing>, now: int): int {
    if fired != [] && fired[|fired| - 1].entry.1 > now - 10 then fired[|fired| - 1].entry.1 else now - 10
  }

  /** Every pending interrupt is strictly in the future. */
  predicate AllFuture(s: Sim) {
    Ascending(s.pending, s.total + 1)
  }

  /** Kept by every check, also in the middle of a drain loop. */
  predicate Inv(s: Sim) {
    && 0 <= s.total == s.idle + s.system + s.user
    && s.scheduled == Bag(s.pending) + Delivered(s.fired)
    && Punctual(s.fired, s.total)
    && Ascending(s.pending, Floor(s.fired, s.total))
  }

  /** Kept between the operations: nothing pending is overdue. */
  predicate Settled(s: Sim) {
    Inv(s) && Ascending(s.pending, s.total) && (s.status == IdleMode ==> s.halted)
  }

  // ---- steps keep the invariant ----

  lemma {:induction false} AscendingLower(p: seq<Entry<Interruption>>, floor: int, lower: int)
    requires Ascending(p, floor) && lower <= floor
    ensures Ascending(p, lower)
  {}

  lemma {:induction false} AscendingMeans(p: seq<Entry<Interruption>>, floor: int)
    requires Ascending(p, floor)
    ensures Sorted(p) && forall i :: 0 <= i < |p| ==> floor <= p[i].1
  {
    if p != [] {
      AscendingMeans(p[1..], p[0].1);
      assert forall i :: 0 < i < |p| ==> p[i] == p[1..][i - 1];
    }
  }

  lemma {:induction false} QueuedAscending(p: seq<Entry<Interruption>>, what: Interruption, when: int, floor: int)
    requires Ascending(p, floor) && floor <= when
    ensures Ascending(Queued(p, what, when), floor)
  {
    var r := Queued(p, what, when);
    if p == [] || when < p[0].1 {
      assert r[1..] == p;
    } else {
      QueuedAscending(p[1..], what, when, p[0].1);
      assert r[1..] == Queued(p[1..], what, when);
    }
  }

  lemma {:induction false} Moved<T>(a: multiset<T>, b: multiset<T>, c: multiset<T>)
    ensures (a + b) + c == (a + c) + b && (a + b) + c == b + (a + c)
  {}

  lemma {:induction false} InvBy(s: Sim)
    requires 0 <= s.total == s.idle + s.system + s.user
    requires s.scheduled == Bag(s.pending) + Delivered(s.fired)
    requires Punctual(s.fired, s.total)
    requires Ascending(s.pending, Floor(s.fired, s.total))
    ensures Inv(s)
  {}

  /** One more interrupt on the list, and in the books. */
  lemma {:induction false} MorePending(s: Sim, p: seq<Entry<Interruption>>, more: Entry<Interruption>)
    requires Inv(s) && Ascending(p, Floor(s.fired, s.total)) && Bag(p) == Bag(s.pending) + multiset{more}
    ensures Inv(Pended(s, p, more))
  {
    Moved(Bag(s.pending), Delivered(s.fired), multiset{more});
    InvBy(Pended(s, p, more));
  }

  lemma {:induction false} ScheduledKeeps(s: Sim, what: Interruption, when: int)
    requires Inv(s) && when > s.total
    ensures Inv(Scheduled(s, what, when))
  {
    BagQueued(s.pending, what, when);
    QueuedAscending(s.pending, what, when, Floor(s.fired, s.total));
    MorePending(s, Queued(s.pending, what, when), (what, when));
  }

  /** What a handler's requests leave alone. */
  predicate SameButPending(s: Sim, t: Sim) {
    t == s.(pending := t.pending, scheduled := t.scheduled)
  }

  lemma {:induction false} ScheduledAllFrame(s: Sim, requests: seq<(Interruption, Delay)>)
    ensures var t := ScheduledAll(s, requests); SameButPending(s, t) && s.scheduled <= t.scheduled
  {
    if requests != [] {
      ScheduledAllFrame(s, requests[..|requests| - 1]);
    }
  }

  lemma {:induction false} ScheduledAllKeeps(s: Sim, requests: seq<(Interruption, Delay)>)
    requires Inv(s)
    ensures Inv(ScheduledAll(s, requests))
  {
    if requests != [] {
      var n := |requests| - 1;
      ScheduledAllKeeps(s, requests[..n]);
      var t := ScheduledAll(s, requests[..n]);
      ScheduledKeeps(t, requests[n].0, Due(t.total, requests[n].1));
    }
  }

  /** One interrupt passes from the list to the deliveries. */
  lemma {:induction false} OneDelivered(s: Sim, f: Firing, t: Sim)
    requires Inv(s) && s.pending != [] && f.entry == s.pending[0]
    requires s.total <= f.at && f.entry.1 <= f.at <= f.entry.1 + 10
    requires t.pending == s.pending[1..] && t.fired == s.fired + [f] && t.scheduled == s.scheduled
    requires t.total == f.at == t.idle + t.system + t.user
    ensures Inv(t)
  {
    DeliveredNext(s.fired, f);
    PunctualNext(s.fired, s.total, f);
    Moved(Bag(t.pending), multiset{s.pending[0]}, Delivered(s.fired));
    InvBy(t);
  }

  lemma {:induction false} FiredKeeps(s: Sim, advanceClock: bool, effects: Effects)
    requires Inv(s) && s.pending != [] && !NotYet(s, advanceClock)
    ensures Inv(Entered(s, advanceClock, effects))
  {
    var t := Entered(s, advanceClock, effects);
    OneDelivered(s, Firing(s.pending[0], t.total), t);
  }

  lemma {:induction false} DeliveredNext(fired: seq<Firing>, f: Firing)
    ensures Delivered(fired + [f]) == Delivered(fired) + multiset{f.entry}
  {
    assert (fired + [f])[..|fired|] == fired;
  }

  lemma {:induction false} PunctualNext(fired: seq<Firing>, now: int, f: Firing)
    requires Punctual(fired, now) && now <= f.at && f.entry.1 <= f.at <= f.entry.1 + 10
    requires fired != [] ==> fired[|fired| - 1].entry.1 <= f.entry.1
    ensures Punctual(fired + [f], f.at)
  {
    assert (fired + [f])[..|fired|] == fired;
    PunctualLater(fired, now, f.at);
  }

  lemma {:induction false} PunctualLater(fired: seq<Firing>, now: int, later: int)
    requires Punctual(fired, now) && now <= later
    ensures Punctual(fired, later)
  {}

  lemma {:induction false} PutBackKeeps(s: Sim, advanceClock: bool)
    requires Inv(s) && s.pending != []
    ensures var head := s.pending[0]; var s' := HeadTaken(s, advanceClock);
      Inv(s'.(pending := Queued(s'.pending, head.0, head.1)))
  {
    var head, s' := s.pending[0], HeadTaken(s, advanceClock);
    BagQueued(s'.pending, head.0, head.1);
    PunctualLater(s.fired, s.total, s'.total);
    QueuedAscending(s'.pending, head.0, head.1, head.1);
    AscendingLower(Queued(s'.pending, head.0, head.1), head.1, Floor(s.fired, s'.total));
    InvBy(s'.(pending := Queued(s'.pending, head.0, head.1)));
  }

  lemma {:induction false} CheckDueKeeps(s: Sim, advanceClock: bool, h: Handlers)
    requires Inv(s)
    ensures Inv(CheckDue(s, advanceClock, h).0)
  {
    if s.pending != [] {
      if NotYet(s, advanceClock) || LoneTimer(s) {
        PutBackKeeps(s, advanceClock);
      } else {
        FiredKeeps(s, advanceClock, h(|s.fired|));
        ScheduledAllKeeps(Entered(s, advanceClock, h(|s.fired|)), h(|s.fired|).requests);
      }
    }
  }

  // ---- the drain loop ends ----

  /** How many pending interrupts are due. */
  function DueCount(p: seq<Entry<Interruption>>, now: int): nat {
    if p == [] then 0 else (if p[0].1 <= now then 1 else 0) + DueCount(p[1..], now)
  }

  lemma {:induction false} QueuedDue(p: seq<Entry<Interruption>>, what: Interruption, when: int, now: int)
    requires when > now
    ensures DueCount(Queued(p, what, when), now) == DueCount(p, now)
  {
    var r := Queued(p, what, when);
    if p == [] || when < p[0].1 {
      assert r[1..] == p;
    } else {
      QueuedDue(p[1..], what, when, now);
      assert r[1..] == Queued(p[1..], what, when);
    }
  }

  lemma {:induction false} ScheduledAllDue(s: Sim, requests: seq<(Interruption, Delay)>)
    ensures DueCount(ScheduledAll(s, requests).pending, s.total) == DueCount(s.pending, s.total)
  {
    if requests != [] {
      var n := |requests| - 1;
      var t := ScheduledAll(s, requests[..n]);
      ScheduledAllDue(s, requests[..n]);
      ScheduledAllFrame(s, requests[..n]);
      QueuedDue(t.pending, requests[n].0, Due(s.total, requests[n].1), s.total);
    }
  }

  /** Each handler run by the loop uses up one due interrupt, however many the handler schedules. */
  lemma {:induction false} CheckDueDecreases(s: Sim, h: Handlers)
    requires CheckDue(s, false, h).1
    ensures var t := CheckDue(s, false, h).0;
      t.total == s.total && DueCount(t.pending, t.total) == DueCount(s.pending, s.total) - 1
  {
    var effects := h(|s.fired|);
    ScheduledAllDue(Entered(s, false, effects), effects.requests);
    CheckDueFrame(s, false, h);
  }

  function Drained(s: Sim, h: Handlers): Sim
    decreases DueCount(s.pending, s.total)
  {
    var (t, fired) := CheckDue(s, false, h);
    if fired then
      CheckDueDecreases(s, h);
      Drained(t, h)
    else
      t
  }

  /** What the loop leaves behind: nothing due, except possibly a lone timer while idling. */
  lemma {:induction false} DrainedMeaning(s: Sim, h: Handlers)
    requires Inv(s)
    ensures var t := Drained(s, h);
      && Inv(t) && t.total == s.total && t.status == s.status && t.level == s.level && t.halted == s.halted
      && s.fired <= t.fired
      && (AllFuture(t) || LoneTimer(t))
    decreases DueCount(s.pending, s.total)
  {
    var (t, fired) := CheckDue(s, false, h);
    CheckDueKeeps(s, false, h);
    CheckDueFrame(s, false, h);
    if fired {
      CheckDueDecreases(s, h);
      DrainedMeaning(t, h);
    } else {
      StopReason(s, h);
    }
  }

  lemma {:induction false} StopReason(s: Sim, h: Handlers)
    requires Inv(s) && !CheckDue(s, false, h).1
    ensures var t := CheckDue(s, false, h).0; AllFuture(t) || LoneTimer(t)
  {
    if s.pending != [] {
      var head, s' := s.pending[0], HeadTaken(s, false);
      if NotYet(s, false) {
        AscendingLower(s'.pending, head.1, s.total + 1);
        QueuedAscending(s'.pending, head.0, head.1, s.total + 1);
      }
    }
  }

  /** Time, the books and the record of deliveries have only grown, and the machine is in the same mode. */
  predicate Grown(s: Sim, t: Sim) {
    && t.status == s.status && t.level == s.level && t.halted == s.halted
    && s.fired <= t.fired && s.total <= t.total && s.scheduled <= t.scheduled
  }

  lemma {:induction false} EnteredGrown(s: Sim, advanceClock: bool, effects: Effects)
    requires s.pending != []
    ensures Grown(s, Entered(s, advanceClock, effects)) && (!advanceClock ==> Entered(s, advanceClock, effects).total == s.total)
  {}

  lemma {:induction false} PutBackGrown(s: Sim, advanceClock: bool)
    requires s.pending != []
    ensures var s' := HeadTaken(s, advanceClock);
      var t := s'.(pending := Queued(s'.pending, s.pending[0].0, s.pending[0].1)); Grown(s, t) && (!advanceClock ==> t.total == s.total)
  {}

  lemma {:induction false} ScheduledAllGrown(s: Sim, t: Sim, requests: seq<(Interruption, Delay)>)
    requires Grown(s, t)
    ensures Grown(s, ScheduledAll(t, requests)) && ScheduledAll(t, requests).total == t.total
  {
    ScheduledAllFrame(t, requests);
  }

  lemma {:induction false} CheckDueFrame(s: Sim, advanceClock: bool, h: Handlers)
    ensures var t := CheckDue(s, advanceClock, h).0; Grown(s, t) && (!advanceClock ==> t.total == s.total)
  {
    if s.pending != [] {
      if NotYet(s, advanceClock) || LoneTimer(s) {
        PutBackGrown(s, advanceClock);
      } else {
        var effects := h(|s.fired|);
        EnteredGrown(s, advanceClock, effects);
        ScheduledAllGrown(s, Entered(s, advanceClock, effects), effects.requests);
      }
    }
  }

  // ---- the operations ----

  function Advanced(s: Sim): Sim {
    if s.status == SystemMode then s.(total := s.total + 10, system := s.system + 10)
    else s.(total := s.total + 1, user := s.user + 1)
  }

  /** The state in which `OneTick` hands over to `Yield`, if a handler asked for that, or returns. */
  function TickEnd(s: Sim): Sim {
    if s.yieldOnReturn then s.(level := true, yieldOnReturn := false, status := SystemMode) else s.(level := true)
  }

  function Tick(s: Sim, h: Handlers): Sim {
    TickEnd(Drained(Masked(s), h))
  }

  function IdleStart(s: Sim): Sim {
    s.(status := IdleMode)
  }

  function IdleFrom(t: Sim, fired: bool, h: Handlers): Sim {
    if fired then Drained(t, h).(yieldOnReturn := false, status := SystemMode) else t.(halted := true)
  }

  function IdleRest(s: Sim, h: Handlers): Sim {
    IdleFrom(CheckDue(s, true, h).0, CheckDue(s, true, h).1, h)
  }

  function IdleStep(s: Sim, h: Handlers): Sim {
    IdleRest(IdleStart(s), h)
  }

  lemma {:induction false} LaterKeeps(s: Sim, t: Sim)
    requires Settled(s) && s.total <= t.total <= s.total + 10 && t.total == t.idle + t.system + t.user
    requires t.pending == s.pending && t.fired == s.fired && t.scheduled == s.scheduled
    ensures Inv(t)
  {
    PunctualLater(s.fired, s.total, t.total);
    AscendingBoth(s.pending, Floor(s.fired, s.total), s.total, Floor(t.fired, t.total));
    InvBy(t);
  }

  lemma {:induction false} AscendingBoth(p: seq<Entry<Interruption>>, a: int, b: int, floor: int)
    requires Ascending(p, a) && Ascending(p, b) && (floor <= a || floor <= b)
    ensures Ascending(p, floor)
  {}

  function Masked(s: Sim): Sim {
    Advanced(s).(level := false)
  }

  lemma {:induction false} MaskedKeeps(s: Sim)
    requires Settled(s)
    ensures Inv(Masked(s)) && Masked(s).status == s.status && Masked(s).halted == s.halted && Masked(s).fired == s.fired && s.total < Masked(s).total
  {
    LaterKeeps(s, Masked(s));
  }

  /** After a tick every pending interrupt is strictly in the future. */
  lemma {:induction false} TickKeeps(s: Sim, h: Handlers)
    requires Settled(s) && !s.halted
    ensures Settled(Tick(s, h)) && AllFuture(Tick(s, h))
    ensures var t := Tick(s, h); s.total < t.total && s.fired <= t.fired && t.level && !t.halted
  {
    MaskedKeeps(s);
    DrainedMeaning(Masked(s), h);
    TickEnds(Drained(Masked(s), h));
  }

  lemma {:induction false} TickEnds(d: Sim)
    requires Inv(d) && AllFuture(d) && d.status != IdleMode
    ensures Settled(TickEnd(d)) && AllFuture(TickEnd(d))
    ensures var t := TickEnd(d); t.level && t.total == d.total && t.fired == d.fired && t.halted == d.halted
  {
    AscendingLower(d.pending, d.total + 1, d.total);
    InvBy(TickEnd(d));
  }

  lemma {:induction false} OnTimeKept(s: Sim, advanceClock: bool, h: Handlers)
    requires Inv(s) && Ascending(s.pending, s.total)
    ensures var t := CheckDue(s, advanceClock, h).0; Ascending(t.pending, t.total)
  {
    if s.pending != [] {
      var head, s' := s.pending[0], HeadTaken(s, advanceClock);
      AscendingLower(s'.pending, head.1, s'.total);
      QueuedAscending(s'.pending, head.0, head.1, s'.total);
      ScheduledAllOnTime(Entered(s, advanceClock, h(|s.fired|)), h(|s.fired|).requests);
      ScheduledAllFrame(Entered(s, advanceClock, h(|s.fired|)), h(|s.fired|).requests);
    }
  }

  lemma {:induction false} ScheduledAllOnTime(s: Sim, requests: seq<(Interruption, Delay)>)
    requires Ascending(s.pending, s.total)
    ensures Ascending(ScheduledAll(s, requests).pending, s.total)
  {
    if requests != [] {
      var n := |requests| - 1;
      ScheduledAllOnTime(s, requests[..n]);
      ScheduledAllFrame(s, requests[..n]);
      QueuedAscending(ScheduledAll(s, requests[..n]).pending, requests[n].0, Due(s.total, requests[n].1), s.total);
    }
  }

  lemma {:induction false} DrainedOnTime(s: Sim, h: Handlers)
    requires Inv(s) && Ascending(s.pending, s.total)
    ensures Ascending(Drained(s, h).pending, Drained(s, h).total)
    decreases DueCount(s.pending, s.total)
  {
    var (t, fired) := CheckDue(s, false, h);
    CheckDueKeeps(s, false, h);
    OnTimeKept(s, false, h);
    if fired {
      CheckDueDecreases(s, h);
      DrainedOnTime(t, h);
    }
  }

  /** The first check of `Idle`: it fails exactly when nothing, or nothing but the timer, is pending. */
  lemma {:induction false} IdleChecked(s: Sim, h: Handlers)
    requires Settled(s)
    ensures var (t, fired) := CheckDue(IdleStart(s), true, h);
      && Inv(t) && Ascending(t.pending, t.total)
      && (fired <==> !(s.pending == [] || (|s.pending| == 1 && s.pending[0].0.device == TimerInt)))
  {
    InvBy(IdleStart(s));
    CheckDueKeeps(IdleStart(s), true, h);
    OnTimeKept(IdleStart(s), true, h);
  }

  lemma {:induction false} IdleCheckFrame(s: Sim, h: Handlers)
    ensures var (t, fired) := CheckDue(IdleStart(s), true, h);
      && t.status == IdleMode && t.level == s.level && t.halted == s.halted
      && s.fired <= t.fired && s.total <= t.total && (fired ==> s.fired < t.fired)
  {
    CheckDueFrame(IdleStart(s), true, h);
    if CheckDue(IdleStart(s), true, h).1 {
      FiredGrows(IdleStart(s), h);
    }
  }

  /** The rest of `Idle`, after a first check that led to `t`. */
  lemma {:induction false} IdleFromKeeps(t: Sim, fired: bool, h: Handlers)
    requires Inv(t) && Ascending(t.pending, t.total) && t.status == IdleMode && !t.halted
    ensures var u := IdleFrom(t, fired, h);
      Settled(u) && (u.halted <==> !fired) && t.fired <= u.fired && t.total <= u.total && u.level == t.level
  {
    if fired {
      DrainedMeaning(t, h);
      DrainedOnTime(t, h);
      IdleEnds(Drained(t, h), IdleFrom(t, fired, h));
    } else {
      IdleEnds(t, IdleFrom(t, fired, h));
    }
  }

  /** The machine halts exactly when nothing, or nothing but the timer, is pending; otherwise something fires. */
  lemma {:induction false} IdleKeeps(s: Sim, h: Handlers)
    requires Settled(s) && !s.halted
    ensures Settled(IdleStep(s, h))
    ensures var t := IdleStep(s, h);
      && (t.halted <==> s.pending == [] || (|s.pending| == 1 && s.pending[0].0.device == TimerInt))
      && s.fired <= t.fired && s.total <= t.total && t.level == s.level && (!t.halted ==> s.fired < t.fired)
  {
    IdleChecked(s, h);
    IdleCheckFrame(s, h);
    var (t, fired) := CheckDue(IdleStart(s), true, h);
    IdleFromKeeps(t, fired, h);
  }

  lemma {:induction false} IdleEnds(d: Sim, t: Sim)
    requires Inv(d) && Ascending(d.pending, d.total)
    requires t == d.(yieldOnReturn := t.yieldOnReturn, status := t.status, halted := t.halted)
    requires t.status == IdleMode ==> t.halted
    ensures Settled(t)
  {
    InvBy(t);
  }

  lemma {:induction false} FiredGrows(s: Sim, h: Handlers)
    requires CheckDue(s, true, h).1
    ensures s.fired < CheckDue(s, true, h).0.fired
  {
    ScheduledAllFrame(Entered(s, true, h(|s.fired|)), h(|s.fired|).requests);
  }

  // ---- whole runs ----

  /** What the rest of the machine can make the simulator do. */
  datatype Event =
    | Schedule(what: Interruption, fromNow: Delay)
    | SetLevel(on: bool)
    | Instruction
    | Idle
    | Enter(user: bool)

  predicate Enabled(s: Sim, e: Event) {
    !s.halted && (e.Idle? ==> !s.level)
  }

  function Next(s: Sim, e: Event, h: Handlers): Sim
    requires Enabled(s, e)
  {
    match e
    case Schedule(what, fromNow) => Scheduled(s, what, Due(s.total, fromNow))
    case SetLevel(on) => if on && !s.level then Tick(s.(level := true), h) else s.(level := on)
    case Instruction => Tick(s, h)
    case Idle => IdleStep(s, h)
    case Enter(user) => s.(status := if user then UserMode else SystemMode)
  }

  lemma {:induction false} LevelKeeps(s: Sim)
    requires Settled(s)
    ensures Settled(s.(level := true)) && Settled(s.(level := false))
  {
    InvBy(s.(level := true));
    InvBy(s.(level := false));
  }

  lemma {:induction false} NextKeeps(s: Sim, e: Event, h: Handlers)
    requires Settled(s) && Enabled(s, e)
    ensures var t := Next(s, e, h); Settled(t) && s.total <= t.total && s.fired <= t.fired
  {
    match e
    case Schedule(what, fromNow) =>
      ScheduledKeeps(s, what, Due(s.total, fromNow));
      QueuedAscending(s.pending, what, Due(s.total, fromNow), s.total);
    case SetLevel(on) =>
      LevelKeeps(s);
      if on && !s.level {
        TickKeeps(s.(level := true), h);
      }
    case Instruction =>
      TickKeeps(s, h);
    case Idle =>
      IdleKeeps(s, h);
    case Enter(user) =>
      InvBy(Next(s, e, h));
  }

  function Initial(): Sim {
    Sim(false, SystemMode, false, false, [], 0, 0, 0, 0, multiset{}, [])
  }

  /** A run of the machine from its start: each event is possible where it happens. */
  predicate Run(events: seq<Event>, h: Handlers)
    decreases |events|, 0
  {
    if events == [] then true
    else
      var n := |events| - 1;
      Run(events[..n], h) && Enabled(After(events[..n], h), events[n])
  }

  function After(events: seq<Event>, h: Handlers): Sim
    requires Run(events, h)
    decreases |events|, 1
  {
    if events == [] then Initial()
    else
      var n := |events| - 1;
      Next(After(events[..n], h), events[n], h)
  }

  lemma {:induction false} RunSettled(events: seq<Event>, h: Handlers)
    requires Run(events, h)
    ensures Settled(After(events, h))
  {
    if events != [] {
      var n := |events| - 1;
      RunSettled(events[..n], h);
      NextKeeps(After(events[..n], h), events[n], h);
    }
  }

  /** Time and the record of deliveries only grow. */
  lemma {:induction false} RunMonotone(events: seq<Event>, h: Handlers, i: nat)
    requires Run(events, h) && i <= |events|
    ensures Run(events[..i], h)
    ensures After(events[..i], h).total <= After(events, h).total && After(events[..i], h).fired <= After(events, h).fired
  {
    var n := |events| - 1;
    if i <= n {
      RunMonotone(events[..n], h, i);
      RunSettled(events[..n], h);
      NextKeeps(After(events[..n], h), events[n], h);
      assert events[..n][..i] == events[..i];
    } else {
      assert events[..i] == events;
    }
  }

  /**
   * Interrupt delivery over whole runs, for any handlers: the clock is accounted for, everything scheduled is
   * either delivered or still pending, and what is pending is not overdue.
   */
  lemma {:induction false} RunConserves(events: seq<Event>, h: Handlers)
    requires Run(events, h)
    ensures var s := After(events, h);
      && s.total == s.idle + s.system + s.user
      && s.scheduled == multiset(s.pending) + multiset(Entries(s.fired))
      && Sorted(s.pending) && (forall k :: 0 <= k < |s.pending| ==> s.total <= s.pending[k].1)
  {
    RunSettled(events, h);
    var s := After(events, h);
    BagMeans(s.pending);
    DeliveredMeans(s.fired);
    AscendingMeans(s.pending, s.total);
  }

  /**
   * No handler ever runs before its time, or more than one system tick after it, and deliveries are in order
   * of due time and of the clock.
   */
  lemma {:induction false} RunPunctual(events: seq<Event>, h: Handlers, k: nat, l: nat)
    requires Run(events, h) && k <= l < |After(events, h).fired|
    ensures var fired := After(events, h).fired;
      && fired[l].entry.1 <= fired[l].at <= fired[l].entry.1 + 10
      && fired[k].entry.1 <= fired[l].entry.1 && fired[k].at <= fired[l].at <= After(events, h).total
  {
    RunSettled(events, h);
    PunctualMeans(After(events, h).fired, After(events, h).total, k, l);
  }

  lemma {:induction false} PunctualMeans(fired: seq<Firing>, now: int, k: nat, l: nat)
    requires Punctual(fired, now) && k <= l < |fired|
    ensures fired[l].entry.1 <= fired[l].at <= fired[l].entry.1 + 10
    ensures fired[k].entry.1 <= fired[l].entry.1 && fired[k].at <= fired[l].at <= now
  {
    var n := |fired| - 1;
    if l < n {
      PunctualMeans(fired[..n], fired[n].at, k, l);
    } else if k < n {
      PunctualMeans(fired[..n], fired[n].at, k, n - 1);
    }
  }

  /** The interrupts delivered, in order. */
  function Entries(fired: seq<Firing>): (e: seq<Entry<Interruption>>)
    ensures |e| == |fired| && forall k :: 0 <= k < |fired| ==> e[k] == fired[k].entry
  {
    if fired == [] then [] else Entries(fired[..|fired| - 1]) + [fired[|fired| - 1].entry]
  }

  lemma {:induction false} DeliveredMeans(fired: seq<Firing>)
    ensures Delivered(fired) == multiset(Entries(fired))
  {
    if fired != [] {
      DeliveredMeans(fired[..|fired| - 1]);
    }
  }
}
