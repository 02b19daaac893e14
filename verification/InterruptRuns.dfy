/**
 * What the interrupt simulator is asked for, and what it does about it, over whole runs and for any handlers:
 * every request is on the list, or was delivered, for exactly the time that was asked for; every tick is
 * charged to the mode the machine was in; and a handler's wish for a yield comes out of its tick.
 */
module InterruptRuns {
  import opened Lists
  import opened Interrupts

  // ---- requests ----

  /** What a handler's requests at time `now` ask for: each interrupt, and the time it is to occur. */
  function AskedAt(requests: seq<(Interruption, Delay)>, now: int): multiset<Entry<Interruption>> {
    if requests == [] then multiset{}
    else
      var n := |requests| - 1;
      AskedAt(requests[..n], now) + multiset{(requests[n].0, now + requests[n].1)}
  }

  /** What the handlers of these deliveries asked for, each at the clock when it ran. */
  function HandlersAsked(fired: seq<Firing>, h: Handlers): multiset<Entry<Interruption>> {
    if fired == [] then multiset{}
    else
      var n := |fired| - 1;
      HandlersAsked(fired[..n], h) + AskedAt(h(n).requests, fired[n].at)
  }

  /** What the rest of the machine asked for, each at the clock of its event. */
  function EventsAsked(events: seq<Event>, h: Handlers): multiset<Entry<Interruption>>
    requires Run(events, h)
  {
    if events == [] then multiset{}
    else
      var n := |events| - 1;
      var e := events[n];
      EventsAsked(events[..n], h)
        + if e.Schedule? then multiset{(e.what, After(events[..n], h).total + e.fromNow)} else multiset{}
  }

  /** The books show what the handlers asked for, and `asked`. */
  predicate Books(s: Sim, h: Handlers, asked: multiset<Entry<Interruption>>) {
    s.scheduled == asked + HandlersAsked(s.fired, h)
  }

  lemma {:induction false} ScheduledAllAsked(s: Sim, requests: seq<(Interruption, Delay)>)
    ensures ScheduledAll(s, requests).scheduled == s.scheduled + AskedAt(requests, s.total)
  {
    if requests != [] {
      var n := |requests| - 1;
      ScheduledAllAsked(s, requests[..n]);
      ScheduledAllFrame(s, requests[..n]);
      OneAsked(ScheduledAll(s, requests[..n]), requests[n].0, requests[n].1);
    }
  }

  lemma {:induction false} OneAsked(s: Sim, what: Interruption, d: Delay)
    ensures Scheduled(s, what, Due(s.total, d)).scheduled == s.scheduled + multiset{(what, s.total + d)}
  {}

  lemma {:induction false} HandlersAskedNext(fired: seq<Firing>, f: Firing, h: Handlers)
    ensures HandlersAsked(fired + [f], h) == HandlersAsked(fired, h) + AskedAt(h(|fired|).requests, f.at)
  {
    assert (fired + [f])[..|fired|] == fired;
  }

  /** What is new in the books is what the handlers asked for meanwhile. */
  lemma {:induction false} BooksGrow(s: Sim, t: Sim, h: Handlers, asked: multiset<Entry<Interruption>>, more: multiset<Entry<Interruption>>)
    requires Books(s, h, asked) && t.scheduled == s.scheduled + more && HandlersAsked(t.fired, h) == HandlersAsked(s.fired, h) + more
    ensures Books(t, h, asked)
  {}

  lemma {:induction false} EnteredAsked(s: Sim, advanceClock: bool, effects: Effects, h: Handlers)
    requires s.pending != [] && effects == h(|s.fired|)
    ensures var t := Entered(s, advanceClock, effects);
      t.scheduled == s.scheduled && HandlersAsked(t.fired, h) == HandlersAsked(s.fired, h) + AskedAt(effects.requests, t.total)
  {
    HandlersAskedNext(s.fired, Firing(s.pending[0], Entered(s, advanceClock, effects).total), h);
  }

  lemma {:induction false} HandledBooks(s: Sim, advanceClock: bool, effects: Effects, h: Handlers, asked: multiset<Entry<Interruption>>)
    requires Books(s, h, asked) && s.pending != [] && effects == h(|s.fired|)
    ensures Books(ScheduledAll(Entered(s, advanceClock, effects), effects.requests), h, asked)
  {
    var t := Entered(s, advanceClock, effects);
    EnteredAsked(s, advanceClock, effects, h);
    ScheduledAllAsked(t, effects.requests);
    ScheduledAllFrame(t, effects.requests);
    BooksGrow(s, ScheduledAll(t, effects.requests), h, asked, AskedAt(effects.requests, t.total));
  }

  lemma {:induction false} CheckDueBooks(s: Sim, advanceClock: bool, h: Handlers, asked: multiset<Entry<Interruption>>)
    requires Books(s, h, asked)
    ensures Books(CheckDue(s, advanceClock, h).0, h, asked)
  {
    if s.pending != [] {
      HandledBooks(s, advanceClock, h(|s.fired|), h, asked);
    }
  }

  lemma {:induction false} DrainedBooks(s: Sim, h: Handlers, asked: multiset<Entry<Interruption>>)
    requires Books(s, h, asked)
    ensures Books(Drained(s, h), h, asked)
    decreases DueCount(s.pending, s.total)
  {
    CheckDueBooks(s, false, h, asked);
    if CheckDue(s, false, h).1 {
      CheckDueDecreases(s, h);
      DrainedBooks(CheckDue(s, false, h).0, h, asked);
    }
  }

  lemma {:induction false} IdleBooks(s: Sim, h: Handlers, asked: multiset<Entry<Interruption>>)
    requires Books(s, h, asked)
    ensures Books(IdleStep(s, h), h, asked)
  {
    CheckDueBooks(IdleStart(s), true, h, asked);
    DrainedBooks(CheckDue(IdleStart(s), true, h).0, h, asked);
  }

  lemma {:induction false} NextBooks(s: Sim, e: Event, h: Handlers, asked: multiset<Entry<Interruption>>)
    requires Books(s, h, asked) && Enabled(s, e) && !e.Schedule?
    ensures Books(Next(s, e, h), h, asked)
  {
    match e
    case SetLevel(on) =>
      DrainedBooks(Masked(s.(level := true)), h, asked);
    case Instruction =>
      DrainedBooks(Masked(s), h, asked);
    case Idle =>
      IdleBooks(s, h, asked);
    case Enter(_) =>
  }

  lemma {:induction false} ScheduleBooks(s: Sim, e: Event, h: Handlers, asked: multiset<Entry<Interruption>>)
    requires Books(s, h, asked) && Enabled(s, e) && e.Schedule?
    ensures Books(Next(s, e, h), h, asked + multiset{(e.what, s.total + e.fromNow)})
  {
    OneAsked(s, e.what, e.fromNow);
    MoreAsked(s, Next(s, e, h), h, asked, multiset{(e.what, s.total + e.fromNow)});
  }

  lemma {:induction false} MoreAsked(s: Sim, t: Sim, h: Handlers, asked: multiset<Entry<Interruption>>, more: multiset<Entry<Interruption>>)
    requires Books(s, h, asked) && t.scheduled == s.scheduled + more && t.fired == s.fired
    ensures Books(t, h, asked + more)
  {}

  lemma {:induction false} RunBooks(events: seq<Event>, h: Handlers)
    requires Run(events, h)
    ensures Books(After(events, h), h, EventsAsked(events, h))
  {
    if events != [] {
      var n := |events| - 1;
      RunBooks(events[..n], h);
      StepBooks(After(events[..n], h), events[n], h, EventsAsked(events[..n], h), EventsAsked(events, h));
    }
  }

  lemma {:induction false} StepBooks(s: Sim, e: Event, h: Handlers, asked: multiset<Entry<Interruption>>, asked': multiset<Entry<Interruption>>)
    requires Books(s, h, asked) && Enabled(s, e)
    requires asked' == asked + if e.Schedule? then multiset{(e.what, s.total + e.fromNow)} else multiset{}
    ensures Books(Next(s, e, h), h, asked')
  {
    if e.Schedule? {
      ScheduleBooks(s, e, h, asked);
    } else {
      assert asked' == asked;
      NextBooks(s, e, h, asked);
    }
  }

  /**
   * Nothing is lost, added or put off: what is pending or has been delivered is exactly what was asked for,
   * each for the clock of the request plus the delay asked for.
   */
  lemma {:induction false} RequestsHonoured(events: seq<Event>, h: Handlers)
    requires Run(events, h)
    ensures var s := After(events, h);
      multiset(s.pending) + multiset(Entries(s.fired)) == EventsAsked(events, h) + HandlersAsked(s.fired, h)
  {
    RunBooks(events, h);
    RunConserves(events, h);
  }

  /** Somebody asked, when the clock was `now`, for `what` after a delay of `d`: an event, or a handler. */
  predicate Asked(events: seq<Event>, h: Handlers, what: Interruption, d: int, now: int)
    requires Run(events, h)
  {
    AskedByEvent(events, h, what, d, now) || AskedByHandler(After(events, h).fired, h, what, d, now)
  }

  predicate AskedByEvent(events: seq<Event>, h: Handlers, what: Interruption, d: int, now: int)
    requires Run(events, h)
  {
    events != [] &&
      var n := |events| - 1;
      || AskedByEvent(events[..n], h, what, d, now)
      || (events[n].Schedule? && events[n].what == what && events[n].fromNow == d && After(events[..n], h).total == now)
  }

  predicate AskedByHandler(fired: seq<Firing>, h: Handlers, what: Interruption, d: int, now: int) {
    exists j, i :: 0 <= j < |fired| && 0 <= i < |h(j).requests| && h(j).requests[i] == (what, d) && fired[j].at == now
  }

  lemma {:induction false} FromEvents(events: seq<Event>, h: Handlers, x: Entry<Interruption>) returns (d: int, now: int)
    requires Run(events, h) && x in EventsAsked(events, h)
    ensures AskedByEvent(events, h, x.0, d, now) && x.1 == now + d
  {
    var n := |events| - 1;
    if x in EventsAsked(events[..n], h) {
      d, now := FromEvents(events[..n], h, x);
    } else {
      d, now := events[n].fromNow, After(events[..n], h).total;
    }
  }

  lemma {:induction false} FromRequests(requests: seq<(Interruption, Delay)>, now: int, x: Entry<Interruption>) returns (i: int)
    requires x in AskedAt(requests, now)
    ensures 0 <= i < |requests| && requests[i].0 == x.0 && x.1 == now + requests[i].1
  {
    var n := |requests| - 1;
    if x in AskedAt(requests[..n], now) {
      i := FromRequests(requests[..n], now, x);
    } else {
      i := n;
    }
  }

  lemma {:induction false} FromHandlers(fired: seq<Firing>, h: Handlers, x: Entry<Interruption>) returns (d: int, now: int)
    requires x in HandlersAsked(fired, h)
    ensures AskedByHandler(fired, h, x.0, d, now) && x.1 == now + d
  {
    var n := |fired| - 1;
    if x in HandlersAsked(fired[..n], h) {
      d, now := FromHandlers(fired[..n], h, x);
      var j, i :| 0 <= j < n && 0 <= i < |h(j).requests| && h(j).requests[i] == (x.0, d) && fired[..n][j].at == now;
      assert fired[j].at == now;
    } else {
      var i := FromRequests(h(n).requests, fired[n].at, x);
      d, now := h(n).requests[i].1, fired[n].at;
      assert h(n).requests[i] == (x.0, d);
    }
  }

  lemma {:induction false} InOneOf(a: multiset<Entry<Interruption>>, b: multiset<Entry<Interruption>>,
                                   c: multiset<Entry<Interruption>>, d: multiset<Entry<Interruption>>, x: Entry<Interruption>)
    requires a + b == c + d && x in b
    ensures x in c || x in d
  {
    assert x in a + b;
  }

  /** Every delivery answers a request, not before the delay asked for, and at most one system tick after it. */
  lemma {:induction false} FiringAnswers(events: seq<Event>, h: Handlers, k: nat) returns (d: int, now: int)
    requires Run(events, h) && k < |After(events, h).fired|
    ensures var f := After(events, h).fired[k];
      Asked(events, h, f.entry.0, d, now) && now + d <= f.at <= now + d + 10
  {
    RequestsHonoured(events, h);
    RunPunctual(events, h, k, k);
    var s, fired := After(events, h), After(events, h).fired;
    var x := Entries(fired)[k];
    InOneOf(multiset(s.pending), multiset(Entries(fired)), EventsAsked(events, h), HandlersAsked(fired, h), x);
    if x in EventsAsked(events, h) {
      d, now := FromEvents(events, h, x);
    } else {
      d, now := FromHandlers(fired, h, x);
    }
  }

  // ---- time ----

  /** The events that let a tick pass: an instruction, and turning interrupts on. */
  predicate Ticks(s: Sim, e: Event) {
    e.Instruction? || (e == Event.SetLevel(true) && !s.level)
  }

  /** How many ticks of a run passed in the kernel, or in user programs. */
  function TicksIn(events: seq<Event>, h: Handlers, kernel: bool): nat
    requires Run(events, h)
  {
    if events == [] then 0
    else
      var n := |events| - 1;
      var s := After(events[..n], h);
      TicksIn(events[..n], h, kernel) + if Ticks(s, events[n]) && (s.status == SystemMode) == kernel then 1 else 0
  }

  predicate SameCharges(s: Sim, t: Sim) {
    t.system == s.system && t.user == s.user
  }

  lemma {:induction false} CheckDueCharges(s: Sim, advanceClock: bool, h: Handlers)
    ensures SameCharges(s, CheckDue(s, advanceClock, h).0)
  {
    if s.pending != [] {
      ScheduledAllFrame(Entered(s, advanceClock, h(|s.fired|)), h(|s.fired|).requests);
    }
  }

  lemma {:induction false} DrainedCharges(s: Sim, h: Handlers)
    ensures SameCharges(s, Drained(s, h))
    decreases DueCount(s.pending, s.total)
  {
    CheckDueCharges(s, false, h);
    if CheckDue(s, false, h).1 {
      CheckDueDecreases(s, h);
      DrainedCharges(CheckDue(s, false, h).0, h);
    }
  }

  lemma {:induction false} NextCharges(s: Sim, e: Event, h: Handlers)
    requires Enabled(s, e)
    ensures var t := Next(s, e, h);
      && t.system == s.system + (if Ticks(s, e) && s.status == SystemMode then 10 else 0)
      && t.user == s.user + (if Ticks(s, e) && s.status != SystemMode then 1 else 0)
  {
    match e
    case Schedule(_, _) =>
    case SetLevel(on) =>
      DrainedCharges(Masked(s.(level := true)), h);
    case Instruction =>
      DrainedCharges(Masked(s), h);
    case Idle =>
      CheckDueCharges(IdleStart(s), true, h);
      DrainedCharges(CheckDue(IdleStart(s), true, h).0, h);
    case Enter(_) =>
  }

  /** The clock is ten for each tick in the kernel, one for each tick in user programs, and the time idled. */
  lemma {:induction false} RunTicks(events: seq<Event>, h: Handlers)
    requires Run(events, h)
    ensures var s := After(events, h);
      && s.system == 10 * TicksIn(events, h, true) && s.user == TicksIn(events, h, false)
      && s.total == 10 * TicksIn(events, h, true) + TicksIn(events, h, false) + s.idle
  {
    RunCharges(events, h);
    RunConserves(events, h);
  }

  lemma {:induction false} RunCharges(events: seq<Event>, h: Handlers)
    requires Run(events, h)
    ensures After(events, h).system == 10 * TicksIn(events, h, true) && After(events, h).user == TicksIn(events, h, false)
  {
    if events != [] {
      var n := |events| - 1;
      RunCharges(events[..n], h);
      NextCharges(After(events[..n], h), events[n], h);
    }
  }

  // ---- yields ----

  /** A handler of the deliveries from the `a`-th up to the `b`-th wants a yield. */
  predicate Wanted(h: Handlers, a: nat, b: nat) {
    exists j: nat :: a <= j < b && h(j).wantsYield
  }

  lemma {:induction false} CheckDueYield(s: Sim, h: Handlers)
    ensures var (t, fired) := CheckDue(s, false, h);
      && t.fired[..|t.fired|] == t.fired && |t.fired| == |s.fired| + (if fired then 1 else 0)
      && (t.yieldOnReturn <==> s.yieldOnReturn || (fired && h(|s.fired|).wantsYield))
  {
    if s.pending != [] {
      ScheduledAllFrame(Entered(s, false, h(|s.fired|)), h(|s.fired|).requests);
    }
  }

  lemma {:induction false} DrainedYield(s: Sim, h: Handlers)
    ensures var t := Drained(s, h);
      |s.fired| <= |t.fired| && (t.yieldOnReturn <==> s.yieldOnReturn || Wanted(h, |s.fired|, |t.fired|))
    decreases DueCount(s.pending, s.total)
  {
    CheckDueYield(s, h);
    if CheckDue(s, false, h).1 {
      CheckDueDecreases(s, h);
      DrainedYield(CheckDue(s, false, h).0, h);
      WantedFirst(h, |s.fired|, |CheckDue(s, false, h).0.fired|, |Drained(s, h).fired|);
    }
  }

  lemma {:induction false} WantedFirst(h: Handlers, a: nat, b: nat, c: nat)
    requires b == a + 1 <= c
    ensures Wanted(h, a, c) <==> h(a).wantsYield || Wanted(h, b, c)
  {}

  /** Between operations no wish for a yield is left over. */
  lemma {:induction false} NoWishLeft(events: seq<Event>, h: Handlers)
    requires Run(events, h)
    ensures !After(events, h).yieldOnReturn
  {
    if events != [] {
      var n := |events| - 1;
      NoWishLeft(events[..n], h);
      NextNoWish(After(events[..n], h), events[n], h);
    }
  }

  lemma {:induction false} NextNoWish(s: Sim, e: Event, h: Handlers)
    requires Enabled(s, e) && !s.yieldOnReturn
    ensures !Next(s, e, h).yieldOnReturn
  {
    if e.Idle? && !CheckDue(IdleStart(s), true, h).1 {
      assert CheckDue(IdleStart(s), true, h).0.yieldOnReturn == s.yieldOnReturn;
    }
  }

  /**
   * The tick asks for a yield, and leaves the machine in the kernel for it, exactly if the handler of one of the
   * interrupts delivered in it wants one; otherwise the machine is in the mode it was in.
   */
  lemma {:induction false} TickYields(events: seq<Event>, h: Handlers)
    requires Run(events, h) && events != [] && Run(events[..|events| - 1], h)
    requires Ticks(After(events[..|events| - 1], h), events[|events| - 1])
    ensures var s, t := After(events[..|events| - 1], h), After(events, h);
      && |s.fired| <= |t.fired|
      && (Drained(Masked(s), h).yieldOnReturn <==> Wanted(h, |s.fired|, |t.fired|))
      && t.status == if Wanted(h, |s.fired|, |t.fired|) then SystemMode else s.status
  {
    NoWishLeft(events[..|events| - 1], h);
    TickEvent(After(events[..|events| - 1], h), events[|events| - 1], h);
  }

  lemma {:induction false} TickEvent(s: Sim, e: Event, h: Handlers)
    requires Enabled(s, e) && Ticks(s, e) && !s.yieldOnReturn
    ensures var t := Next(s, e, h);
      && |s.fired| <= |t.fired|
      && (Drained(Masked(s), h).yieldOnReturn <==> Wanted(h, |s.fired|, |t.fired|))
      && t.status == if Wanted(h, |s.fired|, |t.fired|) then SystemMode else s.status
  {
    if e.SetLevel? {
      TickStatus(s.(level := true), h);
      assert Masked(s.(level := true)) == Masked(s);
    } else {
      TickStatus(s, h);
    }
  }

  lemma {:induction false} TickStatus(s: Sim, h: Handlers)
    requires !s.yieldOnReturn
    ensures var t, d := Tick(s, h), Drained(Masked(s), h);
      && |s.fired| <= |t.fired| && t.fired == d.fired
      && (d.yieldOnReturn <==> Wanted(h, |s.fired|, |t.fired|))
      && t.status == if Wanted(h, |s.fired|, |t.fired|) then SystemMode else s.status
  {
    DrainedYield(Masked(s), h);
    DrainedStatus(Masked(s), h);
  }

  lemma {:induction false} DrainedStatus(s: Sim, h: Handlers)
    ensures Drained(s, h).status == s.status
    decreases DueCount(s.pending, s.total)
  {
    CheckDueFrame(s, false, h);
    if CheckDue(s, false, h).1 {
      CheckDueDecreases(s, h);
      DrainedStatus(CheckDue(s, false, h).0, h);
    }
  }
}
