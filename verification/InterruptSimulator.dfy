/**
 * The interrupt simulator as the machine runs it: fields updated in place, handlers called from a loop. Each
 * method does what the corresponding step on values does, so that what is proved of every run of steps holds
 * of every run of calls.
 */
module InterruptSimulator {
  import opened Lists
  import opened Options
  import opened Interrupts

  /** What becomes of `entry`, taken off the list of `s`: put back if it is not its time, and else decided. */
  function Considered(s: Sim, entry: Entry<Interruption>, advanceClock: bool, h: Handlers): (Sim, bool) {
    if entry.1 <= s.total then Decided(s, entry, h)
    else if advanceClock then Decided(s.(idle := s.idle + (entry.1 - s.total), total := entry.1), entry, h)
    else (s.(pending := Queued(s.pending, entry.0, entry.1)), false)
  }

  function Decided(s: Sim, entry: Entry<Interruption>, h: Handlers): (Sim, bool) {
    if s.status == IdleMode && entry.0.device == TimerInt && s.pending == [] then
      (s.(pending := Queued(s.pending, entry.0, entry.1)), false)
    else
      (Handled(s, entry, h(|s.fired|)), true)
  }

  lemma {:induction false} ConsideredIs(s: Sim, advanceClock: bool, h: Handlers)
    ensures CheckDue(s, advanceClock, h) ==
      if s.pending == [] then (s, false) else Considered(s.(pending := s.pending[1..]), s.pending[0], advanceClock, h)
  {}

  lemma {:induction false} StatusApart(s: Sim, entry: Entry<Interruption>, effects: Effects, status: Status)
    ensures Handled(s.(status := status), entry, effects) == Handled(s, entry, effects).(status := status)
  {
    RequestsApart(Noted(s, entry, effects), effects.requests, status);
  }

  lemma {:induction false} RequestsApart(s: Sim, requests: seq<(Interruption, Delay)>, status: Status)
    ensures ScheduledAll(s.(status := status), requests) == ScheduledAll(s, requests).(status := status)
  {
    if requests != [] {
      var n := |requests| - 1;
      RequestsApart(s, requests[..n], status);
      var t := ScheduledAll(s, requests[..n]);
      RequestApart(t, requests[n].0, Due(t.total, requests[n].1), status);
    }
  }

  lemma {:induction false} RequestApart(s: Sim, what: Interruption, when: int, status: Status)
    ensures Scheduled(s.(status := status), what, when) == Scheduled(s, what, when).(status := status)
  {}

  class Interrupt {
    var level: bool
    /** The interrupts scheduled to occur, sorted by time. */
    const pending: List<Interruption>
    var inHandler: bool
    var yieldOnReturn: bool
    var status: Status
    var halted: bool
    var totalTicks: int
    var idleTicks: int
    var systemTicks: int
    var userTicks: int
    /** The record of deliveries, and what each handler invocation will do. */
    var fired: seq<Firing>
    const handlers: Handlers
    /** What is on the pending list. */
    ghost var queue: seq<Entry<Interruption>>
    ghost var scheduled: multiset<Entry<Interruption>>

    ghost predicate Valid()
      reads this, pending, pending.Repr
    {
      pending.Valid() && pending.Contents() == queue
    }

    ghost function View(): Sim
      reads this
    {
      Sim(level, status, yieldOnReturn, halted, queue, totalTicks, idleTicks, systemTicks, userTicks, scheduled, fired)
    }

    constructor (handlers: Handlers)
      ensures View() == Initial() && !inHandler && this.handlers == handlers && fresh(pending) && fresh(pending.Repr) && Valid()
    {
      level := false;
      pending := new List();
      queue := [];
      inHandler := false;
      yieldOnReturn := false;
      status := SystemMode;
      halted := false;
      totalTicks, idleTicks, systemTicks, userTicks := 0, 0, 0, 0;
      fired := [];
      scheduled := multiset{};
      this.handlers := handlers;
    }

    /** Turn interrupts on or off; turning them on lets time pass. `yielding` asks the caller to yield the CPU. */
    method SetLevel(now: bool) returns (before: bool, yielding: bool)
      requires now ==> !inHandler
      requires !halted
      requires Valid()
      modifies this, pending, pending.Repr
      ensures Valid() && fresh(pending.Repr - old(pending.Repr))
      ensures before == old(level) && inHandler == old(inHandler)
      ensures View() == Next(old(View()), Event.SetLevel(now), handlers)
      ensures yielding == (now && !old(level) && Drained(Masked(old(View()).(level := true)), handlers).yieldOnReturn)
    {
      before := level;
      level := now;
      yielding := false;
      if now && !before {
        yielding := OneTick();
      }
    }

    /**
     * Let one tick pass and deliver everything due. A yield asked for by a handler is the caller's to make, in
     * system mode, before it puts the status back.
     */
    method OneTick() returns (yielding: bool)
      requires !inHandler
      requires Valid()
      modifies this, pending, pending.Repr
      ensures Valid() && fresh(pending.Repr - old(pending.Repr))
      ensures View() == Tick(old(View()), handlers) && !inHandler
      ensures yielding == Drained(Masked(old(View())), handlers).yieldOnReturn
    {
      AdvanceClock();
      level := false;
      Drain();
      yielding := FinishTick();
    }

    method AdvanceClock()
      modifies this
      ensures View() == Advanced(old(View())) && inHandler == old(inHandler)
      ensures queue == old(queue)
    {
      if status == SystemMode {
        totalTicks := totalTicks + 10;
        systemTicks := systemTicks + 10;
      } else {
        totalTicks := totalTicks + 1;
        userTicks := userTicks + 1;
      }
    }

    method FinishTick() returns (yielding: bool)
      modifies this
      ensures View() == TickEnd(old(View())) && inHandler == old(inHandler) && yielding == old(yieldOnReturn)
      ensures queue == old(queue)
    {
      level := true;
      yielding := yieldOnReturn;
      if yielding {
        yieldOnReturn := false;
        status := SystemMode;
      }
    }

    /** The drain loop: it ends because each round leaves fewer interrupts due. */
    method Drain()
      requires !level && !inHandler
      requires Valid()
      modifies this, pending, pending.Repr
      ensures Valid() && fresh(pending.Repr - old(pending.Repr))
      ensures View() == Drained(old(View()), handlers) && !inHandler
    {
      ghost var end := Drained(View(), handlers);
      var more := true;
      while more
        invariant !inHandler && !level && Valid() && fresh(pending.Repr - old(pending.Repr))
        invariant if more then Drained(View(), handlers) == end else View() == end
        decreases more, DueCount(queue, totalTicks)
      {
        ghost var s := View();
        more := CheckIfDue(false);
        if more {
          CheckDueDecreases(s, handlers);
          CheckDueFrame(s, false, handlers);
        } else {
          CheckDueFrame(s, false, handlers);
        }
      }
    }

    /** Nothing can run: move the clock to the next interrupt, or stop the machine. */
    method Idle()
      requires !level && !inHandler && !halted
      requires Valid()
      modifies this, pending, pending.Repr
      ensures Valid() && fresh(pending.Repr - old(pending.Repr))
      ensures View() == Next(old(View()), Event.Idle, handlers) && !inHandler
    {
      status := IdleMode;
      Advance();
    }

    method Advance()
      requires !level && !inHandler && Valid()
      modifies this, pending, pending.Repr
      ensures Valid() && fresh(pending.Repr - old(pending.Repr)) && !inHandler
      ensures View() == IdleRest(old(View()), handlers)
    {
      ghost var s := View();
      var some := CheckIfDue(true);
      CheckDueFrame(s, true, handlers);
      if some {
        DrainToSystem();
      } else {
        halted := true;
      }
    }

    /** Deliver whatever else is due, and go back to the kernel; a wish for a yield is granted by idling. */
    method DrainToSystem()
      requires !level && !inHandler && Valid()
      modifies this, pending, pending.Repr
      ensures Valid() && fresh(pending.Repr - old(pending.Repr)) && !inHandler
      ensures View() == Drained(old(View()), handlers).(yieldOnReturn := false, status := SystemMode)
    {
      Drain();
      yieldOnReturn := false;
      status := SystemMode;
    }

    method Schedule(what: Interruption, fromNow: Delay)
      requires Valid()
      modifies this, pending, pending.Repr
      ensures Valid() && fresh(pending.Repr - old(pending.Repr))
      ensures View() == Scheduled(old(View()), what, Due(old(totalTicks), fromNow)) && inHandler == old(inHandler)
    {
      var when := Due(totalTicks, fromNow);
      PutIn(what, when);
      scheduled := scheduled + multiset{(what, when)};
    }

    /** Put an interrupt on the pending list. */
    method PutIn(what: Interruption, when: int)
      requires Valid()
      modifies this`queue, pending, pending.Repr
      ensures Valid() && fresh(pending.Repr - old(pending.Repr))
      ensures queue == Queued(old(queue), what, when)
    {
      QueuedIsInserted(queue, what, when);
      pending.SortedInsert(what, when);
      queue := Queued(queue, what, when);
    }

    /** Take the first one off it. */
    method TakeOut() returns (taken: Option<Entry<Interruption>>)
      requires Valid()
      modifies this`queue, pending
      ensures Valid() && pending.Repr == old(pending.Repr)
      ensures if old(queue) == [] then taken == None && queue == [] else taken == Some(old(queue)[0]) && queue == old(queue)[1..]
    {
      taken := pending.SortedRemove();
      queue := if queue == [] then [] else queue[1..];
    }

    /** Deliver the first pending interrupt if it is due, moving the clock up to it if asked. */
    method CheckIfDue(advanceClock: bool) returns (delivered: bool)
      requires !level && !inHandler
      requires Valid()
      modifies this, pending, pending.Repr
      ensures Valid() && fresh(pending.Repr - old(pending.Repr))
      ensures (View(), delivered) == CheckDue(old(View()), advanceClock, handlers) && !inHandler
    {
      ConsideredIs(View(), advanceClock, handlers);
      var taken := TakeOut();
      if taken.None? {
        return false;
      }
      delivered := Consider(taken.value, advanceClock);
    }

    /** Decide about the interrupt that was first on the list. */
    method Consider(entry: Entry<Interruption>, advanceClock: bool) returns (delivered: bool)
      requires !level && !inHandler && Valid()
      modifies this, pending, pending.Repr
      ensures Valid() && fresh(pending.Repr - old(pending.Repr)) && !inHandler
      ensures (View(), delivered) == Considered(old(View()), entry, advanceClock, handlers)
    {
      var toOccur, when := entry.0, entry.1;
      if advanceClock && when > totalTicks {
        idleTicks := idleTicks + (when - totalTicks);
        totalTicks := when;
      } else if when > totalTicks {
        PutIn(toOccur, when);
        return false;
      }
      delivered := Decide(entry);
    }

    /** It is due. Unless it is all that is left while idling, and the timer's, run its handler. */
    method Decide(entry: Entry<Interruption>) returns (delivered: bool)
      requires !level && !inHandler && Valid()
      modifies this, pending, pending.Repr
      ensures Valid() && fresh(pending.Repr - old(pending.Repr)) && !inHandler
      ensures (View(), delivered) == Decided(old(View()), entry, handlers)
    {
      var last := pending.IsEmpty();
      if status == IdleMode && entry.0.device == TimerInt && last {
        PutIn(entry.0, entry.1);
        delivered := false;
      } else {
        Invoke(entry);
        delivered := true;
      }
    }

    /** Call the handler in system mode, and go back to what the machine was doing. */
    method Invoke(entry: Entry<Interruption>)
      requires Valid()
      modifies this, pending, pending.Repr
      ensures Valid() && fresh(pending.Repr - old(pending.Repr))
      ensures !inHandler && View() == Handled(old(View()), entry, handlers(|old(fired)|))
    {
      ghost var s := View();
      var before := status;
      inHandler := true;
      status := SystemMode;
      Handle(entry);
      status := before;
      inHandler := false;
      StatusApart(s.(status := SystemMode), entry, handlers(|s.fired|), before);
    }

    /** A handler's body: its requests one by one, and `YieldOnReturn` if it wants one. */
    method Handle(entry: Entry<Interruption>)
      requires inHandler
      requires Valid()
      modifies this, pending, pending.Repr
      ensures Valid() && fresh(pending.Repr - old(pending.Repr))
      ensures inHandler
      ensures View() == Handled(old(View()), entry, handlers(|old(fired)|))
    {
      var effects := handlers(|fired|);
      fired := fired + [Firing(entry, totalTicks)];
      if effects.wantsYield {
        yieldOnReturn := true;
      }
      MakeRequests(effects.requests);
    }

    method MakeRequests(requests: seq<(Interruption, Delay)>)
      requires Valid()
      modifies this, pending, pending.Repr
      ensures Valid() && fresh(pending.Repr - old(pending.Repr))
      ensures View() == ScheduledAll(old(View()), requests) && inHandler == old(inHandler)
    {
      var i := 0;
      while i < |requests|
        invariant 0 <= i <= |requests| && inHandler == old(inHandler)
        invariant Valid() && fresh(pending.Repr - old(pending.Repr))
        invariant View() == ScheduledAll(old(View()), requests[..i])
      {
        assert requests[..i + 1][..i] == requests[..i];
        Schedule(requests[i].0, requests[i].1);
        i := i + 1;
      }
      assert requests[..i] == requests;
    }
  }
}
