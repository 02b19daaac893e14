/**
 * Runs of the thread system on its objects: a system that has taken the steps `events` since it started in `k0`
 * stands for the state that those steps lead to, and every operation adds its own step. What holds after every
 * interleaving therefore holds of the objects.
 */
module ThreadRuns {
  import opened Options
  import opened Lists
  import opened ThreadKernel
  import opened ThreadLists
  import opened ThreadSystem
  import opened ThreadObjects
  import opened ThreadOrder

  /** The objects are where the run has led. */
  ghost predicate At(system: System, k0: Kernel, events: seq<Event>)
    reads *
  {
    Start(k0) && Interleaving(k0, events) && system.Coupled(After(k0, events))
  }

  /** The step can be taken next. */
  ghost predicate May(k0: Kernel, events: seq<Event>, e: Event) {
    Start(k0) && Interleaving(k0, events) && Enabled(After(k0, events), e)
  }

  method Boot(sems: map<Sid, Semaphore>) returns (system: System, ghost k0: Kernel)
    requires Different(sems) && forall s :: s in sems ==> sems[s].queue.Valid() && Unused(sems[s].View())
    ensures system.sems == sems && At(system, k0, [])
    ensures fresh(system.scheduler) && fresh(system.scheduler.readyList) && fresh(system.scheduler.readyList.Repr) && fresh(system.scheduler.threads)
    ensures fresh(system.processes.activeThreads) && fresh(system.processes.activeThreads.Repr)
  {
    system, k0 := Initialize(sems);
  }

  method Create(system: System, id: int, user: bool, ghost k0: Kernel, ghost events: seq<Event>) returns (thread: Thread)
    requires At(system, k0, events) && AtRest(After(k0, events))
    modifies system.processes.activeThreads, system.processes.activeThreads.Repr, system.scheduler`threads
    ensures fresh(thread) && thread.ID == id && At(system, k0, events + [DoNew(thread, user)])
    ensures fresh(system.processes.activeThreads.Repr - old(system.processes.activeThreads.Repr))
  {
    thread := system.Create(id, user, After(k0, events));
    NewExtends(k0, events, thread, user);
  }

  method Fork(system: System, t: Thread, ghost k0: Kernel, ghost events: seq<Event>)
    requires At(system, k0, events) && May(k0, events, DoFork(t))
    modifies system.scheduler.readyList, system.scheduler.readyList.Repr, t`status
    ensures At(system, k0, events + [DoFork(t)])
    ensures fresh(system.scheduler.readyList.Repr - old(system.scheduler.readyList.Repr))
  {
    ForkExtends(k0, events, t);
    system.Fork(t, After(k0, events));
  }

  method Yield(system: System, ghost k0: Kernel, ghost events: seq<Event>)
    requires At(system, k0, events) && May(k0, events, DoYield)
    modifies system.scheduler, system.scheduler.readyList, system.scheduler.readyList.Repr, system.scheduler.threads`status
    ensures At(system, k0, events + [DoYield])
    ensures fresh(system.scheduler.readyList.Repr - old(system.scheduler.readyList.Repr))
  {
    YieldExtends(k0, events);
    system.Yield(After(k0, events));
  }

  method P(system: System, s: Sid, ghost k0: Kernel, ghost events: seq<Event>)
    requires At(system, k0, events) && s in system.sems && May(k0, events, DoP(s))
    modifies system.sems[s], system.sems[s].queue, system.sems[s].queue.Repr
    modifies system.scheduler`asleep, system.scheduler.currentThread`status, system.scheduler.currentThread`at
    ensures At(system, k0, events + [DoP(s)])
    ensures fresh(system.sems[s].queue.Repr - old(system.sems[s].queue.Repr))
  {
    PExtends(k0, events, s);
    system.P(s, After(k0, events));
  }

  method V(system: System, s: Sid, ghost k0: Kernel, ghost events: seq<Event>)
    requires At(system, k0, events) && s in system.sems && May(k0, events, DoV(s))
    modifies system.sems[s], system.sems[s].queue, system.scheduler.threads`status, system.scheduler.readyList, system.scheduler.readyList.Repr
    ensures At(system, k0, events + [DoV(s)])
    ensures fresh(system.scheduler.readyList.Repr - old(system.scheduler.readyList.Repr)) && system.sems[s].queue.Repr == old(system.sems[s].queue.Repr)
  {
    VExtends(k0, events, s);
    system.V(s, After(k0, events));
  }

  method Join(system: System, arg1: int, ghost k0: Kernel, ghost events: seq<Event>) returns (ghost found: Option<Thread>)
    requires At(system, k0, events) && AtRest(After(k0, events))
    modifies system.scheduler`asleep, system.scheduler.currentThread`status, system.scheduler.currentThread`at, system.scheduler.currentThread`isJoined
    modifies system.processes.Active()`parent, system.processes.activeThreads, system.processes.activeThreads.Repr
    ensures found.Some? ==> 0 <= arg1 && found.value in After(k0, events).active && found.value.ID == arg1
    ensures found.None? ==> arg1 < 0 || forall x :: x in After(k0, events).active ==> x.ID != arg1
    ensures At(system, k0, events + [DoJoin(found)])
    ensures fresh(system.processes.activeThreads.Repr - old(system.processes.activeThreads.Repr))
  {
    JoinPossible(k0, events);
    found := system.Join(arg1, After(k0, events));
    JoinExtends(k0, events, found);
  }

  method Finish(system: System, ghost k0: Kernel, ghost events: seq<Event>)
    requires At(system, k0, events) && May(k0, events, DoFinish)
    modifies system.scheduler`asleep, system.scheduler.threads`status, system.scheduler.threads`at, system.scheduler.threads`isJoined
    modifies system.scheduler.readyList, system.scheduler.readyList.Repr
    modifies system.processes.activeThreads, system.processes.activeThreads.Repr
    ensures At(system, k0, events + [DoFinish])
    ensures fresh(system.scheduler.readyList.Repr - old(system.scheduler.readyList.Repr))
    ensures fresh(system.processes.activeThreads.Repr - old(system.processes.activeThreads.Repr))
  {
    FinishExtends(k0, events);
    system.Finish(After(k0, events));
  }

  method Dispatch(system: System, ghost k0: Kernel, ghost events: seq<Event>)
    requires At(system, k0, events) && May(k0, events, DoDispatch)
    modifies system.scheduler, system.scheduler.readyList, system.scheduler.threads`status
    ensures At(system, k0, events + [DoDispatch])
    ensures system.scheduler.readyList.Repr == old(system.scheduler.readyList.Repr)
  {
    DispatchExtends(k0, events);
    system.Dispatch(After(k0, events));
  }

  // ---- every interleaving, on the objects ----

  /** The READY thread objects are the ones on the ready list, each there once. */
  lemma {:induction false} ReadyObjects(system: System, k0: Kernel, events: seq<Event>)
    requires At(system, k0, events)
    ensures multiset(Items(system.scheduler.readyList.Contents())) == multiset(set x | x in system.scheduler.threads && x.status == Ready)
  {
    var k := After(k0, events);
    ListedOnce(k.ready, ReadySet(k));
    assert ReadySet(k) == set x | x in system.scheduler.threads && x.status == Ready by {
      assert system.scheduler.State() == Part(k);
    }
  }

  /**
   * A semaphore object's value is balanced and never negative, and its queue has exactly the thread objects
   * blocked in its `P`, each once.
   */
  lemma {:induction false} SemaphoreObjects(system: System, k0: Kernel, events: seq<Event>, s: Sid)
    requires At(system, k0, events) && s in system.sems
    ensures s in k0.sems && 0 <= system.sems[s].value == k0.sems[s].value + Vs(events, s) - Ps(k0, events, s)
    ensures multiset(Items(system.sems[s].queue.Contents())) ==
      multiset(set x | x in system.scheduler.threads && x.status == Blocked && x.at == InP(s))
  {
    var k := After(k0, events);
    assert s in k.sems && k.sems[s] == system.sems[s].View();
    SemaphoreSafety(k0, events, s);
    QueueIs(k0, events, s);
    assert WaitingSet(k, s) == set x | x in system.scheduler.threads && x.status == Blocked && x.at == InP(s) by {
      assert system.scheduler.State() == Part(k);
    }
  }

  lemma {:induction false} QueueIs(k0: Kernel, events: seq<Event>, s: Sid)
    requires Start(k0) && Interleaving(k0, events) && s in After(k0, events).sems
    ensures var k := After(k0, events); multiset(k.sems[s].queue) == multiset(WaitingSet(k, s))
  {
    var k := After(k0, events);
    assert SemOk(k, s);
    ListedOnce(k.sems[s].queue, WaitingSet(k, s));
  }

  /** Just after a Join on `c`, the caller sleeps and is what `c` has for a parent. */
  lemma {:induction false} JoinObjects(system: System, k0: Kernel, events: seq<Event>, c: Thread)
    requires At(system, k0, events + [DoJoin(Some(c))])
    ensures var w := system.scheduler.currentThread;
      && system.scheduler.asleep && w.status == Blocked && w.at == Joining(c) && w.isJoined && c.parent == w
      && w in system.scheduler.threads && c in system.scheduler.threads
  {
    var events' := events + [DoJoin(Some(c))];
    assert events'[..|events|] == events;
    var k := After(k0, events);
    JoinWaits(k, c);
    Caller(k0, events, c);
    Shown(system.scheduler, After(k0, events'), k.current);
    Shown(system.scheduler, After(k0, events'), c);
  }

  lemma {:induction false} Caller(k0: Kernel, events: seq<Event>, c: Tid)
    requires May(k0, events, DoJoin(Some(c)))
    ensures var k := After(k0, events); k.current in k.threads && Next(k, DoJoin(Some(c))).threads[k.current].isJoined
  {}

  /** A thread object is as the state says. */
  lemma {:induction false} Shown(scheduler: Scheduler, k: Kernel, t: Thread)
    requires scheduler.State() == Part(k) && t in k.threads
    ensures t in scheduler.threads && t.View() == k.threads[t] && scheduler.currentThread == k.current && scheduler.asleep == k.asleep
  {}

  // ---- one step more ----

  lemma {:induction false} Extends(k0: Kernel, events: seq<Event>, e: Event)
    requires May(k0, events, e)
    ensures Interleaving(k0, events + [e]) && After(k0, events + [e]) == Next(After(k0, events), e)
  {
    assert (events + [e])[..|events|] == events;
  }

  lemma {:induction false} NewExtends(k0: Kernel, events: seq<Event>, t: Tid, user: bool)
    requires May(k0, events, DoNew(t, user))
    ensures var events' := events + [DoNew(t, user)];
            Interleaving(k0, events') && After(k0, events') == New(After(k0, events), t, user)
  {
    Extends(k0, events, DoNew(t, user));
  }

  lemma {:induction false} ForkExtends(k0: Kernel, events: seq<Event>, t: Tid)
    requires May(k0, events, DoFork(t))
    ensures var k, events' := After(k0, events), events + [DoFork(t)];
            t in k.threads && Interleaving(k0, events') && After(k0, events') == ReadyToRun(k, t)
  {
    Extends(k0, events, DoFork(t));
  }

  lemma {:induction false} YieldExtends(k0: Kernel, events: seq<Event>)
    requires May(k0, events, DoYield)
    ensures var k, events' := After(k0, events), events + [DoYield];
            CanYield(k) && Interleaving(k0, events') && After(k0, events') == ThreadKernel.Yield(k)
  {
    EnabledSteps(After(k0, events), 0);
    Extends(k0, events, DoYield);
  }

  lemma {:induction false} PExtends(k0: Kernel, events: seq<Event>, s: Sid)
    requires May(k0, events, DoP(s))
    ensures var k, events' := After(k0, events), events + [DoP(s)];
            s in k.sems && k.current in k.threads && Interleaving(k0, events') && After(k0, events') == ThreadKernel.P(k, s)
  {
    Extends(k0, events, DoP(s));
  }

  lemma {:induction false} VExtends(k0: Kernel, events: seq<Event>, s: Sid)
    requires May(k0, events, DoV(s))
    ensures var k, events' := After(k0, events), events + [DoV(s)];
            CanV(k, s) && Interleaving(k0, events') && After(k0, events') == ThreadKernel.V(k, s)
  {
    EnabledSteps(After(k0, events), s);
    Extends(k0, events, DoV(s));
  }

  lemma {:induction false} JoinPossible(k0: Kernel, events: seq<Event>)
    requires May(k0, events, DoJoin(None))
    ensures var k := After(k0, events); k.current in k.threads && k.active <= k.threads.Keys
  {
    assert Threads(After(k0, events));
  }

  lemma {:induction false} JoinExtends(k0: Kernel, events: seq<Event>, found: Option<Tid>)
    requires May(k0, events, DoJoin(found))
    ensures var k, events' := After(k0, events), events + [DoJoin(found)];
            && k.current in k.threads && (found.Some? ==> found.value in k.threads)
            && Interleaving(k0, events') && After(k0, events') == ThreadKernel.Join(k, found)
  {
    Extends(k0, events, DoJoin(found));
  }

  lemma {:induction false} FinishExtends(k0: Kernel, events: seq<Event>)
    requires May(k0, events, DoFinish)
    ensures var k, events' := After(k0, events), events + [DoFinish];
            CanFinish(k) && Interleaving(k0, events') && After(k0, events') == ThreadKernel.Finish(k)
  {
    EnabledSteps(After(k0, events), 0);
    Extends(k0, events, DoFinish);
  }

  lemma {:induction false} DispatchExtends(k0: Kernel, events: seq<Event>)
    requires May(k0, events, DoDispatch)
    ensures var k, events' := After(k0, events), events + [DoDispatch];
            CanDispatch(k) && Interleaving(k0, events') && After(k0, events') == ThreadKernel.Dispatch(k)
  {
    EnabledSteps(After(k0, events), 0);
    Extends(k0, events, DoDispatch);
  }
}
