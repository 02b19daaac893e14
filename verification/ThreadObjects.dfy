/**
 * All the objects of the thread system together, coupled with the state of `ThreadKernel` that they stand for.
 * Every method takes the objects to the next such state by the step of its name, so whatever the interleaving,
 * the objects are at any time what the run so far makes of the state they started in.
 */
module ThreadObjects {
  import opened Options
  import opened Lists
  import opened ThreadKernel
  import opened ThreadLists
  import opened ThreadSystem

  /** The part of the state that the scheduler knows about. */
  ghost function Part(k: Kernel): Kernel {
    k.(sems := map[], active := {})
  }

  /** No two semaphores are the same, and no two queues. */
  ghost predicate Different(sems: map<Sid, Semaphore>) {
    forall s, r :: s in sems && r in sems && s != r ==> sems[s] != sems[r] && sems[s].queue != sems[r].queue
  }

  class System {
    const scheduler: Scheduler
    const processes: Processes
    /** The semaphores there are. */
    const sems: map<Sid, Semaphore>

    constructor (scheduler: Scheduler, processes: Processes, sems: map<Sid, Semaphore>)
      ensures this.scheduler == scheduler && this.processes == processes && this.sems == sems
    {
      this.scheduler, this.processes, this.sems := scheduler, processes, sems;
    }

    /** The semaphore's queue is in order, and none of the other lists. */
    ghost predicate Apart(x: Semaphore)
      reads this, x.queue, x.queue.Repr
    {
      x.queue.Valid() && x.queue != scheduler.readyList && x.queue != processes.activeThreads
    }

    ghost predicate SemsHold(k: Kernel)
      reads *
    {
      && (forall r :: r in sems ==> Apart(sems[r]))
      && Different(sems) && k.sems.Keys == sems.Keys && forall s :: s in sems ==> k.sems[s] == sems[s].View()
    }

    ghost predicate ThreadsHold(k: Kernel)
      reads this, scheduler, scheduler.threads, scheduler.readyList, scheduler.readyList.Repr
    {
      scheduler.readyList.Valid() && scheduler.State() == Part(k)
    }

    ghost predicate ActiveHold(k: Kernel)
      reads this, processes.activeThreads, processes.activeThreads.Repr
    {
      && processes.scheduler == scheduler && processes.activeThreads != scheduler.readyList
      && processes.Valid() && processes.Active() == k.active
    }

    /** The objects stand for `k`; no two lists are the same. */
    ghost predicate Coupled(k: Kernel)
      reads *
    {
      ThreadsHold(k) && ActiveHold(k) && SemsHold(k)
    }

    // ---- the steps on threads and the ready list; no semaphore notices ----

    method Yield(ghost k: Kernel)
      requires Coupled(k) && CanYield(k)
      modifies scheduler, scheduler.readyList, scheduler.readyList.Repr, scheduler.threads`status
      ensures Coupled(ThreadKernel.Yield(k))
      ensures fresh(scheduler.readyList.Repr - old(scheduler.readyList.Repr))
    {
      YieldPart(k);
      YieldApart();
    }

    method YieldApart()
      requires scheduler.readyList.Valid() && CanYield(scheduler.State()) && forall r :: r in sems ==> Apart(sems[r])
      modifies scheduler, scheduler.readyList, scheduler.readyList.Repr, scheduler.threads`status
      ensures scheduler.readyList.Valid() && scheduler.State() == ThreadKernel.Yield(old(scheduler.State()))
      ensures forall r :: r in sems ==> Apart(sems[r]) && sems[r].View() == old(sems[r].View())
      ensures fresh(scheduler.readyList.Repr - old(scheduler.readyList.Repr))
    {
      scheduler.Yield();
    }

    method Dispatch(ghost k: Kernel)
      requires Coupled(k) && CanDispatch(k)
      modifies scheduler, scheduler.readyList, scheduler.threads`status
      ensures Coupled(ThreadKernel.Dispatch(k))
      ensures scheduler.readyList.Repr == old(scheduler.readyList.Repr)
    {
      DispatchPart(k);
      DispatchApart();
    }

    method DispatchApart()
      requires scheduler.readyList.Valid() && CanDispatch(scheduler.State()) && forall r :: r in sems ==> Apart(sems[r])
      modifies scheduler, scheduler.readyList, scheduler.threads`status
      ensures scheduler.readyList.Valid() && scheduler.State() == ThreadKernel.Dispatch(old(scheduler.State()))
      ensures forall r :: r in sems ==> Apart(sems[r]) && sems[r].View() == old(sems[r].View())
      ensures scheduler.readyList.Repr == old(scheduler.readyList.Repr)
    {
      scheduler.Dispatch();
    }

    method Fork(t: Thread, ghost k: Kernel)
      requires Coupled(k) && t in k.threads
      modifies scheduler.readyList, scheduler.readyList.Repr, t`status
      ensures Coupled(ReadyToRun(k, t))
      ensures fresh(scheduler.readyList.Repr - old(scheduler.readyList.Repr))
    {
      ForkApart(t);
    }

    method ForkApart(t: Thread)
      requires scheduler.readyList.Valid() && t in scheduler.threads && forall r :: r in sems ==> Apart(sems[r])
      modifies scheduler.readyList, scheduler.readyList.Repr, t`status
      ensures scheduler.readyList.Valid() && scheduler.State() == ReadyToRun(old(scheduler.State()), t)
      ensures forall r :: r in sems ==> Apart(sems[r]) && sems[r].View() == old(sems[r].View())
      ensures fresh(scheduler.readyList.Repr - old(scheduler.readyList.Repr))
    {
      scheduler.Fork(t);
    }

    // ---- the steps on one semaphore; no other notices ----

    method P(s: Sid, ghost k: Kernel)
      requires Coupled(k) && s in sems && k.current in k.threads
      modifies sems[s], sems[s].queue, sems[s].queue.Repr, scheduler`asleep, scheduler.currentThread`status, scheduler.currentThread`at
      ensures Coupled(ThreadKernel.P(k, s))
      ensures fresh(sems[s].queue.Repr - old(sems[s].queue.Repr))
    {
      PPart(k, s);
      PCoupled(sems[s], s, k, ThreadKernel.P(k, s));
    }

    /** With the semaphores put in their places. */
    method PCoupled(sem: Semaphore, s: Sid, ghost k: Kernel, ghost k': Kernel)
      requires Coupled(k) && s in sems && sem == sems[s] && k.current in k.threads
      requires Part(k') == PScheduler(Part(k), s, k.sems[s]) && k'.active == k.active
      requires k'.sems.Keys == k.sems.Keys && k'.sems[s] == PSem(k.current, k.sems[s])
      requires forall r :: r in k.sems && r != s ==> k'.sems[r] == k.sems[r]
      modifies sem, sem.queue, sem.queue.Repr, scheduler`asleep, scheduler.currentThread`status, scheduler.currentThread`at
      ensures Coupled(k')
      ensures fresh(sem.queue.Repr - old(sem.queue.Repr))
    {
      PBeside(sem, s, k, k');
    }

    method PBeside(sem: Semaphore, s: Sid, ghost k: Kernel, ghost k': Kernel)
      requires ThreadsHold(k) && ActiveHold(k) && k.current in k.threads
      requires Part(k') == PScheduler(Part(k), s, sem.View()) && k'.active == k.active
      requires forall r :: r in sems && r != s ==> r in k'.sems && k'.sems[r] == sems[r].View()
      requires Apart(sem) && forall r :: r in sems && r != s ==> Apart(sems[r]) && sems[r] != sem && sems[r].queue != sem.queue
      modifies sem, sem.queue, sem.queue.Repr, scheduler`asleep, scheduler.currentThread`status, scheduler.currentThread`at
      ensures ThreadsHold(k') && ActiveHold(k') && sem.View() == PSem(k.current, old(sem.View()))
      ensures Apart(sem) && forall r :: r in sems && r != s ==> Apart(sems[r]) && k'.sems[r] == sems[r].View()
      ensures fresh(sem.queue.Repr - old(sem.queue.Repr))
    {
      PApart(sem, s);
    }

    method PApart(sem: Semaphore, s: Sid)
      requires scheduler.readyList.Valid() && scheduler.currentThread in scheduler.threads
      requires Apart(sem) && forall r :: r in sems && r != s ==> Apart(sems[r]) && sems[r] != sem && sems[r].queue != sem.queue
      modifies sem, sem.queue, sem.queue.Repr, scheduler`asleep, scheduler.currentThread`status, scheduler.currentThread`at
      ensures scheduler.readyList.Valid()
      ensures var part, was := old(scheduler.State()), old(sem.View());
              scheduler.State() == PScheduler(part, s, was) && sem.View() == PSem(part.current, was)
      ensures Apart(sem) && forall r :: r in sems && r != s ==> Apart(sems[r]) && sems[r].View() == old(sems[r].View())
      ensures fresh(sem.queue.Repr - old(sem.queue.Repr))
    {
      sem.P(scheduler, s);
    }

    method V(s: Sid, ghost k: Kernel)
      requires Coupled(k) && CanV(k, s)
      modifies sems[s], sems[s].queue, scheduler.threads`status, scheduler.readyList, scheduler.readyList.Repr
      ensures Coupled(ThreadKernel.V(k, s))
      ensures fresh(scheduler.readyList.Repr - old(scheduler.readyList.Repr)) && sems[s].queue.Repr == old(sems[s].queue.Repr)
    {
      VPart(k, s);
      VCoupled(sems[s], s, k, ThreadKernel.V(k, s));
    }

    /** With the semaphores put in their places. */
    method VCoupled(sem: Semaphore, s: Sid, ghost k: Kernel, ghost k': Kernel)
      requires Coupled(k) && s in sems && sem == sems[s] && (k.sems[s].queue != [] ==> k.sems[s].queue[0] in k.threads)
      requires Part(k') == VScheduler(Part(k), k.sems[s]) && k'.active == k.active
      requires k'.sems.Keys == k.sems.Keys && k'.sems[s] == VSem(k.sems[s])
      requires forall r :: r in k.sems && r != s ==> k'.sems[r] == k.sems[r]
      modifies sem, sem.queue, scheduler.threads`status, scheduler.readyList, scheduler.readyList.Repr
      ensures Coupled(k')
      ensures fresh(scheduler.readyList.Repr - old(scheduler.readyList.Repr)) && sem.queue.Repr == old(sem.queue.Repr)
    {
      VBeside(sem, s, k, k');
    }

    method VBeside(sem: Semaphore, s: Sid, ghost k: Kernel, ghost k': Kernel)
      requires ThreadsHold(k) && ActiveHold(k) && (sem.View().queue != [] ==> sem.View().queue[0] in k.threads)
      requires Part(k') == VScheduler(Part(k), sem.View()) && k'.active == k.active
      requires forall r :: r in sems && r != s ==> r in k'.sems && k'.sems[r] == sems[r].View()
      requires Apart(sem) && forall r :: r in sems && r != s ==> Apart(sems[r]) && sems[r] != sem && sems[r].queue != sem.queue
      modifies sem, sem.queue, scheduler.threads`status, scheduler.readyList, scheduler.readyList.Repr
      ensures ThreadsHold(k') && ActiveHold(k') && sem.View() == VSem(old(sem.View()))
      ensures Apart(sem) && forall r :: r in sems && r != s ==> Apart(sems[r]) && k'.sems[r] == sems[r].View()
      ensures fresh(scheduler.readyList.Repr - old(scheduler.readyList.Repr)) && sem.queue.Repr == old(sem.queue.Repr)
    {
      VApart(sem, s);
    }

    method VApart(sem: Semaphore, s: Sid)
      requires scheduler.readyList.Valid()
      requires sem.View().queue != [] ==> sem.View().queue[0] in scheduler.threads
      requires Apart(sem) && forall r :: r in sems && r != s ==> Apart(sems[r]) && sems[r] != sem && sems[r].queue != sem.queue
      modifies sem, sem.queue, scheduler.threads`status, scheduler.readyList, scheduler.readyList.Repr
      ensures scheduler.readyList.Valid()
      ensures var part, was := old(scheduler.State()), old(sem.View());
              scheduler.State() == VScheduler(part, was) && sem.View() == VSem(was)
      ensures Apart(sem) && forall r :: r in sems && r != s ==> Apart(sems[r]) && sems[r].View() == old(sems[r].View())
      ensures fresh(scheduler.readyList.Repr - old(scheduler.readyList.Repr)) && sem.queue.Repr == old(sem.queue.Repr)
    {
      sem.V(scheduler);
    }

    // ---- the steps on processes ----

    method Create(id: int, user: bool, ghost k: Kernel) returns (thread: Thread)
      requires Coupled(k)
      modifies processes.activeThreads, processes.activeThreads.Repr, scheduler`threads
      ensures fresh(thread) && thread !in k.threads && thread.ID == id && Coupled(New(k, thread, user))
      ensures fresh(processes.activeThreads.Repr - old(processes.activeThreads.Repr))
    {
      thread := CreateApart(id, user);
    }

    method CreateApart(id: int, user: bool) returns (thread: Thread)
      requires scheduler.readyList.Valid() && processes.scheduler == scheduler && processes.activeThreads != scheduler.readyList && processes.Valid()
      requires forall r :: r in sems ==> Apart(sems[r])
      modifies processes.activeThreads, processes.activeThreads.Repr, scheduler`threads
      ensures scheduler.readyList.Valid() && processes.Valid() && fresh(thread) && thread.ID == id
      ensures scheduler.State() == New(old(scheduler.State()), thread, false)
      ensures processes.Active() == old(processes.Active()) + if user then {thread} else {}
      ensures forall r :: r in sems ==> Apart(sems[r]) && sems[r].View() == old(sems[r].View())
      ensures fresh(processes.activeThreads.Repr - old(processes.activeThreads.Repr))
    {
      thread := processes.Create(id, user);
    }

    method Join(arg1: int, ghost k: Kernel) returns (ghost found: Option<Thread>)
      requires Coupled(k) && k.current in k.threads && k.active <= k.threads.Keys
      modifies scheduler`asleep, scheduler.currentThread`status, scheduler.currentThread`at, scheduler.currentThread`isJoined
      modifies processes.Active()`parent, processes.activeThreads, processes.activeThreads.Repr
      ensures found.Some? ==> 0 <= arg1 && found.value in k.active && found.value.ID == arg1
      ensures found.None? ==> arg1 < 0 || forall x :: x in k.active ==> x.ID != arg1
      ensures Coupled(ThreadKernel.Join(k, found))
      ensures fresh(processes.activeThreads.Repr - old(processes.activeThreads.Repr))
    {
      found := JoinApart(arg1);
      JoinPart(k, found);
    }

    method JoinApart(arg1: int) returns (ghost found: Option<Thread>)
      requires scheduler.readyList.Valid() && processes.scheduler == scheduler && processes.activeThreads != scheduler.readyList && processes.Valid()
      requires scheduler.currentThread in scheduler.threads && processes.Active() <= scheduler.threads && forall r :: r in sems ==> Apart(sems[r])
      modifies scheduler`asleep, scheduler.currentThread`status, scheduler.currentThread`at, scheduler.currentThread`isJoined
      modifies processes.Active()`parent, processes.activeThreads, processes.activeThreads.Repr
      ensures scheduler.readyList.Valid() && processes.Valid() && processes.Active() == old(processes.Active())
      ensures found.Some? ==> 0 <= arg1 && found.value in processes.Active() && found.value.ID == arg1
      ensures found.None? ==> arg1 < 0 || forall x :: x in processes.Active() ==> x.ID != arg1
      ensures scheduler.State() == ThreadKernel.Join(old(scheduler.State()), found)
      ensures forall r :: r in sems ==> Apart(sems[r]) && sems[r].View() == old(sems[r].View())
      ensures fresh(processes.activeThreads.Repr - old(processes.activeThreads.Repr))
    {
      found := processes.Join(arg1);
    }

    method Finish(ghost k: Kernel)
      requires Coupled(k) && CanFinish(k)
      modifies scheduler`asleep, scheduler.threads`status, scheduler.threads`at, scheduler.threads`isJoined
      modifies scheduler.readyList, scheduler.readyList.Repr, processes.activeThreads, processes.activeThreads.Repr
      ensures Coupled(ThreadKernel.Finish(k))
      ensures fresh(scheduler.readyList.Repr - old(scheduler.readyList.Repr)) && fresh(processes.activeThreads.Repr - old(processes.activeThreads.Repr))
    {
      FinishPart(k);
      FinishApart();
    }

    method FinishApart()
      requires scheduler.readyList.Valid() && processes.scheduler == scheduler && processes.activeThreads != scheduler.readyList && processes.Valid()
      requires CanFinish(scheduler.State()) && forall r :: r in sems ==> Apart(sems[r])
      modifies scheduler`asleep, scheduler.threads`status, scheduler.threads`at, scheduler.threads`isJoined
      modifies scheduler.readyList, scheduler.readyList.Repr, processes.activeThreads, processes.activeThreads.Repr
      ensures scheduler.readyList.Valid() && processes.Valid()
      ensures scheduler.State() == Sleep(Woken(old(scheduler.State())), Finishing)
      ensures processes.Active() == old(processes.Active()) - {scheduler.currentThread}
      ensures forall r :: r in sems ==> Apart(sems[r]) && sems[r].View() == old(sems[r].View())
      ensures fresh(scheduler.readyList.Repr - old(scheduler.readyList.Repr)) && fresh(processes.activeThreads.Repr - old(processes.activeThreads.Repr))
    {
      processes.Finish();
    }
  }

  /** The start: the main thread runs, nobody is on the active list, and the semaphores are new. */
  method Initialize(sems: map<Sid, Semaphore>) returns (system: System, ghost k: Kernel)
    requires Different(sems) && forall s :: s in sems ==> sems[s].queue.Valid() && Unused(sems[s].View())
    ensures system.sems == sems && Start(k) && system.Coupled(k)
    ensures fresh(system.scheduler) && fresh(system.scheduler.readyList) && fresh(system.scheduler.readyList.Repr) && fresh(system.scheduler.threads)
    ensures fresh(system.processes.activeThreads) && fresh(system.processes.activeThreads.Repr)
  {
    var scheduler, processes := Globals();
    system, k := Assemble(scheduler, processes, sems);
  }

  method Globals() returns (scheduler: Scheduler, processes: Processes)
    ensures scheduler.readyList.Valid() && processes.Valid() && processes.Active() == {}
    ensures processes.scheduler == scheduler && processes.activeThreads != scheduler.readyList
    ensures fresh(scheduler) && fresh(scheduler.readyList) && fresh(scheduler.readyList.Repr) && fresh(scheduler.threads)
    ensures fresh(processes.activeThreads) && fresh(processes.activeThreads.Repr)
    ensures scheduler.State() == Kernel(map[scheduler.currentThread := Tcb(Running, Free, None, false)], [], map[], scheduler.currentThread, false, {})
  {
    var main := new Thread(0);
    main.status := Running;
    scheduler := new Scheduler(main);
    processes := new Processes(scheduler);
    assert scheduler.Threads() == map[main := main.View()];
  }

  method Assemble(scheduler: Scheduler, processes: Processes, sems: map<Sid, Semaphore>) returns (system: System, ghost k: Kernel)
    requires Different(sems)
    requires forall s :: s in sems ==> sems[s].queue.Valid() && sems[s].queue != scheduler.readyList && sems[s].queue != processes.activeThreads
    requires scheduler.readyList.Valid() && processes.scheduler == scheduler && processes.activeThreads != scheduler.readyList && processes.Valid()
    ensures system.scheduler == scheduler && system.processes == processes && system.sems == sems && system.Coupled(k)
    ensures Part(k) == scheduler.State() && k.active == processes.Active()
    ensures k.sems.Keys == sems.Keys && forall s :: s in sems ==> k.sems[s] == sems[s].View()
  {
    system := new System(scheduler, processes, sems);
    k := scheduler.State().(sems := map s | s in sems :: sems[s].View(), active := processes.Active());
  }

  // ---- a step on the whole state is the step on its parts ----

  lemma {:induction false} YieldPart(k: Kernel)
    requires CanYield(k)
    ensures CanYield(Part(k)) && Yield(Part(k)) == Part(Yield(k)) && Yield(k).sems == k.sems && Yield(k).active == k.active
  {}

  lemma {:induction false} DispatchPart(k: Kernel)
    requires CanDispatch(k)
    ensures CanDispatch(Part(k)) && Dispatch(Part(k)) == Part(Dispatch(k)) && Dispatch(k).sems == k.sems && Dispatch(k).active == k.active
  {}

  lemma {:induction false} PPart(k: Kernel, s: Sid)
    requires s in k.sems && k.current in k.threads
    ensures Part(P(k, s)) == PScheduler(Part(k), s, k.sems[s]) && P(k, s).active == k.active
    ensures P(k, s).sems == k.sems[s := PSem(k.current, k.sems[s])]
  {}

  lemma {:induction false} VPart(k: Kernel, s: Sid)
    requires CanV(k, s)
    ensures Part(V(k, s)) == VScheduler(Part(k), k.sems[s]) && V(k, s).active == k.active
    ensures V(k, s).sems == k.sems[s := VSem(k.sems[s])]
  {}

  lemma {:induction false} JoinPart(k: Kernel, found: Option<Tid>)
    requires k.current in k.threads && (found.Some? ==> found.value in k.threads)
    ensures Join(Part(k), found) == Part(Join(k, found)) && Join(k, found).sems == k.sems && Join(k, found).active == k.active
  {}

  lemma {:induction false} FinishPart(k: Kernel)
    requires CanFinish(k)
    ensures CanFinish(Part(k)) && Sleep(Woken(Part(k)), Finishing) == Part(Finish(k))
    ensures Finish(k).sems == k.sems && Finish(k).active == k.active - {k.current}
  {}
}
