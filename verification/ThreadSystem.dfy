/**
 * Scheduler, threads, semaphores and the active list as the objects they are: thread control blocks updated in
 * place, and the kernel's linked lists. The objects that a method works on, with all threads there are, stand
 * for their part of a state of `ThreadKernel`, and the method takes that part to the next by the step of its
 * name. In such a state a thread is its object, so this says which objects are on which list in which order,
 * and what has become of each of them. All parts together are in `ThreadObjects`.
 */
module ThreadSystem {
  import opened Options
  import opened Lists
  import opened ThreadKernel
  import opened ThreadLists

  class Scheduler {
    const readyList: List<Thread>
    var currentThread: Thread
    /** Nobody runs: the current thread is in `Sleep`, looking for another. */
    ghost var asleep: bool
    /** The threads there are. */
    ghost var threads: set<Thread>

    /** One thread, which runs. */
    constructor (main: Thread)
      ensures readyList.Valid() && fresh(readyList) && fresh(readyList.Repr)
      ensures threads == {main} && readyList.Contents() == [] && currentThread == main && !asleep
    {
      readyList := new List();
      currentThread := main;
      asleep := false;
      threads := {main};
    }

    ghost function Threads(): map<Tid, Tcb>
      reads this, threads
    {
      map t | t in threads :: t.View()
    }

    /** The scheduler's part of the state: the threads, the ready list and who runs. */
    ghost function State(): Kernel
      reads this, threads, readyList
    {
      Kernel(Threads(), Items(readyList.Contents()), map[], currentThread, asleep, {})
    }

    /** A new thread among the others. */
    method Admit(id: int) returns (thread: Thread)
      modifies this`threads
      ensures fresh(thread) && thread.ID == id && threads == old(threads) + {thread}
      ensures State() == Put(old(State()), thread, Tcb(JustCreated, Free, None, false))
    {
      ghost var before := Threads();
      thread := new Thread(id);
      threads := threads + {thread};
      assert Threads() == before[thread := Tcb(JustCreated, Free, None, false)];
    }

    method ReadyToRun(thread: Thread)
      requires readyList.Valid() && thread in threads
      modifies readyList, readyList.Repr, thread`status
      ensures readyList.Valid() && fresh(readyList.Repr - old(readyList.Repr))
      ensures State() == ThreadKernel.ReadyToRun(old(State()), thread)
    {
      SetStatus(thread, Ready);
      PutReady(thread, false);
    }

    /** `setStatus`, as seen from all threads. */
    method SetStatus(thread: Thread, status: Status)
      requires thread in threads
      modifies thread`status
      ensures State() == Put(old(State()), thread, old(Threads())[thread].(status := status))
    {
      ghost var before := Threads();
      thread.status := status;
      assert Threads() == before[thread := before[thread].(status := status)];
    }

    /** Onto the ready list, at the front or at the end. */
    method PutReady(thread: Thread, front: bool)
      requires readyList.Valid()
      modifies readyList, readyList.Repr
      ensures readyList.Valid() && fresh(readyList.Repr - old(readyList.Repr))
      ensures var k := old(State()); State() == k.(ready := if front then [thread] + k.ready else k.ready + [thread])
    {
      if front {
        readyList.Prepend(thread);
      } else {
        readyList.Append(thread);
      }
    }

    method WakeUpFromJoin(thread: Thread)
      requires readyList.Valid() && thread in threads
      modifies readyList, readyList.Repr, thread`status, thread`at, thread`isJoined
      ensures readyList.Valid() && fresh(readyList.Repr - old(readyList.Repr))
      ensures State() == ThreadKernel.WakeUpFromJoin(old(State()), thread)
    {
      Unjoin(thread);
      PutReady(thread, true);
    }

    /** `setIsJoined` and `setStatus` for a thread that is back from Join. */
    method Unjoin(thread: Thread)
      requires thread in threads
      modifies thread`status, thread`at, thread`isJoined
      ensures State() == Put(old(State()), thread, old(Threads())[thread].(status := Ready, at := Free, isJoined := false))
    {
      ghost var before := Threads();
      thread.isJoined := false;
      thread.at := Free;
      thread.status := Ready;
      assert Threads() == before[thread := before[thread].(status := Ready, at := Free, isJoined := false)];
    }

    /** The first ready thread, taken off the list. */
    method FindNextToRun() returns (next: Option<Thread>)
      requires readyList.Valid()
      modifies readyList
      ensures readyList.Valid() && readyList.Repr == old(readyList.Repr)
      ensures var k := old(State());
              if k.ready == [] then next == None && State() == k
              else next == Some(k.ready[0]) && State() == k.(ready := k.ready[1..])
    {
      next := readyList.Remove();
    }

    /** The switch to another thread; the carcass of a finished one is no thread any more. */
    method Run(nextThread: Thread)
      requires nextThread in Reaped(State())
      modifies this, nextThread`status
      ensures State() == ThreadKernel.Run(old(State()), nextThread)
    {
      ghost var k := State();
      threads := Reaped(k).Keys;
      currentThread := nextThread;
      nextThread.status := Running;
      asleep := false;
      assert Threads() == Reaped(k)[nextThread := k.threads[nextThread].(status := Running)];
    }

    method Fork(t: Thread)
      requires readyList.Valid() && t in threads
      modifies readyList, readyList.Repr, t`status
      ensures readyList.Valid() && fresh(readyList.Repr - old(readyList.Repr))
      ensures State() == ThreadKernel.ReadyToRun(old(State()), t)
    {
      ReadyToRun(t);
    }

    /** Give way to the first ready thread, if there is one. */
    method Yield()
      requires readyList.Valid() && CanYield(State())
      modifies this, readyList, readyList.Repr, threads`status
      ensures readyList.Valid() && fresh(readyList.Repr - old(readyList.Repr))
      ensures State() == ThreadKernel.Yield(old(State()))
    {
      var nextThread := FindNextToRun();
      if nextThread.Some? {
        ReadyToRun(currentThread);
        Run(nextThread.value);
      }
    }

    /** `Sleep`, up to the point where it looks for a thread to run. */
    method Sleep(ghost at: Place)
      requires currentThread in threads
      modifies this`asleep, currentThread`status, currentThread`at
      ensures State() == ThreadKernel.Sleep(old(State()), at)
    {
      ghost var k := State();
      currentThread.status := Blocked;
      currentThread.at := at;
      asleep := true;
      assert Threads() == k.threads[k.current := k.threads[k.current].(status := Blocked, at := at)];
    }

    /** How far the current thread has got. */
    ghost method SetAt(at: Place)
      requires currentThread in threads
      modifies currentThread`at
      ensures State() == Put(old(State()), currentThread, old(Threads())[currentThread].(at := at))
    {
      ghost var before := Threads();
      currentThread.at := at;
      assert Threads() == before[currentThread := before[currentThread].(at := at)];
    }

    /** The rest of `Sleep`, once there is one. */
    method Dispatch()
      requires readyList.Valid() && CanDispatch(State())
      modifies this, readyList, threads`status
      ensures readyList.Valid() && readyList.Repr == old(readyList.Repr)
      ensures State() == ThreadKernel.Dispatch(old(State()))
    {
      var nextThread := FindNextToRun();
      Run(nextThread.value);
    }
  }

  /** What a round of `P(s)` makes of the threads: the current one sleeps if the value is zero, and else goes on. */
  ghost function PScheduler(part: Kernel, s: Sid, sem: Sem): Kernel
    requires part.current in part.threads
  {
    if sem.value == 0 then Sleep(part, InP(s)) else Put(part, part.current, part.threads[part.current].(at := Free))
  }

  /** ... and of the semaphore: one waits more, or one unit is taken. */
  ghost function PSem(current: Tid, sem: Sem): Sem {
    if sem.value == 0 then sem.(queue := sem.queue + [current]) else sem.(value := sem.value - 1)
  }

  /** What `V` makes of the threads: the first one waiting, if any, is ready. */
  ghost function VScheduler(part: Kernel, sem: Sem): Kernel
    requires sem.queue != [] ==> sem.queue[0] in part.threads
  {
    if sem.queue == [] then part else ReadyToRun(part, sem.queue[0])
  }

  /** ... and of the semaphore: that one waits no more, and there is one unit more. */
  ghost function VSem(sem: Sem): Sem {
    if sem.queue == [] then sem.(value := sem.value + 1) else Sem(sem.value + 1, sem.queue[1..])
  }

  class Semaphore {
    var value: int
    const queue: List<Thread>

    constructor (initialValue: int)
      ensures value == initialValue && queue.Valid() && queue.Contents() == [] && fresh(queue) && fresh(queue.Repr)
    {
      value := initialValue;
      queue := new List();
    }

    ghost function View(): Sem
      reads this, queue
    {
      Sem(value, Items(queue.Contents()))
    }

    /** One round of the loop in `P`; the thread comes back to it if it had to sleep. */
    method P(scheduler: Scheduler, ghost s: Sid)
      requires queue.Valid() && scheduler.readyList.Valid() && queue != scheduler.readyList && scheduler.currentThread in scheduler.threads
      modifies this, queue, queue.Repr, scheduler`asleep, scheduler.currentThread`status, scheduler.currentThread`at
      ensures queue.Valid() && fresh(queue.Repr - old(queue.Repr))
      ensures var k, sem := old(scheduler.State()), old(View());
              scheduler.State() == PScheduler(k, s, sem) && View() == PSem(k.current, sem)
    {
      if value == 0 {
        Enqueue(scheduler);
        scheduler.Sleep(InP(s));
      } else {
        AddValue(scheduler, -1);
        scheduler.SetAt(Free);
      }
    }

    method Enqueue(scheduler: Scheduler)
      requires queue.Valid() && queue != scheduler.readyList
      modifies queue, queue.Repr
      ensures queue.Valid() && fresh(queue.Repr - old(queue.Repr)) && scheduler.State() == old(scheduler.State())
      ensures View() == old(View()).(queue := old(View()).queue + [scheduler.currentThread])
    {
      queue.Append(scheduler.currentThread);
    }

    method TakeFirst(scheduler: Scheduler) returns (thread: Option<Thread>)
      requires queue.Valid() && scheduler.readyList.Valid() && queue != scheduler.readyList
      modifies queue
      ensures queue.Valid() && queue.Repr == old(queue.Repr) && scheduler.State() == old(scheduler.State())
      ensures scheduler.readyList.Valid() && scheduler.readyList.Repr == old(scheduler.readyList.Repr)
      ensures var sem := old(View());
              if sem.queue == [] then thread == None && View() == sem
              else thread == Some(sem.queue[0]) && View() == sem.(queue := sem.queue[1..])
    {
      thread := queue.Remove();
    }

    /** The thread goes onto the ready list; the semaphore does not notice. */
    method Wake(scheduler: Scheduler, thread: Thread)
      requires queue.Valid() && scheduler.readyList.Valid() && queue != scheduler.readyList && thread in scheduler.threads
      modifies scheduler.readyList, scheduler.readyList.Repr, thread`status
      ensures queue.Valid() && scheduler.readyList.Valid() && fresh(scheduler.readyList.Repr - old(scheduler.readyList.Repr))
      ensures queue.Repr == old(queue.Repr) && View() == old(View()) && scheduler.State() == ThreadKernel.ReadyToRun(old(scheduler.State()), thread)
    {
      scheduler.ReadyToRun(thread);
    }

    /** The first waiting thread, if any, moves to the end of the ready list. */
    method V(scheduler: Scheduler)
      requires queue.Valid() && scheduler.readyList.Valid() && queue != scheduler.readyList
      requires View().queue != [] ==> View().queue[0] in scheduler.threads
      modifies this, queue, scheduler.threads`status, scheduler.readyList, scheduler.readyList.Repr
      ensures queue.Valid() && scheduler.readyList.Valid()
      ensures queue.Repr == old(queue.Repr) && fresh(scheduler.readyList.Repr - old(scheduler.readyList.Repr))
      ensures var k, sem := old(scheduler.State()), old(View());
              scheduler.State() == VScheduler(k, sem) && View() == VSem(sem)
    {
      WakeFirst(scheduler);
      AddValue(scheduler, 1);
    }

    method WakeFirst(scheduler: Scheduler)
      requires queue.Valid() && scheduler.readyList.Valid() && queue != scheduler.readyList
      requires View().queue != [] ==> View().queue[0] in scheduler.threads
      modifies queue, scheduler.threads`status, scheduler.readyList, scheduler.readyList.Repr
      ensures queue.Valid() && scheduler.readyList.Valid()
      ensures queue.Repr == old(queue.Repr) && fresh(scheduler.readyList.Repr - old(scheduler.readyList.Repr))
      ensures var k, sem := old(scheduler.State()), old(View());
              if sem.queue == [] then scheduler.State() == k && View() == sem
              else scheduler.State() == ThreadKernel.ReadyToRun(k, sem.queue[0]) && View() == sem.(queue := sem.queue[1..])
    {
      var thread := TakeFirst(scheduler);
      if thread.Some? {
        Wake(scheduler, thread.value);
      }
    }

    method AddValue(scheduler: Scheduler, d: int)
      requires queue.Valid() && scheduler.readyList.Valid()
      modifies this`value
      ensures queue.Valid() && scheduler.readyList.Valid() && queue.Repr == old(queue.Repr) && scheduler.readyList.Repr == old(scheduler.readyList.Repr)
      ensures View() == old(View()).(value := old(value) + d) && scheduler.State() == old(scheduler.State())
    {
      value := value + d;
    }
  }

  // ---- processes: the list of active threads, Exec, Join and Finish ----

  class Processes {
    const scheduler: Scheduler
    const activeThreads: List<Thread>

    constructor (scheduler: Scheduler)
      ensures this.scheduler == scheduler && Valid() && Active() == {}
      ensures fresh(activeThreads) && fresh(activeThreads.Repr)
    {
      this.scheduler := scheduler;
      activeThreads := new List();
    }

    /** No thread is on the list twice. */
    ghost predicate Valid()
      reads activeThreads, activeThreads.Repr
    {
      && activeThreads.Valid() && activeThreads.size == |activeThreads.Contents()| && Distinct(Items(activeThreads.Contents()))
    }

    /** The threads on the active list. */
    ghost function Active(): set<Thread>
      reads activeThreads
    {
      set x | x in Items(activeThreads.Contents())
    }

    /** A new thread, listed as active if it runs a user program. */
    method Create(id: int, user: bool) returns (thread: Thread)
      requires Valid() && activeThreads != scheduler.readyList
      modifies activeThreads, activeThreads.Repr, scheduler`threads
      ensures Valid() && fresh(activeThreads.Repr - old(activeThreads.Repr))
      ensures fresh(thread) && thread.ID == id && scheduler.threads == old(scheduler.threads) + {thread}
      ensures scheduler.State() == New(old(scheduler.State()), thread, false) && Active() == old(Active()) + if user then {thread} else {}
    {
      thread := scheduler.Admit(id);
      if user {
        Enroll(thread);
      }
    }

    method Enroll(thread: Thread)
      requires Valid() && activeThreads != scheduler.readyList && thread !in Active()
      modifies activeThreads, activeThreads.Repr
      ensures Valid() && fresh(activeThreads.Repr - old(activeThreads.Repr))
      ensures Active() == old(Active()) + {thread} && scheduler.State() == old(scheduler.State())
    {
      PutLast(activeThreads, thread);
    }

    /**
     * The Join system call: look the thread up by its ID and, if there is one, hang the caller on it. The
     * step's target is what the search finds.
     */
    method Join(arg1: int) returns (ghost found: Option<Thread>)
      requires Valid() && activeThreads != scheduler.readyList && scheduler.currentThread in scheduler.threads && Active() <= scheduler.threads
      modifies scheduler`asleep, scheduler.currentThread`status, scheduler.currentThread`at, scheduler.currentThread`isJoined
      modifies Active()`parent, activeThreads, activeThreads.Repr
      ensures Valid() && fresh(activeThreads.Repr - old(activeThreads.Repr))
      ensures found.Some? ==> 0 <= arg1 && found.value in old(Active()) && found.value.ID == arg1
      ensures found.None? ==> arg1 < 0 || forall x :: x in old(Active()) ==> x.ID != arg1
      ensures scheduler.State() == ThreadKernel.Join(old(scheduler.State()), found) && Active() == old(Active())
    {
      var t := Search(arg1);
      found := Maybe(t);
      if t != null {
        Hang(t);
      }
    }

    method Search(arg1: int) returns (found: Thread?)
      requires Valid() && activeThreads != scheduler.readyList
      modifies activeThreads, activeThreads.Repr
      ensures Valid() && Active() == old(Active()) && fresh(activeThreads.Repr - old(activeThreads.Repr))
      ensures scheduler.State() == old(scheduler.State())
      ensures found != null ==> 0 <= arg1 && found in Active() && found.ID == arg1
      ensures found == null ==> arg1 < 0 || forall x :: x in Active() ==> x.ID != arg1
    {
      found := null;
      if arg1 >= 0 {
        found := FindByID(activeThreads, arg1);
      }
    }

    /** Sleep until the thread found finishes. */
    method Hang(found: Thread)
      requires scheduler.currentThread in scheduler.threads && found in scheduler.threads
      modifies scheduler`asleep, scheduler.currentThread`status, scheduler.currentThread`at, scheduler.currentThread`isJoined, found`parent
      ensures scheduler.State() == ThreadKernel.Join(old(scheduler.State()), Some(found))
    {
      if !scheduler.currentThread.isJoined {
        ghost var k := scheduler.State();
        found.parent := scheduler.currentThread;
        scheduler.currentThread.isJoined := true;
        ghost var k1 := k.threads[found := k.threads[found].(parent := Some(k.current))];
        assert scheduler.Threads() == k1[k.current := k1[k.current].(isJoined := true)];
        scheduler.Sleep(Joining(found));
      }
    }

    /** End the current thread: wake the parent that waits for it, and take it off the active list. */
    method Finish()
      requires Valid() && scheduler.readyList.Valid() && activeThreads != scheduler.readyList && CanFinish(scheduler.State())
      modifies scheduler`asleep, scheduler.threads`status, scheduler.threads`at, scheduler.threads`isJoined
      modifies scheduler.readyList, scheduler.readyList.Repr, activeThreads, activeThreads.Repr
      ensures Valid() && scheduler.readyList.Valid()
      ensures fresh(scheduler.readyList.Repr - old(scheduler.readyList.Repr)) && fresh(activeThreads.Repr - old(activeThreads.Repr))
      ensures scheduler.State() == Sleep(Woken(old(scheduler.State())), Finishing) && Active() == old(Active()) - {scheduler.currentThread}
    {
      Leave();
      scheduler.Sleep(Finishing);
    }

    method Leave()
      requires Valid() && scheduler.readyList.Valid() && activeThreads != scheduler.readyList && CanFinish(scheduler.State())
      modifies scheduler.readyList, scheduler.readyList.Repr, scheduler.threads`status, scheduler.threads`at, scheduler.threads`isJoined
      modifies activeThreads, activeThreads.Repr
      ensures Valid() && scheduler.readyList.Valid()
      ensures fresh(scheduler.readyList.Repr - old(scheduler.readyList.Repr)) && fresh(activeThreads.Repr - old(activeThreads.Repr))
      ensures scheduler.State() == Woken(old(scheduler.State())) && Active() == old(Active()) - {scheduler.currentThread}
    {
      WakeParent();
      DropActive();
    }

    method WakeParent()
      requires Valid() && scheduler.readyList.Valid() && activeThreads != scheduler.readyList && CanFinish(scheduler.State())
      modifies scheduler.readyList, scheduler.readyList.Repr, scheduler.threads`status, scheduler.threads`at, scheduler.threads`isJoined
      ensures Valid() && Active() == old(Active()) && activeThreads.Repr == old(activeThreads.Repr)
      ensures scheduler.readyList.Valid() && fresh(scheduler.readyList.Repr - old(scheduler.readyList.Repr))
      ensures scheduler.State() == Woken(old(scheduler.State()))
    {
      var parent := scheduler.currentThread.parent;
      if parent != null {
        scheduler.WakeUpFromJoin(parent);
      }
    }

    method DropActive()
      requires Valid() && scheduler.readyList.Valid() && activeThreads != scheduler.readyList
      modifies activeThreads, activeThreads.Repr
      ensures Valid() && fresh(activeThreads.Repr - old(activeThreads.Repr))
      ensures scheduler.readyList.Valid() && scheduler.readyList.Repr == old(scheduler.readyList.Repr)
      ensures Active() == old(Active()) - {scheduler.currentThread} && scheduler.State() == old(scheduler.State())
    {
      ghost var xs := Items(activeThreads.Contents());
      ghost var p := Where(xs, scheduler.currentThread);
      assert forall i :: 0 <= i < p ==> xs[i] == xs[..p][i];
      DropCurrent(activeThreads, scheduler.currentThread, p);
      LeftoverMembers(xs, p, scheduler.currentThread);
    }
  }

  ghost function Where(xs: seq<Thread>, x: Thread): (p: int)
    ensures 0 <= p <= |xs| && x !in xs[..p] && (p < |xs| ==> xs[p] == x)
  {
    if xs == [] || xs[0] == x then 0 else 1 + Where(xs[1..], x)
  }

  /** Without the finishing thread, the list has every other thread, once. */
  lemma {:induction false} LeftoverMembers(xs: seq<Thread>, p: int, x: Thread)
    requires Distinct(xs) && 0 <= p <= |xs| && (forall i :: 0 <= i < |xs| ==> (xs[i] == x <==> i == p))
    ensures Distinct(Leftover(xs, p))
    ensures forall y :: y in Leftover(xs, p) <==> y in xs && y != x
  {
    LeftoverDifferent(xs, p);
    var r := Leftover(xs, p);
    forall y
      ensures y in r <==> y in xs && y != x
    {
      if y in xs && y != x {
        LeftoverHas(xs, p, y);
      }
      if y in r {
        LeftoverFrom(xs, p, y);
      }
    }
  }

  lemma {:induction false} LeftoverDifferent(xs: seq<Thread>, p: int)
    requires Distinct(xs) && 0 <= p <= |xs|
    ensures Distinct(Leftover(xs, p))
  {
    var r := Leftover(xs, p);
    assert forall i :: 0 <= i < |r| ==> r[i] == xs[Source(|xs|, p, i)];
  }

  lemma {:induction false} LeftoverFrom(xs: seq<Thread>, p: int, y: Thread)
    requires 0 <= p <= |xs| && y in Leftover(xs, p)
    ensures exists i :: 0 <= i < |xs| && i != p && xs[i] == y
  {
    var r := Leftover(xs, p);
    var j :| 0 <= j < |r| && r[j] == y;
    assert xs[Source(|xs|, p, j)] == y;
  }

  lemma {:induction false} LeftoverHas(xs: seq<Thread>, p: int, y: Thread)
    requires 0 <= p <= |xs| && y in xs && (p < |xs| ==> y != xs[p])
    ensures y in Leftover(xs, p)
  {
    var i :| 0 <= i < |xs| && xs[i] == y;
    var j := if p >= |xs| - 1 then i else if i == |xs| - 1 then 0 else if i < p then i + 1 else i;
    assert Leftover(xs, p)[j] == y;
  }

  /** Where the `i`-th thread of what the loop leaves was before. */
  ghost function Source(n: int, p: int, i: int): int {
    if p >= n - 1 then i else if i == 0 then n - 1 else if i <= p then i - 1 else i
  }

  // ---- when the steps can be carried out: whenever they are enabled ----

  predicate CanYield(k: Kernel) {
    AtRest(k) && (k.ready != [] ==> k.ready[0] in k.threads && k.ready[0] != k.current)
  }

  predicate CanDispatch(k: Kernel) {
    k.ready != [] && k.ready[0] in Reaped(k)
  }

  predicate CanV(k: Kernel, s: Sid) {
    s in k.sems && (k.sems[s].queue != [] ==> k.sems[s].queue[0] in k.threads)
  }

  predicate CanFinish(k: Kernel) {
    && k.current in k.threads
    && match k.threads[k.current].parent
       case None => true
       case Some(p) => p in k.threads && p != k.current
  }

  lemma {:induction false} EnabledSteps(k: Kernel, s: Sid)
    requires Inv(k)
    ensures Enabled(k, DoYield) ==> CanYield(k)
    ensures Enabled(k, DoDispatch) ==> CanDispatch(k)
    ensures Enabled(k, DoV(s)) ==> CanV(k, s)
    ensures Enabled(k, DoFinish) ==> CanFinish(k)
  {
    assert ThreadOk(k, k.current);
    if k.ready != [] {
      HeadReady(k);
      assert ThreadOk(k, k.ready[0]);
    }
    if s in k.sems {
      VKeeps(k, s);
    }
  }

  // ---- what the steps leave alone ----

  function HeadOf(q: seq<Tid>): set<Tid> {
    if q == [] then {} else {q[0]}
  }

  function OptionSet(o: Option<Tid>): set<Tid> {
    match o
    case None => {}
    case Some(t) => {t}
  }

  /** The threads that a step may change. */
  function Changed(k: Kernel, e: Event): set<Tid> {
    match e
    case DoNew(t, _) => {t}
    case DoFork(t) => {t}
    case DoYield => {k.current} + HeadOf(k.ready)
    case DoP(_) => {k.current}
    case DoV(s) => if s in k.sems then HeadOf(k.sems[s].queue) else {}
    case DoJoin(target) => {k.current} + OptionSet(target)
    case DoFinish => {k.current} + (if k.current in k.threads then OptionSet(k.threads[k.current].parent) else {})
    case DoDispatch => {k.current} + HeadOf(k.ready)
  }

  lemma {:induction false} StepTouches(k: Kernel, e: Event, t: Tid, s: Sid)
    requires Inv(k) && Enabled(k, e)
    ensures t !in Changed(k, e) ==> SameAt(k, Next(k, e), t)
    ensures e != DoP(s) && e != DoV(s) && s in k.sems ==> s in Next(k, e).sems && Next(k, e).sems[s] == k.sems[s]
  {
    if t !in Changed(k, e) {
      TouchesThreads(k, e, t);
    }
    if e != DoP(s) && e != DoV(s) && s in k.sems {
      TouchesSems(k, e, s);
    }
  }

  lemma {:induction false} TouchesThreads(k: Kernel, e: Event, t: Tid)
    requires Inv(k) && Enabled(k, e) && t !in Changed(k, e)
    ensures SameAt(k, Next(k, e), t)
  {
    match e
    case DoYield =>
      YieldKeeps(k);
      YieldTouches(k, t);
    case DoJoin(target) =>
      JoinKeeps(k, target);
      JoinTouches(k, target, t);
    case DoFinish =>
      FinishKeeps(k);
      FinishTouches(k, t);
    case _ =>
  }

  predicate SameAt(k: Kernel, k': Kernel, t: Tid) {
    (t in k'.threads <==> t in k.threads) && (t in k.threads ==> k'.threads[t] == k.threads[t])
  }

  lemma {:induction false} YieldTouches(k: Kernel, t: Tid)
    requires AtRest(k) && (k.ready != [] ==> k.ready[0] in k.threads) && t !in Changed(k, DoYield)
    ensures SameAt(k, Yield(k), t)
  {}

  lemma {:induction false} JoinTouches(k: Kernel, target: Option<Tid>, t: Tid)
    requires AtRest(k) && (target.Some? ==> target.value in k.threads) && t !in Changed(k, DoJoin(target))
    ensures SameAt(k, Join(k, target), t)
  {}

  lemma {:induction false} FinishTouches(k: Kernel, t: Tid)
    requires AtRest(k) && t !in Changed(k, DoFinish)
    requires k.threads[k.current].parent.Some? ==> k.threads[k.current].parent.value in k.threads
    ensures SameAt(k, Finish(k), t)
  {}

  lemma {:induction false} TouchesSems(k: Kernel, e: Event, s: Sid)
    requires Inv(k) && Enabled(k, e) && e != DoP(s) && e != DoV(s) && s in k.sems
    ensures s in Next(k, e).sems && Next(k, e).sems[s] == k.sems[s]
  {}
}
