/**
 * The thread kernel as a step system: scheduler, semaphores, Join and Finish. Every primitive runs with
 * interrupts off, so it is one step; a thread gives the CPU up only in `Sleep` and `Yield`. Between `Sleep`
 * and the next dispatch nobody runs (`asleep`), and interrupt handlers may still do `V`.
 */
module ThreadKernel {
  import opened Options

  /** A thread is told from the others by its object alone. */
  type Tid = Thread
  type Sid = nat

  datatype Status = JustCreated | Running | Ready | Blocked

  /** Where in the kernel a thread is: not inside a blocking primitive, in the loop of `P`, in Join, or in Finish. */
  datatype Place = Free | InP(s: Sid) | Joining(child: Tid) | Finishing

  datatype Tcb = Tcb(status: Status, at: Place, parent: Option<Tid>, isJoined: bool)

  datatype Sem = Sem(value: int, queue: seq<Tid>)

  /** A thread control block. `at` stands for how far the thread's kernel stack has got. */
  class Thread {
    const ID: int
    var status: Status
    var parent: Thread?
    var isJoined: bool
    ghost var at: Place

    constructor (id: int)
      ensures ID == id && View() == Tcb(JustCreated, Free, None, false)
    {
      ID := id;
      status := JustCreated;
      parent := null;
      isJoined := false;
      at := Free;
    }

    ghost function View(): Tcb
      reads this
    {
      Tcb(status, at, Maybe(parent), isJoined)
    }
  }

  function Maybe(x: Thread?): Option<Thread> {
    if x == null then None
    else
      var thread: Thread := x;
      Some(thread)
  }

  datatype Kernel = Kernel(
    threads: map<Tid, Tcb>,
    ready: seq<Tid>,
    sems: map<Sid, Sem>,
    current: Tid,
    asleep: bool,
    active: set<Tid>)

  // ---- the primitives ----

  function Put(k: Kernel, t: Tid, tcb: Tcb): Kernel {
    k.(threads := k.threads[t := tcb])
  }

  function ReadyToRun(k: Kernel, t: Tid): Kernel
    requires t in k.threads
  {
    Put(k, t, k.threads[t].(status := Ready)).(ready := k.ready + [t])
  }

  function WakeUpFromJoin(k: Kernel, t: Tid): Kernel
    requires t in k.threads
  {
    Put(k, t, k.threads[t].(status := Ready, at := Free, isJoined := false)).(ready := [t] + k.ready)
  }

  /** The first half of `Sleep`. */
  function Sleep(k: Kernel, at: Place): Kernel
    requires k.current in k.threads
  {
    Put(k, k.current, k.threads[k.current].(status := Blocked, at := at)).(asleep := true)
  }

  /** The finished thread's carcass goes when the next thread runs. */
  function Reaped(k: Kernel): map<Tid, Tcb> {
    if k.current in k.threads && k.threads[k.current].at == Finishing then k.threads - {k.current} else k.threads
  }

  function Run(k: Kernel, next: Tid): Kernel
    requires next in Reaped(k)
  {
    k.(threads := Reaped(k)[next := Reaped(k)[next].(status := Running)], current := next, asleep := false)
  }

  /** The second half of `Sleep`: somebody is ready, and runs. */
  function Dispatch(k: Kernel): Kernel
    requires k.ready != [] && k.ready[0] in Reaped(k)
  {
    Run(k.(ready := k.ready[1..]), k.ready[0])
  }

  function Yield(k: Kernel): Kernel
    requires k.current in k.threads && k.threads[k.current].at != Finishing
    requires k.ready != [] ==> k.ready[0] in k.threads
  {
    if k.ready == [] then k
    else Run(ReadyToRun(k.(ready := k.ready[1..]), k.current), k.ready[0])
  }

  function PutSem(k: Kernel, s: Sid, sem: Sem): Kernel {
    k.(sems := k.sems[s := sem])
  }

  /** One test of the loop in `P`, on the first call or after waking up: sleep, or take one and go on. */
  function P(k: Kernel, s: Sid): Kernel
    requires s in k.sems && k.current in k.threads
  {
    var sem := k.sems[s];
    if sem.value == 0 then
      Sleep(PutSem(k, s, sem.(queue := sem.queue + [k.current])), InP(s))
    else
      Put(
        PutSem(k, s, sem.(value := sem.value - 1)),
        k.current, k.threads[k.current].(at := Free))
  }

  function V(k: Kernel, s: Sid): Kernel
    requires s in k.sems && (k.sems[s].queue != [] ==> k.sems[s].queue[0] in k.threads)
  {
    var sem := k.sems[s];
    if sem.queue == [] then PutSem(k, s, sem.(value := sem.value + 1))
    else ReadyToRun(PutSem(k, s, Sem(sem.value + 1, sem.queue[1..])), sem.queue[0])
  }

  /** The Join system call, for the thread that `getID` found, if it found one. */
  function Join(k: Kernel, target: Option<Tid>): Kernel
    requires k.current in k.threads && (target.Some? ==> target.value in k.threads)
  {
    if target.None? || k.threads[k.current].isJoined then k
    else
      var c := target.value;
      var k1 := Put(k, c, k.threads[c].(parent := Some(k.current)));
      Sleep(Put(k1, k.current, k1.threads[k.current].(isJoined := true)), Joining(c))
  }

  function Woken(k: Kernel): Kernel
    requires k.current in k.threads
    requires k.threads[k.current].parent.Some? ==> k.threads[k.current].parent.value in k.threads
  {
    match k.threads[k.current].parent
    case None => k
    case Some(p) => WakeUpFromJoin(k, p)
  }

  function Finish(k: Kernel): Kernel
    requires k.current in k.threads
    requires k.threads[k.current].parent.Some? ==> k.threads[k.current].parent.value in k.threads
  {
    Sleep(Woken(k).(active := k.active - {k.current}), Finishing)
  }

  function New(k: Kernel, t: Tid, user: bool): Kernel {
    Put(k, t, Tcb(JustCreated, Free, None, false)).(active := if user then k.active + {t} else k.active)
  }

  // ---- the invariant ----

  /** The list has exactly these threads on it, each once. */
  ghost predicate ListOf(q: seq<Tid>, members: set<Tid>) {
    if q == [] then members == {}
    else
      var n := |q| - 1;
      q[n] in members && ListOf(q[..n], members - {q[n]})
  }

  predicate IsReady(k: Kernel, t: Tid) {
    t in k.threads && k.threads[t].status == Ready
  }

  predicate IsWaiting(k: Kernel, t: Tid, s: Sid) {
    t in k.threads && k.threads[t].status == Blocked && k.threads[t].at == InP(s)
  }

  /** Woken from `P(s)`, but not run again yet. */
  predicate IsWoken(k: Kernel, t: Tid, s: Sid) {
    t in k.threads && k.threads[t].status != Blocked && k.threads[t].at == InP(s)
  }

  function ReadySet(k: Kernel): set<Tid> {
    set t | t in k.threads && IsReady(k, t)
  }

  function WaitingSet(k: Kernel, s: Sid): set<Tid> {
    set t | t in k.threads && IsWaiting(k, t, s)
  }

  /** READY holds exactly for the members of the ready list, each once. */
  ghost predicate ReadyList(k: Kernel) {
    ListOf(k.ready, ReadySet(k))
  }

  /** A semaphore's queue holds exactly the threads blocked in its `P`, each once. */
  ghost predicate Queue(k: Kernel, s: Sid)
    requires s in k.sems
  {
    ListOf(k.sems[s].queue, WaitingSet(k, s))
  }

  /** What a thread's status, place and links have to do with each other. */
  predicate ThreadOk(k: Kernel, t: Tid)
    requires t in k.threads
  {
    var tcb := k.threads[t];
    && (tcb.status == Running <==> t == k.current && !k.asleep)
    && (tcb.status == Blocked ==> tcb.at != Free)
    && (tcb.status == JustCreated ==> tcb.at == Free)
    && (tcb.at.InP? ==> tcb.at.s in k.sems)
    && (tcb.at.Joining? ==> tcb.status == Blocked)
    && (tcb.isJoined <==> tcb.at.Joining?)
    && (tcb.at == Finishing ==> tcb.status == Blocked && t == k.current && t !in k.active)
    && (tcb.parent.Some? && tcb.at != Finishing ==> IsJoining(k, tcb.parent.value, t))
  }

  predicate IsJoining(k: Kernel, p: Tid, c: Tid) {
    p in k.threads && k.threads[p].at == Joining(c)
  }

  predicate Threads(k: Kernel) {
    k.current in k.threads && k.active <= k.threads.Keys && forall t :: t in k.threads ==> ThreadOk(k, t)
  }

  function WokenSet(k: Kernel, s: Sid): set<Tid> {
    set t | t in k.threads && IsWoken(k, t, s)
  }

  /** No wakeup is lost: while somebody waits, every unit of the value has a woken thread coming for it. */
  predicate NoneLost(k: Kernel, s: Sid)
    requires s in k.sems
  {
    k.sems[s].queue != [] ==> k.sems[s].value <= |WokenSet(k, s)|
  }

  ghost predicate SemOk(k: Kernel, s: Sid)
    requires s in k.sems
  {
    Queue(k, s) && 0 <= k.sems[s].value && NoneLost(k, s)
  }

  ghost predicate Inv(k: Kernel) {
    Threads(k) && ReadyList(k) && forall s :: s in k.sems ==> SemOk(k, s)
  }

  // ---- lists ----

  lemma {:induction false} ListedLast(q: seq<Tid>, members: set<Tid>, x: Tid)
    requires ListOf(q, members) && x !in members
    ensures ListOf(q + [x], members + {x})
  {
    assert (q + [x])[..|q|] == q && members + {x} - {x} == members;
  }

  lemma {:induction false} ListedFirst(q: seq<Tid>, members: set<Tid>, x: Tid)
    requires ListOf(q, members) && x !in members
    ensures ListOf([x] + q, members + {x})
  {
    if q == [] {
      ListedLast(q, members, x);
      assert [x] + q == q + [x];
    } else {
      var n := |q| - 1;
      ListedFirst(q[..n], members - {q[n]}, x);
      assert ([x] + q)[..n + 1] == [x] + q[..n];
      assert members + {x} - {q[n]} == members - {q[n]} + {x};
    }
  }

  lemma {:induction false} ListedLess(q: seq<Tid>, members: set<Tid>)
    requires ListOf(q, members) && q != []
    ensures q[0] in members && ListOf(q[1..], members - {q[0]})
  {
    var n := |q| - 1;
    if n > 0 {
      ListedLess(q[..n], members - {q[n]});
      assert q[1..][..n - 1] == q[..n][1..];
      assert members - {q[n]} - {q[0]} == members - {q[0]} - {q[n]};
    }
  }

  lemma {:induction false} ListedOnce(q: seq<Tid>, members: set<Tid>)
    requires ListOf(q, members)
    ensures multiset(q) == multiset(members)
  {
    if q != [] {
      var n := |q| - 1;
      ListedOnce(q[..n], members - {q[n]});
      assert q == q[..n] + [q[n]];
    }
  }

  lemma {:induction false} ListedMember(q: seq<Tid>, members: set<Tid>, x: Tid)
    requires ListOf(q, members)
    ensures (x in q <==> x in members) && multiset(q)[x] <= 1
  {
    ListedOnce(q, members);
    assert x in q <==> x in multiset(q);
  }

  lemma {:induction false} HeadReady(k: Kernel)
    requires Inv(k) && k.ready != []
    ensures IsReady(k, k.ready[0])
  {
    ListedLess(k.ready, ReadySet(k));
  }

  lemma {:induction false} HeadWaits(k: Kernel, s: Sid)
    requires Inv(k) && s in k.sems && k.sems[s].queue != []
    ensures IsWaiting(k, k.sems[s].queue[0], s)
  {
    assert SemOk(k, s);
    ListedLess(k.sems[s].queue, WaitingSet(k, s));
  }

  // ---- the steps keep it ----

  /** The semaphore and its waiting and woken threads are as before. */
  lemma {:induction false} SemKept(k: Kernel, k': Kernel, s: Sid)
    requires s in k.sems && s in k'.sems && k.sems[s] == k'.sems[s] && SemOk(k, s)
    requires forall t :: IsWaiting(k, t, s) == IsWaiting(k', t, s)
    requires forall t :: IsWoken(k, t, s) == IsWoken(k', t, s)
    ensures SemOk(k', s)
  {
    assert WokenSet(k, s) == WokenSet(k', s) && WaitingSet(k, s) == WaitingSet(k', s);
  }

  lemma {:induction false} NewKeeps(k: Kernel, t: Tid, user: bool)
    requires Inv(k) && t !in k.threads
    ensures Inv(New(k, t, user))
  {
    var k' := New(k, t, user);
    assert ReadySet(k') == ReadySet(k);
    forall u | u in k'.threads ensures ThreadOk(k', u) {
      if u != t {
        assert ThreadOk(k, u);
      }
    }
    forall s | s in k'.sems ensures SemOk(k', s) {
      SemKept(k, k', s);
    }
  }

  predicate AtRest(k: Kernel) {
    !k.asleep && k.current in k.threads && k.threads[k.current].at == Free
  }

  lemma {:induction false} ForkKeeps(k: Kernel, t: Tid)
    requires Inv(k) && t in k.threads && k.threads[t].status == JustCreated
    ensures Inv(ReadyToRun(k, t))
  {
    var k' := ReadyToRun(k, t);
    assert ThreadOk(k, t);
    ListedLast(k.ready, ReadySet(k), t);
    assert ReadySet(k') == ReadySet(k) + {t};
    forall u | u in k'.threads ensures ThreadOk(k', u) {
      assert ThreadOk(k, u);
    }
    forall s | s in k'.sems ensures SemOk(k', s) {
      SemKept(k, k', s);
    }
  }

  lemma {:induction false} DispatchReady(k: Kernel)
    requires Inv(k) && k.asleep && k.ready != [] && IsReady(k, k.ready[0]) && k.ready[0] in Reaped(k)
    ensures ReadyList(Dispatch(k))
  {
    var next, k' := k.ready[0], Dispatch(k);
    assert ThreadOk(k, k.current);
    ListedLess(k.ready, ReadySet(k));
    assert ReadySet(k') == ReadySet(k) - {next};
  }

  lemma {:induction false} DispatchThreads(k: Kernel)
    requires Threads(k) && k.asleep && k.ready != [] && IsReady(k, k.ready[0]) && k.ready[0] in Reaped(k)
    ensures Threads(Dispatch(k))
  {
    var k' := Dispatch(k);
    assert ThreadOk(k, k.current);
    forall u | u in k'.threads ensures ThreadOk(k', u) {
      assert ThreadOk(k, u);
    }
  }

  lemma {:induction false} DispatchKeeps(k: Kernel)
    requires Inv(k) && k.asleep && k.ready != []
    ensures k.ready[0] in Reaped(k) && Inv(Dispatch(k))
  {
    HeadReady(k);
    assert ThreadOk(k, k.current);
    DispatchReady(k);
    DispatchThreads(k);
    var k' := Dispatch(k);
    forall s | s in k'.sems ensures SemOk(k', s) {
      SemKept(k, k', s);
    }
  }

  lemma {:induction false} YieldReady(k: Kernel)
    requires Inv(k) && AtRest(k) && k.ready != [] && IsReady(k, k.ready[0])
    ensures ReadyList(Yield(k))
  {
    assert ThreadOk(k, k.current);
    var next, k' := k.ready[0], Yield(k);
    ListedLess(k.ready, ReadySet(k));
    ListedLast(k.ready[1..], ReadySet(k) - {next}, k.current);
    assert ReadySet(k') == ReadySet(k) - {next} + {k.current};
  }

  lemma {:induction false} YieldKeeps(k: Kernel)
    requires Inv(k) && AtRest(k)
    ensures k.ready != [] ==> k.ready[0] in k.threads
    ensures Inv(Yield(k))
  {
    if k.ready != [] {
      HeadReady(k);
      assert ThreadOk(k, k.current);
      var next, k' := k.ready[0], Yield(k);
      YieldReady(k);
      forall u | u in k'.threads ensures ThreadOk(k', u) {
        assert ThreadOk(k, u);
      }
      forall s | s in k'.sems ensures SemOk(k', s) {
        SemKept(k, k', s);
      }
    }
  }

  lemma {:induction false} JoinThreads(k: Kernel, target: Option<Tid>)
    requires Threads(k) && AtRest(k) && (target.Some? ==> target.value in k.threads && target.value in k.active)
    ensures Threads(Join(k, target))
  {
    var k' := Join(k, target);
    assert ThreadOk(k, k.current);
    forall u | u in k'.threads ensures ThreadOk(k', u) {
      assert ThreadOk(k, u);
    }
  }

  lemma {:induction false} JoinKeeps(k: Kernel, target: Option<Tid>)
    requires Inv(k) && AtRest(k) && (target.Some? ==> target.value in k.active)
    ensures target.Some? ==> target.value in k.threads
    ensures Inv(Join(k, target))
  {
    assert ThreadOk(k, k.current);
    if target.Some? {
      var k' := Join(k, target);
      assert ReadySet(k') == ReadySet(k);
      JoinThreads(k, target);
      forall s | s in k'.sems ensures SemOk(k', s) {
        SemKept(k, k', s);
      }
    }
  }

  lemma {:induction false} FinishReady(k: Kernel)
    requires Inv(k) && AtRest(k)
    requires var parent := k.threads[k.current].parent; parent.Some? ==> parent.value in k.threads && ThreadOk(k, parent.value)
    ensures ReadyList(Finish(k))
  {
    var parent, k' := k.threads[k.current].parent, Finish(k);
    assert ThreadOk(k, k.current);
    if parent.None? {
      assert ReadySet(k') == ReadySet(k);
    } else {
      ListedFirst(k.ready, ReadySet(k), parent.value);
      assert ReadySet(k') == ReadySet(k) + {parent.value};
    }
  }

  lemma {:induction false} FinishThreads(k: Kernel)
    requires Threads(k) && AtRest(k)
    requires var parent := k.threads[k.current].parent; parent.Some? ==> parent.value in k.threads && ThreadOk(k, parent.value)
    ensures Threads(Finish(k))
  {
    var k' := Finish(k);
    assert ThreadOk(k, k.current);
    forall u | u in k'.threads ensures ThreadOk(k', u) {
      assert ThreadOk(k, u);
    }
  }

  lemma {:induction false} FinishKeeps(k: Kernel)
    requires Inv(k) && AtRest(k)
    ensures k.threads[k.current].parent.Some? ==> k.threads[k.current].parent.value in k.threads
    ensures Inv(Finish(k))
  {
    var parent := k.threads[k.current].parent;
    assert ThreadOk(k, k.current);
    assert parent.Some? ==> ThreadOk(k, parent.value);
    FinishReady(k);
    FinishThreads(k);
    var k' := Finish(k);
    forall s | s in k'.sems ensures SemOk(k', s) {
      SemKept(k, k', s);
    }
  }

  predicate InLoop(k: Kernel, s: Sid) {
    !k.asleep && k.current in k.threads && (k.threads[k.current].at == Free || k.threads[k.current].at == InP(s))
  }

  lemma {:induction false} PThreads(k: Kernel, s: Sid)
    requires Threads(k) && s in k.sems && InLoop(k, s)
    ensures Threads(P(k, s))
  {
    var k' := P(k, s);
    assert ThreadOk(k, k.current);
    forall u | u in k'.threads ensures ThreadOk(k', u) {
      assert ThreadOk(k, u);
    }
  }

  lemma {:induction false} PKeeps(k: Kernel, s: Sid)
    requires Inv(k) && s in k.sems && InLoop(k, s)
    ensures Inv(P(k, s))
  {
    assert ThreadOk(k, k.current);
    var k' := P(k, s);
    assert ReadySet(k') == ReadySet(k);
    PThreads(k, s);
    forall r | r in k'.sems ensures SemOk(k', r) {
      if r != s {
        SemKept(k, k', r);
      } else if k.sems[s].value == 0 {
        WaitsInP(k, s);
      } else {
        TakesInP(k, s);
      }
    }
  }

  lemma {:induction false} WaitsInP(k: Kernel, s: Sid)
    requires Inv(k) && s in k.sems && InLoop(k, s) && k.sems[s].value == 0
    ensures SemOk(P(k, s), s)
  {
    var k' := P(k, s);
    assert SemOk(k, s) && ThreadOk(k, k.current);
    ListedLast(k.sems[s].queue, WaitingSet(k, s), k.current);
    assert WaitingSet(k', s) == WaitingSet(k, s) + {k.current};
  }

  lemma {:induction false} TakesInP(k: Kernel, s: Sid)
    requires Inv(k) && s in k.sems && InLoop(k, s) && k.sems[s].value != 0
    ensures SemOk(P(k, s), s)
  {
    var k' := P(k, s);
    assert SemOk(k, s) && ThreadOk(k, k.current);
    assert WaitingSet(k', s) == WaitingSet(k, s);
    assert WokenSet(k', s) == WokenSet(k, s) - {k.current};
  }

  lemma {:induction false} VKeeps(k: Kernel, s: Sid)
    requires Inv(k) && s in k.sems
    ensures k.sems[s].queue != [] ==> k.sems[s].queue[0] in k.threads
    ensures Inv(V(k, s))
  {
    assert SemOk(k, s);
    if k.sems[s].queue == [] {
      var k' := V(k, s);
      forall u | u in k'.threads ensures ThreadOk(k', u) {
        assert ThreadOk(k, u);
      }
      forall r | r in k'.sems ensures SemOk(k', r) {
        if r != s {
          SemKept(k, k', r);
        } else {
          assert WaitingSet(k', s) == WaitingSet(k, s);
        }
      }
      assert ReadySet(k') == ReadySet(k);
    } else {
      HeadWaits(k, s);
      VWakes(k, s);
    }
  }

  lemma {:induction false} VThreads(k: Kernel, s: Sid)
    requires Threads(k) && s in k.sems && k.sems[s].queue != [] && IsWaiting(k, k.sems[s].queue[0], s)
    ensures Threads(V(k, s))
  {
    var k' := V(k, s);
    assert ThreadOk(k, k.sems[s].queue[0]);
    forall u | u in k'.threads ensures ThreadOk(k', u) {
      assert ThreadOk(k, u);
    }
  }

  lemma {:induction false} VWakes(k: Kernel, s: Sid)
    requires Inv(k) && s in k.sems && k.sems[s].queue != [] && IsWaiting(k, k.sems[s].queue[0], s)
    ensures Inv(V(k, s))
  {
    var t, k' := k.sems[s].queue[0], V(k, s);
    assert ThreadOk(k, t);
    ListedLast(k.ready, ReadySet(k), t);
    assert ReadySet(k') == ReadySet(k) + {t};
    VThreads(k, s);
    forall r | r in k'.sems ensures SemOk(k', r) {
      if r != s {
        SemKept(k, k', r);
      } else {
        WakesInV(k, s);
      }
    }
  }

  lemma {:induction false} WakesInV(k: Kernel, s: Sid)
    requires Inv(k) && s in k.sems && k.sems[s].queue != [] && IsWaiting(k, k.sems[s].queue[0], s)
    ensures SemOk(V(k, s), s)
  {
    var t, k' := k.sems[s].queue[0], V(k, s);
    assert SemOk(k, s);
    ListedLess(k.sems[s].queue, WaitingSet(k, s));
    assert WaitingSet(k', s) == WaitingSet(k, s) - {t};
    assert WokenSet(k', s) == WokenSet(k, s) + {t};
  }

  // ---- whole runs ----

  datatype Event =
    | DoNew(t: Tid, user: bool)
    | DoFork(t: Tid)
    | DoYield
    | DoP(s: Sid)
    | DoV(s: Sid)
    | DoJoin(target: Option<Tid>)
    | DoFinish
    | DoDispatch

  /**
   * Who can do what when. The running thread makes the system calls, and goes on with the loop of `P` if that
   * is where it woke up; `V` is also for interrupt handlers, at any time; only the sleep loop dispatches.
   */
  predicate Enabled(k: Kernel, e: Event) {
    match e
    case DoNew(t, _) => AtRest(k) && t !in k.threads
    case DoFork(t) => AtRest(k) && t in k.threads && k.threads[t].status == JustCreated
    case DoYield => AtRest(k)
    case DoP(s) => s in k.sems && InLoop(k, s)
    case DoV(s) => s in k.sems
    case DoJoin(target) => AtRest(k) && (target.Some? ==> target.value in k.active)
    case DoFinish => AtRest(k)
    case DoDispatch => k.asleep && k.ready != []
  }

  ghost function Next(k: Kernel, e: Event): (k': Kernel)
    requires Inv(k) && Enabled(k, e)
    ensures Inv(k')
  {
    match e
    case DoNew(t, user) => NewKeeps(k, t, user); New(k, t, user)
    case DoFork(t) => ForkKeeps(k, t); ReadyToRun(k, t)
    case DoYield => YieldKeeps(k); Yield(k)
    case DoP(s) => PKeeps(k, s); P(k, s)
    case DoV(s) => VKeeps(k, s); V(k, s)
    case DoJoin(target) => JoinKeeps(k, target); Join(k, target)
    case DoFinish => FinishKeeps(k); Finish(k)
    case DoDispatch => DispatchKeeps(k); Dispatch(k)
  }

  /** One thread, running, and semaphores nobody has used yet. */
  predicate Start(k: Kernel) {
    && !k.asleep && k.threads == map[k.current := Tcb(Running, Free, None, false)] && k.active <= {k.current}
    && k.ready == []
    && forall s :: s in k.sems ==> Unused(k.sems[s])
  }

  predicate Unused(sem: Sem) {
    0 <= sem.value && sem.queue == []
  }

  lemma {:induction false} StartInv(k: Kernel)
    requires Start(k)
    ensures Inv(k)
  {
    assert ThreadOk(k, k.current);
    forall s | s in k.sems ensures SemOk(k, s) {
      assert Unused(k.sems[s]);
    }
  }

  ghost predicate Interleaving(k0: Kernel, events: seq<Event>)
    requires Start(k0)
    decreases |events|, 0
  {
    if events == [] then true
    else
      var n := |events| - 1;
      Interleaving(k0, events[..n]) && Enabled(After(k0, events[..n]), events[n])
  }

  /** The state after a run; whatever the interleaving, it satisfies the invariant. */
  ghost function After(k0: Kernel, events: seq<Event>): (k: Kernel)
    requires Start(k0) && Interleaving(k0, events)
    ensures Inv(k)
    decreases |events|, 1
  {
    if events == [] then
      StartInv(k0);
      k0
    else
      var n := |events| - 1;
      Next(After(k0, events[..n]), events[n])
  }

  predicate OnQueue(k: Kernel, s: Sid, t: Tid) {
    s in k.sems && t in k.sems[s].queue
  }

  predicate IsRunning(k: Kernel, t: Tid) {
    t == k.current && !k.asleep
  }

  /** Every thread is in at most one place, at most once there, and READY means the ready list. */
  lemma {:induction false} Placement(k0: Kernel, events: seq<Event>, t: Tid, s: Sid, r: Sid)
    requires Start(k0) && Interleaving(k0, events)
    ensures var k := After(k0, events);
      && (t in k.ready <==> IsReady(k, t))
      && !(t in k.ready && IsRunning(k, t)) && !(t in k.ready && OnQueue(k, s, t)) && !(IsRunning(k, t) && OnQueue(k, s, t))
      && (OnQueue(k, s, t) && OnQueue(k, r, t) ==> r == s)
      && multiset(k.ready)[t] <= 1 && (s in k.sems ==> multiset(k.sems[s].queue)[t] <= 1)
  {
    var k := After(k0, events);
    ListedMember(k.ready, ReadySet(k), t);
    QueueMeans(k, s, t);
    QueueMeans(k, r, t);
    assert t in k.threads ==> ThreadOk(k, t);
  }

  lemma {:induction false} QueueMeans(k: Kernel, s: Sid, t: Tid)
    requires Inv(k)
    ensures OnQueue(k, s, t) ==> IsWaiting(k, t, s)
    ensures s in k.sems ==> multiset(k.sems[s].queue)[t] <= 1
  {
    if s in k.sems {
      assert SemOk(k, s);
      ListedMember(k.sems[s].queue, WaitingSet(k, s), t);
    }
  }

  /** The parent that `Finish` wakes is blocked in Join on this very thread, and on no queue and no list. */
  lemma {:induction false} ParentBlocked(k0: Kernel, events: seq<Event>, p: Tid, s: Sid)
    requires Start(k0) && Interleaving(k0, events)
    requires var k := After(k0, events); AtRest(k) && k.threads[k.current].parent == Some(p)
    ensures var k := After(k0, events);
      && p in k.threads && k.threads[p].status == Blocked && k.threads[p].at == Joining(k.current)
      && p != k.current && p !in k.ready && !OnQueue(k, s, p)
  {
    var k := After(k0, events);
    assert ThreadOk(k, k.current);
    assert ThreadOk(k, p);
    ListedMember(k.ready, ReadySet(k), p);
    QueueMeans(k, s, p);
  }

  /** A joined parent is the very next thread to run, ahead of everything that was ready before. */
  lemma {:induction false} ParentRunsNext(k0: Kernel, events: seq<Event>, p: Tid)
    requires Start(k0) && Interleaving(k0, events)
    requires var k := After(k0, events); AtRest(k) && k.threads[k.current].parent == Some(p)
    ensures var finished := Next(After(k0, events), DoFinish);
      && Enabled(finished, DoDispatch) && Next(finished, DoDispatch).current == p
      && Next(finished, DoDispatch).ready == After(k0, events).ready
  {}

  /** A thread that can ask for a Join is never marked as joined: that refusal in the system call is dead code. */
  lemma {:induction false} NeverAlreadyJoined(k0: Kernel, events: seq<Event>)
    requires Start(k0) && Interleaving(k0, events) && AtRest(After(k0, events))
    ensures var k := After(k0, events); !k.threads[k.current].isJoined
  {
    var k := After(k0, events);
    assert ThreadOk(k, k.current);
  }

  /** The number of Vs in a run. */
  ghost function Vs(events: seq<Event>, s: Sid): nat {
    if events == [] then 0
    else
      var n := |events| - 1;
      Vs(events[..n], s) + (if events[n] == DoV(s) then 1 else 0)
  }

  /** The number of Ps that got through: those that did not leave their thread asleep. */
  ghost function Ps(k0: Kernel, events: seq<Event>, s: Sid): nat
    requires Start(k0) && Interleaving(k0, events)
  {
    if events == [] then 0
    else
      var n := |events| - 1;
      Ps(k0, events[..n], s) + (if events[n] == DoP(s) && !After(k0, events).asleep then 1 else 0)
  }

  lemma {:induction false} NextValue(k: Kernel, e: Event, s: Sid)
    requires Inv(k) && Enabled(k, e)
    ensures var k' := Next(k, e);
      && (s in k'.sems <==> s in k.sems)
      && (s in k.sems ==>
           k'.sems[s].value == k.sems[s].value + (if e == DoV(s) then 1 else 0) - (if e == DoP(s) && !k'.asleep then 1 else 0))
  {
    match e
    case DoP(r) => PValue(k, r, s);
    case DoV(r) =>
      VKeeps(k, r);
      VValue(k, r, s);
    case _ =>
  }

  lemma {:induction false} PValue(k: Kernel, r: Sid, s: Sid)
    requires r in k.sems && k.current in k.threads && !k.asleep
    ensures var k' := P(k, r);
      && k'.sems.Keys == k.sems.Keys
      && (s in k.sems ==> k'.sems[s].value == k.sems[s].value - (if r == s && !k'.asleep then 1 else 0))
  {}

  lemma {:induction false} VValue(k: Kernel, r: Sid, s: Sid)
    requires r in k.sems && (k.sems[r].queue != [] ==> k.sems[r].queue[0] in k.threads)
    ensures var k' := V(k, r);
      && k'.sems.Keys == k.sems.Keys
      && (s in k.sems ==> k'.sems[s].value == k.sems[s].value + (if r == s then 1 else 0))
  {}

  lemma {:induction false} ValueCounts(k0: Kernel, events: seq<Event>, s: Sid)
    requires Start(k0) && Interleaving(k0, events)
    ensures s in k0.sems <==> s in After(k0, events).sems
    ensures s in k0.sems ==> After(k0, events).sems[s].value == k0.sems[s].value + Vs(events, s) - Ps(k0, events, s)
  {
    if events != [] {
      var n := |events| - 1;
      ValueCounts(k0, events[..n], s);
      NextValue(After(k0, events[..n]), events[n], s);
    }
  }

  /** Semaphore safety over all interleavings. */
  lemma {:induction false} SemaphoreSafety(k0: Kernel, events: seq<Event>, s: Sid)
    requires Start(k0) && Interleaving(k0, events) && s in After(k0, events).sems
    ensures var k := After(k0, events); var sem := k.sems[s];
      && s in k0.sems && 0 <= sem.value == k0.sems[s].value + Vs(events, s) - Ps(k0, events, s)
      && (sem.queue != [] ==> sem.value <= |WokenSet(k, s)|)
  {
    assert SemOk(After(k0, events), s);
    ValueCounts(k0, events, s);
  }

  /** If a waiter could go ahead, somebody woken for the semaphore is running or on the ready list. */
  lemma {:induction false} WakeupOnItsWay(k0: Kernel, events: seq<Event>, s: Sid)
    requires Start(k0) && Interleaving(k0, events) && s in After(k0, events).sems
    requires var sem := After(k0, events).sems[s]; sem.queue != [] && sem.value > 0
    ensures exists t :: IsWoken(After(k0, events), t, s) && (t in After(k0, events).ready || IsRunning(After(k0, events), t))
  {
    var k := After(k0, events);
    assert SemOk(k, s);
    var woken := WokenSet(k, s);
    assert woken != {};
    var t :| t in woken;
    assert ThreadOk(k, t);
    ListedMember(k.ready, ReadySet(k), t);
  }

  /** When the machine idles with nobody ready, no thread waits on a semaphore it could take. */
  lemma {:induction false} IdleMeansStuck(k0: Kernel, events: seq<Event>, s: Sid)
    requires Start(k0) && Interleaving(k0, events) && s in After(k0, events).sems
    requires After(k0, events).asleep && After(k0, events).ready == []
    ensures var sem := After(k0, events).sems[s]; sem.value == 0 || sem.queue == []
  {
    var k := After(k0, events);
    assert SemOk(k, s);
    if k.sems[s].queue != [] && k.sems[s].value > 0 {
      WakeupOnItsWay(k0, events, s);
    }
  }
}
