/**
 * What threads can rely on, whatever the interleaving: a Join waits for the thread it names and for nothing
 * else, a finished thread stays finished, ready threads run and waiting threads wake in the order they came, and
 * only a joined parent goes in front. Each is said of any state that satisfies the invariant, and so of any
 * point of any run, and of every way to go on from it.
 */
module ThreadOrder {
  import opened Options
  import opened ThreadKernel

  // ---- going on from a state ----

  ghost predicate Runs(k: Kernel, more: seq<Event>)
    requires Inv(k)
    decreases |more|, 0
  {
    more != [] ==>
      var n := |more| - 1;
      Runs(k, more[..n]) && Enabled(End(k, more[..n]), more[n])
  }

  ghost function End(k: Kernel, more: seq<Event>): (k': Kernel)
    requires Inv(k) && Runs(k, more)
    ensures Inv(k')
    decreases |more|, 1
  {
    if more == [] then k
    else
      var n := |more| - 1;
      Next(End(k, more[..n]), more[n])
  }

  lemma {:induction false} OneMore(k0: Kernel, events: seq<Event>, e: Event, events': seq<Event>)
    requires Start(k0) && Interleaving(k0, events) && Enabled(After(k0, events), e) && events' == events + [e]
    ensures Interleaving(k0, events') && After(k0, events') == Next(After(k0, events), e)
  {
    assert events'[..|events|] == events;
  }

  lemma {:induction false} LastApart(events: seq<Event>, more: seq<Event>, before: seq<Event>, all: seq<Event>)
    requires more != [] && before == events + more[..|more| - 1] && all == events + more
    ensures all == before + [more[|more| - 1]]
  {}

  /** To go on from where a run has led is to run on. */
  lemma {:induction false} RunsOn(k0: Kernel, events: seq<Event>, more: seq<Event>, all: seq<Event>)
    requires Start(k0) && Interleaving(k0, events) && Runs(After(k0, events), more) && all == events + more
    ensures Interleaving(k0, all) && After(k0, all) == End(After(k0, events), more)
  {
    if more == [] {
      assert all == events;
    } else {
      var n := |more| - 1;
      var before := events + more[..n];
      LastApart(events, more, before, all);
      RunsOn(k0, events, more[..n], before);
      OneMore(k0, before, more[n], all);
    }
  }

  // ---- what a step does to one thread ----

  /** The steps add no thread but a new one. */
  lemma {:induction false} NextThreads(k: Kernel, e: Event, t: Tid)
    requires Inv(k) && Enabled(k, e) && t !in k.threads && !(e.DoNew? && e.t == t)
    ensures t !in Next(k, e).threads
  {
    assert ThreadOk(k, k.current);
    match e
    case DoV(s) => VKeeps(k, s);
    case DoYield => YieldKeeps(k);
    case DoFinish => FinishKeeps(k);
    case DoJoin(target) => JoinKeeps(k, target);
    case DoDispatch => DispatchKeeps(k);
    case _ =>
  }

  /** A thread that does not finish keeps its parent, unless it is joined. */
  predicate Unfinished(k: Kernel, t: Tid, parent: Option<Tid>) {
    t in k.threads && k.threads[t].at != Finishing && k.threads[t].parent == parent
  }

  lemma {:induction false} NewParent(k: Kernel, x: Tid, user: bool, t: Tid, parent: Option<Tid>)
    requires x != t
    ensures Unfinished(New(k, x, user), t, parent) <==> Unfinished(k, t, parent)
  {}

  lemma {:induction false} ForkParent(k: Kernel, x: Tid, t: Tid, parent: Option<Tid>)
    requires x in k.threads
    ensures Unfinished(ReadyToRun(k, x), t, parent) <==> Unfinished(k, t, parent)
  {}

  lemma {:induction false} YieldParent(k: Kernel, t: Tid, parent: Option<Tid>)
    requires AtRest(k) && (k.ready != [] ==> k.ready[0] in k.threads)
    ensures Unfinished(Yield(k), t, parent) <==> Unfinished(k, t, parent)
  {}

  lemma {:induction false} PParent(k: Kernel, s: Sid, t: Tid, parent: Option<Tid>)
    requires s in k.sems && InLoop(k, s)
    ensures Unfinished(P(k, s), t, parent) <==> Unfinished(k, t, parent)
  {}

  lemma {:induction false} VParent(k: Kernel, s: Sid, t: Tid, parent: Option<Tid>)
    requires s in k.sems && (k.sems[s].queue != [] ==> k.sems[s].queue[0] in k.threads)
    ensures Unfinished(V(k, s), t, parent) <==> Unfinished(k, t, parent)
  {}

  lemma {:induction false} DispatchParent(k: Kernel, t: Tid, parent: Option<Tid>)
    requires k.ready != [] && k.ready[0] in Reaped(k)
    ensures Unfinished(Dispatch(k), t, parent) <==> Unfinished(k, t, parent)
  {}

  lemma {:induction false} FinishParent(k: Kernel, t: Tid, parent: Option<Tid>)
    requires AtRest(k) && t != k.current
    requires var p := k.threads[k.current].parent; p.Some? ==> p.value in k.threads && k.threads[p.value].at != Finishing
    ensures Unfinished(Finish(k), t, parent) <==> Unfinished(k, t, parent)
  {}

  lemma {:induction false} JoinParent(k: Kernel, target: Option<Tid>, t: Tid, parent: Option<Tid>)
    requires AtRest(k) && (target.Some? ==> target.value in k.threads) && target != Some(t)
    ensures Unfinished(Join(k, target), t, parent) <==> Unfinished(k, t, parent)
  {}

  lemma {:induction false} NextParent(k: Kernel, e: Event, t: Tid, parent: Option<Tid>)
    requires Inv(k) && Enabled(k, e) && e != DoJoin(Some(t)) && !(e == DoFinish && k.current == t) && !(e.DoNew? && e.t == t)
    ensures Unfinished(Next(k, e), t, parent) <==> Unfinished(k, t, parent)
  {
    match e
    case DoNew(x, user) =>
      NewParent(k, x, user, t, parent);
    case DoFork(x) =>
      ForkParent(k, x, t, parent);
    case DoYield =>
      YieldKeeps(k);
      YieldParent(k, t, parent);
    case DoP(s) =>
      PParent(k, s, t, parent);
    case DoV(s) =>
      VKeeps(k, s);
      VParent(k, s, t, parent);
    case DoJoin(target) =>
      JoinKeeps(k, target);
      JoinParent(k, target, t, parent);
    case DoFinish =>
      ParentWaits(k);
      FinishParent(k, t, parent);
    case DoDispatch =>
      DispatchKeeps(k);
      DispatchParent(k, t, parent);
  }

  lemma {:induction false} ParentWaits(k: Kernel)
    requires Inv(k) && AtRest(k)
    ensures var p := k.threads[k.current].parent; p.Some? ==> p.value in k.threads && k.threads[p.value].at == Joining(k.current)
  {
    assert ThreadOk(k, k.current);
  }

  // ---- Join ----

  /** Thread `w` is in Join, waiting for `c` to finish. */
  predicate Waits(k: Kernel, w: Tid, c: Tid) {
    w in k.threads && k.threads[w].at == Joining(c)
  }

  /** When `c` finishes, it will wake `w`. */
  predicate Linked(k: Kernel, w: Tid, c: Tid) {
    c in k.threads && k.threads[c].at != Finishing && k.threads[c].parent == Some(w)
  }

  /** The caller of Join sleeps, blocked, with the thread it joins holding on to it; nothing else changes. */
  lemma {:induction false} JoinWaits(k: Kernel, c: Tid)
    requires Inv(k) && Enabled(k, DoJoin(Some(c)))
    ensures var k' := Next(k, DoJoin(Some(c)));
      && k'.asleep && k'.current == k.current && Waits(k', k.current, c) && k'.threads[k.current].status == Blocked
      && Linked(k', k.current, c) && k'.ready == k.ready && k'.sems == k.sems && k'.active == k.active
      && k'.threads.Keys == k.threads.Keys
      && forall t :: t in k.threads && t != c && t != k.current ==> k'.threads[t] == k.threads[t]
  {
    assert ThreadOk(k, k.current);
  }

  /** A Join on no thread returns at once. */
  lemma {:induction false} JoinsNobody(k: Kernel)
    requires Inv(k) && Enabled(k, DoJoin(None))
    ensures Next(k, DoJoin(None)) == k
  {}

  /** A thread that waits in Join is neither ready nor running, and on no list. */
  lemma {:induction false} WaitsApart(k: Kernel, w: Tid, c: Tid, s: Sid)
    requires Inv(k) && Waits(k, w, c)
    ensures k.threads[w].status == Blocked && !IsReady(k, w) && !IsRunning(k, w) && w !in k.ready && !OnQueue(k, s, w)
  {
    assert ThreadOk(k, w);
    ListedMember(k.ready, ReadySet(k), w);
    QueueMeans(k, s, w);
  }

  lemma {:induction false} YieldWaits(k: Kernel, w: Tid, c: Tid)
    requires AtRest(k) && (k.ready != [] ==> k.ready[0] in k.threads) && Waits(k, w, c)
    ensures Waits(Yield(k), w, c)
  {}

  lemma {:induction false} VWaits(k: Kernel, s: Sid, w: Tid, c: Tid)
    requires s in k.sems && (k.sems[s].queue != [] ==> k.sems[s].queue[0] in k.threads) && Waits(k, w, c)
    ensures Waits(V(k, s), w, c)
  {}

  lemma {:induction false} DispatchWaits(k: Kernel, w: Tid, c: Tid)
    requires k.ready != [] && k.ready[0] in Reaped(k) && Waits(k, w, c)
    ensures Waits(Dispatch(k), w, c)
  {}

  lemma {:induction false} NextWaits(k: Kernel, e: Event, w: Tid, c: Tid)
    requires Inv(k) && Enabled(k, e) && Waits(k, w, c) && !(e == DoFinish && k.current == c)
    ensures Waits(Next(k, e), w, c)
  {
    match e
    case DoNew(_, _) =>
    case DoFork(_) =>
    case DoP(_) =>
    case DoJoin(_) =>
    case DoV(s) =>
      VKeeps(k, s);
      VWaits(k, s, w, c);
    case DoYield =>
      YieldKeeps(k);
      YieldWaits(k, w, c);
    case DoFinish =>
      ParentWaits(k);
    case DoDispatch =>
      DispatchKeeps(k);
      DispatchWaits(k, w, c);
  }

  /** `c` finishes in the course of these events. */
  ghost predicate Finishes(k: Kernel, more: seq<Event>, c: Tid)
    requires Inv(k) && Runs(k, more)
  {
    more != [] &&
      var n := |more| - 1;
      Finishes(k, more[..n], c) || (more[n] == DoFinish && End(k, more[..n]).current == c)
  }

  /** A Join does not return before the thread that it named has finished. */
  lemma {:induction false} JoinHolds(k: Kernel, more: seq<Event>, w: Tid, c: Tid, s: Sid)
    requires Inv(k) && Waits(k, w, c) && Runs(k, more) && !Finishes(k, more, c)
    ensures var k' := End(k, more);
      Waits(k', w, c) && !IsReady(k', w) && !IsRunning(k', w) && w !in k'.ready && !OnQueue(k', s, w)
  {
    if more != [] {
      var n := |more| - 1;
      JoinHolds(k, more[..n], w, c, s);
      NextWaits(End(k, more[..n]), more[n], w, c);
    }
    WaitsApart(End(k, more), w, c, s);
  }

  lemma {:induction false} NextLinked(k: Kernel, e: Event, w: Tid, c: Tid)
    requires Inv(k) && Enabled(k, e) && Linked(k, w, c) && !(e == DoFinish && k.current == c) && e != DoJoin(Some(c))
    ensures Linked(Next(k, e), w, c)
  {
    NextParent(k, e, c, Some(w));
  }

  lemma {:induction false} StaysLinked(k: Kernel, more: seq<Event>, w: Tid, c: Tid)
    requires Inv(k) && Linked(k, w, c) && Runs(k, more) && !Finishes(k, more, c) && DoJoin(Some(c)) !in more
    ensures Linked(End(k, more), w, c)
  {
    if more != [] {
      var n := |more| - 1;
      StaysLinked(k, more[..n], w, c);
      NextLinked(End(k, more[..n]), more[n], w, c);
    }
  }

  /** Between `Finish` and the next dispatch only interrupt handlers run, and all they do to threads is V. */
  predicate OnlyVs(vs: seq<Event>) {
    forall i :: 0 <= i < |vs| ==> vs[i].DoV?
  }

  /** `w` is about to be dispatched. */
  predicate IsNext(k: Kernel, w: Tid) {
    k.asleep && k.ready != [] && k.ready[0] == w && k.current != w && w in k.threads && k.threads[w].at == Free && !k.threads[w].isJoined
  }

  lemma {:induction false} VsKeepNext(k: Kernel, vs: seq<Event>, w: Tid)
    requires Inv(k) && IsNext(k, w) && Runs(k, vs) && OnlyVs(vs)
    ensures IsNext(End(k, vs), w) && End(k, vs).current == k.current
  {
    if vs != [] {
      var n := |vs| - 1;
      VsKeepNext(k, vs[..n], w);
      VKeepsNext(End(k, vs[..n]), vs[n].s, w);
    }
  }

  lemma {:induction false} VKeepsNext(k: Kernel, s: Sid, w: Tid)
    requires Inv(k) && IsNext(k, w) && Enabled(k, DoV(s))
    ensures IsNext(Next(k, DoV(s)), w) && Next(k, DoV(s)).current == k.current
  {
    VKeeps(k, s);
  }

  lemma {:induction false} FinishMakesNext(k: Kernel, w: Tid)
    requires Inv(k) && Enabled(k, DoFinish) && Linked(k, w, k.current)
    ensures IsNext(Next(k, DoFinish), w) && Next(k, DoFinish).current == k.current
  {
    assert ThreadOk(k, k.current);
    assert ThreadOk(k, w);
  }

  lemma {:induction false} NextDispatched(k: Kernel, w: Tid)
    requires Inv(k) && IsNext(k, w)
    ensures Enabled(k, DoDispatch)
    ensures var k' := Next(k, DoDispatch);
      IsRunning(k', w) && w in k'.threads && k'.threads[w].status == Running && k'.threads[w].at == Free && !k'.threads[w].isJoined
  {
    DispatchKeeps(k);
  }

  /**
   * Unless the thread is joined again meanwhile, its Finish lets the caller go on: when the next thread is
   * dispatched, whatever interrupt handlers have made ready by then, it is the caller, back from Join.
   */
  lemma {:induction false} JoinReturns(k: Kernel, more: seq<Event>, vs: seq<Event>, w: Tid, c: Tid)
    requires Inv(k) && Linked(k, w, c) && Runs(k, more) && !Finishes(k, more, c) && DoJoin(Some(c)) !in more
    requires End(k, more).current == c && Enabled(End(k, more), DoFinish)
    requires OnlyVs(vs) && Runs(Next(End(k, more), DoFinish), vs)
    ensures var g := End(Next(End(k, more), DoFinish), vs);
      && Enabled(g, DoDispatch)
      && var k' := Next(g, DoDispatch);
         IsRunning(k', w) && w in k'.threads && k'.threads[w].status == Running && k'.threads[w].at == Free && !k'.threads[w].isJoined
  {
    StaysLinked(k, more, w, c);
    FinishMakesNext(End(k, more), w);
    VsKeepNext(Next(End(k, more), DoFinish), vs, w);
    NextDispatched(End(Next(End(k, more), DoFinish), vs), w);
  }

  // ---- the Join that never returns ----

  /** No thread that may still finish holds on to `w`. */
  predicate Forgotten(k: Kernel, w: Tid) {
    forall t :: t in k.threads ==> !Linked(k, w, t)
  }

  lemma {:induction false} NextForgotten(k: Kernel, e: Event, w: Tid, c: Tid)
    requires Inv(k) && Enabled(k, e) && Waits(k, w, c) && Forgotten(k, w)
    ensures Waits(Next(k, e), w, c) && Forgotten(Next(k, e), w)
  {
    if e == DoFinish && k.current == c {
      ForgottenNotWoken(k, w, c);
    } else {
      NextWaits(k, e, w, c);
    }
    forall t | t in Next(k, e).threads
      ensures !Linked(Next(k, e), w, t)
    {
      assert t in k.threads ==> !Linked(k, w, t);
      LinkComes(k, e, w, c, t);
    }
  }

  lemma {:induction false} ForgottenNotWoken(k: Kernel, w: Tid, c: Tid)
    requires Inv(k) && Enabled(k, DoFinish) && Waits(k, w, c) && k.current == c && !Linked(k, w, c)
    ensures Waits(Next(k, DoFinish), w, c)
  {
    ParentWaits(k);
  }

  lemma {:induction false} LinkComes(k: Kernel, e: Event, w: Tid, c: Tid, t: Tid)
    requires Inv(k) && Enabled(k, e) && Waits(k, w, c) && !Linked(k, w, t)
    ensures !Linked(Next(k, e), w, t)
  {
    if e == DoJoin(Some(t)) {
      JoinWaits(k, t);
    } else if !(e == DoFinish && k.current == t) && !(e.DoNew? && e.t == t) {
      NextParent(k, e, t, Some(w));
    }
  }

  lemma {:induction false} ForgottenForever(k: Kernel, more: seq<Event>, w: Tid, c: Tid)
    requires Inv(k) && Waits(k, w, c) && Forgotten(k, w) && Runs(k, more)
    ensures Waits(End(k, more), w, c) && Forgotten(End(k, more), w)
  {
    if more != [] {
      var n := |more| - 1;
      ForgottenForever(k, more[..n], w, c);
      NextForgotten(End(k, more[..n]), more[n], w, c);
    }
  }

  /** A second Join on the same thread makes it forget the first caller, who then waits for ever. */
  lemma {:induction false} SecondJoinLoses(k: Kernel, w: Tid, c: Tid, more: seq<Event>)
    requires Inv(k) && Waits(k, w, c) && Enabled(k, DoJoin(Some(c))) && Runs(Next(k, DoJoin(Some(c))), more)
    ensures Waits(End(Next(k, DoJoin(Some(c))), more), w, c)
  {
    var k' := Next(k, DoJoin(Some(c)));
    NextWaits(k, DoJoin(Some(c)), w, c);
    JoinWaits(k, c);
    assert ThreadOk(k, w);
    forall t | t in k'.threads
      ensures !Linked(k', w, t)
    {
      assert ThreadOk(k', t);
    }
    ForgottenForever(k', more, w, c);
  }

  /** So when the thread joined finishes, a caller is woken if and only if it is the last one to have joined it. */
  lemma {:induction false} WokenExactly(k: Kernel, w: Tid, more: seq<Event>)
    requires Inv(k) && Enabled(k, DoFinish) && Waits(k, w, k.current) && Runs(Next(k, DoFinish), more)
    ensures Linked(k, w, k.current) ==> IsReady(Next(k, DoFinish), w)
    ensures !Linked(k, w, k.current) ==> Waits(End(Next(k, DoFinish), more), w, k.current)
  {
    assert ThreadOk(k, k.current);
    if Linked(k, w, k.current) {
      FinishMakesNext(k, w);
      HeadReady(Next(k, DoFinish));
    } else {
      forall t | t in k.threads
        ensures !Linked(k, w, t)
      {
        assert ThreadOk(k, t);
      }
      NextForgotten(k, DoFinish, w, k.current);
      ForgottenForever(Next(k, DoFinish), more, w, k.current);
    }
  }

  // ---- Finish ----

  /** Thread `t` has finished: it is gone, or about to be. */
  predicate Finished(k: Kernel, t: Tid) {
    t in k.threads ==> k.threads[t].at == Finishing && k.current == t && k.asleep
  }

  lemma {:induction false} NextFinished(k: Kernel, e: Event, t: Tid)
    requires Inv(k) && Enabled(k, e) && Finished(k, t) && !(e.DoNew? && e.t == t)
    ensures Finished(Next(k, e), t)
  {
    if t !in k.threads {
      NextThreads(k, e, t);
    } else {
      match e
      case DoV(s) =>
        if k.sems[s].queue != [] {
          HeadWaits(k, s);
        }
      case DoDispatch =>
        HeadReady(k);
    }
  }

  lemma {:induction false} MakesFinished(k: Kernel)
    requires Inv(k) && Enabled(k, DoFinish)
    ensures Finished(Next(k, DoFinish), k.current) && k.current !in Next(k, DoFinish).active
  {
    assert ThreadOk(k, k.current);
  }

  /** A thread that has finished never runs again, and is not ready, unless its object is made a thread anew. */
  lemma {:induction false} FinishedForGood(k: Kernel, more: seq<Event>, t: Tid)
    requires Inv(k) && Finished(k, t) && Runs(k, more) && forall i :: 0 <= i < |more| ==> !(more[i].DoNew? && more[i].t == t)
    ensures var k' := End(k, more); Finished(k', t) && !IsReady(k', t) && t !in k'.ready && !(t in k'.threads && IsRunning(k', t))
  {
    if more != [] {
      var n := |more| - 1;
      FinishedForGood(k, more[..n], t);
      NextFinished(End(k, more[..n]), more[n], t);
    }
    FinishedApart(End(k, more), t);
  }

  lemma {:induction false} FinishedApart(k: Kernel, t: Tid)
    requires Inv(k) && Finished(k, t)
    ensures !IsReady(k, t) && t !in k.ready
  {
    assert t in k.threads ==> ThreadOk(k, t);
    ListedMember(k.ready, ReadySet(k), t);
  }

  // ---- first come, first served ----

  /** Thread `t` is ahead of `u` on the list. */
  predicate Ahead(q: seq<Tid>, t: Tid, u: Tid) {
    exists i, j :: 0 <= i < j < |q| && q[i] == t && q[j] == u
  }

  lemma {:induction false} AheadMore(q: seq<Tid>, t: Tid, u: Tid, x: Tid)
    requires Ahead(q, t, u)
    ensures Ahead(q + [x], t, u) && Ahead([x] + q, t, u)
  {
    var i, j :| 0 <= i < j < |q| && q[i] == t && q[j] == u;
    assert (q + [x])[i] == t && (q + [x])[j] == u;
    assert ([x] + q)[i + 1] == t && ([x] + q)[j + 1] == u;
  }

  lemma {:induction false} AheadLess(q: seq<Tid>, t: Tid, u: Tid)
    requires Ahead(q, t, u)
    ensures q[0] == t || Ahead(q[1..], t, u)
  {
    var i, j :| 0 <= i < j < |q| && q[i] == t && q[j] == u;
    if i > 0 {
      assert q[1..][i - 1] == t && q[1..][j - 1] == u;
    }
  }

  lemma {:induction false} AheadOfLast(q: seq<Tid>, t: Tid, x: Tid)
    requires t in q
    ensures Ahead(q + [x], t, x) && Ahead([x] + q, x, t)
  {
    var i :| 0 <= i < |q| && q[i] == t;
    assert (q + [x])[i] == t && (q + [x])[|q|] == x;
    assert ([x] + q)[0] == x && ([x] + q)[i + 1] == t;
  }

  /** A new thread does not run and is not ready until it is forked; it is active if it runs a user program. */
  lemma {:induction false} NewThread(k: Kernel, t: Tid, user: bool)
    requires Inv(k) && Enabled(k, DoNew(t, user))
    ensures var k' := Next(k, DoNew(t, user));
      && t in k'.threads && k'.threads[t].status == JustCreated && k'.threads[t].parent == None && !IsRunning(k', t) && t !in k'.ready
      && k'.active == (if user then k.active + {t} else k.active) && k'.ready == k.ready && k'.current == k.current
  {
    assert ThreadOk(k, k.current);
    ListedMember(k.ready, ReadySet(k), t);
  }

  /** Fork makes it ready, last in line. */
  lemma {:induction false} ForkReadies(k: Kernel, t: Tid)
    requires Inv(k) && Enabled(k, DoFork(t))
    ensures var k' := Next(k, DoFork(t));
      && IsReady(k', t) && k'.ready != [] && k'.ready[|k'.ready| - 1] == t && k'.current == k.current && !k'.asleep
      && forall u :: u in k.ready ==> Ahead(k'.ready, u, t)
  {
    forall u | u in k.ready
      ensures Ahead(k.ready + [t], u, t)
    {
      AheadOfLast(k.ready, u, t);
    }
  }

  /** The dispatch that ends Sleep runs the first in line, and takes it off the list. */
  lemma {:induction false} DispatchRunsFirst(k: Kernel)
    requires Inv(k) && Enabled(k, DoDispatch)
    ensures var k' := Next(k, DoDispatch); var t := k.ready[0];
      IsRunning(k', t) && t in k'.threads && k'.threads[t].status == Running && t !in k'.ready && k'.ready == k.ready[1..]
  {
    DispatchKeeps(k);
    var k' := Next(k, DoDispatch);
    ListedMember(k'.ready, ReadySet(k'), k.ready[0]);
  }

  /** With somebody ready, Yield runs the first in line and puts the caller at its end; else it changes nothing. */
  lemma {:induction false} YieldSwitches(k: Kernel)
    requires Inv(k) && Enabled(k, DoYield)
    ensures var k' := Next(k, DoYield);
      if k.ready == [] then k' == k
      else
        && IsRunning(k', k.ready[0]) && k.ready[0] in k'.threads && k'.threads[k.ready[0]].status == Running
        && IsReady(k', k.current) && k'.ready != [] && k'.ready[|k'.ready| - 1] == k.current
        && forall u :: u in k'.ready && u != k.current ==> Ahead(k'.ready, u, k.current)
  {
    if k.ready != [] {
      HeadReady(k);
      assert ThreadOk(k, k.current);
      forall u | u in k.ready[1..]
        ensures Ahead(Next(k, DoYield).ready, u, k.current)
      {
        AheadOfLast(k.ready[1..], u, k.current);
      }
    }
  }

  /** The thread has been running in one of these states. */
  ghost predicate HasRun(k: Kernel, more: seq<Event>, t: Tid)
    requires Inv(k) && Runs(k, more)
  {
    IsRunning(End(k, more), t) || (more != [] && HasRun(k, more[..|more| - 1], t))
  }

  lemma {:induction false} NextReady(k: Kernel, e: Event, t: Tid, u: Tid)
    requires Inv(k) && Enabled(k, e) && Ahead(k.ready, t, u)
    ensures IsRunning(Next(k, e), t) || Ahead(Next(k, e).ready, t, u)
  {
    match e
    case DoFork(x) =>
      AheadMore(k.ready, t, u, x);
    case DoYield =>
      AheadLess(k.ready, t, u);
      if Ahead(k.ready[1..], t, u) {
        AheadMore(k.ready[1..], t, u, k.current);
      }
    case DoV(s) =>
      if k.sems[s].queue != [] {
        AheadMore(k.ready, t, u, k.sems[s].queue[0]);
      }
    case DoFinish =>
      ParentWaits(k);
      if k.threads[k.current].parent.Some? {
        AheadMore(k.ready, t, u, k.threads[k.current].parent.value);
      }
    case DoDispatch =>
      AheadLess(k.ready, t, u);
    case _ =>
  }

  /** Ready threads run in the order of the list: the one behind does not run before the one ahead has. */
  lemma {:induction false} ReadyInOrder(k: Kernel, more: seq<Event>, t: Tid, u: Tid)
    requires Inv(k) && Ahead(k.ready, t, u) && Runs(k, more)
    ensures HasRun(k, more, t) || (Ahead(End(k, more).ready, t, u) && !IsRunning(End(k, more), u))
  {
    if more != [] {
      var n := |more| - 1;
      ReadyInOrder(k, more[..n], t, u);
      if !HasRun(k, more[..n], t) {
        NextReady(End(k, more[..n]), more[n], t, u);
      }
    }
    if Ahead(End(k, more).ready, t, u) {
      ReadyNotRunning(End(k, more), u);
    }
  }

  lemma {:induction false} ReadyNotRunning(k: Kernel, u: Tid)
    requires Inv(k) && u in k.ready
    ensures !IsRunning(k, u)
  {
    ListedMember(k.ready, ReadySet(k), u);
    assert ThreadOk(k, u);
  }

  /** Whoever becomes ready goes behind all who are, but for a joined parent, who goes ahead of them. */
  lemma {:induction false} BecomesReady(k: Kernel, e: Event, t: Tid, u: Tid)
    requires Inv(k) && Enabled(k, e) && t !in k.ready && t in Next(k, e).ready && u in k.ready && u in Next(k, e).ready
    ensures if e == DoFinish then Ahead(Next(k, e).ready, t, u) else Ahead(Next(k, e).ready, u, t)
  {
    match e
    case DoFork(x) =>
      AheadOfLast(k.ready, u, t);
    case DoYield =>
      YieldSwitches(k);
    case DoV(s) =>
      AheadOfLast(k.ready, u, t);
    case DoFinish =>
      ParentWaits(k);
      AheadOfLast(k.ready, u, t);
    case _ =>
  }

  lemma {:induction false} VMoves(k: Kernel, s: Sid)
    requires s in k.sems && (k.sems[s].queue != [] ==> k.sems[s].queue[0] in k.threads)
    ensures var k' := V(k, s); var q := k.sems[s].queue;
      && s in k'.sems && k'.sems[s].value == k.sems[s].value + 1
      && (q != [] ==>
           && q[0] in k'.threads && k'.threads[q[0]] == k.threads[q[0]].(status := Ready)
           && k'.sems[s].queue == q[1..] && k'.ready == k.ready + [q[0]])
  {}

  // ---- semaphores ----

  /** A P that finds the value zero puts its caller to sleep behind all who wait; one that does not, goes through. */
  lemma {:induction false} PWaitsOrTakes(k: Kernel, s: Sid)
    requires Inv(k) && Enabled(k, DoP(s))
    ensures var k' := Next(k, DoP(s));
      if k.sems[s].value == 0 then
        && k'.asleep && IsWaiting(k', k.current, s) && k'.sems[s].value == 0 && OnQueue(k', s, k.current)
        && forall u :: u in k.sems[s].queue ==> Ahead(k'.sems[s].queue, u, k.current)
      else !k'.asleep && k'.threads[k.current].at == Free && k'.sems[s].value == k.sems[s].value - 1 && k'.sems[s].queue == k.sems[s].queue
  {
    var q := k.sems[s].queue;
    if k.sems[s].value == 0 {
      forall u | u in q
        ensures Ahead(Next(k, DoP(s)).sems[s].queue, u, k.current)
      {
        AheadOfLast(q, u, k.current);
      }
      assert (q + [k.current])[|q|] == k.current;
    }
  }

  /** V wakes the first in line, if anybody waits, and adds one to the value. */
  lemma {:induction false} VWakesFirst(k: Kernel, s: Sid)
    requires Inv(k) && Enabled(k, DoV(s))
    ensures var k' := Next(k, DoV(s));
      && s in k'.sems && k'.sems[s].value == k.sems[s].value + 1
      && (k.sems[s].queue != [] ==>
           var t := k.sems[s].queue[0];
           k'.sems[s].queue == k.sems[s].queue[1..] && IsReady(k', t) && t in k'.ready && !OnQueue(k', s, t) && k'.threads[t].at == InP(s))
      && forall u :: OnQueue(k, s, u) && u != k.sems[s].queue[0] ==> OnQueue(k', s, u)
  {
    VKeeps(k, s);
    VMoves(k, s);
    var q, k' := k.sems[s].queue, Next(k, DoV(s));
    if q != [] {
      HeadWaits(k, s);
      assert k'.ready[|k.ready|] == q[0];
      QueueMeans(k', s, q[0]);
      assert q == [q[0]] + q[1..];
    }
  }

  /** A waiting thread sleeps on until some V on its semaphore, and waiters are woken in the order they came. */
  lemma {:induction false} NextQueue(k: Kernel, e: Event, s: Sid, t: Tid, u: Tid)
    requires Inv(k) && Enabled(k, e) && s in k.sems && Ahead(k.sems[s].queue, t, u)
    ensures s in Next(k, e).sems
    ensures !OnQueue(Next(k, e), s, t) || Ahead(Next(k, e).sems[s].queue, t, u)
  {
    if e == DoP(s) {
      PQueue(k, s, t, u);
    } else if e == DoV(s) {
      AheadLess(k.sems[s].queue, t, u);
      VWakesFirst(k, s);
    } else {
      SemStays(k, e, s);
    }
  }

  lemma {:induction false} PQueue(k: Kernel, s: Sid, t: Tid, u: Tid)
    requires s in k.sems && k.current in k.threads && Ahead(k.sems[s].queue, t, u)
    ensures s in P(k, s).sems && Ahead(P(k, s).sems[s].queue, t, u)
  {
    AheadMore(k.sems[s].queue, t, u, k.current);
  }

  lemma {:induction false} SemStays(k: Kernel, e: Event, s: Sid)
    requires Inv(k) && Enabled(k, e) && e != DoP(s) && e != DoV(s) && s in k.sems
    ensures s in Next(k, e).sems && Next(k, e).sems[s] == k.sems[s]
  {}

  /** The thread has left the queue in one of these states: it has been woken. */
  ghost predicate HasLeft(k: Kernel, more: seq<Event>, s: Sid, t: Tid)
    requires Inv(k) && Runs(k, more)
  {
    !OnQueue(End(k, more), s, t) || (more != [] && HasLeft(k, more[..|more| - 1], s, t))
  }

  /** Waiters wake in the order they came: the one behind still sleeps while the one ahead has not been woken. */
  lemma {:induction false} WaitersInOrder(k: Kernel, more: seq<Event>, s: Sid, t: Tid, u: Tid)
    requires Inv(k) && s in k.sems && Ahead(k.sems[s].queue, t, u) && Runs(k, more)
    ensures var k' := End(k, more);
      HasLeft(k, more, s, t) || (s in k'.sems && Ahead(k'.sems[s].queue, t, u) && IsWaiting(k', u, s) && !IsRunning(k', u))
  {
    if more != [] {
      var n := |more| - 1;
      WaitersInOrder(k, more[..n], s, t, u);
      if !HasLeft(k, more[..n], s, t) {
        NextQueue(End(k, more[..n]), more[n], s, t, u);
      }
    }
    if !HasLeft(k, more, s, t) {
      QueueMeans(End(k, more), s, u);
      assert ThreadOk(End(k, more), u);
    }
  }

  lemma {:induction false} NextWaiting(k: Kernel, e: Event, s: Sid, t: Tid)
    requires Inv(k) && Enabled(k, e) && OnQueue(k, s, t) && e != DoV(s)
    ensures OnQueue(Next(k, e), s, t)
  {
    if e != DoP(s) {
      SemStays(k, e, s);
    }
  }

  /** Nothing but a V on its semaphore wakes a waiting thread. */
  lemma {:induction false} SleepsUntilV(k: Kernel, more: seq<Event>, s: Sid, t: Tid)
    requires Inv(k) && OnQueue(k, s, t) && Runs(k, more) && DoV(s) !in more
    ensures OnQueue(End(k, more), s, t) && IsWaiting(End(k, more), t, s)
  {
    if more != [] {
      var n := |more| - 1;
      SleepsUntilV(k, more[..n], s, t);
      NextWaiting(End(k, more[..n]), more[n], s, t);
    }
    QueueMeans(End(k, more), s, t);
  }
}
