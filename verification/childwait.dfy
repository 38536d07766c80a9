// Waiting for child processes: the self-pipe written by the SIGCHLD handler, xpqueue_wait and xpproc_reap,
// as steps of the library interleaved with exits of children and deliveries of the signal.
module ChildWait {

  type Pid = nat
  type Proc = nat
  type Queue = nat
  type Waiter = nat

  // Bytes a pipe holds, and bytes one 'read' asks for.
  const PIPE_CAPACITY: nat := 65536
  const READ_SIZE: nat := 32

  datatype Phase = Running | Zombie | Gone

  // Where the one thread of the library is; 'Forked' is between 'fork' and the creation of its XPProc.
  datatype Pc =
    | User
    | Forked(child: Pid)
    | Polling(q: Queue, infinite: bool, sockets: bool)
    | Draining(q: Queue, received: bool)
    | Reaping(q: Queue, updated: nat)

  // 'pids' is 0 for an XPProc whose process has been reaped. A waiter is one registration of a task, and
  // 'woken' holds those that were put in a list of ready tasks. 'lost' are the children that exited before
  // the handler was installed; 'stuck' says that the handler waits for room in the pipe.
  datatype System = System(
    children: map<Pid, Phase>, lost: set<Pid>, installed: bool, pending: bool, pipe: nat, stuck: bool,
    pids: map<Proc, Pid>, waiters: map<Queue, map<Proc, Waiter>>, woken: multiset<Waiter>, nextWaiter: Waiter, pc: Pc)

  datatype Event =
    | Exit(p: Pid)
    | Deliver
    | Fork(p: Pid)
    | NewProc(o: Proc)
    | Enqueue(q: Queue, o: Proc)
    | Dequeue(q: Queue, o: Proc)
    | Wait(q: Queue, infinite: bool, sockets: bool)
    | PollReturns(other: bool)
    | Read
    | Reap(p: Pid)
    | ReapNone

  function WaitersOf(s: System, q: Queue): map<Proc, Waiter> { if q in s.waiters then s.waiters[q] else map[] }

  predicate IsZombie(s: System, p: Pid) { p in s.children && s.children[p] == Zombie }

  predicate IsExited(s: System, o: Proc) { o in s.pids && s.pids[o] == 0 }

  // ---- steps ----

  // 'XPQueue_wakeChildWaiters'
  function Wake(s: System, q: Queue): System {
    var w := WaitersOf(s, q);
    s.(waiters := s.waiters[q := map o | o in w && !IsExited(s, o) :: w[o]],
       woken := s.woken + multiset(set o | o in w && IsExited(s, o) :: w[o]))
  }

  predicate AnyReady(s: System, q: Queue) { exists o :: o in WaitersOf(s, q) && IsExited(s, o) }

  // The XPProc of a reaped process learns of it.
  function Updated(pids: map<Proc, Pid>, p: Pid): map<Proc, Pid> { map o | o in pids :: if pids[o] == p then 0 else pids[o] }

  predicate IsKnown(pids: map<Proc, Pid>, p: Pid) { exists o :: o in pids && pids[o] == p }

  ghost predicate Enabled(s: System, e: Event) {
    match e
    case Exit(p) => p in s.children && s.children[p] == Running
    case Deliver => s.pending && !s.stuck
    case Fork(p) => !s.stuck && s.pc.User? && p > 0 && (p in s.children ==> s.children[p] == Gone)
    case NewProc(o) => !s.stuck && s.pc.Forked? && o !in s.pids
    case Enqueue(_, o) => !s.stuck && s.pc.User? && o in s.pids
    case Dequeue(_, _) => !s.stuck && s.pc.User?
    case Wait(_, _, _) => !s.stuck && s.pc.User?
    // 'other': a socket is ready, or the time is up
    case PollReturns(other) => !s.stuck && s.pc.Polling? && (other ==> s.pc.sockets || !s.pc.infinite) && (other || Readable(s))
    case Read => !s.stuck && s.pc.Draining?
    case Reap(p) => !s.stuck && s.pc.Reaping? && IsZombie(s, p)
    case ReapNone => !s.stuck && s.pc.Reaping? && forall p: Pid :: !IsZombie(s, p)
  }

  // The read side of the pipe is polled when waiters are left, and has something to read.
  predicate Readable(s: System)
    requires s.pc.Polling?
  {
    WaitersOf(s, s.pc.q) != map[] && s.pipe > 0
  }

  ghost function Step(s: System, e: Event): System
    requires Enabled(s, e)
  {
    match e
    case Exit(p) =>
      var t := s.(children := s.children[p := Zombie]);
      if s.installed then t.(pending := true) else t.(lost := s.lost + {p})
    case Deliver =>
      // 'handleSIGCHLD'; the write side blocks
      if s.pipe < PIPE_CAPACITY then s.(pending := false, pipe := s.pipe + 1) else s.(stuck := true)
    case Fork(p) => s.(children := s.children[p := Running], lost := s.lost - {p}, pc := Forked(p))
    case NewProc(o) => s.(pids := s.pids[o := s.pc.child], installed := true, pc := User)
    case Enqueue(q, o) =>
      s.(waiters := s.waiters[q := WaitersOf(s, q)[o := s.nextWaiter]], nextWaiter := s.nextWaiter + 1)
    case Dequeue(q, o) => s.(waiters := s.waiters[q := WaitersOf(s, q) - {o}])
    case Wait(q, infinite, sockets) =>
      var t := Wake(s, q);
      if infinite && !AnyReady(s, q) && !sockets && WaitersOf(t, q) == map[] then t
      else t.(pc := Polling(q, infinite && !AnyReady(s, q), sockets))
    case PollReturns(_) => s.(pc := if Readable(s) then Draining(s.pc.q, false) else User)
    case Read =>
      var n := if s.pipe < READ_SIZE then s.pipe else READ_SIZE;
      var received := s.pc.received || n > 0;
      s.(pipe := s.pipe - n,
         pc := if n == READ_SIZE then Draining(s.pc.q, received) else if received then Reaping(s.pc.q, 0) else User)
    case Reap(p) =>
      s.(children := s.children[p := Gone], pids := Updated(s.pids, p),
         pc := Reaping(s.pc.q, if IsKnown(s.pids, p) then s.pc.updated + 1 else s.pc.updated))
    case ReapNone => (if s.pc.updated > 0 then Wake(s, s.pc.q) else s).(pc := User)
  }

  const START: System := System(map[], {}, false, false, 0, false, map[], map[], multiset{}, 0, User)

  // ---- invariants ----

  // An exited child that nobody has reaped is announced: by the signal, by the pipe, or by a reap under way.
  ghost predicate Announced(s: System) {
    (exists p: Pid :: IsZombie(s, p) && p !in s.lost) ==>
      s.installed && (s.pending || s.pipe > 0 || (s.pc.Draining? && s.pc.received) || s.pc.Reaping?)
  }

  // Every XPProc not yet reaped is the only one of a process that is still there.
  ghost predicate Matched(s: System) {
    && 0 !in s.children
    && (forall o :: o in s.pids && s.pids[o] != 0 ==> s.pids[o] in s.children && s.children[s.pids[o]] != Gone)
    && (forall o, o' :: o in s.pids && o' in s.pids && o != o' && s.pids[o] != 0 ==> s.pids[o] != s.pids[o'])
    && (s.pc.Forked? ==> s.pc.child > 0 && s.pc.child in s.children && s.children[s.pc.child] != Gone && forall o :: o in s.pids ==> s.pids[o] != s.pc.child)
  }

  // While the queue polls, drains, or has reaped nothing of interest, its waiters wait for processes not
  // yet reaped.
  predicate Outstanding(s: System) {
    s.pc.Polling? || s.pc.Draining? || (s.pc.Reaping? && s.pc.updated == 0) ==>
      forall o :: o in WaitersOf(s, s.pc.q) ==> !IsExited(s, o)
  }

  predicate At(s: System, q: Queue, o: Proc) { o in WaitersOf(s, q) }

  function WaiterAt(s: System, q: Queue, o: Proc): Waiter
    requires At(s, q, o)
  {
    WaitersOf(s, q)[o]
  }

  // Registrations are all different, and none of them is both waiting and woken, or woken twice.
  ghost predicate Registered(s: System) {
    && (forall q, o :: At(s, q, o) ==> o in s.pids && WaiterAt(s, q, o) < s.nextWaiter && s.woken[WaiterAt(s, q, o)] == 0)
    && (forall q, o, q', o' :: At(s, q, o) && At(s, q', o') && (q != q' || o != o') ==> WaiterAt(s, q, o) != WaiterAt(s, q', o'))
    && (forall r: Waiter :: s.woken[r] <= 1 && (s.woken[r] > 0 ==> r < s.nextWaiter))
  }

  ghost predicate Inv(s: System) { Announced(s) && Matched(s) && Outstanding(s) && Registered(s) }

  lemma StartKeeps()
    ensures Inv(START)
  {
  }

  lemma AnnouncedKept(s: System, e: Event)
    requires Announced(s) && Enabled(s, e)
    ensures Announced(Step(s, e))
  {
    var t := Step(s, e);
    forall p: Pid | IsZombie(t, p) && p !in t.lost
      ensures t.installed && (t.pending || t.pipe > 0 || (t.pc.Draining? && t.pc.received) || t.pc.Reaping?)
    {
      assert IsZombie(s, p) || e == Exit(p);
    }
  }

  lemma SameMatched(s: System, t: System)
    requires Matched(s) && t.pids == s.pids && t.children == s.children && (t.pc.Forked? ==> t.pc == s.pc)
    ensures Matched(t)
  {
  }

  lemma ReapMatched(s: System, t: System, p: Pid)
    requires Matched(s) && IsZombie(s, p) && !t.pc.Forked?
    requires t.children == s.children[p := Gone] && t.pids == Updated(s.pids, p)
    ensures Matched(t)
  {
    forall o | o in t.pids && t.pids[o] != 0 ensures t.pids[o] == s.pids[o] != p {
    }
  }

  lemma ChildMatched(s: System, t: System, p: Pid, phase: Phase)
    requires Matched(s) && p > 0 && t.children == s.children[p := phase] && phase != Gone && t.pids == s.pids
    requires if t.pc.Forked? then (t.pc == s.pc || (t.pc.child == p && (p in s.children ==> s.children[p] == Gone))) else true
    ensures Matched(t)
  {
  }

  lemma NewProcMatched(s: System, t: System, o: Proc)
    requires Matched(s) && s.pc.Forked? && o !in s.pids && t.children == s.children && t.pids == s.pids[o := s.pc.child] && t.pc.User?
    ensures Matched(t)
  {
  }

  lemma MatchedKept(s: System, e: Event)
    requires Matched(s) && Enabled(s, e)
    ensures Matched(Step(s, e))
  {
    hide Matched, Wake, Updated;
    match e
    case Exit(p) =>
      assert p > 0 by { NoChildZero(s); }
      ChildMatched(s, Step(s, e), p, Zombie);
    case Fork(p) => ChildMatched(s, Step(s, e), p, Running);
    case NewProc(o) => NewProcMatched(s, Step(s, e), o);
    case Reap(p) => ReapMatched(s, Step(s, e), p);
    case Wait(q, _, _) =>
      WakeMatched(s, q);
      SameMatched(s, Step(s, e));
    case ReapNone =>
      WakeMatched(s, s.pc.q);
      SameMatched(s, Step(s, e));
    case _ => SameMatched(s, Step(s, e));
  }

  lemma NoChildZero(s: System)
    requires Matched(s)
    ensures 0 !in s.children
  {
  }

  lemma WakeMatched(s: System, q: Queue)
    ensures Wake(s, q).pids == s.pids && Wake(s, q).children == s.children && Wake(s, q).pc == s.pc
  {
  }

  // In the middle of a wait, before anything of interest has been reaped.
  predicate Watching(pc: Pc) { pc.Polling? || pc.Draining? || (pc.Reaping? && pc.updated == 0) }

  lemma SameOutstanding(s: System, t: System)
    requires Outstanding(s) && t.pids == s.pids && t.waiters == s.waiters
    requires Watching(t.pc) ==> Watching(s.pc) && t.pc.q == s.pc.q
    ensures Outstanding(t)
  {
    assert forall o :: IsExited(t, o) == IsExited(s, o);
  }

  lemma OutstandingKept(s: System, e: Event)
    requires Matched(s) && Outstanding(s) && Enabled(s, e)
    ensures Outstanding(Step(s, e))
  {
    match e
    case Wait(q, _, _) => StillWaiting(s, q);
    case Reap(p) =>
      if !IsKnown(s.pids, p) {
        assert Updated(s.pids, p) == s.pids;
        SameOutstanding(s, Step(s, e));
      }
    case Exit(_) => SameOutstanding(s, Step(s, e));
    case Deliver => SameOutstanding(s, Step(s, e));
    case PollReturns(_) => SameOutstanding(s, Step(s, e));
    case Read => SameOutstanding(s, Step(s, e));
    case _ =>
  }

  lemma StillWaiting(s: System, q: Queue)
    ensures forall o :: o in WaitersOf(Wake(s, q), q) ==> !IsExited(Wake(s, q), o)
  {
  }

  // Waiters leave their tables; those in 'out' are woken.
  lemma LeaveRegistered(s: System, t: System, out: set<Waiter>)
    requires Registered(s) && t.nextWaiter == s.nextWaiter && s.pids.Keys <= t.pids.Keys
    requires t.woken == s.woken + multiset(out) && forall r :: r in out ==> s.woken[r] == 0 && r < s.nextWaiter
    requires forall q, o :: At(t, q, o) ==> At(s, q, o) && WaiterAt(t, q, o) == WaiterAt(s, q, o) && WaiterAt(s, q, o) !in out
    ensures Registered(t)
  {
    hide WaitersOf;
    assert forall r: Waiter :: t.woken[r] == s.woken[r] + if r in out then 1 else 0;
  }

  lemma SameRegistered(s: System, t: System)
    requires Registered(s) && t.nextWaiter == s.nextWaiter && s.pids.Keys <= t.pids.Keys && t.woken == s.woken && t.waiters == s.waiters
    ensures Registered(t)
  {
    hide Registered;
    assert s.woken + multiset({}) == s.woken;
    LeaveRegistered(s, t, {});
  }

  lemma WakeRegistered(s: System, q: Queue)
    requires Registered(s)
    ensures Registered(Wake(s, q))
  {
    var t, w := Wake(s, q), WaitersOf(s, q);
    var out := set o | o in w && IsExited(s, o) :: w[o];
    forall p, o | At(t, p, o) ensures At(s, p, o) && WaiterAt(t, p, o) == WaiterAt(s, p, o) && WaiterAt(s, p, o) !in out {
      NotTaken(s, q, p, o);
    }
    forall r | r in out ensures s.woken[r] == 0 && r < s.nextWaiter {
      var o :| o in w && IsExited(s, o) && w[o] == r;
      assert At(s, q, o) && WaiterAt(s, q, o) == r;
    }
    hide Registered;
    LeaveRegistered(s, t, out);
  }

  lemma NotTaken(s: System, q: Queue, p: Queue, o: Proc)
    requires Registered(s) && At(s, p, o) && (p == q ==> !IsExited(s, o))
    ensures forall o' :: At(s, q, o') && IsExited(s, o') ==> WaiterAt(s, q, o') != WaiterAt(s, p, o)
  {
    hide WaitersOf;
  }

  lemma EnqueueRegistered(s: System, q: Queue, o: Proc)
    requires Registered(s) && o in s.pids
    ensures Registered(s.(waiters := s.waiters[q := WaitersOf(s, q)[o := s.nextWaiter]], nextWaiter := s.nextWaiter + 1))
  {
    var t := s.(waiters := s.waiters[q := WaitersOf(s, q)[o := s.nextWaiter]], nextWaiter := s.nextWaiter + 1);
    forall p, x | At(t, p, x)
      ensures if p == q && x == o then WaiterAt(t, p, x) == s.nextWaiter else At(s, p, x) && WaiterAt(t, p, x) == WaiterAt(s, p, x)
    {
    }
    OneMore(s, t, q, o);
  }

  lemma OneMore(s: System, t: System, q: Queue, o: Proc)
    requires Registered(s) && o in s.pids && t.pids == s.pids && t.woken == s.woken && t.nextWaiter == s.nextWaiter + 1
    requires forall p, x :: At(t, p, x) ==>
      if p == q && x == o then WaiterAt(t, p, x) == s.nextWaiter else At(s, p, x) && WaiterAt(t, p, x) == WaiterAt(s, p, x)
    ensures Registered(t)
  {
    hide WaitersOf;
    assert s.woken[s.nextWaiter] == 0;
  }

  lemma DequeueRegistered(s: System, q: Queue, o: Proc)
    requires Registered(s)
    ensures Registered(s.(waiters := s.waiters[q := WaitersOf(s, q) - {o}]))
  {
    var t := s.(waiters := s.waiters[q := WaitersOf(s, q) - {o}]);
    forall p, x | At(t, p, x) ensures At(s, p, x) && WaiterAt(t, p, x) == WaiterAt(s, p, x) {
    }
    hide Registered;
    assert s.woken + multiset({}) == s.woken;
    LeaveRegistered(s, t, {});
  }

  lemma RegisteredKept(s: System, e: Event)
    requires Registered(s) && Enabled(s, e)
    ensures Registered(Step(s, e))
  {
    hide Registered, Wake;
    match e
    case Enqueue(q, o) => EnqueueRegistered(s, q, o);
    case Dequeue(q, o) => DequeueRegistered(s, q, o);
    case Wait(q, _, _) =>
      WakeRegistered(s, q);
      SameRegistered(Wake(s, q), Step(s, e));
    case ReapNone =>
      if s.pc.updated > 0 { WakeRegistered(s, s.pc.q); }
      SameRegistered(if s.pc.updated > 0 then Wake(s, s.pc.q) else s, Step(s, e));
    case _ => SameRegistered(s, Step(s, e));
  }

  lemma StepKeeps(s: System, e: Event)
    requires Inv(s) && Enabled(s, e)
    ensures Inv(Step(s, e))
  {
    hide Announced, Matched, Outstanding, Registered, Step, Enabled;
    AnnouncedKept(s, e);
    MatchedKept(s, e);
    OutstandingKept(s, e);
    RegisteredKept(s, e);
  }

  // ---- runs ----

  ghost predicate Run(s: System, events: seq<Event>, t: System)
    decreases |events|
  {
    if events == [] then t == s else Enabled(s, events[0]) && Run(Step(s, events[0]), events[1..], t)
  }

  lemma {:induction false} RunKeeps(s: System, events: seq<Event>, t: System)
    requires Inv(s) && Run(s, events, t)
    ensures Inv(t)
    decreases |events|
  {
    hide Inv, Step, Enabled;
    if events != [] {
      StepKeeps(s, events[0]);
      RunKeeps(Step(s, events[0]), events[1..], t);
    }
  }

  lemma Reached(events: seq<Event>, t: System)
    requires Run(START, events, t)
    ensures Inv(t)
  {
    StartKeeps();
    RunKeeps(START, events, t);
  }

  // A registration is woken at most once, and not while it still waits.
  lemma WokenOnce(events: seq<Event>, t: System, r: Waiter)
    requires Run(START, events, t)
    ensures t.woken[r] <= 1
    ensures t.woken[r] == 1 ==> forall q, o :: At(t, q, o) ==> WaiterAt(t, q, o) != r
  {
    Reached(events, t);
  }

  // When a wait that reaped ends, each waiter left in the queue has a child that runs.
  lemma OnlyRunningLeft(events: seq<Event>, s: System, o: Proc)
    requires Run(START, events, s) && Enabled(s, ReapNone) && o in WaitersOf(Step(s, ReapNone), s.pc.q)
    ensures o in s.pids && s.pids[o] in s.children && s.children[s.pids[o]] == Running
  {
    Reached(events, s);
    assert At(s, s.pc.q, o);
    assert !IsExited(s, o);
    assert !IsZombie(s, s.pids[o]);
  }

  // ---- one wait from the moment the pipe is found readable ----

  // The run stays inside the wait until its last step.
  ghost predicate Inside(s: System, events: seq<Event>, t: System)
    decreases |events|
  {
    if events == [] then t == s
    else !s.pc.User? && Enabled(s, events[0]) && Inside(Step(s, events[0]), events[1..], t)
  }

  // The wait is on its way to reap, and the waiter is there with a child that has exited, or is woken.
  ghost predicate Due(s: System, q: Queue, o: Proc, r: Waiter) {
    && (if s.pc.Draining? then s.pc.q == q && (s.pc.received || s.pipe > 0) else s.pc.Reaping? && s.pc.q == q)
    && At(s, q, o) && WaiterAt(s, q, o) == r && o in s.pids
    && (IsZombie(s, s.pids[o]) || (s.pids[o] == 0 && s.pc.Reaping? && s.pc.updated > 0))
  }

  lemma DueKept(s: System, e: Event, q: Queue, o: Proc, r: Waiter)
    requires Inv(s) && Due(s, q, o, r) && Enabled(s, e)
    ensures if e.ReapNone? then Step(s, e).pc.User? && Step(s, e).woken[r] > 0 else Due(Step(s, e), q, o, r)
  {
    hide Announced, Registered;
    if e.ReapNone? { Taken(s, q, o); }
  }

  lemma Taken(s: System, q: Queue, o: Proc)
    requires At(s, q, o) && IsExited(s, o)
    ensures Wake(s, q).woken[WaiterAt(s, q, o)] > 0
  {
    var w := WaitersOf(s, q);
    var out := set x | x in w && IsExited(s, x) :: w[x];
    assert w[o] in out;
  }

  // Whatever happens meanwhile, when it ends the waiters whose children had exited have been woken.
  lemma {:induction false} WaitDelivers(s: System, events: seq<Event>, t: System, q: Queue, o: Proc, r: Waiter)
    requires Inv(s) && Due(s, q, o, r) && Inside(s, events, t)
    ensures Inv(t) && (t.pc.User? ==> t.woken[r] == 1)
    decreases |events|
  {
    if events != [] {
      hide Inv, Due, Enabled, Step;
      var u := Step(s, events[0]);
      StepKeeps(s, events[0]);
      DueKept(s, events[0], q, o, r);
      if events[0].ReapNone? { Ended(u, events[1..], t, r); } else { WaitDelivers(u, events[1..], t, q, o, r); }
    }
  }

  lemma Ended(u: System, events: seq<Event>, t: System, r: Waiter)
    requires Inv(u) && u.pc.User? && u.woken[r] > 0 && Inside(u, events, t)
    ensures Inv(t) && t.woken[r] == 1
  {
    hide Announced, Matched, Outstanding;
  }

  // The case the previous lemma starts from.
  lemma ReadableIsDue(s: System, other: bool, o: Proc)
    requires Inv(s) && Enabled(s, PollReturns(other)) && s.pipe > 0 && o in WaitersOf(s, s.pc.q)
    ensures o in s.pids && Inv(Step(s, PollReturns(other)))
    ensures IsZombie(s, s.pids[o]) ==> Due(Step(s, PollReturns(other)), s.pc.q, o, WaiterAt(s, s.pc.q, o))
  {
    StepKeeps(s, PollReturns(other));
    assert At(s, s.pc.q, o);
  }

  // Once 'poll' finds the pipe readable, the wait ends with every waiter woken whose child had exited then,
  // whatever else happens before it ends.
  lemma PollDelivers(events: seq<Event>, s: System, other: bool, o: Proc, more: seq<Event>, t: System)
    requires Run(START, events, s) && Enabled(s, PollReturns(other)) && s.pipe > 0
    requires o in WaitersOf(s, s.pc.q) && o in s.pids && IsZombie(s, s.pids[o])
    requires Inside(Step(s, PollReturns(other)), more, t) && t.pc.User?
    ensures t.woken[WaiterAt(s, s.pc.q, o)] == 1
  {
    Reached(events, s);
    var u := Step(s, PollReturns(other));
    ReadableIsDue(s, other, o);
    WaitDelivers(u, more, t, s.pc.q, o, WaiterAt(s, s.pc.q, o));
  }
}
