// Exactly when an exit is announced, when the handler blocks, and when a wait can go on.
module ChildWaitLimits {
  import opened ChildWait

  lemma {:induction false} RunAppend(s: System, a: seq<Event>, t: System, b: seq<Event>, u: System)
    requires Run(s, a, t) && Run(t, b, u)
    ensures Run(s, a + b, u)
    decreases |a|
  {
    hide Step, Enabled;
    if a == [] {
      assert a + b == b;
    } else {
      assert (a + b)[0] == a[0] && (a + b)[1..] == a[1..] + b;
      RunAppend(Step(s, a[0]), a[1..], t, b, u);
    }
  }

  lemma OneStep(s: System, a: seq<Event>, t: System, e: Event)
    requires Run(s, a, t) && Enabled(t, e)
    ensures Run(s, a + [e], Step(t, e))
  {
    hide Step, Enabled;
    var u := Step(t, e);
    assert [e][1..] == [] && Run(u, [], u);
    assert Run(t, [e], u);
    RunAppend(s, a, t, [e], u);
  }

  // ---- exits before the handler is installed ----

  // The process p exits before the first XPProc is made, and its number is not used again afterwards.
  predicate ExitsEarly(events: seq<Event>, p: Pid) {
    events != [] && ((events[0] == Exit(p) && Fork(p) !in events[1..]) || (!events[0].NewProc? && ExitsEarly(events[1..], p)))
  }

  // Once the handler is installed it stays, and no more exits are lost.
  lemma {:induction false} NothingMoreLost(s: System, events: seq<Event>, t: System)
    requires Run(s, events, t) && s.installed
    ensures t.installed && t.lost <= s.lost
    decreases |events|
  {
    if events != [] { NothingMoreLost(Step(s, events[0]), events[1..], t); }
  }

  lemma {:induction false} LostFrom(s: System, events: seq<Event>, t: System, p: Pid)
    requires Run(s, events, t)
    ensures p in t.lost <==> (p in s.lost && Fork(p) !in events) || (!s.installed && ExitsEarly(events, p))
    decreases |events|
  {
    if events != [] {
      var e := events[0];
      assert Fork(p) in events <==> e == Fork(p) || Fork(p) in events[1..];
      LostStep(s, e, p);
      LostFrom(Step(s, e), events[1..], t, p);
    }
  }

  lemma LostStep(s: System, e: Event, p: Pid)
    requires Enabled(s, e)
    ensures Step(s, e).installed == (s.installed || e.NewProc?)
    ensures p in Step(s, e).lost <==> (p in s.lost && e != Fork(p)) || (e == Exit(p) && !s.installed)
  {
  }

  // The exits that are lost are those that come before the first XPProc.
  lemma LostExactly(events: seq<Event>, t: System, p: Pid)
    requires Run(START, events, t)
    ensures p in t.lost <==> ExitsEarly(events, p)
  {
    LostFrom(START, events, t, p);
  }

  // In every interleaving, a child that has exited and is not reaped, and did not exit early, is announced by
  // a pending signal, a byte in the pipe or a reap in progress.
  lemma NoLostExit(events: seq<Event>, t: System, p: Pid)
    requires Run(START, events, t) && IsZombie(t, p) && !ExitsEarly(events, p)
    ensures t.installed && (t.pending || t.pipe > 0 || (t.pc.Draining? && t.pc.received) || t.pc.Reaping?)
  {
    Reached(events, t);
    LostExactly(events, t, p);
  }

  // ---- a full pipe ----

  function Exits(events: seq<Event>): nat {
    if events == [] then 0 else (if events[0].Exit? then 1 else 0) + Exits(events[1..])
  }

  lemma {:induction false} NoExits(events: seq<Event>)
    requires forall i :: 0 <= i < |events| ==> !events[i].Exit?
    ensures Exits(events) == 0
  {
    if events != [] { NoExits(events[1..]); }
  }

  function Deliveries(events: seq<Event>): nat {
    if events == [] then 0 else (if events[0].Deliver? then 1 else 0) + Deliveries(events[1..])
  }

  function Pending(s: System): nat { if s.pending then 1 else 0 }

  // Bytes that the pipe may have to take: with room for all of them the handler never blocks.
  lemma {:induction false} RoomSuffices(s: System, events: seq<Event>, t: System)
    requires Run(s, events, t) && !s.stuck && s.pipe + Pending(s) + Exits(events) <= PIPE_CAPACITY
    ensures !t.stuck
    decreases |events|
  {
    if events != [] { RoomSuffices(Step(s, events[0]), events[1..], t); }
  }

  predicate NoRead(events: seq<Event>) { forall i :: 0 <= i < |events| ==> !events[i].Read? }

  lemma {:induction false} StaysStuck(s: System, events: seq<Event>, t: System)
    requires Run(s, events, t) && s.stuck
    ensures t.stuck && Deliveries(events) == 0
    decreases |events|
  {
    if events != [] { StaysStuck(Step(s, events[0]), events[1..], t); }
  }

  // As long as nobody reads, the handler blocks exactly at the delivery that finds the pipe full.
  lemma {:induction false} StuckExactly(s: System, events: seq<Event>, t: System)
    requires Run(s, events, t) && !s.stuck && s.pipe <= PIPE_CAPACITY && NoRead(events)
    ensures t.stuck <==> s.pipe + Deliveries(events) > PIPE_CAPACITY
    decreases |events|
  {
    if events != [] {
      var u := Step(s, events[0]);
      assert NoRead(events[1..]);
      if u.stuck { StaysStuck(u, events[1..], t); } else { StuckExactly(u, events[1..], t); }
    }
  }

  // Each exit is followed by the delivery of its signal.
  predicate Prompt(events: seq<Event>)
    decreases |events|
  {
    events == [] ||
      if events[0].Exit? then |events| > 1 && events[1].Deliver? && Prompt(events[2..]) else Prompt(events[1..])
  }

  lemma {:induction false} PromptDeliveries(s: System, events: seq<Event>, t: System)
    requires Run(s, events, t) && Prompt(events) && s.installed && !s.pending && !s.stuck
    ensures Deliveries(events) == Exits(events)
    decreases |events|
  {
    if events != [] {
      var u := Step(s, events[0]);
      if events[0].Exit? {
        var v := Step(u, events[1]);
        assert events[1..][0] == events[1] && events[1..][1..] == events[2..];
        assert Run(v, events[2..], t);
        assert Exits(events) == 1 + Exits(events[2..]) && Deliveries(events) == 1 + Deliveries(events[2..]);
        if v.stuck { PromptStuck(v, events[2..], t); } else { PromptDeliveries(v, events[2..], t); }
      } else {
        PromptDeliveries(u, events[1..], t);
      }
    }
  }

  // While the handler is blocked only children go on.
  lemma PromptStuck(s: System, events: seq<Event>, t: System)
    requires Run(s, events, t) && Prompt(events) && s.stuck
    ensures events == []
  {
  }

  // So with each signal delivered and nobody reading, the handler ends blocked exactly when more children
  // exit than the pipe has room for.
  lemma BlocksExactly(s: System, events: seq<Event>, t: System)
    requires Run(s, events, t) && s.installed && !s.pending && !s.stuck && s.pipe <= PIPE_CAPACITY
    requires Prompt(events) && NoRead(events)
    ensures t.stuck <==> s.pipe + Exits(events) > PIPE_CAPACITY
  {
    PromptDeliveries(s, events, t);
    StuckExactly(s, events, t);
  }

  // ---- waits that block ----

  // A wait without a limit and without sockets has somebody to wait for.
  ghost predicate Attended(s: System) {
    s.pc.Polling? && s.pc.infinite && !s.pc.sockets ==> WaitersOf(s, s.pc.q) != map[]
  }

  lemma {:induction false} StaysAttended(s: System, events: seq<Event>, t: System)
    requires Run(s, events, t) && Attended(s)
    ensures Attended(t)
    decreases |events|
  {
    if events != [] {
      AttendedStep(s, events[0]);
      StaysAttended(Step(s, events[0]), events[1..], t);
    }
  }

  lemma AttendedStep(s: System, e: Event)
    requires Enabled(s, e) && Attended(s)
    ensures Attended(Step(s, e))
  {
  }

  ghost predicate Leaves(s: System, events: seq<Event>, t: System) { Run(s, events, t) && Exits(events) == 0 && t.pc != s.pc }

  ghost predicate GoesOn(s: System) { exists events, t :: Leaves(s, events, t) }

  lemma OnlyExits(s: System, e: Event)
    requires s.pc.Polling? && s.pc.infinite && !s.pc.sockets && (s.stuck || (s.pipe == 0 && !s.pending)) && Enabled(s, e)
    ensures e.Exit?
  {
  }

  // An infinite wait without sockets can go on without a further exit exactly when the handler is not blocked
  // and the pipe holds something or a signal is pending.
  lemma GoesOnExactly(events: seq<Event>, s: System)
    requires Run(START, events, s) && s.pc.Polling? && s.pc.infinite && !s.pc.sockets
    ensures GoesOn(s) <==> !s.stuck && (s.pipe > 0 || s.pending)
  {
    StaysAttended(START, events, s);
    if !s.stuck && (s.pipe > 0 || s.pending) {
      var more, t := [], s;
      if s.pipe == 0 {
        OneStep(s, more, t, Deliver);
        more, t := more + [Deliver], Step(t, Deliver);
      }
      OneStep(s, more, t, PollReturns(false));
      more, t := more + [PollReturns(false)], Step(t, PollReturns(false));
      NoExits(more);
      assert Leaves(s, more, t);
    } else if GoesOn(s) {
      var more: seq<Event>, t: System :| Leaves(s, more, t);
      OnlyExits(s, more[0]);
    }
  }

  // No wait blocks while one of its waiters' children has exited, unless that child exited early or more
  // children have exited since s than the pipe has room for: the pipe is polled and readable, or the handler
  // is due and makes it so.
  lemma PollDoesNotBlock(before: seq<Event>, s: System, events: seq<Event>, t: System, o: Proc)
    requires Run(START, before, s) && Run(s, events, t)
    requires !s.stuck && s.pipe + Pending(s) + Exits(events) <= PIPE_CAPACITY
    requires t.pc.Polling? && o in WaitersOf(t, t.pc.q)
    ensures o in t.pids
    ensures IsZombie(t, t.pids[o]) && !ExitsEarly(before + events, t.pids[o]) ==>
      if t.pipe > 0 then Enabled(t, PollReturns(false))
      else Enabled(t, Deliver) && Step(t, Deliver).pc == t.pc && Enabled(Step(t, Deliver), PollReturns(false))
  {
    RunAppend(START, before, s, events, t);
    Reached(before + events, t);
    RoomSuffices(s, events, t);
    assert At(t, t.pc.q, o);
    if IsZombie(t, t.pids[o]) && !ExitsEarly(before + events, t.pids[o]) { NoLostExit(before + events, t, t.pids[o]); }
  }

  // ---- examples ----

  // The first process exits before the handler is installed; the wait for it never ends.
  lemma FirstExitIsLost() returns (events: seq<Event>, t: System)
    ensures Run(START, events, t) && t.pc == Polling(0, true, false) && 0 in WaitersOf(t, 0) && !t.stuck
    ensures 0 in t.pids && IsZombie(t, t.pids[0]) && ExitsEarly(events, t.pids[0])
    ensures forall e :: !Enabled(t, e)
  {
    events, t := [], START;
    OneStep(START, events, t, Fork(1));
    events, t := events + [Fork(1)], Step(t, Fork(1));
    OneStep(START, events, t, Exit(1));
    events, t := events + [Exit(1)], Step(t, Exit(1));
    OneStep(START, events, t, NewProc(0));
    events, t := events + [NewProc(0)], Step(t, NewProc(0));
    OneStep(START, events, t, Enqueue(0, 0));
    events, t := events + [Enqueue(0, 0)], Step(t, Enqueue(0, 0));
    OneStep(START, events, t, Wait(0, true, false));
    assert 0 in WaitersOf(Step(t, Wait(0, true, false)), 0);
    events, t := events + [Wait(0, true, false)], Step(t, Wait(0, true, false));
    LostExactly(events, t, 1);
  }

  // Numbers of processes and objects above b are unused.
  ghost predicate Bounded(s: System, b: nat) {
    (forall p :: p in s.children ==> p <= b) && forall o :: o in s.pids ==> o <= b
  }

  // Between calls, with nothing pending.
  predicate Idle(s: System) { s.pc.User? && !s.stuck && !s.pending }

  // From any such state children can be created and exit until the pipe is full.
  lemma {:induction false} Floods(s: System, b: nat, n: nat) returns (events: seq<Event>, t: System)
    requires Idle(s) && Bounded(s, b) && s.pipe + n <= PIPE_CAPACITY
    ensures Run(s, events, t) && Idle(t) && Bounded(t, b + n) && t.pipe == s.pipe + n
  {
    if n == 0 { return [], s; }
    var e, u := Floods(s, b, n - 1);
    events, t := Dies(s, e, u, b + n);
    OneStep(s, events, t, Deliver);
    events, t := events + [Deliver], Step(t, Deliver);
  }

  // One more child is created and exits.
  lemma Dies(s: System, e: seq<Event>, u: System, b: nat) returns (events: seq<Event>, t: System)
    requires b > 0 && Run(s, e, u) && Idle(u) && Bounded(u, b - 1)
    ensures Run(s, events, t) && t.pending && !t.stuck && t.pc.User? && t.pipe == u.pipe && Bounded(t, b)
  {
    OneStep(s, e, u, Fork(b));
    events, t := e + [Fork(b)], Step(u, Fork(b));
    OneStep(s, events, t, NewProc(b));
    events, t := events + [NewProc(b)], Step(t, NewProc(b));
    OneStep(s, events, t, Exit(b));
    events, t := events + [Exit(b)], Step(t, Exit(b));
  }

  // One more then blocks the handler.
  lemma HandlerMayBlock(s: System, b: nat) returns (events: seq<Event>, t: System)
    requires Idle(s) && Bounded(s, b) && s.pipe <= PIPE_CAPACITY
    ensures Run(s, events, t) && t.stuck
  {
    var e, u := Floods(s, b, PIPE_CAPACITY - s.pipe);
    events, t := Dies(s, e, u, b + (PIPE_CAPACITY - s.pipe) + 1);
    OneStep(s, events, t, Deliver);
    events, t := events + [Deliver], Step(t, Deliver);
  }
}
