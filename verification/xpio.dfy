// The loops of xpio that work on the list of processes and on the tables of waiters.
module Xpio {
  import opened ChildWait

  // An XPQueue's table of waiting tasks, and its array of ready ones.
  class XPQueue {
    var childWaiters: map<Proc, Waiter>
    var ready: seq<Waiter>

    // 'XPQueue_wakeChildWaiters': returns the number of tasks that still wait. The order in which a table
    // is traversed is not known.
    method WakeChildWaiters(pids: map<Proc, Pid>) returns (numWaiting: nat)
      modifies this
      ensures childWaiters == map o | o in old(childWaiters) && !(o in pids && pids[o] == 0) :: old(childWaiters)[o]
      ensures numWaiting == |childWaiters|
      ensures exists order: seq<Proc> :: Enumerates(order, old(childWaiters), pids) && ready == old(ready) + Tasks(order, old(childWaiters))
    {
      hide Walked, Tasks, Enumerates, LeftWaiting, Exited;
      ghost var w := childWaiters;
      var left := childWaiters.Keys;
      ghost var order: seq<Proc> := [];
      numWaiting := 0;
      WalkStarts(w, pids);
      while left != {}
        invariant Walked(w, childWaiters, left, order, pids)
        invariant numWaiting == LeftWaiting(childWaiters, left)
        invariant ready == old(ready) + Tasks(order, w)
        decreases |left|
      {
        var o :| o in left;
        WalkGoesOn(w, childWaiters, left, order, pids, o);
        left := left - {o};
        if Exited(pids, o) {
          TasksAppend(order, o, w);
          ready := ready + [childWaiters[o]];
          childWaiters := childWaiters - {o};
          order := order + [o];
        } else {
          numWaiting := numWaiting + 1;
        }
      }
      WalkEnds(w, childWaiters, order, pids);
    }
  }

  predicate Exited(pids: map<Proc, Pid>, o: Proc) { o in pids && pids[o] == 0 }

  ghost function LeftWaiting(now: map<Proc, Waiter>, left: set<Proc>): nat { |now.Keys - left| }

  // With 'left' still to be visited: what is in the table now, and those woken in order.
  ghost predicate Walked(w: map<Proc, Waiter>, now: map<Proc, Waiter>, left: set<Proc>, order: seq<Proc>, pids: map<Proc, Pid>) {
    && left <= w.Keys
    && now == (map o | o in w && (o in left || !Exited(pids, o)) :: w[o])
    && (forall o :: o in order <==> o in w && o !in left && Exited(pids, o))
    && (forall i, j :: 0 <= i < j < |order| ==> order[i] != order[j])
  }

  lemma WalkStarts(w: map<Proc, Waiter>, pids: map<Proc, Pid>)
    ensures Walked(w, w, w.Keys, [], pids) && LeftWaiting(w, w.Keys) == 0 && Tasks([], w) == []
  {
    assert w.Keys - w.Keys == {};
  }

  lemma WalkGoesOn(w: map<Proc, Waiter>, now: map<Proc, Waiter>, left: set<Proc>, order: seq<Proc>, pids: map<Proc, Pid>, o: Proc)
    requires Walked(w, now, left, order, pids) && o in left
    ensures o in now && o in w && now[o] == w[o]
    ensures if Exited(pids, o) then
        Walked(w, now - {o}, left - {o}, order + [o], pids) && LeftWaiting(now - {o}, left - {o}) == LeftWaiting(now, left)
      else
        Walked(w, now, left - {o}, order, pids) && LeftWaiting(now, left - {o}) == LeftWaiting(now, left) + 1
  {
    if Exited(pids, o) {
      assert now - {o} == map x | x in w && (x in left - {o} || !Exited(pids, x)) :: w[x];
      assert o !in order;
      assert (now - {o}).Keys - (left - {o}) == now.Keys - left;
    } else {
      assert now.Keys - (left - {o}) == (now.Keys - left) + {o};
    }
  }

  lemma WalkEnds(w: map<Proc, Waiter>, now: map<Proc, Waiter>, order: seq<Proc>, pids: map<Proc, Pid>)
    requires Walked(w, now, {}, order, pids)
    ensures LeftWaiting(now, {}) == |now|
    ensures Enumerates(order, w, pids) && now == map o | o in w && !(o in pids && pids[o] == 0) :: w[o]
  {
    assert now.Keys - {} == now.Keys;
  }

  ghost predicate Enumerates(order: seq<Proc>, w: map<Proc, Waiter>, pids: map<Proc, Pid>) {
    && (forall o :: o in order <==> o in w && o in pids && pids[o] == 0)
    && (forall i, j :: 0 <= i < j < |order| ==> order[i] != order[j])
  }

  ghost function Tasks(order: seq<Proc>, w: map<Proc, Waiter>): seq<Waiter> {
    seq(|order|, i requires 0 <= i < |order| => if order[i] in w then w[order[i]] else 0)
  }

  lemma TasksAppend(order: seq<Proc>, o: Proc, w: map<Proc, Waiter>)
    requires o in w
    ensures Tasks(order + [o], w) == Tasks(order, w) + [w[o]]
  {
  }

  // What the loop wakes is what the protocol step wakes.
  lemma WakesTheSame(s: System, q: Queue, order: seq<Proc>)
    requires Registered(s) && Enumerates(order, WaitersOf(s, q), s.pids)
    ensures Wake(s, q).woken == s.woken + multiset(Tasks(order, WaitersOf(s, q)))
    ensures forall o :: o in WaitersOf(Wake(s, q), q) <==> o in WaitersOf(s, q) && !(o in s.pids && s.pids[o] == 0)
  {
    var w := WaitersOf(s, q);
    var ts := Tasks(order, w);
    var out := set o | o in w && IsExited(s, o) :: w[o];
    forall i, j | 0 <= i < j < |ts| ensures ts[i] != ts[j] {
      assert At(s, q, order[i]) && At(s, q, order[j]);
      assert WaiterAt(s, q, order[i]) != WaiterAt(s, q, order[j]);
    }
    forall r ensures r in ts <==> r in out {
      if r in out {
        var o :| o in w && IsExited(s, o) && w[o] == r;
        var i :| 0 <= i < |order| && order[i] == o;
        assert ts[i] == r;
      }
      if r in ts {
        var i :| 0 <= i < |ts| && ts[i] == r;
        assert order[i] in order;
        assert w[order[i]] == r;
      }
    }
    DistinctMultiset(ts, out);
  }

  lemma {:induction false} DistinctMultiset(ts: seq<Waiter>, out: set<Waiter>)
    requires (forall r :: r in ts <==> r in out) && forall i, j :: 0 <= i < j < |ts| ==> ts[i] != ts[j]
    ensures multiset(ts) == multiset(out)
  {
    if ts == [] {
      assert out == {};
    } else {
      var n := |ts| - 1;
      var front, last := ts[..n], ts[n];
      assert ts == front + [last];
      forall r ensures r in front <==> r in out - {last} {
        if r in out && r != last {
          var i :| 0 <= i < |ts| && ts[i] == r;
          assert front[i] == r;
        }
      }
      DistinctMultiset(front, out - {last});
      assert multiset(ts) == multiset(front) + multiset{last};
    }
  }

  // The global list of XPProc instances, most recent first.
  class ProcList {
    var procs: seq<Proc>
    var pids: map<Proc, Pid>
    var status: map<Proc, int>

    // The loop of 'xpproc_reap' that finds and updates the object of a reaped process.
    method Update(pid: Pid, st: int) returns (found: bool)
      requires pid > 0 && (forall o :: o in procs <==> o in pids)
      requires forall o, o' :: o in pids && o' in pids && o != o' && pids[o] != 0 ==> pids[o] != pids[o']
      modifies `pids, `status
      ensures pids == Updated(old(pids), pid) && found == IsKnown(old(pids), pid)
      ensures forall o :: o in old(pids) && old(pids)[o] == pid ==> status == old(status)[o := st]
      ensures !found ==> status == old(status)
    {
      found := false;
      var p := 0;
      while p < |procs|
        invariant p <= |procs| && forall i :: 0 <= i < p ==> pids[procs[i]] != pid
      {
        var o := procs[p];
        if pids[o] == pid {
          pids, status := pids[o := 0], status[o := st];
          return true;
        }
        p := p + 1;
      }
      assert forall o :: o in pids ==> pids[o] != pid;
    }
  }
}
