// Upvalues and closures as the source keeps them: lists and cells updated in place.
module Functions {
  import opened Upvalues
  import opened UpvalueProofs
  import opened UpvalueRuns

  // A thread with its stack, its list of open upvalues, and the closures that refer to upvalues.
  class Thread {
    var stack: seq<Value>
    var openUpval: seq<Id>
    var cells: map<Id, UpVal>
    var closures: seq<seq<Id>>
    var next: Id

    function View(): State
      reads this
    {
      State(stack, cells, openUpval, closures, next)
    }

    constructor ()
      ensures View() == EMPTY
    {
      stack, openUpval, cells, closures, next := [], [], map[], [], 0;
    }

    // 'luaF_findupval'
    method FindUpval(level: nat) returns (u: Id)
      requires Inv(View()) && level < |stack|
      modifies this
      ensures (View(), u) == Find(old(View()), level) && Inv(View())
    {
      hide Inv;
      FindKeeps(View(), level);
      ListIsOpen(View());
      var pp := 0;
      while pp < |openUpval| && LevelOf(View(), openUpval[pp]) >= level
        invariant pp <= |openUpval| && View() == old(View())
        invariant PlaceFor(View(), openUpval, level) == pp + PlaceFor(View(), openUpval[pp..], level)
      {
        if LevelOf(View(), openUpval[pp]) == level { return openUpval[pp]; }
        pp := pp + 1;
      }
      u := next;
      cells := cells[u := UpVal(Stack(level), 0, Nil)];
      openUpval := openUpval[..pp] + [u] + openUpval[pp..];
      next := next + 1;
    }

    // 'luaF_close'; the slots from 'level' up are dead afterwards.
    method Close(level: nat)
      requires Inv(View()) && level <= |stack|
      modifies this
      ensures View() == Closed(old(View()), level)
    {
      hide Inv;
      while openUpval != [] && LevelOf(View(), openUpval[0]) >= level
        invariant Inv(View()) && level <= |stack| && Closed(View(), level) == Closed(old(View()), level)
        decreases |openUpval|
      {
        CloseHeadKeeps(View());
        var u := openUpval[0];
        var lev := cells[u].v.level;
        openUpval := openUpval[1..];
        if cells[u].refcount == 0 { cells := cells - {u}; } else { cells := cells[u := UpVal(Own, cells[u].refcount, stack[lev])]; }
        stack := stack[..lev];
      }
      stack := stack[..level];
    }

    // 'luaF_initupvals', for a new closure with n upvalues.
    method InitUpvals(n: nat)
      requires Inv(View())
      modifies this
      ensures View() == Step(old(View()), MainClosure(n))
    {
      hide Inv;
      var c := |closures|;
      closures := closures + [[]];
      ghost var start := View();
      var i := 0;
      while i < n
        invariant i <= n && c < |closures| && Initialized(View(), c, n - i) == Initialized(start, c, n)
      {
        var uv := next;
        cells := cells[uv := UpVal(Own, 1, Nil)];
        next := next + 1;
        closures := closures[c := closures[c] + [uv]];
        i := i + 1;
      }
    }

    // 'pushclosure': 'encup' are the upvalues of the closure 'encl' that runs.
    method PushNewClosure(encl: nat, base: nat, descs: seq<UpvalDesc>) returns (ncl: nat)
      requires Inv(View()) && Enabled(View(), PushClosure(encl, base, descs))
      modifies this
      ensures ncl == old(|closures|) && View() == Step(old(View()), PushClosure(encl, base, descs))
    {
      hide Inv, Find;
      var encup := closures[encl];
      ncl := |closures|;
      closures := closures + [[]];
      ghost var start := View();
      ValuesKeep(old(View()), start);
      var i := 0;
      while i < |descs|
        invariant i <= |descs| && ncl < |closures| && encl < ncl && closures[encl] == encup && |stack| == old(|stack|)
        invariant Inv(View()) && Filled(View(), ncl, encl, base, descs[i..]) == Filled(start, ncl, encl, base, descs)
      {
        ghost var s := View();
        assert descs[i..][0] == descs[i] && descs[i..][1..] == descs[i + 1..];
        CapturedKeeps(s, encl, base, descs[i]);
        var u;
        if descs[i].inStack { u := FindUpval(base + descs[i].idx); } else { u := encup[descs[i].idx]; }
        AttachKeeps(View(), ncl, u);
        closures := closures[ncl := closures[ncl] + [u]];
        cells := cells[u := cells[u].(refcount := cells[u].refcount + 1)];
        i := i + 1;
      }
    }

    // 'luaC_upvdeccount'
    method UpvDecCount(u: Id)
      requires u in cells && cells[u].refcount > 0
      modifies `cells
      ensures cells == if old(cells[u].refcount) == 1 && old(cells[u].v.Own?) then old(cells) - {u}
        else old(cells)[u := old(cells[u]).(refcount := old(cells[u].refcount) - 1)]
    {
      cells := cells[u := cells[u].(refcount := cells[u].refcount - 1)];
      if cells[u].refcount == 0 && !cells[u].v.Stack? { cells := cells - {u}; }
    }

    // 'freeLclosure'
    method FreeLclosure(c: nat)
      requires Inv(View()) && c < |closures|
      modifies `cells, `closures
      ensures View() == Released(old(View()), c)
    {
      hide Inv;
      while closures[c] != []
        invariant Inv(View()) && c < |closures| && Released(View(), c) == Released(old(View()), c)
        invariant stack == old(stack) && openUpval == old(openUpval) && next == old(next)
        decreases |closures[c]|
      {
        DetachKeeps(View(), c);
        var u := closures[c][0];
        UpvDecCount(u);
        closures := closures[c := closures[c][1..]];
      }
    }

    // OP_GETUPVAL and OP_SETUPVAL
    method GetUpvalue(c: nat, i: nat) returns (x: Value)
      requires Inv(View()) && Enabled(View(), GetUpval(c, i))
      ensures [x] == Output(View(), GetUpval(c, i))
    {
      hide Inv;
      ClosuresKnown(View());
      OpenBelowTop(View());
      var u := closures[c][i];
      assert IsOpen(View(), u) <==> cells[u].v.Stack?;
      match cells[u].v
      case Stack(level) => x := stack[level];
      case Own => x := cells[u].value;
    }

    method SetUpvalue(c: nat, i: nat, x: Value)
      requires Inv(View()) && Enabled(View(), SetUpval(c, i, x))
      modifies `stack, `cells
      ensures View() == Step(old(View()), SetUpval(c, i, x))
    {
      hide Inv;
      ClosuresKnown(View());
      OpenBelowTop(View());
      var u := closures[c][i];
      assert IsOpen(View(), u) <==> cells[u].v.Stack?;
      match cells[u].v
      case Stack(level) => stack := stack[level := x];
      case Own => cells := cells[u := cells[u].(value := x)];
    }
  }

  lemma ListIsOpen(s: State)
    requires Inv(s)
    ensures forall i :: 0 <= i < |s.open| ==> IsOpen(s, s.open[i])
  {
  }
}
