// The program's own steps keep the collector's invariant, and so does every run.
module GcMutator {
  import opened GcHeap
  import opened GcState
  import opened GcSteps
  import opened GcProofs

  lemma UsableIsLive(s: St, v: Val)
    requires Inv(s) && CanUse(s, v)
    ensures v.Ref? ==> v.id in s.h.body && Live(s, v.id)
  {
    if v.Ref? { AccessibleIsLive(s, v.id); }
  }

  // ---- allocation ----

  ghost predicate BodyLive(s: St, b: Body) {
    && !b.Thread?
    && (forall id :: Ref(id) in Slots(s.h.(body := s.h.body[s.limit := b]), s.limit) ==> Live(s, id))
  }

  lemma NewObjPoints(s: St, b: Body, x: Id, y: Id)
    requires s.main in s.h.body && ListsOk(s.h.body, s.main, s.limit, s.allgc, s.fixedgc) && !b.Thread?
    requires Points(NewObj(s, b).h, x, y)
    ensures if x == s.limit then Ref(y) in Slots(s.h.(body := s.h.body[s.limit := b]), s.limit)
            else if x == s.main then y == s.limit || Points(s.h, x, y)
            else Points(s.h, x, y)
  {
    var h := NewObj(s, b).h;
    if x == s.limit {
      assert Slots(h, x) == Slots(s.h.(body := s.h.body[s.limit := b]), s.limit);
    } else if x == s.main {
      assert Ref(y) in s.h.stack || y == s.limit;
    } else {
      assert Slots(h, x) == Slots(s.h, x);
    }
  }

  lemma NewObjSafe(s: St, b: Body)
    requires WellFormed(s) && Safe(s) && BodyLive(s, b)
    ensures Safe(NewObj(s, b))
  {
    var s' := NewObj(s, b);
    forall r | IsRoot(s', r) ensures Live(s', r) { assert IsRoot(s, r) && Live(s, r); }
    forall x, y | Live(s', x) && Points(s'.h, x, y) ensures Live(s', y) {
      NewObjPoints(s, b, x, y);
      if x != s.limit { assert Live(s, x); }
    }
  }

  lemma NewObjRest(s: St, b: Body)
    requires CursorOk(s) && !s.sweepgc.AtHead? && s.limit !in s.allgc
    ensures CursorOk(NewObj(s, b)) && Rest(NewObj(s, b)) == Rest(s)
  {
    var s' := NewObj(s, b);
    if s.sweepgc.After? {
      assert s'.allgc[1..] == s.allgc;
      assert s.limit != s.sweepgc.id;
      assert Find(s'.allgc, s.sweepgc.id) == 1 + Find(s.allgc, s.sweepgc.id);
    }
  }

  lemma NewObjLists(s: St, b: Body)
    requires WellFormed(s)
    requires !b.Thread?
    ensures var s' := NewObj(s, b);
      s'.color.Keys == s'.h.body.Keys && ListsOk(s'.h.body, s'.main, s'.limit, s'.allgc, s'.fixedgc) && CellsOk(s'.h) && FixedGray(s')
  {
    assert s.limit !in s.h.body;
  }

  lemma NewObjTricolor(s: St, b: Body)
    requires WellFormed(s) && Tricolor(s) && BodyLive(s, b)
    ensures Tricolor(NewObj(s, b))
  {
    var s' := NewObj(s, b);
    assert s.limit !in s.h.body;
    forall x, y | x in s'.color && s'.color[x].Black? && Points(s'.h, x, y) ensures Marked(s', y) {
      NewObjPoints(s, b, x, y);
      assert x != s.main;
    }
  }

  // All of the invariant but what concerns the string table.
  ghost predicate InvBut(s: St) {
    && s.color.Keys == s.h.body.Keys
    && ListsOk(s.h.body, s.main, s.limit, s.allgc, s.fixedgc) && CellsOk(s.h) && FixedGray(s)
    && Safe(s)
    && !s.phase.InsideAtomic?
    && (KeepInvariant(s) ==> Tricolor(s))
    && (SweepPhase(s) ==> Sweeping(s))
    && (s.phase.CallFin? || s.phase.Pause? ==> AllWhite(s))
  }

  lemma NewObjKeeps(s: St, b: Body)
    requires Inv(s) && BodyLive(s, b)
    ensures InvBut(NewObj(s, b))
  {
    var s' := NewObj(s, b);
    assert s.limit !in s.h.body && s.limit !in s.allgc;
    NewObjLists(s, b);
    NewObjSafe(s, b);
    if KeepInvariant(s) { NewObjTricolor(s, b); }
    if s.phase.SwpAllgc? { NewObjRest(s, b); }
  }

  lemma AllocKeeps(s: St, b: Body)
    requires Inv(s) && CanUseBody(s, b)
    ensures Inv(NewObj(s, b))
  {
    forall id | Ref(id) in Slots(s.h.(body := s.h.body[s.limit := b]), s.limit) ensures Live(s, id) {
      AccessibleIsLive(s, id);
    }
    NewObjKeeps(s, b);
    assert s.limit !in s.h.body;
  }

  // ---- writes ----

  // The only references that h' has and h has not go from S to v.
  ghost predicate NewEdges(h: Heap, h': Heap, S: set<Id>, v: Val) {
    forall x, y :: Points(h', x, y) ==> Points(h, x, y) || (x in S && Ref(y) == v)
  }

  ghost predicate SameShape(s: St, h': Heap) {
    && h'.body.Keys == s.h.body.Keys && CellsOk(h')
    && (forall id :: id in h'.body && (h'.body[id].Str? || h'.body[id].Thread? || s.h.body[id].Str? || s.h.body[id].Thread?) ==>
          h'.body[id] == s.h.body[id])
  }

  lemma WriteKeepsSafe(s: St, h': Heap, S: set<Id>, v: Val)
    requires WellFormed(s) && Safe(s) && SameShape(s, h') && NewEdges(s.h, h', S, v) && (v.Ref? ==> Live(s, v.id))
    ensures WellFormed(s.(h := h')) && Safe(s.(h := h'))
  {
    var s' := s.(h := h');
    forall r | IsRoot(s', r) ensures Live(s', r) { assert IsRoot(s, r) && Live(s, r); }
    forall x, y | Live(s', x) && Points(h', x, y) ensures Live(s', y) {
      assert Live(s, x);
      if Points(s.h, x, y) { assert Live(s, y); }
    }
  }

  // The conjuncts of the invariant that a write does not touch.
  ghost predicate Around(s: St) {
    && !s.phase.InsideAtomic?
    && (KeepInvariant(s) ==> NoDead(s) && Listed(s) && s.main in s.color && s.color[s.main].Gray? && (s.phase.Propagate? ==> s.gray != []))
    && (SweepPhase(s) ==> Sweeping(s))
    && (s.phase.CallFin? || s.phase.Pause? ==> AllWhite(s))
  }

  lemma WriteKeepsAround(s: St, h': Heap)
    requires Inv(s) && SameShape(s, h')
    ensures Around(s.(h := h'))
  {
    var s' := s.(h := h');
    if KeepInvariant(s) {
      assert NoDead(s') by { assert forall id :: Live(s, id) ==> Live(s', id); }
      ListedKept(s, h');
    }
    if s.phase.SwpAllgc? { assert Rest(s') == Rest(s); }
  }

  lemma ListedKept(s: St, h': Heap)
    requires Listed(s) && SameShape(s, h')
    ensures Listed(s.(h := h'))
  {
    var s' := s.(h := h');
    assert GrayList(s', s.gray) && GrayList(s', s.grayagain);
  }

  // A write that needs no barrier: v is not white, or no object of S is black.
  lemma WriteKeeps(s: St, h': Heap, S: set<Id>, v: Val)
    requires Inv(s) && SameShape(s, h') && NewEdges(s.h, h', S, v) && (v.Ref? ==> Live(s, v.id))
    requires KeepInvariant(s) && v.Ref? && IsWhite(s, v.id) ==> forall x :: x in S ==> x in s.color ==> !s.color[x].Black?
    ensures Inv(s.(h := h'))
  {
    WriteKeepsSafe(s, h', S, v);
    WriteKeepsAround(s, h');
    var s' := s.(h := h');
    if KeepInvariant(s) {
      forall a, b | a in s'.color && s'.color[a].Black? && Points(h', a, b) ensures Marked(s', b) {
        if Points(s.h, a, b) { assert Marked(s, b); } else { assert Live(s, v.id); }
      }
    }
  }

  // While marking, marking v after the write makes up for whatever black object now holds it.
  lemma BlackStaysClosed(s: St, h': Heap, S: set<Id>, v: Val, s': St)
    requires BlackClosedBut(s, {}) && NewEdges(s.h, h', S, v) && MarkedFrom(s.(h := h'), v, s')
    ensures BlackClosedBut(s', {})
  {
    var s1 := s.(h := h');
    forall a, b | a in s'.color && s'.color[a].Black? && Points(h', a, b) ensures Marked(s', b) {
      if Points(s.h, a, b) && s1.color[a] == s'.color[a] {
        assert Marked(s, b);
      } else if s1.color[a] != s'.color[a] {
        assert NewlyBlack(s1, s', a);
      } else {
        assert Ref(b) in [v];
      }
    }
  }

  lemma WriteMarkKeeps(s: St, h': Heap, S: set<Id>, v: Val, s': St)
    requires Inv(s) && KeepInvariant(s) && SameShape(s, h') && NewEdges(s.h, h', S, v) && (v.Ref? ==> Live(s, v.id))
    requires MarkedFrom(s.(h := h'), v, s')
    ensures Inv(s')
  {
    var s1 := s.(h := h');
    WriteKeepsSafe(s, h', S, v);
    WriteKeepsAround(s, h');
    MarksKeepLists(s1, s');
    MarksKeepRest(s1, s');
    BlackStaysClosed(s, h', S, v, s');
    assert s1.color[s.main].Gray?;
    assert s1.gray != [] ==> s1.gray[0] in s'.gray;
  }

  // In a sweep the forward barrier whitens the object that was written to.
  lemma WhitenKeeps(s: St, o: Id)
    requires Inv(s) && SweepPhase(s) && o in s.color && s.color[o].Black?
    ensures Inv(s.(color := s.color[o := White(s.current)]))
  {
    var s' := s.(color := s.color[o := White(s.current)]);
    LiveKept(s, s');
    if s.phase.SwpAllgc? { assert Rest(s') == Rest(s); }
  }

  lemma BackKeepsLists(s: St, o: Id)
    requires Listed(s) && o in s.color && s.color[o].Black? && o in s.h.body && s.h.body[o].Table? && FixedGray(s)
    ensures Listed(s.(color := s.color[o := Gray], grayagain := [o] + s.grayagain))
  {
    var s' := s.(color := s.color[o := Gray], grayagain := [o] + s.grayagain);
    assert o !in s.gray && o !in s.grayagain && o !in s.fixedgc;
    assert forall id :: id in s'.grayagain <==> id == o || id in s.grayagain;
    assert GrayList(s', s'.gray);
    assert NoDups(s'.grayagain);
  }

  // The backward barrier: the table is gray again, so what it holds does not matter.
  lemma WriteBackKeeps(s: St, h': Heap, o: Id, v: Val)
    requires Inv(s) && SameShape(s, h') && NewEdges(s.h, h', {o}, v) && (v.Ref? ==> Live(s, v.id))
    requires o in s.color && s.color[o].Black? && h'.body[o].Table?
    ensures Inv(s.(h := h', color := s.color[o := Gray], grayagain := [o] + s.grayagain))
  {
    var s1 := s.(h := h');
    var s' := s1.(color := s.color[o := Gray], grayagain := [o] + s.grayagain);
    assert WellFormed(s') && Safe(s') by { WriteKeepsSafe(s, h', {o}, v); LiveKept(s1, s'); }
    assert Around(s1) by { WriteKeepsAround(s, h'); }
    if KeepInvariant(s) {
      assert Listed(s') by { BackKeepsLists(s1, o); }
      GrayedBlackClosed(s, h', o, v);
    }
    GrayedAround(s1, o);
  }

  lemma GrayedBlackClosed(s: St, h': Heap, o: Id, v: Val)
    requires BlackClosedBut(s, {}) && NewEdges(s.h, h', {o}, v) && o in s.color && s.color[o].Black?
    ensures BlackClosedBut(s.(h := h', color := s.color[o := Gray], grayagain := [o] + s.grayagain), {})
  {
    var s' := s.(h := h', color := s.color[o := Gray], grayagain := [o] + s.grayagain);
    forall a, b | a in s'.color && s'.color[a].Black? && Points(h', a, b) ensures Marked(s', b) {
      assert Points(s.h, a, b) && Marked(s, b);
    }
  }

  lemma GrayedAround(s: St, o: Id)
    requires Around(s) && o in s.color && s.color[o].Black? && FixedGray(s)
    ensures var s' := s.(color := s.color[o := Gray], grayagain := [o] + s.grayagain);
      && (KeepInvariant(s) ==> NoDead(s') && s'.main in s'.color && s'.color[s'.main].Gray?)
      && (SweepPhase(s) ==> Sweeping(s'))
      && (s.phase.CallFin? || s.phase.Pause? ==> AllWhite(s'))
  {
    var s' := s.(color := s.color[o := Gray], grayagain := [o] + s.grayagain);
    assert Rest(s') == Rest(s);
    if KeepInvariant(s) { assert forall id :: id in s'.color ==> Live(s, id); }
  }

  // ---- the program's steps, one by one ----

  lemma StackEdges(s: St, stack: seq<Val>, v: Val)
    requires s.main in s.h.body && ListsOk(s.h.body, s.main, s.limit, s.allgc, s.fixedgc)
    requires forall x :: x in stack ==> x in s.h.stack || x == v
    ensures NewEdges(s.h, s.h.(stack := stack), {s.main}, v)
  {
    var h' := s.h.(stack := stack);
    forall x, y | Points(h', x, y) ensures Points(s.h, x, y) || (x in {s.main} && Ref(y) == v) {
      if x != s.main { assert Slots(h', x) == Slots(s.h, x); }
    }
  }

  lemma StackKeeps(s: St, stack: seq<Val>, v: Val)
    requires Inv(s) && (v.Ref? ==> Live(s, v.id))
    requires forall x :: x in stack ==> x in s.h.stack || x == v
    requires CellsOk(s.h.(stack := stack))
    ensures Inv(s.(h := s.h.(stack := stack)))
  {
    StackEdges(s, stack, v);
    WriteKeeps(s, s.h.(stack := stack), {s.main}, v);
  }

  lemma PushKeeps(s: St, v: Val)
    requires Inv(s) && (v.Ref? ==> Live(s, v.id))
    ensures Inv(PushVal(s, v))
  {
    StackKeeps(s, s.h.stack + [v], v);
  }

  // A dead string that is asked for again takes the current white and is not freed.
  lemma ResurrectKeeps(s: St, id: Id)
    requires Inv(s) && IsDead(s, id) && s.h.body[id].Str?
    ensures Inv(s.(color := s.color[id := White(s.current)]))
  {
    var s' := s.(color := s.color[id := White(s.current)]);
    forall r | IsRoot(s', r) ensures Live(s', r) { assert IsRoot(s, r) && Live(s, r); }
    forall a, b | Live(s', a) && Points(s'.h, a, b) ensures Live(s', b) {
      assert Live(s, a) && Live(s, b);
    }
    if KeepInvariant(s) { NotDeadWhileMarking(s, id); }
    if s.phase.SwpAllgc? { assert Rest(s') == Rest(s); }
  }

  lemma NotDeadWhileMarking(s: St, id: Id)
    requires NoDead(s) && id in s.color
    ensures !IsDead(s, id)
  {
    assert Live(s, id);
  }

  lemma InternKeeps(s: St, text: string)
    requires Inv(s)
    ensures Inv(InternStr(s, text))
  {
    if text in s.strt {
      var id := s.strt[text];
      var s1 := if IsDead(s, id) then s.(color := s.color[id := White(s.current)]) else s;
      if IsDead(s, id) { ResurrectKeeps(s, id); }
      PushKeeps(s1, Ref(id));
    } else {
      var b := Str(text, true);
      NewObjKeeps(s, b);
      NewStringKeeps(s, text);
    }
  }

  lemma NewStringOk(body: map<Id, Body>, strt: map<string, Id>, id: Id, text: string)
    requires StringsOk(body, strt) && text !in strt && id !in body
    ensures StringsOk(body[id := Str(text, true)], strt[text := id])
  {
  }

  lemma NewStringKeeps(s: St, text: string)
    requires Inv(s) && text !in s.strt && InvBut(NewObj(s, Str(text, true)))
    ensures Inv(InternStr(s, text))
  {
    hide Safe, Tricolor, Sweeping, AllWhite, FixedGray, CellsOk, StringsOk;
    var s1 := NewObj(s, Str(text, true));
    assert s.limit !in s.h.body;
    NewStringOk(s.h.body, s.strt, s.limit, text);
    StrtIrrelevant(s1, s.strt[text := s.limit]);
  }

  lemma StrtIrrelevant(s: St, strt: map<string, Id>)
    requires InvBut(s)
    ensures InvBut(s.(strt := strt))
  {
    hide ListsOk, CellsOk;
    var s' := s.(strt := strt);
    LiveKept(s, s');
    if KeepInvariant(s) { assert NoDead(s') by { assert forall id :: Live(s, id) ==> Live(s', id); } }
    if s.phase.SwpAllgc? { assert Rest(s') == Rest(s); }
  }

  lemma FixKeepsLists(s: St)
    requires WellFormed(s) && Enabled(s, Fix)
    ensures WellFormed(FixHead(s))
  {
    hide StringsOk, CellsOk;
    var s' := FixHead(s);
    var o := s.allgc[0];
    forall id ensures id in s'.allgc <==> id in s.allgc && id != o {
      if id in s.allgc && id != o { var i :| 0 <= i < |s.allgc| && s.allgc[i] == id; assert s'.allgc[i-1] == id; }
      if id in s'.allgc { var i :| 0 <= i < |s'.allgc| && s'.allgc[i] == id; assert s.allgc[i+1] == id; }
    }
    assert forall id :: id in s'.fixedgc <==> id == o || id in s.fixedgc;
  }

  lemma FixKeepsSafe(s: St)
    requires Safe(s) && Enabled(s, Fix)
    ensures Safe(FixHead(s))
  {
    var s' := FixHead(s);
    var o := s.allgc[0];
    forall r | IsRoot(s', r) ensures Live(s', r) { if r != o { assert IsRoot(s, r) && Live(s, r); } }
    forall a, b | Live(s', a) && Points(s'.h, a, b) ensures Live(s', b) {
      if a != o { assert Live(s, a) && Live(s, b); }
    }
  }

  lemma FixKeeps(s: St)
    requires Inv(s) && Enabled(s, Fix)
    ensures Inv(FixHead(s))
  {
    hide WellFormed, Safe;
    FixKeepsLists(s);
    FixKeepsSafe(s);
    var s' := FixHead(s);
    assert forall id :: id in s'.fixedgc <==> id == s.allgc[0] || id in s.fixedgc;
  }

  lemma StoreEdges(s: St, o: Id, b: Body, v: Val)
    requires OneStore(s, o, b, v)
    ensures NewEdges(s.h, s.h.(body := s.h.body[o := b]), {o}, v)
  {
    var h' := s.h.(body := s.h.body[o := b]);
    forall x, y | Points(h', x, y) ensures Points(s.h, x, y) || (x in {o} && Ref(y) == v) {
      if x != o { assert Slots(h', x) == Slots(s.h, x); }
    }
  }

  lemma StoreKeeps(s: St, o: Id, b: Body, v: Val, back: bool, s': St)
    requires Inv(s) && Next(s, Store(o, b, v, back), s')
    ensures Inv(s')
  {
    StoreEdges(s, o, b, v);
    UsableIsLive(s, v);
    var h' := s.h.(body := s.h.body[o := b]);
    var s1 := s.(h := h');
    assert s1 == WithBody(s, o, b);
    if !BarrierNeeded(s1, o, v) {
      WriteKeeps(s, h', {o}, v);
    } else if back {
      WriteBackKeeps(s, h', o, v);
      assert s' == s.(h := h', color := s.color[o := Gray], grayagain := [o] + s.grayagain);
    } else if KeepInvariant(s) {
      WriteMarkKeeps(s, h', {o}, v, s');
    } else {
      WriteKeeps(s, h', {o}, v);
      assert SweepPhase(s1) by { assert !AllWhite(s); }
      WhitenKeeps(s1, o);
    }
  }

  lemma CellEdges(s: St, c: nat, cell: Cell)
    ensures NewEdges(s.h, s.h.(cells := s.h.cells[c := cell]), s.h.body.Keys, if cell.Closed? then cell.v else Plain)
  {
    var h' := s.h.(cells := s.h.cells[c := cell]);
    var v := if cell.Closed? then cell.v else Plain;
    forall x, y | Points(h', x, y) ensures Points(s.h, x, y) || (x in s.h.body.Keys && Ref(y) == v) {
      match s.h.body[x]
      case LClosure(proto, upvals) =>
        if Ref(y) != proto { CellValues(s.h.cells, upvals, c, cell, Ref(y)); }
      case Str(_, _) =>
      case _ => assert Slots(h', x) == Slots(s.h, x);
    }
  }

  lemma CellValues(cells: map<nat, Cell>, upvals: seq<nat>, c: nat, cell: Cell, v: Val)
    requires v.Ref? && v in CellVals(cells[c := cell], upvals)
    ensures v in CellVals(cells, upvals) || (cell.Closed? && v == cell.v)
  {
    var vs := CellVals(cells[c := cell], upvals);
    var i :| 0 <= i < |vs| && vs[i] == v;
    if upvals[i] != c { assert CellVals(cells, upvals)[i] == v; }
  }

  lemma CellKeeps(s: St, c: nat, v: Val, s': St)
    requires Inv(s) && (v.Ref? ==> Live(s, v.id))
    requires UpvalBarrier(WithCell(s, c, Cell.Closed(v)), v, s')
    ensures Inv(s')
  {
    var h' := s.h.(cells := s.h.cells[c := Cell.Closed(v)]);
    CellEdges(s, c, Cell.Closed(v));
    assert WithCell(s, c, Cell.Closed(v)) == s.(h := h');
    if v.Ref? && KeepInvariant(s) {
      WriteMarkKeeps(s, h', s.h.body.Keys, v, s');
    } else {
      WriteKeeps(s, h', s.h.body.Keys, v);
    }
  }

  lemma NewCellKeeps(s: St, c: nat, slot: nat)
    requires Inv(s) && c !in s.h.cells && slot < |s.h.stack|
    ensures Inv(WithCell(s, c, Open(slot)))
  {
    CellEdges(s, c, Open(slot));
    WriteKeeps(s, s.h.(cells := s.h.cells[c := Open(slot)]), s.h.body.Keys, Plain);
  }

  // Roots other than the stack have no barrier: 'atomic' marks them again.
  lemma RerootKeeps(s: St, v: Val, s': St)
    requires Inv(s) && CanUse(s, v) && Rerooted(s, v, s')
    ensures Inv(s')
  {
    UsableIsLive(s, v);
    forall r | IsRoot(s', r) ensures Live(s', r) {
      if Ref(r) != v { assert IsRoot(s, r); }
      assert Live(s, r);
    }
    assert Safe(s') by {
      forall a, b | Live(s', a) && Points(s'.h, a, b) ensures Live(s', b) { assert Live(s, a) && Live(s, b); }
    }
    if KeepInvariant(s) { assert forall id :: Live(s, id) ==> Live(s', id); }
    if s.phase.SwpAllgc? { assert Rest(s') == Rest(s); }
  }

  lemma StackStepKeeps(s: St, e: Event, s': St)
    requires Inv(s) && Next(s, e, s') && (e.Push? || e.Pop? || e.SetStack?)
    ensures Inv(s')
  {
    match e
    case Push(v) => UsableIsLive(s, v); PushKeeps(s, v);
    case Pop => StackKeeps(s, s.h.stack[..|s.h.stack| - 1], Plain);
    case SetStack(i, v) => UsableIsLive(s, v); StackKeeps(s, s.h.stack[i := v], v);
  }

  lemma CellStepKeeps(s: St, e: Event, s': St)
    requires Inv(s) && Next(s, e, s') && (e.NewCell? || e.SetCell? || e.CloseCell?)
    ensures Inv(s')
  {
    match e
    case NewCell(c, slot) => NewCellKeeps(s, c, slot);
    case SetCell(c, v) =>
      UsableIsLive(s, v);
      if s.h.cells[c].Open? { StackKeeps(s, s.h.stack[s.h.cells[c].slot := v], v); } else { CellKeeps(s, c, v, s'); }
    case CloseCell(c) =>
      var v := s.h.stack[s.h.cells[c].slot];
      if v.Ref? { assert Points(s.h, s.main, v.id); RootAcc(s, s.main); AccStep(s, s.main, v.id); AccessibleIsLive(s, v.id); }
      CellKeeps(s, c, v, s');
  }

  lemma OtherStepKeeps(s: St, e: Event, s': St)
    requires Inv(s) && Next(s, e, s') && (e.Alloc? || e.Intern? || e.Fix? || e.SetMt? || e.SetRegistry?)
    ensures Inv(s')
  {
    match e
    case Alloc(b) => AllocKeeps(s, b);
    case Intern(text) => InternKeeps(s, text);
    case Fix => FixKeeps(s);
    case SetMt(_, v) => RerootKeeps(s, v, s');
    case SetRegistry(v) => RerootKeeps(s, v, s');
  }

  lemma CollectorStepKeeps(s: St, e: Event, s': St)
    requires Inv(s) && Next(s, e, s') && (e.Collect? || e.Abort?)
    ensures Inv(s')
  {
    if e.Collect? { CollectorKeeps(s, s'); } else { EnterSweepKeeps(s); }
  }

  lemma NextKeeps(s: St, e: Event, s': St)
    requires Inv(s) && Next(s, e, s')
    ensures Inv(s')
  {
    if e.Collect? || e.Abort? {
      CollectorStepKeeps(s, e, s');
    } else if e.Push? || e.Pop? || e.SetStack? {
      StackStepKeeps(s, e, s');
    } else if e.NewCell? || e.SetCell? || e.CloseCell? {
      CellStepKeeps(s, e, s');
    } else if e.Store? {
      StoreKeeps(s, e.o, e.b, e.v, e.back, s');
    } else {
      OtherStepKeeps(s, e, s');
    }
  }
}
