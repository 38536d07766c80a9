// What holds over whole runs: no accessible object is freed, and garbage is freed within its cycle.
module GcRuns {
  import opened GcHeap
  import opened GcState
  import opened GcFields
  import opened GcSteps
  import opened GcProofs
  import opened GcMutator

  ghost predicate StepAt(states: seq<St>, events: seq<Event>, i: nat) {
    i < |events| && |states| == |events| + 1 && Next(states[i], events[i], states[i+1])
  }

  // The states of a run, with the event between each and the next.
  ghost predicate Run(states: seq<St>, events: seq<Event>) {
    && |states| == |events| + 1
    && forall i :: 0 <= i < |events| ==> StepAt(states, events, i)
  }

  lemma InitInv(s: St)
    requires Init(s)
    ensures Inv(s)
  {
    assert Slots(s.h, s.main) == [];
    forall r | IsRoot(s, r) ensures Live(s, r) {}
  }

  lemma {:induction false} RunKeeps(states: seq<St>, events: seq<Event>, i: nat)
    requires Run(states, events) && Inv(states[0]) && i < |states|
    ensures Inv(states[i])
  {
    hide Inv, Next;
    if i > 0 {
      RunKeeps(states, events, i - 1);
      assert StepAt(states, events, i - 1);
      NextKeeps(states[i-1], events[i-1], states[i]);
    }
  }

  // ---- safety ----

  lemma AccAreMarked(s: St, m: St, id: Id)
    requires Inv(s) && s.phase.Atomic? && AtomicMarks(s, m) && Acc(s, id)
    ensures Marked(m, id)
  {
    var C := set x | x in m.color && Marked(m, x);
    assert HasRoots(s, C) by { forall r | IsRoot(s, r) ensures r in C { assert IsRoot(m, r); } }
    AccInClosed(s, id, C);
  }

  lemma LiveSurvives(f: St, id: Id)
    requires WellFormed(f) && Safe(f) && Live(f, id)
    ensures id in EnterSweep(f).h.body
  {
    EnterSweepFrees(f);
  }

  lemma AtomicFrees(s: St, s': St, id: Id)
    requires Inv(s) && AtomicStep(s, s') && Acc(s, id)
    ensures id in s'.h.body
  {
    var m :| AtomicMarks(s, m) && s' == EnterSweep(m.(current := !m.current));
    AccAreMarked(s, m, id);
    FlipKeeps(s, m);
    LiveSurvives(m.(current := !m.current), id);
  }

  lemma CollectFrees(s: St, s': St, id: Id)
    requires Inv(s) && CollectorStep(s, s') && Acc(s, id)
    ensures id in s'.h.body
  {
    hide WellFormed, Safe, Tricolor, Sweeping, AllWhite;
    AccessibleIsLive(s, id);
    match s.phase
    case Atomic => AtomicFrees(s, s', id);
    case SwpAllgc => SweepStepFrees(s);
    case _ =>
  }

  lemma ProgramFreesNothing(s: St, e: Event, s': St)
    requires Next(s, e, s') && !e.Collect? && !e.Abort?
    ensures s.h.body.Keys <= s'.h.body.Keys
  {
  }

  // What a step frees, the program could not get at.
  lemma FreedIsGarbage(s: St, e: Event, s': St, id: Id)
    requires Inv(s) && Next(s, e, s') && id in s.h.body && id !in s'.h.body
    ensures !Acc(s, id)
  {
    if Acc(s, id) {
      if e.Collect? {
        CollectFrees(s, s', id);
      } else if e.Abort? {
        AccessibleIsLive(s, id);
        LiveSurvives(s, id);
      } else {
        ProgramFreesNothing(s, e, s');
      }
    }
  }

  lemma SweepStepFrees(s: St)
    requires Inv(s) && s.phase.SwpAllgc?
    ensures SweptFrom(s, SweepStep(s).(phase := s.phase)) && SweepStep(s).phase in {SwpAllgc, SwpFinobj}
  {
    if !s.sweepgc.Off? {
      SweepListKeeps(s, GCSWEEPMAX);
    }
  }

  // No object that is accessible in some state of a run has been freed in it or is freed by the next step.
  lemma Safety(states: seq<St>, events: seq<Event>, i: nat, id: Id)
    requires Run(states, events) && (Init(states[0]) || Inv(states[0])) && i < |states| && Acc(states[i], id)
    ensures id in states[i].h.body
    ensures i < |events| ==> id in states[i+1].h.body
  {
    if Init(states[0]) { InitInv(states[0]); }
    RunKeeps(states, events, i);
    AccessibleIsLive(states[i], id);
    if i < |events| && id !in states[i+1].h.body {
      assert StepAt(states, events, i);
      FreedIsGarbage(states[i], events[i], states[i+1], id);
    }
  }

  // The same in terms of fields: in every state of a run there is a set that has the roots, and all that the
  // fields of its members refer to, of which no member has been freed or is freed by the next step.
  lemma FieldsAreSafe(states: seq<St>, events: seq<Event>, i: nat) returns (C: set<Id>)
    requires Run(states, events) && (Init(states[0]) || Inv(states[0])) && i < |states|
    ensures Encloses(states[i], C) && C <= states[i].h.body.Keys
    ensures i < |events| ==> C <= states[i+1].h.body.Keys
  {
    if Init(states[0]) { InitInv(states[0]); }
    RunKeeps(states, events, i);
    C := Accessible(states[i]);
    forall id | id in C && i < |events| ensures id in states[i+1].h.body { Safety(states, events, i, id); }
  }

  // ---- every cycle frees the garbage it started with ----

  // U is out of the program's reach, unmarked before the flip and dead after it.
  ghost predicate Doomed(s: St, U: set<Id>) {
    && (forall u :: u in U ==> u < s.limit && !IsRoot(s, u))
    && (forall a, b :: a in s.h.body && a !in U && Points(s.h, a, b) ==> b !in U)
    && (forall u :: u in U && u in s.color ==> if KeepInvariant(s) then IsWhite(s, u) else IsDead(s, u))
  }

  ghost function Rescued(s: St, U: set<Id>): set<Id> {
    set id | id in s.color && Live(s, id) && id !in U
  }

  lemma RescuedIsClosed(s: St, U: set<Id>)
    requires Inv(s) && Doomed(s, U)
    ensures ClosedUnder(s.h, Rescued(s, U)) && HasRoots(s, Rescued(s, U))
  {
  }

  lemma AccNotDoomed(s: St, U: set<Id>, id: Id)
    requires Inv(s) && Doomed(s, U) && Acc(s, id)
    ensures id !in U
  {
    RescuedIsClosed(s, U);
    AccInClosed(s, id, Rescued(s, U));
  }

  // A garbage string that is asked for again is garbage no longer.
  function Revived(s: St, e: Event): set<Id> {
    if e.Intern? && e.text in s.strt then {s.strt[e.text]} else {}
  }

  lemma Unmarked(s: St, m: St, C: set<Id>, u: Id)
    requires Within(s, m, C) && u !in C && !Marked(s, u)
    ensures !Marked(m, u)
  {
  }

  lemma PropagateKeepsDoomed(s: St, s': St, U: set<Id>)
    requires Inv(s) && Doomed(s, U) && PropagateStep(s, s')
    ensures Doomed(s', U)
  {
    var m := s'.(phase := Propagate);
    assert From(Taken(s), m, {s.gray[0]});
    PropagateSpares(s, m, U);
    ColorKeepsDoomed(s, s', U);
  }

  lemma PropagateSpares(s: St, m: St, U: set<Id>)
    requires Inv(s) && s.phase.Propagate? && Doomed(s, U) && s.gray != [] && From(Taken(s), m, {s.gray[0]})
    requires Marks(Taken(s), m)
    ensures forall u :: u in U && u in s.color ==> m.color[u] == s.color[u]
  {
    var o := s.gray[0];
    RescuedIsClosed(s, U);
    assert o in s.gray && o in Rescued(s, U);
    assert Within(Taken(s), m, Rescued(s, U));
    forall u | u in U && u in s.color ensures m.color[u] == s.color[u] {
      assert IsWhite(s, u) && Taken(s).color[u] == s.color[u];
      Unmarked(Taken(s), m, Rescued(s, U), u);
    }
  }

  lemma SweptKeepsDoomed(s: St, s': St, U: set<Id>)
    requires Doomed(s, U) && !KeepInvariant(s) && !KeepInvariant(s') && SweptFrom(s, s'.(phase := s.phase))
    ensures Doomed(s', U)
  {
    forall a, b | a in s'.h.body && a !in U && Points(s'.h, a, b) ensures b !in U { assert Points(s.h, a, b); }
    forall u | u in U ensures u < s'.limit && !IsRoot(s', u) { assert !IsRoot(s, u); }
    forall u | u in U && u in s'.color ensures IsDead(s', u) { assert IsDead(s, u); }
  }

  lemma AtomicKeepsDoomed(s: St, s': St, U: set<Id>)
    requires Inv(s) && Doomed(s, U) && AtomicStep(s, s')
    ensures Doomed(s', U)
  {
    var m :| AtomicMarks(s, m) && s' == EnterSweep(m.(current := !m.current));
    FlipDooms(s, m, U);
    FlipKeeps(s, m);
    EnterSweepDooms(m.(current := !m.current), U);
  }

  lemma EnterSweepDooms(f: St, U: set<Id>)
    requires WellFormed(f) && Safe(f) && Doomed(f.(phase := SwpAllgc, sweepgc := AtHead), U)
    ensures Doomed(EnterSweep(f), U)
  {
    EnterSweepFrees(f);
    SweptKeepsDoomed(f.(phase := SwpAllgc, sweepgc := AtHead), EnterSweep(f), U);
  }

  lemma FlipDooms(s: St, m: St, U: set<Id>)
    requires Inv(s) && s.phase.Atomic? && Doomed(s, U) && AtomicMarks(s, m)
    ensures Doomed(m.(current := !m.current, phase := SwpAllgc, sweepgc := AtHead), U)
  {
    var f := m.(current := !m.current, phase := SwpAllgc, sweepgc := AtHead);
    RescuedIsClosed(s, U);
    assert Within(s, m, Rescued(s, U)) by {
      forall id | Marked(s, id) ensures id in Rescued(s, U) { assert Live(s, id); }
    }
    forall u | u in U && u in f.color ensures IsDead(f, u) {
      assert Live(s, u);
      Unmarked(s, m, Rescued(s, U), u);
    }
    forall u | u in U ensures u < f.limit && !IsRoot(f, u) { assert !IsRoot(s, u); }
  }

  lemma PhaseKeepsDoomed(s: St, s': St, U: set<Id>)
    requires Doomed(s, U) && CollectorStep(s, s') && s.phase in {SwpFinobj, SwpTobefnz, SwpEnd}
    ensures Doomed(s', U)
  {
    forall u | u in U ensures u < s'.limit && !IsRoot(s', u) { assert !IsRoot(s, u); }
    assert s'.h == s.h;
    assert forall u :: u in U && u in s'.color ==> IsDead(s, u) && !IsRoot(s, u);
  }

  lemma SweepStepDooms(s: St, U: set<Id>)
    requires Inv(s) && s.phase.SwpAllgc? && Doomed(s, U)
    ensures Doomed(SweepStep(s), U)
  {
    SweepStepFrees(s);
    SweptKeepsDoomed(s, SweepStep(s), U);
  }

  lemma CollectKeepsDoomed(s: St, s': St, U: set<Id>)
    requires Inv(s) && Doomed(s, U) && CollectorStep(s, s') && !s.phase.Pause? && !s.phase.CallFin?
    ensures Doomed(s', U)
  {
    if s.phase.Propagate? {
      PropagateKeepsDoomed(s, s', U);
    } else if s.phase.Atomic? {
      AtomicKeepsDoomed(s, s', U);
    } else if s.phase.SwpAllgc? {
      SweepStepDooms(s, U);
    } else {
      PhaseKeepsDoomed(s, s', U);
    }
  }

  // ---- the program cannot save what it cannot get at ----

  lemma WriteKeepsDoomed(s: St, h': Heap, S: set<Id>, v: Val, U: set<Id>)
    requires Doomed(s, U) && h'.body.Keys == s.h.body.Keys && NewEdges(s.h, h', S, v) && (v.Ref? ==> v.id !in U)
    ensures Doomed(s.(h := h'), U)
  {
    var s' := s.(h := h');
    forall u | u in U ensures u < s'.limit && !IsRoot(s', u) { assert !IsRoot(s, u); }
    forall a, b | a in h'.body && a !in U && Points(h', a, b) ensures b !in U {
      if Points(s.h, a, b) {}
    }
    forall u | u in U && u in s'.color ensures if KeepInvariant(s') then IsWhite(s', u) else IsDead(s', u) {
      assert IsWhite(s, u) || IsDead(s, u);
    }
  }

  // Recolouring objects outside U.
  lemma ColorKeepsDoomed(s: St, s': St, U: set<Id>)
    requires Doomed(s, U) && s' == s.(color := s'.color, gray := s'.gray, grayagain := s'.grayagain, phase := s'.phase)
    requires KeepInvariant(s) == KeepInvariant(s')
    requires s'.color.Keys == s.color.Keys && forall u :: u in U && u in s.color ==> s'.color[u] == s.color[u]
    ensures Doomed(s', U)
  {
    forall u | u in U ensures u < s'.limit && !IsRoot(s', u) { assert !IsRoot(s, u); }
    forall u | u in U && u in s'.color ensures if KeepInvariant(s') then IsWhite(s', u) else IsDead(s', u) {
      assert IsWhite(s, u) || IsDead(s, u);
    }
  }

  lemma MarkKeepsDoomed(s: St, v: Val, s': St, U: set<Id>)
    requires Safe(s) && Doomed(s, U) && MarkedFrom(s, v, s') && (v.Ref? ==> v.id !in U && Live(s, v.id))
    ensures Doomed(s', U)
  {
    var C := Rescued(s, U);
    assert ClosedUnder(s.h, C);
    assert Refs([v]) <= C;
    assert Within(s, s', C);
    forall u | u in U && u in s.color ensures s'.color[u] == s.color[u] {
      if IsWhite(s, u) { Unmarked(s, s', C, u); }
    }
    ColorKeepsDoomed(s, s', U);
  }

  lemma PushKeepsDoomed(s: St, v: Val, U: set<Id>)
    requires Doomed(s, U) && (v.Ref? ==> v.id !in U)
    requires s.main in s.h.body && ListsOk(s.h.body, s.main, s.limit, s.allgc, s.fixedgc)
    ensures Doomed(PushVal(s, v), U)
  {
    StackEdges(s, s.h.stack + [v], v);
    WriteKeepsDoomed(s, s.h.(stack := s.h.stack + [v]), {s.main}, v, U);
  }

  lemma NewObjDooms(s: St, b: Body, U: set<Id>)
    requires WellFormed(s) && Doomed(s, U) && !b.Thread?
    requires forall id :: Ref(id) in Slots(s.h.(body := s.h.body[s.limit := b]), s.limit) ==> id !in U
    ensures Doomed(NewObj(s, b), U)
  {
    var s' := NewObj(s, b);
    assert s.limit !in U;
    forall u | u in U ensures u < s'.limit && !IsRoot(s', u) { assert !IsRoot(s, u); }
    forall x, y | x in s'.h.body && x !in U && Points(s'.h, x, y) ensures y !in U {
      NewObjPoints(s, b, x, y);
    }
    forall u | u in U && u in s'.color ensures if KeepInvariant(s') then IsWhite(s', u) else IsDead(s', u) {
      assert IsWhite(s, u) || IsDead(s, u);
    }
  }

  lemma SubsetDoomed(s: St, U: set<Id>, V: set<Id>)
    requires Doomed(s, U) && V <= U
    requires forall a, b :: a in s.h.body && a in U - V && Points(s.h, a, b) ==> b !in V
    ensures Doomed(s, V)
  {
    forall u | u in V ensures u < s.limit && !IsRoot(s, u) { assert !IsRoot(s, u); }
    forall a, b | a in s.h.body && a !in V && Points(s.h, a, b) ensures b !in V {
      if a in U {} else { assert b !in U; }
    }
  }

  // Asking for a garbage string takes it out of the garbage, and only it: a string refers to nothing.
  lemma InternDooms(s: St, text: string, U: set<Id>)
    requires Inv(s) && Doomed(s, U) && text in s.strt
    ensures Doomed(InternStr(s, text), U - {s.strt[text]})
  {
    var id := s.strt[text];
    var V := U - {id};
    assert Doomed(s, V) by {
      assert Slots(s.h, id) == [] && U - V <= {id};
      SubsetDoomed(s, U, V);
    }
    var s1 := if IsDead(s, id) then s.(color := s.color[id := White(s.current)]) else s;
    ColorKeepsDoomed(s, s1, V);
    PushKeepsDoomed(s1, Ref(id), V);
  }

  lemma NewStringDooms(s: St, text: string, U: set<Id>)
    requires Inv(s) && Doomed(s, U) && text !in s.strt
    ensures Doomed(InternStr(s, text), U)
  {
    var s1 := NewObj(s, Str(text, true));
    NewObjDooms(s, Str(text, true), U);
    var s' := InternStr(s, text);
    assert s' == s1.(strt := s'.strt);
    forall u | u in U ensures u < s'.limit && !IsRoot(s', u) { assert !IsRoot(s1, u); }
    forall u | u in U && u in s'.color ensures if KeepInvariant(s') then IsWhite(s', u) else IsDead(s', u) {
      assert IsWhite(s1, u) || IsDead(s1, u);
    }
  }

  lemma UsableNotDoomed(s: St, v: Val, U: set<Id>)
    requires Inv(s) && CanUse(s, v) && Doomed(s, U)
    ensures v.Ref? ==> v.id !in U && v.id in s.color && Live(s, v.id)
  {
    if v.Ref? { AccNotDoomed(s, U, v.id); AccessibleIsLive(s, v.id); }
  }

  lemma StoreDooms(s: St, o: Id, b: Body, v: Val, back: bool, s': St, U: set<Id>)
    requires Inv(s) && Doomed(s, U) && Next(s, Store(o, b, v, back), s')
    ensures Doomed(s', U)
  {
    StoreEdges(s, o, b, v);
    UsableNotDoomed(s, v, U);
    AccNotDoomed(s, U, o);
    var h' := s.h.(body := s.h.body[o := b]);
    assert s.(h := h') == WithBody(s, o, b);
    WriteKeepsDoomed(s, h', {o}, v, U);
    WriteKeepsSafe(s, h', {o}, v);
    BarrierDooms(WithBody(s, o, b), o, v, back, s', U);
  }

  lemma BarrierDooms(s: St, o: Id, v: Val, back: bool, s': St, U: set<Id>)
    requires Safe(s) && Doomed(s, U) && o !in U && (v.Ref? ==> v.id !in U && Live(s, v.id))
    requires if back then s' == BackBarrier(s, o, v) else ForwardBarrier(s, o, v, s')
    ensures Doomed(s', U)
  {
    if BarrierNeeded(s, o, v) && !back && KeepInvariant(s) {
      MarkKeepsDoomed(s, v, s', U);
    } else {
      ColorKeepsDoomed(s, s', U);
    }
  }

  lemma CellDooms(s: St, c: nat, v: Val, s': St, U: set<Id>)
    requires Inv(s) && Doomed(s, U) && (v.Ref? ==> v.id !in U && Live(s, v.id))
    requires UpvalBarrier(WithCell(s, c, Cell.Closed(v)), v, s')
    ensures Doomed(s', U)
  {
    var h' := s.h.(cells := s.h.cells[c := Cell.Closed(v)]);
    CellEdges(s, c, Cell.Closed(v));
    assert WithCell(s, c, Cell.Closed(v)) == s.(h := h');
    WriteKeepsDoomed(s, h', s.h.body.Keys, v, U);
    if v.Ref? && KeepInvariant(s) {
      WriteKeepsSafe(s, h', s.h.body.Keys, v);
      MarkKeepsDoomed(s.(h := h'), v, s', U);
    }
  }

  lemma StackDooms(s: St, stack: seq<Val>, v: Val, U: set<Id>)
    requires Inv(s) && Doomed(s, U) && (v.Ref? ==> v.id !in U)
    requires forall x :: x in stack ==> x in s.h.stack || x == v
    ensures Doomed(s.(h := s.h.(stack := stack)), U)
  {
    StackEdges(s, stack, v);
    WriteKeepsDoomed(s, s.h.(stack := stack), {s.main}, v, U);
  }

  lemma RerootDooms(s: St, v: Val, s': St, U: set<Id>)
    requires Doomed(s, U) && Rerooted(s, v, s') && (v.Ref? ==> v.id !in U)
    ensures Doomed(s', U)
  {
    forall u | u in U ensures u < s'.limit && !IsRoot(s', u) { assert !IsRoot(s, u); }
    forall u | u in U && u in s'.color ensures if KeepInvariant(s') then IsWhite(s', u) else IsDead(s', u) {
      assert IsWhite(s, u) || IsDead(s, u);
    }
  }

  lemma StackStepDooms(s: St, e: Event, s': St, U: set<Id>)
    requires Inv(s) && Doomed(s, U) && Next(s, e, s') && (e.Push? || e.Pop? || e.SetStack?)
    ensures Doomed(s', U)
  {
    match e
    case Push(v) => UsableNotDoomed(s, v, U); PushKeepsDoomed(s, v, U);
    case Pop => StackDooms(s, s.h.stack[..|s.h.stack| - 1], Plain, U);
    case SetStack(i, v) => UsableNotDoomed(s, v, U); StackDooms(s, s.h.stack[i := v], v, U);
  }

  lemma CellStepDooms(s: St, e: Event, s': St, U: set<Id>)
    requires Inv(s) && Doomed(s, U) && Next(s, e, s') && (e.NewCell? || e.SetCell? || e.CloseCell?)
    ensures Doomed(s', U)
  {
    match e
    case NewCell(c, slot) =>
      CellEdges(s, c, Open(slot));
      WriteKeepsDoomed(s, s.h.(cells := s.h.cells[c := Open(slot)]), s.h.body.Keys, Plain, U);
    case SetCell(c, v) =>
      UsableNotDoomed(s, v, U);
      if s.h.cells[c].Open? { StackDooms(s, s.h.stack[s.h.cells[c].slot := v], v, U); } else { CellDooms(s, c, v, s', U); }
    case CloseCell(c) =>
      var v := s.h.stack[s.h.cells[c].slot];
      if v.Ref? { assert Points(s.h, s.main, v.id); RootAcc(s, s.main); AccStep(s, s.main, v.id); }
      UsableNotDoomed(s, v, U);
      CellDooms(s, c, v, s', U);
  }

  lemma OtherStepDooms(s: St, e: Event, s': St, U: set<Id>)
    requires Inv(s) && Doomed(s, U) && Next(s, e, s') && (e.Alloc? || e.Intern? || e.SetMt? || e.SetRegistry?)
    ensures Doomed(s', U - Revived(s, e))
  {
    match e
    case Alloc(b) =>
      forall id | Ref(id) in Slots(s.h.(body := s.h.body[s.limit := b]), s.limit) ensures id !in U { AccNotDoomed(s, U, id); }
      NewObjDooms(s, b, U);
    case Intern(text) => if text in s.strt { InternDooms(s, text, U); } else { NewStringDooms(s, text, U); }
    case SetMt(_, v) => UsableNotDoomed(s, v, U); RerootDooms(s, v, s', U);
    case SetRegistry(v) => UsableNotDoomed(s, v, U); RerootDooms(s, v, s', U);
  }

  // The steps of one cycle, from the one that starts the marking to the last of the sweep.
  ghost predicate InCycle(s: St, e: Event) {
    !s.phase.Pause? && !s.phase.CallFin? && !e.Abort?
  }

  lemma NextDooms(s: St, e: Event, s': St, U: set<Id>)
    requires Inv(s) && Doomed(s, U) && Next(s, e, s') && InCycle(s, e)
    ensures Doomed(s', U - Revived(s, e))
  {
    if e.Collect? {
      CollectKeepsDoomed(s, s', U);
    } else if e.Push? || e.Pop? || e.SetStack? {
      StackStepDooms(s, e, s', U);
    } else if e.NewCell? || e.SetCell? || e.CloseCell? {
      CellStepDooms(s, e, s', U);
    } else if e.Store? {
      StoreDooms(s, e.o, e.b, e.v, e.back, s', U);
    } else if !e.Fix? {
      OtherStepDooms(s, e, s', U);
    }
    if !e.Intern? { assert U - Revived(s, e) == U; }
  }

  lemma RestartDooms(s: St, s': St, U: set<Id>)
    requires Inv(s) && RestartStep(s, s')
    requires forall u :: u in U <==> u in s.h.body && !Acc(s, u)
    ensures Doomed(s', U)
  {
    var C := set id | id in s.h.body && id !in U;
    AccSetIsClosed(s, C);
    assert Within(s, s'.(phase := Pause), C);
    RestartSpares(s, s'.(phase := Pause), U, C);
    assert s'.limit == s.limit;
    OutsideClosed(s, s', U, C);
  }

  lemma OutsideClosed(s: St, s': St, U: set<Id>, C: set<Id>)
    requires s'.h == s.h && s'.main == s.main && s'.registry == s.registry && s'.mt == s.mt && s'.fixedgc == s.fixedgc
    requires ClosedUnder(s.h, C) && (forall id :: id in s.h.body && id !in U ==> id in C) && U !! C
    requires forall u :: u in U ==> u < s'.limit && !Acc(s, u)
    requires KeepInvariant(s') && forall u :: u in U && u in s'.color ==> IsWhite(s', u)
    ensures Doomed(s', U)
  {
    forall u | u in U ensures !IsRoot(s', u) { if IsRoot(s, u) { RootAcc(s, u); } }
  }

  lemma RestartSpares(s: St, m: St, U: set<Id>, C: set<Id>)
    requires AllWhite(s) && Within(s, m, C) && m.color.Keys == s.color.Keys && U !! C
    requires forall u :: u in U ==> !Acc(s, u)
    ensures forall u :: u in U && u in m.color ==> IsWhite(m, u)
  {
    forall u | u in U && u in m.color ensures IsWhite(m, u) {
      NotFixed(s, u);
      Unmarked(s, m, C, u);
    }
  }

  lemma NotFixed(s: St, u: Id)
    requires AllWhite(s) && u in s.color && !Acc(s, u)
    ensures !Marked(s, u)
  {
    if u in s.fixedgc { assert IsRoot(s, u); RootAcc(s, u); }
  }

  lemma AccSetIsClosed(s: St, C: set<Id>)
    requires Inv(s) && forall u :: u in C <==> u in s.h.body && Acc(s, u)
    ensures ClosedUnder(s.h, C) && HasRoots(s, C)
  {
    forall a, b | a in C && Points(s.h, a, b) ensures b in C { AccStep(s, a, b); AccessibleIsLive(s, b); }
    forall r | IsRoot(s, r) ensures r in C { RootAcc(s, r); AccessibleIsLive(s, r); }
  }

  // A run all of whose states meet the invariant, as those of every run do.
  ghost predicate GoodRun(states: seq<St>, events: seq<Event>) {
    Run(states, events) && forall i :: 0 <= i < |states| ==> InvAt(states, i)
  }

  ghost predicate InvAt(states: seq<St>, i: nat) {
    i < |states| && Inv(states[i])
  }

  lemma RunIsGood(states: seq<St>, events: seq<Event>)
    requires Run(states, events) && Inv(states[0])
    ensures GoodRun(states, events)
  {
    forall i | 0 <= i < |states| ensures InvAt(states, i) { RunKeeps(states, events, i); }
  }

  ghost predicate RevivedIn(states: seq<St>, events: seq<Event>, i: nat, j: nat, id: Id)
    requires Run(states, events) && j <= |events|
  {
    exists k :: i < k < j && id in Revived(states[k], events[k])
  }

  // i is a state in which a new cycle starts; the steps up to j belong to that cycle.
  ghost predicate CycleFrom(states: seq<St>, events: seq<Event>, i: nat, j: nat)
    requires Run(states, events)
  {
    && i < j <= |events| && states[i].phase.Pause? && events[i].Collect?
    && forall k :: i < k < j ==> InCycleAt(states, events, k)
  }

  ghost predicate InCycleAt(states: seq<St>, events: seq<Event>, k: nat) {
    k < |states| && k < |events| && InCycle(states[k], events[k])
  }

  ghost function GarbageAt(s: St): set<Id> {
    set id | id in s.h.body && !Acc(s, id)
  }

  // The garbage of state i that has not been asked for again up to state j.
  ghost function Left(states: seq<St>, events: seq<Event>, i: nat, j: nat): set<Id>
    requires Run(states, events) && i < j <= |events|
  {
    set id | id in GarbageAt(states[i]) && !RevivedIn(states, events, i, j, id)
  }

  lemma LeftStep(states: seq<St>, events: seq<Event>, i: nat, k: nat)
    requires Run(states, events) && i < k < |events|
    ensures Left(states, events, i, k + 1) == Left(states, events, i, k) - Revived(states[k], events[k])
  {
    forall id ensures RevivedIn(states, events, i, k + 1, id) <==>
      RevivedIn(states, events, i, k, id) || id in Revived(states[k], events[k])
    {
      if id in Revived(states[k], events[k]) { assert i < k < k + 1; }
    }
  }

  lemma CycleGoesOn(states: seq<St>, events: seq<Event>, i: nat, k: nat)
    requires GoodRun(states, events) && i < k < |events| && InCycleAt(states, events, k)
    requires Doomed(states[k], Left(states, events, i, k))
    ensures Doomed(states[k+1], Left(states, events, i, k + 1))
  {
    LeftStep(states, events, i, k);
    assert StepAt(states, events, k) && InvAt(states, k);
    NextDooms(states[k], events[k], states[k+1], Left(states, events, i, k));
  }

  lemma CycleDooms(states: seq<St>, events: seq<Event>, i: nat, j: nat)
    requires GoodRun(states, events) && CycleFrom(states, events, i, j)
    ensures Doomed(states[j], Left(states, events, i, j))
  {
    CycleStart(states, events, i);
    var k := i + 1;
    while k < j
      invariant k <= j && Doomed(states[k], Left(states, events, i, k))
    {
      assert InCycleAt(states, events, k);
      CycleGoesOn(states, events, i, k);
      k := k + 1;
    }
  }

  lemma CycleStart(states: seq<St>, events: seq<Event>, i: nat)
    requires GoodRun(states, events) && i < |events| && states[i].phase.Pause? && events[i].Collect?
    ensures Doomed(states[i+1], Left(states, events, i, i + 1))
  {
    assert StepAt(states, events, i) && InvAt(states, i);
    assert Left(states, events, i, i + 1) == GarbageAt(states[i]);
    RestartDooms(states[i], states[i+1], GarbageAt(states[i]));
  }

  // Completeness: what was garbage when the cycle started is gone when the cycle is over,
  // unless it was a short string that the program asked for again.
  lemma GarbageIsFreed(states: seq<St>, events: seq<Event>, i: nat, j: nat, id: Id)
    requires Run(states, events) && (Init(states[0]) || Inv(states[0])) && CycleFrom(states, events, i, j) && states[j].phase.CallFin?
    requires id in states[i].h.body && !Acc(states[i], id)
    ensures id !in states[j].h.body || RevivedIn(states, events, i, j, id)
  {
    if Init(states[0]) { InitInv(states[0]); }
    RunIsGood(states, events);
    assert InvAt(states, j);
    CycleDooms(states, events, i, j);
    if id in states[j].h.body && id in Left(states, events, i, j) {
      assert IsDead(states[j], id);
      DeadIsNotWhole(states[j], id);
    }
  }

  lemma DeadIsNotWhole(s: St, id: Id)
    requires Inv(s) && (s.phase.CallFin? || s.phase.Pause?) && id in s.color
    ensures !IsDead(s, id)
  {
  }

  // ---- giving up a cycle ----

  // After 'entersweep' without a flip nothing is dead, so the sweep frees nothing.
  lemma AbortedSweepFreesNothing(s: St, e: Event, s': St)
    requires Inv(s) && NoDead(s) && SweepPhase(s) && Next(s, e, s') && !e.Abort?
    ensures NoDead(s') && s.h.body.Keys <= s'.h.body.Keys
  {
    NextKeeps(s, e, s');
    if !e.Collect? {
      ProgramFreesNothing(s, e, s');
      ProgramKillsNothing(s, e, s');
    } else if s.phase.SwpAllgc? {
      SweepStepFrees(s);
      forall id | id in s.color ensures !IsDead(s, id) { assert Live(s, id); }
      forall id | id in s'.color ensures Live(s', id) { assert Live(s, id); }
    } else {
      forall id | id in s'.color ensures Live(s', id) { assert Live(s, id); }
    }
  }

  lemma ProgramKillsNothing(s: St, e: Event, s': St)
    requires NoDead(s) && SweepPhase(s) && s.main in s.color && Next(s, e, s') && !e.Collect? && !e.Abort?
    ensures NoDead(s')
  {
    forall id | id in s'.color ensures Live(s', id) {
      if id in s.color { assert Live(s, id); }
    }
  }

  // ---- a full collection ----

  // What a collector step leaves of the heap.
  ghost predicate Shrunk(s: St, s': St) {
    && s'.h == s.h.(body := s'.h.body)
    && (forall id :: id in s'.h.body ==> id in s.h.body && s'.h.body[id] == s.h.body[id])
    && s'.main == s.main && s'.registry == s.registry && s'.mt == s.mt && s'.fixedgc == s.fixedgc
  }

  lemma StepShrinks(s: St, s': St)
    requires Inv(s) && CollectorStep(s, s')
    ensures Shrunk(s, s')
  {
    if s.phase.SwpAllgc? {
      SweepStepFrees(s);
    } else if s.phase.Atomic? {
      AtomicShrinks(s, s');
    } else {
      OthersShrink(s, s');
    }
  }

  lemma ShrunkSelf(s: St)
    ensures Shrunk(s, s)
  {
  }

  lemma SameHeapShrunk(s: St, s': St)
    requires s'.h == s.h && s'.main == s.main && s'.registry == s.registry && s'.mt == s.mt && s'.fixedgc == s.fixedgc
    ensures Shrunk(s, s')
  {
  }

  lemma OthersShrink(s: St, s': St)
    requires CollectorStep(s, s') && !s.phase.SwpAllgc? && !s.phase.Atomic?
    ensures Shrunk(s, s')
  {
    hide Shrunk, AllWhite, RootsMarked, ClosedUnder, HasRoots, Within, From, BlackClosedBut;
    match s.phase
    case Pause => RestartShrinks(s, s');
    case Propagate => PropagateShrinks(s, s');
    case _ => SameHeapShrunk(s, s');
  }

  lemma RestartShrinks(s: St, s': St)
    requires RestartStep(s, s')
    ensures Shrunk(s, s')
  {
  }

  lemma PropagateShrinks(s: St, s': St)
    requires PropagateStep(s, s')
    ensures Shrunk(s, s')
  {
  }

  lemma AtomicShrinks(s: St, s': St)
    requires Inv(s) && AtomicStep(s, s')
    ensures Shrunk(s, s')
  {
    var m :| AtomicMarks(s, m) && s' == EnterSweep(m.(current := !m.current));
    FlipKeeps(s, m);
    EnterSweepFrees(m.(current := !m.current));
  }

  lemma ShrunkPoints(s: St, s': St, a: Id, b: Id)
    requires Shrunk(s, s') && Points(s'.h, a, b)
    ensures Points(s.h, a, b)
  {
  }

  // Freeing garbage changes nothing for the program.
  lemma AccSame(s: St, s': St, id: Id)
    requires Inv(s) && Inv(s') && Shrunk(s, s') && (forall x :: Acc(s, x) ==> x in s'.h.body)
    ensures Acc(s, id) <==> Acc(s', id)
  {
    if Acc(s, id) {
      var C := set x | x in s.h.body && Acc(s', x);
      forall a, b | a in C && Points(s.h, a, b) ensures b in C {
        AccessibleIsLive(s', a);
        assert Points(s'.h, a, b);
        AccStep(s', a, b);
        AccessibleIsLive(s', b);
      }
      forall r | IsRoot(s, r) ensures r in C { assert IsRoot(s', r); RootAcc(s', r); AccessibleIsLive(s', r); }
      AccInClosed(s, id, C);
    }
    if Acc(s', id) {
      AccBack(s, s', id);
    }
  }

  lemma AccBack(s: St, s': St, id: Id)
    requires Inv(s) && Shrunk(s, s') && Acc(s', id)
    ensures Acc(s, id)
  {
    var C := set x | x in s.h.body && Acc(s, x);
    AccSetIsClosed(s, C);
    forall a, b | a in C && Points(s'.h, a, b) ensures b in C { ShrunkPoints(s, s', a, b); }
    forall r | IsRoot(s', r) ensures r in C { assert IsRoot(s, r); }
    AccInClosed(s', id, C);
  }

  lemma StepAccSame(s: St, s': St, id: Id)
    requires Inv(s) && CollectorStep(s, s')
    ensures Acc(s, id) <==> Acc(s', id)
  {
    CollectorKeeps(s, s');
    StepShrinks(s, s');
    forall x | Acc(s, x) ensures x in s'.h.body { CollectFrees(s, s', x); }
    AccSame(s, s', id);
  }

  // The objects the program can get at.
  ghost function AccSet(s: St): iset<Id> {
    iset id | Acc(s, id)
  }

  // Consecutive steps of the collector.
  ghost predicate Steps(states: seq<St>) {
    |states| > 0 && forall i :: 0 < i < |states| ==> CollectorStepAt(states, i)
  }

  ghost predicate CollectorStepAt(states: seq<St>, i: nat) {
    0 < i < |states| && CollectorStep(states[i-1], states[i])
  }

  lemma StepAccSet(s: St, s': St)
    requires Inv(s) && CollectorStep(s, s')
    ensures AccSet(s) == AccSet(s')
  {
    forall id ensures Acc(s, id) <==> Acc(s', id) { StepAccSame(s, s', id); }
  }

  lemma {:induction false} StepsKeepInv(states: seq<St>, k: nat)
    requires Steps(states) && Inv(states[0]) && k < |states|
    ensures InvAt(states, k)
  {
    if k > 0 {
      StepsKeepInv(states, k - 1);
      assert CollectorStepAt(states, k);
      CollectorKeeps(states[k-1], states[k]);
    }
  }

  lemma {:induction false} StepsShrink(states: seq<St>, k: nat)
    requires Steps(states) && Inv(states[0]) && k < |states|
    ensures Shrunk(states[0], states[k]) && AccSet(states[0]) == AccSet(states[k])
  {
    hide Inv, Shrunk, CollectorStep, AccSet;
    ShrunkSelf(states[0]);
    if k > 0 {
      StepsShrink(states, k - 1);
      StepsKeepInv(states, k - 1);
      assert CollectorStepAt(states, k);
      StepShrinks(states[k-1], states[k]);
      ShrunkTransitive(states[0], states[k-1], states[k]);
      StepAccSet(states[k-1], states[k]);
    }
  }

  lemma StepsKeep(states: seq<St>, k: nat)
    requires Steps(states) && Inv(states[0]) && k < |states|
    ensures Inv(states[k]) && Shrunk(states[0], states[k]) && AccSet(states[0]) == AccSet(states[k])
  {
    StepsKeepInv(states, k);
    StepsShrink(states, k);
  }

  function Collects(n: nat): seq<Event> {
    seq(n, _ => Collect)
  }

  // The objects of e are those that were accessible in s.
  ghost predicate Exactly(e: St, s: St) {
    (iset id | id in e.h.body) == AccSet(s)
  }

  lemma StillExactly(s: St, c: St, e: St)
    requires Inv(e) && Shrunk(s, c) && Shrunk(c, e) && Exactly(c, s) && AccSet(s) == AccSet(c) && AccSet(c) == AccSet(e)
    ensures Shrunk(s, e) && Exactly(e, s)
  {
    ShrunkTransitive(s, c, e);
    forall id ensures id in e.h.body <==> id in AccSet(s) {
      if id in AccSet(e) { Kept(e, id); }
      if id in e.h.body { Covered(c, e, s, id); }
    }
  }

  lemma ShrunkTransitive(s: St, c: St, e: St)
    requires Shrunk(s, c) && Shrunk(c, e)
    ensures Shrunk(s, e)
  {
  }

  lemma Kept(e: St, id: Id)
    requires Inv(e) && id in AccSet(e)
    ensures id in e.h.body
  {
    AccessibleIsLive(e, id);
  }

  lemma Covered(c: St, e: St, s: St, id: Id)
    requires Shrunk(c, e) && Exactly(c, s) && id in e.h.body
    ensures id in AccSet(s)
  {
    assert id in (iset x | x in c.h.body);
  }

  // A cycle with nothing in between keeps exactly the accessible objects.
  lemma QuietCycle(states: seq<St>)
    requires Steps(states) && Inv(states[0]) && |states| > 1 && states[0].phase.Pause? && states[|states|-1].phase.CallFin?
    requires forall k :: 0 < k < |states| - 1 ==> !states[k].phase.Pause? && !states[k].phase.CallFin?
    ensures Exactly(states[|states|-1], states[0])
  {
    var e := states[|states|-1];
    var A, B := (iset id | id in e.h.body), AccSet(states[0]);
    forall id ensures id in A <==> id in B {
      if id in B { QuietCycleKeeps(states, id); }
      if id in A { QuietCycleFrees(states, id); }
    }
  }

  lemma QuietCycleKeeps(states: seq<St>, id: Id)
    requires Steps(states) && Inv(states[0]) && id in AccSet(states[0])
    ensures id in states[|states|-1].h.body
  {
    hide Inv, Shrunk, AccSet;
    StepsKeepInv(states, |states| - 1);
    StepsShrink(states, |states| - 1);
    Kept(states[|states|-1], id);
  }

  lemma QuietCycleFrees(states: seq<St>, id: Id)
    requires Steps(states) && Inv(states[0]) && |states| > 1 && states[0].phase.Pause? && states[|states|-1].phase.CallFin?
    requires forall k :: 0 < k < |states| - 1 ==> !states[k].phase.Pause? && !states[k].phase.CallFin?
    requires id in states[|states|-1].h.body
    ensures id in AccSet(states[0])
  {
    var events := Collects(|states| - 1);
    var j := |states| - 1;
    assert Run(states, events) by {
      forall i | 0 <= i < |events| ensures StepAt(states, events, i) { assert CollectorStepAt(states, i + 1); }
      assert |states| == |events| + 1;
    }
    assert id in states[0].h.body by { StepsShrink(states, j); }
    if !Acc(states[0], id) {
      GarbageIsFreed(states, events, 0, j, id);
      NoneRevived(states, events, 0, j, id);
    }
  }

  lemma NoneRevived(states: seq<St>, events: seq<Event>, i: nat, j: nat, id: Id)
    requires Run(states, events) && j <= |events| && forall k :: 0 <= k < |events| ==> events[k].Collect?
    ensures !RevivedIn(states, events, i, j, id)
  {
  }

  // The collector does not come back to rest without finishing the cycle.
  lemma {:induction false} NoRestBefore(states: seq<St>, k: nat)
    requires Steps(states) && k < |states| && !states[0].phase.Pause?
    requires forall i :: 0 <= i < |states| - 1 ==> !states[i].phase.CallFin?
    ensures !states[k].phase.Pause?
  {
    if k > 0 {
      NoRestBefore(states, k - 1);
      assert CollectorStepAt(states, k);
      PhaseAfter(states[k-1], states[k]);
    }
  }

  lemma PhaseAfter(s: St, s': St)
    requires CollectorStep(s, s') && !s.phase.CallFin?
    ensures !s'.phase.Pause?
  {
    if s.phase.SwpAllgc? {
      SweepListPhase(s, GCSWEEPMAX);
    } else if s.phase.Atomic? {
      var m :| AtomicMarks(s, m) && s' == EnterSweep(m.(current := !m.current));
      SweepToLivePhase(m.(current := !m.current, phase := SwpAllgc, sweepgc := AtHead));
    }
  }

  lemma {:induction false} SweepListPhase(s: St, n: nat)
    ensures SweepList(s, n).phase == s.phase
    decreases n
  {
    if Rest(s) == [] {
    } else if n > 0 {
      SweepListPhase(SweepOne(s), n - 1);
    }
  }

  lemma {:induction false} SweepToLivePhase(s: St)
    ensures SweepToLive(s).phase == s.phase
    decreases |s.allgc|
  {
    SweepListPhase(s, 1);
    var s1 := SweepList(s, 1);
    if s1.sweepgc == s.sweepgc && |s1.allgc| < |s.allgc| { SweepToLivePhase(s1); }
  }

  // Giving up a cycle frees nothing.
  lemma AbortKeepsAll(s: St)
    requires Inv(s) && KeepInvariant(s)
    ensures var s' := EnterSweep(s); Inv(s') && s'.h == s.h && Shrunk(s, s') && AccSet(s) == AccSet(s')
  {
    var s' := EnterSweep(s);
    EnterSweepKeeps(s);
    EnterSweepFrees(s);
    assert s'.h.body == s.h.body by {
      forall id | id in s.h.body ensures id in s'.h.body { assert Live(s, id); }
    }
    forall id ensures Acc(s, id) <==> Acc(s', id) {
      forall x | Acc(s, x) ensures x in s'.h.body { AccessibleIsLive(s, x); }
      AccSame(s, s', id);
    }
  }

  lemma StepsJoin(a: seq<St>, b: seq<St>)
    requires Steps(a) && Steps(b) && a[|a|-1] == b[0]
    ensures Steps(a + b[1..])
  {
    var c := a + b[1..];
    forall i | 0 < i < |c| ensures CollectorStepAt(c, i) {
      if i < |a| {
        assert CollectorStepAt(a, i);
      } else {
        assert c[i-1] == b[i - |a|] && c[i] == b[i - |a| + 1] && CollectorStepAt(b, i - |a| + 1);
      }
    }
  }

  // The two runs that make up a cycle: out of the pause, and up to the finalizers.
  lemma TwoRuns(a: seq<St>, b: seq<St>)
    requires Steps(a) && Steps(b) && a[|a|-1] == b[0] && Inv(a[0])
    requires a[0].phase.Pause? && !b[0].phase.Pause? && !b[0].phase.CallFin? && b[|b|-1].phase.CallFin?
    requires forall i :: 0 <= i < |a| - 1 ==> a[i].phase.Pause?
    requires forall i :: 0 <= i < |b| - 1 ==> !b[i].phase.CallFin?
    ensures Exactly(b[|b|-1], a[0])
    ensures Inv(b[|b|-1]) && Shrunk(a[0], b[|b|-1]) && AccSet(a[0]) == AccSet(b[|b|-1])
  {
    hide Inv, Shrunk, AccSet, Exactly;
    var c := a + b[1..];
    StepsJoin(a, b);
    assert c[|c|-1] == b[|b|-1];
    assert |a| == 2 by { assert CollectorStepAt(a, 1); }
    forall k | 0 < k < |c| - 1 ensures !c[k].phase.Pause? && !c[k].phase.CallFin? {
      assert c[k] == b[k-1];
      NoRestBefore(b, k - 1);
    }
    QuietCycle(c);
    StepsKeep(c, |c| - 1);
  }
}
