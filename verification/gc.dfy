// The collector of lgc.c, as it updates its state in place.
module Gc {
  import opened GcHeap
  import opened GcState
  import opened GcFields
  import opened GcSteps
  import opened GcProofs
  import opened GcMutator
  import opened GcAtomic
  import opened GcRuns

  // Every reference leads to an object that exists.
  ghost predicate NoDangling(h: Heap) {
    forall a, b :: Points(h, a, b) ==> b in h.body
  }

  lemma MarksNothing(s: St)
    ensures Marks(s, s)
  {
  }

  lemma FollowsStep(h: Heap, seeds: set<Id>, a: Id, b: Id)
    requires Follows(h, seeds, a) && Points(h, a, b)
    ensures Follows(h, seeds, b)
  {
  }

  lemma LimitIsNew(s: St)
    requires Inv(s)
    ensures s.limit !in s.h.body && s.main in s.h.body && s.h.body[s.main].Thread?
  {
  }

  lemma PlainTable(s: St, n: nat)
    ensures CanUseBody(s, Table(Plain, seq(n, _ => Plain)))
  {
    assert Slots(s.h.(body := s.h.body[s.limit := Table(Plain, seq(n, _ => Plain))]), s.limit) == [Plain] + seq(n, _ => Plain);
  }

  lemma RegistryAcc(s: St)
    ensures Acc(s, s.main) && (s.registry.Ref? ==> Acc(s, s.registry.id))
  {
    RootAcc(s, s.main);
    if s.registry.Ref? { RootAcc(s, s.registry.id); }
  }

  // The value at the top of the stack can be used.
  lemma StackTopAcc(s: St)
    requires s.main in s.h.body && s.h.body[s.main].Thread? && s.h.stack != [] && s.h.stack[|s.h.stack| - 1].Ref?
    ensures Acc(s, s.h.stack[|s.h.stack| - 1].id)
  {
    var id := s.h.stack[|s.h.stack| - 1].id;
    RootAcc(s, s.main);
    assert Points(s.h, s.main, id);
    AccStep(s, s.main, id);
  }

  // What holds each time 'reallymarkobject' comes to its label with o still to be marked.
  ghost predicate AtReentry(s: St, s1: St, start: Id, o: Id) {
    && MarksBut(s, s1, {o}) && From(s, s1, {start}) && Follows(s.h, {start}, o)
    && (o == start || Marked(s1, start))
  }

  lemma Reentry(s: St, s1: St, s2: St, start: Id, o: Id, next: Val)
    requires AtReentry(s, s1, start, o)
    requires MarksBut(s1, s2, Refs([next])) && Marked(s2, o) && From(s1, s2, {o})
    requires next.Ref? ==> Points(s.h, o, next.id)
    ensures Marked(s2, start)
    ensures next.Ref? ==> AtReentry(s, s2, start, next.id)
    ensures next.Plain? || Marked(s2, next.id) ==> Marks(s, s2) && From(s, s2, {start})
  {
    assert Marked(s2, start);
    FromTransitive(s, s1, s2, {start}, {o});
    MarksTransitive(s, s1, s2, {o}, Refs([next]));
    if next.Ref? {
      FollowsStep(s.h, {start}, o, next.id);
      assert Refs([next]) == {next.id};
      if Marked(s2, next.id) { MarksNothing(s2); MarksTransitive(s, s2, s2, {next.id}, {}); }
    } else {
      assert Refs([next]) == {};
    }
  }

  lemma AtStart(s: St, start: Id)
    ensures AtReentry(s, s, start, start)
  {
  }

  // A string has no references, so it is black at once.
  lemma StringBlackened(s: St, o: Id)
    requires IsWhite(s, o) && o in s.h.body && s.h.body[o].Str?
    ensures Marks(s, s.(color := s.color[o := Black]))
  {
    assert Slots(s.h, o) == [];
  }

  lemma GrayLinked(s: St, o: Id)
    requires IsWhite(s, o) && o in s.h.body && !s.h.body[o].Str?
    ensures Marks(s, s.(color := s.color[o := Gray], gray := [o] + s.gray))
  {
    var s' := s.(color := s.color[o := Gray], gray := [o] + s.gray);
    assert forall id :: id in s'.gray <==> id == o || id in s.gray;
    assert (forall id :: id in s.gray ==> Marked(s, id)) ==> o !in s.gray;
  }

  lemma UdataColors(s: St, o: Id, s2: St)
    requires IsWhite(s, o) && Marks(s.(color := s.color[o := Gray]), s2)
    ensures var g, s3 := s.(color := s.color[o := Gray]), s2.(color := s2.color[o := Black]);
      && (forall id :: NewlyGray(s, s3, id) <==> NewlyGray(g, s2, id))
      && (forall id :: NewlyBlack(s, s3, id) && id != o ==> NewlyBlack(g, s2, id))
  {
  }

  // A userdata turns black when its metatable is marked; what is left to do is its user value.
  lemma UdataBlackened(s: St, o: Id, s2: St)
    requires IsWhite(s, o) && o in s.h.body && s.h.body[o].Udata?
    requires Marks(s.(color := s.color[o := Gray]), s2)
    requires s.h.body[o].meta.Ref? ==> Marked(s2, s.h.body[o].meta.id)
    ensures MarksBut(s, s2.(color := s2.color[o := Black]), Refs([s.h.body[o].user]))
  {
    var g := s.(color := s.color[o := Gray]);
    var s3 := s2.(color := s2.color[o := Black]);
    UdataColors(s, o, s2);
    forall a, b | NewlyBlack(s, s3, a) && Points(s.h, a, b) ensures Marked(s3, b) || b in Refs([s.h.body[o].user]) {
      if a == o {
        assert Ref(b) == s.h.body[o].meta || Ref(b) == s.h.body[o].user;
      }
    }
  }

  lemma MarksNone(s: St, seeds: set<Id>)
    ensures MarkStep(s, [], seeds, s)
  {
  }

  lemma SlotsExist(h: Heap, o: Id)
    requires NoDangling(h) && o in h.body
    ensures Refs(Slots(h, o)) <= h.body.Keys
  {
    forall id | id in Refs(Slots(h, o)) ensures id in h.body { assert Points(h, o, id); }
  }

  // What an object holds follows from the object itself; the stack follows from the main thread.
  lemma SeedsOf(s: St, o: Id, s': St)
    requires o in s.h.body && s.main in s.h.body && s.h.body[s.main].Thread?
    requires MarkStep(s, Slots(s.h, o), Refs(Slots(s.h, o)) + (if s.phase.InsideAtomic? then Refs(s.h.stack) else {}), s')
    ensures MarkStep(s, Slots(s.h, o), {o} + (if s.phase.InsideAtomic? then {s.main} else {}), s')
  {
    var seeds := {o} + (if s.phase.InsideAtomic? then {s.main} else {});
    forall C: set<Id> | ClosedUnder(s.h, C) && seeds <= C ensures Within(s, s', C) {
      forall id | id in Refs(Slots(s.h, o)) ensures id in C { assert Points(s.h, o, id); }
      if s.phase.InsideAtomic? {
        forall id | id in Refs(s.h.stack) ensures id in C { assert Points(s.h, s.main, id); }
      }
    }
  }

  function RootVals(s: St): seq<Val> {
    [Ref(s.main), s.registry] + s.mt
  }

  lemma RootsAre(s: St)
    requires FixedGray(s)
    ensures AllMarked(s, RootVals(s)) ==> RootsMarked(s)
    ensures forall id :: id in Refs(RootVals(s)) ==> IsRoot(s, id)
  {
    if AllMarked(s, RootVals(s)) {
      forall r | IsRoot(s, r) ensures Marked(s, r) {
        if r == s.main { assert Ref(r) in RootVals(s); }
        else if s.registry == Ref(r) { assert s.registry in RootVals(s); }
        else if Ref(r) in s.mt { assert Ref(r) in RootVals(s); }
      }
    }
  }

  lemma CellValAt(cells: map<nat, Cell>, upvals: seq<nat>, i: nat)
    requires i < |upvals|
    ensures |CellVals(cells, upvals)| == |upvals| && CellVals(cells, upvals)[i] == CellVal(cells, upvals[i])
    ensures Refs([CellVal(cells, upvals[i])]) <= Refs(CellVals(cells, upvals))
  {
    assert CellVals(cells, upvals)[i] in CellVals(cells, upvals);
  }

  lemma SameColored(s: St, vs: seq<Val>, seeds: set<Id>, s': St)
    requires MarkStep(s, vs, seeds, s')
    ensures s'.color.Keys == s.color.Keys
  {
  }

  lemma MoreSeeds(s: St, vs: seq<Val>, seeds: set<Id>, more: set<Id>, s': St)
    requires MarkStep(s, vs, seeds, s') && seeds <= more
    ensures MarkStep(s, vs, more, s')
  {
  }

  ghost predicate RootsIn(s: St, seeds: set<Id>) {
    s.main in seeds && Refs(RootVals(s)) <= seeds && seeds <= s.h.body.Keys
  }

  lemma RootsAreSeeds(s: St)
    requires Inv(s)
    ensures RootsIn(s, Seeds(s.(phase := InsideAtomic)))
  {
    RootsAre(s);
    assert IsRoot(s, s.main);
    forall id | id in Refs(RootVals(s)) ensures id in Seeds(s.(phase := InsideAtomic)) { assert IsRoot(s, id) && Live(s, id); }
  }

  // The state between the two passes of 'atomic', with 'grayagain' still to be traversed.
  ghost predicate Doubled(s: St, d: St) {
    var e := d.(gray := d.grayagain);
    && RootsMarked(d) && From(s, d, Seeds(s)) && Grown(s, e)
    && Marking(e, {d.main} + Elems(d.fixedgc)) && MainDone(e)
    && forall id :: id in d.grayagain ==> Follows(d.h, Seeds(s), id)
  }

  lemma SweepListTurn(s: St, n: nat)
    ensures SweepList(s, n) ==
      if Rest(s) == [] then s.(sweepgc := Off) else if n == 0 then s else SweepList(SweepOne(s), n - 1)
    ensures Rest(s) != [] ==>
      SweepOne(s) == (if IsDead(s, Rest(s)[0]) then Free(s, Rest(s)[0])
                      else s.(color := s.color[Rest(s)[0] := White(s.current)], sweepgc := After(Rest(s)[0])))
  {
  }

  // A sweep of one element from the list header: either the header is left, or an object is freed.
  lemma SweepOnceAtHead(s: St)
    requires SweepOk(s) && s.sweepgc.AtHead?
    ensures var s1 := SweepList(s, 1);
      if s1.sweepgc.AtHead? then SweepOk(s1) && |s1.allgc| < |s.allgc| && SweepToLive(s) == SweepToLive(s1)
      else SweepToLive(s) == s1
  {
    SweepListKeeps(s, 1);
    if SweepList(s, 1).sweepgc.AtHead? {
      WithoutIs(s.allgc, 0);
    }
  }

  // What is left is the smallest set that has the roots and all that its members' fields refer to.
  lemma ExactlyEncloses(s: St, s': St)
    requires Inv(s) && Inv(s') && s'.phase.Pause? && Exactly(s', s)
    ensures Encloses(s', s'.h.body.Keys)
    ensures forall C: set<Id> :: Encloses(s, C) ==> s'.h.body.Keys <= C
  {
    hide Inv, Encloses, Acc, AccSet;
    NothingDangles(s');
    AccSetHas(s);
    assert forall id :: id in s'.h.body ==> id in iset id | id in s'.h.body;
    forall C: set<Id> | Encloses(s, C) ensures s'.h.body.Keys <= C {
      forall id | id in s'.h.body ensures id in C {
        assert id in AccSet(s);
        AccIsLeast(s, id);
      }
    }
  }

  lemma AccSetHas(s: St)
    ensures forall id :: id in AccSet(s) <==> Acc(s, id)
  {
  }

  // Between cycles every object is live.
  lemma NothingDangles(s: St)
    requires Inv(s) && s.phase.Pause?
    ensures Encloses(s, s.h.body.Keys)
  {
    assert forall id :: id in s.h.body ==> Live(s, id);
    EnclosesIsClosed(s, s.h.body.Keys);
  }

  lemma PauseIsSound(s: St)
    requires Inv(s) && s.phase.Pause?
    ensures Sound(s)
  {
    LiveTargets(s);
  }

  lemma RootsExist(s: St)
    requires Safe(s) && FixedGray(s) && s.color.Keys == s.h.body.Keys
    ensures Refs(RootVals(s)) <= s.h.body.Keys
  {
    RootsAre(s);
    forall id | id in Refs(RootVals(s)) ensures id in s.h.body { assert IsRoot(s, id) && Live(s, id); }
  }

  lemma RestartDone(s: St, m: St)
    requires Inv(s) && s.phase.Pause?
    requires var s0 := s.(gray := [], grayagain := []); MarkStep(s0, RootVals(s0), Refs(RootVals(s0)), m)
    ensures RestartStep(s, m.(phase := Propagate))
  {
    var s0 := s.(gray := [], grayagain := []);
    var s' := m.(phase := Propagate);
    assert m == s'.(phase := Pause);
    RootsAre(s0);
    MarksGrow(s0, m);
    RootsAre(m);
    assert RootVals(s0) == RootVals(m);
    forall C: set<Id> | ClosedUnder(s.h, C) && HasRoots(s, C) ensures Within(s, m, C) {
      forall id | id in Refs(RootVals(s0)) ensures id in C { assert IsRoot(s, id); }
      assert Within(s0, m, C);
      forall id | Marked(m, id) ensures Marked(s, id) || id in C { assert Marked(s0, id) <==> Marked(s, id); }
    }
  }

  function NextPhase(p: Phase): Phase {
    match p
    case Pause => Propagate
    case Propagate => Atomic
    case Atomic => SwpAllgc
    case InsideAtomic => SwpAllgc
    case SwpAllgc => SwpFinobj
    case SwpFinobj => SwpTobefnz
    case SwpTobefnz => SwpEnd
    case SwpEnd => CallFin
    case CallFin => Pause
  }

  function Order(p: Phase): nat {
    match p
    case Propagate => 0
    case Atomic => 1
    case InsideAtomic => 1
    case SwpAllgc => 2
    case SwpFinobj => 3
    case SwpTobefnz => 4
    case SwpEnd => 5
    case CallFin => 6
    case Pause => 7
  }

  // How many phases are ahead until q.
  function Ahead(p: Phase, q: Phase): nat {
    if Order(q) >= Order(p) then Order(q) - Order(p) else Order(q) + 8 - Order(p)
  }

  lemma AheadDrops(p: Phase, q: Phase)
    requires p != q && p != InsideAtomic && q != InsideAtomic
    ensures Ahead(NextPhase(p), q) == Ahead(p, q) - 1
  {
  }

  // The work left in a phase.
  ghost function LeftWhites(s: St): set<Id> { if s.phase.Propagate? then Whites(s) else {} }

  ghost function LeftGray(s: St): set<Id> { if s.phase.Propagate? then Elems(s.gray) else {} }

  ghost function LeftRest(s: St): nat { if s.phase.SwpAllgc? then |Rest(s)| else 0 }

  // Each step either goes to the next phase or leaves less work in this one.
  lemma StepProgress(s: St, s': St)
    requires Inv(s) && CollectorStep(s, s')
    ensures s'.phase == NextPhase(s.phase) ||
      (s'.phase == s.phase && (LeftWhites(s') < LeftWhites(s) ||
        (LeftWhites(s') == LeftWhites(s) && (LeftGray(s') < LeftGray(s) ||
          (LeftGray(s') == LeftGray(s) && LeftRest(s') < LeftRest(s))))))
  {
    match s.phase
    case Propagate => PropagateProgress(s, s');
    case SwpAllgc => SweepProgress(s);
    case Atomic =>
      var m :| AtomicMarks(s, m) && s' == EnterSweep(m.(current := !m.current));
      SweepToLivePhase(m.(current := !m.current, phase := SwpAllgc, sweepgc := AtHead));
    case _ =>
  }

  lemma PropagateProgress(s: St, s': St)
    requires Inv(s) && PropagateStep(s, s')
    ensures s'.phase.Atomic? ||
      (s'.phase.Propagate? && (Whites(s') < Whites(s) || (Whites(s') == Whites(s) && Elems(s'.gray) < Elems(s.gray))))
  {
    LiveTargets(s);
    assert Marking(s, Again(s)) by {
      forall id | id in s.color && s.color[id].Gray? ensures id in s.gray || id in Again(s) {
        assert id in s.gray || id in Elems(s.grayagain) || id in Elems(s.fixedgc);
      }
    }
    OneShrinks(s, s'.(phase := Propagate), Again(s));
    assert Whites(s') == Whites(s'.(phase := Propagate));
  }

  lemma SweepProgress(s: St)
    requires Inv(s) && s.phase.SwpAllgc?
    ensures SweepStep(s).phase.SwpFinobj? || (SweepStep(s).phase.SwpAllgc? && |Rest(SweepStep(s))| < |Rest(s)|)
  {
    if !s.sweepgc.Off? {
      SweepListKeeps(s, GCSWEEPMAX);
      SweepListPhase(s, GCSWEEPMAX);
    }
  }

  lemma OutOfPause(t: seq<St>)
    requires Steps(t) && Inv(t[0]) && t[0].phase.Pause? && !t[|t|-1].phase.Pause?
    requires forall i :: 0 <= i < |t| - 1 ==> t[i].phase !in {Propagate, Atomic, SwpAllgc, SwpFinobj, SwpTobefnz, SwpEnd, CallFin}
    ensures t[|t|-1].phase.Propagate? && forall i :: 0 <= i < |t| - 1 ==> t[i].phase.Pause?
  {
    forall i | 0 <= i < |t| - 1 ensures t[i].phase.Pause? { StepsKeep(t, i); }
    assert CollectorStepAt(t, |t| - 1);
  }

  lemma SlotStored(s: St, t: Id, i: nat, v: Val)
    requires t in s.h.body && s.h.body[t].Table? && i < |s.h.body[t].slots|
    ensures OneStore(s, t, Table(s.h.body[t].meta, s.h.body[t].slots[i := v]), v)
  {
  }

  lemma MetaStored(s: St, o: Id, b: Body, mt: Val)
    requires o in s.h.body && (s.h.body[o].Table? || s.h.body[o].Udata?)
    requires b == if s.h.body[o].Table? then Table(mt, s.h.body[o].slots) else Udata(mt, s.h.body[o].user)
    ensures OneStore(s, o, b, mt)
  {
  }

  // While marking, nothing that exists refers to an object that does not.
  lemma StoreStaysSound(s: St, o: Id, b: Body, v: Val)
    requires Inv(s) && KeepInvariant(s) && CanUse(s, v) && OneStore(s, o, b, v)
    ensures NoDangling(WithBody(s, o, b).h) && WithBody(s, o, b).h.body.Keys == s.h.body.Keys
  {
    LiveTargets(s);
    StoreEdges(s, o, b, v);
    UsableIsLive(s, v);
    var h' := WithBody(s, o, b).h;
    forall x, y | Points(h', x, y) ensures y in h'.body { assert Points(s.h, x, y) || Ref(y) == v; }
  }

  lemma CellStaysSound(s: St, c: nat, v: Val)
    requires Inv(s) && KeepInvariant(s) && (v.Ref? ==> v.id in s.h.body)
    ensures NoDangling(WithCell(s, c, Cell.Closed(v)).h)
  {
    LiveTargets(s);
    CellEdges(s, c, Cell.Closed(v));
    var h' := WithCell(s, c, Cell.Closed(v)).h;
    forall x, y | Points(h', x, y) ensures y in h'.body { assert Points(s.h, x, y) || Ref(y) == v; }
  }

  lemma StackIsLive(s: St, i: nat)
    requires Safe(s) && s.main in s.h.body && s.h.body[s.main].Thread? && s.color.Keys == s.h.body.Keys && i < |s.h.stack|
    ensures s.h.stack[i].Ref? ==> s.h.stack[i].id in s.h.body
  {
    if s.h.stack[i].Ref? {
      assert Points(s.h, s.main, s.h.stack[i].id) && IsRoot(s, s.main);
      assert Live(s, s.main) && Live(s, s.h.stack[i].id);
    }
  }

  // The states on the way from s to e, none but the last in a phase of 'stop'.
  ghost predicate Trace(t: seq<St>, s: St, e: St, stop: set<Phase>) {
    Steps(t) && t[0] == s && t[|t|-1] == e && forall i :: 0 <= i < |t| - 1 ==> t[i].phase !in stop
  }

  lemma TraceGrows(t: seq<St>, s: St, e: St, e': St, stop: set<Phase>)
    requires Trace(t, s, e, stop) && e.phase !in stop && CollectorStep(e, e')
    ensures Trace(t + [e'], s, e', stop)
  {
    var t' := t + [e'];
    forall i | 0 < i < |t'| ensures CollectorStepAt(t', i) {
      if i < |t| { assert CollectorStepAt(t, i); }
    }
  }

  class Collector {
    var body: map<Id, Body>
    var cells: map<nat, Cell>
    var stack: seq<Val>
    var color: map<Id, Color>
    var limit: Id
    var mainthread: Id
    var registry: Val
    var mt: seq<Val>
    var strt: map<string, Id>
    var allgc: seq<Id>
    var fixedgc: seq<Id>
    var gray: seq<Id>
    var grayagain: seq<Id>
    var gcstate: Phase
    var currentwhite: bool
    var sweepgc: Cursor

    function View(): St
      reads this
    {
      St(Heap(body, cells, stack), color, limit, mainthread, registry, mt, strt, allgc, fixedgc,
         gray, grayagain, gcstate, currentwhite, sweepgc)
    }

    // The state that 'lua_newstate' leaves, before the registry exists.
    constructor (main: Id)
      ensures Init(View())
    {
      body, cells, stack := map[main := Thread], map[], [];
      color := map[main := White(false)];
      limit, mainthread, registry, mt := main + 1, main, Plain, seq(9, _ => Plain);
      strt, allgc, fixedgc, gray, grayagain := map[], [], [], [], [];
      gcstate, currentwhite, sweepgc := Pause, false, Off;
    }

    // The first part of the case of a userdata in 'reallymarkobject'.
    method MarkUdata(o: Id)
      requires color.Keys == body.Keys && NoDangling(View().h) && IsWhite(View(), o) && body[o].Udata?
      modifies this`color, this`gray
      ensures MarksBut(old(View()), View(), Refs([body[o].user])) && Marked(View(), o)
      ensures From(old(View()), View(), {o})
      ensures Whites(View()) < old(Whites(View()))
      decreases Whites(View()), 0
    {
      var meta := body[o].meta;
      assert Slots(View().h, o) == [meta, body[o].user];
      color := color[o := Gray];
      ghost var g := View();
      assert Whites(g) < old(Whites(View())) by { assert o in old(Whites(View())) && o !in Whites(g); }
      assert meta.Ref? ==> Points(View().h, o, meta.id);
      if meta.Ref? && color[meta.id].White? {
        ReallyMarkObject(meta.id);
      } else {
        MarksNothing(g);
      }
      ghost var s2 := View();
      color := color[o := Black];
      UdataBlackened(old(View()), o, s2);
      assert View() == s2.(color := s2.color[o := Black]);
    }

    // The switch of 'reallymarkobject'. What is left to be marked is a userdata's user value.
    method MarkSwitch(o: Id) returns (next: Val)
      requires color.Keys == body.Keys && NoDangling(View().h) && IsWhite(View(), o)
      modifies this`color, this`gray
      ensures MarksBut(old(View()), View(), Refs([next])) && Marked(View(), o)
      ensures next.Ref? ==> Points(View().h, o, next.id)
      ensures From(old(View()), View(), {o})
      ensures Whites(View()) < old(Whites(View()))
      decreases Whites(View()), 1
    {
      ghost var s1 := View();
      next := Plain;
      if body[o].Udata? {
        MarkUdata(o);
        next := body[o].user;
        assert Slots(View().h, o) == [body[o].meta, next];
      } else if body[o].Str? {
        color := color[o := Black];
        StringBlackened(s1, o);
      } else {
        color := color[o := Gray];
        gray := [o] + gray;
        GrayLinked(s1, o);
      }
      assert o in Whites(s1) && o !in Whites(View());
    }

    // 'reallymarkobject'.
    method ReallyMarkObject(start: Id)
      requires color.Keys == body.Keys && NoDangling(View().h) && IsWhite(View(), start)
      modifies this`color, this`gray
      ensures Marks(old(View()), View()) && Marked(View(), start)
      ensures From(old(View()), View(), {start})
      decreases Whites(View()), 2
    {
      var o := start;
      AtStart(View(), start);
      while true
        invariant AtReentry(old(View()), View(), start, o) && IsWhite(View(), o)
        invariant View().h == old(View().h) && color.Keys == old(color.Keys) && Whites(View()) <= old(Whites(View()))
        decreases Whites(View())
      {
        ghost var s1 := View();
        var next := MarkSwitch(o);
        Reentry(old(View()), s1, View(), start, o, next);
        if next.Plain? || !color[next.id].White? {
          return;
        }
        o := next.id;
      }
    }

    // The macro 'markvalue'.
    method MarkValue(v: Val)
      requires color.Keys == body.Keys && NoDangling(View().h) && (v.Ref? ==> v.id in body)
      modifies this`color, this`gray
      ensures MarkedFrom(old(View()), v, View())
    {
      if v.Ref? && color[v.id].White? {
        ReallyMarkObject(v.id);
        assert Refs([v]) == {v.id};
      } else {
        MarksNothing(View());
      }
    }

    method MarkValues(vs: seq<Val>)
      requires color.Keys == body.Keys && NoDangling(View().h) && Refs(vs) <= body.Keys
      modifies this`color, this`gray
      ensures MarkStep(old(View()), vs, Refs(vs), View())
    {
      MarksNone(View(), Refs(vs));
      for i := 0 to |vs|
        invariant MarkStep(old(View()), vs[..i], Refs(vs), View())
      {
        ghost var s1 := View();
        assert vs[i] in vs && vs[..i+1] == vs[..i] + [vs[i]];
        MarkValue(vs[i]);
        MarkStepJoin(old(View()), vs[..i], Refs(vs), s1, [vs[i]], Refs([vs[i]]), View());
      }
      assert vs[..|vs|] == vs;
    }

    // The stack matters to a closure with open upvalues in the atomic phase only.
    ghost function StackSeeds(): set<Id>
      reads this
    {
      if gcstate.InsideAtomic? then Refs(stack) else {}
    }

    method MarkUpvalue(uv: nat, ghost seeds: set<Id>)
      requires color.Keys == body.Keys && NoDangling(View().h) && CellsOk(View().h)
      requires Refs([CellVal(cells, uv)]) <= body.Keys && Refs(stack) <= body.Keys
      requires Refs([CellVal(cells, uv)]) <= seeds && StackSeeds() <= seeds
      modifies this`color, this`gray
      ensures MarkStep(old(View()), [CellVal(cells, uv)], seeds, View())
    {
      ghost var s := View();
      MarksNone(s, seeds);
      var w := Plain;
      if uv in cells {
        if cells[uv].Closed? {
          w := cells[uv].v;
        } else if gcstate.InsideAtomic? {
          w := stack[cells[uv].slot];
          assert w in stack;
        }
      }
      MarkValue(w);
      MoreSeeds(s, [w], Refs([w]), seeds, View());
    }

    method MarkUpvalues(upvals: seq<nat>, ghost seeds: set<Id>)
      requires color.Keys == body.Keys && NoDangling(View().h) && CellsOk(View().h)
      requires Refs(CellVals(cells, upvals)) <= body.Keys && Refs(stack) <= body.Keys
      requires Refs(CellVals(cells, upvals)) <= seeds && StackSeeds() <= seeds
      modifies this`color, this`gray
      ensures MarkStep(old(View()), CellVals(cells, upvals), seeds, View())
    {
      hide MarkStep, NoDangling, CellsOk, Refs, CellVals;
      ghost var s, vs := View(), CellVals(cells, upvals);
      MarksNone(s, seeds);
      for i := 0 to |upvals|
        invariant color.Keys == old(color.Keys) && View().h == old(View().h) && MarkStep(s, vs[..i], seeds, View())
      {
        ghost var s1 := View();
        CellValAt(cells, upvals, i);
        assert vs[..i+1] == vs[..i] + [vs[i]];
        MarkUpvalue(upvals[i], seeds);
        SameColored(s1, [vs[i]], seeds, View());
        MarkStepJoin(s, vs[..i], seeds, s1, [vs[i]], seeds, View());
      }
      assert vs[..|upvals|] == vs;
    }

    // 'traverseLclosure': the value of an open upvalue is marked in the atomic phase only.
    method TraverseLClosure(proto: Val, upvals: seq<nat>)
      requires color.Keys == body.Keys && NoDangling(View().h) && CellsOk(View().h)
      requires Refs([proto] + CellVals(cells, upvals)) <= body.Keys && Refs(stack) <= body.Keys
      modifies this`color, this`gray
      ensures var vs := [proto] + CellVals(cells, upvals); MarkStep(old(View()), vs, Refs(vs) + StackSeeds(), View())
    {
      ghost var seeds := Refs([proto] + CellVals(cells, upvals)) + StackSeeds();
      assert proto in [proto] + CellVals(cells, upvals);
      MarkValue(proto);
      ghost var s1 := View();
      MoreSeeds(old(View()), [proto], Refs([proto]), seeds, s1);
      assert Refs(CellVals(cells, upvals)) <= seeds;
      MarkUpvalues(upvals, seeds);
      MarkStepJoin(old(View()), [proto], seeds, s1, CellVals(cells, upvals), seeds, View());
    }

    method TraverseTable(meta: Val, slots: seq<Val>)
      requires color.Keys == body.Keys && NoDangling(View().h) && Refs([meta] + slots) <= body.Keys
      modifies this`color, this`gray
      ensures MarkStep(old(View()), [meta] + slots, Refs([meta] + slots), View())
    {
      ghost var vs := [meta] + slots;
      assert meta in vs && Refs(slots) <= Refs(vs) && Refs([meta]) <= Refs(vs);
      MarksNone(View(), Refs(vs));
      MarkValue(meta);
      ghost var s1 := View();
      MarkStepJoin(old(View()), [], Refs(vs), old(View()), [meta], Refs([meta]), View());
      assert [] + [meta] == [meta];
      MarkValues(slots);
      MarkStepJoin(old(View()), [meta], Refs(vs), s1, slots, Refs(slots), View());
    }

    method Traverse(o: Id)
      requires color.Keys == body.Keys && NoDangling(View().h) && CellsOk(View().h)
      requires o in body && mainthread in body && body[mainthread].Thread?
      modifies this`color, this`gray
      ensures MarkStep(old(View()), Slots(View().h, o), Refs(Slots(View().h, o)) + StackSeeds(), View())
    {
      SlotsExist(View().h, o);
      SlotsExist(View().h, mainthread);
      MarksNone(View(), {});
      match body[o]
      case Table(meta, slots) =>
        TraverseTable(meta, slots);
      case LClosure(proto, upvals) =>
        TraverseLClosure(proto, upvals);
      case CClosure(vals) =>
        MarkValues(vals);
      case Proto(consts) =>
        MarkValues(consts);
      case Thread =>
        MarkValues(stack);
      case Udata(meta, user) =>
        MarkValues([meta, user]);
      case Str(_, _) =>
        MarkValues([]);
    }

    // 'propagatemark'.
    method PropagateMark()
      requires color.Keys == body.Keys && NoDangling(View().h) && CellsOk(View().h)
      requires gray != [] && gray[0] in body && mainthread in body && body[mainthread].Thread?
      requires body[gray[0]].Thread? <==> gray[0] == mainthread
      requires color[gray[0]].Gray?
      modifies this`color, this`gray, this`grayagain
      ensures PropagatesOne(old(View()), View())
    {
      var o := gray[0];
      color := color[o := Black];
      gray := gray[1..];
      if body[o].Thread? {
        grayagain := [o] + grayagain;
        color := color[o := Gray];
      }
      ghost var t := View();
      assert t == Taken(old(View())) by {
        if o == mainthread { assert t.color == old(color); }
      }
      Traverse(o);
      SeedsOf(t, o, View());
    }

    // The roots that 'restartcollection' and 'atomic' mark.
    method MarkRoots()
      requires color.Keys == body.Keys && NoDangling(View().h) && Refs(RootVals(View())) <= body.Keys
      modifies this`color, this`gray
      ensures MarkStep(old(View()), RootVals(View()), Refs(RootVals(View())), View())
    {
      ghost var s := View();
      var first := [Ref(mainthread), registry];
      ghost var seeds := Refs(RootVals(s));
      assert RootVals(s) == first + mt;
      assert Refs(first) <= seeds && Refs(mt) <= seeds;
      MarkValues(first);
      ghost var s1 := View();
      MoreSeeds(s, first, Refs(first), seeds, s1);
      MarkValues(mt);
      MarkStepJoin(s, first, seeds, s1, mt, Refs(mt), View());
    }

    // 'propagateall'.
    method PropagateAll(ghost X: set<Id>, ghost seeds: set<Id>)
      requires Marking(View(), X) && ListsOk(body, mainthread, limit, allgc, fixedgc)
      requires (forall id :: id in gray ==> Follows(View().h, seeds, id)) && mainthread in seeds
      modifies this`color, this`gray, this`grayagain
      ensures Progress(old(View()), View(), X, seeds) && gray == []
    {
      ProgressStart(View(), X, seeds);
      while gray != []
        invariant Progress(old(View()), View(), X, seeds)
        decreases Whites(View()), Elems(gray)
      {
        ghost var s := View();
        assert gray[0] in gray;
        PropagateMark();
        ProgressStep(old(View()), s, View(), X, seeds);
        OneShrinks(s, View(), X);
      }
    }

    // The propagation with which the atomic step starts.
    method PropagateRest()
      requires Inv(View()) && gcstate.Atomic?
      modifies this`color, this`gray, this`grayagain
      ensures AtPass(old(View()).(phase := InsideAtomic), View().(phase := InsideAtomic)) && gray == []
    {
      ghost var s := View();
      InvIsMarking(s);
      MarkedFollows(s, s, Seeds(s));
      assert forall id :: id in gray ==> Marked(s, id);
      PropagateAll(Again(s), Seeds(s));
      FirstPass(s, View());
    }

    // 'atomic', first half: the roots again, and what they lead to.
    method AtomicRoots(ghost s: St)
      requires AtPass(s, View()) && gray == []
      requires RootsIn(View(), Seeds(s)) && ListsOk(body, mainthread, limit, allgc, fixedgc)
      modifies this`color, this`gray, this`grayagain
      ensures Doubled(s, View()) && gray == [] && grayagain == old(grayagain)
    {
      ghost var b := View();
      MarkRoots();
      ghost var c := View();
      RootsAre(c);
      RootsPass(s, b, c, RootVals(b));
      PropagateAll(Again(c), Seeds(s));
      SecondPass(s, c, View());
    }

    // 'atomic', second half: the objects of the 'grayagain' list.
    method AtomicAgain(saved: seq<Id>, ghost s: St)
      requires Doubled(s, View()) && gray == [] && saved == grayagain
      requires mainthread in Seeds(s) && ListsOk(body, mainthread, limit, allgc, fixedgc)
      modifies this`color, this`gray, this`grayagain
      ensures AtomicMarks(s, View())
    {
      ghost var d := View();
      gray := saved;
      PropagateAll({mainthread} + Elems(fixedgc), Seeds(s));
      LastPass(s, d, View());
    }

    // 'atomic' up to the flip.
    method AtomicMarking()
      requires Inv(View()) && gcstate.Atomic?
      modifies this`color, this`gray, this`grayagain, this`gcstate
      ensures gcstate.InsideAtomic? && AtomicMarks(old(View()).(phase := InsideAtomic), View())
    {
      ghost var s := View().(phase := InsideAtomic);
      RootsAreSeeds(View());
      PropagateRest();
      var saved := grayagain;
      gcstate := InsideAtomic;
      AtomicRoots(s);
      AtomicAgain(saved, s);
    }

    // 'freeobj', after the object has been taken out of its list.
    method FreeObj(id: Id)
      modifies this`body, this`color, this`allgc, this`strt
      ensures View() == Free(old(View()), id)
    {
      if id in body && body[id].Str? && body[id].short {
        strt := strt - {body[id].text};
      }
      allgc := Without(allgc, id);
      body := body - {id};
      color := color - {id};
    }

    // 'sweeplist' on the list of all objects.
    method SweepObjects(count: nat)
      modifies this`body, this`color, this`allgc, this`strt, this`sweepgc
      ensures View() == SweepList(old(View()), count)
    {
      hide SweepList, SweepOne, Free, Rest;
      var left := count;
      while Rest(View()) != [] && left > 0
        invariant SweepList(View(), left) == SweepList(old(View()), count)
        decreases left
      {
        var curr := Rest(View())[0];
        var s := View();
        SweepListTurn(s, left);
        if IsDead(s, curr) {
          FreeObj(curr);
        } else {
          color := color[curr := White(currentwhite)];
          sweepgc := After(curr);
        }
        assert View() == SweepOne(s);
        left := left - 1;
      }
      SweepListTurn(View(), left);
      if Rest(View()) == [] {
        sweepgc := Off;
      }
    }

    // 'entersweep', with 'sweeptolive'.
    method EnterSweepPhase()
      requires WellFormed(View()) && Safe(View())
      modifies this`body, this`color, this`allgc, this`strt, this`sweepgc, this`gcstate
      ensures View() == EnterSweep(old(View()))
    {
      ghost var s0 := View();
      AtHeadIsOk(s0);
      gcstate := SwpAllgc;
      sweepgc := AtHead;
      while true
        invariant SweepToLive(View()) == EnterSweep(s0) && SweepOk(View()) && sweepgc.AtHead?
        decreases |allgc|
      {
        ghost var s := View();
        SweepOnceAtHead(s);
        SweepObjects(1);
        if sweepgc != AtHead {
          return;
        }
      }
    }

    // 'sweepstep' for the list of all objects.
    method SweepAStep()
      modifies this`body, this`color, this`allgc, this`strt, this`sweepgc, this`gcstate
      ensures View() == SweepStep(old(View()))
    {
      if sweepgc != Off {
        SweepObjects(GCSWEEPMAX);
      }
      if sweepgc == Off {
        gcstate := SwpFinobj;
        sweepgc := AtHead;
      }
    }

    method Restart()
      requires Inv(View()) && gcstate.Pause?
      modifies this`color, this`gray, this`grayagain, this`gcstate
      ensures RestartStep(old(View()), View())
    {
      hide Tricolor, Sweeping, AllWhite, MarkStep, RestartStep;
      ghost var s := View();
      gray, grayagain := [], [];
      PauseIsSound(s);
      RootsExist(s);
      MarkRoots();
      RestartDone(s, View());
      gcstate := Propagate;
    }

    method PropagateAStep()
      requires Inv(View()) && gcstate.Propagate?
      modifies this`color, this`gray, this`grayagain, this`gcstate
      ensures PropagateStep(old(View()), View())
    {
      ghost var s := View();
      LiveTargets(s);
      assert gray[0] in gray;
      PropagateMark();
      ghost var m := View();
      if gray == [] {
        gcstate := Atomic;
      }
      assert View().(phase := Propagate) == m;
    }

    method AtomicAStep()
      requires Inv(View()) && gcstate.Atomic?
      modifies this`body, this`color, this`allgc, this`strt, this`gray, this`grayagain, this`gcstate, this`currentwhite, this`sweepgc
      ensures AtomicStep(old(View()), View())
    {
      ghost var s := View();
      AtomicMarking();
      ghost var m := View().(phase := Atomic);
      PhaseIrrelevant(s, View(), InsideAtomic);
      FlipKeeps(s, m);
      currentwhite := !currentwhite;
      ghost var f := View();
      LiveKept(m.(current := !m.current), f);
      EnterSweepPhase();
      assert f.(phase := SwpAllgc, sweepgc := AtHead) == m.(current := !m.current).(phase := SwpAllgc, sweepgc := AtHead);
    }

    method SweepPhaseStep()
      requires SweepPhase(View()) || gcstate.CallFin?
      modifies this`body, this`color, this`allgc, this`strt, this`gcstate, this`sweepgc
      ensures CollectorStep(old(View()), View())
    {
      match gcstate
      case SwpAllgc => SweepAStep();
      case SwpFinobj => gcstate := SwpTobefnz; sweepgc := AtHead;
      case SwpTobefnz => gcstate := SwpEnd; sweepgc := Off;
      case SwpEnd => color := color[mainthread := White(currentwhite)]; gcstate := CallFin;
      case CallFin => gcstate := Pause;
    }

    method MarkPhaseStep()
      requires Inv(View()) && gcstate in {Pause, Propagate, Atomic}
      modifies this`body, this`color, this`allgc, this`strt, this`gray, this`grayagain, this`gcstate, this`currentwhite, this`sweepgc
      ensures CollectorStep(old(View()), View())
    {
      if gcstate.Pause? {
        Restart();
      } else if gcstate.Propagate? {
        PropagateAStep();
      } else {
        AtomicAStep();
      }
    }

    // 'singlestep'.
    method SingleStep()
      requires Inv(View())
      modifies this`body, this`color, this`allgc, this`strt, this`gray, this`grayagain, this`gcstate, this`currentwhite, this`sweepgc
      ensures CollectorStep(old(View()), View()) && Inv(View())
    {
      ghost var s := View();
      if gcstate in {Pause, Propagate, Atomic} {
        MarkPhaseStep();
      } else {
        SweepPhaseStep();
      }
      CollectorKeeps(s, View());
    }

    // 'luaC_runtilstate'.
    method RunTilState(stop: set<Phase>) returns (ghost trace: seq<St>)
      requires Inv(View()) && stop != {} && InsideAtomic !in stop
      modifies this`body, this`color, this`allgc, this`strt, this`gray, this`grayagain, this`gcstate, this`currentwhite, this`sweepgc
      ensures gcstate in stop
      ensures Steps(trace) && trace[0] == old(View()) && trace[|trace|-1] == View()
      ensures forall i :: 0 <= i < |trace| - 1 ==> trace[i].phase !in stop
      ensures Inv(View()) && Shrunk(old(View()), View()) && AccSet(old(View())) == AccSet(View())
    {
      trace := [View()];
      ghost var goal :| goal in stop;
      while gcstate !in stop
        invariant Inv(View())
        invariant Trace(trace, old(View()), View(), stop)
        decreases Ahead(gcstate, goal), LeftWhites(View()), LeftGray(View()), LeftRest(View())
      {
        ghost var s := View();
        AheadDrops(gcstate, goal);
        SingleStep();
        StepProgress(s, View());
        TraceGrows(trace, old(View()), s, View(), stop);
        trace := trace + [View()];
      }
      StepsKeep(trace, |trace| - 1);
    }

    // A cycle up to its last phase.
    method CycleToFinalizers()
      requires Inv(View()) && gcstate.Pause?
      modifies this`body, this`color, this`allgc, this`strt, this`gray, this`grayagain, this`gcstate, this`currentwhite, this`sweepgc
      ensures Inv(View()) && Shrunk(old(View()), View())
      ensures Exactly(View(), old(View()))
      ensures AccSet(old(View())) == AccSet(View())
    {
      ghost var t2 := RunTilState({Propagate, Atomic, SwpAllgc, SwpFinobj, SwpTobefnz, SwpEnd, CallFin});
      OutOfPause(t2);
      ghost var t3 := RunTilState({CallFin});
      TwoRuns(t2, t3);
    }

    method FullCycle()
      requires Inv(View()) && gcstate.Pause?
      modifies this`body, this`color, this`allgc, this`strt, this`gray, this`grayagain, this`gcstate, this`currentwhite, this`sweepgc
      ensures Inv(View()) && gcstate.Pause? && Shrunk(old(View()), View())
      ensures Exactly(View(), old(View()))
    {
      ghost var s := View();
      CycleToFinalizers();
      ghost var c := View();
      ghost var t4 := RunTilState({Pause});
      assert gcstate == Pause;
      ghost var e := View();
      StillExactly(s, c, e);
    }

    // 'luaC_fullgc': what is left is exactly what was accessible, as it was.
    method FullGc()
      requires Inv(View())
      modifies this`body, this`color, this`allgc, this`strt, this`gray, this`grayagain, this`gcstate, this`currentwhite, this`sweepgc
      ensures Inv(View()) && gcstate.Pause?
      ensures Exactly(View(), old(View()))
      ensures forall id :: id in body ==> id in old(body) && body[id] == old(body[id])
      ensures Encloses(View(), body.Keys)
      ensures forall C: set<Id> :: Encloses(old(View()), C) ==> body.Keys <= C
    {
      ghost var s0 := View();
      ghost var s1 := FinishCycle();
      FullCycle();
      ExactlyEncloses(s0, View());
    }

    // An unfinished marking is given up; an unfinished sweep is finished.
    method FinishCycle() returns (ghost s1: St)
      requires Inv(View())
      modifies this`body, this`color, this`allgc, this`strt, this`gray, this`grayagain, this`gcstate, this`currentwhite, this`sweepgc
      ensures Inv(View()) && gcstate.Pause? && Shrunk(old(View()), View()) && s1 == View()
      ensures AccSet(old(View())) == AccSet(View())
    {
      var s0 := View();
      if KeepInvariant(s0) {
        AbortKeepsAll(s0);
        EnterSweepPhase();
      }
      ghost var t1 := RunTilState({Pause});
      s1 := View();
    }

    // ---- what the program calls ----

    // 'luaC_newobj'; the new object is left on the stack.
    method NewObject(b: Body) returns (id: Id)
      requires Inv(View()) && CanUseBody(View(), b)
      modifies this`body, this`color, this`limit, this`allgc, this`stack
      ensures Next(old(View()), Alloc(b), View()) && stack == old(stack) + [Ref(id)]
    {
      id := CreateObject(b);
      stack := stack + [Ref(id)];
    }

    method CreateObject(b: Body) returns (id: Id)
      modifies this`body, this`color, this`limit, this`allgc
      ensures id == old(limit) && PushVal(View(), Ref(id)) == NewObj(old(View()), b)
      ensures stack == old(stack)
    {
      id := limit;
      limit := limit + 1;
      body := body[id := b];
      color := color[id := White(currentwhite)];
      allgc := [id] + allgc;
    }

    method Resurrect(id: Id)
      requires id in color
      modifies this`color
      ensures color == if IsDead(old(View()), id) then old(color)[id := White(currentwhite)] else old(color)
    {
      if color[id] == White(!currentwhite) {
        color := color[id := White(currentwhite)];
      }
    }

    // 'internshrstr'; the string is left on the stack.
    method InternShrStr(text: string) returns (id: Id)
      requires color.Keys == body.Keys && StringsOk(body, strt)
      modifies this`body, this`color, this`limit, this`allgc, this`stack, this`strt
      ensures View() == InternStr(old(View()), text) && Next(old(View()), Intern(text), View())
      ensures text in strt && strt[text] == id && stack == old(stack) + [Ref(id)]
    {
      if text in strt {
        id := strt[text];
        Resurrect(id);
      } else {
        id := CreateObject(Str(text, true));
        strt := strt[text := id];
      }
      stack := stack + [Ref(id)];
    }

    // 'luaC_fix'.
    method FixObject()
      requires Enabled(View(), Fix)
      modifies this`color, this`allgc, this`fixedgc
      ensures Next(old(View()), Fix, View())
    {
      var o := allgc[0];
      color := color[o := Gray];
      allgc := allgc[1..];
      fixedgc := [o] + fixedgc;
    }

    // The macro 'luaC_barrier', with 'luaC_barrier_'.
    method Barrier(o: Id, v: Val)
      requires KeepInvariant(View()) ==> color.Keys == body.Keys && NoDangling(View().h)
      modifies this`color, this`gray
      ensures ForwardBarrier(old(View()), o, v, View())
    {
      if v.Ref? && o in color && color[o].Black? && v.id in color && color[v.id].White? {
        if gcstate.Propagate? || gcstate.Atomic? {
          ReallyMarkObject(v.id);
          assert Refs([v]) == {v.id};
        } else {
          color := color[o := White(currentwhite)];
        }
      }
    }

    // The macro 'luaC_barrierback', with 'luaC_barrierback_'.
    method BarrierBack(o: Id, v: Val)
      modifies this`color, this`grayagain
      ensures View() == BackBarrier(old(View()), o, v)
    {
      if v.Ref? && o in color && color[o].Black? && v.id in color && color[v.id].White? {
        color := color[o := Gray];
        grayagain := [o] + grayagain;
      }
    }

    // The macro 'luaC_upvalbarrier', with 'luaC_upvalbarrier_'.
    method UpvalueBarrier(v: Val)
      requires KeepInvariant(View()) ==> color.Keys == body.Keys && NoDangling(View().h) && (v.Ref? ==> v.id in body)
      modifies this`color, this`gray
      ensures UpvalBarrier(old(View()), v, View())
    {
      if v.Ref? && (gcstate.Propagate? || gcstate.Atomic?) {
        MarkValue(v);
      }
    }

    // A store into a table, as 'lua_rawset' does it.
    method SetTableSlot(t: Id, i: nat, v: Val)
      requires Inv(View()) && Acc(View(), t) && CanUse(View(), v)
      requires t in body && body[t].Table? && i < |body[t].slots|
      modifies this`body, this`color, this`grayagain
      ensures Next(old(View()), Store(t, Table(old(body[t].meta), old(body[t].slots)[i := v]), v, true), View())
    {
      ghost var s := View();
      var b := Table(body[t].meta, body[t].slots[i := v]);
      SlotStored(s, t, i, v);
      body := body[t := b];
      BarrierBack(t, v);
    }

    // A store with the forward barrier: metatables, user values, and what C closures and prototypes hold.
    method StoreForward(o: Id, b: Body, v: Val)
      requires Inv(View()) && Acc(View(), o) && CanUse(View(), v) && OneStore(View(), o, b, v)
      modifies this`body, this`color, this`gray
      ensures Next(old(View()), Store(o, b, v, false), View())
    {
      ghost var s := View();
      if KeepInvariant(s) {
        StoreStaysSound(s, o, b, v);
      }
      body := body[o := b];
      assert View() == WithBody(s, o, b);
      Barrier(o, v);
    }

    // 'lua_setmetatable' on a table or a userdata.
    method SetMetatable(o: Id, mt: Val)
      requires Inv(View()) && Acc(View(), o) && CanUse(View(), mt)
      requires o in body && (body[o].Table? || body[o].Udata?)
      modifies this`body, this`color, this`gray
      ensures Next(old(View()), Store(o, if old(body[o]).Table? then Table(mt, old(body[o].slots)) else Udata(mt, old(body[o].user)), mt, false), View())
    {
      var b := if body[o].Table? then Table(mt, body[o].slots) else Udata(mt, body[o].user);
      MetaStored(View(), o, b, mt);
      StoreForward(o, b, mt);
    }

    // A new value of 'l_registry', a root without a barrier.
    method ReplaceRegistry(v: Val)
      requires Inv(View()) && CanUse(View(), v)
      modifies this`registry
      ensures Next(old(View()), SetRegistry(v), View()) && Inv(View())
    {
      ghost var s := View();
      registry := v;
      RerootKeeps(s, v, View());
    }

    // 'init_registry': the registry is a table with the main thread and the table of globals.
    method InitRegistry()
      requires Inv(View()) && gcstate.Pause? && cells == map[]
      modifies this
      ensures Inv(View()) && stack == old(stack) && mainthread == old(mainthread)
      ensures registry.Ref? && registry.id in body && body[registry.id].Table? && |body[registry.id].slots| == 2
      ensures body[registry.id].slots[0] == Ref(mainthread) && body[registry.id].slots[1].Ref?
    {
      hide Inv, Acc;
      MakeRegistry();
      RegistryAcc(View());
      FillSlot(registry.id, 0, Ref(mainthread));
      AddGlobals(registry.id);
    }

    // A new table as the registry.
    method MakeRegistry()
      requires Inv(View()) && cells == map[]
      modifies this`body, this`color, this`limit, this`allgc, this`stack, this`registry
      ensures Inv(View()) && stack == old(stack)
      ensures registry.Ref? && registry.id in body && body[registry.id] == Table(Plain, [Plain, Plain])
    {
      hide Inv, Acc;
      ghost var before := stack;
      var id := NewTable(2);
      LimitIsNew(View());
      StackTopAcc(View());
      ReplaceRegistry(Ref(id));
      assert stack[..|stack| - 1] == before;
      PopTop();
    }

    // The second slot of the registry.
    method AddGlobals(id: Id)
      requires Inv(View()) && cells == map[] && registry == Ref(id)
      requires id in body && body[id].Table? && |body[id].slots| == 2
      modifies this`body, this`color, this`limit, this`allgc, this`stack, this`grayagain
      ensures Inv(View()) && stack == old(stack)
      ensures id in body && exists g :: body[id] == Table(old(body[id]).meta, [old(body[id]).slots[0], Ref(g)])
    {
      hide Inv, Acc, NewObj;
      ghost var before, was := stack, body[id];
      var globals := NewTable(0);
      RegistryAcc(View());
      LimitIsNew(View());
      StackTopAcc(View());
      FillSlot(id, 1, Ref(globals));
      assert stack[..|stack| - 1] == before;
      PopTop();
      assert was.slots[1 := Ref(globals)] == [was.slots[0], Ref(globals)];
    }

    method FillSlot(t: Id, i: nat, v: Val)
      requires Inv(View()) && Acc(View(), t) && CanUse(View(), v)
      requires t in body && body[t].Table? && i < |body[t].slots|
      modifies this`body, this`color, this`grayagain
      ensures Inv(View()) && body == old(body)[t := Table(old(body[t].meta), old(body[t].slots)[i := v])]
    {
      hide Inv, Acc;
      ghost var s := View();
      SetTableSlot(t, i, v);
      NextKeeps(s, Store(t, Table(s.h.body[t].meta, s.h.body[t].slots[i := v]), v, true), View());
    }

    // 'luaH_new', with room for n values, anchored on the stack.
    method NewTable(n: nat) returns (id: Id)
      requires Inv(View())
      modifies this`body, this`color, this`limit, this`allgc, this`stack
      ensures Inv(View()) && body == old(body)[id := Table(Plain, seq(n, _ => Plain))] && stack == old(stack) + [Ref(id)]
      ensures id !in old(body) && mainthread in old(body)
    {
      hide Inv;
      ghost var s := View();
      var b := Table(Plain, seq(n, _ => Plain));
      PlainTable(s, n);
      LimitIsNew(s);
      id := NewObject(b);
      assert stack[|stack| - 1] == Ref(id);
      NextKeeps(s, Alloc(b), View());
    }

    method PopTop()
      requires Inv(View()) && stack != [] && cells == map[]
      modifies this`stack
      ensures Inv(View()) && stack == old(stack)[..|old(stack)| - 1]
    {
      hide Inv;
      ghost var s := View();
      stack := stack[..|stack| - 1];
      NextKeeps(s, Pop, View());
    }

    // 'lua_setmetatable' on a basic type.
    method SetBasicMetatable(i: nat, v: Val)
      requires Inv(View()) && i < |mt| && CanUse(View(), v)
      modifies this`mt
      ensures Next(old(View()), SetMt(i, v), View()) && Inv(View())
    {
      ghost var s := View();
      mt := mt[i := v];
      RerootKeeps(s, v, View());
    }

    // An assignment to a closed upvalue: OP_SETUPVAL and 'lua_setupvalue'.
    method SetUpvalue(c: nat, v: Val)
      requires Inv(View()) && c in cells && CanUse(View(), v)
      modifies this`cells, this`stack, this`color, this`gray
      ensures Next(old(View()), SetCell(c, v), View())
    {
      ghost var s := View();
      if cells[c].Open? {
        stack := stack[cells[c].slot := v];
      } else {
        UsableIsLive(s, v);
        if KeepInvariant(s) { CellStaysSound(s, c, v); }
        cells := cells[c := Cell.Closed(v)];
        assert View() == WithCell(s, c, Cell.Closed(v));
        UpvalueBarrier(v);
      }
    }

    // One turn of the loop in 'luaF_close': the value moves from the stack into the upvalue.
    method CloseUpvalue(c: nat)
      requires Inv(View()) && c in cells && cells[c].Open?
      modifies this`cells, this`color, this`gray
      ensures Next(old(View()), CloseCell(c), View())
    {
      ghost var s := View();
      var v := stack[cells[c].slot];
      StackIsLive(s, cells[c].slot);
      if KeepInvariant(s) { CellStaysSound(s, c, v); }
      cells := cells[c := Cell.Closed(v)];
      assert View() == WithCell(s, c, Cell.Closed(v));
      UpvalueBarrier(v);
    }
  }
}
