// The transitions of the collector and of the program that runs between its steps.
module GcSteps {
  import opened GcHeap
  import opened GcState

  const GCSWEEPMAX: nat := 85

  // ---- marking ----

  predicate NewlyGray(s: St, s': St, id: Id) { IsWhite(s, id) && id in s'.color && s'.color[id].Gray? }

  predicate NewlyBlack(s: St, s': St, id: Id) { IsWhite(s, id) && id in s'.color && s'.color[id].Black? }

  // White objects may turn gray and join the gray list, or turn black once all they hold is marked,
  // the objects of X apart.
  ghost predicate MarksBut(s: St, s': St, X: set<Id>) {
    && s' == s.(color := s'.color, gray := s'.gray)
    && s'.color.Keys == s.color.Keys
    && (forall id :: id in s.color && s'.color[id] != s.color[id] ==> IsWhite(s, id) && Marked(s', id))
    && (forall id :: id in s'.gray <==> id in s.gray || NewlyGray(s, s', id))
    && (NoDups(s.gray) && (forall id :: id in s.gray ==> Marked(s, id)) ==> NoDups(s'.gray))
    && (forall id :: NewlyGray(s, s', id) ==> id in s.h.body && !s.h.body[id].Str?)
    && (forall id :: NewlyBlack(s, s', id) ==> id in s.h.body && !s.h.body[id].Thread?)
    && (forall a, b :: NewlyBlack(s, s', a) && Points(s.h, a, b) ==> Marked(s', b) || b in X)
  }

  ghost predicate Marks(s: St, s': St) {
    MarksBut(s, s', {})
  }

  // Only objects of C have been marked.
  ghost predicate Within(s: St, s': St, C: set<Id>) {
    forall id :: Marked(s', id) ==> Marked(s, id) || id in C
  }

  // Only objects that the seeds lead to have been marked.
  ghost predicate From(s: St, s': St, seeds: set<Id>) {
    forall C: set<Id> :: ClosedUnder(s.h, C) && seeds <= C ==> Within(s, s', C)
  }

  // Every closed set with the seeds contains id.
  ghost predicate Follows(h: Heap, seeds: set<Id>, id: Id) {
    forall C: set<Id> :: ClosedUnder(h, C) && seeds <= C ==> id in C
  }

  lemma FromTransitive(a: St, b: St, c: St, seeds: set<Id>, more: set<Id>)
    requires b.h == a.h && From(a, b, seeds) && From(b, c, more) && forall id :: id in more ==> Follows(a.h, seeds, id)
    ensures From(a, c, seeds)
  {
    forall C: set<Id> | ClosedUnder(a.h, C) && seeds <= C ensures Within(a, c, C) {
      assert more <= C;
      assert Within(a, b, C) && Within(b, c, C);
    }
  }

  ghost predicate AllMarked(s: St, vs: seq<Val>) {
    forall id :: Ref(id) in vs ==> Marked(s, id)
  }

  // The objects of vs get marked, and nothing that the seeds do not lead to.
  ghost predicate MarkStep(s: St, vs: seq<Val>, seeds: set<Id>, s': St) {
    Marks(s, s') && AllMarked(s', vs) && From(s, s', seeds)
  }

  lemma MarkStepJoin(s: St, vs: seq<Val>, seeds: set<Id>, s1: St, ws: seq<Val>, more: set<Id>, s2: St)
    requires MarkStep(s, vs, seeds, s1) && MarkStep(s1, ws, more, s2) && more <= seeds
    ensures MarkStep(s, vs + ws, seeds, s2)
  {
    MarksTransitive(s, s1, s2, {}, {});
    FromTransitive(s, s1, s2, seeds, more);
    forall id | Ref(id) in vs + ws ensures Marked(s2, id) {
      if Ref(id) in vs { assert Marked(s1, id); }
    }
  }

  ghost predicate RootsMarked(s: St) {
    forall r :: IsRoot(s, r) ==> Marked(s, r)
  }

  lemma MarksTransitive(a: St, b: St, c: St, X: set<Id>, Y: set<Id>)
    requires MarksBut(a, b, X) && MarksBut(b, c, Y) && forall id :: id in X ==> Marked(c, id)
    ensures MarksBut(a, c, Y)
  {
    forall id ensures NewlyGray(a, c, id) <==> NewlyGray(a, b, id) || NewlyGray(b, c, id) {}
    forall id ensures NewlyBlack(a, c, id) <==> NewlyBlack(a, b, id) || NewlyBlack(b, c, id) {}
    forall id ensures id in c.gray <==> id in a.gray || NewlyGray(a, c, id) {
      assert id in b.gray <==> id in a.gray || NewlyGray(a, b, id);
    }
    forall x, y | NewlyBlack(a, c, x) && Points(a.h, x, y) ensures Marked(c, y) || y in Y {
      if NewlyBlack(a, b, x) { assert Marked(b, y) || y in X; }
    }
    if NoDups(a.gray) && (forall id :: id in a.gray ==> Marked(a, id)) {
      forall id | id in b.gray ensures Marked(b, id) { assert id in a.gray || NewlyGray(a, b, id); }
    }
  }

  // ---- sweeping ----

  function Without(q: seq<Id>, id: Id): seq<Id> {
    var i := Find(q, id);
    if i < |q| then q[..i] + q[i+1..] else q
  }

  // freeobj, with the removal of a short string from the string table.
  function Free(s: St, id: Id): St {
    s.(h := s.h.(body := s.h.body - {id}),
       color := s.color - {id},
       allgc := Without(s.allgc, id),
       strt := if id in s.h.body && s.h.body[id].Str? && s.h.body[id].short
               then s.strt - {s.h.body[id].text} else s.strt)
  }

  // One turn of the loop in 'sweeplist'.
  function SweepOne(s: St): St {
    if Rest(s) == [] then s
    else
      var curr := Rest(s)[0];
      if IsDead(s, curr) then Free(s, curr)
      else s.(color := s.color[curr := White(s.current)], sweepgc := After(curr))
  }

  // 'sweeplist': at most n elements; the cursor becomes NULL at the end of the list.
  function SweepList(s: St, n: nat): St
    decreases n, s.allgc
  {
    if Rest(s) == [] then s.(sweepgc := Off)
    else if n == 0 then s
    else SweepList(SweepOne(s), n - 1)
  }

  // 'sweeptolive': one element at a time until the cursor leaves the list header.
  function SweepToLive(s: St): St
    decreases |s.allgc|
  {
    var s1 := SweepList(s, 1);
    if s1.sweepgc == s.sweepgc && |s1.allgc| < |s.allgc| then SweepToLive(s1) else s1
  }

  function EnterSweep(s: St): St {
    SweepToLive(s.(phase := SwpAllgc, sweepgc := AtHead))
  }

  // ---- steps of the collector ----

  ghost predicate SeedsMarked(s: St, s': St) {
    forall C: set<Id> :: ClosedUnder(s.h, C) && HasRoots(s, C) && (forall id :: Marked(s, id) ==> id in C) ==> Within(s, s', C)
  }

  ghost predicate RestartStep(s: St, s': St) {
    var s0 := s.(gray := [], grayagain := []);
    var m := s'.(phase := Pause);
    && s.phase.Pause? && s'.phase.Propagate?
    && Marks(s0, m) && RootsMarked(m)
    && (forall C: set<Id> :: ClosedUnder(s.h, C) && HasRoots(s, C) ==> Within(s, m, C))
  }

  // The state in which 'propagatemark' traverses the object it took from the gray list.
  function Taken(s: St): St
    requires s.gray != []
  {
    var o := s.gray[0];
    if o == s.main then s.(gray := s.gray[1..], grayagain := [o] + s.grayagain)
    else s.(gray := s.gray[1..], color := s.color[o := Black])
  }

  // One gray object is traversed. In the atomic phase a closure may also mark values of the stack.
  ghost predicate PropagatesOne(s: St, s': St) {
    && s.gray != [] && s.gray[0] in s.h.body
    && MarkStep(Taken(s), Slots(s.h, s.gray[0]), {s.gray[0]} + (if s.phase.InsideAtomic? then {s.main} else {}), s')
  }

  ghost predicate PropagateStep(s: St, s': St) {
    && s.phase.Propagate?
    && var m := s'.(phase := Propagate);
    && PropagatesOne(s, m)
    && s'.phase == if m.gray == [] then Atomic else Propagate
  }

  // What the marking done by 'atomic' achieves: a marked set that is closed and holds the roots.
  ghost predicate AtomicMarks(s: St, m: St) {
    && m == s.(color := m.color, gray := [], grayagain := m.grayagain)
    && m.color.Keys == s.color.Keys
    && (forall id :: Marked(s, id) ==> Marked(m, id))
    && (forall id :: IsWhite(m, id) ==> m.color[id] == s.color[id])
    && (forall id :: id in s.fixedgc ==> id in s.color ==> m.color[id] == s.color[id])
    && RootsMarked(m)
    && (forall a, b :: Marked(m, a) && Points(m.h, a, b) ==> Marked(m, b))
    && SeedsMarked(s, m)
  }

  // 'atomic' ends by flipping the current white; 'entersweep' follows.
  ghost predicate AtomicStep(s: St, s': St) {
    && s.phase.Atomic?
    && exists m :: AtomicMarks(s, m) && s' == EnterSweep(m.(current := !m.current))
  }

  function SweepStep(s: St): St {
    var s1 := if s.sweepgc.Off? then s else SweepList(s, GCSWEEPMAX);
    if s1.sweepgc.Off? then s1.(phase := SwpFinobj, sweepgc := AtHead) else s1
  }

  // 'singlestep'. Without finalizers the lists 'finobj' and 'tobefnz' stay empty.
  ghost predicate CollectorStep(s: St, s': St) {
    match s.phase
    case Pause => RestartStep(s, s')
    case Propagate => PropagateStep(s, s')
    case Atomic => AtomicStep(s, s')
    case InsideAtomic => false
    case SwpAllgc => s' == SweepStep(s)
    case SwpFinobj => s' == s.(phase := SwpTobefnz, sweepgc := AtHead)
    case SwpTobefnz => s' == s.(phase := SwpEnd, sweepgc := Off)
    case SwpEnd => s' == s.(phase := CallFin, color := s.color[s.main := White(s.current)])
    case CallFin => s' == s.(phase := Pause)
  }

  // ---- steps of the program ----

  datatype Event =
    | Collect
    | Abort                                // 'luaC_fullgc' gives up the current marking
    | Alloc(body: Body)
    | Intern(text: string)
    | Fix
    | Push(v: Val)
    | Pop
    | SetStack(i: nat, v: Val)
    | SetMt(i: nat, v: Val)
    | SetRegistry(v: Val)
    | Store(o: Id, b: Body, v: Val, back: bool)
    | NewCell(c: nat, slot: nat)
    | SetCell(c: nat, v: Val)
    | CloseCell(c: nat)

  // A program can only use nil, unboxed values and objects it can get at.
  ghost predicate CanUse(s: St, v: Val) {
    v.Ref? ==> Acc(s, v.id)
  }

  ghost predicate CanUseBody(s: St, b: Body) {
    && !b.Thread? && !(b.Str? && b.short)
    && (forall id :: Ref(id) in Slots(s.h.(body := s.h.body[s.limit := b]), s.limit) ==> Acc(s, id))
  }

  // b is what o holds after one store of v into it.
  ghost predicate OneStore(s: St, o: Id, b: Body, v: Val) {
    && o in s.h.body
    && !b.Str? && !b.Thread? && !b.LClosure?
    && (forall id :: Ref(id) in Slots(s.h.(body := s.h.body[o := b]), o) ==> Ref(id) == v || Points(s.h, o, id))
    && match s.h.body[o]
       case Udata(_, _) => b.Udata?
       case Table(_, _) => b.Table?
       case CClosure(_) => b.CClosure?
       case Proto(_) => b.Proto?
       case _ => false
  }

  ghost predicate Enabled(s: St, e: Event) {
    match e
    case Collect => true
    case Abort => KeepInvariant(s)
    case Alloc(b) => CanUseBody(s, b)
    case Intern(_) => true
    case Fix => s.phase.Pause? && s.allgc != [] && s.allgc[0] in s.h.body && s.h.body[s.allgc[0]].Str?
    case Push(v) => CanUse(s, v)
    case Pop => s.h.stack != [] && forall c :: c in s.h.cells ==> s.h.cells[c] != Open(|s.h.stack| - 1)
    case SetStack(i, v) => i < |s.h.stack| && CanUse(s, v)
    case SetMt(i, v) => i < |s.mt| && CanUse(s, v)
    case SetRegistry(v) => CanUse(s, v)
    case Store(o, b, v, back) => Acc(s, o) && CanUse(s, v) && OneStore(s, o, b, v) && (back ==> b.Table?)
    case NewCell(c, slot) => c !in s.h.cells && slot < |s.h.stack|
    case SetCell(c, v) => c in s.h.cells && CanUse(s, v) && (s.h.cells[c].Open? ==> s.h.cells[c].slot < |s.h.stack|)
    case CloseCell(c) => c in s.h.cells && s.h.cells[c].Open? && s.h.cells[c].slot < |s.h.stack|
  }

  function PushVal(s: St, v: Val): St {
    s.(h := s.h.(stack := s.h.stack + [v]))
  }

  // 'luaC_newobj': current white, at the head of 'allgc'; the new object is left on the stack.
  function NewObj(s: St, b: Body): St {
    PushVal(s.(h := s.h.(body := s.h.body[s.limit := b]),
               color := s.color[s.limit := White(s.current)],
               limit := s.limit + 1,
               allgc := [s.limit] + s.allgc), Ref(s.limit))
  }

  // 'internshrstr': an equal string is reused, and resurrected if it is dead.
  function InternStr(s: St, text: string): St {
    if text in s.strt then
      var id := s.strt[text];
      PushVal(if IsDead(s, id) then s.(color := s.color[id := White(s.current)]) else s, Ref(id))
    else
      NewObj(s, Str(text, true)).(strt := s.strt[text := s.limit])
  }

  function FixHead(s: St): St
    requires s.allgc != []
  {
    var o := s.allgc[0];
    s.(color := s.color[o := Gray], allgc := s.allgc[1..], fixedgc := [o] + s.fixedgc)
  }

  predicate BarrierNeeded(s: St, o: Id, v: Val) {
    v.Ref? && o in s.color && s.color[o].Black? && IsWhite(s, v.id)
  }

  // 'luaC_barrier_', applied after the store.
  ghost predicate ForwardBarrier(s: St, o: Id, v: Val, s': St) {
    if !BarrierNeeded(s, o, v) then s' == s
    else if KeepInvariant(s) then MarkedFrom(s, v, s')
    else s' == s.(color := s.color[o := White(s.current)])
  }

  ghost predicate MarkedFrom(s: St, v: Val, s': St) {
    MarkStep(s, [v], Refs([v]), s')
  }

  // 'luaC_barrierback_'.
  function BackBarrier(s: St, o: Id, v: Val): St {
    if !BarrierNeeded(s, o, v) then s
    else s.(color := s.color[o := Gray], grayagain := [o] + s.grayagain)
  }

  // 'luaC_upvalbarrier_': the closures that share the upvalue are not known.
  ghost predicate UpvalBarrier(s: St, v: Val, s': St) {
    if v.Ref? && KeepInvariant(s) then MarkedFrom(s, v, s') else s' == s
  }

  function WithBody(s: St, o: Id, b: Body): St {
    s.(h := s.h.(body := s.h.body[o := b]))
  }

  function WithCell(s: St, c: nat, cell: Cell): St {
    s.(h := s.h.(cells := s.h.cells[c := cell]))
  }

  // The registry or a metatable of a basic type has become v.
  ghost predicate Rerooted(s: St, v: Val, s': St) {
    && s' == s.(registry := s'.registry, mt := s'.mt)
    && forall r :: IsRoot(s', r) ==> IsRoot(s, r) || Ref(r) == v
  }

  ghost predicate Next(s: St, e: Event, s': St) {
    && Enabled(s, e)
    && match e
       case Collect => CollectorStep(s, s')
       case Abort => s' == EnterSweep(s)
       case Alloc(b) => s' == NewObj(s, b)
       case Intern(text) => s' == InternStr(s, text)
       case Fix => s' == FixHead(s)
       case Push(v) => s' == PushVal(s, v)
       case Pop => s' == s.(h := s.h.(stack := s.h.stack[..|s.h.stack| - 1]))
       case SetStack(i, v) => s' == s.(h := s.h.(stack := s.h.stack[i := v]))
       case SetMt(i, v) => s' == s.(mt := s.mt[i := v])
       case SetRegistry(v) => s' == s.(registry := v)
       case Store(o, b, v, back) =>
         if back then s' == BackBarrier(WithBody(s, o, b), o, v)
         else ForwardBarrier(WithBody(s, o, b), o, v, s')
       case NewCell(c, slot) => s' == WithCell(s, c, Open(slot))
       case SetCell(c, v) =>
         if s.h.cells[c].Open? then s' == s.(h := s.h.(stack := s.h.stack[s.h.cells[c].slot := v]))
         else UpvalBarrier(WithCell(s, c, Closed(v)), v, s')
       case CloseCell(c) =>
         var v := s.h.stack[s.h.cells[c].slot];
         UpvalBarrier(WithCell(s, c, Closed(v)), v, s')
  }

  // The state 'lua_newstate' leaves: a main thread, and nothing else yet.
  ghost predicate Init(s: St) {
    && s.h == Heap(map[s.main := Thread], map[], []) && s.color == map[s.main := White(s.current)]
    && s.limit == s.main + 1 && s.registry.Plain? && (forall i :: 0 <= i < |s.mt| ==> s.mt[i].Plain?)
    && s.strt == map[] && s.allgc == [] && s.fixedgc == [] && s.phase.Pause?
  }
}
