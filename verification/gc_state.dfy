// The collector's global state, the colours, and the invariants that lgc.h states.
module GcState {
  import opened GcHeap

  // White carries which of the two whites it is.
  datatype Color = White(w: bool) | Gray | Black

  datatype Phase = Propagate | Atomic | InsideAtomic | SwpAllgc | SwpFinobj | SwpTobefnz | SwpEnd | CallFin | Pause

  // The pointer 'sweepgc': NULL, the list header, or the 'next' field of an object.
  datatype Cursor = Off | AtHead | After(id: Id)

  datatype St = St(
    h: Heap,
    color: map<Id, Color>,
    limit: Id,                 // identities below this one have been given out
    main: Id,                  // the main thread, in no list
    registry: Val,
    mt: seq<Val>,              // metatables of the basic types
    strt: map<string, Id>,     // the table of short strings
    allgc: seq<Id>,
    fixedgc: seq<Id>,
    gray: seq<Id>,
    grayagain: seq<Id>,
    phase: Phase,
    current: bool,             // which white is the current one
    sweepgc: Cursor)

  predicate IsWhite(s: St, id: Id) { id in s.color && s.color[id].White? }

  predicate Marked(s: St, id: Id) { id in s.color && !s.color[id].White? }

  // Carries the other white: in a sweep, such an object is freed when the sweep meets it.
  predicate IsDead(s: St, id: Id) { id in s.color && s.color[id] == White(!s.current) }

  predicate Live(s: St, id: Id) { id in s.color && s.color[id] != White(!s.current) }

  predicate KeepInvariant(s: St) { s.phase.Propagate? || s.phase.Atomic? }

  predicate SweepPhase(s: St) {
    s.phase.SwpAllgc? || s.phase.SwpFinobj? || s.phase.SwpTobefnz? || s.phase.SwpEnd?
  }

  predicate IsRoot(s: St, id: Id) {
    id == s.main || s.registry == Ref(id) || Ref(id) in s.mt || id in s.fixedgc
  }

  // Accessible: reached from a root by some chain of references.
  ghost predicate Acc(s: St, id: Id) {
    exists r :: IsRoot(s, r) && Reaches(s.h, r, id)
  }

  ghost predicate HasRoots(s: St, C: set<Id>) {
    forall r :: IsRoot(s, r) ==> r in C
  }

  lemma AccInClosed(s: St, id: Id, C: set<Id>)
    requires Acc(s, id) && HasRoots(s, C) && ClosedUnder(s.h, C)
    ensures id in C
  {
    var r :| IsRoot(s, r) && Reaches(s.h, r, id);
    var p :| Path(s.h, p) && p[0] == r && p[|p|-1] == id;
    PathStays(s.h, p, C);
  }

  lemma AccStep(s: St, a: Id, b: Id)
    requires Acc(s, a) && Points(s.h, a, b)
    ensures Acc(s, b)
  {
    var r :| IsRoot(s, r) && Reaches(s.h, r, a);
    ReachesStep(s.h, r, a, b);
  }

  lemma RootAcc(s: St, r: Id)
    requires IsRoot(s, r)
    ensures Acc(s, r)
  {
    ReachesSelf(s.h, r);
  }

  ghost predicate NoDups<T>(q: seq<T>) {
    forall i, j :: 0 <= i < j < |q| ==> q[i] != q[j]
  }

  // Every object is in exactly one list, the main thread in none.
  ghost predicate ListsOk(body: map<Id, Body>, main: Id, limit: Id, allgc: seq<Id>, fixedgc: seq<Id>) {
    && main in body
    && (forall id :: id in body ==> id < limit && (body[id].Thread? <==> id == main))
    && (forall id :: id in body <==> id == main || id in allgc || id in fixedgc)
    && NoDups(allgc) && main !in allgc && main !in fixedgc
    && (forall id :: id in fixedgc ==> id !in allgc && body[id].Str?)
  }

  // The short-string table holds every short string, under its text.
  ghost predicate StringsOk(body: map<Id, Body>, strt: map<string, Id>) {
    && (forall t :: t in strt ==> strt[t] in body && body[strt[t]] == Str(t, true))
    && (forall id :: id in body && body[id].Str? && body[id].short ==> body[id].text in strt && strt[body[id].text] == id)
  }

  ghost predicate CellsOk(h: Heap) {
    forall c :: c in h.cells && h.cells[c].Open? ==> h.cells[c].slot < |h.stack|
  }

  // Fixed objects stay gray for ever.
  ghost predicate FixedGray(s: St) {
    forall id :: id in s.fixedgc ==> id in s.color && s.color[id].Gray?
  }

  ghost predicate WellFormed(s: St) {
    && s.color.Keys == s.h.body.Keys
    && ListsOk(s.h.body, s.main, s.limit, s.allgc, s.fixedgc)
    && StringsOk(s.h.body, s.strt)
    && CellsOk(s.h)
    && FixedGray(s)
  }

  // The objects that no sweep will free contain the roots and everything they refer to.
  ghost predicate Safe(s: St) {
    && (forall r :: IsRoot(s, r) ==> Live(s, r))
    && (forall a, b :: Live(s, a) && Points(s.h, a, b) ==> Live(s, b))
  }

  ghost predicate NoDead(s: St) {
    forall id :: id in s.color ==> Live(s, id)
  }

  // No black object, those of X apart, points to a white one.
  ghost predicate BlackClosedBut(s: St, X: set<Id>) {
    forall a, b :: a in s.color && s.color[a].Black? && a !in X && Points(s.h, a, b) ==> Marked(s, b)
  }

  // A list of gray objects threaded through 'gclist': no object occurs in it twice.
  ghost predicate GrayList(s: St, q: seq<Id>) {
    && NoDups(q)
    && (forall id :: id in q ==> id in s.color && id in s.h.body && s.color[id].Gray? && id !in s.fixedgc && !s.h.body[id].Str?)
  }

  // Every gray object but the fixed ones is in exactly one gray list.
  ghost predicate Listed(s: St) {
    && GrayList(s, s.gray) && GrayList(s, s.grayagain)
    && (forall id :: id in s.gray ==> id !in s.grayagain)
    && (forall id :: id in s.color && s.color[id].Gray? ==>
          id in s.gray || id in s.grayagain || id in s.fixedgc)
    && (forall id :: id in s.color && s.color[id].Black? ==> id in s.h.body && !s.h.body[id].Thread?)
  }

  // The invariant of the marking phases.
  ghost predicate Tricolor(s: St) {
    && NoDead(s)
    && BlackClosedBut(s, {})
    && Listed(s)
    && s.main in s.color && s.color[s.main].Gray?
    && (s.phase.Propagate? ==> s.gray != [])
  }

  function Find(q: seq<Id>, id: Id): (i: nat)
    ensures i <= |q| && (i < |q| ==> q[i] == id) && (i == |q| ==> id !in q)
  {
    if q == [] then 0 else if q[0] == id then 0 else 1 + Find(q[1..], id)
  }

  // The part of 'allgc' that the sweep has not visited.
  function Rest(s: St): seq<Id> {
    match s.sweepgc
    case Off => []
    case AtHead => s.allgc
    case After(id) => var i := Find(s.allgc, id); if i < |s.allgc| then s.allgc[i+1..] else []
  }

  ghost predicate CursorOk(s: St) {
    s.sweepgc.After? ==> s.sweepgc.id in s.allgc
  }

  // What the sweep has passed is white again.
  ghost predicate Swept(s: St) {
    forall id :: id in s.allgc && id !in Rest(s) ==> id in s.color && s.color[id] == White(s.current)
  }

  ghost predicate Sweeping(s: St) {
    if s.phase.SwpAllgc? then !s.sweepgc.AtHead? && CursorOk(s) && Swept(s)
    else forall id :: id in s.allgc ==> id in s.color && s.color[id] == White(s.current)
  }

  // Between cycles, everything but the fixed objects carries the current white.
  ghost predicate AllWhite(s: St) {
    forall id :: id in s.color && id !in s.fixedgc ==> s.color[id] == White(s.current)
  }

  ghost predicate Inv(s: St) {
    && WellFormed(s)
    && Safe(s)
    && !s.phase.InsideAtomic?
    && (KeepInvariant(s) ==> Tricolor(s))
    && (SweepPhase(s) ==> Sweeping(s))
    && (s.phase.CallFin? || s.phase.Pause? ==> AllWhite(s))
  }

  // No accessible object has been freed, and none is due to be.
  lemma AccessibleIsLive(s: St, id: Id)
    requires Inv(s) && Acc(s, id)
    ensures id in s.h.body && Live(s, id)
  {
    var C := set x | x in s.color && Live(s, x);
    assert HasRoots(s, C);
    AccInClosed(s, id, C);
  }
}
