// What 'propagateall' and 'atomic' achieve, step by step.
module GcAtomic {
  import opened GcHeap
  import opened GcState
  import opened GcSteps
  import opened GcProofs

  ghost function Whites(s: St): set<Id> {
    set id | id in s.color && s.color[id].White?
  }

  ghost function Elems(q: seq<Id>): set<Id> {
    set id | id in q
  }

  // Every gray object is in the gray list, those of X apart.
  ghost predicate GrayIn(s: St, X: set<Id>) {
    && GrayList(s, s.gray)
    && (forall id :: id in s.color && s.color[id].Gray? ==> id in s.gray || id in X)
    && (forall id :: id in s.color && s.color[id].Black? ==> id in s.h.body && !s.h.body[id].Thread?)
  }

  // Marking only adds marks.
  ghost predicate Grown(s: St, s': St) {
    && s' == s.(color := s'.color, gray := s'.gray, grayagain := s'.grayagain)
    && s'.color.Keys == s.color.Keys
    && (forall id :: Marked(s, id) ==> Marked(s', id))
    && (forall id :: IsWhite(s', id) ==> s'.color[id] == s.color[id])
    && (forall id :: id in s.fixedgc && id in s.color ==> s'.color[id] == s.color[id])
  }

  // The graph under the marks, which marking leaves alone.
  ghost predicate Sound(s: St) {
    && s.color.Keys == s.h.body.Keys && (forall a, b :: Points(s.h, a, b) ==> b in s.h.body) && CellsOk(s.h)
    && s.main in s.h.body && (forall id :: id in s.h.body ==> (s.h.body[id].Thread? <==> id == s.main))
    && FixedGray(s) && s.main !in s.fixedgc && (forall id :: id in s.fixedgc ==> id in s.h.body && s.h.body[id].Str?)
  }

  // The invariant of 'propagateall'.
  ghost predicate Marking(s: St, X: set<Id>) {
    Sound(s) && GrayIn(s, X) && s.main in X && BlackClosedBut(s, {})
  }

  ghost predicate MainDone(s: St) {
    s.main in s.gray || AllMarked(s, s.h.stack)
  }

  lemma TakenMarking(s: St, X: set<Id>)
    requires Marking(s, X) && s.gray != []
    ensures GrayIn(Taken(s), X) && BlackClosedBut(Taken(s), {s.gray[0]}) && Grown(s, Taken(s))
    ensures Elems(Taken(s).gray) == Elems(s.gray) - {s.gray[0]}
  {
    var t := Taken(s);
    var o := s.gray[0];
    assert o in s.gray;
    forall id ensures id in t.gray <==> id in s.gray && id != o {
      if id in t.gray { var i :| 0 <= i < |t.gray| && t.gray[i] == id; assert s.gray[i+1] == id; }
      if id in s.gray && id != o { var i :| 0 <= i < |s.gray| && s.gray[i] == id; assert t.gray[i-1] == id; }
    }
  }

  lemma MarksGrow(s: St, m: St)
    requires Marks(s, m) && FixedGray(s)
    ensures Grown(s, m) && FixedGray(m)
  {
  }

  lemma MarksKeepGrayIn(s: St, m: St, X: set<Id>)
    requires Marks(s, m) && GrayIn(s, X) && FixedGray(s)
    ensures GrayIn(m, X)
  {
    forall id | id in m.gray ensures id in m.color && id in m.h.body && m.color[id].Gray? && id !in m.fixedgc && !m.h.body[id].Str? {
      assert id in s.gray || NewlyGray(s, m, id);
    }
    assert forall id :: id in s.gray ==> Marked(s, id);
    forall id | id in m.color && m.color[id].Gray? ensures id in m.gray || id in X {
      if s.color[id] != m.color[id] { assert NewlyGray(s, m, id); }
    }
    forall id | id in m.color && m.color[id].Black? ensures id in m.h.body && !m.h.body[id].Thread? {
      if s.color[id] != m.color[id] { assert NewlyBlack(s, m, id); }
    }
  }

  lemma OneKeepsMarking(s: St, m: St, X: set<Id>)
    requires Marking(s, X) && PropagatesOne(s, m)
    ensures Marking(m, X) && Grown(s, m)
  {
    var t := Taken(s);
    TakenMarking(s, X);
    assert FixedGray(t) by { assert s.gray[0] in s.gray; }
    MarksGrow(t, m);
    MarksKeepGrayIn(t, m, X);
    assert BlackClosedBut(m, {}) by {
      MarksKeepBlack(t, m, {s.gray[0]});
      forall b | Points(m.h, s.gray[0], b) ensures Marked(m, b) { assert Ref(b) in Slots(s.h, s.gray[0]); }
    }
  }

  lemma OneShrinks(s: St, m: St, X: set<Id>)
    requires Marking(s, X) && PropagatesOne(s, m)
    ensures Whites(m) < Whites(s) || (Whites(m) == Whites(s) && Elems(m.gray) < Elems(s.gray))
  {
    var t := Taken(s);
    var o := s.gray[0];
    TakenMarking(s, X);
    assert o in s.gray && o in Elems(s.gray);
    assert Whites(t) == Whites(s);
    if Whites(m) == Whites(s) {
      forall id | id in m.gray ensures id in t.gray {
        assert id in Whites(m) <==> id in Whites(t);
      }
    }
  }

  lemma OneListed(s: St, m: St)
    requires Listed(s) && Sound(s) && PropagatesOne(s, m) && ListsOk(s.h.body, s.main, s.limit, s.allgc, s.fixedgc)
    ensures Listed(m)
  {
    TakenLists(s);
    assert FixedGray(Taken(s)) by { assert s.gray[0] in s.gray; }
    MarksKeepLists(Taken(s), m);
  }

  // The main thread is out of the gray list only when its stack is marked.
  lemma OneMain(s: St, m: St, X: set<Id>)
    requires Marking(s, X) && PropagatesOne(s, m)
    ensures MainDone(s) ==> MainDone(m)
    ensures s.main !in s.gray && Marked(s, s.main) ==> m.grayagain == s.grayagain && m.main !in m.gray && Marked(m, m.main)
  {
    var t := Taken(s);
    var o := s.gray[0];
    TakenMarking(s, X);
    OneKeepsMarking(s, m, X);
    assert o in s.gray;
    if o == s.main {
      assert AllMarked(m, s.h.stack);
    } else if s.main in s.gray {
      assert s.main in Elems(t.gray);
    } else if MainDone(s) {
      assert AllMarked(m, s.h.stack) by { forall id | Ref(id) in s.h.stack ensures Marked(m, id) { assert Marked(s, id); } }
    }
    if s.main !in s.gray && Marked(s, s.main) {
      assert !NewlyGray(t, m, s.main);
      assert s.main in t.gray <==> s.main in Elems(t.gray);
    }
  }

  lemma OneFrom(s0: St, s: St, m: St, seeds: set<Id>)
    requires Grown(s0, s) && From(s0, s, seeds) && PropagatesOne(s, m) && s0.main in seeds
    requires forall id :: id in s.gray ==> Follows(s0.h, seeds, id)
    ensures From(s0, m, seeds)
  {
    var t := Taken(s);
    var o := s.gray[0];
    assert o in s.gray;
    forall C: set<Id> | ClosedUnder(s0.h, C) && seeds <= C ensures Within(s0, m, C) {
      assert Within(s0, s, C) && o in C;
      assert {o, s.main} <= C;
      assert Within(t, m, C);
    }
  }

  // What 'propagateall' has done so far, from s0.
  ghost predicate Progress(s0: St, s: St, X: set<Id>, seeds: set<Id>) {
    && Marking(s, X) && Grown(s0, s) && From(s0, s, seeds)
    && (forall id :: id in s.gray ==> Follows(s0.h, seeds, id))
    && (MainDone(s0) ==> MainDone(s))
    && (Listed(s0) ==> Listed(s))
    && (s0.main !in s0.gray && Marked(s0, s0.main) ==> s.grayagain == s0.grayagain && s.main !in s.gray && Marked(s, s.main))
  }

  lemma ProgressStart(s: St, X: set<Id>, seeds: set<Id>)
    requires Marking(s, X) && forall id :: id in s.gray ==> Follows(s.h, seeds, id)
    ensures Progress(s, s, X, seeds)
  {
  }

  lemma ProgressStep(s0: St, s: St, m: St, X: set<Id>, seeds: set<Id>)
    requires Progress(s0, s, X, seeds) && PropagatesOne(s, m) && s0.main in seeds
    requires ListsOk(s.h.body, s.main, s.limit, s.allgc, s.fixedgc)
    ensures Progress(s0, m, X, seeds)
  {
    OneKeepsMarking(s, m, X);
    OneFrom(s0, s, m, seeds);
    OneMain(s, m, X);
    if Listed(s0) { OneListed(s, m); }
    GrownTransitive(s0, s, m);
    forall id | id in m.gray && Marked(s, id) ensures Follows(s0.h, seeds, id) {
      assert id in Taken(s).gray || NewlyGray(Taken(s), m, id);
      TakenMarking(s, X);
      assert id in Elems(s.gray);
    }
    NewGrayFollows(s0, s, m, X, seeds);
  }

  lemma GrownTransitive(a: St, b: St, c: St)
    requires Grown(a, b) && Grown(b, c)
    ensures Grown(a, c)
  {
  }

  lemma NewGrayFollows(s0: St, s: St, m: St, X: set<Id>, seeds: set<Id>)
    requires Marking(m, X) && Grown(s0, s) && Grown(s, m) && From(s0, m, seeds)
    requires forall id :: id in m.gray && Marked(s, id) ==> Follows(s0.h, seeds, id)
    ensures forall id :: id in m.gray ==> Follows(s0.h, seeds, id)
  {
    forall id | id in m.gray && !Marked(s, id) ensures Follows(s0.h, seeds, id) {
      assert !Marked(s0, id) && Marked(m, id);
      forall C: set<Id> | ClosedUnder(s0.h, C) && seeds <= C ensures id in C { assert Within(s0, m, C); }
    }
  }

  // ---- the two passes of 'atomic' ----

  ghost function Seeds(s: St): set<Id> {
    set id | id in s.color && (Marked(s, id) || IsRoot(s, id))
  }

  lemma SeedFollows(h: Heap, seeds: set<Id>, id: Id)
    requires id in seeds
    ensures Follows(h, seeds, id)
  {
  }

  // The list saved from 'grayagain' becomes the gray list of the second pass.
  lemma GrayAgain(s: St)
    requires Marking(s, Again(s)) && Listed(s) && s.gray == [] && Marked(s, s.main)
    ensures Marking(s.(gray := s.grayagain), {s.main} + Elems(s.fixedgc)) && MainDone(s.(gray := s.grayagain))
  {
    var e := s.(gray := s.grayagain);
    assert BlackClosedBut(e, {}) by {
      forall x, y | x in e.color && e.color[x].Black? && Points(e.h, x, y) ensures Marked(e, y) { assert Marked(s, y); }
    }
    assert s.main in s.grayagain;
  }

  lemma PassesMark(s: St, m: St)
    requires Marking(m, {m.main} + Elems(m.fixedgc)) && m.gray == [] && MainDone(m) && Grown(s, m)
    requires RootsMarked(m) && From(s, m, Seeds(s))
    ensures AtomicMarks(s, m)
  {
    forall a, b | Marked(m, a) && Points(m.h, a, b) ensures Marked(m, b) {
      if m.color[a].Gray? {
        if a == m.main { assert Ref(b) in m.h.stack; }
      }
    }
    forall C: set<Id> | ClosedUnder(s.h, C) && HasRoots(s, C) && (forall id :: Marked(s, id) ==> id in C) ensures Within(s, m, C) {
      assert Seeds(s) <= C;
    }
  }

  lemma FromJoin(a: St, b: St, c: St, seeds: set<Id>)
    requires b.h == a.h && From(a, b, seeds) && From(b, c, seeds)
    ensures From(a, c, seeds)
  {
    forall id | id in seeds ensures Follows(a.h, seeds, id) { SeedFollows(a.h, seeds, id); }
    FromTransitive(a, b, c, seeds, seeds);
  }

  lemma MarkedFollows(s: St, s': St, seeds: set<Id>)
    requires From(s, s', seeds) && forall id :: Marked(s, id) ==> id in seeds
    ensures forall id :: Marked(s', id) ==> Follows(s.h, seeds, id)
  {
    forall id | Marked(s', id) ensures Follows(s.h, seeds, id) {
      forall C: set<Id> | ClosedUnder(s.h, C) && seeds <= C ensures id in C { assert Within(s, s', C); }
    }
  }

  lemma RootsStayMarked(s: St, s': St)
    requires RootsMarked(s) && Grown(s, s')
    ensures RootsMarked(s')
  {
    forall r | IsRoot(s', r) ensures Marked(s', r) { assert IsRoot(s, r); }
  }

  // The invariant at the start of the atomic step.
  lemma InvIsMarking(s: St)
    requires Inv(s) && s.phase.Atomic?
    ensures Marking(s, Again(s)) && Listed(s) && Marked(s, s.main)
  {
    LiveTargets(s);
    forall id | id in s.color && s.color[id].Gray? ensures id in s.gray || id in Again(s) {
      assert id in s.gray || id in Elems(s.grayagain) || id in Elems(s.fixedgc);
    }
  }

  lemma LiveTargets(s: St)
    requires WellFormed(s) && Safe(s) && NoDead(s)
    ensures Sound(s)
  {
    forall a, b | Points(s.h, a, b) ensures b in s.h.body { assert Live(s, a); assert Live(s, b); }
  }

  ghost function Again(s: St): set<Id> {
    Elems(s.grayagain) + Elems(s.fixedgc) + {s.main}
  }

  // Between the steps of 'atomic', counted from s0.
  ghost predicate AtPass(s0: St, s: St) {
    && Marking(s, Again(s)) && Listed(s) && Marked(s, s.main) && s.main !in s.gray
    && Grown(s0, s) && From(s0, s, Seeds(s0))
  }

  // The propagation that empties the gray list before 'atomic' starts.
  lemma FirstPass(s: St, a: St)
    requires Inv(s) && s.phase.Atomic? && Progress(s, a, Again(s), Seeds(s)) && a.gray == []
    ensures AtPass(s.(phase := InsideAtomic), a.(phase := InsideAtomic))
  {
    InvIsMarking(s);
    FromPhase(s, a, Seeds(s), InsideAtomic);
    GrownPhase(s, a, InsideAtomic);
    EmptyGray(a, Again(s));
    MarkingPhase(a, Again(a), InsideAtomic);
    assert Seeds(s.(phase := InsideAtomic)) == Seeds(s);
  }

  // With an empty gray list, what is gray is in 'grayagain', or fixed.
  lemma EmptyGray(a: St, X: set<Id>)
    requires Marking(a, X) && Listed(a) && a.gray == []
    ensures Marking(a, Again(a))
  {
  }

  lemma MarkingPhase(a: St, X: set<Id>, p: Phase)
    requires Marking(a, X) && Listed(a)
    ensures Marking(a.(phase := p), X) && Listed(a.(phase := p))
  {
    var b := a.(phase := p);
    forall x, y | x in b.color && b.color[x].Black? && Points(b.h, x, y) ensures Marked(b, y) { assert Marked(a, y); }
  }

  lemma GrownPhase(s: St, a: St, p: Phase)
    requires Grown(s, a)
    ensures Grown(s.(phase := p), a.(phase := p))
  {
    var s0 := s.(phase := p);
    var b := a.(phase := p);
    forall id | Marked(s0, id) ensures Marked(b, id) { assert Marked(s, id); assert Marked(a, id); }
    forall id | IsWhite(b, id) ensures b.color[id] == s0.color[id] { assert IsWhite(a, id); }
  }

  lemma FromPhase(s: St, a: St, seeds: set<Id>, p: Phase)
    requires From(s, a, seeds)
    ensures From(s.(phase := p), a.(phase := p), seeds)
  {
    forall C: set<Id> | ClosedUnder(s.h, C) && seeds <= C ensures Within(s.(phase := p), a.(phase := p), C) {
      assert Within(s, a, C);
      forall id | Marked(a.(phase := p), id) ensures Marked(s.(phase := p), id) || id in C { assert Marked(a, id); }
    }
  }

  lemma RootsPass(s0: St, b: St, c: St, vs: seq<Val>)
    requires AtPass(s0, b) && b.gray == [] && MarkStep(b, vs, Refs(vs), c) && Refs(vs) <= Seeds(s0)
    ensures AtPass(s0, c) && c.grayagain == b.grayagain
    ensures forall id :: id in c.gray ==> Follows(c.h, Seeds(s0), id)
  {
    MarksGrow(b, c);
    MarksKeepGrayIn(b, c, Again(b));
    MarksKeepBlack(b, c, {});
    MarksKeepLists(b, c);
    GrownTransitive(s0, b, c);
    MoreFrom(b, c, Refs(vs), Seeds(s0));
    FromJoin(s0, b, c, Seeds(s0));
    MarkedFollows(s0, c, Seeds(s0));
    assert forall id :: id in c.gray ==> Marked(c, id);
    assert !NewlyGray(b, c, b.main);
  }

  lemma MoreFrom(s: St, m: St, seeds: set<Id>, more: set<Id>)
    requires From(s, m, seeds) && seeds <= more
    ensures From(s, m, more)
  {
  }

  lemma SecondPassFrom(s0: St, c: St, d: St)
    requires AtPass(s0, c) && RootsMarked(c) && Progress(c, d, Again(c), Seeds(s0))
    ensures RootsMarked(d) && From(s0, d, Seeds(s0)) && forall id :: id in d.grayagain ==> Follows(d.h, Seeds(s0), id)
  {
    RootsStayMarked(c, d);
    FromJoin(s0, c, d, Seeds(s0));
    MarkedFollows(s0, d, Seeds(s0));
    assert forall id :: id in d.grayagain ==> Marked(d, id);
  }

  lemma SecondPass(s0: St, c: St, d: St)
    requires AtPass(s0, c) && RootsMarked(c) && Progress(c, d, Again(c), Seeds(s0)) && d.gray == []
    ensures d.grayagain == c.grayagain && RootsMarked(d) && Grown(s0, d.(gray := d.grayagain)) && From(s0, d, Seeds(s0))
    ensures Marking(d.(gray := d.grayagain), {d.main} + Elems(d.fixedgc)) && MainDone(d.(gray := d.grayagain))
    ensures forall id :: id in d.grayagain ==> Follows(d.h, Seeds(s0), id)
  {
    hide From, Seeds, RootsMarked, Follows;
    SecondPassFrom(s0, c, d);
    GrownTransitive(s0, c, d);
    GrayAgain(d);
  }

  lemma LastPass(s0: St, d: St, f: St)
    requires Grown(s0, d.(gray := d.grayagain)) && From(s0, d, Seeds(s0)) && RootsMarked(d)
    requires MainDone(d.(gray := d.grayagain)) && f.gray == []
    requires Progress(d.(gray := d.grayagain), f, {d.main} + Elems(d.fixedgc), Seeds(s0))
    ensures AtomicMarks(s0, f)
  {
    var e := d.(gray := d.grayagain);
    GrownTransitive(s0, e, f);
    assert RootsMarked(e) by { forall r | IsRoot(e, r) ensures Marked(e, r) { assert IsRoot(d, r); assert Marked(d, r); } }
    RootsStayMarked(e, f);
    assert From(s0, e, Seeds(s0)) by {
      forall C: set<Id> | ClosedUnder(s0.h, C) && Seeds(s0) <= C ensures Within(s0, e, C) {
        assert Within(s0, d, C);
        forall id | Marked(e, id) ensures Marked(s0, id) || id in C { assert Marked(d, id); }
      }
    }
    FromJoin(s0, e, f, Seeds(s0));
    PassesMark(s0, f);
  }

  lemma PhaseIrrelevant(s: St, m: St, p: Phase)
    requires AtomicMarks(s.(phase := p), m)
    ensures AtomicMarks(s, m.(phase := s.phase))
  {
    var m' := m.(phase := s.phase);
    var s0 := s.(phase := p);
    forall r | IsRoot(m', r) ensures Marked(m', r) { assert IsRoot(m, r); assert Marked(m, r); }
    forall a, b | Marked(m', a) && Points(m'.h, a, b) ensures Marked(m', b) { assert Marked(m, a); assert Marked(m, b); }
    forall C: set<Id> | ClosedUnder(s.h, C) && HasRoots(s, C) && (forall id :: Marked(s, id) ==> id in C) ensures Within(s, m', C) {
      assert HasRoots(s0, C) by { forall r | IsRoot(s0, r) ensures r in C { assert IsRoot(s, r); } }
      assert forall id :: Marked(s0, id) ==> Marked(s, id);
      assert Within(s0, m, C);
    }
    forall id | IsWhite(m', id) ensures m'.color[id] == s.color[id] { assert IsWhite(m, id); }
    forall id | Marked(s, id) ensures Marked(m', id) { assert Marked(s0, id); }
  }
}
