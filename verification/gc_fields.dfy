// What an object refers to, field by field, and the objects a program can get at through fields.
module GcFields {
  import opened GcHeap
  import opened GcState

  // v is no reference, or one to an object of C.
  predicate Inside(v: Val, C: set<Id>) { v.Ref? ==> v.id in C }

  predicate AllInside(vs: seq<Val>, C: set<Id>) {
    forall i :: 0 <= i < |vs| ==> Inside(vs[i], C)
  }

  // The values of the closed cells among these.
  predicate CellsInside(cells: map<nat, Cell>, upvals: seq<nat>, C: set<Id>) {
    forall i :: 0 <= i < |upvals| && upvals[i] in cells && cells[upvals[i]].Closed? ==> Inside(cells[upvals[i]].v, C)
  }

  // Every field of the object; the stack of the thread is among the roots below.
  predicate FieldsInside(cells: map<nat, Cell>, b: Body, C: set<Id>) {
    match b
    case Str(_, _) => true
    case Udata(meta, user) => Inside(meta, C) && Inside(user, C)
    case Table(meta, slots) => Inside(meta, C) && AllInside(slots, C)
    case LClosure(proto, upvals) => Inside(proto, C) && CellsInside(cells, upvals, C)
    case CClosure(vals) => AllInside(vals, C)
    case Proto(consts) => AllInside(consts, C)
    case Thread => true
  }

  predicate RootsInside(s: St, C: set<Id>) {
    && s.main in C && AllInside(s.h.stack, C)
    && Inside(s.registry, C) && AllInside(s.mt, C)
    && forall i :: 0 <= i < |s.fixedgc| ==> s.fixedgc[i] in C
  }

  // No root and no field of an object of C refers to anything outside of C.
  ghost predicate Encloses(s: St, C: set<Id>) {
    && RootsInside(s, C)
    && forall id :: id in C && id in s.h.body ==> FieldsInside(s.h.cells, s.h.body[id], C)
  }

  lemma InsideIsIn(vs: seq<Val>, C: set<Id>)
    ensures AllInside(vs, C) <==> forall id :: Ref(id) in vs ==> id in C
  {
    if AllInside(vs, C) {
      forall id | Ref(id) in vs ensures id in C { var i :| 0 <= i < |vs| && vs[i] == Ref(id); assert Inside(vs[i], C); }
    } else {
      var i :| 0 <= i < |vs| && !Inside(vs[i], C);
      assert Ref(vs[i].id) in vs;
    }
  }

  lemma CellsAreValues(cells: map<nat, Cell>, upvals: seq<nat>, C: set<Id>)
    ensures CellsInside(cells, upvals, C) <==> AllInside(CellVals(cells, upvals), C)
  {
    var vs := CellVals(cells, upvals);
    assert forall i :: 0 <= i < |vs| ==> vs[i] == CellVal(cells, upvals[i]);
  }

  // What an object points to is what its fields refer to.
  lemma FieldsAreTargets(h: Heap, a: Id, C: set<Id>)
    requires a in h.body && !h.body[a].Thread?
    ensures FieldsInside(h.cells, h.body[a], C) <==> forall b :: Points(h, a, b) ==> b in C
  {
    var b, vs := h.body[a], Slots(h, a);
    InsideIsIn(vs, C);
    assert (forall b :: Points(h, a, b) ==> b in C) <==> (forall id :: Ref(id) in vs ==> id in C) by {
      assert forall b :: Points(h, a, b) <==> Ref(b) in vs;
    }
    match b
    case Udata(meta, user) => assert vs[0] == meta && vs[1] == user;
    case Table(meta, slots) => HeadInside(meta, slots, C);
    case LClosure(proto, upvals) =>
      CellsAreValues(h.cells, upvals, C);
      HeadInside(proto, CellVals(h.cells, upvals), C);
    case _ =>
  }

  lemma HeadInside(v: Val, vs: seq<Val>, C: set<Id>)
    ensures AllInside([v] + vs, C) <==> Inside(v, C) && AllInside(vs, C)
  {
    var all := [v] + vs;
    assert all[0] == v && forall i :: 0 <= i < |vs| ==> all[i + 1] == vs[i];
  }

  lemma StackAreTargets(s: St, C: set<Id>)
    requires s.main in s.h.body && s.h.body[s.main].Thread?
    ensures AllInside(s.h.stack, C) <==> forall b :: Points(s.h, s.main, b) ==> b in C
  {
    InsideIsIn(s.h.stack, C);
    assert forall b :: Points(s.h, s.main, b) <==> Ref(b) in s.h.stack;
  }

  lemma RootsAreInside(s: St, C: set<Id>)
    requires AllInside(s.h.stack, C)
    ensures RootsInside(s, C) <==> HasRoots(s, C)
  {
    InsideIsIn(s.mt, C);
    if HasRoots(s, C) {
      assert IsRoot(s, s.main);
      assert s.registry.Ref? ==> IsRoot(s, s.registry.id);
      forall id | Ref(id) in s.mt ensures id in C { assert IsRoot(s, id); }
      forall i | 0 <= i < |s.fixedgc| ensures s.fixedgc[i] in C { assert IsRoot(s, s.fixedgc[i]); }
    }
  }

  lemma EnclosesIsClosed(s: St, C: set<Id>)
    requires WellFormed(s)
    ensures Encloses(s, C) <==> HasRoots(s, C) && ClosedUnder(s.h, C)
  {
    hide RootsInside, FieldsInside, AllInside;
    StackAreTargets(s, C);
    if AllInside(s.h.stack, C) { RootsAreInside(s, C); }
    if HasRoots(s, C) { assert IsRoot(s, s.main); }
    forall id | id in s.h.body && id != s.main ensures FieldsInside(s.h.cells, s.h.body[id], C) <==> forall b :: Points(s.h, id, b) ==> b in C {
      FieldsAreTargets(s.h, id, C);
    }
    ThreadInside(s, C);
  }

  lemma ThreadInside(s: St, C: set<Id>)
    ensures RootsInside(s, C) ==> s.main in C && AllInside(s.h.stack, C)
    ensures forall id :: id in s.h.body && s.h.body[id].Thread? ==> FieldsInside(s.h.cells, s.h.body[id], C)
  {
  }

  // An object is accessible exactly when it is in every set that encloses the roots and all fields.
  lemma AccIsLeast(s: St, id: Id)
    requires Inv(s)
    ensures Acc(s, id) <==> forall C: set<Id> :: Encloses(s, C) ==> id in C
  {
    if Acc(s, id) {
      forall C: set<Id> | Encloses(s, C) ensures id in C {
        EnclosesIsClosed(s, C);
        AccInClosed(s, id, C);
      }
    } else {
      var C := Accessible(s);
    }
  }

  // The accessible objects: no field of them, and no root, refers to anything else, nor to a freed object.
  ghost function Accessible(s: St): (C: set<Id>)
    requires Inv(s)
    ensures forall id :: id in C <==> Acc(s, id)
    ensures C <= s.h.body.Keys && Encloses(s, C)
  {
    var C := set id | id in s.h.body && Acc(s, id);
    assert forall id :: Acc(s, id) ==> id in C by { forall id | Acc(s, id) ensures id in C { AccessibleIsLive(s, id); } }
    assert HasRoots(s, C) by { forall r | IsRoot(s, r) ensures r in C { RootAcc(s, r); } }
    assert ClosedUnder(s.h, C) by { forall a, b | a in C && Points(s.h, a, b) ensures b in C { AccStep(s, a, b); } }
    EnclosesIsClosed(s, C);
    C
  }
}
