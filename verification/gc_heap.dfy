// The object graph that the collector works on, and what it means for an object to be accessible.
module GcHeap {

  type Id = nat

  // Plain stands for nil and for every value that is not collectable.
  datatype Val = Plain | Ref(id: Id)

  datatype Body =
    | Str(text: string, short: bool)
    | Udata(meta: Val, user: Val)
    | Table(meta: Val, slots: seq<Val>)
    | LClosure(proto: Val, upvals: seq<nat>)
    | CClosure(vals: seq<Val>)
    | Proto(consts: seq<Val>)
    | Thread

  // An upvalue: it lives in a stack slot until it is closed, and then holds the value itself.
  datatype Cell = Open(slot: nat) | Closed(v: Val)

  datatype Heap = Heap(body: map<Id, Body>, cells: map<nat, Cell>, stack: seq<Val>)

  function CellVal(cells: map<nat, Cell>, c: nat): Val {
    if c in cells && cells[c].Closed? then cells[c].v else Plain
  }

  function CellVals(cells: map<nat, Cell>, upvals: seq<nat>): (vs: seq<Val>)
    ensures |vs| == |upvals| && forall i :: 0 <= i < |vs| ==> vs[i] == CellVal(cells, upvals[i])
  {
    if upvals == [] then [] else [CellVal(cells, upvals[0])] + CellVals(cells, upvals[1..])
  }

  // Every reference an object holds by itself. Open upvalues hold none: their value is in the stack.
  function Slots(h: Heap, id: Id): seq<Val>
    requires id in h.body
  {
    match h.body[id]
    case Str(_, _) => []
    case Udata(meta, user) => [meta, user]
    case Table(meta, slots) => [meta] + slots
    case LClosure(proto, upvals) => [proto] + CellVals(h.cells, upvals)
    case CClosure(vals) => vals
    case Proto(consts) => consts
    case Thread => h.stack
  }

  predicate Points(h: Heap, a: Id, b: Id) {
    a in h.body && Ref(b) in Slots(h, a)
  }

  ghost predicate ClosedUnder(h: Heap, C: set<Id>) {
    forall a, b :: a in C && Points(h, a, b) ==> b in C
  }

  function Refs(vs: seq<Val>): set<Id> {
    set v | v in vs && v.Ref? :: v.id
  }

  // A chain of references from the first to the last object of the path.
  ghost predicate Path(h: Heap, p: seq<Id>) {
    |p| > 0 && forall i :: 0 < i < |p| ==> Points(h, p[i-1], p[i])
  }

  ghost predicate Reaches(h: Heap, a: Id, b: Id) {
    exists p :: Path(h, p) && p[0] == a && p[|p|-1] == b
  }

  lemma {:induction false} PathStays(h: Heap, p: seq<Id>, C: set<Id>)
    requires Path(h, p) && p[0] in C && ClosedUnder(h, C)
    ensures p[|p|-1] in C
  {
    if |p| > 1 {
      var q := p[..|p|-1];
      PathStays(h, q, C);
      assert Points(h, p[|p|-2], p[|p|-1]);
    }
  }

  lemma ReachesStep(h: Heap, a: Id, b: Id, c: Id)
    requires Reaches(h, a, b) && Points(h, b, c)
    ensures Reaches(h, a, c)
  {
    var p :| Path(h, p) && p[0] == a && p[|p|-1] == b;
    var q := p + [c];
    assert Path(h, q) && q[0] == a && q[|q|-1] == c;
  }

  lemma ReachesSelf(h: Heap, a: Id)
    ensures Reaches(h, a, a)
  {
    var p := [a];
    assert Path(h, p) && p[0] == a && p[|p|-1] == a;
  }
}
