// Upvalues: cells that alias a stack slot while the variable lives and hold its value afterwards.
module Upvalues {

  datatype Value = Nil | Data(n: int)
  type Id = nat

  // Where an upvalue's value is: in a stack slot (open), or in the upvalue itself (closed).
  datatype Place = Stack(level: nat) | Own

  datatype UpVal = UpVal(v: Place, refcount: nat, value: Value)

  // 'open' is the list 'L->openupval', head first. A closure is the list of its upvalues, [] once it is freed.
  datatype State = State(
    stack: seq<Value>, cells: map<Id, UpVal>, open: seq<Id>, closures: seq<seq<Id>>, next: Id)

  // How a prototype asks for an upvalue: a local of the enclosing function, or one of its upvalues.
  datatype UpvalDesc = UpvalDesc(inStack: bool, idx: nat)

  predicate IsOpen(s: State, u: Id) { u in s.cells && s.cells[u].v.Stack? }

  function LevelOf(s: State, u: Id): nat { if IsOpen(s, u) then s.cells[u].v.level else 0 }

  // ---- the invariant ----

  function Count(us: seq<Id>, u: Id): nat { if us == [] then 0 else (if us[0] == u then 1 else 0) + Count(us[1..], u) }

  // References to u from all closures.
  function References(cs: seq<seq<Id>>, u: Id): nat { if cs == [] then 0 else Count(cs[0], u) + References(cs[1..], u) }

  // The list holds the open upvalues, strictly sorted by stack slot.
  ghost predicate Listed(s: State) {
    && (forall i :: 0 <= i < |s.open| ==> IsOpen(s, s.open[i]) && LevelOf(s, s.open[i]) < |s.stack|)
    && (forall i, j :: 0 <= i < j < |s.open| ==> LevelOf(s, s.open[i]) > LevelOf(s, s.open[j]))
    && (forall u :: IsOpen(s, u) ==> u in s.open)
  }

  // Reference counts are exact, and no closed upvalue is without references.
  ghost predicate Counted(s: State) {
    && (forall u :: u in s.cells ==> s.cells[u].refcount == References(s.closures, u) && u < s.next)
    && (forall u :: u in s.cells && s.cells[u].v.Own? ==> s.cells[u].refcount > 0)
    && (forall c, i :: 0 <= c < |s.closures| && 0 <= i < |s.closures[c]| ==> s.closures[c][i] in s.cells)
  }

  ghost predicate Inv(s: State) { Listed(s) && Counted(s) }

  // ---- the operations ----

  // The first place in the list that is at or below the level.
  function PlaceFor(s: State, open: seq<Id>, level: nat): (p: nat)
    ensures p <= |open|
    ensures forall i :: 0 <= i < p ==> LevelOf(s, open[i]) > level
    ensures p < |open| ==> LevelOf(s, open[p]) <= level
  {
    if open == [] || LevelOf(s, open[0]) <= level then 0 else 1 + PlaceFor(s, open[1..], level)
  }

  // 'luaF_findupval': the open upvalue of a slot, made if there is none.
  function Find(s: State, level: nat): (State, Id) {
    var p := PlaceFor(s, s.open, level);
    if p < |s.open| && LevelOf(s, s.open[p]) == level then (s, s.open[p])
    else
      (s.(cells := s.cells[s.next := UpVal(Stack(level), 0, Nil)],
          open := s.open[..p] + [s.next] + s.open[p..], next := s.next + 1), s.next)
  }

  // A closure gets one more upvalue.
  function Attach(s: State, c: nat, u: Id): State
    requires c < |s.closures| && u in s.cells
  {
    s.(closures := s.closures[c := s.closures[c] + [u]],
       cells := s.cells[u := s.cells[u].(refcount := s.cells[u].refcount + 1)])
  }

  // One round of 'luaF_initupvals': a new closed upvalue, nil.
  function AttachNew(s: State, c: nat): State
    requires c < |s.closures|
  {
    s.(closures := s.closures[c := s.closures[c] + [s.next]],
       cells := s.cells[s.next := UpVal(Own, 1, Nil)], next := s.next + 1)
  }

  // One round of 'freeLclosure', with 'luaC_upvdeccount'.
  function Detach(s: State, c: nat): State
    requires c < |s.closures| && s.closures[c] != [] && s.closures[c][0] in s.cells
  {
    var u := s.closures[c][0];
    var n := if s.cells[u].refcount == 0 then 0 else s.cells[u].refcount - 1;
    var dropped := s.(closures := s.closures[c := s.closures[c][1..]]);
    if n == 0 && s.cells[u].v.Own? then dropped.(cells := s.cells - {u})
    else dropped.(cells := s.cells[u := s.cells[u].(refcount := n)])
  }

  // One round of 'luaF_close': the topmost open upvalue takes its value over, or goes if nobody needs it.
  // The slots from there up are dead.
  function CloseHead(s: State): (t: State)
    requires s.open != [] && IsOpen(s, s.open[0]) && LevelOf(s, s.open[0]) < |s.stack|
    ensures |t.open| < |s.open|
  {
    var u, lev := s.open[0], LevelOf(s, s.open[0]);
    s.(open := s.open[1..], stack := s.stack[..lev],
       cells := if s.cells[u].refcount == 0 then s.cells - {u} else s.cells[u := UpVal(Own, s.cells[u].refcount, s.stack[lev])])
  }

  function ReadCell(s: State, u: Id): Value
    requires u in s.cells && (IsOpen(s, u) ==> LevelOf(s, u) < |s.stack|)
  {
    if IsOpen(s, u) then s.stack[LevelOf(s, u)] else s.cells[u].value
  }

  // 'setobj(L, uv->v, ...)'
  function WriteCell(s: State, u: Id, x: Value): State
    requires u in s.cells && (IsOpen(s, u) ==> LevelOf(s, u) < |s.stack|)
  {
    if IsOpen(s, u) then s.(stack := s.stack[LevelOf(s, u) := x])
    else s.(cells := s.cells[u := s.cells[u].(value := x)])
  }
}
