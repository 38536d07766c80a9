// Whole runs: capturing, writing, closing and releasing in any order, against one private cell per variable.
module UpvalueRuns {
  import opened Upvalues
  import opened UpvalueProofs

  // ---- pushclosure ----

  // The enclosing function has 'top' slots and 'nup' upvalues.
  ghost predicate ValidDescs(top: nat, nup: nat, base: nat, descs: seq<UpvalDesc>) {
    forall i :: 0 <= i < |descs| ==> if descs[i].inStack then base + descs[i].idx < top else descs[i].idx < nup
  }

  // The upvalue one description asks for.
  function Captured(s: State, encl: nat, base: nat, d: UpvalDesc): (State, Id)
    requires encl < |s.closures| && (!d.inStack ==> d.idx < |s.closures[encl]|)
  {
    if d.inStack then Find(s, base + d.idx) else (s, s.closures[encl][d.idx])
  }

  lemma CapturedKeeps(s: State, encl: nat, base: nat, d: UpvalDesc)
    requires Inv(s) && encl < |s.closures| && (if d.inStack then base + d.idx < |s.stack| else d.idx < |s.closures[encl]|)
    ensures var (t, u) := Captured(s, encl, base, d); Inv(t) && u in t.cells && t.closures == s.closures && t.stack == s.stack
  {
    hide Inv, Find;
    ClosuresKnown(s);
    if d.inStack { FindKeeps(s, base + d.idx); }
  }

  // The loop of 'pushclosure': closure c gets the upvalues that are asked for.
  ghost function Filled(s: State, c: nat, encl: nat, base: nat, descs: seq<UpvalDesc>): (t: State)
    requires Inv(s) && c < |s.closures| && encl < |s.closures| && encl != c && ValidDescs(|s.stack|, |s.closures[encl]|, base, descs)
    ensures Inv(t)
    decreases |descs|
  {
    if descs == [] then s
    else
      CapturedKeeps(s, encl, base, descs[0]);
      var (t, u) := Captured(s, encl, base, descs[0]);
      AttachKeeps(t, c, u);
      Filled(Attach(t, c, u), c, encl, base, descs[1..])
  }

  // The variables it asks for.
  function VarOf(e: Env, encl: nat, base: nat, d: UpvalDesc): Id
    requires encl < |e.closures| && (if d.inStack then base + d.idx < |e.locals| else d.idx < |e.closures[encl]|)
  {
    if d.inStack then e.locals[base + d.idx] else e.closures[encl][d.idx]
  }

  ghost function VarsOf(e: Env, encl: nat, base: nat, descs: seq<UpvalDesc>): seq<Id>
    requires encl < |e.closures| && ValidDescs(|e.locals|, |e.closures[encl]|, base, descs)
  {
    seq(|descs|, i requires 0 <= i < |descs| => VarOf(e, encl, base, descs[i]))
  }

  lemma CapturedRefines(s: State, e: Env, rep: map<Id, Id>, encl: nat, base: nat, d: UpvalDesc) returns (next: map<Id, Id>)
    requires Refines(s, e, rep) && encl < |s.closures| && (if d.inStack then base + d.idx < |s.stack| else d.idx < |s.closures[encl]|)
    ensures encl < |e.closures| && |e.closures[encl]| == |s.closures[encl]| && |e.locals| == |s.stack|
    ensures var (t, u) := Captured(s, encl, base, d);
      Refines(t, e, next) && u in t.cells && u in next && next[u] == VarOf(e, encl, base, d)
  {
    hide Inv, Find;
    assert ListAgrees(s.closures[encl], e.closures[encl], rep);
    if d.inStack { next := FindRefines(s, e, rep, base + d.idx); } else { next := rep; }
  }

  // The lists of upvalues and of variables have the same lengths.
  lemma SameShape(s: State, e: Env, rep: map<Id, Id>)
    requires Refines(s, e, rep)
    ensures Inv(s) && |e.locals| == |s.stack| && |e.closures| == |s.closures|
    ensures forall c :: 0 <= c < |s.closures| ==> |e.closures[c]| == |s.closures[c]|
  {
    hide Inv;
    forall c | 0 <= c < |s.closures| ensures |e.closures[c]| == |s.closures[c]| {
      assert ListAgrees(s.closures[c], e.closures[c], rep);
    }
  }

  lemma {:induction false} FilledRefines(s: State, e: Env, rep: map<Id, Id>, c: nat, encl: nat, base: nat, descs: seq<UpvalDesc>)
    returns (next: map<Id, Id>)
    requires Refines(s, e, rep) && c < |s.closures| && encl < |s.closures| && encl != c
    requires ValidDescs(|s.stack|, |s.closures[encl]|, base, descs)
    ensures Inv(s) && c < |e.closures| && encl < |e.closures| && ValidDescs(|e.locals|, |e.closures[encl]|, base, descs)
    ensures Refines(Filled(s, c, encl, base, descs),
      e.(closures := e.closures[c := e.closures[c] + VarsOf(e, encl, base, descs)]), next)
    decreases |descs|
  {
    hide Refines, Inv, Find;
    SameShape(s, e, rep);
    if descs == [] {
      assert e.closures[c] + VarsOf(e, encl, base, descs) == e.closures[c];
      assert e.(closures := e.closures[c := e.closures[c]]) == e by { assert e.closures[c := e.closures[c]] == e.closures; }
      return rep;
    }
    var (t, u) := Captured(s, encl, base, descs[0]);
    CapturedKeeps(s, encl, base, descs[0]);
    var r := CapturedRefines(s, e, rep, encl, base, descs[0]);
    AttachRefines(t, e, r, c, u);
    var f := AttachVar(e, c, r[u]);
    next := FilledRefines(Attach(t, c, u), f, r, c, encl, base, descs[1..]);
    assert e.closures[c] + VarsOf(e, encl, base, descs) == f.closures[c] + VarsOf(f, encl, base, descs[1..]);
    assert e.closures[c := e.closures[c] + VarsOf(e, encl, base, descs)] == f.closures[c := f.closures[c] + VarsOf(f, encl, base, descs[1..])];
  }

  // ---- initupvals, freeLclosure and close ----

  function Initialized(s: State, c: nat, n: nat): State
    requires c < |s.closures|
    decreases n
  {
    if n == 0 then s else Initialized(AttachNew(s, c), c, n - 1)
  }

  function InitializedEnv(e: Env, c: nat, n: nat): Env
    requires c < |e.closures|
    decreases n
  {
    if n == 0 then e else InitializedEnv(AttachNewVar(e, c), c, n - 1)
  }

  lemma {:induction false} InitializedRefines(s: State, e: Env, rep: map<Id, Id>, c: nat, n: nat) returns (next: map<Id, Id>)
    requires Refines(s, e, rep) && c < |s.closures|
    ensures c < |e.closures| && Refines(Initialized(s, c, n), InitializedEnv(e, c, n), next)
    decreases n
  {
    hide Refines, Inv;
    SameShape(s, e, rep);
    if n == 0 { return rep; }
    var r := AttachNewRefines(s, e, rep, c);
    next := InitializedRefines(AttachNew(s, c), AttachNewVar(e, c), r, c, n - 1);
  }

  ghost function Released(s: State, c: nat): (t: State)
    requires Inv(s) && c < |s.closures|
    ensures Inv(t)
    decreases |s.closures[c]|
  {
    if s.closures[c] == [] then s
    else
      DetachKeeps(s, c);
      Released(Detach(s, c), c)
  }

  lemma {:induction false} ReleasedRefines(s: State, e: Env, rep: map<Id, Id>, c: nat) returns (next: map<Id, Id>)
    requires Refines(s, e, rep) && c < |s.closures|
    ensures Inv(s) && c < |e.closures| && Refines(Released(s, c), e.(closures := e.closures[c := []]), next)
    decreases |s.closures[c]|
  {
    hide Refines, Inv;
    SameShape(s, e, rep);
    if s.closures[c] == [] {
      assert e.closures[c := []] == e.closures;
      return rep;
    }
    DetachKeeps(s, c);
    var r := DetachRefines(s, e, rep, c);
    next := ReleasedRefines(Detach(s, c), DetachVar(e, c), r, c);
    assert DetachVar(e, c).closures[c := []] == e.closures[c := []];
  }

  // 'luaF_close' from a level: the upvalues of the dead slots are closed, topmost first.
  ghost function Closed(s: State, level: nat): (t: State)
    requires Inv(s) && level <= |s.stack|
    ensures Inv(t)
    decreases |s.open|
  {
    if s.open == [] || LevelOf(s, s.open[0]) < level then
      TruncateKeeps(s, level);
      s.(stack := s.stack[..level])
    else
      CloseHeadKeeps(s);
      Closed(CloseHead(s), level)
  }

  lemma {:induction false} ClosedRefines(s: State, e: Env, rep: map<Id, Id>, level: nat) returns (next: map<Id, Id>)
    requires Refines(s, e, rep) && level <= |s.stack|
    ensures Inv(s) && level <= |e.locals| && Refines(Closed(s, level), Truncate(e, level), next)
    decreases |s.open|
  {
    hide Refines, Inv;
    SameShape(s, e, rep);
    if s.open == [] || LevelOf(s, s.open[0]) < level {
      TruncateRefines(s, e, rep, level);
      return rep;
    }
    CloseHeadKeeps(s);
    var lev := LevelOf(s, s.open[0]);
    var r := CloseHeadRefines(s, e, rep);
    next := ClosedRefines(CloseHead(s), Truncate(e, lev), r, level);
    assert e.locals[..lev][..level] == e.locals[..level];
  }

  // ---- runs ----

  datatype Op =
    | NewLocal(x: Value)
    | SetLocal(l: nat, x: Value)
    | GetLocal(l: nat)
    | MainClosure(n: nat)
    | PushClosure(encl: nat, base: nat, descs: seq<UpvalDesc>)
    | SetUpval(c: nat, i: nat, x: Value)
    | GetUpval(c: nat, i: nat)
    | Leave(level: nat)
    | Release(c: nat)

  // The slots and upvalues an operation names exist.
  ghost predicate Enabled(s: State, op: Op) {
    match op
    case NewLocal(_) | MainClosure(_) => true
    case SetLocal(l, _) => l < |s.stack|
    case GetLocal(l) => l < |s.stack|
    case PushClosure(encl, base, descs) => encl < |s.closures| && ValidDescs(|s.stack|, |s.closures[encl]|, base, descs)
    case SetUpval(c, i, _) => c < |s.closures| && i < |s.closures[c]|
    case GetUpval(c, i) => c < |s.closures| && i < |s.closures[c]|
    case Leave(level) => level <= |s.stack|
    case Release(c) => c < |s.closures|
  }

  ghost function Step(s: State, op: Op): State
    requires Inv(s) && Enabled(s, op)
  {
    match op
    case NewLocal(x) => s.(stack := s.stack + [x])
    case SetLocal(l, x) => s.(stack := s.stack[l := x])
    case GetLocal(_) | GetUpval(_, _) => s
    case MainClosure(n) => Initialized(s.(closures := s.closures + [[]]), |s.closures|, n)
    case PushClosure(encl, base, descs) =>
      ValuesKeep(s, s.(closures := s.closures + [[]]));
      Filled(s.(closures := s.closures + [[]]), |s.closures|, encl, base, descs)
    case SetUpval(c, i, x) => WriteCell(s, s.closures[c][i], x)
    case Leave(level) => Closed(s, level)
    case Release(c) => Released(s, c)
  }

  // What an operation reads.
  ghost function Output(s: State, op: Op): seq<Value>
    requires Inv(s) && Enabled(s, op)
  {
    match op
    case GetLocal(l) => [s.stack[l]]
    case GetUpval(c, i) => [ReadCell(s, s.closures[c][i])]
    case _ => []
  }

  // The same on variables.
  ghost predicate EnabledEnv(e: Env, op: Op) {
    match op
    case NewLocal(_) | MainClosure(_) => true
    case SetLocal(l, _) => l < |e.locals|
    case GetLocal(l) => l < |e.locals| && e.locals[l] in e.store
    case PushClosure(encl, base, descs) => encl < |e.closures| && ValidDescs(|e.locals|, |e.closures[encl]|, base, descs)
    case SetUpval(c, i, _) => c < |e.closures| && i < |e.closures[c]|
    case GetUpval(c, i) => c < |e.closures| && i < |e.closures[c]| && e.closures[c][i] in e.store
    case Leave(level) => level <= |e.locals|
    case Release(c) => c < |e.closures|
  }

  ghost function StepEnv(e: Env, op: Op): Env
    requires EnabledEnv(e, op)
  {
    match op
    case NewLocal(x) => NewVar(e, x)
    case SetLocal(l, x) => e.(store := e.store[e.locals[l] := x])
    case GetLocal(_) | GetUpval(_, _) => e
    case MainClosure(n) => InitializedEnv(e.(closures := e.closures + [[]]), |e.closures|, n)
    case PushClosure(encl, base, descs) => e.(closures := e.closures + [VarsOf(e, encl, base, descs)])
    case SetUpval(c, i, x) => e.(store := e.store[e.closures[c][i] := x])
    case Leave(level) => Truncate(e, level)
    case Release(c) => e.(closures := e.closures[c := []])
  }

  ghost function OutputEnv(e: Env, op: Op): seq<Value>
    requires EnabledEnv(e, op)
  {
    match op
    case GetLocal(l) => [e.store[e.locals[l]]]
    case GetUpval(c, i) => [e.store[e.closures[c][i]]]
    case _ => []
  }

  lemma UpvalRefines(s: State, e: Env, rep: map<Id, Id>, c: nat, i: nat)
    requires Refines(s, e, rep) && c < |s.closures| && i < |s.closures[c]|
    ensures c < |e.closures| && i < |e.closures[c]|
    ensures s.closures[c][i] in s.cells && s.closures[c][i] in rep && rep[s.closures[c][i]] == e.closures[c][i]
  {
    hide Inv;
    assert ListAgrees(s.closures[c], e.closures[c], rep);
  }

  lemma LocalRefines(s: State, e: Env, rep: map<Id, Id>, l: nat)
    requires Refines(s, e, rep) && l < |s.stack|
    ensures l < |e.locals| && e.locals[l] in e.store && e.store[e.locals[l]] == s.stack[l]
  {
    hide Inv;
  }

  lemma PushClosureRefines(s: State, e: Env, rep: map<Id, Id>, encl: nat, base: nat, descs: seq<UpvalDesc>) returns (next: map<Id, Id>)
    requires Refines(s, e, rep) && Inv(s) && Enabled(s, PushClosure(encl, base, descs))
    ensures EnabledEnv(e, PushClosure(encl, base, descs))
    ensures Refines(Step(s, PushClosure(encl, base, descs)), StepEnv(e, PushClosure(encl, base, descs)), next)
  {
    hide Refines, Inv;
    SameShape(s, e, rep);
    NewClosureRefines(s, e, rep);
    var c := |s.closures|;
    var t, f := s.(closures := s.closures + [[]]), e.(closures := e.closures + [[]]);
    next := FilledRefines(t, f, rep, c, encl, base, descs);
    var vs := VarsOf(e, encl, base, descs);
    assert VarsOf(f, encl, base, descs) == vs;
    assert f.closures[c] == [] && [] + vs == vs;
    assert f.closures[c := vs] == e.closures + [vs];
  }

  lemma StepRefines(s: State, e: Env, rep: map<Id, Id>, op: Op) returns (next: map<Id, Id>)
    requires Refines(s, e, rep) && Inv(s) && Enabled(s, op)
    ensures EnabledEnv(e, op) && Refines(Step(s, op), StepEnv(e, op), next) && Output(s, op) == OutputEnv(e, op)
  {
    hide Refines, Inv, Filled, Closed, Released, Initialized, WriteCell, ReadCell;
    SameShape(s, e, rep);
    next := rep;
    match op
    case NewLocal(x) => PushRefines(s, e, rep, x);
    case SetLocal(l, x) => StoreRefines(s, e, rep, l, x);
    case GetLocal(l) => LocalRefines(s, e, rep, l);
    case MainClosure(n) =>
      NewClosureRefines(s, e, rep);
      next := InitializedRefines(s.(closures := s.closures + [[]]), e.(closures := e.closures + [[]]), rep, |s.closures|, n);
    case PushClosure(encl, base, descs) => next := PushClosureRefines(s, e, rep, encl, base, descs);
    case SetUpval(c, i, x) =>
      UpvalRefines(s, e, rep, c, i);
      WriteRefines(s, e, rep, s.closures[c][i], x);
    case GetUpval(c, i) =>
      UpvalRefines(s, e, rep, c, i);
      ReadsTheVariable(s, e, rep, s.closures[c][i]);
    case Leave(level) => next := ClosedRefines(s, e, rep, level);
    case Release(c) => next := ReleasedRefines(s, e, rep, c);
  }

  // A run from s to t, and everything it reads.
  ghost predicate Runs(s: State, ops: seq<Op>, out: seq<Value>, t: State)
    decreases |ops|
  {
    if ops == [] then out == [] && t == s
    else
      && Inv(s) && Enabled(s, ops[0])
      && Output(s, ops[0]) <= out && Runs(Step(s, ops[0]), ops[1..], out[|Output(s, ops[0])|..], t)
  }

  ghost predicate RunsEnv(e: Env, ops: seq<Op>, out: seq<Value>)
    decreases |ops|
  {
    if ops == [] then out == []
    else
      && EnabledEnv(e, ops[0])
      && OutputEnv(e, ops[0]) <= out && RunsEnv(StepEnv(e, ops[0]), ops[1..], out[|OutputEnv(e, ops[0])|..])
  }

  // Over any run, locals and upvalues read exactly what they would if every variable were one private cell.
  lemma {:induction false} RunRefines(s: State, e: Env, rep: map<Id, Id>, ops: seq<Op>, out: seq<Value>, t: State)
    requires Refines(s, e, rep)
    ensures Runs(s, ops, out, t) ==> RunsEnv(e, ops, out) && Inv(t)
    decreases |ops|
  {
    hide Refines, Inv, Enabled, EnabledEnv, Step, StepEnv, Output, OutputEnv;
    SameShape(s, e, rep);
    if ops != [] && Runs(s, ops, out, t) {
      var next := StepRefines(s, e, rep, ops[0]);
      RunRefines(Step(s, ops[0]), StepEnv(e, ops[0]), next, ops[1..], out[|Output(s, ops[0])|..], t);
    }
  }

  const EMPTY: State := State([], map[], [], [], 0)

  lemma StartRefines()
    ensures Refines(EMPTY, Env([], map[], [], 0), map[])
  {
    assert forall u: Id :: !IsOpen(EMPTY, u);
  }

  lemma PrivateCells(ops: seq<Op>, out: seq<Value>, t: State)
    requires Runs(EMPTY, ops, out, t)
    ensures RunsEnv(Env([], map[], [], 0), ops, out)
    ensures Inv(t)
  {
    StartRefines();
    RunRefines(EMPTY, Env([], map[], [], 0), map[], ops, out, t);
  }

  // In any state a run reaches, a slot has at most one open upvalue, the one a new capture finds, and every
  // count is the number of references from closures.
  lemma OnePerSlot(ops: seq<Op>, out: seq<Value>, t: State, u: Id)
    requires Runs(EMPTY, ops, out, t) && u in t.cells
    ensures t.cells[u].refcount == References(t.closures, u)
    ensures IsOpen(t, u) ==> LevelOf(t, u) < |t.stack| && Find(t, LevelOf(t, u)) == (t, u)
  {
    PrivateCells(ops, out, t);
    if IsOpen(t, u) { FindsTheOne(t, LevelOf(t, u), u); }
  }

  lemma OpenBelowTop(s: State)
    requires Inv(s)
    ensures forall u :: IsOpen(s, u) ==> LevelOf(s, u) < |s.stack|
  {
  }

  lemma SameSlot(s: State, u: Id, v: Id)
    requires Inv(s) && IsOpen(s, u) && IsOpen(s, v) && LevelOf(s, u) == LevelOf(s, v)
    ensures u == v
  {
    FindsTheOne(s, LevelOf(s, u), u);
    FindsTheOne(s, LevelOf(s, u), v);
  }

  // Two closures that share a variable see each other's writes; a closure that does not is unaffected.
  lemma WritesAreShared(ops: seq<Op>, out: seq<Value>, t: State, c: nat, i: nat, d: nat, j: nat, x: Value)
    requires Runs(EMPTY, ops, out, t) && Enabled(t, SetUpval(c, i, x)) && Enabled(t, GetUpval(d, j))
    ensures Inv(t)
    ensures Enabled(Step(t, SetUpval(c, i, x)), GetUpval(d, j)) && Inv(Step(t, SetUpval(c, i, x)))
    ensures Output(Step(t, SetUpval(c, i, x)), GetUpval(d, j)) ==
      if t.closures[c][i] == t.closures[d][j] then [x] else Output(t, GetUpval(d, j))
  {
    hide Inv, Find;
    PrivateCells(ops, out, t);
    ClosuresKnown(t);
    OpenBelowTop(t);
    var u, v := t.closures[c][i], t.closures[d][j];
    var w := WriteCell(t, u, x);
    ValuesKeep(t, w);
    assert u in t.cells && v in t.cells;
    if IsOpen(t, u) && IsOpen(t, v) && LevelOf(t, u) == LevelOf(t, v) { SameSlot(t, u, v); }
  }
}
