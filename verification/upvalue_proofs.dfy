// Why upvalues behave as one private cell per variable.
module UpvalueProofs {
  import opened Upvalues

  // The machine upvalues implement: a local is a variable, a closure a list of variables, and each variable
  // has one value wherever it is reached from and whether or not its block is still active.
  datatype Env = Env(locals: seq<Id>, store: map<Id, Value>, closures: seq<seq<Id>>, next: Id)

  // ---- the relation: rep gives the variable each upvalue stands for ----

  ghost predicate SlotsAgree(s: State, e: Env) {
    && |s.stack| == |e.locals|
    && (forall i :: 0 <= i < |e.locals| ==> e.locals[i] in e.store && e.store[e.locals[i]] == s.stack[i])
    && (forall i, j :: 0 <= i < j < |e.locals| ==> e.locals[i] != e.locals[j])
    && (forall x :: x in e.store ==> x < e.next)
  }

  ghost predicate CellAgrees(s: State, e: Env, rep: map<Id, Id>, u: Id)
    requires u in s.cells && u in rep
  {
    && rep[u] in e.store
    && if s.cells[u].v.Stack? then s.cells[u].v.level < |e.locals| && rep[u] == e.locals[s.cells[u].v.level]
       else rep[u] !in e.locals && e.store[rep[u]] == s.cells[u].value
  }

  ghost predicate CellsAgree(s: State, e: Env, rep: map<Id, Id>) {
    && rep.Keys == s.cells.Keys
    && (forall u :: u in s.cells ==> CellAgrees(s, e, rep, u))
    && (forall u, v :: u in rep && v in rep && u != v ==> rep[u] != rep[v])
  }

  ghost predicate ListAgrees(us: seq<Id>, xs: seq<Id>, rep: map<Id, Id>) {
    |us| == |xs| && forall i :: 0 <= i < |us| ==> us[i] in rep && rep[us[i]] == xs[i]
  }

  ghost predicate ClosuresAgree(s: State, e: Env, rep: map<Id, Id>) {
    |s.closures| == |e.closures| && forall c :: 0 <= c < |s.closures| ==> ListAgrees(s.closures[c], e.closures[c], rep)
  }

  ghost predicate Refines(s: State, e: Env, rep: map<Id, Id>) {
    Inv(s) && SlotsAgree(s, e) && CellsAgree(s, e, rep) && ClosuresAgree(s, e, rep)
  }

  // ---- counting ----

  lemma {:induction false} CountAppend(us: seq<Id>, v: Id, u: Id)
    ensures Count(us + [v], u) == Count(us, u) + if u == v then 1 else 0
  {
    if us == [] {
      assert [] + [v] == [v];
    } else {
      assert (us + [v])[1..] == us[1..] + [v];
      CountAppend(us[1..], v, u);
    }
  }

  lemma CountHead(us: seq<Id>, u: Id)
    requires us != []
    ensures Count(us, u) == Count(us[1..], u) + if us[0] == u then 1 else 0
  {
  }

  lemma {:induction false} CountIn(us: seq<Id>, i: nat)
    requires i < |us|
    ensures Count(us, us[i]) > 0
  {
    if i > 0 { CountIn(us[1..], i - 1); }
  }

  lemma {:induction false} ReferencesUpdate(cs: seq<seq<Id>>, c: nat, us: seq<Id>, u: Id)
    requires c < |cs|
    ensures References(cs[c := us], u) == References(cs, u) - Count(cs[c], u) + Count(us, u)
  {
    if c == 0 {
      assert cs[c := us][1..] == cs[1..];
    } else {
      assert cs[c := us][1..] == cs[1..][c - 1 := us];
      ReferencesUpdate(cs[1..], c - 1, us, u);
    }
  }

  lemma {:induction false} ReferencesNew(cs: seq<seq<Id>>, u: Id)
    ensures References(cs + [[]], u) == References(cs, u)
  {
    if cs == [] {
      assert cs + [[]] == [[]];
      assert References([[]], u) == Count([], u) + References([], u);
    } else {
      assert (cs + [[]])[1..] == cs[1..] + [[]];
      ReferencesNew(cs[1..], u);
    }
  }

  lemma {:induction false} Referenced(cs: seq<seq<Id>>, c: nat, i: nat)
    requires c < |cs| && i < |cs[c]|
    ensures References(cs, cs[c][i]) > 0
  {
    if c == 0 { CountIn(cs[0], i); } else { Referenced(cs[1..], c - 1, i); }
  }

  lemma {:induction false} CountOut(us: seq<Id>, u: Id)
    requires u !in us
    ensures Count(us, u) == 0
  {
    if us != [] { CountOut(us[1..], u); }
  }

  lemma {:induction false} Unreferenced(cs: seq<seq<Id>>, u: Id)
    requires forall c :: 0 <= c < |cs| ==> u !in cs[c]
    ensures References(cs, u) == 0
  {
    if cs != [] {
      CountOut(cs[0], u);
      Unreferenced(cs[1..], u);
    }
  }

  // ---- finding ----

  lemma Descends(s: State, i: nat, j: nat)
    requires Listed(s) && i <= j < |s.open|
    ensures LevelOf(s, s.open[i]) >= LevelOf(s, s.open[j]) && (LevelOf(s, s.open[i]) == LevelOf(s, s.open[j]) ==> i == j)
  {
  }

  // The place in the sorted list decides whether the slot has an upvalue already.
  lemma FindsTheOne(s: State, level: nat, v: Id)
    requires Listed(s) && IsOpen(s, v) && LevelOf(s, v) == level
    ensures Find(s, level) == (s, v)
  {
    var p := PlaceFor(s, s.open, level);
    var k :| 0 <= k < |s.open| && s.open[k] == v;
    Descends(s, p, k);
  }

  lemma InsertedAt(open: seq<Id>, p: nat, u: Id, i: nat)
    requires p <= |open| && i <= |open|
    ensures (open[..p] + [u] + open[p..])[i] == if i < p then open[i] else if i == p then u else open[i - 1]
  {
  }

  lemma LevelsAround(s: State, level: nat)
    requires Listed(s) && Find(s, level).1 !in s.open
    ensures var p := PlaceFor(s, s.open, level);
      (forall i :: 0 <= i < p ==> LevelOf(s, s.open[i]) > level) && forall i :: p <= i < |s.open| ==> LevelOf(s, s.open[i]) < level
  {
    var p := PlaceFor(s, s.open, level);
    forall i | p <= i < |s.open| ensures LevelOf(s, s.open[i]) < level { Descends(s, p, i); }
  }

  lemma InsertListed(s: State, level: nat)
    requires Listed(s) && level < |s.stack| && s.next !in s.cells && Find(s, level).1 == s.next
    ensures Listed(Find(s, level).0)
  {
    hide PlaceFor;
    var p := PlaceFor(s, s.open, level);
    LevelsAround(s, level);
    ListedAfterInsert(s, level, p, Find(s, level).0);
  }

  // t is s with an upvalue for a slot that had none put in its place.
  ghost predicate Inserts(s: State, level: nat, p: nat, t: State) {
    && Listed(s) && level < |s.stack| && s.next !in s.cells && p <= |s.open| && t.stack == s.stack
    && t.cells == s.cells[s.next := UpVal(Stack(level), 0, Nil)]
    && t.open == s.open[..p] + [s.next] + s.open[p..]
    && (forall i :: 0 <= i < p ==> LevelOf(s, s.open[i]) > level)
    && (forall i :: p <= i < |s.open| ==> LevelOf(s, s.open[i]) < level)
  }

  lemma ListedAt(s: State, level: nat, p: nat, t: State, i: nat)
    requires Inserts(s, level, p, t) && i <= |s.open|
    ensures i < |t.open| && IsOpen(t, t.open[i])
    ensures LevelOf(t, t.open[i]) == (if i < p then LevelOf(s, s.open[i]) else if i == p then level else LevelOf(s, s.open[i - 1])) < |t.stack|
  {
    InsertedAt(s.open, p, s.next, i);
    var k := if i < p then i else i - 1;
    if i != p { assert IsOpen(s, s.open[k]); }
  }

  lemma SortedAt(s: State, level: nat, p: nat, t: State, i: nat, j: nat)
    requires Inserts(s, level, p, t) && i < j <= |s.open|
    ensures j < |t.open| && LevelOf(t, t.open[i]) > LevelOf(t, t.open[j])
  {
    ListedAt(s, level, p, t, i);
    ListedAt(s, level, p, t, j);
    if i != p && j != p { Descends(s, if i < p then i else i - 1, if j < p then j else j - 1); }
  }

  lemma ListedAfterInsert(s: State, level: nat, p: nat, t: State)
    requires Inserts(s, level, p, t)
    ensures Listed(t)
  {
    forall i | 0 <= i < |t.open| ensures IsOpen(t, t.open[i]) && LevelOf(t, t.open[i]) < |t.stack| { ListedAt(s, level, p, t, i); }
    forall i, j | 0 <= i < j < |t.open| ensures LevelOf(t, t.open[i]) > LevelOf(t, t.open[j]) { SortedAt(s, level, p, t, i, j); }
    forall u | IsOpen(t, u) ensures u in t.open { StillIn(s, level, p, t, u); }
  }

  lemma StillIn(s: State, level: nat, p: nat, t: State, u: Id)
    requires Inserts(s, level, p, t) && IsOpen(t, u)
    ensures u in t.open
  {
    if u == s.next {
      InsertedAt(s.open, p, s.next, p);
    } else {
      assert IsOpen(s, u);
      var k :| 0 <= k < |s.open| && s.open[k] == u;
      InsertedAt(s.open, p, s.next, if k < p then k else k + 1);
    }
  }

  lemma NextIsUnreferenced(s: State)
    requires Counted(s)
    ensures s.next !in s.cells && References(s.closures, s.next) == 0
  {
    Unreferenced(s.closures, s.next);
  }

  // ---- every step keeps the invariant ----

  // The list only looks at which upvalues are open, and where.
  lemma SameList(s: State, t: State)
    requires Listed(s) && t.open == s.open && |t.stack| == |s.stack|
    requires forall u :: IsOpen(t, u) <==> IsOpen(s, u)
    requires forall u :: IsOpen(s, u) ==> LevelOf(t, u) == LevelOf(s, u)
    ensures Listed(t)
  {
  }

  lemma FindKeeps(s: State, level: nat)
    requires Inv(s) && level < |s.stack|
    ensures var (t, u) := Find(s, level);
      Inv(t) && t.stack == s.stack && t.closures == s.closures && IsOpen(t, u) && LevelOf(t, u) == level &&
      (if t == s then true
       else u == s.next && u !in s.cells && t.cells == s.cells[u := UpVal(Stack(level), 0, Nil)] && forall v :: IsOpen(s, v) ==> LevelOf(s, v) != level)
  {
    hide References, Count, PlaceFor;
    NextIsUnreferenced(s);
    var (t, u) := Find(s, level);
    if t != s {
      InsertListed(s, level);
      forall v | IsOpen(s, v) ensures LevelOf(s, v) != level { if LevelOf(s, v) == level { FindsTheOne(s, level, v); } }
    }
  }

  lemma AttachKeeps(s: State, c: nat, u: Id)
    requires Inv(s) && c < |s.closures| && u in s.cells
    ensures Inv(Attach(s, c, u))
  {
    hide References, Count, Listed;
    var t := Attach(s, c, u);
    forall v | v in s.cells ensures t.cells[v].refcount == References(t.closures, v) {
      ReferencesUpdate(s.closures, c, s.closures[c] + [u], v);
      CountAppend(s.closures[c], u, v);
    }
    SameList(s, t);
  }

  lemma AttachNewKeeps(s: State, c: nat)
    requires Inv(s) && c < |s.closures|
    ensures Inv(AttachNew(s, c)) && s.next !in s.cells
  {
    hide References, Count, Listed;
    var t := AttachNew(s, c);
    NextIsUnreferenced(s);
    forall v | v in t.cells ensures t.cells[v].refcount == References(t.closures, v) {
      ReferencesUpdate(s.closures, c, s.closures[c] + [s.next], v);
      CountAppend(s.closures[c], s.next, v);
    }
    SameList(s, t);
  }

  lemma DetachKeeps(s: State, c: nat)
    requires Inv(s) && c < |s.closures| && s.closures[c] != []
    ensures s.closures[c][0] in s.cells && s.cells[s.closures[c][0]].refcount > 0 && Inv(Detach(s, c))
  {
    hide References, Count, Listed;
    var t, u := Detach(s, c), s.closures[c][0];
    Referenced(s.closures, c, 0);
    forall v | v in s.cells ensures References(t.closures, v) == References(s.closures, v) - if u == v then 1 else 0 {
      ReferencesUpdate(s.closures, c, s.closures[c][1..], v);
      CountHead(s.closures[c], v);
    }
    forall d, i | 0 <= d < |t.closures| && 0 <= i < |t.closures[d]| ensures t.closures[d][i] in t.cells {
      assert t.closures[d][i] == if d == c then s.closures[c][i + 1] else s.closures[d][i];
      Referenced(t.closures, d, i);
    }
    SameList(s, t);
  }

  lemma CloseHeadKeeps(s: State)
    requires Inv(s) && s.open != []
    ensures IsOpen(s, s.open[0]) && LevelOf(s, s.open[0]) < |s.stack| && Inv(CloseHead(s))
    ensures forall v :: IsOpen(CloseHead(s), v) ==> LevelOf(s, v) < LevelOf(s, s.open[0])
  {
    CloseHeadListed(s);
    CloseHeadCounted(s);
  }

  lemma CloseHeadListed(s: State)
    requires Listed(s) && s.open != []
    ensures IsOpen(s, s.open[0]) && LevelOf(s, s.open[0]) < |s.stack| && Listed(CloseHead(s))
    ensures forall v :: IsOpen(CloseHead(s), v) ==> LevelOf(s, v) < LevelOf(s, s.open[0])
  {
    var t, u := CloseHead(s), s.open[0];
    forall i | 0 <= i < |t.open| ensures IsOpen(t, t.open[i]) && LevelOf(t, t.open[i]) == LevelOf(s, s.open[i + 1]) < |t.stack| {
      Descends(s, 0, i + 1);
    }
    forall i, j | 0 <= i < j < |t.open| ensures LevelOf(t, t.open[i]) > LevelOf(t, t.open[j]) {
      Descends(s, i + 1, j + 1);
    }
    forall v | IsOpen(t, v) ensures v in t.open && LevelOf(s, v) < LevelOf(s, u) {
      assert IsOpen(s, v);
      var k :| 0 <= k < |s.open| && s.open[k] == v;
      Descends(s, 0, k);
      assert t.open[k - 1] == v;
    }
  }

  lemma CloseHeadCounted(s: State)
    requires Counted(s) && s.open != [] && IsOpen(s, s.open[0]) && LevelOf(s, s.open[0]) < |s.stack|
    ensures Counted(CloseHead(s))
  {
    hide References, Count;
    var t := CloseHead(s);
    forall d, i | 0 <= d < |t.closures| && 0 <= i < |t.closures[d]| ensures t.closures[d][i] in t.cells {
      Referenced(t.closures, d, i);
    }
  }

  // Slots above every open upvalue can go.
  lemma TruncateKeeps(s: State, level: nat)
    requires Inv(s) && level <= |s.stack| && (s.open == [] || LevelOf(s, s.open[0]) < level)
    ensures Inv(s.(stack := s.stack[..level])) && forall v :: IsOpen(s, v) ==> LevelOf(s, v) < level
  {
    hide References, Count;
    var t := s.(stack := s.stack[..level]);
    forall i | 0 <= i < |s.open| ensures LevelOf(s, s.open[i]) < level { Descends(s, 0, i); }
    forall v | IsOpen(s, v) ensures LevelOf(s, v) < level {
      var k :| 0 <= k < |s.open| && s.open[k] == v;
    }
    assert forall u :: IsOpen(t, u) <==> IsOpen(s, u);
  }

  // Values do not matter to the invariant, nor do slots above the list.
  lemma ValuesKeep(s: State, t: State)
    requires Inv(s) && |s.stack| <= |t.stack| && t.open == s.open && t.next == s.next && t.cells.Keys == s.cells.Keys
    requires forall u :: u in s.cells ==> t.cells[u].v == s.cells[u].v && t.cells[u].refcount == s.cells[u].refcount
    requires t.closures == s.closures || t.closures == s.closures + [[]]
    ensures Inv(t)
  {
    hide References, Count;
    forall u | u in s.cells ensures References(t.closures, u) == References(s.closures, u) { ReferencesNew(s.closures, u); }
    assert forall u :: IsOpen(t, u) <==> IsOpen(s, u);
    assert forall u :: LevelOf(t, u) == LevelOf(s, u);
  }

  lemma ClosuresKnown(s: State)
    requires Inv(s)
    ensures forall c, i :: 0 <= c < |s.closures| && 0 <= i < |s.closures[c]| ==> s.closures[c][i] in s.cells
  {
  }

  // ---- every step keeps the relation ----

  lemma FindRefines(s: State, e: Env, rep: map<Id, Id>, level: nat) returns (next: map<Id, Id>)
    requires Refines(s, e, rep) && level < |s.stack|
    ensures var (t, u) := Find(s, level);
      Refines(t, e, next) && u in t.cells && next[u] == e.locals[level] && forall v :: v in rep ==> v in next && next[v] == rep[v]
  {
    hide Inv, Find;
    var (t, u) := Find(s, level);
    FindKeeps(s, level);
    if t == s {
      assert CellAgrees(s, e, rep, u);
      return rep;
    }
    next := rep[u := e.locals[level]];
    forall v | v in s.cells ensures v != u && rep[v] != e.locals[level] && CellAgrees(t, e, next, v) {
      assert CellAgrees(s, e, rep, v);
      assert IsOpen(s, v) <==> s.cells[v].v.Stack?;
    }
  }

  function AttachVar(e: Env, c: nat, x: Id): Env
    requires c < |e.closures|
  {
    e.(closures := e.closures[c := e.closures[c] + [x]])
  }

  lemma AttachRefines(s: State, e: Env, rep: map<Id, Id>, c: nat, u: Id)
    requires Refines(s, e, rep) && c < |s.closures| && u in s.cells
    ensures Refines(Attach(s, c, u), AttachVar(e, c, rep[u]), rep)
  {
    hide Inv;
    AttachKeeps(s, c, u);
    var t, f := Attach(s, c, u), AttachVar(e, c, rep[u]);
    forall v | v in s.cells ensures CellAgrees(t, f, rep, v) { assert CellAgrees(s, e, rep, v); }
    assert ListAgrees(s.closures[c], e.closures[c], rep);
    assert ListAgrees(t.closures[c], f.closures[c], rep);
  }

  // A new variable that only the closure can reach.
  function AttachNewVar(e: Env, c: nat): Env
    requires c < |e.closures|
  {
    AttachVar(e.(store := e.store[e.next := Nil], next := e.next + 1), c, e.next)
  }

  lemma AttachNewRefines(s: State, e: Env, rep: map<Id, Id>, c: nat) returns (next: map<Id, Id>)
    requires Refines(s, e, rep) && c < |s.closures|
    ensures Refines(AttachNew(s, c), AttachNewVar(e, c), next)
  {
    hide Inv;
    AttachNewKeeps(s, c);
    var t, f := AttachNew(s, c), AttachNewVar(e, c);
    next := rep[s.next := e.next];
    forall v | v in s.cells ensures CellAgrees(t, f, next, v) && next[v] != e.next { assert CellAgrees(s, e, rep, v); }
    assert ListAgrees(s.closures[c], e.closures[c], rep);
    assert ListAgrees(t.closures[c], f.closures[c], next);
  }

  function DetachVar(e: Env, c: nat): Env
    requires c < |e.closures| && e.closures[c] != []
  {
    e.(closures := e.closures[c := e.closures[c][1..]])
  }

  lemma DetachRefines(s: State, e: Env, rep: map<Id, Id>, c: nat) returns (next: map<Id, Id>)
    requires Refines(s, e, rep) && c < |s.closures| && s.closures[c] != []
    ensures s.closures[c][0] in s.cells && e.closures[c] != []
    ensures Refines(Detach(s, c), DetachVar(e, c), next)
  {
    hide Inv;
    DetachKeeps(s, c);
    assert ListAgrees(s.closures[c], e.closures[c], rep);
    var t, f := Detach(s, c), DetachVar(e, c);
    next := map v | v in t.cells :: rep[v];
    forall v | v in t.cells ensures CellAgrees(t, f, next, v) { assert CellAgrees(s, e, rep, v); }
    ClosuresKnown(t);
    forall d | 0 <= d < |t.closures| ensures ListAgrees(t.closures[d], f.closures[d], next) {
      assert ListAgrees(s.closures[d], e.closures[d], rep);
    }
  }

  function Truncate(e: Env, level: nat): Env
    requires level <= |e.locals|
  {
    e.(locals := e.locals[..level])
  }

  // The upvalue takes the variable with it; the slots from its level up are dead.
  lemma CloseHeadRefines(s: State, e: Env, rep: map<Id, Id>) returns (next: map<Id, Id>)
    requires Refines(s, e, rep) && s.open != []
    ensures IsOpen(s, s.open[0]) && LevelOf(s, s.open[0]) < |s.stack|
    ensures Refines(CloseHead(s), Truncate(e, LevelOf(s, s.open[0])), next)
  {
    hide Inv;
    CloseHeadKeeps(s);
    var u, lev := s.open[0], LevelOf(s, s.open[0]);
    var t, f := CloseHead(s), Truncate(e, lev);
    next := map v | v in t.cells :: rep[v];
    assert CellAgrees(s, e, rep, u);
    forall v | v in t.cells ensures CellAgrees(t, f, next, v) {
      assert CellAgrees(s, e, rep, v);
      assert IsOpen(t, v) <==> t.cells[v].v.Stack?;
    }
    ClosuresKnown(t);
    forall d | 0 <= d < |t.closures| ensures ListAgrees(t.closures[d], f.closures[d], next) {
      assert ListAgrees(s.closures[d], e.closures[d], rep);
    }
  }

  lemma TruncateRefines(s: State, e: Env, rep: map<Id, Id>, level: nat)
    requires Refines(s, e, rep) && level <= |s.stack|
    requires s.open == [] || LevelOf(s, s.open[0]) < level
    ensures Refines(s.(stack := s.stack[..level]), Truncate(e, level), rep)
  {
    hide Inv;
    TruncateKeeps(s, level);
    var t, f := s.(stack := s.stack[..level]), Truncate(e, level);
    forall v | v in t.cells ensures CellAgrees(t, f, rep, v) {
      assert CellAgrees(s, e, rep, v);
      assert IsOpen(s, v) <==> s.cells[v].v.Stack?;
    }
  }

  lemma ReadsTheVariable(s: State, e: Env, rep: map<Id, Id>, u: Id)
    requires Refines(s, e, rep) && u in s.cells
    ensures (IsOpen(s, u) ==> LevelOf(s, u) < |s.stack|) && rep[u] in e.store && ReadCell(s, u) == e.store[rep[u]]
  {
    hide Inv;
    assert CellAgrees(s, e, rep, u);
  }

  lemma WriteRefines(s: State, e: Env, rep: map<Id, Id>, u: Id, x: Value)
    requires Refines(s, e, rep) && u in s.cells
    ensures (IsOpen(s, u) ==> LevelOf(s, u) < |s.stack|)
    ensures Refines(WriteCell(s, u, x), e.(store := e.store[rep[u] := x]), rep)
  {
    hide Inv;
    assert CellAgrees(s, e, rep, u);
    var t, f := WriteCell(s, u, x), e.(store := e.store[rep[u] := x]);
    ValuesKeep(s, t);
    forall v | v in t.cells ensures CellAgrees(t, f, rep, v) { assert CellAgrees(s, e, rep, v); }
  }

  lemma StoreRefines(s: State, e: Env, rep: map<Id, Id>, l: nat, x: Value)
    requires Refines(s, e, rep) && l < |s.stack|
    ensures Refines(s.(stack := s.stack[l := x]), e.(store := e.store[e.locals[l] := x]), rep)
  {
    hide Inv;
    var t, f := s.(stack := s.stack[l := x]), e.(store := e.store[e.locals[l] := x]);
    ValuesKeep(s, t);
    forall v | v in t.cells ensures CellAgrees(t, f, rep, v) { assert CellAgrees(s, e, rep, v); }
  }

  function NewVar(e: Env, x: Value): Env { e.(locals := e.locals + [e.next], store := e.store[e.next := x], next := e.next + 1) }

  lemma PushRefines(s: State, e: Env, rep: map<Id, Id>, x: Value)
    requires Refines(s, e, rep)
    ensures Refines(s.(stack := s.stack + [x]), NewVar(e, x), rep)
  {
    hide Inv;
    var t, f := s.(stack := s.stack + [x]), NewVar(e, x);
    ValuesKeep(s, t);
    forall v | v in t.cells ensures CellAgrees(t, f, rep, v) { assert CellAgrees(s, e, rep, v); }
  }

  lemma NewClosureRefines(s: State, e: Env, rep: map<Id, Id>)
    requires Refines(s, e, rep)
    ensures Refines(s.(closures := s.closures + [[]]), e.(closures := e.closures + [[]]), rep)
  {
    hide Inv;
    var t, f := s.(closures := s.closures + [[]]), e.(closures := e.closures + [[]]);
    ValuesKeep(s, t);
    forall v | v in t.cells ensures CellAgrees(t, f, rep, v) { assert CellAgrees(s, e, rep, v); }
  }
}
