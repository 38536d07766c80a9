// Jump lists: open jumps linked through their own offsets, and what patching a list does.
module JumpLists {
  import opened Bytecode
  import opened CodeRuns

  // ---- jump lists, threaded through the jumps themselves ----

  // The offset in jump i of a list: to the next jump, or NO_JUMP at the end.
  function Link(L: seq<nat>, i: nat): int
    requires i < |L|
  {
    if i + 1 < |L| then L[i + 1] - (L[i] + 1) else NO_JUMP
  }

  ghost predicate IsList(code: seq<Instr>, head: int, L: seq<nat>) {
    && head == (if L == [] then NO_JUMP else L[0])
    && (forall i :: 0 <= i < |L| ==> L[i] < |code| && code[L[i]] == Jmp(Link(L, i)))
    && (forall i, j :: 0 <= i < j < |L| ==> L[i] != L[j])
  }

  function Elems(L: seq<nat>): set<nat> { set j | j in L }

  // 'getjump'.
  function GetJump(code: seq<Instr>, pc: nat): int
    requires pc < |code| && code[pc].Jmp?
  {
    if code[pc].s == NO_JUMP then NO_JUMP else pc + 1 + code[pc].s
  }

  lemma NextInList(code: seq<Instr>, head: int, L: seq<nat>, i: nat)
    requires IsList(code, head, L) && i < |L|
    ensures GetJump(code, L[i]) == if i + 1 < |L| then L[i + 1] else NO_JUMP
  {
    assert code[L[i]] == Jmp(Link(L, i));
    assert i + 1 < |L| ==> L[i] != L[i + 1];
  }

  lemma ListFacts(code: seq<Instr>, head: int, L: seq<nat>)
    requires IsList(code, head, L)
    ensures head == (if L == [] then NO_JUMP else L[0]) && forall j :: j in L ==> j < |code| && code[j].Jmp?
  {
    forall j | j in L ensures j < |code| && code[j].Jmp? { var i :| 0 <= i < |L| && L[i] == j; }
  }

  // 'getjumpcontrol'.
  function Control(code: seq<Instr>, pc: nat): Instr
    requires pc < |code|
  {
    if pc >= 1 && IsTest(code[pc - 1]) then code[pc - 1] else code[pc]
  }

  lemma {:induction false} DisjointElems(L: seq<nat>, M: seq<nat>)
    ensures Elems(L + M) == Elems(L) + Elems(M)
  {
  }

  // Lists of other code keep their links.
  lemma ListKept(code: seq<Instr>, head: int, L: seq<nat>, code': seq<Instr>)
    requires IsList(code, head, L) && |code'| >= |code| && forall j :: j in L ==> j < |code| && code'[j] == code[j]
    ensures IsList(code', head, L)
  {
    forall i | 0 <= i < |L| ensures L[i] < |code'| && code'[L[i]] == Jmp(Link(L, i)) { assert L[i] in L; }
  }

  lemma Undischarged(code: seq<Instr>)
    ensures Discharged(code, Elems([])) == code
  {
  }

  lemma SplicedLink(L1: seq<nat>, L2: seq<nat>, i: nat)
    requires L1 != [] && L2 != [] && i < |L1 + L2|
    ensures Link(L1 + L2, i) == if i < |L1| - 1 then Link(L1, i) else if i == |L1| - 1 then L2[0] - (L1[i] + 1) else Link(L2, i - |L1|)
  {
  }

  lemma SplicedDistinct(code: seq<Instr>, l1: int, L1: seq<nat>, l2: int, L2: seq<nat>, i: nat, j: nat)
    requires IsList(code, l1, L1) && IsList(code, l2, L2) && Elems(L1) !! Elems(L2) && i < j < |L1 + L2|
    ensures (L1 + L2)[i] != (L1 + L2)[j]
  {
    if i < |L1| <= j { assert L1[i] in Elems(L1) && L2[j - |L1|] in Elems(L2); }
  }

  lemma Spliced(code: seq<Instr>, l1: int, L1: seq<nat>, l2: int, L2: seq<nat>)
    requires IsList(code, l1, L1) && IsList(code, l2, L2) && Elems(L1) !! Elems(L2) && L1 != [] && L2 != []
    ensures var last := L1[|L1| - 1]; IsList(code[last := Jmp(l2 - (last + 1))], l1, L1 + L2)
  {
    var last, L := L1[|L1| - 1], L1 + L2;
    var code' := code[last := Jmp(l2 - (last + 1))];
    forall i, j | 0 <= i < j < |L| ensures L[i] != L[j] { SplicedDistinct(code, l1, L1, l2, L2, i, j); }
    forall i | 0 <= i < |L| ensures L[i] < |code'| && code'[L[i]] == Jmp(Link(L, i)) { SplicedAt(code, l1, L1, l2, L2, i); }
  }

  lemma SplicedAt(code: seq<Instr>, l1: int, L1: seq<nat>, l2: int, L2: seq<nat>, i: nat)
    requires IsList(code, l1, L1) && IsList(code, l2, L2) && Elems(L1) !! Elems(L2) && L1 != [] && L2 != [] && i < |L1 + L2|
    ensures var last, L := L1[|L1| - 1], L1 + L2;
      L[i] < |code| && code[last := Jmp(l2 - (last + 1))][L[i]] == Jmp(Link(L, i))
  {
    hide Elems, Link;
    var last, L := L1[|L1| - 1], L1 + L2;
    SplicedLink(L1, L2, i);
    assert L[|L1| - 1] == last;
    if i < |L1| - 1 { SplicedDistinct(code, l1, L1, l2, L2, i, |L1| - 1); }
    if i > |L1| - 1 { SplicedDistinct(code, l1, L1, l2, L2, |L1| - 1, i); }
  }

  // Removing values leaves the links alone.
  lemma UnvaluedList(code: seq<Instr>, head: int, L: seq<nat>, n: nat)
    requires IsList(code, head, L) && n <= |L|
    ensures IsList(Unvalued(code, Elems(L[..n])), head, L)
  {
    var code' := Unvalued(code, Elems(L[..n]));
    forall i | 0 <= i < |L| ensures L[i] < |code'| && code'[L[i]] == Jmp(Link(L, i)) {
      assert code[L[i]].Jmp?;
    }
  }

  lemma ElemsNext(code: seq<Instr>, head: int, L: seq<nat>, i: nat)
    requires IsList(code, head, L) && i < |L|
    ensures Elems(L[..i + 1]) == Elems(L[..i]) + {L[i]} && L[i] !in Elems(L[..i])
    ensures L[i] < |code| && code[L[i]].Jmp? && forall q :: q in Elems(L[..i]) ==> q < |code| && code[q].Jmp?
  {
    ListFacts(code, head, L);
    assert L[i] in L;
  }

  lemma UnvaluedNext(code: seq<Instr>, head: int, L: seq<nat>, i: nat)
    requires IsList(code, head, L) && i < |L|
    ensures var c, p := Unvalued(code, Elems(L[..i])), L[i];
      Unvalued(code, Elems(L[..i + 1])) == if TestSetAt(c, p) then c[p - 1 := PatchControl(c[p - 1], NO_REG)] else c
  {
    hide IsList, Elems, Unvalued, TestSetAt, PatchControl;
    ElemsNext(code, head, L, i);
    UnvaluedOneMore(code, Elems(L[..i]), L[i]);
  }

  lemma UnvaluedOneMore(code: seq<Instr>, P: set<nat>, p: nat)
    requires p !in P && p < |code|
    ensures var c := Unvalued(code, P);
      Unvalued(code, P + {p}) == if TestSetAt(c, p) then c[p - 1 := PatchControl(c[p - 1], NO_REG)] else c
  {
    var c, c' := Unvalued(code, P), Unvalued(code, P + {p});
    forall q | 0 <= q < |code| && q != p - 1 ensures c'[q] == c[q] { }
    assert p > 0 ==> c[p - 1] == code[p - 1];
    assert p > 0 ==> c'[p - 1] == PatchControl(code[p - 1], NO_REG);
  }

  lemma PatchedNone(code: seq<Instr>, L: seq<nat>, reg: int, vt: int, dt: int)
    ensures Patched(code, Elems(L[..0]), reg, vt, dt) == code
  {
  }

  // What is not patched yet is still linked.
  lemma PatchedRest(code: seq<Instr>, head: int, L: seq<nat>, i: nat, reg: int, vt: int, dt: int)
    requires IsList(code, head, L) && i < |L|
    ensures var c := Patched(code, Elems(L[..i]), reg, vt, dt);
      L[i] < |c| && c[L[i]].Jmp? && GetJump(c, L[i]) == if i + 1 < |L| then L[i + 1] else NO_JUMP
  {
    hide IsList, Patched, Elems;
    NextInList(code, head, L, i);
    ElemsNext(code, head, L, i);
    PatchedJump(code, Elems(L[..i]), reg, vt, dt, L[i]);
  }

  lemma PatchedJump(code: seq<Instr>, P: set<nat>, reg: int, vt: int, dt: int, q: nat)
    requires q < |code| && q !in P && code[q].Jmp?
    ensures Patched(code, P, reg, vt, dt)[q] == code[q]
  {
  }

  lemma PatchedNext(code: seq<Instr>, head: int, L: seq<nat>, i: nat, reg: int, vt: int, dt: int)
    requires IsList(code, head, L) && i < |L|
    ensures var c, p := Patched(code, Elems(L[..i]), reg, vt, dt), L[i];
      Patched(code, Elems(L[..i + 1]), reg, vt, dt) ==
        if TestSetAt(c, p) then c[p - 1 := PatchControl(c[p - 1], reg)][p := Jmp(vt - (p + 1))] else c[p := Jmp(dt - (p + 1))]
  {
    hide IsList, Elems, Patched, TestSetAt, PatchControl;
    ElemsNext(code, head, L, i);
    PatchedOneMore(code, Elems(L[..i]), L[i], reg, vt, dt);
  }

  lemma PatchedOneMore(code: seq<Instr>, P: set<nat>, p: nat, reg: int, vt: int, dt: int)
    requires p !in P && p < |code| && code[p].Jmp? && forall q :: q in P ==> q < |code| && code[q].Jmp?
    ensures var c := Patched(code, P, reg, vt, dt);
      Patched(code, P + {p}, reg, vt, dt) ==
        if TestSetAt(c, p) then c[p - 1 := PatchControl(c[p - 1], reg)][p := Jmp(vt - (p + 1))] else c[p := Jmp(dt - (p + 1))]
  {
    var c, c' := Patched(code, P, reg, vt, dt), Patched(code, P + {p}, reg, vt, dt);
    assert TestSetAt(c, p) == TestSetAt(code, p);
    forall q | 0 <= q < |code| && q != p && q != p - 1 ensures c'[q] == c[q] { }
    assert c'[p] == Jmp((if TestSetAt(code, p) then vt else dt) - (p + 1));
    assert p > 0 ==> c'[p - 1] == if TestSetAt(c, p) then PatchControl(c[p - 1], reg) else c[p - 1];
  }

  lemma EmptyList(code: seq<Instr>)
    ensures IsList(code, NO_JUMP, []) && Elems([]) == {}
  {
  }

  lemma ListLonger(code: seq<Instr>, head: int, L: seq<nat>, code': seq<Instr>)
    requires IsList(code, head, L) && |code| <= |code'| && code'[..|code|] == code
    ensures IsList(code', head, L)
  {
    ListFacts(code, head, L);
    forall j | j in L ensures code'[j] == code[j] { assert code'[j] == code'[..|code|][j]; }
    ListKept(code, head, L, code');
  }

  // The list of a new jump at the end, and a list of older jumps.
  lemma OneMoreList(code: seq<Instr>, held: int, L: seq<nat>, code': seq<Instr>)
    requires IsList(code, held, L) && |code'| == |code| + 1 && code'[..|code|] == code && code'[|code|] == Jmp(NO_JUMP)
    ensures IsList(code', held, L) && IsList(code', |code|, [|code|]) && Elems([|code|]) !! Elems(L)
  {
    ListFacts(code, held, L);
    ListLonger(code, held, L, code');
  }

  lemma SingleList(code: seq<Instr>, pc: int, n: nat)
    requires IsList(code, pc, [n])
    ensures pc == n < |code| && code[n] == Jmp(NO_JUMP)
  {
    assert [n][0] == n && Link([n], 0) == NO_JUMP;
  }
}
