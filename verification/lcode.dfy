// The code generator: jump lists, patching, and code for expressions, as lcode.c updates them.
module CodeGen {
  import opened Integers
  import opened Bytecode
  import opened CodeRuns
  import opened Expressions
  import opened CodeSteps
  import opened CodeOperators
  import opened CodeClosing
  import opened JumpLists
  import opened CodeState
  import opened CodeOperands

  class FuncState {
    var code: seq<Instr>
    var jpc: int
    var lasttarget: int
    ghost var here: seq<nat>
    var freereg: nat
    const nactvar: nat
    var ks: seq<Value>
    var cache: map<Value, nat>

    // A function with n local variables.
    constructor (n: nat)
      ensures code == [] && jpc == NO_JUMP && here == [] && freereg == nactvar == n && ks == []
    {
      code, jpc, lasttarget, here := [], NO_JUMP, 0, [];
      freereg, nactvar, ks, cache := n, n, [], map[];
    }

    ghost function Now(): Snap
      reads this
    {
      Snap(code, jpc, here, freereg, nactvar, ks)
    }

    // 'fixjump'.
    method FixJump(pc: nat, dest: int)
      requires pc < |code|
      modifies `code
      ensures code == old(code)[pc := Jmp(dest - (pc + 1))]
    {
      code := code[pc := Jmp(dest - (pc + 1))];
    }

    // 'luaK_getlabel'.
    method GetLabel() returns (pc: nat)
      modifies `lasttarget
      ensures pc == |code|
    {
      lasttarget := |code|;
      pc := |code|;
    }

    // 'need_value'.
    method NeedValue(head: int, ghost L: seq<nat>) returns (need: bool)
      requires IsList(code, head, L)
      ensures need <==> exists j :: j in L && !TestSetAt(code, j)
    {
      var list := head;
      ghost var i := 0;
      while list != NO_JUMP
        invariant 0 <= i <= |L| && list == (if i < |L| then L[i] else NO_JUMP)
        invariant forall x :: 0 <= x < i ==> TestSetAt(code, L[x])
        decreases |L| - i
      {
        NextInList(code, head, L, i);
        if !Control(code, list).TestSet? {
          assert L[i] in L && !TestSetAt(code, L[i]);
          return true;
        }
        list := GetJump(code, list);
        i := i + 1;
      }
      return false;
    }

    // 'luaK_concat'.
    method Concat(l1: int, l2: int, ghost L1: seq<nat>, ghost L2: seq<nat>) returns (l: int)
      requires IsList(code, l1, L1) && IsList(code, l2, L2) && Elems(L1) !! Elems(L2)
      modifies `code
      ensures IsList(code, l, L1 + L2)
      ensures |code| == |old(code)|
      ensures forall p: nat :: p < |code| && (L1 == [] || L2 == [] || p != L1[|L1| - 1]) ==> code[p] == old(code[p])
    {
      hide IsList, GetJump, Link, Elems;
      ListFacts(code, l1, L1);
      ListFacts(code, l2, L2);
      if l2 == NO_JUMP {
        assert L2 == [] && L1 + L2 == L1;
        return l1;
      } else if l1 == NO_JUMP {
        assert L1 == [] && L1 + L2 == L2;
        return l2;
      }
      assert L1[0] in L1;
      var list: nat := l1;
      ghost var i := 0;
      NextInList(code, l1, L1, 0);
      var next := GetJump(code, list);
      while next != NO_JUMP
        invariant code == old(code) && 0 <= i < |L1| && list == L1[i] && next == (if i + 1 < |L1| then L1[i + 1] else NO_JUMP)
        decreases |L1| - i
      {
        list := next;
        i := i + 1;
        assert L1[i] in L1;
        NextInList(code, l1, L1, i);
        next := GetJump(code, list);
      }
      assert L1[i] in L1;
      FixJump(list, l2);
      Spliced(old(code), l1, L1, l2, L2);
      return l1;
    }

    // 'patchtestreg' on the control of a jump.
    method PatchTestReg(node: nat, reg: int) returns (ok: bool)
      requires node < |code| && code[node].Jmp?
      modifies `code
      ensures ok == TestSetAt(old(code), node)
      ensures code == if ok then old(code)[node - 1 := PatchControl(old(code)[node - 1], reg)] else old(code)
    {
      var i := Control(code, node);
      if !i.TestSet? { return false; }
      if reg != NO_REG && reg != i.b {
        code := code[node - 1 := i.(t := reg)];
      } else {
        code := code[node - 1 := Test(i.b, i.c)];
      }
      return true;
    }

    // 'removevalues'.
    method RemoveValues(head: int, ghost L: seq<nat>)
      requires IsList(code, head, L)
      modifies `code
      ensures code == Unvalued(old(code), Elems(L))
      ensures IsList(code, head, L)
    {
      ghost var code0 := code;
      var list := head;
      ghost var i := 0;
      assert Unvalued(code0, Elems(L[..0])) == code0;
      while list != NO_JUMP
        invariant 0 <= i <= |L| && list == (if i < |L| then L[i] else NO_JUMP)
        invariant code == Unvalued(code0, Elems(L[..i]))
        decreases |L| - i
      {
        UnvaluedList(code0, head, L, i);
        NextInList(code, head, L, i);
        var next := GetJump(code, list);
        var _ := PatchTestReg(list, NO_REG);
        UnvaluedNext(code0, head, L, i);
        list := next;
        i := i + 1;
      }
      UnvaluedList(code0, head, L, |L|);
      assert L[..|L|] == L;
    }

    // 'patchlistaux'.
    method PatchListAux(head: int, vtarget: int, reg: int, dtarget: int, ghost L: seq<nat>)
      requires IsList(code, head, L)
      modifies `code
      ensures code == Patched(old(code), Elems(L), reg, vtarget, dtarget)
    {
      hide IsList, GetJump, Patched, PatchControl;
      ghost var code0 := code;
      ListFacts(code, head, L);
      var list := head;
      ghost var i := 0;
      PatchedNone(code0, L, reg, vtarget, dtarget);
      while list != NO_JUMP
        invariant 0 <= i <= |L| && list == (if i < |L| then L[i] else NO_JUMP)
        invariant code == Patched(code0, Elems(L[..i]), reg, vtarget, dtarget)
        decreases |L| - i
      {
        PatchedRest(code0, head, L, i, reg, vtarget, dtarget);
        var next := GetJump(code, list);
        var ok := PatchTestReg(list, reg);
        if ok { FixJump(list, vtarget); } else { FixJump(list, dtarget); }
        PatchedNext(code0, head, L, i, reg, vtarget, dtarget);
        list := next;
        i := i + 1;
      }
      assert L[..|L|] == L;
    }

    // 'dischargejpc'.
    method DischargeJpc()
      requires IsList(code, jpc, here)
      modifies `code, `jpc, `here, `lasttarget
      ensures code == Discharged(old(code), Elems(old(here))) && jpc == NO_JUMP && here == [] && lasttarget == old(lasttarget)
    {
      PatchListAux(jpc, |code|, NO_REG, |code|, here);
      jpc, here := NO_JUMP, [];
    }

    // 'luaK_code'.
    method Code(i: Instr) returns (pc: nat)
      requires IsList(code, jpc, here)
      modifies `code, `jpc, `here, `lasttarget
      ensures code == Discharged(old(code), Elems(old(here))) + [i] && pc == |old(code)|
      ensures jpc == NO_JUMP && here == []
    {
      DischargeJpc();
      pc := |code|;
      code := code + [i];
    }

    // 'luaK_patchtohere'.
    method PatchToHere(list: int, ghost L: seq<nat>)
      requires IsList(code, jpc, here) && IsList(code, list, L) && Elems(here) !! Elems(L)
      modifies `code, `jpc, `here, `lasttarget
      ensures IsList(code, jpc, here) && here == old(here) + L && |code| == |old(code)|
      ensures forall p: nat :: p < |code| && (p in old(here) ==> L == []) ==> code[p] == old(code[p])
      ensures forall p: nat :: p < |code| && p in old(here) ==> code[p].Jmp?
    {
      var _ := GetLabel();
      forall p | p in here ensures p < |code| && code[p].Jmp? { var i :| 0 <= i < |here| && here[i] == p; }
      jpc := Concat(jpc, list, here, L);
      here := here + L;
      forall p: nat | p < |code| && p in old(here) ensures code[p].Jmp? { assert p in here; var i :| 0 <= i < |here| && here[i] == p; }
    }

    // 'luaK_jump': pending jumps go wherever the new jump goes.
    method Jump() returns (j: int)
      requires IsList(code, jpc, here)
      modifies `code, `jpc, `here, `lasttarget
      ensures IsList(code, j, [|old(code)|] + old(here)) && jpc == NO_JUMP && here == []
      ensures |code| == |old(code)| + 1 && code[..|old(code)|] == old(code)
    {
      hide IsList, Discharged;
      var held := jpc;
      ghost var L, code0 := here, code;
      jpc, here := NO_JUMP, [];
      Undischarged(code);
      EmptyList(code);
      var pc := Code(Jmp(NO_JUMP));
      OneMoreList(code0, held, L, code);
      j := Concat(pc, held, [pc], L);
    }

    // ---- constants ----

    // 'addk': the cache may hold an index of another function.
    method AddK(v: Value) returns (k: nat)
      modifies `ks, `cache
      ensures old(ks) <= ks && k < |ks| && ks[k] == v
    {
      if v in cache {
        k := cache[v];
        if k < |ks| && ks[k] == v { return; }
      }
      k := |ks|;
      cache := cache[v := k];
      ks := ks + [v];
    }

    // ---- registers ----

    // 'luaK_reserveregs'; the limit of 255 registers is left out.
    method ReserveRegs(n: nat)
      modifies `freereg
      ensures freereg == old(freereg) + n
    {
      freereg := freereg + n;
    }

    // 'freereg' with its assertion that registers are freed in stack order.
    method FreeReg(reg: nat)
      requires reg >= nactvar ==> freereg == reg + 1
      modifies `freereg
      ensures freereg == if reg >= nactvar then reg else old(freereg)
    {
      if reg >= nactvar { freereg := freereg - 1; }
    }

    // 'freeexp'.
    method FreeExp(e: ExpDesc)
      requires e.k.VNonReloc? && e.k.r >= nactvar ==> freereg == e.k.r + 1
      modifies `freereg
      ensures freereg == if e.k.VNonReloc? && e.k.r >= nactvar then e.k.r else old(freereg)
    {
      if e.k.VNonReloc? { FreeReg(e.k.r); }
    }

    // ---- values into registers ----

    // 'discharge2reg', for a descriptor that is no pending jump.
    method Discharge2Reg(e0: ExpDesc, reg: nat, ghost g: Lists, ghost x: Expr) returns (e: ExpDesc)
      requires Worth(Now(), e0, g, x) && !e0.k.VJmp?
      modifies this
      ensures e == ExpDesc(VNonReloc(reg), e0.t, e0.f) && freereg == old(freereg)
      ensures Filled(Now(), e, g, reg, x) && Kept(old(Now()), Now(), g.start)
    {
      hide Worth, Filled, Kept, Discharged;
      ghost var s0 := Now();
      e := DischargeVars(e0);
      DischargeVarsWorth(s0, e0, g, x);
      LinkedOfWorth(s0, e, g, x);
      match e.k {
        case VNil => EmitConstant(e, LoadNil(reg), g, x);
        case VTrue => EmitConstant(e, LoadBool(reg, true, false), g, x);
        case VFalse => EmitConstant(e, LoadBool(reg, false, false), g, x);
        case VK(k) => EmitConstant(e, LoadK(reg, k), g, x);
        case VKInt(i) =>
          var k := AddK(Int(i));
          MoreConstants(s0, ks, e, g, x);
          ghost var s1 := Now();
          EmitConstant(e, LoadK(reg, k), g, x);
          MoreKept(s0, ks, s1, Now(), e, g, x);
        case VReloc(pc) =>
          RelocFilled(s0, e, g, x, reg);
          code := code[|code| - 1 := Retarget(code[|code| - 1], reg)];
        case VNonReloc(r) =>
          if reg != r {
            EmitConstant(e, Move(reg, r), g, x);
          } else {
            HeldFilled(s0, e, g, x);
            WorthKept(s0, e, g, x);
            KeptRefl(s0, g.start);
          }
      }
      FilledKind(Now(), e, e.(k := VNonReloc(reg)), g, reg, x);
      e := e.(k := VNonReloc(reg));
    }

    // Emitting the instruction that gives the value of the descriptor.
    method EmitConstant(e: ExpDesc, i: Instr, ghost g: Lists, ghost x: Expr)
      requires Worth(Now(), e, g, x) && TailLen(e.k) == 0 && Gives(i) && Computes(i, e.k, [], ks)
      modifies `code, `jpc, `here, `lasttarget
      ensures Filled(Now(), e, g, i.a, x) && Kept(old(Now()), Now(), g.start)
    {
      hide Worth, Filled, Kept, Discharged;
      EmitFilled(Now(), e, g, x, i);
      LinkedOfWorth(Now(), e, g, x);
      var _ := Code(i);
    }

    // ---- closing the exits ----

    // 'code_label'.
    method CodeLabel(a: nat, b: bool, jump: bool) returns (pc: nat)
      requires IsList(code, jpc, here)
      modifies `code, `jpc, `here, `lasttarget
      ensures code == Discharged(old(code), Elems(old(here))) + [LoadBool(a, b, jump)] && pc == |old(code)|
      ensures jpc == NO_JUMP && here == []
    {
      var _ := GetLabel();
      pc := Code(LoadBool(a, b, jump));
    }

    // The two loads of booleans, where no jump pends.
    method CodeLoads(reg: nat) returns (pf: nat, pt: nat)
      requires jpc == NO_JUMP && here == []
      modifies `code, `jpc, `here, `lasttarget
      ensures code == old(code) + Loads(reg) && pf == |old(code)| && pt == pf + 1 && jpc == NO_JUMP && here == []
    {
      Undischarged(code);
      pf := CodeLabel(reg, false, true);
      Undischarged(code);
      pt := CodeLabel(reg, true, false);
    }

    // A comparison: its jump is one more true exit, and it needs the loads.
    method LoadComparison(e0: ExpDesc, reg: nat, ghost g: Lists, ghost x: Expr)
      returns (e: ExpDesc, pf: nat, pt: nat, ghost g1: Lists)
      requires Worth(Now(), e0, g, x) && e0.k.VJmp?
      modifies `code, `jpc, `here, `lasttarget
      ensures Filled(Now(), e, g1, reg, x) && Loaded(Now(), g1, reg) && Kept(old(Now()), Now(), g.start)
      ensures pf == |code| - 2 && pt == |code| - 1 && g1 == g.(t := g.t + [e0.k.pc])
    {
      hide Worth, Filled, Kept, IsList, Shape, Means, Loaded;
      ghost var s0 := Now();
      ComparisonFacts(s0, e0, g, x);
      LinkedOfWorth(s0, e0, g, x);
      ComparisonList(code, e0.k.pc, g.t);
      var t := Concat(e0.t, e0.k.pc, g.t, [e0.k.pc]);
      assert g.t != [] ==> g.t[|g.t| - 1] in g.t;
      g1 := g.(t := g.t + [e0.k.pc]);
      e := e0.(t := t);
      ghost var code1 := code;
      assert e0.k.pc !in g.t && e0.k.pc !in g.f;
      pf, pt := CodeLoads(reg);
      ListLonger(code1, e.t, g1.t, code);
      OtherList(s0, e0, g, x, code);
      EmptyList(code);
      JumpLoadedState(s0, e0, g, x, reg, Now(), e, g1);
    }

    // The value is in reg: a jump over the loads, which holds the pending jumps.
    method LoadOver(e: ExpDesc, reg: nat, ghost g: Lists, ghost x: Expr) returns (pf: nat, pt: nat)
      requires Filled(Now(), e, g, reg, x) && |code| > g.start
      modifies `code, `jpc, `here, `lasttarget
      ensures Filled(Now(), e, g, reg, x) && Loaded(Now(), g, reg) && Kept(old(Now()), Now(), g.start)
      ensures pf == |code| - 2 && pt == |code| - 1
    {
      hide Filled, Kept, IsList, Shape, Loaded, Linked;
      ghost var s0 := Now();
      FilledFacts(s0, e, g, reg, x);
      LinkedParts(s0, e, g);
      ghost var L := [|code|] + here;
      var fj := Jump();
      ghost var code1 := code;
      ListFacts(code1, fj, L);
      pf, pt := CodeLoads(reg);
      ListLonger(code1, fj, L, code);
      EmptyList(code);
      assert [] + L == L;
      PatchToHere(fj, L);
      assert code[|s0.code| + 1..] == Loads(reg);
      HeldLoadedState(s0, e, g, reg, x, Now());
    }

    // 'patchlistaux' on both lists of exits.
    method PatchExits(e: ExpDesc, reg: nat, pf: int, pt: int, ghost g: Lists, ghost x: Expr)
      requires Filled(Now(), e, g, reg, x)
      requires ExitsReady(Now(), g, reg, pf, pt)
      modifies `code, `lasttarget
      ensures Filled(Now(), ExpDesc(e.k, NO_JUMP, NO_JUMP), Lists([], [], g.start, g.base), reg, x)
      ensures Kept(old(Now()), Now(), g.start)
    {
      hide Filled, Kept, IsList, Shape, Loaded, Linked, Patched, TestSetAt;
      ghost var s0 := Now();
      FilledFacts(s0, e, g, reg, x);
      LinkedParts(s0, e, g);
      var final := GetLabel();
      PatchReady(s0, e, g, reg, x, pf, pt);
      PatchedState(s0, e, g, reg, x, false, pf);
      PatchListAux(e.f, final, reg, pf, g.f);
      ghost var s1, e1, g1 := Now(), e.(f := NO_JUMP), g.(f := []);
      LinkedParts(s1, e1, g1);
      FilledFacts(s1, e1, g1, reg, x);
      PatchReadyToo(s0, e, g, reg, x, pf, pt);
      PatchedState(s1, e1, g1, reg, x, true, pt);
      PatchListAux(e.t, final, reg, pt, g.t);
      KeptTrans(s0, s1, Now(), g.start);
    }

    // 'exp2reg'.
    method Exp2Reg(e0: ExpDesc, reg: nat, ghost g: Lists, ghost x: Expr) returns (e: ExpDesc, ghost g1: Lists)
      requires Worth(Now(), e0, g, x)
      modifies this
      ensures e == ExpDesc(VNonReloc(reg), NO_JUMP, NO_JUMP) && g1 == Lists([], [], g.start, g.base)
      ensures Filled(Now(), e, g1, reg, x) && Kept(old(Now()), Now(), g.start) && freereg == old(freereg)
    {
      hide Worth, Filled, Kept, IsList, Shape, Loaded, Linked;
      ghost var s0 := Now();
      var pf: int, pt: int := NO_JUMP, NO_JUMP;
      g1 := g;
      if e0.k.VJmp? {
        // The jump of a comparison carries no value: the loads are needed.
        e, pf, pt, g1 := LoadComparison(e0, reg, g, x);
        ghost var s1 := Now();
        PatchExits(e, reg, pf, pt, g1, x);
        KeptTrans(s0, s1, Now(), g.start);
      } else {
        e := Discharge2Reg(e0, reg, g, x);
        ghost var s1 := Now();
        FilledFacts(s1, e, g, reg, x);
        LinkedParts(s1, e, g);
        ListFacts(code, e.t, g.t);
        ListFacts(code, e.f, g.f);
        if e.t != e.f {
          var need := NeedValue(e.t, g.t);
          if !need { need := NeedValue(e.f, g.f); }
          if need {
            pf, pt := LoadOver(e, reg, g, x);
            KeptTrans(s0, s1, Now(), g.start);
          }
          ghost var s2 := Now();
          PatchExits(e, reg, pf, pt, g, x);
          KeptTrans(s0, s2, Now(), g.start);
        } else {
          NoExits(s1, e, g, reg, x);
        }
      }
      FilledKind(Now(), e.(t := NO_JUMP, f := NO_JUMP), ExpDesc(VNonReloc(reg), NO_JUMP, NO_JUMP), Lists([], [], g.start, g.base), reg, x);
      e, g1 := ExpDesc(VNonReloc(reg), NO_JUMP, NO_JUMP), Lists([], [], g.start, g.base);
    }

    // ---- values where an operation wants them ----

    // 'discharge2anyreg'.
    method Discharge2AnyReg(e0: ExpDesc, ghost g: Lists, ghost x: Expr) returns (e: ExpDesc)
      requires Ready(Now(), e0, g, x) && !e0.k.VJmp?
      modifies this
      ensures e.k.VNonReloc? && e.t == e0.t && e.f == e0.f && Ready(Now(), e, g, x) && Kept(old(Now()), Now(), g.start)
    {
      hide Worth, Filled, Kept;
      ghost var s0 := Now();
      WorthKept(s0, e0, g, x);
      WorthReg(s0, e0, g, x);
      if e0.k.VNonReloc? {
        KeptRefl(s0, g.start);
        return e0;
      }
      ReserveRegs(1);
      ghost var s1 := Now();
      WorthFree(s0, s1, e0, g, x);
      e := Discharge2Reg(e0, freereg - 1, g, x);
      FilledWorth(Now(), e, g, x);
      KeptFree(s0, s1, Now(), g.start);
    }

    // 'luaK_exp2nextreg'.
    method Exp2NextReg(e0: ExpDesc, ghost g: Lists, ghost x: Expr) returns (e: ExpDesc, ghost g1: Lists)
      requires Ready(Now(), e0, g, x)
      modifies this
      ensures e.k == VNonReloc(g.base) && g1.start == g.start && g1.base == g.base
      ensures Plain(Now(), e, g1, x) && Kept(old(Now()), Now(), g.start) && freereg == g.base + 1
    {
      hide Worth, Filled, Kept;
      ghost var s0 := Now();
      e := DischargeVars(e0);
      DischargeVarsWorth(s0, e0, g, x);
      WorthReg(s0, e, g, x);
      FreeExp(e);
      ReserveRegs(1);
      ghost var s1 := Now();
      WorthFree(s0, s1, e, g, x);
      e, g1 := Exp2Reg(e, freereg - 1, g, x);
      FilledWorth(Now(), e, g1, x);
      KeptFree(s0, s1, Now(), g.start);
    }

    // 'luaK_exp2anyreg'.
    method Exp2AnyReg(e0: ExpDesc, ghost g: Lists, ghost x: Expr) returns (e: ExpDesc, ghost g1: Lists)
      requires Ready(Now(), e0, g, x)
      modifies this
      ensures e.k.VNonReloc? && g1.start == g.start && g1.base == g.base
      ensures Plain(Now(), e, g1, x) && Kept(old(Now()), Now(), g.start)
    {
      hide Worth, Filled, Kept;
      ghost var s0 := Now();
      e := DischargeVars(e0);
      DischargeVarsWorth(s0, e0, g, x);
      WorthReg(s0, e, g, x);
      WorthKept(s0, e, g, x);
      if e.k.VNonReloc? {
        if !HasJumps(e) {
          NoJumpsPlain(s0, e, g, x);
          KeptRefl(s0, g.start);
          return e, g;
        }
        if e.k.r >= nactvar {
          e, g1 := Exp2Reg(e, e.k.r, g, x);
          FilledWorth(Now(), e, g1, x);
          return;
        }
      }
      e, g1 := Exp2NextReg(e, g, x);
    }

    // 'luaK_exp2val'.
    method Exp2Val(e0: ExpDesc, ghost g: Lists, ghost x: Expr) returns (e: ExpDesc, ghost g1: Lists)
      requires Ready(Now(), e0, g, x)
      modifies this
      ensures g1.start == g.start && g1.base == g.base && !e.k.VLocal?
      ensures Plain(Now(), e, g1, x) && Kept(old(Now()), Now(), g.start)
    {
      hide Worth, Kept;
      ghost var s0 := Now();
      if HasJumps(e0) {
        e, g1 := Exp2AnyReg(e0, g, x);
      } else {
        e, g1 := DischargeVars(e0), g;
        DischargeVarsWorth(s0, e0, g, x);
        WorthReg(s0, e0, g, x);
        WorthReg(s0, e, g, x);
        NoJumpsPlain(s0, e, g, x);
        WorthKept(s0, e, g, x);
        KeptRefl(s0, g.start);
      }
    }

    // A constant as an operand, if its index fits.
    method ConstantRK(e0: ExpDesc, v: Value, ghost g: Lists, ghost x: Expr) returns (e: ExpDesc)
      requires Plain(Now(), e0, g, x) && ConstKind(e0.k, v)
      modifies `ks, `cache
      ensures e.k.VK? && e.t == e.f == NO_JUMP && Plain(Now(), e, g, x) && Kept(old(Now()), Now(), g.start)
    {
      hide Worth, Kept;
      ghost var s0 := Now();
      var k := AddK(v);
      MoreConstants(s0, ks, e0, g, x);
      ConstantWorth(Now(), e0, g, x, v, k);
      WorthKept(Now(), e0, g, x);
      KeptRefl(Now(), g.start);
      MoreKept(s0, ks, Now(), Now(), e0, g, x);
      e := e0.(k := VK(k));
    }

    // 'luaK_exp2RK'.
    method Exp2RK(e0: ExpDesc, ghost g: Lists, ghost x: Expr) returns (o: RK, e: ExpDesc, ghost g1: Lists)
      requires Ready(Now(), e0, g, x)
      modifies this
      ensures g1.start == g.start && g1.base == g.base && e.k == (match o case K(k) => VK(k) case R(r) => VNonReloc(r))
      ensures Plain(Now(), e, g1, x) && Kept(old(Now()), Now(), g.start)
    {
      hide Worth, Kept;
      ghost var s0 := Now();
      e, g1 := Exp2Val(e0, g, x);
      ghost var s1 := Now();
      if e.k.VTrue? || e.k.VFalse? || e.k.VNil? {
        if |ks| <= MAXINDEXRK {
          e := ConstantRK(e, if e.k.VNil? then Nil else Bool(e.k.VTrue?), g1, x);
          KeptTrans(s0, s1, Now(), g.start);
          return K(e.k.k), e, g1;
        }
      } else if e.k.VKInt? {
        e := ConstantRK(e, Int(e.k.i), g1, x);
        KeptTrans(s0, s1, Now(), g.start);
      }
      if e.k.VK? && e.k.k <= MAXINDEXRK {
        return K(e.k.k), e, g1;
      }
      ghost var s2 := Now();
      e, g1 := Exp2AnyReg(e, g1, x);
      KeptTrans(s0, s2, Now(), g.start);
      return R(e.k.r), e, g1;
    }

    // ---- branches ----

    // 'condjump'.
    method CondJump(test: Instr) returns (pc: nat)
      requires IsList(code, jpc, here) && TestReady(test)
      modifies `code, `jpc, `here, `lasttarget
      ensures Now() == EmitTest(old(Now()), test) && pc == |old(code)| + 1
    {
      hide IsList, Discharged;
      var _ := Code(test);
      ghost var code1 := code;
      EmptyList(code);
      var j := Jump();
      assert [|code1|] + [] == [|code1|];
      SingleList(code, j, |code1|);
      pc := j;
      assert code == code1 + [code[|code1|]];
    }

    // 'invertjump'.
    method InvertJump(e: ExpDesc)
      requires e.k.VJmp? && e.k.pc == |code| - 1 && |code| >= 2 && code[|code| - 2].Cmp?
      modifies `code
      ensures Now() == Compared(old(Now()), true)
    {
      var i := Control(code, e.k.pc);
      code := code[e.k.pc - 1 := i.(want := !i.want)];
    }

    // 'jumponcond': a jump taken when the value is 'cond'; an OP_NOT at the end is removed and its operand tested.
    method JumpOnCond(e0: ExpDesc, cond: bool, ghost g: Lists, ghost x: Expr) returns (e: ExpDesc, pc: nat, ghost fr: Frag)
      requires Ready(Now(), e0, g, x) && !e0.k.VJmp?
      modifies this
      ensures Jumped(Now(), e, g, fr, pc, [pc], x, !cond) && Kept(old(Now()), Now(), g.start)
      ensures freereg == g.base && e.t == e0.t && e.f == e0.f
    {
      hide Worth, Kept, Jumped, IsList, Discharged;
      ghost var s0 := Now();
      LinkedOfWorth(s0, e0, g, x);
      if e0.k.VReloc? && code[|code| - 1].Not? {
        var b := code[|code| - 1].b;
        NotJumped(s0, e0, g, x, !cond, b);
        fr := WithTest(Body(s0, e0.k, g), Test(b, !cond), !cond);
        code := code[..|code| - 1];
        EmptyList(code);
        Undischarged(code);
        pc := CondJump(Test(b, !cond));
        return e0, pc, fr;
      }
      e := Discharge2AnyReg(e0, g, x);
      ghost var s1 := Now();
      WorthReg(s1, e, g, x);
      FreeExp(e);
      ghost var s2 := Now();
      WorthFree(s1, s2, e, g, x);
      LinkedOfWorth(s2, e, g, x);
      TestSetJumped(s2, e, g, x, !cond);
      fr := WithTest(Settled(Whole(s2, g)), TestSet(NO_REG, e.k.r, cond), !cond);
      pc := CondJump(TestSet(NO_REG, e.k.r, cond));
      KeptFreed(s0, s1, s2, Now(), g.start);
    }

    // What 'luaK_goiftrue' and 'luaK_goiffalse' do with the new jump and with the other exits.
    method Branch(e0: ExpDesc, pc: int, want: bool, ghost more: seq<nat>, ghost g: Lists, ghost fr: Frag, ghost x: Expr)
      returns (e: ExpDesc, ghost g1: Lists)
      requires Jumped(Now(), e0, g, fr, pc, more, x, want)
      modifies `code, `jpc, `here, `lasttarget
      ensures Branching(Now(), e, g1, x, want) && Kept(old(Now()), Now(), g.start)
      ensures g1 == if want then Lists([], g.f + more, g.start, g.base) else Lists(g.t + more, [], g.start, g.base)
      ensures if want then e.t == NO_JUMP else e.f == NO_JUMP
    {
      hide Jumped, IsList, Kept, Branching;
      ghost var s0 := Now();
      JumpedLists(s0, e0, g, fr, pc, more, x, want);
      if want {
        var f := Concat(e0.f, pc, g.f, more);
        ghost var code1 := code;
        JumpedOthers(s0, e0, g, fr, pc, more, x, want, code1);
        PatchToHere(e0.t, g.t);
        BranchedLists(s0, e0, g, fr, pc, more, x, want, code1, f, Now());
        e, g1 := e0.(t := NO_JUMP, f := f), Lists([], g.f + more, g.start, g.base);
      } else {
        var t := Concat(e0.t, pc, g.t, more);
        ghost var code1 := code;
        JumpedOthers(s0, e0, g, fr, pc, more, x, want, code1);
        PatchToHere(e0.f, g.f);
        BranchedLists(s0, e0, g, fr, pc, more, x, want, code1, t, Now());
        e, g1 := e0.(t := t, f := NO_JUMP), Lists(g.t + more, [], g.start, g.base);
      }
      BranchedBranching(s0, e0, g, fr, pc, more, x, want, Now(), e, g1);
    }

    // 'luaK_goiftrue'.
    method GoIfTrue(e0: ExpDesc, ghost g: Lists, ghost x: Expr) returns (e: ExpDesc, ghost g1: Lists)
      requires Ready(Now(), e0, g, x) && (e0.k.VK? ==> e0.k.k < |ks| && !IsFalse(ks[e0.k.k]))
      modifies this
      ensures Branching(Now(), e, g1, x, true) && Kept(old(Now()), Now(), g.start) && freereg == g.base
      ensures g1.start == g.start && g1.base == g.base && e.t == NO_JUMP
    {
      hide Worth, Jumped, Kept, Branching;
      ghost var s0 := Now();
      ghost var fr: Frag;
      ghost var more: seq<nat> := [];
      var pc: int := NO_JUMP;
      e := DischargeVars(e0);
      DischargeVarsWorth(s0, e0, g, x);
      WorthKept(s0, e, g, x);
      KeptRefl(s0, g.start);
      if e.k.VJmp? {
        ComparisonJumped(s0, e, g, x, true);
        ComparisonFacts(s0, e, g, x);
        InvertJump(e);
        pc, more := e.k.pc, [e.k.pc];
        fr := WithTest(Body(s0, e.k, g), Flip(s0.code[|s0.code| - 2], true), true);
      } else if AlwaysTrue(e.k) {
        ConstantJumped(s0, e, g, x, true);
        fr := Whole(s0, g);
      } else {
        e, pc, fr := JumpOnCond(e, false, g, x);
        more := [pc];
      }
      ghost var s1 := Now();
      e, g1 := Branch(e, pc, true, more, g, fr, x);
      KeptTrans(s0, s1, Now(), g.start);
    }

    // 'luaK_goiffalse'.
    method GoIfFalse(e0: ExpDesc, ghost g: Lists, ghost x: Expr) returns (e: ExpDesc, ghost g1: Lists)
      requires Ready(Now(), e0, g, x)
      modifies this
      ensures Branching(Now(), e, g1, x, false) && Kept(old(Now()), Now(), g.start) && freereg == g.base
      ensures g1.start == g.start && g1.base == g.base && e.f == NO_JUMP
    {
      hide Worth, Jumped, Kept, Branching;
      ghost var s0 := Now();
      ghost var fr: Frag;
      ghost var more: seq<nat> := [];
      var pc: int := NO_JUMP;
      e := DischargeVars(e0);
      DischargeVarsWorth(s0, e0, g, x);
      WorthKept(s0, e, g, x);
      KeptRefl(s0, g.start);
      if e.k.VJmp? {
        ComparisonJumped(s0, e, g, x, false);
        ComparisonFacts(s0, e, g, x);
        SameCompared(s0);
        pc, more := e.k.pc, [e.k.pc];
        fr := WithTest(Body(s0, e.k, g), Flip(s0.code[|s0.code| - 2], false), false);
      } else if AlwaysFalse(e.k) {
        ConstantJumped(s0, e, g, x, false);
        fr := Whole(s0, g);
      } else {
        e, pc, fr := JumpOnCond(e, true, g, x);
        more := [pc];
      }
      ghost var s1 := Now();
      e, g1 := Branch(e, pc, false, more, g, fr, x);
      KeptTrans(s0, s1, Now(), g.start);
    }

    // The first part of 'codenot': the end of the code gives the negated value.
    method NegateEnd(e0: ExpDesc, ghost g: Lists, ghost x: Expr) returns (e: ExpDesc, k: Kind, ghost fr: Frag, ghost tail: seq<Instr>)
      requires Ready(Now(), e0, g, x) && (e0.k.VK? ==> e0.k.k < |ks| && !IsFalse(ks[e0.k.k]))
      modifies this
      ensures Negated(Now(), e, g, fr, k, tail, x) && Kept(old(Now()), Now(), g.start) && freereg == g.base
    {
      hide Worth, Negated, Kept, IsList, Discharged;
      ghost var s0 := Now();
      tail := [];
      e := DischargeVars(e0);
      DischargeVarsWorth(s0, e0, g, x);
      WorthKept(s0, e, g, x);
      KeptRefl(s0, g.start);
      if AlwaysFalse(e.k) {
        ConstantNegated(s0, e, g, x, VTrue);
        k, fr := VTrue, Whole(s0, g);
      } else if AlwaysTrue(e.k) {
        ConstantNegated(s0, e, g, x, VFalse);
        k, fr := VFalse, Whole(s0, g);
      } else if e.k.VJmp? {
        ComparisonNegated(s0, e, g, x);
        ComparisonFacts(s0, e, g, x);
        InvertJump(e);
        k, fr := e.k, Body(s0, e.k, g);
        tail := [Flip(s0.code[|s0.code| - 2], true), Jmp(NO_JUMP)];
      } else {
        e := Discharge2AnyReg(e, g, x);
        ghost var s1 := Now();
        WorthReg(s1, e, g, x);
        FreeExp(e);
        ghost var s2 := Now();
        WorthFree(s1, s2, e, g, x);
        RegisterNegated(s2, e, g, x);
        LinkedOfWorth(s2, e, g, x);
        fr := Settled(Whole(s2, g));
        tail := [Not(0, e.k.r)];
        var pc := Code(Not(0, e.k.r));
        k := VReloc(pc);
        KeptFreed(s0, s1, s2, Now(), g.start);
      }
    }

    // 'codenot'.
    method CodeNot(e0: ExpDesc, ghost g: Lists, ghost x: Expr) returns (e: ExpDesc, ghost g1: Lists)
      requires Ready(Now(), e0, g, x) && (e0.k.VK? ==> e0.k.k < |ks| && !IsFalse(ks[e0.k.k]))
      modifies this
      ensures Ready(Now(), e, g1, Prefix(NotOp, x)) && Kept(old(Now()), Now(), g.start)
      ensures g1 == g.(t := g.f, f := g.t) && !e.k.VK?
    {
      hide Worth, Negated, Kept, Unvalued, IsList;
      ghost var s0 := Now();
      var k: Kind;
      ghost var fr: Frag;
      ghost var tail: seq<Instr>;
      e, k, fr, tail := NegateEnd(e0, g, x);
      ghost var s3 := Now();
      SwappedWorth(s3, e, g, fr, k, tail, x);
      SwappedLinked(s3, e, g, fr, k, tail, x);
      NegatedLists(s3, e, g, fr, k, tail, x);
      RemoveValues(e.t, g.t);
      UnvaluedKeeps(s3.code, e.f, g.f, Elems(g.t));
      RemoveValues(e.f, g.f);
      UnvaluedTwice(s3.code, Elems(g.t), Elems(g.f));
      KeptTrans(s0, s3, Now(), g.start);
      e, g1 := ExpDesc(k, e.f, e.t), g.(t := g.f, f := g.t);
    }

    // ---- operations ----

    // 'tonumeral'.
    static predicate IsNumeral(e: ExpDesc) { e.t == NO_JUMP && e.f == NO_JUMP && e.k.VKInt? }

    // 'constfolding'.
    method ConstFolding(op: ArithOp, e1: ExpDesc, e2: ExpDesc) returns (ok: bool, e: ExpDesc)
      ensures ok <==> IsNumeral(e1) && IsNumeral(e2) && Folded(op, e1.k.i, e2.k.i).Ok?
      ensures ok ==> e.k.VKInt? && Folded(op, e1.k.i, e2.k.i) == Ok(Int(e.k.i)) && e.t == e.f == NO_JUMP
    {
      e := e1;
      if !IsNumeral(e1) || !IsNumeral(e2) { return false, e; }
      var v := Folded(op, e1.k.i, e2.k.i);
      if v.Err? { return false, e; }
      return true, e1.(k := VKInt(v.v.i));
    }

    // An operand as the source numbers it: constants have bit 8 set.
    static function RKCode(o: RK): nat {
      match o case R(r) => r case K(k) => 256 + k
    }

    // Freeing the registers of two operands, the topmost first.
    method FreeOperands(e1: ExpDesc, e2: ExpDesc, o1: RK, o2: RK, ghost b: nat)
      requires e1.k == KindOf(o1) && e2.k == KindOf(o2) && Stacked(e1.k, e2.k, b, nactvar, freereg)
      modifies `freereg
      ensures freereg == b
    {
      if RKCode(o1) > RKCode(o2) {
        FreeExp(e1);
        FreeExp(e2);
      } else {
        FreeExp(e2);
        FreeExp(e1);
      }
    }

    // The first operand, after the second one is in place. A numeral gets its place only now.
    method PlaceFirst(e1: ExpDesc, ghost k2: Kind, ghost g: Lists, ghost x: Expr, ghost y: Expr) returns (o: RK, e: ExpDesc)
      requires OperandKind(e1.k) && BothReady(Now(), g, e1.k, k2, x, y) && OperandKind(k2) && Stable(k2, freereg)
      requires Stacked(e1.k, k2, g.base, nactvar, freereg) && Entry(code, |code|) && g.base <= freereg
      requires e1.t == e1.f == NO_JUMP && (e1.k.VKInt? ==> freereg <= g.base + 1)
      modifies this
      ensures e.k == KindOf(o) && BothReady(Now(), g, e.k, k2, x, y) && Stacked(e.k, k2, g.base, nactvar, freereg)
      ensures Kept(old(Now()), Now(), |old(code)|) || Now() == old(Now())
    {
      hide Both, Kept, Worth, Shape;
      if e1.k.VKInt? {
        ghost var s2 := Now();
        ghost var g3 := Lists([], [], |code|, freereg);
        ghost var i := e1.k.i;
        NumeralReady(s2, i);
        o, e, g3 := Exp2RK(e1, g3, Const(Int(i)));
        BothReloadedState(s2, g, i, e.k, k2, x, y, Now(), g3, e);
        WorthReg(Now(), e, g3, Const(Int(i)));
      } else {
        e := e1;
        o := if e1.k.VK? then K(e1.k.k) else R(e1.k.r);
      }
    }

    // 'codeexpval' for a binary operator.
    method CodeExpVal(op: ArithOp, e1: ExpDesc, e2: ExpDesc, ghost s1: Snap, ghost g1: Lists, ghost x: Expr, ghost g2: Lists, ghost y: Expr)
      returns (e: ExpDesc)
      requires Operands(s1, e1, g1, x, Now(), e2, g2, y)
      modifies this
      ensures Ready(Now(), e, Alone(g1), Bin(Calc(op), x, y)) && Kept(s1, Now(), g1.start) && !e.k.VK?
    {
      hide Both, Kept, Worth, Shape, BothReady, Plain, Operands, Stacked, Stable;
      ghost var s := Now();
      var ok;
      ok, e := ConstFolding(op, e1, e2);
      OperandsParts(s1, e1, g1, x, s, e2, g2, y);
      if ok {
        NumeralPlain(s, e2, g2, y);
        KeptRefl2(s, e2, g2, y);
        SecondPlaced(s1, e1, g1, x, s, e2, g2, y, s, e2, g2);
        FoldWorth(s, Alone(g1), op, e1.k.i, e2.k.i, e.k.i, x, y);
        OperandsFacts(s1, e1, g1, x, s, e2, g2, y);
        return;
      }
      var o2, e2', g2' := Exp2RK(e2, g2, y);
      SecondPlaced(s1, e1, g1, x, s, e2, g2, y, Now(), e2', g2');
      e := Operate(op, e1, e2', o2, s1, g1, x, y);
    }

    // The operation, after the second operand is in place.
    method Operate(op: ArithOp, e1: ExpDesc, e2: ExpDesc, o2: RK, ghost s1: Snap, ghost g1: Lists, ghost x: Expr, ghost y: Expr)
      returns (e: ExpDesc)
      requires OperandKind(e1.k) && e2.k == KindOf(o2) && BothReady(Now(), Alone(g1), e1.k, e2.k, x, y)
      requires Stable(e2.k, freereg) && Stacked(e1.k, e2.k, g1.base, nactvar, freereg) && Entry(code, |code|) && g1.base <= freereg
      requires e1.t == e1.f == NO_JUMP && (e1.k.VKInt? ==> freereg <= g1.base + 1) && Kept(s1, Now(), g1.start)
      modifies this
      ensures Ready(Now(), e, Alone(g1), Bin(Calc(op), x, y)) && Kept(s1, Now(), g1.start) && e.k.VReloc?
    {
      hide Both, Kept, Worth, Shape, BothReady, Stable, Stacked, Discharged;
      ghost var s2 := Now();
      var o1, e1' := PlaceFirst(e1, e2.k, Alone(g1), x, y);
      ghost var s3 := Now();
      PlacedKept(s1, s2, s3, g1, e1.k, e2.k, x, y);
      FreeOperands(e1', e2, o1, o2, g1.base);
      ghost var s4 := Now();
      FreeBothReady(s3, s4, Alone(g1), e1'.k, e2.k, x, y);
      ArithWorth(s4, Alone(g1), op, o1, o2, x, y);
      BothReadyList(s4, Alone(g1), KindOf(o1), KindOf(o2), x, y);
      var pc := Code(Arith(0, op, o1, o2));
      e := ExpDesc(VReloc(pc), NO_JUMP, NO_JUMP);
      KeptFreed(s1, s3, s4, Now(), g1.start);
    }

    // 'codecomp': '>' and '>=' exchange their operands, '~=' expects false.
    method CodeComp(c: CmpOp, positive: bool, e1: ExpDesc, e2: ExpDesc, ghost s1: Snap, ghost g1: Lists, ghost x: Expr,
        ghost g2: Lists, ghost y: Expr) returns (e: ExpDesc)
      requires Operands(s1, e1, g1, x, Now(), e2, g2, y) && !e1.k.VKInt?
      modifies this
      ensures Ready(Now(), e, Alone(g1), Bin(Comparison(c, positive), x, y)) && Kept(s1, Now(), g1.start) && e.k.VJmp?
    {
      hide Both, Kept, Worth, Shape, BothReady, Plain, Operands, Stable, Discharged, Stacked;
      ghost var s := Now();
      OperandsParts(s1, e1, g1, x, s, e2, g2, y);
      var o1 := if e1.k.VK? then K(e1.k.k) else R(e1.k.r);
      var o2, e2', g2' := Exp2RK(e2, g2, y);
      ghost var s2 := Now();
      SecondPlaced(s1, e1, g1, x, s, e2, g2, y, s2, e2', g2');
      SecondOnTop(s1, e1, g1, x, s, e2, g2, y, s2, e2', g2');
      FreeExp(e2');
      FreeExp(e1);
      ghost var s3 := Now();
      FreeBothReady(s2, s3, Alone(g1), e1.k, e2'.k, x, y);
      CompareWorth(s3, Alone(g1), c, positive, o1, o2, x, y);
      BothReadyList(s3, Alone(g1), KindOf(o1), KindOf(o2), x, y);
      CompareIsCmp(c, positive, o1, o2);
      var want := positive;
      if !want && c != Eq {
        o1, o2 := o2, o1;
        want := true;
      }
      var pc := CondJump(Cmp(c, want, o1, o2));
      e := ExpDesc(VJmp(pc), NO_JUMP, NO_JUMP);
      KeptFreed(s1, s2, s3, Now(), g1.start);
    }

    // 'codeexpval' for a unary operator.
    method CodeSign(u: UnOp, e0: ExpDesc, ghost g: Lists, ghost x: Expr) returns (e: ExpDesc, ghost g1: Lists)
      requires Ready(Now(), e0, g, x)
      modifies this
      ensures Ready(Now(), e, g1, Prefix(Sign(u), x)) && Kept(old(Now()), Now(), g.start)
      ensures g1.start == g.start && g1.base == g.base && !e.k.VK?
    {
      hide Kept, Worth, Discharged;
      ghost var s0 := Now();
      if IsNumeral(e0) {
        NumeralPlain(s0, e0, g, x);
        SignFolds(s0, e0, g, u, x);
        KeptRefl2(s0, e0, g, x);
        return e0.(k := VKInt(IntUnary(u, e0.k.i))), g;
      }
      e, g1 := Exp2AnyReg(e0, g, x);
      ghost var s1 := Now();
      WorthReg(s1, e, g1, x);
      FreeExp(e);
      ghost var s2 := Now();
      WorthFree(s1, s2, e, g1, x);
      SignWorth(s2, e, g1, u, x);
      LinkedOfWorth(s2, e, g1, x);
      var pc := Code(Unary(0, u, e.k.r));
      e := ExpDesc(VReloc(pc), NO_JUMP, NO_JUMP);
      KeptFreed(s0, s1, s2, Now(), g.start);
    }

    // ---- what the parser calls ----

    // 'luaK_prefix'.
    method PrefixExp(op: PrefixOp, e0: ExpDesc, ghost g: Lists, ghost x: Expr) returns (e: ExpDesc, ghost g1: Lists)
      requires Ready(Now(), e0, g, x) && !e0.k.VK?
      modifies this
      ensures Ready(Now(), e, g1, Prefix(op, x)) && Kept(old(Now()), Now(), g.start)
      ensures g1.start == g.start && g1.base == g.base && !e.k.VK?
    {
      hide Kept, Ready;
      match op
      case Sign(u) => e, g1 := CodeSign(u, e0, g, x);
      case NotOp => e, g1 := CodeNot(e0, g, x);
    }

    // 'luaK_infix': what happens between the operands.
    method Infix(op: BinOp, e0: ExpDesc, ghost g: Lists, ghost x: Expr) returns (e: ExpDesc, ghost g1: Lists)
      requires Ready(Now(), e0, g, x) && !e0.k.VK?
      modifies this
      ensures Kept(old(Now()), Now(), g.start) && g1.start == g.start && g1.base == g.base
      ensures match op
        case AndOp => Branching(Now(), e, g1, x, true) && freereg == g.base
        case OrOp => Branching(Now(), e, g1, x, false) && freereg == g.base
        case Calc(_) => Plain(Now(), e, g1, x) && OperandKind(e.k)
        case Comparison(_, _) => Plain(Now(), e, g1, x) && OperandKind(e.k) && !e.k.VKInt?
    {
      hide Kept, Ready, Branching, Worth;
      ghost var s0 := Now();
      match op
      case AndOp => e, g1 := GoIfTrue(e0, g, x);
      case OrOp => e, g1 := GoIfFalse(e0, g, x);
      case Calc(_) =>
        if IsNumeral(e0) {
          NumeralPlain(s0, e0, g, x);
          KeptRefl2(s0, e0, g, x);
          e, g1 := e0, g;
        } else {
          var o;
          o, e, g1 := Exp2RK(e0, g, x);
        }
      case Comparison(_, _) =>
        var o;
        o, e, g1 := Exp2RK(e0, g, x);
    }

    // The exits of the first operand of 'and' (want) or 'or' join those of the second one.
    method JoinExits(want: bool, e1: ExpDesc, e2: ExpDesc, ghost s1: Snap, ghost g1: Lists, ghost x: Expr, ghost g2: Lists, ghost y: Expr)
      returns (e: ExpDesc)
      requires Pending(s1, e1, g1, x, want, Now(), e2, g2, y)
      modifies `code
      ensures Ready(Now(), e, Both2(g1, g2, want), Bin(if want then AndOp else OrOp, x, y)) && Kept(s1, Now(), g1.start)
      ensures e.k == DischargeVars(e2).k
    {
      hide Pending, Kept, Worth, IsList;
      ghost var s := Now();
      PendingReady(s1, e1, g1, x, want, s, e2, g2, y);
      DischargeVarsWorth(s, e2, g2, y);
      var d := DischargeVars(e2);
      PendingDischarged(s1, e1, g1, x, want, s, e2, g2, y);
      PendingLists(s1, e1, g1, x, want, s, d, g2, y);
      PendingApart(s1, e1, g1, x, want, s, d, g2, y);
      LinkedParts(s, d, g2);
      if want {
        var f := Concat(d.f, e1.f, g2.f, g1.f);
        assert g2.f != [] ==> g2.f[|g2.f| - 1] in g2.f;
        PendingJoined(s1, e1, g1, x, want, s, d, g2, y, code, f);
        e := d.(f := f);
      } else {
        var t := Concat(d.t, e1.t, g2.t, g1.t);
        assert g2.t != [] ==> g2.t[|g2.t| - 1] in g2.t;
        PendingJoined(s1, e1, g1, x, want, s, d, g2, y, code, t);
        e := d.(t := t);
      }
    }
  }

  // Constants with a larger index are no operands.
  const MAXINDEXRK := 255
}
