// How runs of code change when instructions are appended and jumps are patched.
module CodeRuns {
  import opened Bytecode

  // The test that controls the jump at j, as 'getjumpcontrol' finds it, is OP_TESTSET.
  predicate TestSetAt(code: seq<Instr>, j: int) {
    1 <= j <= |code| && code[j - 1].TestSet?
  }

  // p is no jump of a test: code may be entered there.
  predicate Entry(code: seq<Instr>, p: int) {
    !(1 <= p <= |code| && IsTest(code[p - 1]))
  }

  // A test comes right before its jump, and jumps that are not open go forward to an entry.
  ghost predicate InstrOk(code: seq<Instr>, open: set<nat>, here: set<nat>, p: nat)
    requires p < |code|
  {
    var i := code[p];
    && (IsTest(i) ==> p + 1 < |code| && code[p + 1].Jmp?)
    && (i.TestSet? && (p + 1 in open || p + 1 in here) ==> i.t == NO_REG)
    && (p in open || p in here ==> i.Jmp?)
    && (i.Jmp? && p !in open && p !in here ==> i.s >= 0 && p + 1 + i.s <= |code| && Entry(code, p + 1 + i.s))
    && (i.LoadBool? && i.skip ==> p + 1 < |code| && !IsTest(code[p + 1]))
  }

  ghost predicate Tidy(code: seq<Instr>, open: set<nat>, here: set<nat>, start: nat) {
    && start <= |code| && Entry(code, start) && open !! here
    && (forall j :: j in open ==> start <= j < |code|)
    && (forall p: nat :: start <= p < |code| ==> InstrOk(code, open, here, p))
  }

  // ---- what a run does not depend on ----

  ghost predicate SameAt(code: seq<Instr>, open: set<nat>, here: set<nat>, code': seq<Instr>, open': set<nat>, here': set<nat>, p: nat)
    requires p < |code| == |code'|
  {
    && (p in open <==> p in open') && (p in here <==> p in here')
    && (code[p] == code'[p] || ((p in open || p in here) && code[p].Jmp? && code'[p].Jmp?))
  }

  // Where an open jump is linked makes no difference.
  lemma {:induction false} SameExec(code: seq<Instr>, open: set<nat>, here: set<nat>, code': seq<Instr>, open': set<nat>, here': set<nat>,
      ks: seq<Value>, rs: Regs, pc: nat)
    requires |code| == |code'| && forall p: nat :: pc <= p < |code| ==> SameAt(code, open, here, code', open', here', p)
    ensures Exec(code', ks, open', here', rs, pc) == Exec(code, ks, open, here, rs, pc)
    decreases |code| - pc
  {
    if pc < |code| {
      assert SameAt(code, open, here, code', open', here', pc);
      var i := code[pc];
      if i.Jmp? {
        if pc !in open && pc !in here && i.s >= 0 { SameExec(code, open, here, code', open', here', ks, rs, pc + 1 + i.s); }
      } else if IsTest(i) {
        if Taken(i, ks, rs) == Ok(Bool(true)) {
          SameExec(code, open, here, code', open', here', ks, Landed(i, rs), pc + 1);
        } else {
          SameExec(code, open, here, code', open', here', ks, rs, pc + 2);
        }
      } else if i.LoadBool? && i.skip {
        SameExec(code, open, here, code', open', here', ks, rs[i.a := Bool(i.v)], pc + 2);
      } else {
        var v := Compute(i, ks, rs);
        if v.Ok? { SameExec(code, open, here, code', open', here', ks, rs[i.a := v.v], pc + 1); }
      }
    }
  }

  // ---- appended code ----

  // C is B with more code, and the open jumps of B are those of C.
  ghost predicate Appended(B: seq<Instr>, openB: set<nat>, C: seq<Instr>, openC: set<nat>, hereC: set<nat>, start: nat) {
    && |B| <= |C| && C[..|B|] == B
    && forall p: nat :: start <= p < |B| ==> (p in openB <==> p in openC) && p !in hereC
  }

  // What follows a run of B in C.
  ghost function Then(o: Outcome, C: seq<Instr>, ks: seq<Value>, openC: set<nat>, hereC: set<nat>, n: nat): Outcome {
    if o.End? then Exec(C, ks, openC, hereC, o.rs, n) else o
  }

  lemma {:induction false} AppendExec(B: seq<Instr>, openB: set<nat>, C: seq<Instr>, openC: set<nat>, hereC: set<nat>, start: nat,
      ks: seq<Value>, rs: Regs, pc: nat)
    requires Appended(B, openB, C, openC, hereC, start) && start <= pc
    requires !Exec(B, ks, openB, {}, rs, pc).Stuck?
    ensures Exec(C, ks, openC, hereC, rs, pc) == Then(Exec(B, ks, openB, {}, rs, pc), C, ks, openC, hereC, |B|)
    decreases |B| - pc
  {
    if pc < |B| {
      var i := B[pc];
      assert C[pc] == C[..|B|][pc];
      if i.Jmp? {
        if pc !in openB { AppendExec(B, openB, C, openC, hereC, start, ks, rs, pc + 1 + i.s); }
      } else if IsTest(i) {
        var t := Taken(i, ks, rs);
        if t == Ok(Bool(true)) {
          AppendExec(B, openB, C, openC, hereC, start, ks, Landed(i, rs), pc + 1);
        } else if t.Ok? {
          AppendExec(B, openB, C, openC, hereC, start, ks, rs, pc + 2);
        }
      } else if i.LoadBool? && i.skip {
        AppendExec(B, openB, C, openC, hereC, start, ks, rs[i.a := Bool(i.v)], pc + 2);
      } else {
        var v := Compute(i, ks, rs);
        if v.Ok? { AppendExec(B, openB, C, openC, hereC, start, ks, rs[i.a := v.v], pc + 1); }
      }
    }
  }

  // ---- patched jumps ----

  // 'patchtestreg' on a control instruction.
  function PatchControl(i: Instr, reg: int): Instr {
    if !i.TestSet? then i
    else if reg != NO_REG && reg != i.b then i.(t := reg)
    else Test(i.b, i.c)
  }

  // 'patchlistaux': jumps of OP_TESTSET go to vt and the others to dt.
  function Patched(code: seq<Instr>, P: set<nat>, reg: int, vt: int, dt: int): (r: seq<Instr>)
    ensures |r| == |code|
  {
    seq(|code|, p requires 0 <= p < |code| =>
      if p in P then Jmp((if TestSetAt(code, p) then vt else dt) - (p + 1))
      else if p + 1 in P then PatchControl(code[p], reg)
      else code[p])
  }

  // 'removevalues'.
  function Unvalued(code: seq<Instr>, P: set<nat>): (r: seq<Instr>)
    ensures |r| == |code|
  {
    seq(|code|, p requires 0 <= p < |code| => if p + 1 in P then PatchControl(code[p], NO_REG) else code[p])
  }

  // The registers after a patched OP_TESTSET jumped.
  function Stored(i: Instr, reg: int, rs: Regs): Regs {
    if i.TestSet? && reg >= 0 && reg != i.b then rs[reg := Get(rs, i.b)] else rs
  }

  // Jumps of P go forward to entries.
  ghost predicate Reach(code: seq<Instr>, P: set<nat>, vt: int, dt: int) {
    forall p :: p in P ==> p < |code| && ReachFrom(code, p, if TestSetAt(code, p) then vt else dt)
  }

  ghost predicate ReachFrom(code: seq<Instr>, p: nat, d: int) { p < d <= |code| && Entry(code, d) }

  // A run of patched code goes on where a run of the code stops at a jump of P.
  ghost function Continued(o: Outcome, code: seq<Instr>, P: set<nat>, reg: int, vt: int, dt: int,
      ks: seq<Value>, open: set<nat>, here: set<nat>): Outcome
    requires Reach(code, P, vt, dt)
  {
    if o.Jump? && o.j in P then
      var code' := Patched(code, P, reg, vt, dt);
      if TestSetAt(code, o.j) then Exec(code', ks, open - P, here, Stored(code[o.j - 1], reg, o.rs), vt)
      else Exec(code', ks, open - P, here, o.rs, dt)
    else o
  }

  lemma InstrsOk(code: seq<Instr>, open: set<nat>, here: set<nat>, start: nat, p: nat)
    requires Tidy(code, open, here, start) && start <= p < |code|
    ensures InstrOk(code, open, here, p) && (p + 1 < |code| ==> InstrOk(code, open, here, p + 1)) && open !! here
  {
  }

  // A patched instruction: a jump of P has its target, a test decides as before.
  lemma PatchedAt(code: seq<Instr>, P: set<nat>, reg: int, vt: int, dt: int, p: nat)
    requires p < |code| && reg >= NO_REG && (p in P ==> code[p].Jmp?) && (p + 1 in P && code[p].TestSet? ==> code[p].t == NO_REG)
    ensures var i, i' := code[p], Patched(code, P, reg, vt, dt)[p];
      && (p in P ==> i' == Jmp((if TestSetAt(code, p) then vt else dt) - (p + 1)))
      && (!(p + 1 in P && i.TestSet?) && p !in P ==> i' == i)
      && (IsTest(i') == IsTest(i) && i'.Jmp? == i.Jmp?)
      && (IsTest(i) ==> forall ks, rs :: Taken(i', ks, rs) == Taken(i, ks, rs))
      && (p + 1 in P && IsTest(i) ==> forall rs :: Landed(i', rs) == Stored(i, reg, rs) && Landed(i, rs) == rs)
  {
  }

  lemma {:induction false} PatchExec(code: seq<Instr>, P: set<nat>, reg: int, vt: int, dt: int,
      ks: seq<Value>, open: set<nat>, here: set<nat>, start: nat, rs: Regs, pc: nat)
    requires Tidy(code, open, here, start) && start <= pc && Entry(code, pc) && P <= open && Reach(code, P, vt, dt) && reg >= NO_REG
    ensures Exec(Patched(code, P, reg, vt, dt), ks, open - P, here, rs, pc)
      == Continued(Exec(code, ks, open, here, rs, pc), code, P, reg, vt, dt, ks, open, here)
    decreases |code| - pc
  {
    hide Tidy, Patched, Stored, Landed, Taken, Compute;
    var code' := Patched(code, P, reg, vt, dt);
    if pc < |code| {
      var i := code[pc];
      InstrsOk(code, open, here, start, pc);
      PatchedAt(code, P, reg, vt, dt, pc);
      if i.Jmp? {
        if pc !in open && pc !in here { PatchExec(code, P, reg, vt, dt, ks, open, here, start, rs, pc + 1 + i.s); }
      } else if IsTest(i) {
        var t := Taken(i, ks, rs);
        if t == Ok(Bool(true)) {
          PatchJump(code, P, reg, vt, dt, ks, open, here, start, rs, pc);
          var j := code[pc + 1];
          if pc + 1 !in open && pc + 1 !in here {
            PatchExec(code, P, reg, vt, dt, ks, open, here, start, Landed(i, rs), pc + 2 + j.s);
          }
        } else if t.Ok? {
          PatchExec(code, P, reg, vt, dt, ks, open, here, start, rs, pc + 2);
        }
      } else if i.LoadBool? && i.skip {
        PatchExec(code, P, reg, vt, dt, ks, open, here, start, rs[i.a := Bool(i.v)], pc + 2);
      } else {
        var v := Compute(i, ks, rs);
        if v.Ok? { PatchExec(code, P, reg, vt, dt, ks, open, here, start, rs[i.a := v.v], pc + 1); }
      }
    }
  }

  // What the jump after a test does, patched or not.
  lemma PatchJump(code: seq<Instr>, P: set<nat>, reg: int, vt: int, dt: int,
      ks: seq<Value>, open: set<nat>, here: set<nat>, start: nat, rs: Regs, pc: nat)
    requires Tidy(code, open, here, start) && start <= pc < |code| && IsTest(code[pc]) && P <= open && Reach(code, P, vt, dt) && reg >= NO_REG
    ensures pc + 1 < |code| && code[pc + 1].Jmp?
    ensures var code', i := Patched(code, P, reg, vt, dt), code[pc];
      var o, o' := Exec(code, ks, open, here, Landed(i, rs), pc + 1), Exec(code', ks, open - P, here, Landed(code'[pc], rs), pc + 1);
      if pc + 1 in P then o == Jump(pc + 1, rs) && o' == Continued(o, code, P, reg, vt, dt, ks, open, here)
      else if pc + 1 in open || pc + 1 in here then o' == o && (o.Jump? ==> o.j !in P)
      else
        && code[pc + 1].s >= 0 && pc + 2 + code[pc + 1].s <= |code| && Entry(code, pc + 2 + code[pc + 1].s)
        && o == Exec(code, ks, open, here, Landed(i, rs), pc + 2 + code[pc + 1].s)
        && o' == Exec(code', ks, open - P, here, Landed(i, rs), pc + 2 + code[pc + 1].s)
  {
    hide Tidy, Patched, Stored, Landed, Taken, Compute;
    InstrsOk(code, open, here, start, pc);
    PatchedAt(code, P, reg, vt, dt, pc);
    PatchedAt(code, P, reg, vt, dt, pc + 1);
  }

  // An OP_TESTSET that never stores does what OP_TEST does.
  lemma {:induction false} UnvaluedExec(code: seq<Instr>, P: set<nat>, ks: seq<Value>, open: set<nat>, here: set<nat>, start: nat, rs: Regs, pc: nat)
    requires Tidy(code, open, here, start) && start <= pc && P <= open
    ensures Exec(Unvalued(code, P), ks, open, here, rs, pc) == Exec(code, ks, open, here, rs, pc)
    decreases |code| - pc
  {
    if pc < |code| {
      var i := code[pc];
      assert InstrOk(code, open, here, pc);
      if i.Jmp? {
        if pc !in open && pc !in here { UnvaluedExec(code, P, ks, open, here, start, rs, pc + 1 + i.s); }
      } else if IsTest(i) {
        var t := Taken(i, ks, rs);
        assert Taken(Unvalued(code, P)[pc], ks, rs) == t;
        if t == Ok(Bool(true)) {
          UnvaluedExec(code, P, ks, open, here, start, Landed(i, rs), pc + 1);
        } else if t.Ok? {
          UnvaluedExec(code, P, ks, open, here, start, rs, pc + 2);
        }
      } else if i.LoadBool? && i.skip {
        UnvaluedExec(code, P, ks, open, here, start, rs[i.a := Bool(i.v)], pc + 2);
      } else {
        var v := Compute(i, ks, rs);
        if v.Ok? { UnvaluedExec(code, P, ks, open, here, start, rs[i.a := v.v], pc + 1); }
      }
    }
  }

  // 'dischargejpc': the pending jumps to the end of the code now go there.
  function Discharged(code: seq<Instr>, here: set<nat>): (r: seq<Instr>)
    ensures |r| == |code|
  {
    Patched(code, here, NO_REG, |code|, |code|)
  }

  lemma {:induction false} DischargeExec(code: seq<Instr>, ks: seq<Value>, open: set<nat>, here: set<nat>, start: nat, rs: Regs, pc: nat)
    requires Tidy(code, open, here, start) && start <= pc
    ensures Exec(Discharged(code, here), ks, open, {}, rs, pc) == Exec(code, ks, open, here, rs, pc)
    decreases |code| - pc
  {
    hide Tidy, Patched, Compute, Taken;
    if pc < |code| {
      var i := code[pc];
      InstrsOk(code, open, here, start, pc);
      PatchedAt(code, here, NO_REG, |code|, |code|, pc);
      if i.Jmp? {
        if pc !in open && pc !in here { DischargeExec(code, ks, open, here, start, rs, pc + 1 + i.s); }
      } else if IsTest(i) {
        var t := Taken(i, ks, rs);
        if t == Ok(Bool(true)) {
          DischargeExec(code, ks, open, here, start, Landed(i, rs), pc + 1);
        } else if t.Ok? {
          DischargeExec(code, ks, open, here, start, rs, pc + 2);
        }
      } else if i.LoadBool? && i.skip {
        DischargeExec(code, ks, open, here, start, rs[i.a := Bool(i.v)], pc + 2);
      } else {
        var v := Compute(i, ks, rs);
        if v.Ok? { DischargeExec(code, ks, open, here, start, rs[i.a := v.v], pc + 1); }
      }
    }
  }

  // ---- tidiness ----

  lemma PatchedEntries(code: seq<Instr>, P: set<nat>, reg: int, vt: int, dt: int)
    requires forall p :: p in P ==> p < |code| && code[p].Jmp?
    ensures forall q :: Entry(Patched(code, P, reg, vt, dt), q) <==> Entry(code, q)
  {
    var code' := Patched(code, P, reg, vt, dt);
    assert forall p :: 0 <= p < |code| ==> IsTest(code'[p]) == IsTest(code[p]);
  }

  lemma PatchedTidy(code: seq<Instr>, P: set<nat>, reg: int, vt: int, dt: int, open: set<nat>, here: set<nat>, start: nat)
    requires Tidy(code, open, here, start) && P <= open && Reach(code, P, vt, dt) && reg >= NO_REG
    ensures Tidy(Patched(code, P, reg, vt, dt), open - P, here, start)
  {
    var code' := Patched(code, P, reg, vt, dt);
    forall p | p in P ensures code[p].Jmp? { InstrsOk(code, open, here, start, p); }
    PatchedEntries(code, P, reg, vt, dt);
    forall p: nat | start <= p < |code'| ensures InstrOk(code', open - P, here, p) {
      PatchedInstrOk(code, P, reg, vt, dt, open, here, start, p);
    }
  }

  lemma PatchedInstrOk(code: seq<Instr>, P: set<nat>, reg: int, vt: int, dt: int, open: set<nat>, here: set<nat>, start: nat, p: nat)
    requires Tidy(code, open, here, start) && P <= open && Reach(code, P, vt, dt) && reg >= NO_REG && start <= p < |code|
    requires forall q :: Entry(Patched(code, P, reg, vt, dt), q) <==> Entry(code, q)
    ensures InstrOk(Patched(code, P, reg, vt, dt), open - P, here, p)
  {
    hide Tidy, Patched, Entry, Taken, Landed, Stored;
    InstrsOk(code, open, here, start, p);
    PatchedAt(code, P, reg, vt, dt, p);
    if p + 1 < |code| { PatchedAt(code, P, reg, vt, dt, p + 1); }
  }

  lemma UnvaluedTidy(code: seq<Instr>, P: set<nat>, open: set<nat>, here: set<nat>, start: nat)
    requires Tidy(code, open, here, start) && P <= open
    ensures Tidy(Unvalued(code, P), open, here, start)
  {
    var code' := Unvalued(code, P);
    assert forall q :: Entry(code, q) <==> Entry(code', q) by {
      assert forall p :: 0 <= p < |code| ==> IsTest(code'[p]) == IsTest(code[p]);
    }
    forall p: nat | start <= p < |code'| ensures InstrOk(code', open, here, p) {
      assert InstrOk(code, open, here, p);
      if p + 1 < |code| { assert InstrOk(code, open, here, p + 1); }
    }
  }

  // Pending jumps are open jumps, too.
  lemma MergedTidy(code: seq<Instr>, open: set<nat>, here: set<nat>, start: nat)
    requires Tidy(code, open, here, start) && forall j :: j in here ==> start <= j < |code|
    ensures Tidy(code, open + here, {}, start)
  {
    forall p: nat | start <= p < |code| ensures InstrOk(code, open + here, {}, p) { InstrsOk(code, open, here, start, p); }
  }

  lemma DischargedTidy(code: seq<Instr>, open: set<nat>, here: set<nat>, start: nat)
    requires Tidy(code, open, here, start) && (forall j :: j in here ==> start <= j < |code|) && Entry(code, |code|)
    ensures Tidy(Discharged(code, here), open, {}, start)
  {
    MergedTidy(code, open, here, start);
    InstrsOkAll(code, open, here, start);
    hide Tidy, Patched;
    PatchedTidy(code, here, NO_REG, |code|, |code|, open + here, {}, start);
    assert open + here - here == open;
  }

  lemma InstrsOkAll(code: seq<Instr>, open: set<nat>, here: set<nat>, start: nat)
    requires Tidy(code, open, here, start)
    ensures open !! here
  {
  }
}
