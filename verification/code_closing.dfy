// 'exp2reg': every exit jump is patched so that the value ends up in one register.
module CodeClosing {
  import opened Bytecode
  import opened CodeRuns
  import opened Expressions
  import opened CodeSteps
  import opened CodeOperators

  // ---- links of open jumps ----

  // The same code, but for where its open and pending jumps are linked.
  ghost predicate Relinked(fr: Frag, code': seq<Instr>) {
    |code'| == |fr.code| && forall p: nat :: p < |code'| ==>
      code'[p] == fr.code[p] || ((p in fr.t + fr.f || p in fr.here) && code'[p].Jmp? && fr.code[p].Jmp?)
  }

  lemma RelinkedLike(fr: Frag, code': seq<Instr>)
    requires Shape(fr) && Relinked(fr, code')
    ensures Like(fr, fr.(code := code')) && Shape(fr.(code := code'))
  {
    var fr' := fr.(code := code');
    assert forall p: nat :: p < |code'| ==> IsTest(code'[p]) == IsTest(fr.code[p]);
    assert forall q :: Entry(code', q) <==> Entry(fr.code, q);
    forall p: nat | fr.start <= p < |code'| ensures InstrOk(code', fr.t + fr.f, fr.here, p) {
      InstrsOk(fr.code, fr.t + fr.f, fr.here, fr.start, p);
    }
    forall ks, rs | More(fr.ks, ks) ensures LikeRun(fr, fr', ks, rs) {
      SameExec(fr.code, fr.t + fr.f, fr.here, code', fr.t + fr.f, fr.here, ks, rs, fr.start);
    }
  }

  // ---- the two loads of booleans ----

  function Loads(reg: nat): seq<Instr> { [LoadBool(reg, false, true), LoadBool(reg, true, false)] }

  // The code ends with the loads.
  ghost predicate EndsWithLoads(code: seq<Instr>, reg: nat) {
    |code| >= 2 && code[|code| - 2..] == Loads(reg)
  }

  // Entered at a load, the code puts the boolean into the register.
  lemma LoadsRun(code: seq<Instr>, ks: seq<Value>, open: set<nat>, here: set<nat>, reg: nat, rs: Regs, b: bool)
    requires EndsWithLoads(code, reg)
    ensures Exec(code, ks, open, here, rs, if b then |code| - 1 else |code| - 2) == End(rs[reg := Bool(b)])
  {
    assert code[|code| - 2] == code[|code| - 2..][0] && code[|code| - 1] == code[|code| - 2..][1];
    assert Exec(code, ks, open, here, rs[reg := Bool(b)], |code|) == End(rs[reg := Bool(b)]);
  }

  // After a comparison without a value, the loads follow: false is loaded where its jump is not taken.
  function JumpLoaded(fr: Frag, test: Instr, reg: nat): Frag {
    var fr' := WithTest(fr, test, false);
    fr'.(code := fr'.code + Loads(reg))
  }

  lemma JumpLoadedShape(fr: Frag, test: Instr, reg: nat)
    requires Shape(fr) && fr.here == {} && test.Cmp?
    ensures Shape(JumpLoaded(fr, test, reg))
    ensures forall j :: j in fr.t + fr.f ==> SameControl(fr, JumpLoaded(fr, test, reg), j)
    ensures !TestSetAt(JumpLoaded(fr, test, reg).code, |fr.code| + 1)
  {
    WithTestShape(fr, test, false);
    var fr1, fr2 := WithTest(fr, test, false), JumpLoaded(fr, test, reg);
    forall p: nat | fr2.start <= p < |fr2.code| ensures InstrOk(fr2.code, fr2.t + fr2.f, {}, p) {
      if p < |fr1.code| { InstrsOk(fr1.code, fr1.t + fr1.f, {}, fr1.start, p); }
    }
    JumpsInside(fr);
    hide Shape;
    forall j | j in fr.t + fr.f ensures SameControl(fr, fr2, j) { assert SameControl(fr, fr1, j); }
  }

  lemma JumpLoadedRun(fr: Frag, test: Instr, reg: nat, ks: seq<Value>, rs: Regs)
    requires Shape(fr) && fr.here == {} && test.Cmp? && !Run(fr, ks, rs).Stuck?
    ensures var o := AfterTest(Run(fr, ks, rs), test, ks, |fr.code| + 1);
      Run(JumpLoaded(fr, test, reg), ks, rs) == if o.End? then End(o.rs[reg := Bool(false)]) else o
  {
    var fr1, fr2 := WithTest(fr, test, false), JumpLoaded(fr, test, reg);
    WithTestShape(fr, test, false);
    WithTestRun(fr, test, false, ks, rs);
    AppendExec(fr1.code, fr1.t + fr1.f, fr2.code, fr2.t + fr2.f, {}, fr.start, ks, rs, fr.start);
    var o := Run(fr1, ks, rs);
    assert EndsWithLoads(fr2.code, reg);
    if o.End? { LoadsRun(fr2.code, ks, fr2.t + fr2.f, {}, reg, o.rs, false); }
  }

  lemma JumpLoadedFills(fr: Frag, k: Kind, tail: seq<Instr>, reg: nat, e: Expr)
    requires Shape(fr) && fr.here == {} && k.VJmp? && TailOk(k, tail) && Means(fr, k, tail, e)
    ensures Fills(JumpLoaded(fr, tail[0], reg), reg, e)
  {
    hide Shape, Run, JumpValue, MeansAt, FillsAt, TestSetAt;
    var fr' := JumpLoaded(fr, tail[0], reg);
    JumpLoadedShape(fr, tail[0], reg);
    JumpsInside(fr);
    forall ks, rs | More(fr'.ks, ks) ensures FillsAt(fr', reg, e, ks, rs) {
      assert MeansAt(fr, k, tail, e, ks, rs);
      JumpLoadedFillsAt(fr, k, tail, reg, e, ks, rs);
    }
  }

  lemma JumpLoadedFillsAt(fr: Frag, k: Kind, tail: seq<Instr>, reg: nat, e: Expr, ks: seq<Value>, rs: Regs)
    requires Shape(fr) && fr.here == {} && k.VJmp? && TailOk(k, tail) && MeansAt(fr, k, tail, e, ks, rs)
    ensures FillsAt(JumpLoaded(fr, tail[0], reg), reg, e, ks, rs)
  {
    var fr', o := JumpLoaded(fr, tail[0], reg), Run(fr, ks, rs);
    JumpLoadedShape(fr, tail[0], reg);
    JumpLoadedRun(fr, tail[0], reg, ks, rs);
    JumpsInside(fr);
    hide Shape, Run, Eval, TestSetAt, Exec;
    if o.Jump? {
      assert SameControl(fr, fr', o.j);
      LoadedJump(fr, fr', o, rs, Eval(e, rs));
    } else if o.End? {
      assert Taken(tail[0], ks, o.rs) == Eval(e, rs);
    }
  }

  lemma LoadedJump(fr: Frag, fr': Frag, o: Outcome, rs: Regs, v: Res)
    requires o.Jump? && Right(fr, o, rs, v) && SameControl(fr, fr', o.j) && fr'.base == fr.base
    requires (o.j in fr'.t <==> o.j in fr.t) && (o.j in fr'.f <==> o.j in fr.f)
    ensures Right(fr', o, rs, v)
  {
    hide Below;
  }

  // After a value in its register, a jump over the loads; pending jumps go where it goes.
  function HeldLoaded(fr: Frag, s: int, reg: nat): Frag {
    fr.(code := fr.code + [Jmp(s)] + Loads(reg), here := fr.here + {|fr.code|})
  }

  lemma {:induction false} HoldExec(B: seq<Instr>, hereB: set<nat>, C: seq<Instr>, hereC: set<nat>, open: set<nat>, start: nat,
      ks: seq<Value>, rs: Regs, pc: nat)
    requires |B| <= |C| && C[..|B|] == B && start <= pc
    requires forall p: nat :: start <= p < |B| ==> (p in hereB <==> p in hereC)
    requires forall r :: Exec(C, ks, open, hereC, r, |B|) == End(r)
    requires !Exec(B, ks, open, hereB, rs, pc).Stuck?
    ensures Exec(C, ks, open, hereC, rs, pc) == Exec(B, ks, open, hereB, rs, pc)
    decreases |B| - pc
  {
    if pc < |B| {
      var i := B[pc];
      assert C[pc] == C[..|B|][pc];
      if i.Jmp? {
        if pc !in open && pc !in hereB { HoldExec(B, hereB, C, hereC, open, start, ks, rs, pc + 1 + i.s); }
      } else if IsTest(i) {
        var t := Taken(i, ks, rs);
        if t == Ok(Bool(true)) {
          HoldExec(B, hereB, C, hereC, open, start, ks, Landed(i, rs), pc + 1);
        } else if t.Ok? {
          HoldExec(B, hereB, C, hereC, open, start, ks, rs, pc + 2);
        }
      } else if i.LoadBool? && i.skip {
        HoldExec(B, hereB, C, hereC, open, start, ks, rs[i.a := Bool(i.v)], pc + 2);
      } else {
        var v := Compute(i, ks, rs);
        if v.Ok? { HoldExec(B, hereB, C, hereC, open, start, ks, rs[i.a := v.v], pc + 1); }
      }
    }
  }

  lemma HeldLoadedShape(fr: Frag, s: int, reg: nat)
    requires Shape(fr) && (forall j :: j in fr.here ==> fr.start <= j)
    ensures Shape(HeldLoaded(fr, s, reg))
    ensures forall j :: j in fr.t + fr.f ==> SameControl(fr, HeldLoaded(fr, s, reg), j)
  {
    var fr' := HeldLoaded(fr, s, reg);
    forall p: nat | fr.start <= p < |fr'.code| ensures InstrOk(fr'.code, fr'.t + fr'.f, fr'.here, p) {
      if p < |fr.code| { InstrsOk(fr.code, fr.t + fr.f, fr.here, fr.start, p); }
    }
    forall j | j in fr.t + fr.f ensures SameControl(fr, fr', j) { InstrsOk(fr.code, fr.t + fr.f, fr.here, fr.start, j); }
  }

  lemma HeldLoadedFills(fr: Frag, s: int, reg: nat, e: Expr)
    requires Shape(fr) && (forall j :: j in fr.here ==> fr.start <= j) && Fills(fr, reg, e)
    ensures Fills(HeldLoaded(fr, s, reg), reg, e)
  {
    var fr' := HeldLoaded(fr, s, reg);
    HeldLoadedShape(fr, s, reg);
    JumpsInside(fr);
    hide Shape, Eval, Below, BelowBut, Right, SameControl;
    forall ks, rs | More(fr.ks, ks) && !Run(fr, ks, rs).Stuck? ensures LikeRun(fr, fr', ks, rs) {
      assert fr'.code[|fr.code|] == Jmp(s);
      HoldExec(fr.code, fr.here, fr'.code, fr'.here, fr.t + fr.f, fr.start, ks, rs, fr.start);
    }
    FillsCarried(fr, fr', reg, e);
  }

  lemma FillsCarried(fr: Frag, fr': Frag, reg: nat, e: Expr)
    requires Fills(fr, reg, e) && fr'.t == fr.t && fr'.f == fr.f && fr'.base == fr.base && fr'.ks == fr.ks
    requires forall j :: j in fr.t + fr.f ==> SameControl(fr, fr', j)
    requires forall ks, rs :: More(fr.ks, ks) && !Run(fr, ks, rs).Stuck? ==> LikeRun(fr, fr', ks, rs)
    ensures Fills(fr', reg, e)
  {
    hide Run, Eval, Below, BelowBut;
    forall ks, rs | More(fr'.ks, ks) ensures FillsAt(fr', reg, e, ks, rs) {
      assert FillsAt(fr, reg, e, ks, rs);
      assert LikeRun(fr, fr', ks, rs);
      var o := Run(fr, ks, rs);
      if o.Jump? { LoadedJump(fr, fr', o, rs, Eval(e, rs)); }
    }
  }

  // ---- patching the exits ----

  function PatchedExits(fr: Frag, truth: bool, reg: nat, dt: int): Frag {
    var P := if truth then fr.t else fr.f;
    var code' := Patched(fr.code, P, reg, |fr.code|, dt);
    if truth then fr.(code := code', t := {}) else fr.(code := code', f := {})
  }

  // The exits either all have their value in a register, or the loads are there, and dt is the right one.
  ghost predicate CanPatch(fr: Frag, truth: bool, reg: nat, dt: int) {
    var P := if truth then fr.t else fr.f;
    || (forall j :: j in P ==> TestSetAt(fr.code, j))
    || (EndsWithLoads(fr.code, reg) && dt == (if truth then |fr.code| - 1 else |fr.code| - 2) && forall j :: j in P ==> j < |fr.code| - 2)
  }

  lemma LoadsEntries(fr: Frag, reg: nat)
    requires Shape(fr) && EndsWithLoads(fr.code, reg) && fr.start <= |fr.code| - 3
    ensures Entry(fr.code, |fr.code| - 2) && Entry(fr.code, |fr.code| - 1)
  {
    var n := |fr.code|;
    assert fr.code[n - 2] == fr.code[n - 2..][0];
    InstrsOk(fr.code, fr.t + fr.f, fr.here, fr.start, n - 3);
  }

  lemma EndIsEntry(fr: Frag)
    requires Shape(fr)
    ensures Entry(fr.code, |fr.code|)
  {
  }

  lemma CanReach(fr: Frag, truth: bool, reg: nat, dt: int)
    requires Shape(fr) && CanPatch(fr, truth, reg, dt)
    ensures Reach(fr.code, if truth then fr.t else fr.f, |fr.code|, dt)
  {
    hide Shape, Entry, EndsWithLoads, TestSetAt;
    JumpsInside(fr);
    EndIsEntry(fr);
    var P := if truth then fr.t else fr.f;
    forall p | p in P ensures p < |fr.code| && ReachFrom(fr.code, p, if TestSetAt(fr.code, p) then |fr.code| else dt) {
      if !TestSetAt(fr.code, p) { LoadsEntries(fr, reg); }
    }
  }

  lemma PatchedExitsShape(fr: Frag, truth: bool, reg: nat, dt: int)
    requires Shape(fr) && CanPatch(fr, truth, reg, dt)
    ensures Shape(PatchedExits(fr, truth, reg, dt))
  {
    var P, fr' := if truth then fr.t else fr.f, PatchedExits(fr, truth, reg, dt);
    CanReach(fr, truth, reg, dt);
    JumpsInside(fr);
    PatchedTidy(fr.code, P, reg, |fr.code|, dt, fr.t + fr.f, fr.here, fr.start);
    assert fr.t + fr.f - P == fr'.t + fr'.f;
    forall p | p in P ensures fr.code[p].Jmp? { InstrsOk(fr.code, fr.t + fr.f, fr.here, fr.start, p); }
    PatchedEntries(fr.code, P, reg, |fr.code|, dt);
  }

  // Exits of the other truth value keep their control, and loads at the end stay.
  lemma PatchedExitsKeeps(fr: Frag, truth: bool, reg: nat, dt: int)
    requires Shape(fr) && CanPatch(fr, truth, reg, dt)
    ensures forall j :: j in (if truth then fr.f else fr.t) ==> SameControl(fr, PatchedExits(fr, truth, reg, dt), j)
    ensures EndsWithLoads(fr.code, reg) && (forall j :: j in fr.t + fr.f ==> j < |fr.code| - 2)
      ==> EndsWithLoads(PatchedExits(fr, truth, reg, dt).code, reg)
  {
    var P, Q := if truth then fr.t else fr.f, if truth then fr.f else fr.t;
    JumpsInside(fr);
    forall j | j in Q ensures SameControl(fr, PatchedExits(fr, truth, reg, dt), j) {
      InstrsOk(fr.code, fr.t + fr.f, fr.here, fr.start, j);
      if j >= 1 && j - 1 in P { InstrsOk(fr.code, fr.t + fr.f, fr.here, fr.start, j - 1); }
      PatchedControl(fr.code, P, reg, |fr.code|, dt, j);
    }
    if EndsWithLoads(fr.code, reg) && (forall j :: j in fr.t + fr.f ==> j < |fr.code| - 2) {
      hide Shape, Patched;
      LoadsStay(fr.code, P, reg, dt);
    }
  }

  lemma PatchedControl(code: seq<Instr>, P: set<nat>, reg: int, vt: int, dt: int, j: nat)
    requires j < |code| && j !in P && (j >= 1 && j - 1 in P ==> code[j - 1].Jmp?)
    ensures var code' := Patched(code, P, reg, vt, dt);
      TestSetAt(code', j) == TestSetAt(code, j) && (TestSetAt(code, j) ==> code'[j - 1].b == code[j - 1].b)
  {
    if j >= 1 { UnpatchedAt(code, P, reg, vt, dt, j - 1); }
    hide Patched;
  }

  lemma UnpatchedAt(code: seq<Instr>, P: set<nat>, reg: int, vt: int, dt: int, p: nat)
    requires p + 1 < |code| && p + 1 !in P
    ensures if p in P then Patched(code, P, reg, vt, dt)[p].Jmp? else Patched(code, P, reg, vt, dt)[p] == code[p]
  {
  }

  lemma PatchedExitsRun(fr: Frag, truth: bool, reg: nat, dt: int, ks: seq<Value>, rs: Regs)
    requires Shape(fr) && CanPatch(fr, truth, reg, dt)
    ensures var o, o' := Run(fr, ks, rs), Run(PatchedExits(fr, truth, reg, dt), ks, rs);
      if o.Jump? && o.j in (if truth then fr.t else fr.f) then
        o' == End(if TestSetAt(fr.code, o.j) then Stored(fr.code[o.j - 1], reg, o.rs) else o.rs[reg := Bool(truth)])
      else o' == o
  {
    hide Shape, Patched, TestSetAt, Stored;
    var P, fr', n := if truth then fr.t else fr.f, PatchedExits(fr, truth, reg, dt), |fr.code|;
    CanReach(fr, truth, reg, dt);
    PatchedExitsContinue(fr, truth, reg, dt, ks, rs);
    var o := Run(fr, ks, rs);
    if o.Jump? && o.j in P && !TestSetAt(fr.code, o.j) {
      LoadsStay(fr.code, P, reg, dt);
      LoadsRun(fr'.code, ks, fr.t + fr.f - P, fr'.here, reg, o.rs, truth);
    }
  }

  lemma PatchedExitsContinue(fr: Frag, truth: bool, reg: nat, dt: int, ks: seq<Value>, rs: Regs)
    requires Shape(fr)
    requires var P := if truth then fr.t else fr.f; Reach(fr.code, P, |fr.code|, dt)
    ensures var P := if truth then fr.t else fr.f;
      Run(PatchedExits(fr, truth, reg, dt), ks, rs)
        == Continued(Run(fr, ks, rs), fr.code, P, reg, |fr.code|, dt, ks, fr.t + fr.f, fr.here)
  {
    hide Exec, Patched, Reach;
    var P, fr' := if truth then fr.t else fr.f, PatchedExits(fr, truth, reg, dt);
    assert fr.t + fr.f - P == fr'.t + fr'.f;
    PatchExec(fr.code, P, reg, |fr.code|, dt, ks, fr.t + fr.f, fr.here, fr.start, rs, fr.start);
  }

  lemma LoadsStay(code: seq<Instr>, P: set<nat>, reg: nat, dt: int)
    requires EndsWithLoads(code, reg) && forall j :: j in P ==> j < |code| - 2
    ensures EndsWithLoads(Patched(code, P, reg, |code|, dt), reg)
  {
    var n, code' := |code|, Patched(code, P, reg, |code|, dt);
    assert code'[n - 2] == code[n - 2] == code[n - 2..][0];
    assert code'[n - 1] == code[n - 1] == code[n - 2..][1];
    assert code'[n - 2..] == Loads(reg);
  }

  lemma PatchedExitsFills(fr: Frag, truth: bool, reg: nat, dt: int, e: Expr)
    requires Shape(fr) && CanPatch(fr, truth, reg, dt) && Fills(fr, reg, e)
    ensures Fills(PatchedExits(fr, truth, reg, dt), reg, e)
  {
    var fr' := PatchedExits(fr, truth, reg, dt);
    PatchedExitsKeeps(fr, truth, reg, dt);
    JumpsInside(fr);
    hide Shape, Run, FillsAt, Patched, CanPatch, SameControl;
    forall ks, rs | More(fr'.ks, ks) ensures FillsAt(fr', reg, e, ks, rs) {
      assert FillsAt(fr, reg, e, ks, rs);
      PatchedExitsRun(fr, truth, reg, dt, ks, rs);
      PatchedFillsAt(fr, fr', truth, reg, e, ks, rs);
    }
  }

  lemma PatchedFillsAt(fr: Frag, fr': Frag, truth: bool, reg: nat, e: Expr, ks: seq<Value>, rs: Regs)
    requires FillsAt(fr, reg, e, ks, rs) && fr'.base == fr.base && fr.t !! fr.f
    requires if truth then fr'.t == {} && fr'.f == fr.f else fr'.f == {} && fr'.t == fr.t
    requires forall j :: j in (if truth then fr.f else fr.t) ==> SameControl(fr, fr', j)
    requires var o, o' := Run(fr, ks, rs), Run(fr', ks, rs);
      if o.Jump? && o.j in (if truth then fr.t else fr.f) then
        o' == End(if TestSetAt(fr.code, o.j) then Stored(fr.code[o.j - 1], reg, o.rs) else o.rs[reg := Bool(truth)])
      else o' == o
    ensures FillsAt(fr', reg, e, ks, rs)
  {
    hide Run, Eval;
    var o := Run(fr, ks, rs);
    if o.Jump? && o.j !in (if truth then fr.t else fr.f) {
      LoadedJump(fr, fr', o, rs, Eval(e, rs));
    }
  }
}
