// What each step of the code generator does to the meaning of the code built so far.
module CodeSteps {
  import opened Bytecode
  import opened CodeRuns
  import opened Expressions

  // ---- the same meaning in other code ----

  ghost predicate LikeRun(fr: Frag, fr': Frag, ks: seq<Value>, rs: Regs) {
    Run(fr', ks, rs) == Run(fr, ks, rs)
  }

  ghost predicate SameControl(fr: Frag, fr': Frag, j: nat) {
    TestSetAt(fr'.code, j) == TestSetAt(fr.code, j) && (TestSetAt(fr.code, j) ==> fr'.code[j - 1].b == fr.code[j - 1].b)
  }

  // fr' runs as fr does, and its exit jumps have the same values.
  ghost predicate Like(fr: Frag, fr': Frag) {
    && fr'.t == fr.t && fr'.f == fr.f && fr'.base == fr.base && fr.ks <= fr'.ks
    && (forall j :: j in fr.t + fr.f ==> SameControl(fr, fr', j))
    && (forall ks, rs :: More(fr.ks, ks) ==> LikeRun(fr, fr', ks, rs))
  }

  lemma LikeMeans(fr: Frag, fr': Frag, k: Kind, tail: seq<Instr>, e: Expr)
    requires Like(fr, fr') && TailOk(k, tail) && Means(fr, k, tail, e)
    ensures Means(fr', k, tail, e)
  {
    hide Below, EndValue, Eval, Run, TailOk;
    forall ks, rs | More(fr'.ks, ks) ensures MeansAt(fr', k, tail, e, ks, rs) {
      assert More(fr.ks, ks) && LikeRun(fr, fr', ks, rs) && MeansAt(fr, k, tail, e, ks, rs);
      LikeRight(fr, fr', Run(fr, ks, rs), rs, Eval(e, rs));
    }
  }

  lemma LikeRight(fr: Frag, fr': Frag, o: Outcome, rs: Regs, v: Res)
    requires Like(fr, fr') && Right(fr, o, rs, v)
    ensures Right(fr', o, rs, v)
  {
    hide Below;
    if o.Jump? { assert SameControl(fr, fr', o.j); }
  }

  lemma LikeBranches(fr: Frag, fr': Frag, e: Expr, want: bool)
    requires Like(fr, fr') && Branches(fr, e, want)
    ensures Branches(fr', e, want)
  {
    hide Below, Eval, Run;
    forall ks, rs | More(fr'.ks, ks) ensures BranchesAt(fr', e, want, ks, rs) {
      assert More(fr.ks, ks) && LikeRun(fr, fr', ks, rs) && BranchesAt(fr, e, want, ks, rs);
      LikeRight(fr, fr', Run(fr, ks, rs), rs, Eval(e, rs));
    }
  }

  lemma LikeFills(fr: Frag, fr': Frag, reg: nat, e: Expr)
    requires Like(fr, fr') && Fills(fr, reg, e)
    ensures Fills(fr', reg, e)
  {
    hide Below, Eval, Run, BelowBut;
    forall ks, rs | More(fr'.ks, ks) ensures FillsAt(fr', reg, e, ks, rs) {
      assert More(fr.ks, ks) && LikeRun(fr, fr', ks, rs) && FillsAt(fr, reg, e, ks, rs);
      if !Run(fr, ks, rs).End? { LikeRight(fr, fr', Run(fr, ks, rs), rs, Eval(e, rs)); }
    }
  }

  // ---- pending jumps to the end are patched before the next instruction ----

  function Settled(fr: Frag): Frag {
    fr.(code := Discharged(fr.code, fr.here), here := {})
  }

  lemma SettledShape(fr: Frag)
    requires Shape(fr)
    ensures Shape(Settled(fr))
  {
    var code' := Discharged(fr.code, fr.here);
    if |fr.code| > fr.start {
      DischargedTidy(fr.code, fr.t + fr.f, fr.here, fr.start);
    }
    assert fr.t + fr.f == fr.f + fr.t;
    if |fr.code| > 0 {
      var l := |fr.code| - 1;
      assert IsTest(fr.code[l]) || !IsTest(code'[l]);
    }
  }

  lemma SettledLike(fr: Frag)
    requires Shape(fr)
    ensures Like(fr, Settled(fr))
  {
    hide Exec;
    var fr' := Settled(fr);
    forall j | j in fr.t + fr.f ensures SameControl(fr, fr', j) {
      InstrsOk(fr.code, fr.t + fr.f, fr.here, fr.start, j);
      if j >= 1 && j - 1 in fr.here && fr.start <= j - 1 { InstrsOk(fr.code, fr.t + fr.f, fr.here, fr.start, j - 1); }
    }
    forall ks, rs | More(fr.ks, ks) ensures LikeRun(fr, fr', ks, rs) {
      DischargeExec(fr.code, ks, fr.t + fr.f, fr.here, fr.start, rs, fr.start);
    }
  }

  // ---- one more instruction ----

  function With(fr: Frag, i: seq<Instr>): Frag {
    fr.(code := fr.code + i)
  }

  ghost function AfterOne(o: Outcome, i: Instr, ks: seq<Value>): Outcome
    requires Gives(i)
  {
    if !o.End? then o
    else match Compute(i, ks, o.rs) case Err => Error case Ok(v) => End(o.rs[i.a := v])
  }

  lemma WithOneRun(fr: Frag, i: Instr, ks: seq<Value>, rs: Regs)
    requires Shape(fr) && fr.here == {} && Gives(i) && !Run(fr, ks, rs).Stuck?
    ensures Run(With(fr, [i]), ks, rs) == AfterOne(Run(fr, ks, rs), i, ks)
  {
    var C := fr.code + [i];
    AppendExec(fr.code, fr.t + fr.f, C, fr.t + fr.f, {}, fr.start, ks, rs, fr.start);
    var o := Run(fr, ks, rs);
    if o.End? {
      assert C[|fr.code|] == i && !i.Jmp? && !IsTest(i);
      var v := Compute(i, ks, o.rs);
      if v.Ok? { assert Exec(C, ks, fr.t + fr.f, {}, o.rs[i.a := v.v], |fr.code| + 1) == End(o.rs[i.a := v.v]); }
    }
  }

  lemma WithOneShape(fr: Frag, i: Instr)
    requires Shape(fr) && fr.here == {} && !IsTest(i) && !i.Jmp? && !(i.LoadBool? && i.skip)
    ensures Shape(With(fr, [i]))
    ensures forall j :: j in fr.t + fr.f ==> SameControl(fr, With(fr, [i]), j)
  {
    var fr' := With(fr, [i]);
    forall p: nat | fr.start <= p < |fr'.code| ensures InstrOk(fr'.code, fr.t + fr.f, {}, p) {
      if p < |fr.code| { InstrsOk(fr.code, fr.t + fr.f, {}, fr.start, p); }
    }
    forall j | j in fr.t + fr.f ensures SameControl(fr, fr', j) { InstrsOk(fr.code, fr.t + fr.f, {}, fr.start, j); }
  }

  // The instruction computes what the descriptor says.
  ghost predicate Computes(i: Instr, k: Kind, tail: seq<Instr>, ks0: seq<Value>)
    requires Gives(i) && TailOk(k, tail)
  {
    forall ks, rs :: More(ks0, ks) ==> Compute(i, ks, rs) == EndValue(k, tail, ks, rs)
  }

  lemma InstrFills(fr: Frag, i: Instr, k: Kind, tail: seq<Instr>, e: Expr)
    requires Shape(fr) && fr.here == {} && Gives(i) && TailOk(k, tail) && Means(fr, k, tail, e) && Computes(i, k, tail, fr.ks)
    ensures Fills(With(fr, [i]), i.a, e)
  {
    hide Eval, Run, EndValue, Compute, Shape, TailOk;
    var fr' := With(fr, [i]);
    WithOneShape(fr, i);
    forall ks, rs | More(fr.ks, ks) ensures FillsAt(fr', i.a, e, ks, rs) {
      assert MeansAt(fr, k, tail, e, ks, rs);
      var o := Run(fr, ks, rs);
      WithOneRun(fr, i, ks, rs);
      if o.End? {
        assert Compute(i, ks, o.rs) == EndValue(k, tail, ks, o.rs);
        assert forall r: nat :: r < fr.base ==> Get(o.rs, r) == Get(rs, r);
      } else if o.Jump? {
        assert SameControl(fr, fr', o.j);
      }
    }
  }

  // The value is in its register already.
  lemma HeldFills(fr: Frag, reg: nat, e: Expr)
    requires Means(fr, VNonReloc(reg), [], e)
    ensures Fills(fr, reg, e)
  {
    hide Eval, Run, Right;
    forall ks, rs | More(fr.ks, ks) ensures FillsAt(fr, reg, e, ks, rs) {
      assert MeansAt(fr, VNonReloc(reg), [], e, ks, rs);
      assert Run(fr, ks, rs).End? ==> Below(rs, Run(fr, ks, rs).rs, fr.base) by {
        EndBelow(fr, Run(fr, ks, rs), rs, Eval(e, rs));
      }
    }
  }

  lemma EndBelow(fr: Frag, o: Outcome, rs: Regs, v: Res)
    requires Right(fr, o, rs, v)
    ensures o.End? ==> Below(rs, o.rs, fr.base)
  {
  }

  lemma FillsMeans(fr: Frag, reg: nat, e: Expr)
    requires Fills(fr, reg, e) && reg >= fr.base
    ensures Means(fr, VNonReloc(reg), [], e)
  {
    hide Eval, Run;
    forall ks, rs | More(fr.ks, ks) ensures MeansAt(fr, VNonReloc(reg), [], e, ks, rs) {
      assert FillsAt(fr, reg, e, ks, rs);
    }
  }

  // ---- a test and its jump ----

  // The code with a test and its jump, which leaves when the value is not as wanted.
  function WithTest(fr: Frag, test: Instr, want: bool): Frag {
    var fr' := With(fr, [test, Jmp(NO_JUMP)]);
    if want then fr'.(f := fr.f + {|fr.code| + 1}) else fr'.(t := fr.t + {|fr.code| + 1})
  }

  ghost function AfterTest(o: Outcome, test: Instr, ks: seq<Value>, j: nat): Outcome
    requires IsTest(test)
  {
    if !o.End? then o
    else match Taken(test, ks, o.rs)
      case Err => Error
      case Ok(v) => if v == Bool(true) then Jump(j, o.rs) else o
  }

  lemma WithTestRun(fr: Frag, test: Instr, want: bool, ks: seq<Value>, rs: Regs)
    requires Shape(fr) && fr.here == {} && IsTest(test) && (test.TestSet? ==> test.t == NO_REG) && !Run(fr, ks, rs).Stuck?
    ensures Run(WithTest(fr, test, want), ks, rs) == AfterTest(Run(fr, ks, rs), test, ks, |fr.code| + 1)
  {
    var fr' := WithTest(fr, test, want);
    AppendExec(fr.code, fr.t + fr.f, fr'.code, fr'.t + fr'.f, {}, fr.start, ks, rs, fr.start);
    var o := Run(fr, ks, rs);
    if o.End? {
      assert fr'.code[|fr.code|] == test && fr'.code[|fr.code| + 1].Jmp?;
      assert Landed(test, o.rs) == o.rs;
      assert Exec(fr'.code, ks, fr'.t + fr'.f, {}, o.rs, |fr.code| + 1) == Jump(|fr.code| + 1, o.rs);
      assert Exec(fr'.code, ks, fr'.t + fr'.f, {}, o.rs, |fr.code| + 2) == End(o.rs);
    }
  }

  lemma WithTestShape(fr: Frag, test: Instr, want: bool)
    requires Shape(fr) && fr.here == {} && IsTest(test) && (test.TestSet? ==> test.t == NO_REG)
    ensures Shape(WithTest(fr, test, want))
    ensures forall j :: j in fr.t + fr.f ==> SameControl(fr, WithTest(fr, test, want), j)
  {
    var fr' := WithTest(fr, test, want);
    forall p: nat | fr.start <= p < |fr'.code| ensures InstrOk(fr'.code, fr'.t + fr'.f, {}, p) {
      if p < |fr.code| { InstrsOk(fr.code, fr.t + fr.f, {}, fr.start, p); }
    }
    forall j | j in fr.t + fr.f ensures SameControl(fr, fr', j) { InstrsOk(fr.code, fr.t + fr.f, {}, fr.start, j); }
  }

  // The test jumps when the value is not as wanted, and the jump then carries the value.
  ghost predicate TestsAt(test: Instr, want: bool, v: Res, ks: seq<Value>, rs: Regs)
    requires IsTest(test)
  {
    match v
    case Err => Taken(test, ks, rs) == Err
    case Ok(w) =>
      && Taken(test, ks, rs) == Ok(Bool(IsFalse(w) == want))
      && (IsFalse(w) == want ==> if test.TestSet? then Get(rs, test.b) == w else w == Bool(!want))
  }

  ghost predicate Tests(test: Instr, want: bool, k: Kind, tail: seq<Instr>, ks0: seq<Value>)
    requires IsTest(test) && TailOk(k, tail)
  {
    forall ks, rs :: More(ks0, ks) ==> TestsAt(test, want, EndValue(k, tail, ks, rs), ks, rs)
  }

  lemma TestBranches(fr: Frag, test: Instr, want: bool, k: Kind, tail: seq<Instr>, e: Expr)
    requires Shape(fr) && fr.here == {} && IsTest(test) && (test.TestSet? ==> test.t == NO_REG)
    requires TailOk(k, tail) && Means(fr, k, tail, e) && Tests(test, want, k, tail, fr.ks)
    ensures Branches(WithTest(fr, test, want), e, want)
  {
    hide Eval, Run, EndValue, Taken, Shape, TailOk, Below;
    var fr' := WithTest(fr, test, want);
    WithTestShape(fr, test, want);
    JumpsInside(fr);
    forall ks, rs | More(fr.ks, ks) ensures BranchesAt(fr', e, want, ks, rs) {
      assert MeansAt(fr, k, tail, e, ks, rs);
      var o := Run(fr, ks, rs);
      WithTestRun(fr, test, want, ks, rs);
      if o.End? {
        assert TestsAt(test, want, EndValue(k, tail, ks, o.rs), ks, o.rs);
        assert fr'.code[|fr.code|] == test;
      } else if o.Jump? {
        assert SameControl(fr, fr', o.j);
      }
    }
  }

  lemma JumpsInside(fr: Frag)
    requires Shape(fr)
    ensures forall j :: j in fr.t + fr.f ==> fr.start <= j < |fr.code|
    ensures fr.t !! fr.f && (fr.t + fr.f) !! fr.here
  {
  }

  // A constant needs no test.
  lemma ConstantBranches(fr: Frag, want: bool, k: Kind, e: Expr)
    requires TailOk(k, []) && Means(fr, k, [], e)
    requires forall ks, rs :: More(fr.ks, ks) ==> EndValue(k, [], ks, rs).Ok? && IsFalse(EndValue(k, [], ks, rs).v) == !want
    ensures Branches(fr, e, want)
  {
    hide Eval, Run, EndValue, Below;
    forall ks, rs | More(fr.ks, ks) ensures BranchesAt(fr, e, want, ks, rs) {
      assert MeansAt(fr, k, [], e, ks, rs);
    }
  }

  // ---- jumps that go to the end ----

  // 'luaK_patchtohere' on the list of true (or false) exits.
  function ToHere(fr: Frag, truth: bool): Frag {
    if truth then fr.(t := {}, here := fr.here + fr.t) else fr.(f := {}, here := fr.here + fr.f)
  }

  lemma {:induction false} ToHereExec(code: seq<Instr>, ks: seq<Value>, open: set<nat>, here: set<nat>, P: set<nat>, start: nat, rs: Regs, pc: nat)
    requires P <= open && Tidy(code, open, here, start) && start <= pc
    ensures var o := Exec(code, ks, open, here, rs, pc);
      Exec(code, ks, open - P, here + P, rs, pc) == if o.Jump? && o.j in P then End(o.rs) else o
    decreases |code| - pc
  {
    if pc < |code| {
      var i := code[pc];
      assert InstrOk(code, open, here, pc);
      if i.Jmp? {
        if pc !in open && pc !in here { ToHereExec(code, ks, open, here, P, start, rs, pc + 1 + i.s); }
      } else if IsTest(i) {
        var t := Taken(i, ks, rs);
        if t == Ok(Bool(true)) {
          ToHereExec(code, ks, open, here, P, start, Landed(i, rs), pc + 1);
        } else if t.Ok? {
          ToHereExec(code, ks, open, here, P, start, rs, pc + 2);
        }
      } else if i.LoadBool? && i.skip {
        ToHereExec(code, ks, open, here, P, start, rs[i.a := Bool(i.v)], pc + 2);
      } else {
        var v := Compute(i, ks, rs);
        if v.Ok? { ToHereExec(code, ks, open, here, P, start, rs[i.a := v.v], pc + 1); }
      }
    }
  }

  lemma ToHereShape(fr: Frag, truth: bool)
    requires Shape(fr)
    ensures Shape(ToHere(fr, truth))
  {
    var fr' := ToHere(fr, truth);
    forall p: nat | fr.start <= p < |fr.code| ensures InstrOk(fr'.code, fr'.t + fr'.f, fr'.here, p) {
      InstrsOk(fr.code, fr.t + fr.f, fr.here, fr.start, p);
    }
  }

  lemma ToHereRun(fr: Frag, truth: bool, ks: seq<Value>, rs: Regs)
    requires Shape(fr)
    ensures var o := Run(fr, ks, rs);
      Run(ToHere(fr, truth), ks, rs) == if o.Jump? && o.j in (if truth then fr.t else fr.f) then End(o.rs) else o
  {
    var P := if truth then fr.t else fr.f;
    ToHereExec(fr.code, ks, fr.t + fr.f, fr.here, P, fr.start, rs, fr.start);
    assert ToHere(fr, truth).t + ToHere(fr, truth).f == fr.t + fr.f - P;
  }

  // Exits with the wanted truth value may as well go to the end.
  lemma ToHereBranches(fr: Frag, e: Expr, want: bool)
    requires Shape(fr) && Branches(fr, e, want)
    ensures Branches(ToHere(fr, want), e, want)
  {
    hide Eval, Run, Shape, Below;
    var fr' := ToHere(fr, want);
    JumpsInside(fr);
    forall ks, rs | More(fr.ks, ks) ensures BranchesAt(fr', e, want, ks, rs) {
      assert BranchesAt(fr, e, want, ks, rs);
      ToHereRun(fr, want, ks, rs);
    }
  }
}
