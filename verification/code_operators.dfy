// Putting the code of operands together: 'and', 'or', 'not', arithmetic, comparisons, and closing all jumps.
module CodeOperators {
  import opened Integers
  import opened Bytecode
  import opened CodeRuns
  import opened Expressions
  import opened CodeSteps

  // ---- code after code ----

  // fr2 was generated right after fr1, whose pending jumps either still pend or go to the start of fr2.
  ghost predicate Follows(fr1: Frag, fr2: Frag) {
    && fr2.start == |fr1.code| <= |fr2.code| && fr1.ks <= fr2.ks && fr1.base <= fr2.base
    && ((fr2.code == fr1.code && fr2.here == fr1.here)
        || (fr2.code[..fr2.start] == Discharged(fr1.code, fr1.here) && forall j :: j in fr2.here ==> fr2.start <= j))
  }

  function Joined(fr1: Frag, fr2: Frag): Frag {
    Frag(fr2.code, fr2.ks, fr1.t + fr2.t, fr1.f + fr2.f, fr2.here, fr1.start, fr1.base)
  }

  lemma JoinedControl(fr1: Frag, fr2: Frag)
    requires Shape(fr1) && Shape(fr2) && Follows(fr1, fr2)
    ensures forall j :: j in fr1.t + fr1.f ==> SameControl(fr1, Joined(fr1, fr2), j) && j < fr2.start
    ensures forall j :: j in fr2.t + fr2.f ==> SameControl(fr2, Joined(fr1, fr2), j) && fr2.start <= j
  {
    SettledLike(fr1);
    JumpsInside(fr1);
    JumpsInside(fr2);
    hide Tidy, Exec, Run, Discharged;
    forall j | j in fr1.t + fr1.f ensures SameControl(fr1, Joined(fr1, fr2), j) {
      assert SameControl(fr1, Settled(fr1), j);
      assert j >= 1 && fr2.code != fr1.code ==> fr2.code[j - 1] == fr2.code[..fr2.start][j - 1];
    }
  }

  lemma JoinedRun(fr1: Frag, fr2: Frag, ks: seq<Value>, rs: Regs)
    requires Shape(fr1) && Shape(fr2) && Follows(fr1, fr2) && !Run(fr1, ks, rs).Stuck?
    ensures Run(Joined(fr1, fr2), ks, rs) == if Run(fr1, ks, rs).End? then Run(fr2, ks, Run(fr1, ks, rs).rs) else Run(fr1, ks, rs)
  {
    hide Tidy;
    var fr := Joined(fr1, fr2);
    JumpsInside(fr1);
    JumpsInside(fr2);
    if fr2.code == fr1.code && fr2.here == fr1.here {
      assert fr.t + fr.f == fr1.t + fr1.f;
    } else {
      DischargeRuns(fr1, ks, rs);
      var o := Run(fr1, ks, rs);
      AppendExec(Discharged(fr1.code, fr1.here), fr1.t + fr1.f, fr2.code, fr.t + fr.f, fr2.here, fr1.start, ks, rs, fr1.start);
      if o.End? {
        SameExec(fr2.code, fr2.t + fr2.f, fr2.here, fr2.code, fr.t + fr.f, fr2.here, ks, o.rs, fr2.start);
      }
    }
  }

  lemma DischargeRuns(fr: Frag, ks: seq<Value>, rs: Regs)
    requires Shape(fr)
    ensures Exec(Discharged(fr.code, fr.here), ks, fr.t + fr.f, {}, rs, fr.start) == Run(fr, ks, rs)
  {
    DischargeExec(fr.code, ks, fr.t + fr.f, fr.here, fr.start, rs, fr.start);
  }

  lemma JoinedShape(fr1: Frag, fr2: Frag)
    requires Shape(fr1) && Shape(fr2) && Follows(fr1, fr2)
    ensures Shape(Joined(fr1, fr2))
  {
    var fr := Joined(fr1, fr2);
    SettledShape(fr1);
    JumpsInside(fr1);
    JumpsInside(fr2);
    assert (fr.t + fr.f) !! fr.here;
    assert Entry(fr.code, fr.start) by {
      assert fr.start > 0 && fr2.code != fr1.code ==> fr2.code[fr.start - 1] == fr2.code[..fr2.start][fr.start - 1] || fr.start > fr2.start;
    }
    forall p: nat | fr.start <= p < |fr.code| ensures InstrOk(fr.code, fr.t + fr.f, fr.here, p) {
      JoinedInstrOk(fr1, fr2, p);
    }
  }

  lemma JoinedInstrOk(fr1: Frag, fr2: Frag, p: nat)
    requires Shape(fr1) && Shape(fr2) && Follows(fr1, fr2) && fr1.start <= p < |fr2.code|
    ensures var fr := Joined(fr1, fr2); InstrOk(fr.code, fr.t + fr.f, fr.here, p)
  {
    var fr, D := Joined(fr1, fr2), Settled(fr1);
    JumpsInside(fr1);
    JumpsInside(fr2);
    SettledShape(fr1);
    hide Discharged;
    if p >= fr2.start {
      InstrsOk(fr2.code, fr2.t + fr2.f, fr2.here, fr2.start, p);
    } else if fr2.code == fr1.code && fr2.here == fr1.here {
      InstrsOk(fr1.code, fr1.t + fr1.f, fr1.here, fr1.start, p);
    } else {
      InstrsOk(D.code, D.t + D.f, D.here, D.start, p);
      PrefixInstrOk(D, fr2, fr, p);
    }
  }

  lemma PrefixInstrOk(D: Frag, fr2: Frag, fr: Frag, p: nat)
    requires Shape(D) && p < |D.code| <= |fr.code| && fr.code[..|D.code|] == D.code && D.here == {} && D.start <= p
    requires forall j :: j < |D.code| ==> (j in fr.t + fr.f <==> j in D.t + D.f)
    requires forall j :: j in fr.here ==> |D.code| <= j
    ensures InstrOk(fr.code, fr.t + fr.f, fr.here, p)
  {
    InstrsOk(D.code, D.t + D.f, D.here, D.start, p);
    assert fr.code[p] == fr.code[..|D.code|][p];
    assert p + 1 < |D.code| ==> fr.code[p + 1] == fr.code[..|D.code|][p + 1];
    var i := D.code[p];
    var d := p + 1 + if i.Jmp? then i.s else 0;
    assert 1 <= d <= |D.code| ==> fr.code[d - 1] == fr.code[..|D.code|][d - 1];
  }

  // 'and' (want) and 'or' (!want): y is evaluated only where x did not decide.
  lemma ShortCircuit(fr1: Frag, fr2: Frag, want: bool, k: Kind, tail: seq<Instr>, x: Expr, y: Expr)
    requires Shape(fr1) && Shape(fr2) && Follows(fr1, fr2) && fr2.base == fr1.base && (if want then fr1.t else fr1.f) == {}
    requires TailOk(k, tail) && Branches(fr1, x, want) && Means(fr2, k, tail, y) && Scoped(y, fr1.base)
    ensures Means(Joined(fr1, fr2), k, tail, Bin(if want then AndOp else OrOp, x, y))
  {
    hide Shape, Run, TailOk, EndValue, Follows, TestSetAt;
    var fr, e := Joined(fr1, fr2), Bin(if want then AndOp else OrOp, x, y);
    JoinedControl(fr1, fr2);
    forall ks, rs | More(fr.ks, ks) ensures MeansAt(fr, k, tail, e, ks, rs) {
      FollowsMore(fr1, fr2);
      assert BranchesAt(fr1, x, want, ks, rs);
      JoinedRun(fr1, fr2, ks, rs);
      var o := Run(fr1, ks, rs);
      if o.End? {
        assert MeansAt(fr2, k, tail, y, ks, o.rs);
        EvalBelow(y, fr1.base, rs, o.rs);
        SecondRight(fr1, fr2, o.rs, Run(fr2, ks, o.rs), rs, Eval(y, rs));
      } else {
        FirstRight(fr1, fr2, o, rs, Eval(x, rs));
      }
    }
  }

  lemma FollowsMore(fr1: Frag, fr2: Frag)
    requires Follows(fr1, fr2)
    ensures fr1.ks <= fr2.ks
  {
  }

  lemma FirstRight(fr1: Frag, fr2: Frag, o: Outcome, rs: Regs, v: Res)
    requires Shape(fr1) && Shape(fr2) && Follows(fr1, fr2) && Right(fr1, o, rs, v)
    ensures Right(Joined(fr1, fr2), o, rs, v)
  {
    JoinedControl(fr1, fr2);
    hide Shape, Below, Follows;
    if o.Jump? { assert SameControl(fr1, Joined(fr1, fr2), o.j); }
  }

  lemma SecondRight(fr1: Frag, fr2: Frag, mid: Regs, o: Outcome, rs: Regs, v: Res)
    requires Shape(fr1) && Shape(fr2) && Follows(fr1, fr2) && Below(rs, mid, fr1.base) && Right(fr2, o, mid, v)
    ensures Right(Joined(fr1, fr2), o, rs, v)
  {
    JoinedControl(fr1, fr2);
    assert fr1.base <= fr2.base;
    hide Shape, Follows;
    if o.Jump? { assert SameControl(fr2, Joined(fr1, fr2), o.j); }
  }

  // ---- 'not' ----

  function Inverted(fr: Frag): Frag {
    fr.(code := Unvalued(fr.code, fr.t + fr.f), t := fr.f, f := fr.t)
  }

  // The descriptor k', tail' gives the negation of what k, tail gives.
  ghost predicate Negates(k: Kind, tail: seq<Instr>, k': Kind, tail': seq<Instr>, ks0: seq<Value>)
    requires TailOk(k, tail) && TailOk(k', tail')
  {
    forall ks, rs :: More(ks0, ks) ==> NegatesAt(EndValue(k, tail, ks, rs), EndValue(k', tail', ks, rs))
  }

  ghost predicate NegatesAt(v: Res, w: Res) {
    match v case Err => w == Err case Ok(x) => w == Ok(Bool(IsFalse(x)))
  }

  lemma InvertedShape(fr: Frag)
    requires Shape(fr)
    ensures Shape(Inverted(fr))
  {
    UnvaluedTidy(fr.code, fr.t + fr.f, fr.t + fr.f, fr.here, fr.start);
    assert fr.t + fr.f == fr.f + fr.t;
    if |fr.code| > 0 {
      var l := |fr.code| - 1;
      assert IsTest(fr.code[l]) || !IsTest(Inverted(fr).code[l]);
    }
  }

  lemma InvertedRun(fr: Frag, ks: seq<Value>, rs: Regs)
    requires Shape(fr)
    ensures Run(Inverted(fr), ks, rs) == Run(fr, ks, rs)
  {
    UnvaluedExec(fr.code, fr.t + fr.f, ks, fr.t + fr.f, fr.here, fr.start, rs, fr.start);
    assert fr.t + fr.f == fr.f + fr.t;
  }

  lemma InvertedMeans(fr: Frag, k: Kind, tail: seq<Instr>, k': Kind, tail': seq<Instr>, x: Expr)
    requires Shape(fr) && TailOk(k, tail) && TailOk(k', tail') && Means(fr, k, tail, x) && Negates(k, tail, k', tail', fr.ks)
    ensures Means(Inverted(fr), k', tail', Prefix(NotOp, x))
  {
    var fr' := Inverted(fr);
    JumpsInside(fr);
    assert forall j :: j in fr.t + fr.f ==> !TestSetAt(fr'.code, j);
    hide Shape, Run, TailOk, EndValue, Below, Unvalued;
    forall ks, rs | More(fr'.ks, ks) ensures MeansAt(fr', k', tail', Prefix(NotOp, x), ks, rs) {
      assert MeansAt(fr, k, tail, x, ks, rs);
      InvertedRun(fr, ks, rs);
      var o := Run(fr, ks, rs);
      if o.End? { assert NegatesAt(EndValue(k, tail, ks, o.rs), EndValue(k', tail', ks, o.rs)); }
    }
  }

  // ---- two operands ----

  // No jump leaves the code.
  ghost predicate Closed(fr: Frag) { fr.t == {} && fr.f == {} }

  ghost predicate BothAt(fr: Frag, k1: Kind, k2: Kind, x: Expr, y: Expr, ks: seq<Value>, rs: Regs)
    requires TailOk(k1, []) && TailOk(k2, [])
  {
    var o := Run(fr, ks, rs);
    if o.End? then
      Below(rs, o.rs, fr.base) && EndValue(k1, [], ks, o.rs) == Eval(x, rs) && EndValue(k2, [], ks, o.rs) == Eval(y, rs)
    else o.Error? && (Eval(x, rs).Err? || Eval(y, rs).Err?)
  }

  // At its end the code has the values of x and of y.
  ghost predicate Both(fr: Frag, k1: Kind, k2: Kind, x: Expr, y: Expr)
    requires TailOk(k1, []) && TailOk(k2, [])
  {
    forall ks, rs :: More(fr.ks, ks) ==> BothAt(fr, k1, k2, x, y, ks, rs)
  }

  // The value of the descriptor does not change while registers from n on are used.
  ghost predicate Stable(k: Kind, n: nat) {
    match k
    case VNonReloc(r) => r < n
    case VLocal(r) => r < n
    case VReloc(_) => false
    case VJmp(_) => false
    case _ => true
  }

  lemma StableValue(k: Kind, n: nat, ks: seq<Value>, rs: Regs, rs': Regs)
    requires Stable(k, n) && Below(rs, rs', n)
    ensures TailOk(k, []) && EndValue(k, [], ks, rs') == EndValue(k, [], ks, rs)
  {
  }

  // Without exits, a run ends with the value, or fails as evaluation does.
  lemma MeansEnds(fr: Frag, k: Kind, e: Expr, ks: seq<Value>, rs: Regs)
    requires TailOk(k, []) && MeansAt(fr, k, [], e, ks, rs) && Closed(fr)
    ensures var o := Run(fr, ks, rs);
      if o.End? then Below(rs, o.rs, fr.base) && EndValue(k, [], ks, o.rs) == Eval(e, rs) else o.Error? && Eval(e, rs).Err?
  {
    hide Run, TailOk, EndValue, Eval, Below, JumpValue;
  }

  lemma JoinedBase(fr1: Frag, fr2: Frag)
    ensures Joined(fr1, fr2).base == fr1.base
  {
  }

  lemma JoinedBoth(fr1: Frag, fr2: Frag, k1: Kind, k2: Kind, x: Expr, y: Expr)
    requires Shape(fr1) && Shape(fr2) && Follows(fr1, fr2) && Closed(fr1) && Closed(fr2)
    requires Stable(k1, fr2.base) && TailOk(k1, []) && TailOk(k2, []) && Scoped(y, fr1.base)
    requires Means(fr1, k1, [], x) && Means(fr2, k2, [], y)
    ensures Both(Joined(fr1, fr2), k1, k2, x, y)
  {
    hide Shape, Run, TailOk, EndValue, Follows, Eval, MeansAt, BothAt, Stable;
    var fr := Joined(fr1, fr2);
    FollowsMore(fr1, fr2);
    forall ks, rs | More(fr.ks, ks) ensures BothAt(fr, k1, k2, x, y, ks, rs) {
      if Run(fr1, ks, rs).End? { assert MeansAt(fr2, k2, [], y, ks, Run(fr1, ks, rs).rs); }
      JoinedBothAt(fr1, fr2, k1, k2, x, y, ks, rs);
    }
  }

  lemma JoinedBothAt(fr1: Frag, fr2: Frag, k1: Kind, k2: Kind, x: Expr, y: Expr, ks: seq<Value>, rs: Regs)
    requires Shape(fr1) && Shape(fr2) && Follows(fr1, fr2) && Closed(fr1) && Closed(fr2)
    requires Stable(k1, fr2.base) && TailOk(k1, []) && TailOk(k2, []) && Scoped(y, fr1.base) && MeansAt(fr1, k1, [], x, ks, rs)
    requires Run(fr1, ks, rs).End? ==> MeansAt(fr2, k2, [], y, ks, Run(fr1, ks, rs).rs)
    ensures BothAt(Joined(fr1, fr2), k1, k2, x, y, ks, rs)
  {
    hide Shape, Run, TailOk, EndValue, Follows, Eval, Below, Stable, MeansAt, Joined, Scoped, Closed, BothAt;
    MeansEnds(fr1, k1, x, ks, rs);
    JoinedRun(fr1, fr2, ks, rs);
    JoinedBase(fr1, fr2);
    var fr, o := Joined(fr1, fr2), Run(fr1, ks, rs);
    if o.End? {
      MeansEnds(fr2, k2, y, ks, o.rs);
      EvalBelow(y, fr1.base, rs, o.rs);
      var o2 := Run(fr2, ks, o.rs);
      if o2.End? {
        StableValue(k1, fr2.base, ks, o.rs, o2.rs);
        SecondBelow(fr1, fr2, rs, o.rs, o2.rs);
        BothAtEnd(fr, k1, k2, x, y, ks, rs, o2.rs);
      } else {
        BothAtError(fr, k1, k2, x, y, ks, rs);
      }
    } else {
      BothAtError(fr, k1, k2, x, y, ks, rs);
    }
  }

  lemma BothAtEnd(fr: Frag, k1: Kind, k2: Kind, x: Expr, y: Expr, ks: seq<Value>, rs: Regs, rs': Regs)
    requires TailOk(k1, []) && TailOk(k2, []) && Run(fr, ks, rs) == End(rs') && Below(rs, rs', fr.base)
    requires EndValue(k1, [], ks, rs') == Eval(x, rs) && EndValue(k2, [], ks, rs') == Eval(y, rs)
    ensures BothAt(fr, k1, k2, x, y, ks, rs)
  {
    hide Run, TailOk, EndValue, Eval, Below;
  }

  lemma BothAtError(fr: Frag, k1: Kind, k2: Kind, x: Expr, y: Expr, ks: seq<Value>, rs: Regs)
    requires TailOk(k1, []) && TailOk(k2, []) && Run(fr, ks, rs) == Error && (Eval(x, rs).Err? || Eval(y, rs).Err?)
    ensures BothAt(fr, k1, k2, x, y, ks, rs)
  {
    hide Run, TailOk, EndValue, Eval, Below;
  }

  lemma SecondBelow(fr1: Frag, fr2: Frag, rs: Regs, mid: Regs, rs': Regs)
    requires Follows(fr1, fr2) && Below(rs, mid, fr1.base) && Below(mid, rs', fr2.base)
    ensures Below(rs, rs', fr1.base)
  {
    assert fr1.base <= fr2.base;
  }

  // Loading a constant operand last.
  lemma BothReloaded(fr1: Frag, fr3: Frag, k1: Kind, k1': Kind, k2: Kind, c: Value, x: Expr, y: Expr)
    requires Shape(fr1) && Shape(fr3) && Follows(fr1, fr3) && Closed(fr1) && Closed(fr3)
    requires Stable(k2, fr3.base) && TailOk(k1, []) && TailOk(k1', []) && TailOk(k2, [])
    requires Both(fr1, k1, k2, x, y) && Means(fr3, k1', [], Const(c))
    requires forall ks, rs :: More(fr1.ks, ks) ==> EndValue(k1, [], ks, rs) == Ok(c)
    ensures Both(Joined(fr1, fr3), k1', k2, x, y)
  {
    hide Shape, Run, TailOk, EndValue, Follows, MeansAt, BothAt, Stable;
    var fr := Joined(fr1, fr3);
    FollowsMore(fr1, fr3);
    forall ks, rs | More(fr.ks, ks) ensures BothAt(fr, k1', k2, x, y, ks, rs) {
      if Run(fr1, ks, rs).End? {
        assert EndValue(k1, [], ks, Run(fr1, ks, rs).rs) == Ok(c);
        assert MeansAt(fr3, k1', [], Const(c), ks, Run(fr1, ks, rs).rs);
      }
      BothReloadedAt(fr1, fr3, k1, k1', k2, c, x, y, ks, rs);
    }
  }

  lemma BothReloadedAt(fr1: Frag, fr3: Frag, k1: Kind, k1': Kind, k2: Kind, c: Value, x: Expr, y: Expr, ks: seq<Value>, rs: Regs)
    requires Shape(fr1) && Shape(fr3) && Follows(fr1, fr3) && Closed(fr1) && Closed(fr3)
    requires Stable(k2, fr3.base) && TailOk(k1, []) && TailOk(k1', []) && TailOk(k2, []) && BothAt(fr1, k1, k2, x, y, ks, rs)
    requires Run(fr1, ks, rs).End? ==>
      EndValue(k1, [], ks, Run(fr1, ks, rs).rs) == Ok(c) && MeansAt(fr3, k1', [], Const(c), ks, Run(fr1, ks, rs).rs)
    ensures BothAt(Joined(fr1, fr3), k1', k2, x, y, ks, rs)
  {
    hide Shape, Run, TailOk, EndValue, Follows, Below, Stable, MeansAt, Joined, Closed;
    JoinedRun(fr1, fr3, ks, rs);
    JoinedBase(fr1, fr3);
    var fr, o := Joined(fr1, fr3), Run(fr1, ks, rs);
    if o.End? {
      MeansEnds(fr3, k1', Const(c), ks, o.rs);
      var o3 := Run(fr3, ks, o.rs);
      StableValue(k2, fr3.base, ks, o.rs, o3.rs);
      SecondBelow(fr1, fr3, rs, o.rs, o3.rs);
      BothAtEnd(fr, k1', k2, x, y, ks, rs, o3.rs);
    } else {
      BothAtError(fr, k1', k2, x, y, ks, rs);
    }
  }

  lemma BothSettled(fr: Frag, k1: Kind, k2: Kind, x: Expr, y: Expr)
    requires Shape(fr) && TailOk(k1, []) && TailOk(k2, []) && Both(fr, k1, k2, x, y)
    ensures Both(Settled(fr), k1, k2, x, y)
  {
    hide Shape, Run, TailOk, EndValue, BothAt, Discharged, SameControl;
    SettledLike(fr);
    forall ks, rs | More(fr.ks, ks) ensures BothAt(Settled(fr), k1, k2, x, y, ks, rs) {
      BothSettledAt(fr, k1, k2, x, y, ks, rs);
    }
  }

  lemma BothSettledAt(fr: Frag, k1: Kind, k2: Kind, x: Expr, y: Expr, ks: seq<Value>, rs: Regs)
    requires TailOk(k1, []) && TailOk(k2, []) && BothAt(fr, k1, k2, x, y, ks, rs) && LikeRun(fr, Settled(fr), ks, rs)
    ensures BothAt(Settled(fr), k1, k2, x, y, ks, rs)
  {
    hide Run, Eval, EndValue, TailOk;
  }

  // The operation that the descriptor stands for gives what the operator gives.
  ghost predicate Operates(k: Kind, tail: seq<Instr>, op: BinOp, k1: Kind, k2: Kind, ks0: seq<Value>)
    requires TailOk(k, tail) && TailOk(k1, []) && TailOk(k2, []) && (op.Calc? || op.Comparison?)
  {
    forall ks, rs :: More(ks0, ks) ==>
      OperatesAt(EndValue(k, tail, ks, rs), op, EndValue(k1, [], ks, rs), EndValue(k2, [], ks, rs))
  }

  ghost predicate OperatesAt(v: Res, op: BinOp, a: Res, b: Res)
    requires op.Calc? || op.Comparison?
  {
    a.Ok? && b.Ok? ==> v == BinRes(op, a.v, b.v)
  }

  lemma BothMeans(fr: Frag, k: Kind, tail: seq<Instr>, op: BinOp, k1: Kind, k2: Kind, x: Expr, y: Expr)
    requires TailOk(k, tail) && TailOk(k1, []) && TailOk(k2, []) && (op.Calc? || op.Comparison?) && Stable(k1, fr.base + 2) && Stable(k2, fr.base + 2)
    requires Both(fr, k1, k2, x, y) && Operates(k, tail, op, k1, k2, fr.ks)
    ensures Means(fr, k, tail, Bin(op, x, y))
  {
    hide Run, TailOk, Below, BinRes;
    forall ks, rs | More(fr.ks, ks) ensures MeansAt(fr, k, tail, Bin(op, x, y), ks, rs) {
      assert BothAt(fr, k1, k2, x, y, ks, rs);
      var o := Run(fr, ks, rs);
      if o.End? {
        assert OperatesAt(EndValue(k, tail, ks, o.rs), op, EndValue(k1, [], ks, o.rs), EndValue(k2, [], ks, o.rs));
      }
    }
  }

  // A sign applied to one operand.
  lemma UnaryMeans(fr: Frag, k: Kind, tail: seq<Instr>, u: UnOp, k1: Kind, x: Expr)
    requires TailOk(k, tail) && TailOk(k1, []) && Closed(fr) && Means(fr, k1, [], x)
    requires forall ks, rs :: More(fr.ks, ks) ==> UnaryAt(EndValue(k, tail, ks, rs), u, EndValue(k1, [], ks, rs))
    ensures Means(fr, k, tail, Prefix(Sign(u), x))
  {
    hide Run, TailOk, Below, UnaryRes, EndValue;
    forall ks, rs | More(fr.ks, ks) ensures MeansAt(fr, k, tail, Prefix(Sign(u), x), ks, rs) {
      assert MeansAt(fr, k1, [], x, ks, rs);
      var o := Run(fr, ks, rs);
      if o.End? { assert UnaryAt(EndValue(k, tail, ks, o.rs), u, EndValue(k1, [], ks, o.rs)); }
    }
  }

  ghost predicate UnaryAt(v: Res, u: UnOp, a: Res) {
    match a case Err => v == Err case Ok(w) => v == UnaryRes(u, w)
  }
}
