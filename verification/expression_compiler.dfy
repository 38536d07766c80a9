// From an expression to a value: the calls 'subexpr' makes, and the code they leave, run by the virtual machine.
module ExpressionCompiler {
  import opened Integers
  import opened Bytecode
  import opened CodeRuns
  import opened Expressions
  import opened CodeSteps
  import opened CodeClosing
  import opened JumpLists
  import opened CodeState
  import opened CodeOperands
  import opened CodeGen

  // A state in which code for an expression can begin.
  ghost predicate CanBegin(s: Snap) {
    IsList(s.code, s.jpc, s.here) && Entry(s.code, |s.code|) && s.nactvar <= s.freereg
  }

  // The descriptor of a leaf: 'init_exp' as 'simpleexp' and 'singlevar' call it.
  function Leaf(x: Expr): ExpDesc
    requires x.Const? || x.Local?
  {
    var k := match x
      case Local(r) => VLocal(r)
      case Const(v) => (match v case Nil => VNil case Bool(b) => (if b then VTrue else VFalse) case Int(i) => VKInt(i));
    ExpDesc(k, NO_JUMP, NO_JUMP)
  }

  lemma WorthBegins(s: Snap, e: ExpDesc, g: Lists, x: Expr)
    requires Plain(s, e, g, x) && OperandKind(e.k)
    ensures CanBegin(s) && s.freereg == Top(e.k, g.base, s.nactvar) && g.start <= |s.code|
  {
    PlainFacts(s, e, g, x);
    EndIsEntry(Whole(s, g));
  }

  lemma BranchingBegins(s: Snap, e: ExpDesc, g: Lists, x: Expr, want: bool)
    requires Branching(s, e, g, x, want) && s.freereg == g.base
    ensures CanBegin(s) && g.start <= |s.code|
  {
    EndIsEntry(Whole(s, g));
    StartsAtEntry(Whole(s, g));
    assert Whole(s, g).start <= |Whole(s, g).code|;
  }

  // The code generator calls of 'subexpr' for one expression.
  method Expression(fs: FuncState, x: Expr) returns (e: ExpDesc, ghost g: Lists)
    requires CanBegin(fs.Now()) && Scoped(x, fs.nactvar)
    modifies fs
    ensures Ready(fs.Now(), e, g, x) && Kept(old(fs.Now()), fs.Now(), g.start)
    ensures g.start == |old(fs.code)| && g.base == old(fs.freereg) && !e.k.VK?
    decreases x, 0
  {
    hide Worth, Kept, Branching, Both2;
    ghost var s0 := fs.Now();
    match x {
      case Const(_) =>
        e, g := Leaf(x), Lists([], [], |fs.code|, fs.freereg);
        LeafReady(s0, e, g, x);
        KeptRefl2(s0, e, g, x);
      case Local(_) =>
        e, g := Leaf(x), Lists([], [], |fs.code|, fs.freereg);
        LeafReady(s0, e, g, x);
        KeptRefl2(s0, e, g, x);
      case Paren(y) =>
        e, g := Expression(fs, y);
        DischargeVarsWorth(fs.Now(), e, g, y);
        e := DischargeVars(e);
        ParenReady(fs.Now(), e, g, y);
      case Prefix(op, y) =>
        e, g := Expression(fs, y);
        ghost var s1 := fs.Now();
        e, g := fs.PrefixExp(op, e, g, y);
        KeptTrans(s0, s1, fs.Now(), g.start);
      case Bin(op, y, z) =>
        e, g := Expression(fs, y);
        ghost var s1 := fs.Now();
        e, g := fs.Infix(op, e, g, y);
        KeptTrans(s0, s1, fs.Now(), g.start);
        e, g := Second(fs, op, e, g, y, z, s0);
    }
  }

  // The second operand, and 'luaK_posfix'.
  method Second(fs: FuncState, op: BinOp, e1: ExpDesc, ghost g1: Lists, ghost y: Expr, z: Expr, ghost s0: Snap) returns (e: ExpDesc, ghost g: Lists)
    requires Kept(s0, fs.Now(), g1.start) && Scoped(z, fs.nactvar)
    requires match op
      case AndOp => Branching(fs.Now(), e1, g1, y, true) && fs.freereg == g1.base
      case OrOp => Branching(fs.Now(), e1, g1, y, false) && fs.freereg == g1.base
      case Calc(_) => Plain(fs.Now(), e1, g1, y) && OperandKind(e1.k)
      case Comparison(_, _) => Plain(fs.Now(), e1, g1, y) && OperandKind(e1.k) && !e1.k.VKInt?
    modifies fs
    ensures Ready(fs.Now(), e, g, Bin(op, y, z)) && Kept(s0, fs.Now(), g1.start) && g.start == g1.start && g.base == g1.base && !e.k.VK?
    decreases z, 1
  {
    hide Worth, Kept, Branching, Plain;
    ghost var s1 := fs.Now();
    match op {
      case AndOp =>
        BranchingBegins(s1, e1, g1, y, true);
        var e2, g2 := Expression(fs, z);
        e := fs.JoinExits(true, e1, e2, s1, g1, y, g2, z);
        g := Both2(g1, g2, true);
      case OrOp =>
        BranchingBegins(s1, e1, g1, y, false);
        var e2, g2 := Expression(fs, z);
        e := fs.JoinExits(false, e1, e2, s1, g1, y, g2, z);
        g := Both2(g1, g2, false);
      case Calc(a) =>
        WorthBegins(s1, e1, g1, y);
        var e2, g2 := Expression(fs, z);
        e := fs.CodeExpVal(a, e1, e2, s1, g1, y, g2, z);
        g := Alone(g1);
      case Comparison(c, positive) =>
        WorthBegins(s1, e1, g1, y);
        var e2, g2 := Expression(fs, z);
        e := fs.CodeComp(c, positive, e1, e2, s1, g1, y, g2, z);
        g := Alone(g1);
    }
    KeptTrans(s0, s1, fs.Now(), g1.start);
  }

  lemma ParenReady(s: Snap, e: ExpDesc, g: Lists, x: Expr)
    requires Ready(s, e, g, x)
    ensures Ready(s, e, g, Paren(x))
  {
    LinkedOfWorth(s, e, g, x);
    ParenMeans(Body(s, e.k, g), e.k, Tail(s, e.k), x);
  }

  lemma ParenMeans(fr: Frag, k: Kind, tail: seq<Instr>, x: Expr)
    requires TailOk(k, tail) && Means(fr, k, tail, x)
    ensures Means(fr, k, tail, Paren(x))
  {
    hide Run, Right, EndValue, TailOk;
    forall ks, rs | More(fr.ks, ks) ensures MeansAt(fr, k, tail, Paren(x), ks, rs) {
      assert MeansAt(fr, k, tail, x, ks, rs);
    }
  }

  // ---- closed code ----

  // Running the code gives the value of x in reg and spares the locals, but for reg, or fails as x does.
  ghost predicate Computed(code: seq<Instr>, ks: seq<Value>, n: nat, reg: nat, x: Expr, rs: Regs) {
    var o := Exec(code, ks, {}, {}, rs, 0);
    match Eval(x, rs)
    case Ok(v) => o.End? && Get(o.rs, reg) == v && BelowBut(rs, o.rs, n, reg)
    case Err => o == Error
  }

  // The code computes x from every state of the registers; no jump of it is open.
  ghost predicate Compiled(code: seq<Instr>, ks: seq<Value>, n: nat, reg: nat, x: Expr) {
    forall rs :: Computed(code, ks, n, reg, x, rs)
  }

  lemma ClosedRuns(s: Snap, e: ExpDesc, g: Lists, reg: nat, x: Expr)
    requires Filled(s, e, g, reg, x) && g == Lists([], [], 0, s.nactvar)
    ensures Compiled(Discharged(s.code, Elems(s.here)), s.ks, s.nactvar, reg, x)
  {
    var fr := Whole(s, g);
    assert Elems([]) == {};
    SettledLike(fr);
    SettledShape(fr);
    LikeFills(fr, Settled(fr), reg, x);
    hide Shape, Filled, Discharged, Like;
    var fr' := Settled(fr);
    forall rs ensures Computed(fr'.code, s.ks, s.nactvar, reg, x, rs) {
      assert More(s.ks, s.ks);
      assert FillsAt(fr', reg, x, s.ks, rs);
      ClosedRun(fr', reg, x, s.ks, rs);
    }
  }

  lemma ClosedRun(fr: Frag, reg: nat, x: Expr, ks: seq<Value>, rs: Regs)
    requires FillsAt(fr, reg, x, ks, rs) && fr.t == fr.f == fr.here == {} && fr.start == 0
    ensures Computed(fr.code, ks, fr.base, reg, x, rs)
  {
    assert fr.t + fr.f == {};
    assert Run(fr, ks, rs) == Exec(fr.code, ks, {}, {}, rs, 0);
    hide Exec, Below, BelowBut;
  }

  // 'local v = x', as the next local variable of a function with n of them.
  method CompileToNext(n: nat, x: Expr) returns (code: seq<Instr>, ks: seq<Value>)
    requires Scoped(x, n)
    ensures Compiled(code, ks, n, n, x)
  {
    hide Worth, Kept, Filled, Compiled;
    var fs := new FuncState(n);
    EmptyList([]);
    var e, g := Expression(fs, x);
    var e1, g1 := fs.Exp2NextReg(e, g, x);
    PlainFilled(fs.Now(), e1, g1, x);
    ClosedRuns(fs.Now(), e1, g1, n, x);
    LinkedNow(fs.Now(), e1, g1, n, x);
    fs.DischargeJpc();
    return fs.code, fs.ks;
  }

  // 'v = x' for a local variable v: 'luaK_storevar'.
  method CompileToLocal(n: nat, r: nat, x: Expr) returns (code: seq<Instr>, ks: seq<Value>)
    requires Scoped(x, n) && r < n
    ensures Compiled(code, ks, n, r, x)
  {
    hide Kept, Filled, Compiled, Worth;
    var fs := new FuncState(n);
    EmptyList([]);
    var e, g := Expression(fs, x);
    WorthReg(fs.Now(), e, g, x);
    ghost var s1 := fs.Now();
    fs.FreeExp(e);
    WorthFree(s1, fs.Now(), e, g, x);
    var e1, g1 := fs.Exp2Reg(e, r, g, x);
    ClosedRuns(fs.Now(), e1, g1, r, x);
    LinkedNow(fs.Now(), e1, g1, r, x);
    fs.DischargeJpc();
    return fs.code, fs.ks;
  }

  lemma PlainFilled(s: Snap, e: ExpDesc, g: Lists, x: Expr)
    requires Plain(s, e, g, x) && e.k.VNonReloc?
    ensures Filled(s, e, g, e.k.r, x) && g.t == g.f == []
  {
    HeldFilled(s, e, g, x);
  }

  lemma LinkedNow(s: Snap, e: ExpDesc, g: Lists, reg: nat, x: Expr)
    requires Filled(s, e, g, reg, x)
    ensures IsList(s.code, s.jpc, s.here)
  {
  }

  // Compiling an expression and running its code is evaluating it.
  method Evaluate(n: nat, x: Expr, rs: Regs) returns (v: Res)
    requires Scoped(x, n)
    ensures v == Eval(x, rs)
  {
    var code, ks := CompileToNext(n, x);
    assert Computed(code, ks, n, n, x, rs);
    var frame := new Frame(rs);
    var ok := frame.Execute(code, ks, 0);
    v := if ok then Ok(Get(frame.regs, n)) else Err;
  }
}
