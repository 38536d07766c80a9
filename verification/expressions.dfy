// Expressions over locals and constants, and what a piece of code for one must do.
module Expressions {
  import opened Integers
  import opened Bytecode
  import opened CodeRuns

  // A comparison is positive for '==', '<' and '<=', and not for '~=', '>' and '>='.
  datatype BinOp = Calc(a: ArithOp) | Comparison(c: CmpOp, positive: bool) | AndOp | OrOp
  datatype PrefixOp = Sign(u: UnOp) | NotOp

  datatype Expr =
    | Const(v: Value)
    | Local(r: nat)
    | Bin(op: BinOp, x: Expr, y: Expr)
    | Prefix(p: PrefixOp, x: Expr)
    | Paren(x: Expr)

  function BinRes(op: BinOp, x: Value, y: Value): Res
    requires op.Calc? || op.Comparison?
  {
    match op
    case Calc(a) => ArithRes(a, x, y)
    case Comparison(c, positive) =>
      if positive then CompareRes(c, x, y)
      else if c == Eq then Ok(Bool(x != y))
      else CompareRes(c, y, x)
  }

  // What an expression is worth: 'and' and 'or' evaluate their second operand only if they have to.
  function Eval(e: Expr, rs: Regs): Res {
    match e
    case Const(v) => Ok(v)
    case Local(r) => Ok(Get(rs, r))
    case Paren(x) => Eval(x, rs)
    case Prefix(p, x) =>
      (match Eval(x, rs)
       case Err => Err
       case Ok(v) => match p case NotOp => Ok(Bool(IsFalse(v))) case Sign(u) => UnaryRes(u, v))
    case Bin(op, x, y) =>
      (match Eval(x, rs)
       case Err => Err
       case Ok(v) =>
         match op
         case AndOp => if IsFalse(v) then Ok(v) else Eval(y, rs)
         case OrOp => if IsFalse(v) then Eval(y, rs) else Ok(v)
         case _ => match Eval(y, rs) case Err => Err case Ok(w) => BinRes(op, v, w))
  }

  // All locals are below n.
  predicate Scoped(e: Expr, n: nat) {
    match e
    case Const(_) => true
    case Local(r) => r < n
    case Bin(_, x, y) => Scoped(x, n) && Scoped(y, n)
    case Prefix(_, x) => Scoped(x, n)
    case Paren(x) => Scoped(x, n)
  }

  // Registers below n are the same.
  ghost predicate Below(rs: Regs, rs': Regs, n: nat) {
    forall r: nat :: r < n ==> Get(rs', r) == Get(rs, r)
  }

  lemma {:induction false} EvalBelow(e: Expr, n: nat, rs: Regs, rs': Regs)
    requires Scoped(e, n) && Below(rs, rs', n)
    ensures Eval(e, rs') == Eval(e, rs)
    decreases e
  {
    match e
    case Const(_) =>
    case Local(r) => assert Get(rs', r) == Get(rs, r);
    case Bin(_, x, y) =>
      EvalBelow(x, n, rs, rs');
      EvalBelow(y, n, rs, rs');
    case Prefix(_, x) => EvalBelow(x, n, rs, rs');
    case Paren(x) => EvalBelow(x, n, rs, rs');
  }

  // ---- expression descriptors ----

  // 'expkind', with its 'info' or 'ival'.
  datatype Kind =
    | VNil | VTrue | VFalse
    | VK(k: nat)
    | VKInt(i: Integer)
    | VNonReloc(r: nat)
    | VLocal(r: nat)
    | VJmp(pc: nat)
    | VReloc(pc: nat)

  // The code of an expression: it begins at 'start', may use registers from 'base' on, and leaves by jumps of t
  // when the value is true, of f when it is false, and otherwise at its end, where jumps of 'here' go too.
  datatype Frag = Frag(code: seq<Instr>, ks: seq<Value>, t: set<nat>, f: set<nat>, here: set<nat>, start: nat, base: nat)

  // Instructions at the end of the code that belong to the descriptor: one that still lacks its target
  // register, or a comparison and its jump.
  ghost predicate TailOk(k: Kind, tail: seq<Instr>) {
    match k
    case VReloc(_) => |tail| == 1 && (tail[0].Arith? || tail[0].Unary? || tail[0].Not?)
    case VJmp(_) => |tail| == 2 && tail[0].Cmp? && tail[1] == Jmp(NO_JUMP)
    case _ => tail == []
  }

  // The value at the end of the code.
  ghost function EndValue(k: Kind, tail: seq<Instr>, ks: seq<Value>, rs: Regs): Res
    requires TailOk(k, tail)
  {
    match k
    case VNil => Ok(Nil)
    case VTrue => Ok(Bool(true))
    case VFalse => Ok(Bool(false))
    case VK(i) => Ok(Konst(ks, i))
    case VKInt(i) => Ok(Int(i))
    case VNonReloc(r) => Ok(Get(rs, r))
    case VLocal(r) => Ok(Get(rs, r))
    case VReloc(_) => Compute(tail[0], ks, rs)
    case VJmp(_) => Taken(tail[0], ks, rs)
  }

  ghost predicate Shape(fr: Frag) {
    && Tidy(fr.code, fr.t + fr.f, fr.here, fr.start) && Entry(fr.code, |fr.code|) && fr.t !! fr.f
    && (forall j :: j in fr.here ==> j < |fr.code| && (|fr.code| > fr.start ==> fr.start <= j))
  }

  // The descriptor fits the code and the number of active locals.
  ghost predicate Fits(fr: Frag, k: Kind, tail: seq<Instr>, nactvar: nat) {
    && Shape(fr) && TailOk(k, tail) && nactvar <= fr.base && (tail != [] ==> fr.here == {})
    && match k
       case VReloc(pc) => pc == |fr.code|
       case VJmp(pc) => pc == |fr.code| + 1
       case VLocal(r) => r < nactvar
       case VNonReloc(r) => r < nactvar || r == fr.base
       case VK(i) => i < |fr.ks|
       case _ => true
  }

  // The first free register: one above the base if the value is in a temporary.
  function Top(k: Kind, base: nat, nactvar: nat): nat {
    if k.VNonReloc? && k.r >= nactvar then base + 1 else base
  }

  ghost function Run(fr: Frag, ks: seq<Value>, rs: Regs): Outcome {
    Exec(fr.code, ks, fr.t + fr.f, fr.here, rs, fr.start)
  }

  // What is known where an exit jump leaves: the value is in the register an OP_TESTSET tests, or it is the boolean.
  ghost predicate JumpValue(code: seq<Instr>, j: nat, rs: Regs, v: Value, truth: bool) {
    IsFalse(v) == !truth && if TestSetAt(code, j) then Get(rs, code[j - 1].b) == v else v == Bool(truth)
  }

  // A run started with registers rs does no harm, and its jumps and errors are right for a value v.
  ghost predicate Right(fr: Frag, o: Outcome, rs: Regs, v: Res) {
    match o
    case Stuck => false
    case Error => v.Err?
    case End(rs') => Below(rs, rs', fr.base)
    case Jump(j, rs') => Below(rs, rs', fr.base) && v.Ok? && (j in fr.t || j in fr.f) && JumpValue(fr.code, j, rs', v.v, j in fr.t)
  }

  // ks' has more constants than ks.
  predicate More(ks: seq<Value>, ks': seq<Value>) { ks <= ks' }

  ghost predicate MeansAt(fr: Frag, k: Kind, tail: seq<Instr>, e: Expr, ks: seq<Value>, rs: Regs)
    requires TailOk(k, tail)
  {
    var o := Run(fr, ks, rs);
    Right(fr, o, rs, Eval(e, rs)) && (o.End? ==> EndValue(k, tail, ks, o.rs) == Eval(e, rs))
  }

  // The code and its descriptor give the value of e.
  ghost predicate Means(fr: Frag, k: Kind, tail: seq<Instr>, e: Expr)
    requires TailOk(k, tail)
  {
    forall ks, rs :: More(fr.ks, ks) ==> MeansAt(fr, k, tail, e, ks, rs)
  }

  ghost predicate BranchesAt(fr: Frag, e: Expr, want: bool, ks: seq<Value>, rs: Regs) {
    var o := Run(fr, ks, rs);
    Right(fr, o, rs, Eval(e, rs)) && (o.End? ==> Eval(e, rs).Ok? && IsFalse(Eval(e, rs).v) == !want)
  }

  // The code reaches its end just when e is true (or, if !want, false).
  ghost predicate Branches(fr: Frag, e: Expr, want: bool) {
    forall ks, rs :: More(fr.ks, ks) ==> BranchesAt(fr, e, want, ks, rs)
  }

  // Registers below n are the same, but for reg.
  ghost predicate BelowBut(rs: Regs, rs': Regs, n: nat, reg: nat) {
    forall r: nat :: r < n && r != reg ==> Get(rs', r) == Get(rs, r)
  }

  ghost predicate FillsAt(fr: Frag, reg: nat, e: Expr, ks: seq<Value>, rs: Regs) {
    var o := Run(fr, ks, rs);
    if o.End? then BelowBut(rs, o.rs, fr.base, reg) && Eval(e, rs) == Ok(Get(o.rs, reg))
    else Right(fr, o, rs, Eval(e, rs))
  }

  // At its end the code has put the value of e into reg.
  ghost predicate Fills(fr: Frag, reg: nat, e: Expr) {
    forall ks, rs :: More(fr.ks, ks) ==> FillsAt(fr, reg, e, ks, rs)
  }
}
