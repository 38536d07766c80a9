// The instructions that expressions compile to, what they do, and the loop of the virtual machine.
module Bytecode {
  import opened Integers

  datatype Value = Nil | Bool(b: bool) | Int(i: Integer)

  // A value, or a run-time error.
  datatype Res = Ok(v: Value) | Err

  datatype ArithOp = Add | Sub | Mul | Mod | IDiv | BAnd | BOr | BXor | Shl | Shr
  datatype UnOp = Unm | BNot
  datatype CmpOp = Eq | Lt | Le

  predicate IsFalse(v: Value) { v == Nil || v == Bool(false) }

  // Integer operations: division and modulus fail when y is 0.
  function IntArith(op: ArithOp, x: Integer, y: Integer): Res {
    match op
    case Add => Ok(Int(Wrap(x + y)))
    case Sub => Ok(Int(Wrap(x - y)))
    case Mul => Ok(Int(Wrap(x * y)))
    case Mod => if y == 0 then Err else Ok(Int(Integers.Mod(x, y)))
    case IDiv => if y == 0 then Err else Ok(Int(Integers.Div(x, y)))
    case BAnd => Ok(Int(And(x, y)))
    case BOr => Ok(Int(Or(x, y)))
    case BXor => Ok(Int(Xor(x, y)))
    case Shl => Ok(Int(ShiftLeft(x, y)))
    case Shr => Ok(Int(ShiftLeft(x, Wrap(0 - y))))
  }

  function IntUnary(op: UnOp, x: Integer): Integer {
    match op
    case Unm => Wrap(0 - x)
    case BNot => Xor(-1, x)
  }

  function ArithRes(op: ArithOp, x: Value, y: Value): Res {
    if x.Int? && y.Int? then IntArith(op, x.i, y.i) else Err
  }

  function UnaryRes(op: UnOp, x: Value): Res {
    if x.Int? then Ok(Int(IntUnary(op, x.i))) else Err
  }

  // Values of any types can be tested for equality; only integers are ordered.
  function CompareRes(op: CmpOp, x: Value, y: Value): Res {
    match op
    case Eq => Ok(Bool(x == y))
    case Lt => if x.Int? && y.Int? then Ok(Bool(x.i < y.i)) else Err
    case Le => if x.Int? && y.Int? then Ok(Bool(x.i <= y.i)) else Err
  }

  // ---- instructions ----

  // A register or a constant.
  datatype RK = R(r: nat) | K(k: nat)

  const NO_REG := -1
  const NO_JUMP := -1

  datatype Instr =
    | Move(a: nat, b: nat)
    | LoadK(a: nat, k: nat)
    | LoadBool(a: nat, v: bool, skip: bool)
    | LoadNil(a: nat)
    | Arith(a: nat, op: ArithOp, rb: RK, rc: RK)
    | Unary(a: nat, uop: UnOp, b: nat)
    | Not(a: nat, b: nat)
    | Jmp(s: int)
    | Cmp(cmp: CmpOp, want: bool, rb: RK, rc: RK)
    | Test(a: nat, c: bool)
    | TestSet(t: int, b: nat, c: bool)

  // 'testTMode': the next instruction must be a jump.
  predicate IsTest(i: Instr) { i.Cmp? || i.Test? || i.TestSet? }

  // Instructions that give one value and go on to the next.
  predicate Gives(i: Instr) {
    i.Move? || i.LoadK? || (i.LoadBool? && !i.skip) || i.LoadNil? || i.Arith? || i.Unary? || i.Not?
  }

  type Regs = map<nat, Value>

  function Get(rs: Regs, r: nat): Value { if r in rs then rs[r] else Nil }
  function Konst(ks: seq<Value>, k: nat): Value { if k < |ks| then ks[k] else Nil }
  function Operand(o: RK, ks: seq<Value>, rs: Regs): Value {
    match o case R(r) => Get(rs, r) case K(k) => Konst(ks, k)
  }

  // The value an instruction gives.
  function Compute(i: Instr, ks: seq<Value>, rs: Regs): Res
    requires Gives(i)
  {
    match i
    case Move(_, b) => Ok(Get(rs, b))
    case LoadK(_, k) => Ok(Konst(ks, k))
    case LoadBool(_, v, _) => Ok(Bool(v))
    case LoadNil(_) => Ok(Nil)
    case Arith(_, op, b, c) => ArithRes(op, Operand(b, ks, rs), Operand(c, ks, rs))
    case Unary(_, op, b) => UnaryRes(op, Get(rs, b))
    case Not(_, b) => Ok(Bool(IsFalse(Get(rs, b))))
  }

  // Whether a test makes the jump after it: the comparison can fail.
  function Taken(i: Instr, ks: seq<Value>, rs: Regs): Res
    requires IsTest(i)
  {
    match i
    case Cmp(op, want, b, c) =>
      (match CompareRes(op, Operand(b, ks, rs), Operand(c, ks, rs)) case Ok(v) => Ok(Bool(v == Bool(want))) case Err => Err)
    case Test(a, c) => Ok(Bool(c != IsFalse(Get(rs, a))))
    case TestSet(_, b, c) => Ok(Bool(c != IsFalse(Get(rs, b))))
  }

  // The registers after a test that jumps.
  function Landed(i: Instr, rs: Regs): Regs {
    if i.TestSet? && i.t >= 0 then rs[i.t := Get(rs, i.b)] else rs
  }

  // ---- runs ----

  // The end of the code, a jump that is still open, an error, or a jump that does not go forward in the code.
  datatype Outcome = End(rs: Regs) | Jump(j: nat, rs: Regs) | Error | Stuck

  // Running from pc. Jumps in 'open' leave the code; jumps in 'here' go to its end, wherever they are linked.
  function Exec(code: seq<Instr>, ks: seq<Value>, open: set<nat>, here: set<nat>, rs: Regs, pc: nat): Outcome
    decreases |code| - pc
  {
    if pc > |code| then Stuck
    else if pc == |code| then End(rs)
    else
      var i := code[pc];
      if i.Jmp? then
        if pc in open then Jump(pc, rs)
        else if pc in here then End(rs)
        else if i.s < 0 then Stuck
        else Exec(code, ks, open, here, rs, pc + 1 + i.s)
      else if IsTest(i) then
        (match Taken(i, ks, rs)
         case Err => Error
         case Ok(v) =>
           if v == Bool(true) then Exec(code, ks, open, here, Landed(i, rs), pc + 1)
           else Exec(code, ks, open, here, rs, pc + 2))
      else if i.LoadBool? && i.skip then
        Exec(code, ks, open, here, rs[i.a := Bool(i.v)], pc + 2)
      else
        (match Compute(i, ks, rs)
         case Err => Error
         case Ok(v) => Exec(code, ks, open, here, rs[i.a := v], pc + 1))
  }

  // The stack frame of a function, and the loop of 'luaV_execute' over expression code.
  class Frame {
    var regs: Regs
    var pc: nat

    constructor (rs: Regs)
      ensures regs == rs && pc == 0
    {
      regs, pc := rs, 0;
    }

    // 'dojump'.
    method DoJump(code: seq<Instr>)
      requires pc < |code| && code[pc].Jmp? && code[pc].s >= 0
      modifies `pc
      ensures pc == old(pc) + 1 + code[old(pc)].s
    {
      pc := pc + 1 + code[pc].s;
    }

    // Runs code that only jumps forward. The result tells whether an operation failed.
    method Execute(code: seq<Instr>, ks: seq<Value>, start: nat) returns (ok: bool)
      requires !Exec(code, ks, {}, {}, regs, start).Stuck?
      modifies this
      ensures ok ==> Exec(code, ks, {}, {}, old(regs), start) == End(regs)
      ensures !ok ==> Exec(code, ks, {}, {}, old(regs), start) == Error
    {
      pc := start;
      while pc < |code|
        invariant Exec(code, ks, {}, {}, regs, pc) == Exec(code, ks, {}, {}, old(regs), start)
        decreases |code| - pc
      {
        var i := code[pc];
        if i.Jmp? {
          DoJump(code);
        } else if IsTest(i) {
          var jumps := Taken(i, ks, regs);
          if jumps.Err? { return false; }
          if jumps.v == Bool(true) {
            regs := Landed(i, regs);
            pc := pc + 1;
          } else {
            pc := pc + 2;
          }
        } else if i.LoadBool? && i.skip {
          regs := regs[i.a := Bool(i.v)];
          pc := pc + 2;
        } else {
          var v := Compute(i, ks, regs);
          if v.Err? { return false; }
          regs := regs[i.a := v.v];
          pc := pc + 1;
        }
      }
      return true;
    }
  }
}
