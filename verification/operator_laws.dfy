// What the operators answer, in terms of the integers: the value that compiled expressions are proved to have.
module OperatorLaws {
  import opened Integers
  import opened Bytecode
  import opened Expressions

  const MIN: int := -0x8000_0000_0000_0000
  const MAX: int := 0x7fff_ffff_ffff_ffff

  // The operands of the laws: any two expressions with integer values.
  ghost predicate Worth(e: Expr, f: Expr, rs: Regs, x: Integer, y: Integer) {
    Eval(e, rs) == Ok(Int(x)) && Eval(f, rs) == Ok(Int(y))
  }

  // What the comparison answers, if it answers at all.
  ghost predicate Holds(c: CmpOp, positive: bool, e: Expr, f: Expr, rs: Regs) {
    Eval(Bin(Comparison(c, positive), e, f), rs) == Ok(Bool(true))
  }

  // The integer an operation gives.
  ghost predicate Yields(a: ArithOp, e: Expr, f: Expr, rs: Regs, r: int) {
    MIN <= r <= MAX && Eval(Bin(Calc(a), e, f), rs) == Ok(Int(r))
  }

  // ---- order ----

  lemma Comparisons(e: Expr, f: Expr, rs: Regs, x: Integer, y: Integer)
    requires Worth(e, f, rs, x, y)
    ensures Eval(Bin(Comparison(Eq, true), e, f), rs) == Ok(Bool(x == y))
    ensures Eval(Bin(Comparison(Eq, false), e, f), rs) == Ok(Bool(x != y))
    ensures Eval(Bin(Comparison(Lt, true), e, f), rs) == Ok(Bool(x < y))
    ensures Eval(Bin(Comparison(Le, true), e, f), rs) == Ok(Bool(x <= y))
    ensures Eval(Bin(Comparison(Lt, false), e, f), rs) == Ok(Bool(x > y))
    ensures Eval(Bin(Comparison(Le, false), e, f), rs) == Ok(Bool(x >= y))
  {
  }

  // The order is total and strict, and compatible with adding one where that does not wrap around.
  lemma Order(e: Expr, f: Expr, rs: Regs, x: Integer, y: Integer)
    requires Worth(e, f, rs, x, y)
    ensures !Holds(Lt, true, e, e, rs) && Holds(Le, true, e, e, rs)
    ensures Holds(Le, true, e, f, rs) <==> Holds(Lt, true, e, f, rs) || Holds(Eq, true, e, f, rs)
    ensures Holds(Lt, true, e, f, rs) || Holds(Eq, true, e, f, rs) || Holds(Lt, true, f, e, rs)
    ensures !(Holds(Lt, true, e, f, rs) && Holds(Eq, true, e, f, rs))
    ensures !(Holds(Lt, true, e, f, rs) && Holds(Lt, true, f, e, rs))
    ensures x < MAX <==> Holds(Lt, true, e, Bin(Calc(Add), e, Const(Int(1))), rs)
  {
    var g := Bin(Calc(Add), e, Const(Int(1)));
    Sums(e, Const(Int(1)), rs, x, 1);
    if x < MAX { assert Eval(g, rs) == Ok(Int(x + 1)); } else { assert Eval(g, rs) == Ok(Int(MIN)); }
  }

  // Values of other types: they are equal or not, and neither ordered nor calculated with.
  lemma OtherValues(e: Expr, f: Expr, rs: Regs, v: Value, w: Value)
    requires Eval(e, rs) == Ok(v) && Eval(f, rs) == Ok(w)
    ensures Eval(Bin(Comparison(Eq, true), e, f), rs) == Ok(Bool(v == w))
    ensures Eval(Bin(Comparison(Eq, false), e, f), rs) == Ok(Bool(v != w))
    ensures !v.Int? || !w.Int? ==> forall c, p :: c != Eq ==> Eval(Bin(Comparison(c, p), e, f), rs) == Err
    ensures !v.Int? || !w.Int? ==> forall a :: Eval(Bin(Calc(a), e, f), rs) == Err
    ensures !v.Int? ==> forall u :: Eval(Prefix(Sign(u), e), rs) == Err
  {
  }

  // ---- arithmetic ----

  // r is the integer i modulo 2^64.
  predicate Agrees(r: int, i: int) { MIN <= r <= MAX && (r - i) % TWO64 == 0 }

  lemma WrapAgrees(i: int)
    ensures Agrees(Wrap(i), i)
    ensures MIN <= i <= MAX ==> Wrap(i) == i
  {
  }

  lemma Sums(e: Expr, f: Expr, rs: Regs, x: Integer, y: Integer)
    requires Worth(e, f, rs, x, y)
    ensures exists r :: Yields(Add, e, f, rs, r) && Agrees(r, x + y)
    ensures exists r :: Yields(Sub, e, f, rs, r) && Agrees(r, x - y)
    ensures exists r :: Yields(Mul, e, f, rs, r) && Agrees(r, x * y)
    ensures MIN <= x + y <= MAX ==> Yields(Add, e, f, rs, x + y)
    ensures x == MAX && y == 1 ==> Yields(Add, e, f, rs, MIN)
  {
    WrapAgrees(x + y);
    WrapAgrees(x - y);
    WrapAgrees(x * y);
    assert Yields(Add, e, f, rs, Wrap(x + y)) && Yields(Sub, e, f, rs, Wrap(x - y)) && Yields(Mul, e, f, rs, Wrap(x * y));
  }

  lemma Negation(e: Expr, rs: Regs, x: Integer)
    requires Eval(e, rs) == Ok(Int(x))
    ensures exists r: Integer :: Eval(Prefix(Sign(Unm), e), rs) == Ok(Int(r)) && Agrees(r, 0 - x)
  {
    WrapAgrees(0 - x);
    assert Eval(Prefix(Sign(Unm), e), rs) == Ok(Int(Wrap(0 - x)));
  }

  // Quotients round towards minus infinity; only the lowest integer divided by -1 wraps around.
  lemma Quotients(e: Expr, f: Expr, rs: Regs, x: Integer, y: Integer) returns (q: int, r: int)
    requires Worth(e, f, rs, x, y)
    ensures y == 0 ==> Eval(Bin(Calc(IDiv), e, f), rs) == Err && Eval(Bin(Calc(ArithOp.Mod), e, f), rs) == Err
    ensures y != 0 ==> Yields(ArithOp.Mod, e, f, rs, r) && x == y * q + r && if y > 0 then 0 <= r < y else y < r <= 0
    ensures y != 0 ==> Yields(IDiv, e, f, rs, if x == MIN && y == -1 then MIN else q)
  {
    hide FloorDiv, Integers.Div, Integers.Mod, Wrap;
    if y == 0 { return 0, 0; }
    q, r := FloorDiv(x, y), Integers.Mod(x, y);
    assert Integers.Div(x, y) == Wrap(q);
    if x == MIN && y == -1 {
      LowestQuotient();
    } else {
      QuotientFits(x, y);
      WrapAgrees(q);
    }
  }

  lemma LowestQuotient()
    ensures Wrap(FloorDiv(MIN, -1)) == MIN
  {
    assert FloorDiv(MIN, -1) == -MIN;
  }

  lemma QuotientFits(x: Integer, y: Integer)
    requires y != 0 && !(x == MIN && y == -1)
    ensures MIN <= FloorDiv(x, y) <= MAX
  {
    if y == -1 { assert FloorDiv(x, y) == -x; } else { CDivInRange(x, y); }
  }

  // ---- shifts ----

  // Shifting by one more doubles modulo 2^64, and 64 or more leaves nothing.
  lemma LeftShifts(e: Expr, rs: Regs, x: Integer, n: Integer)
    requires Eval(e, rs) == Ok(Int(x))
    ensures Yields(Shl, e, Const(Int(0)), rs, x)
    ensures 0 <= n < 63 ==> exists r, s: int ::
      Yields(Shl, e, Const(Int(n)), rs, r) && Yields(Shl, e, Const(Int(n + 1)), rs, s) && Agrees(s, 2 * r)
    ensures n >= 64 ==> Yields(Shl, e, Const(Int(n)), rs, 0)
  {
    Shifted(e, rs, x, 0);
    Shifted(e, rs, x, n);
    ShiftNone(x);
    if 0 <= n < 63 {
      Shifted(e, rs, x, n + 1);
      ShiftTwice(x, n);
    }
    hide Wrap, Pow2, Eval;
  }

  lemma Shifted(e: Expr, rs: Regs, x: Integer, n: Integer)
    requires Eval(e, rs) == Ok(Int(x))
    ensures Yields(Shl, e, Const(Int(n)), rs, ShiftLeft(x, n))
    ensures Yields(Shr, e, Const(Int(n)), rs, ShiftLeft(x, Wrap(0 - n)))
    ensures n >= 64 ==> ShiftLeft(x, n) == 0
  {
    assert Worth(e, Const(Int(n)), rs, x, n);
    hide Wrap;
  }

  // A negative count shifts the other way; only the lowest integer has no opposite, and is too far either way.
  lemma OppositeShifts(e: Expr, rs: Regs, x: Integer, n: Integer)
    requires Eval(e, rs) == Ok(Int(x))
    ensures n > MIN ==> Eval(Bin(Calc(Shr), e, Const(Int(n))), rs) == Eval(Bin(Calc(Shl), e, Const(Int(0 - n))), rs)
    ensures n == MIN ==> Yields(Shr, e, Const(Int(n)), rs, 0) && Yields(Shl, e, Const(Int(n)), rs, 0)
  {
    Shifted(e, rs, x, n);
    if n == MIN {
      LowestOpposite(x);
    } else {
      Shifted(e, rs, x, 0 - n);
      WrapAgrees(0 - n);
    }
    hide ShiftLeft, Wrap, Eval;
  }

  lemma LowestOpposite(x: Integer)
    ensures Wrap(0 - MIN) == MIN && ShiftLeft(x, MIN) == 0
  {
  }

  lemma ShiftNone(x: Integer)
    ensures ShiftLeft(x, 0) == x
  {
    assert Pow2(0) == 1;
  }

  lemma ShiftTwice(x: Integer, n: nat)
    requires n < 63
    ensures Agrees(ShiftLeft(x, n + 1), 2 * ShiftLeft(x, n))
  {
    var u, p := ToUnsigned(x), Pow2(n);
    WrapAgrees(u * p);
    WrapAgrees(u * (2 * p));
    assert u * (2 * p) == 2 * (u * p);
    AgreesTwice(ShiftLeft(x, n + 1), ShiftLeft(x, n), u * p);
  }

  lemma AgreesTwice(s: int, r: int, i: int)
    requires Agrees(s, 2 * i) && Agrees(r, i)
    ensures Agrees(s, 2 * r)
  {
    var a, b := (s - 2 * i) / TWO64, (r - i) / TWO64;
    assert s - 2 * r == TWO64 * (a - 2 * b);
    IsMultiple(a - 2 * b);
  }

  lemma IsMultiple(k: int)
    ensures TWO64 * k % TWO64 == 0
  {
  }

  // x >> n is the quotient of the unsigned number by 2^n.
  lemma RightShifts(e: Expr, rs: Regs, x: Integer, n: Integer) returns (r: int)
    requires Eval(e, rs) == Ok(Int(x)) && 0 <= n < 64
    ensures Yields(Shr, e, Const(Int(n)), rs, r)
    ensures r % TWO64 == x % TWO64 / Pow2(n)
    ensures Pow2(0) == 1 && (n > 0 ==> Pow2(n) == 2 * Pow2(n - 1))
  {
    hide Pow2, Wrap, ShiftLeft, Eval;
    r := ShiftLeft(x, 0 - n);
    Shifted(e, rs, x, n);
    ShiftedRight(x, n);
    WrapAgrees(0 - n);
    PowSteps(n);
  }

  lemma ShiftedRight(x: Integer, n: nat)
    requires n < 64
    ensures ShiftLeft(x, 0 - n) % TWO64 == x % TWO64 / Pow2(n)
  {
    hide Pow2;
    PowSteps(n);
    if n == 0 {
      ShiftNone(x);
      OneDivides(x % TWO64);
    } else {
      QuotientSmaller(ToUnsigned(x), Pow2(n));
      SameUnsigned(ToUnsigned(x) / Pow2(n));
    }
  }

  lemma OneDivides(u: int)
    ensures u / 1 == u
  {
  }

  lemma PowSteps(n: nat)
    ensures Pow2(0) == 1 && (n > 0 ==> Pow2(n) == 2 * Pow2(n - 1))
  {
  }

  lemma QuotientSmaller(u: nat, p: nat)
    requires p > 0
    ensures 0 <= u / p <= u
  {
    var q := u / p;
    assert p * q <= u;
    MoreTimes(p, q);
  }

  lemma MoreTimes(p: nat, q: nat)
    requires p > 0
    ensures q <= p * q
  {
  }

  // ---- bits ----

  // Bit k of a two's complement number.
  predicate Bit(x: int, k: nat) { x % TWO64 / Pow2(k) % 2 == 1 }

  lemma HalfFirst(u: nat, p: nat)
    requires p > 0
    ensures u / (2 * p) == u / 2 / p
  {
    var q := u / 2 / p;
    assert u / 2 == p * q + u / 2 % p;
    assert (2 * p) * q == 2 * (p * q);
    DivIsUnique(u, 2 * p, q, 2 * (u / 2 % p) + u % 2);
  }

  lemma {:induction false} BitsAt(n: nat, u: nat, v: nat, op: (bool, bool) -> bool, k: nat)
    requires k < n
    ensures Bits(n, u, v, op) / Pow2(k) % 2 == 1 <==> op(u / Pow2(k) % 2 == 1, v / Pow2(k) % 2 == 1)
  {
    var r := Bits(n - 1, u / 2, v / 2, op);
    if k == 0 {
      assert Pow2(0) == 1;
      assert (2 * r) % 2 == 0;
    } else {
      BitsAt(n - 1, u / 2, v / 2, op, k - 1);
      assert Bits(n, u, v, op) / 2 == r;
      HalfFirst(Bits(n, u, v, op), Pow2(k - 1));
      HalfFirst(u, Pow2(k - 1));
      HalfFirst(v, Pow2(k - 1));
    }
  }

  lemma WordBit(x: Integer, y: Integer, op: (bool, bool) -> bool, k: nat)
    requires k < 64
    ensures Bit(Word(x, y, op), k) == op(Bit(x, k), Bit(y, k))
  {
    hide Bits, Pow2;
    Pow2Is64();
    BitsAt(64, ToUnsigned(x), ToUnsigned(y), op, k);
    SameUnsigned(Bits(64, ToUnsigned(x), ToUnsigned(y), op));
  }

  lemma SameUnsigned(u: nat)
    requires u < TWO64
    ensures ToSigned(u) % TWO64 == u
  {
  }

  lemma Bitwise(e: Expr, f: Expr, rs: Regs, x: Integer, y: Integer) returns (a: int, o: int, z: int)
    requires Worth(e, f, rs, x, y)
    ensures Yields(BAnd, e, f, rs, a) && Yields(BOr, e, f, rs, o) && Yields(BXor, e, f, rs, z)
    ensures forall k: nat :: k < 64 ==> Bit(a, k) == (Bit(x, k) && Bit(y, k))
    ensures forall k: nat :: k < 64 ==> Bit(o, k) == (Bit(x, k) || Bit(y, k))
    ensures forall k: nat :: k < 64 ==> Bit(z, k) == (Bit(x, k) != Bit(y, k))
  {
    hide Bit, Word;
    a, o, z := And(x, y), Or(x, y), Xor(x, y);
    forall k: nat | k < 64
      ensures Bit(a, k) == (Bit(x, k) && Bit(y, k)) && Bit(o, k) == (Bit(x, k) || Bit(y, k)) && Bit(z, k) == (Bit(x, k) != Bit(y, k))
    {
      WordBit(x, y, (p, q) => p && q, k);
      WordBit(x, y, (p, q) => p || q, k);
      WordBit(x, y, (p, q) => p != q, k);
    }
  }

  // '~x' is -1 - x.
  lemma Complement(e: Expr, rs: Regs, x: Integer)
    requires Eval(e, rs) == Ok(Int(x))
    ensures Eval(Prefix(Sign(BNot), e), rs) == Ok(Int(-1 - x))
  {
    hide Bits, Pow2;
    Pow2Is64();
    var op: (bool, bool) -> bool := (a, b) => a != b;
    AllFlipped(64, ToUnsigned(x), op);
    assert ToUnsigned(-1) == TWO64 - 1;
    assert Xor(-1, x) == Word(-1, x, op);
  }

  lemma {:induction false} AllFlipped(n: nat, u: nat, op: (bool, bool) -> bool)
    requires u < Pow2(n) && forall a, b :: op(a, b) == (a != b)
    ensures Bits(n, Pow2(n) - 1, u, op) == Pow2(n) - 1 - u
  {
    if n > 0 {
      AllFlipped(n - 1, u / 2, op);
      assert (Pow2(n) - 1) / 2 == Pow2(n - 1) - 1;
    }
  }

  // ---- operands and truth ----

  lemma Operands(e: Expr, rs: Regs, v: Value, r: nat)
    ensures Eval(Const(v), rs) == Ok(v) && Eval(Paren(e), rs) == Eval(e, rs)
    ensures Eval(Local(r), rs) == Ok(if r in rs then rs[r] else Nil)
    ensures Eval(e, rs) == Err ==> forall p: PrefixOp :: Eval(Prefix(p, e), rs) == Err
    ensures Eval(e, rs) == Err ==> forall op, f :: Eval(Bin(op, e, f), rs) == Err
    ensures Eval(e, rs) == Err ==> forall f, op: BinOp :: (op.Calc? || op.Comparison?) && Eval(f, rs).Ok? ==> Eval(Bin(op, f, e), rs) == Err
  {
  }

  lemma Truth(e: Expr, f: Expr, rs: Regs, v: Value)
    requires Eval(e, rs) == Ok(v)
    ensures Eval(Prefix(NotOp, e), rs) == Ok(Bool(v == Nil || v == Bool(false)))
    ensures v == Nil || v == Bool(false) ==> Eval(Bin(AndOp, e, f), rs) == Ok(v) && Eval(Bin(OrOp, e, f), rs) == Eval(f, rs)
    ensures v != Nil && v != Bool(false) ==> Eval(Bin(AndOp, e, f), rs) == Eval(f, rs) && Eval(Bin(OrOp, e, f), rs) == Ok(v)
  {
  }
}
