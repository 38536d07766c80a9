// Binary operators: the code of the second operand follows that of the first.
module CodeOperands {
  import opened Integers
  import opened Bytecode
  import opened CodeRuns
  import opened Expressions
  import opened CodeSteps
  import opened CodeOperators
  import opened CodeClosing
  import opened JumpLists
  import opened CodeState

  // What 'luaK_infix' leaves of a first operand: a constant, or a register.
  predicate OperandKind(k: Kind) { k.VK? || k.VKInt? || k.VNonReloc? }

  // s1 is the state when the code of the first operand was done; s is the state when that of the second is.
  ghost predicate Operands(s1: Snap, e1: ExpDesc, g1: Lists, x: Expr, s: Snap, e2: ExpDesc, g2: Lists, y: Expr) {
    && Plain(s1, e1, g1, x) && OperandKind(e1.k) && Kept(s1, s, |s1.code|) && Ready(s, e2, g2, y)
    && g2.start == |s1.code| && g2.base == s1.freereg && Scoped(y, s1.nactvar)
  }

  lemma FollowsKept(s1: Snap, g1: Lists, s2: Snap, k2: Kind, g2: Lists)
    requires Kept(s1, s2, |s1.code|) && g2.start == |s1.code| && g1.base <= g2.base && TailLen(k2) <= |s2.code|
    requires Shape(Body(s2, k2, g2)) && (TailLen(k2) > 0 ==> s2.here == [])
    ensures Follows(Whole(s1, g1), Body(s2, k2, g2))
  {
    var fr2 := Body(s2, k2, g2);
    assert fr2.start <= |fr2.code|;
    if |s2.code| > g2.start {
      assert fr2.code[..g2.start] == s2.code[..g2.start];
    }
  }

  lemma PlainFacts(s: Snap, e: ExpDesc, g: Lists, x: Expr)
    requires Plain(s, e, g, x) && OperandKind(e.k)
    ensures TailLen(e.k) == 0 && Closed(Whole(s, g)) && Stable(e.k, s.freereg) && s.nactvar <= g.base <= s.freereg
    ensures Linked(s, e, g) && Shape(Whole(s, g)) && Means(Whole(s, g), e.k, [], x) && TailOk(e.k, [])
    ensures Stable(e.k, g.base + 1) && e.t == e.f == NO_JUMP && g.t == g.f == []
  {
    WorthShape(s, e, g, x);
    assert Elems([]) == {};
  }

  // The lists of a first operand without exits.
  function Alone(g: Lists): Lists { Lists([], [], g.start, g.base) }

  lemma BothOf(s1: Snap, e1: ExpDesc, g1: Lists, x: Expr, s: Snap, e2: ExpDesc, g2: Lists, y: Expr)
    requires Operands(s1, e1, g1, x, s, e2, g2, y) && Plain(s, e2, g2, y) && OperandKind(e2.k)
    ensures TailOk(e1.k, []) && TailOk(e2.k, []) && Both(Whole(s, Alone(g1)), e1.k, e2.k, x, y) && Shape(Whole(s, Alone(g1)))
    ensures Closed(Whole(s, Alone(g1)))
  {
    hide Worth, Shape, Linked, Means, Kept, Follows, Both, Scoped;
    PlainFacts(s1, e1, g1, x);
    PlainFacts(s, e2, g2, y);
    var fr1, fr2 := Whole(s1, g1), Whole(s, g2);
    WholeBody(s, e2.k, g2);
    FollowsKept(s1, g1, s, e2.k, g2);
    ScopedMore(y, s1.nactvar, g1.base);
    JoinedBoth(fr1, fr2, e1.k, e2.k, x, y);
    JoinedShape(fr1, fr2);
    assert Elems([]) == {};
    assert Joined(fr1, fr2) == Whole(s, Alone(g1));
  }

  lemma {:induction false} ScopedMore(y: Expr, n: nat, m: nat)
    requires Scoped(y, n) && n <= m
    ensures Scoped(y, m)
    decreases y
  {
    match y
    case Bin(_, a, b) =>
      ScopedMore(a, n, m);
      ScopedMore(b, n, m);
    case Prefix(_, a) => ScopedMore(a, n, m);
    case Paren(a) => ScopedMore(a, n, m);
    case _ =>
  }

  // What is kept before the second operand is kept before the first.
  lemma KeptWiden(s1: Snap, g1: Lists, s2: Snap)
    requires Shape(Whole(s1, g1)) && Kept(s1, s2, |s1.code|)
    ensures Kept(s1, s2, g1.start)
  {
    HereFrom(Whole(s1, g1));
    StartsAtEntry(Whole(s1, g1));
    hide Shape;
    var n, D := |s1.code|, Discharged(s1.code, Elems(s1.here));
    forall j | j in s1.here ensures j < n && (n > g1.start ==> g1.start <= j) { assert j in Elems(s1.here); }
    if |s2.code| > n && n > g1.start {
      forall p | 0 <= p < g1.start ensures D[p] == s1.code[p] {
        assert p + 1 in Elems(s1.here) ==> p + 1 == g1.start;
        UnpatchedBefore(s1.code, Elems(s1.here), NO_REG, n, n, p);
      }
      assert s2.code[..g1.start] == s2.code[..n][..g1.start];
      assert s2.code[..g1.start] == s1.code[..g1.start];
    }
  }

  // ---- the operation itself ----

  // The descriptor of an operand.
  function KindOf(o: RK): Kind {
    match o case K(k) => VK(k) case R(r) => VNonReloc(r)
  }

  lemma ArithOperates(op: ArithOp, o1: RK, o2: RK, pc: nat, ks0: seq<Value>)
    ensures Operates(VReloc(pc), [Arith(0, op, o1, o2)], Calc(op), KindOf(o1), KindOf(o2), ks0)
  {
  }

  // '>' and '>=' become '<' and '<=' with their operands exchanged.
  function CompareInstr(c: CmpOp, positive: bool, o1: RK, o2: RK): Instr {
    if !positive && c != Eq then Cmp(c, true, o2, o1) else Cmp(c, positive, o1, o2)
  }

  lemma CompareOperates(c: CmpOp, positive: bool, o1: RK, o2: RK, pc: nat, ks0: seq<Value>)
    ensures Operates(VJmp(pc), [CompareInstr(c, positive, o1, o2), Jmp(NO_JUMP)], Comparison(c, positive), KindOf(o1), KindOf(o2), ks0)
  {
  }

  // Both operands are evaluated: what the last instructions need.
  ghost predicate BothReady(s: Snap, g: Lists, k1: Kind, k2: Kind, x: Expr, y: Expr) {
    && g == Alone(g) && TailOk(k1, []) && TailOk(k2, []) && Stable(k1, g.base + 2) && Stable(k2, g.base + 2)
    && Both(Whole(s, g), k1, k2, x, y) && Shape(Whole(s, g)) && IsList(s.code, s.jpc, s.here) && s.nactvar <= g.base
  }

  lemma ArithWorth(s: Snap, g: Lists, op: ArithOp, o1: RK, o2: RK, x: Expr, y: Expr)
    requires BothReady(s, g, KindOf(o1), KindOf(o2), x, y)
    ensures var s' := Emit(s, Arith(0, op, o1, o2));
      Worth(s', ExpDesc(VReloc(|s.code|), NO_JUMP, NO_JUMP), g, Bin(Calc(op), x, y)) && Kept(s, s', g.start)
  {
    hide Shape, Both, Kept, Discharged, Operates, Means, Stable;
    var i, fr := Arith(0, op, o1, o2), Whole(s, g);
    var s', k := Emit(s, i), VReloc(|s.code|);
    EmptyList(s.code);
    EmitLinked(s, ExpDesc(k, NO_JUMP, NO_JUMP), g, i);
    SettledShape(fr);
    BothSettled(fr, KindOf(o1), KindOf(o2), x, y);
    ArithOperates(op, o1, o2, |s.code|, s.ks);
    BothMeans(Settled(fr), k, [i], Calc(op), KindOf(o1), KindOf(o2), x, y);
    assert Elems([]) == {};
    assert s'.code == Settled(fr).code + [i];
    assert Body(s', k, g) == Settled(fr) && Tail(s', k) == [i];
  }

  lemma CompareWorth(s: Snap, g: Lists, c: CmpOp, positive: bool, o1: RK, o2: RK, x: Expr, y: Expr)
    requires BothReady(s, g, KindOf(o1), KindOf(o2), x, y)
    ensures var s' := EmitTest(s, CompareInstr(c, positive, o1, o2));
      Worth(s', ExpDesc(VJmp(|s.code| + 1), NO_JUMP, NO_JUMP), g, Bin(Comparison(c, positive), x, y)) && Kept(s, s', g.start)
  {
    hide Shape, Both, Kept, Discharged, Operates, Means, Stable, CompareInstr;
    var i, fr := CompareInstr(c, positive, o1, o2), Whole(s, g);
    assert i.Cmp? by { CompareIsCmp(c, positive, o1, o2); }
    var s', k := EmitTest(s, i), VJmp(|s.code| + 1);
    EmptyList(s.code);
    EmitTestLinked(s, ExpDesc(k, NO_JUMP, NO_JUMP), g, i);
    SettledShape(fr);
    BothSettled(fr, KindOf(o1), KindOf(o2), x, y);
    CompareOperates(c, positive, o1, o2, |s.code| + 1, s.ks);
    BothMeans(Settled(fr), k, [i, Jmp(NO_JUMP)], Comparison(c, positive), KindOf(o1), KindOf(o2), x, y);
    assert Elems([]) == {};
    assert s'.code == Settled(fr).code + [i, Jmp(NO_JUMP)];
    assert Body(s', k, g) == Settled(fr) && Tail(s', k) == [i, Jmp(NO_JUMP)];
  }

  lemma CompareIsCmp(c: CmpOp, positive: bool, o1: RK, o2: RK)
    ensures CompareInstr(c, positive, o1, o2).Cmp?
  {
  }

  // ---- constant folding ----

  // 'constfolding' for integers, with 'validop': division and modulus by zero are left to run time.
  function Folded(op: ArithOp, i: Integer, j: Integer): (v: Res)
    ensures v.Ok? ==> v == IntArith(op, i, j) && v.v.Int?
  {
    if (op == IDiv || op == Mod) && j == 0 then Err else IntArith(op, i, j)
  }

  lemma FoldOperates(op: ArithOp, i: Integer, j: Integer, r: Integer, ks0: seq<Value>)
    requires Folded(op, i, j) == Ok(Int(r))
    ensures Operates(VKInt(r), [], Calc(op), VKInt(i), VKInt(j), ks0)
  {
  }

  lemma FoldWorth(s: Snap, g: Lists, op: ArithOp, i: Integer, j: Integer, r: Integer, x: Expr, y: Expr)
    requires BothReady(s, g, VKInt(i), VKInt(j), x, y) && Folded(op, i, j) == Ok(Int(r))
    ensures Worth(s, ExpDesc(VKInt(r), NO_JUMP, NO_JUMP), g, Bin(Calc(op), x, y))
  {
    hide Shape, Both, Kept, Operates, Means, Stable, IntArith;
    EmptyList(s.code);
    FoldOperates(op, i, j, r, s.ks);
    BothMeans(Whole(s, g), VKInt(r), [], Calc(op), VKInt(i), VKInt(j), x, y);
    WorthIntro(s, ExpDesc(VKInt(r), NO_JUMP, NO_JUMP), g, Bin(Calc(op), x, y));
  }

  // ---- a numeral that needs a place after all ----

  // A constant with no code of its own.
  lemma NumeralReady(s: Snap, i: Integer)
    requires IsList(s.code, s.jpc, s.here) && Entry(s.code, |s.code|) && s.nactvar <= s.freereg
    ensures Ready(s, ExpDesc(VKInt(i), NO_JUMP, NO_JUMP), Lists([], [], |s.code|, s.freereg), Const(Int(i)))
  {
    var e, g := ExpDesc(VKInt(i), NO_JUMP, NO_JUMP), Lists([], [], |s.code|, s.freereg);
    LeafReady(s, e, g, Const(Int(i)));
  }

  // A leaf of an expression has no code: its descriptor gives its value.
  lemma LeafReady(s: Snap, e: ExpDesc, g: Lists, x: Expr)
    requires IsList(s.code, s.jpc, s.here) && Entry(s.code, |s.code|) && s.nactvar <= s.freereg
    requires e.t == e.f == NO_JUMP && g == Lists([], [], |s.code|, s.freereg) && TailLen(e.k) == 0
    requires (e.k.VLocal? && e.k.r < s.nactvar && x == Local(e.k.r)) || (x.Const? && ConstKind(e.k, x.v))
    ensures Ready(s, e, g, x)
  {
    LeafShape(s, g);
    LeafMeans(s, e, g, x);
    hide Shape, Means;
    EmptyList(s.code);
    WorthIntro(s, e, g, x);
  }

  lemma LeafShape(s: Snap, g: Lists)
    requires IsList(s.code, s.jpc, s.here) && Entry(s.code, |s.code|) && g == Lists([], [], |s.code|, g.base)
    ensures Shape(Whole(s, g))
  {
    assert Elems([]) == {};
    ListFacts(s.code, s.jpc, s.here);
  }

  lemma LeafMeans(s: Snap, e: ExpDesc, g: Lists, x: Expr)
    requires g == Lists([], [], |s.code|, g.base) && TailLen(e.k) == 0
    requires (e.k.VLocal? && x == Local(e.k.r)) || (x.Const? && ConstKind(e.k, x.v))
    ensures TailOk(e.k, []) && Means(Whole(s, g), e.k, [], x)
  {
    var fr := Whole(s, g);
    forall ks, rs | More(fr.ks, ks) ensures MeansAt(fr, e.k, [], x, ks, rs) {
      assert Run(fr, ks, rs) == End(rs);
    }
  }

  lemma BothReloadedState(s: Snap, g: Lists, i: Integer, k1': Kind, k2: Kind, x: Expr, y: Expr, s': Snap, g3: Lists, e3: ExpDesc)
    requires BothReady(s, g, VKInt(i), k2, x, y) && Stable(k2, s.freereg) && Kept(s, s', |s.code|) && g.base <= s.freereg
    requires g3.start == |s.code| && g3.base == s.freereg && e3.k == k1' && OperandKind(k1') && Plain(s', e3, g3, Const(Int(i)))
    requires s.freereg <= g.base + 1
    ensures BothReady(s', g, k1', k2, x, y)
  {
    hide Shape, Both, Kept, Worth, Means, Linked, Follows;
    PlainFacts(s', e3, g3, Const(Int(i)));
    WholeBody(s', k1', g3);
    FollowsKept(s, g, s', k1', g3);
    var fr1, fr3 := Whole(s, g), Whole(s', g3);
    assert Elems([]) == {};
    BothReloaded(fr1, fr3, VKInt(i), k1', k2, Int(i), x, y);
    JoinedShape(fr1, fr3);
    assert Joined(fr1, fr3) == Whole(s', g);
    LinkedParts(s', e3, g3);
    KeptConst(s, s', |s.code|);
  }

  lemma KeptConst(s: Snap, s': Snap, start: nat)
    requires Kept(s, s', start)
    ensures s'.nactvar == s.nactvar && s.ks <= s'.ks && start <= |s'.code|
  {
  }

  // ---- registers of two operands ----

  predicate IsTemp(k: Kind, n: nat) { k.VNonReloc? && k.r >= n }

  // Temporaries of the operands are the topmost registers, one above the other.
  predicate Stacked(k1: Kind, k2: Kind, b: nat, n: nat, free: nat) {
    if IsTemp(k1, n) && IsTemp(k2, n) then
      free == b + 2 && ((k1.r == b && k2.r == b + 1) || (k1.r == b + 1 && k2.r == b))
    else if IsTemp(k1, n) then free == b + 1 && k1.r == b
    else if IsTemp(k2, n) then free == b + 1 && k2.r == b
    else free == b
  }

  // Both operands are in place.
  ghost predicate Placed(s: Snap, g: Lists, e1: ExpDesc, e2: ExpDesc, o1: RK, o2: RK, x: Expr, y: Expr) {
    && e1.k == KindOf(o1) && e2.k == KindOf(o2) && BothReady(s, g, KindOf(o1), KindOf(o2), x, y)
    && Stacked(e1.k, e2.k, g.base, s.nactvar, s.freereg)
  }

  lemma OperandsFacts(s1: Snap, e1: ExpDesc, g1: Lists, x: Expr, s: Snap, e2: ExpDesc, g2: Lists, y: Expr)
    requires Operands(s1, e1, g1, x, s, e2, g2, y)
    ensures Kept(s1, s, g1.start) && s.nactvar == s1.nactvar <= g1.base <= g2.base <= g1.base + 1 && g2.start == |s1.code|
    ensures g2.base == Top(e1.k, g1.base, s1.nactvar) && g1.t == g1.f == [] && e1.t == e1.f == NO_JUMP
    ensures e1.k.VNonReloc? ==> e1.k.r < s1.nactvar || e1.k.r == g1.base
  {
    PlainFacts(s1, e1, g1, x);
    WorthReg(s1, e1, g1, x);
    KeptWiden(s1, g1, s);
    KeptConst(s1, s, |s1.code|);
  }

  // The second operand is in place, too.
  lemma SecondPlaced(s1: Snap, e1: ExpDesc, g1: Lists, x: Expr, s: Snap, e2: ExpDesc, g2: Lists, y: Expr, s': Snap, e2': ExpDesc, g2': Lists)
    requires Operands(s1, e1, g1, x, s, e2, g2, y) && Plain(s', e2', g2', y) && OperandKind(e2'.k) && Kept(s, s', g2.start)
    requires g2'.start == g2.start && g2'.base == g2.base
    ensures TailOk(e1.k, []) && TailOk(e2'.k, []) && BothReady(s', Alone(g1), e1.k, e2'.k, x, y) && Kept(s1, s', g1.start)
    ensures s'.nactvar == s.nactvar && Stacked(e1.k, e2'.k, g1.base, s'.nactvar, s'.freereg) && Stable(e2'.k, s'.freereg)
    ensures Entry(s'.code, |s'.code|) && g1.base <= s'.freereg
    ensures e1.k.VKInt? ==> s'.freereg <= g1.base + 1
  {
    hide Worth, Shape, Kept, Both, Scoped, Linked;
    OperandsFacts(s1, e1, g1, x, s, e2, g2, y);
    KeptTrans(s1, s, s', |s1.code|);
    OperandsFacts(s1, e1, g1, x, s', e2', g2', y);
    PlainFacts(s1, e1, g1, x);
    PlainFacts(s', e2', g2', y);
    WorthReg(s', e2', g2', y);
    BothOf(s1, e1, g1, x, s', e2', g2', y);
    LinkedParts(s', e2', g2');
    EndIsEntry(Whole(s', g2'));
  }

  lemma NumeralPlain(s: Snap, e: ExpDesc, g: Lists, x: Expr)
    requires Ready(s, e, g, x) && e.t == e.f == NO_JUMP
    ensures Plain(s, e, g, x)
  {
    LinkedOfWorth(s, e, g, x);
    hide Worth;
    ListFacts(s.code, e.t, g.t);
    ListFacts(s.code, e.f, g.f);
  }

  lemma OperandsParts(s1: Snap, e1: ExpDesc, g1: Lists, x: Expr, s: Snap, e2: ExpDesc, g2: Lists, y: Expr)
    requires Operands(s1, e1, g1, x, s, e2, g2, y)
    ensures Ready(s, e2, g2, y) && OperandKind(e1.k) && e1.t == e1.f == NO_JUMP && g2.start == |s1.code|
  {
  }

  lemma KeptRefl2(s: Snap, e: ExpDesc, g: Lists, x: Expr)
    requires Ready(s, e, g, x)
    ensures Kept(s, s, g.start)
  {
    WorthKept(s, e, g, x);
    KeptRefl(s, g.start);
  }

  lemma FreeBothReady(s: Snap, s': Snap, g: Lists, k1: Kind, k2: Kind, x: Expr, y: Expr)
    requires TailOk(k1, []) && TailOk(k2, []) && BothReady(s, g, k1, k2, x, y) && s' == s.(freereg := s'.freereg)
    ensures BothReady(s', g, k1, k2, x, y)
  {
    assert Whole(s', g) == Whole(s, g);
  }

  lemma BothReadyList(s: Snap, g: Lists, k1: Kind, k2: Kind, x: Expr, y: Expr)
    requires TailOk(k1, []) && TailOk(k2, []) && BothReady(s, g, k1, k2, x, y)
    ensures IsList(s.code, s.jpc, s.here) && s.nactvar <= g.base
  {
  }

  lemma PlacedKept(s1: Snap, s2: Snap, s3: Snap, g: Lists, k1: Kind, k2: Kind, x: Expr, y: Expr)
    requires TailOk(k1, []) && TailOk(k2, []) && BothReady(s2, Alone(g), k1, k2, x, y)
    requires Kept(s1, s2, g.start) && (Kept(s2, s3, |s2.code|) || s3 == s2)
    ensures Kept(s1, s3, g.start)
  {
    if s3 != s2 {
      KeptWiden(s2, Alone(g), s3);
      KeptTrans(s1, s2, s3, g.start);
    }
  }

  // ---- unary operators ----

  lemma SignOperates(u: UnOp, r: nat, pc: nat, ks0: seq<Value>)
    ensures forall ks, rs :: More(ks0, ks) ==>
      UnaryAt(EndValue(VReloc(pc), [Unary(0, u, r)], ks, rs), u, EndValue(VNonReloc(r), [], ks, rs))
  {
  }

  lemma SignWorth(s: Snap, e: ExpDesc, g: Lists, u: UnOp, x: Expr)
    requires Worth(s, e, g, x) && e.k.VNonReloc? && e.t == e.f == NO_JUMP && g.t == g.f == []
    ensures var s', k := Emit(s, Unary(0, u, e.k.r)), VReloc(|s.code|);
      Worth(s', ExpDesc(k, NO_JUMP, NO_JUMP), g, Prefix(Sign(u), x)) && Kept(s, s', g.start)
  {
    hide Shape, Worth, Kept, Discharged, Means;
    var i, fr := Unary(0, u, e.k.r), Whole(s, g);
    var s', k := Emit(s, i), VReloc(|s.code|);
    WorthShape(s, e, g, x);
    EmitLinked(s, ExpDesc(k, NO_JUMP, NO_JUMP), g, i);
    SettledShape(fr);
    SettledLike(fr);
    LikeMeans(fr, Settled(fr), e.k, [], x);
    SignOperates(u, e.k.r, |s.code|, s.ks);
    assert Elems([]) == {};
    UnaryMeans(Settled(fr), k, [i], u, e.k, x);
    assert s'.code == Settled(fr).code + [i];
    assert Body(s', k, g) == Settled(fr) && Tail(s', k) == [i];
    IntroReloc(s', ExpDesc(k, NO_JUMP, NO_JUMP), g, Prefix(Sign(u), x), Settled(fr), [i]);
  }

  lemma IntroReloc(s: Snap, e: ExpDesc, g: Lists, x: Expr, fr: Frag, tail: seq<Instr>)
    requires e.k.VReloc? && Linked(s, e, g) && s.code == fr.code + tail && Body(s, e.k, g) == fr && Tail(s, e.k) == tail
    requires TailOk(e.k, tail) && Shape(fr) && fr.here == {} && s.nactvar <= g.base && e.k.pc == |fr.code| && Means(fr, e.k, tail, x)
    ensures Worth(s, e, g, x)
  {
  }

  lemma SignFolds(s: Snap, e: ExpDesc, g: Lists, u: UnOp, x: Expr)
    requires Worth(s, e, g, x) && e.k.VKInt? && g.t == g.f == []
    ensures Worth(s, e.(k := VKInt(IntUnary(u, e.k.i))), g, Prefix(Sign(u), x))
  {
    hide Shape, Worth, Means;
    var k' := VKInt(IntUnary(u, e.k.i));
    WorthShape(s, e, g, x);
    assert Elems([]) == {};
    UnaryMeans(Whole(s, g), k', [], u, e.k, x);
    WorthIntro(s, e.(k := k'), g, Prefix(Sign(u), x));
  }

  // ---- 'and' and 'or' ----

  // s1 is the state when the code of the first operand branches; s is the state when that of the second is done.
  ghost predicate Pending(s1: Snap, e1: ExpDesc, g1: Lists, x: Expr, want: bool, s: Snap, e2: ExpDesc, g2: Lists, y: Expr) {
    && Branching(s1, e1, g1, x, want) && Kept(s1, s, |s1.code|) && Ready(s, e2, g2, y)
    && g2.start == |s1.code| && g2.base == g1.base && Scoped(y, s1.nactvar)
  }

  // The lists of the combined expression: exits that x decides come after those of y.
  function Both2(g1: Lists, g2: Lists, want: bool): Lists {
    if want then Lists(g2.t, g2.f + g1.f, g1.start, g1.base) else Lists(g2.t + g1.t, g2.f, g1.start, g1.base)
  }

  lemma PendingLists(s1: Snap, e1: ExpDesc, g1: Lists, x: Expr, want: bool, s: Snap, e2: ExpDesc, g2: Lists, y: Expr)
    requires Pending(s1, e1, g1, x, want, s, e2, g2, y)
    ensures IsList(s.code, if want then e1.f else e1.t, if want then g1.f else g1.t)
    ensures Linked(s, e2, g2) && g2.start <= |s.code| - TailLen(e2.k) && TailLen(e2.k) <= |s.code|
    ensures var L := if want then g1.f else g1.t; forall j :: j in L ==> j < g2.start
    ensures forall j :: j in g2.t || j in g2.f ==> g2.start <= j < |s.code| - TailLen(e2.k)
    ensures Elems(g2.t) !! Elems(g2.f) && (Elems(g2.t) + Elems(g2.f)) !! Elems(s.here)
  {
    var L, head := if want then g1.f else g1.t, if want then e1.f else e1.t;
    JumpsBefore(Whole(s1, g1), g1);
    JumpsInside(Whole(s1, g1));
    LinkedOfWorth(s, e2, g2, y);
    JumpsBefore(Body(s, e2.k, g2), g2);
    JumpsInside(Body(s, e2.k, g2));
    assert g2.start <= |Body(s, e2.k, g2).code|;
    ListFacts(s1.code, head, L);
    var D := Discharged(s1.code, Elems(s1.here));
    forall j | j in L ensures s.code[j] == s1.code[j] {
      assert j in Elems(L);
      PatchedJump(s1.code, Elems(s1.here), NO_REG, |s1.code|, |s1.code|, j);
      assert |s.code| > g2.start ==> s.code[j] == s.code[..g2.start][j];
    }
    ListKept(s1.code, head, L, s.code);
  }

  // The combined code, before its lists are joined.
  lemma PendingMeans(s1: Snap, e1: ExpDesc, g1: Lists, x: Expr, want: bool, s: Snap, e2: ExpDesc, g2: Lists, y: Expr)
    requires Pending(s1, e1, g1, x, want, s, e2, g2, y)
    ensures var fr, tail := Joined(Whole(s1, g1), Body(s, e2.k, g2)), Tail(s, e2.k);
      && TailOk(e2.k, tail) && Shape(fr) && Means(fr, e2.k, tail, Bin(if want then AndOp else OrOp, x, y))
      && Fits(Body(s, e2.k, g2), e2.k, tail, s.nactvar) && Kept(s1, s, g1.start)
  {
    WorthFits(s, e2, g2, y);
    BranchingShape(s1, e1, g1, x, want);
    hide Worth, Shape, Branching, Linked, Branches, Means, Scoped, Follows, Kept;
    FollowsKept(s1, g1, s, e2.k, g2);
    ScopedMore(y, s1.nactvar, g1.base);
    JoinedShape(Whole(s1, g1), Body(s, e2.k, g2));
    if want { EmptyElems(g1.t); } else { EmptyElems(g1.f); }
    ShortCircuit(Whole(s1, g1), Body(s, e2.k, g2), want, e2.k, Tail(s, e2.k), x, y);
    KeptWiden(s1, g1, s);
  }

  lemma EmptyElems(L: seq<nat>)
    requires L == []
    ensures Elems(L) == {}
  {
  }

  lemma WorthFits(s: Snap, e: ExpDesc, g: Lists, x: Expr)
    requires Worth(s, e, g, x)
    ensures Fits(Body(s, e.k, g), e.k, Tail(s, e.k), s.nactvar) && Means(Body(s, e.k, g), e.k, Tail(s, e.k), x)
    ensures TailLen(e.k) <= |s.code| && (TailLen(e.k) > 0 ==> s.here == []) && s.code == Body(s, e.k, g).code + Tail(s, e.k)
  {
    if TailLen(e.k) > 0 { NoElems(s.here); }
  }

  lemma BranchingShape(s: Snap, e: ExpDesc, g: Lists, x: Expr, want: bool)
    requires Branching(s, e, g, x, want)
    ensures Shape(Whole(s, g)) && s.nactvar <= g.base && Branches(Whole(s, g), x, want) && (if want then g.t == [] else g.f == [])
  {
  }

  // The lists of exits were joined: code' differs from the code in one link of the second operand's list.
  lemma PendingJoined(s1: Snap, e1: ExpDesc, g1: Lists, x: Expr, want: bool, s: Snap, e2: ExpDesc, g2: Lists, y: Expr,
      code': seq<Instr>, head: int)
    requires Pending(s1, e1, g1, x, want, s, e2, g2, y) && |code'| == |s.code|
    requires IsList(code', head, if want then g2.f + g1.f else g2.t + g1.t)
    requires forall p: nat :: p < |s.code| && p !in (if want then g2.f else g2.t) ==> code'[p] == s.code[p]
    ensures var s' := s.(code := code');
      Worth(s', if want then e2.(f := head) else e2.(t := head), Both2(g1, g2, want), Bin(if want then AndOp else OrOp, x, y))
      && Kept(s1, s', g1.start)
  {
    var e' := if want then e2.(f := head) else e2.(t := head);
    var s', g', z := s.(code := code'), Both2(g1, g2, want), Bin(if want then AndOp else OrOp, x, y);
    hide Pending, Worth, Shape, Linked, IsList, Means, Kept, Joined, Fits;
    PendingMeans(s1, e1, g1, x, want, s, e2, g2, y);
    PendingLists(s1, e1, g1, x, want, s, e2, g2, y);
    PendingSame(s1, e1, g1, x, want, s, e2, g2, y);
    JoinedLinked(s1, e1, g1, x, want, s, e2, g2, y, code', head);
    JoinedRelinked(s1, e1, g1, x, want, s, e2, g2, y, code', head);
    JoinedBody(s1, g1, s, e2.k, g2, want, code');
    var fr, n := Joined(Whole(s1, g1), Body(s, e2.k, g2)), |s.code| - TailLen(e2.k);
    RelinkedLike(fr, code'[..n]);
    LikeMeans(fr, fr.(code := code'[..n]), e2.k, Tail(s, e2.k), z);
    WorthJoined(s, e2, g2, s', e', g', fr, n, z);
    JoinedPrefix(s1, s, s', g1, g2, want);
  }

  lemma PendingSame(s1: Snap, e1: ExpDesc, g1: Lists, x: Expr, want: bool, s: Snap, e2: ExpDesc, g2: Lists, y: Expr)
    requires Pending(s1, e1, g1, x, want, s, e2, g2, y)
    ensures (if want then g1.t == [] else g1.f == []) && g2.base == g1.base && g1.start <= g2.start
  {
  }

  lemma JoinedLinked(s1: Snap, e1: ExpDesc, g1: Lists, x: Expr, want: bool, s: Snap, e2: ExpDesc, g2: Lists, y: Expr,
      code': seq<Instr>, head: int)
    requires Pending(s1, e1, g1, x, want, s, e2, g2, y) && |code'| == |s.code|
    requires IsList(code', head, if want then g2.f + g1.f else g2.t + g1.t)
    requires forall p: nat :: p < |s.code| && p !in (if want then g2.f else g2.t) ==> code'[p] == s.code[p]
    ensures Linked(s.(code := code'), if want then e2.(f := head) else e2.(t := head), Both2(g1, g2, want))
  {
    hide Pending, IsList;
    PendingLists(s1, e1, g1, x, want, s, e2, g2, y);
    LinkedParts(s, e2, g2);
    var kept, moved := if want then g2.t else g2.f, if want then g2.f else g2.t;
    ApartElems(kept, moved);
    ApartElems(s.here, moved);
    ListFacts(s.code, s.jpc, s.here);
    ListFacts(s.code, if want then e2.t else e2.f, kept);
    ListKept(s.code, s.jpc, s.here, code');
    ListKept(s.code, if want then e2.t else e2.f, kept, code');
  }

  lemma JoinedRelinked(s1: Snap, e1: ExpDesc, g1: Lists, x: Expr, want: bool, s: Snap, e2: ExpDesc, g2: Lists, y: Expr,
      code': seq<Instr>, head: int)
    requires Pending(s1, e1, g1, x, want, s, e2, g2, y) && |code'| == |s.code|
    requires IsList(code', head, if want then g2.f + g1.f else g2.t + g1.t)
    requires forall p: nat :: p < |s.code| && p !in (if want then g2.f else g2.t) ==> code'[p] == s.code[p]
    ensures var fr, n := Joined(Whole(s1, g1), Body(s, e2.k, g2)), |s.code| - TailLen(e2.k);
      0 <= n && Relinked(fr, code'[..n]) && code'[n..] == Tail(s, e2.k)
  {
    hide Pending, IsList, Elems, Linked, Relinked, Joined, Body, Tail;
    PendingLists(s1, e1, g1, x, want, s, e2, g2, y);
    PendingSame(s1, e1, g1, x, want, s, e2, g2, y);
    LinkedParts(s, e2, g2);
    var fr, n := Joined(Whole(s1, g1), Body(s, e2.k, g2)), |s.code| - TailLen(e2.k);
    JoinedExits(s1, g1, s, e2.k, g2, want);
    assert code'[n..] == s.code[n..];
    if want {
      RelinkedPart(s.code, code', n, g2.f, g1.f, e2.f, head);
      RelinkedBy(fr, code'[..n], Elems(g2.f));
    } else {
      RelinkedPart(s.code, code', n, g2.t, g1.t, e2.t, head);
      RelinkedBy(fr, code'[..n], Elems(g2.t));
    }
  }

  lemma JoinedBody(s1: Snap, g1: Lists, s: Snap, k: Kind, g2: Lists, want: bool, code': seq<Instr>)
    requires TailLen(k) <= |s.code| == |code'| && (if want then g1.t == [] else g1.f == [])
    ensures Body(s.(code := code'), k, Both2(g1, g2, want))
      == Joined(Whole(s1, g1), Body(s, k, g2)).(code := code'[..|s.code| - TailLen(k)])
  {
    hide Elems;
    JoinedSets(g1, g2, want);
  }

  lemma RelinkedBy(fr: Frag, code': seq<Instr>, P: set<nat>)
    requires |code'| == |fr.code| && P <= fr.t + fr.f
    requires forall p: nat :: p < |code'| ==> code'[p] == fr.code[p] || (p in P && code'[p].Jmp? && fr.code[p].Jmp?)
    ensures Relinked(fr, code')
  {
  }

  lemma JoinedSets(g1: Lists, g2: Lists, want: bool)
    requires if want then g1.t == [] else g1.f == []
    ensures var g := Both2(g1, g2, want); Elems(g.t) == Elems(g1.t) + Elems(g2.t) && Elems(g.f) == Elems(g1.f) + Elems(g2.f)
  {
    DisjointElems(g2.f, g1.f);
    DisjointElems(g2.t, g1.t);
  }

  lemma JoinedExits(s1: Snap, g1: Lists, s: Snap, k: Kind, g2: Lists, want: bool)
    requires TailLen(k) <= |s.code|
    ensures var fr := Joined(Whole(s1, g1), Body(s, k, g2));
      Elems(if want then g2.f else g2.t) <= fr.t + fr.f && fr.code == s.code[..|s.code| - TailLen(k)]
    ensures Tail(s, k) == s.code[|s.code| - TailLen(k)..]
  {
  }

  // Code that differs in jumps of the list moved, which is the first part of a longer list now.
  lemma RelinkedPart(code: seq<Instr>, code': seq<Instr>, n: nat, moved: seq<nat>, more: seq<nat>, h: int, h': int)
    requires n <= |code| == |code'| && IsList(code, h, moved) && IsList(code', h', moved + more)
    requires forall p: nat :: p < |code| && p !in moved ==> code'[p] == code[p]
    ensures forall p: nat :: p < n ==>
      code'[..n][p] == code[..n][p] || (p in Elems(moved) && code'[..n][p].Jmp? && code[..n][p].Jmp?)
  {
    ListFacts(code, h, moved);
    ListFacts(code', h', moved + more);
    forall p: nat | p < n
      ensures code'[..n][p] == code[..n][p] || (p in Elems(moved) && code'[..n][p].Jmp? && code[..n][p].Jmp?)
    {
      assert p in moved ==> p in moved + more;
    }
  }

  lemma WorthJoined(s: Snap, e2: ExpDesc, g2: Lists, s': Snap, e': ExpDesc, g': Lists, fr: Frag, n: nat, z: Expr)
    requires TailLen(e2.k) <= |s.code| && n == |s.code| - TailLen(e2.k) && Fits(Body(s, e2.k, g2), e2.k, Tail(s, e2.k), s.nactvar)
    requires e'.k == e2.k && s' == s.(code := s'.code) && |s'.code| == |s.code| && Linked(s', e', g') && g'.base == g2.base
    requires Body(s', e2.k, g') == fr.(code := s'.code[..n]) && s'.code[n..] == Tail(s, e2.k)
    requires Shape(fr.(code := s'.code[..n])) && Means(fr.(code := s'.code[..n]), e2.k, Tail(s, e2.k), z)
    ensures Worth(s', e', g', z)
  {
    hide Shape, Linked, Means;
    assert Tail(s', e'.k) == Tail(s, e2.k);
  }

  lemma JoinedPrefix(s1: Snap, s: Snap, s': Snap, g1: Lists, g2: Lists, want: bool)
    requires Kept(s1, s, g1.start) && s' == s.(code := s'.code) && |s'.code| == |s.code| && g1.start <= g2.start
    requires forall p: nat :: p < |s.code| && p !in (if want then g2.f else g2.t) ==> s'.code[p] == s.code[p]
    requires forall j :: j in g2.t || j in g2.f ==> g2.start <= j
    ensures Kept(s1, s', g1.start)
  {
    if |s.code| == g1.start {
      assert s'.code == s.code;
    } else {
      assert s'.code[..g1.start] == s.code[..g1.start];
    }
  }

  lemma SecondOnTop(s1: Snap, e1: ExpDesc, g1: Lists, x: Expr, s: Snap, e2: ExpDesc, g2: Lists, y: Expr, s': Snap, e2': ExpDesc, g2': Lists)
    requires Operands(s1, e1, g1, x, s, e2, g2, y) && Plain(s', e2', g2', y) && g2'.base == g2.base && s'.nactvar == s.nactvar
    ensures e2'.k.VNonReloc? && e2'.k.r >= s'.nactvar ==> s'.freereg == e2'.k.r + 1 && e2'.k.r == g2.base
    ensures e1.k.VNonReloc? && e1.k.r >= s'.nactvar ==> g2.base == e1.k.r + 1 && e1.k.r == g1.base
    ensures !(e1.k.VNonReloc? && e1.k.r >= s'.nactvar) ==> g2.base == g1.base
    ensures s'.freereg == Top(e2'.k, g2.base, s'.nactvar)
  {
    hide Worth, Kept;
    OperandsFacts(s1, e1, g1, x, s, e2, g2, y);
    WorthReg(s', e2', g2', y);
  }

  lemma PendingReady(s1: Snap, e1: ExpDesc, g1: Lists, x: Expr, want: bool, s: Snap, e2: ExpDesc, g2: Lists, y: Expr)
    requires Pending(s1, e1, g1, x, want, s, e2, g2, y)
    ensures Ready(s, e2, g2, y) && g2.base == g1.base
  {
  }

  lemma PendingDischarged(s1: Snap, e1: ExpDesc, g1: Lists, x: Expr, want: bool, s: Snap, e2: ExpDesc, g2: Lists, y: Expr)
    requires Pending(s1, e1, g1, x, want, s, e2, g2, y)
    ensures Pending(s1, e1, g1, x, want, s, DischargeVars(e2), g2, y)
  {
    hide Worth, Kept, Branching, Scoped;
    DischargeVarsWorth(s, e2, g2, y);
  }

  lemma PendingApart(s1: Snap, e1: ExpDesc, g1: Lists, x: Expr, want: bool, s: Snap, e2: ExpDesc, g2: Lists, y: Expr)
    requires Pending(s1, e1, g1, x, want, s, e2, g2, y)
    ensures if want then Elems(g2.f) !! Elems(g1.f) else Elems(g2.t) !! Elems(g1.t)
  {
    hide Pending;
    PendingLists(s1, e1, g1, x, want, s, e2, g2, y);
  }
}
