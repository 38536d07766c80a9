// The state of the code generator as a value, and what its elementary changes do to an expression's code.
module CodeState {
  import opened Integers
  import opened Bytecode
  import opened CodeRuns
  import opened Expressions
  import opened CodeSteps
  import opened CodeOperators
  import opened CodeClosing
  import opened JumpLists

  // 'expdesc': t and f head the lists of its exit jumps.
  datatype ExpDesc = ExpDesc(k: Kind, t: int, f: int)

  // What the descriptor leaves implicit: the lists, where the code begins, the first register it may use.
  datatype Lists = Lists(t: seq<nat>, f: seq<nat>, start: nat, base: nat)

  // The state of the code generator; 'here' lists the jumps that 'jpc' heads.
  datatype Snap = Snap(code: seq<Instr>, jpc: int, here: seq<nat>, freereg: nat, nactvar: nat, ks: seq<Value>)

  function TailLen(k: Kind): nat {
    if k.VReloc? then 1 else if k.VJmp? then 2 else 0
  }

  function Cut(code: seq<Instr>, n: nat): nat { if n <= |code| then |code| - n else 0 }

  ghost function Body(s: Snap, k: Kind, g: Lists): Frag {
    Frag(s.code[..Cut(s.code, TailLen(k))], s.ks, Elems(g.t), Elems(g.f), Elems(s.here), g.start, g.base)
  }

  ghost function Tail(s: Snap, k: Kind): seq<Instr> { s.code[Cut(s.code, TailLen(k))..] }

  // All the code, without a tail.
  ghost function Whole(s: Snap, g: Lists): Frag {
    Frag(s.code, s.ks, Elems(g.t), Elems(g.f), Elems(s.here), g.start, g.base)
  }

  ghost predicate Linked(s: Snap, e: ExpDesc, g: Lists) {
    IsList(s.code, s.jpc, s.here) && IsList(s.code, e.t, g.t) && IsList(s.code, e.f, g.f)
  }

  // The descriptor stands for code that gives the value of x.
  ghost predicate Worth(s: Snap, e: ExpDesc, g: Lists, x: Expr) {
    && TailLen(e.k) <= |s.code| && Linked(s, e, g) && Fits(Body(s, e.k, g), e.k, Tail(s, e.k), s.nactvar)
    && Means(Body(s, e.k, g), e.k, Tail(s, e.k), x)
  }

  // All code puts the value of x into reg, or leaves by a listed jump.
  ghost predicate Filled(s: Snap, e: ExpDesc, g: Lists, reg: nat, x: Expr) {
    Linked(s, e, g) && Shape(Whole(s, g)) && s.nactvar <= g.base && Fills(Whole(s, g), reg, x)
  }

  // All code reaches its end just when x is as wanted; the other outcome leaves by a listed jump.
  ghost predicate Branching(s: Snap, e: ExpDesc, g: Lists, x: Expr, want: bool) {
    && Linked(s, e, g) && Shape(Whole(s, g)) && s.nactvar <= g.base && Branches(Whole(s, g), x, want)
    && (if want then g.t == [] else g.f == [])
  }

  // Code before 'start' is only changed where it had jumps pending.
  ghost predicate Kept(s: Snap, s': Snap, start: nat) {
    && start <= |s.code| && start <= |s'.code| && s.ks <= s'.ks && s'.nactvar == s.nactvar
    && if |s'.code| == start then s'.code == s.code && s'.here == s.here && s'.jpc == s.jpc
       else
         && s'.code[..start] == (if |s.code| == start then Discharged(s.code, Elems(s.here)) else s.code[..start])
         && forall j :: j in s'.here ==> start <= j
  }

  lemma KeptRefl(s: Snap, start: nat)
    requires start <= |s.code| && (|s.code| > start ==> forall j :: j in s.here ==> start <= j)
    ensures Kept(s, s, start)
  {
  }

  lemma KeptTrans(a: Snap, b: Snap, c: Snap, start: nat)
    requires Kept(a, b, start) && Kept(b, c, start)
    ensures Kept(a, c, start)
  {
  }

  // Only the registers and the descriptor changed.
  lemma WorthFree(s: Snap, s': Snap, e: ExpDesc, g: Lists, x: Expr)
    requires Worth(s, e, g, x) && s' == s.(freereg := s'.freereg)
    ensures Worth(s', e, g, x)
  {
  }

  lemma WorthKept(s: Snap, e: ExpDesc, g: Lists, x: Expr)
    requires Worth(s, e, g, x)
    ensures g.start <= |s.code| && (|s.code| > g.start ==> forall j :: j in s.here ==> g.start <= j) && s.nactvar <= g.base
  {
    forall j | j in s.here && |s.code| > g.start ensures g.start <= j { assert j in Elems(s.here); }
  }

  lemma WholeBody(s: Snap, k: Kind, g: Lists)
    requires TailLen(k) == 0
    ensures Body(s, k, g) == Whole(s, g) && Tail(s, k) == []
  {
  }

  // ---- constants ----

  lemma MoreConstants(s: Snap, ks': seq<Value>, e: ExpDesc, g: Lists, x: Expr)
    requires Worth(s, e, g, x) && s.ks <= ks'
    ensures Worth(s.(ks := ks'), e, g, x)
  {
    var fr, fr' := Body(s, e.k, g), Body(s.(ks := ks'), e.k, g);
    assert fr' == fr.(ks := ks');
    assert Like(fr, fr');
    LikeMeans(fr, fr', e.k, Tail(s, e.k), x);
  }

  // ---- one instruction more ----

  // 'luaK_code'.
  ghost function Emit(s: Snap, i: Instr): Snap {
    s.(code := Discharged(s.code, Elems(s.here)) + [i], jpc := NO_JUMP, here := [])
  }

  lemma DischargedList(code: seq<Instr>, head: int, L: seq<nat>, H: set<nat>, more: seq<Instr>)
    requires IsList(code, head, L) && Elems(L) !! H
    ensures IsList(Discharged(code, H) + more, head, L)
  {
    ListFacts(code, head, L);
    forall j | j in L ensures (Discharged(code, H) + more)[j] == code[j] {
      assert j in Elems(L);
      PatchedJump(code, H, NO_REG, |code|, |code|, j);
    }
    ListKept(code, head, L, Discharged(code, H) + more);
  }

  lemma DischargedKept(s: Snap, s': Snap, g: Lists)
    requires Shape(Whole(s, g)) && |s'.code| > |s.code| && s'.code[..|s.code|] == Discharged(s.code, Elems(s.here))
    requires s.ks <= s'.ks && s'.nactvar == s.nactvar && (forall j :: j in s'.here ==> |s.code| <= j)
    ensures Kept(s, s', g.start)
  {
    var D := Discharged(s.code, Elems(s.here));
    if |s.code| > g.start {
      assert s'.code[..g.start] == s.code[..g.start] by {
        forall p | 0 <= p < g.start ensures D[p] == s.code[p] {
          assert p !in Elems(s.here);
          if p + 1 in Elems(s.here) { assert p + 1 == g.start && Entry(s.code, g.start); }
        }
        assert s'.code[..g.start] == s'.code[..|s.code|][..g.start];
      }
    } else {
      assert s'.code[..g.start] == D;
    }
  }

  // The lists stay linked, and code is kept, while the pending jumps are settled.
  lemma EmitLinked(s: Snap, e: ExpDesc, g: Lists, i: Instr)
    requires Linked(s, e, g) && Shape(Whole(s, g))
    ensures Linked(Emit(s, i), e, g) && Kept(s, Emit(s, i), g.start)
    ensures Whole(Emit(s, i), g) == With(Settled(Whole(s, g)), [i])
  {
    JumpsInside(Whole(s, g));
    DischargedList(s.code, e.t, g.t, Elems(s.here), [i]);
    DischargedList(s.code, e.f, g.f, Elems(s.here), [i]);
    assert Emit(s, i).code[..|s.code|] == Discharged(s.code, Elems(s.here));
    DischargedKept(s, Emit(s, i), g);
    assert Elems([]) == {};
  }

  lemma EmitFilled(s: Snap, e: ExpDesc, g: Lists, x: Expr, i: Instr)
    requires Worth(s, e, g, x) && TailLen(e.k) == 0 && Gives(i) && Computes(i, e.k, [], s.ks)
    ensures Filled(Emit(s, i), e, g, i.a, x) && Kept(s, Emit(s, i), g.start)
  {
    var fr := Whole(s, g);
    WholeBody(s, e.k, g);
    EmitLinked(s, e, g, i);
    SettledShape(fr);
    SettledLike(fr);
    LikeMeans(fr, Settled(fr), e.k, [], x);
    WithOneShape(Settled(fr), i);
    InstrFills(Settled(fr), i, e.k, [], x);
  }

  // 'SETARG_A' on the instruction of a relocatable expression.
  function Retarget(i: Instr, reg: nat): Instr
    requires i.Arith? || i.Unary? || i.Not?
  {
    match i
    case Arith(_, op, b, c) => Arith(reg, op, b, c)
    case Unary(_, op, b) => Unary(reg, op, b)
    case Not(_, b) => Not(reg, b)
  }

  lemma SomeElems(L: seq<nat>)
    requires L != []
    ensures Elems(L) != {}
  {
    assert L[0] in Elems(L);
  }

  lemma NoElems(L: seq<nat>)
    requires Elems(L) == {}
    ensures L == []
  {
    if L != [] { SomeElems(L); }
  }

  lemma RelocFilled(s: Snap, e: ExpDesc, g: Lists, x: Expr, reg: nat)
    requires Worth(s, e, g, x) && e.k.VReloc?
    ensures var i := s.code[|s.code| - 1];
      && (i.Arith? || i.Unary? || i.Not?)
      && var s' := s.(code := s.code[|s.code| - 1 := Retarget(i, reg)]);
      Filled(s', e, g, reg, x) && Kept(s, s', g.start) && s.here == []
  {
    var fr, n := Body(s, e.k, g), |s.code| - 1;
    var i := s.code[n];
    assert Tail(s, e.k) == [i];
    NoElems(s.here);
    var i' := Retarget(i, reg);
    var s' := s.(code := s.code[n := i']);
    assert s'.code == fr.code + [i'];
    WithOneShape(fr, i');
    InstrFills(fr, i', e.k, [i], x);
    assert Whole(s', g) == With(fr, [i']);
    RelocLists(s, e, g, s');
    assert fr.start <= |fr.code|;
    assert s'.code[..g.start] == s.code[..g.start];
  }

  lemma RelocLists(s: Snap, e: ExpDesc, g: Lists, s': Snap)
    requires Linked(s, e, g) && Shape(Body(s, e.k, g)) && e.k.VReloc? && |s.code| > 0 && s.here == s'.here == [] && s'.jpc == s.jpc
    requires |s'.code| == |s.code| && s'.code[..|s.code| - 1] == s.code[..|s.code| - 1]
    ensures Linked(s', e, g)
  {
    JumpsInside(Body(s, e.k, g));
    forall j | j in g.t + g.f ensures s'.code[j] == s.code[j] && j < |s.code| {
      assert j in Elems(g.t) + Elems(g.f);
      assert s'.code[j] == s'.code[..|s.code| - 1][j] && s.code[j] == s.code[..|s.code| - 1][j];
    }
    ListKept(s.code, e.t, g.t, s'.code);
    ListKept(s.code, e.f, g.f, s'.code);
  }

  // The value is in the register already.
  lemma HeldFilled(s: Snap, e: ExpDesc, g: Lists, x: Expr)
    requires Worth(s, e, g, x) && e.k.VNonReloc?
    ensures Filled(s, e, g, e.k.r, x)
  {
    WholeBody(s, e.k, g);
    HeldFills(Whole(s, g), e.k.r, x);
  }

  lemma FilledWorth(s: Snap, e: ExpDesc, g: Lists, x: Expr)
    requires Filled(s, e, g, g.base, x)
    ensures Worth(s, e.(k := VNonReloc(g.base)), g, x)
  {
    WholeBody(s, VNonReloc(g.base), g);
    FillsMeans(Whole(s, g), g.base, x);
  }

  // 'luaK_dischargevars': a local variable is a value in its register.
  function DischargeVars(e: ExpDesc): ExpDesc {
    if e.k.VLocal? then e.(k := VNonReloc(e.k.r)) else e
  }

  lemma DischargeVarsWorth(s: Snap, e: ExpDesc, g: Lists, x: Expr)
    requires Worth(s, e, g, x)
    ensures Worth(s, DischargeVars(e), g, x) && !DischargeVars(e).k.VLocal?
    ensures Top(DischargeVars(e).k, g.base, s.nactvar) == Top(e.k, g.base, s.nactvar)
  {
    hide Shape, Linked, Means, Worth;
    if e.k.VLocal? {
      WorthShape(s, e, g, x);
      LocalRegister(s, e, g, x);
      SameEndMeans(Whole(s, g), e.k, VNonReloc(e.k.r), x);
      WorthIntro(s, e.(k := VNonReloc(e.k.r)), g, x);
    }
  }

  lemma LocalRegister(s: Snap, e: ExpDesc, g: Lists, x: Expr)
    requires Worth(s, e, g, x)
    ensures e.k.VLocal? ==> e.k.r < s.nactvar
  {
  }

  lemma WorthIntro(s: Snap, e: ExpDesc, g: Lists, x: Expr)
    requires TailLen(e.k) == 0 && Linked(s, e, g) && Fits(Whole(s, g), e.k, [], s.nactvar) && Means(Whole(s, g), e.k, [], x)
    ensures Worth(s, e, g, x)
  {
    WholeBody(s, e.k, g);
  }

  lemma SameEndMeans(fr: Frag, k: Kind, k': Kind, x: Expr)
    requires TailOk(k, []) && TailOk(k', []) && Means(fr, k, [], x)
    requires forall ks, rs :: More(fr.ks, ks) ==> EndValue(k', [], ks, rs) == EndValue(k, [], ks, rs)
    ensures Means(fr, k', [], x)
  {
    hide Run, Right, Eval, EndValue, TailOk;
    forall ks, rs | More(fr.ks, ks) ensures MeansAt(fr, k', [], x, ks, rs) {
      assert MeansAt(fr, k, [], x, ks, rs);
      var o := Run(fr, ks, rs);
      if o.End? { assert EndValue(k', [], ks, o.rs) == EndValue(k, [], ks, o.rs); }
    }
  }

  // ---- tests and branches ----

  // 'condjump': a test and its jump, which is not in a list yet.
  ghost function EmitTest(s: Snap, test: Instr): Snap {
    s.(code := Discharged(s.code, Elems(s.here)) + [test, Jmp(NO_JUMP)], jpc := NO_JUMP, here := [])
  }

  ghost predicate TestReady(test: Instr) { IsTest(test) && (test.TestSet? ==> test.t == NO_REG) }

  lemma EmitTestLinked(s: Snap, e: ExpDesc, g: Lists, test: Instr)
    requires Linked(s, e, g) && Shape(Whole(s, g)) && TestReady(test)
    ensures Linked(EmitTest(s, test), e, g) && IsList(EmitTest(s, test).code, |s.code| + 1, [|s.code| + 1])
    ensures Kept(s, EmitTest(s, test), g.start)
    ensures |s.code| + 1 !in g.t && |s.code| + 1 !in g.f
  {
    JumpsInside(Whole(s, g));
    DischargedList(s.code, e.t, g.t, Elems(s.here), [test, Jmp(NO_JUMP)]);
    DischargedList(s.code, e.f, g.f, Elems(s.here), [test, Jmp(NO_JUMP)]);
    assert EmitTest(s, test).code[..|s.code|] == Discharged(s.code, Elems(s.here));
    DischargedKept(s, EmitTest(s, test), g);
    assert |s.code| + 1 !in Elems(g.t) + Elems(g.f);
  }

  // s' holds code like that of fr, with the same lists up to links.
  ghost predicate Represents(s: Snap, g: Lists, fr: Frag) {
    && Relinked(fr, s.code) && fr.t == Elems(g.t) && fr.f == Elems(g.f) && fr.here == Elems(s.here)
    && fr.ks == s.ks && fr.start == g.start && fr.base == g.base
  }

  lemma RepresentsBranching(s: Snap, e: ExpDesc, g: Lists, fr: Frag, x: Expr, want: bool)
    requires Linked(s, e, g) && Represents(s, g, fr) && Shape(fr) && Branches(fr, x, want) && s.nactvar <= g.base
    requires if want then g.t == [] else g.f == []
    ensures Branching(s, e, g, x, want)
  {
    assert Whole(s, g) == fr.(code := s.code);
    RelinkedLike(fr, s.code);
    LikeBranches(fr, fr.(code := s.code), x, want);
  }

  // The tested code, as a fragment.
  lemma TestedBranches(s: Snap, e: ExpDesc, g: Lists, x: Expr, test: Instr, want: bool)
    requires Worth(s, e, g, x) && TailLen(e.k) == 0 && TestReady(test) && Tests(test, want, e.k, [], s.ks)
    ensures var fr := WithTest(Settled(Whole(s, g)), test, want);
      Shape(fr) && Branches(fr, x, want) && fr.code == EmitTest(s, test).code && fr.here == {}
  {
    var fr := Whole(s, g);
    WholeBody(s, e.k, g);
    SettledShape(fr);
    SettledLike(fr);
    LikeMeans(fr, Settled(fr), e.k, [], x);
    WithTestShape(Settled(fr), test, want);
    TestBranches(Settled(fr), test, want, e.k, [], x);
  }

  // The same, where the descriptor has a tail that the test replaces.
  lemma TailTested(s: Snap, e: ExpDesc, g: Lists, x: Expr, test: Instr, want: bool)
    requires Worth(s, e, g, x) && TailLen(e.k) > 0 && TestReady(test) && Tests(test, want, e.k, Tail(s, e.k), s.ks)
    ensures var fr := WithTest(Body(s, e.k, g), test, want);
      Shape(fr) && Branches(fr, x, want) && fr.here == {} && s.here == []
  {
    var fr := Body(s, e.k, g);
    NoElems(s.here);
    WithTestShape(fr, test, want);
    TestBranches(fr, test, want, e.k, Tail(s, e.k), x);
  }

  // Jumps of the wanted outcome now go to the end.
  lemma HereBranches(fr: Frag, x: Expr, want: bool)
    requires Shape(fr) && Branches(fr, x, want)
    ensures Shape(ToHere(fr, want)) && Branches(ToHere(fr, want), x, want)
  {
    ToHereShape(fr, want);
    ToHereBranches(fr, x, want);
  }

  lemma LinkedOfWorth(s: Snap, e: ExpDesc, g: Lists, x: Expr)
    requires Worth(s, e, g, x)
    ensures Linked(s, e, g) && TailOk(e.k, Tail(s, e.k)) && IsList(s.code, s.jpc, s.here) && TailLen(e.k) <= |s.code|
  {
  }

  lemma FilledKind(s: Snap, e: ExpDesc, e': ExpDesc, g: Lists, reg: nat, x: Expr)
    requires Filled(s, e, g, reg, x) && e'.t == e.t && e'.f == e.f
    ensures Filled(s, e', g, reg, x)
  {
  }

  lemma MoreKept(s: Snap, ks': seq<Value>, s1: Snap, s2: Snap, e: ExpDesc, g: Lists, x: Expr)
    requires Worth(s, e, g, x) && s.ks <= ks' && s1 == s.(ks := ks') && Kept(s1, s2, g.start)
    ensures Kept(s, s2, g.start)
  {
  }

  // ---- closing all exits of an expression ----

  lemma RepresentsFilled(s: Snap, e: ExpDesc, g: Lists, fr: Frag, reg: nat, x: Expr)
    requires Linked(s, e, g) && Represents(s, g, fr) && Shape(fr) && Fills(fr, reg, x) && s.nactvar <= g.base
    ensures Filled(s, e, g, reg, x)
  {
    assert Whole(s, g) == fr.(code := s.code);
    RelinkedLike(fr, s.code);
    LikeFills(fr, fr.(code := s.code), reg, x);
  }

  // Loads at the end, after all exits.
  ghost predicate Loaded(s: Snap, g: Lists, reg: nat) {
    EndsWithLoads(s.code, reg) && forall j :: j in g.t || j in g.f ==> j < |s.code| - 2
  }

  // A comparison at the end of the code.
  lemma ComparisonFacts(s: Snap, e: ExpDesc, g: Lists, x: Expr)
    requires Worth(s, e, g, x) && e.k.VJmp?
    ensures var fr, tail := Body(s, e.k, g), Tail(s, e.k);
      && s.code == fr.code + tail && |tail| == 2 && tail[0].Cmp? && tail[1] == Jmp(NO_JUMP) && TailOk(e.k, tail)
      && e.k.pc == |fr.code| + 1 && fr.here == {} && s.here == [] && Shape(fr) && Means(fr, e.k, tail, x) && s.nactvar <= g.base
    ensures forall j :: j in g.t || j in g.f ==> g.start <= j < |s.code| - 2 && s.code[j].Jmp?
    ensures e.k.pc == |s.code| - 1 && g.start <= |s.code| - 2
  {
    NoElems(s.here);
    JumpsBefore(Body(s, e.k, g), g);
    ListFacts(s.code, e.t, g.t);
    ListFacts(s.code, e.f, g.f);
  }

  // The state after its jump joined the true exits, and the loads were added.
  ghost predicate JumpThenLoads(s: Snap, e: ExpDesc, g: Lists, reg: nat, s': Snap, e': ExpDesc, g': Lists) {
    && e.k.VJmp? && g' == g.(t := g.t + [e.k.pc]) && Linked(s', e', g')
    && |s'.code| == |s.code| + 2 && s'.code[|s.code|..] == Loads(reg) && s'.here == [] && s'.ks == s.ks && s'.nactvar == s.nactvar
    && forall p: nat :: p < |s.code| && p !in g.t ==> s'.code[p] == s.code[p]
  }

  lemma JumpLoadedRepresents(s: Snap, e: ExpDesc, g: Lists, x: Expr, reg: nat, s': Snap, e': ExpDesc, g': Lists)
    requires Worth(s, e, g, x) && JumpThenLoads(s, e, g, reg, s', e', g')
    ensures Represents(s', g', JumpLoaded(Body(s, e.k, g), s.code[|s.code| - 2], reg))
  {
    hide Worth, Shape, Means, IsList, Loads, Relinked, TailOk;
    ComparisonFacts(s, e, g, x);
    ElemsAppend(g.t, e.k.pc);
    ListFacts(s'.code, e'.t, g'.t);
    forall j | j in g.t ensures s'.code[j].Jmp? && j < |s'.code| { assert j in g'.t; }
    var fr, tail := Body(s, e.k, g), Tail(s, e.k);
    var fr' := JumpLoaded(fr, tail[0], reg);
    assert tail == [tail[0], Jmp(NO_JUMP)];
    assert fr'.code == s.code + Loads(reg);
    assert s.code[|s.code| - 2..] == tail;
    LoadedRelinked(s, g, s', fr', tail, reg);
    assert Elems([]) == {};
  }

  lemma JumpLoadedState(s: Snap, e: ExpDesc, g: Lists, x: Expr, reg: nat, s': Snap, e': ExpDesc, g': Lists)
    requires Worth(s, e, g, x) && JumpThenLoads(s, e, g, reg, s', e', g')
    ensures Filled(s', e', g', reg, x) && Loaded(s', g', reg) && Kept(s, s', g.start)
  {
    hide Worth, Filled, Shape, Means, Represents, Linked, TailOk;
    ComparisonFacts(s, e, g, x);
    JumpLoadedRepresents(s, e, g, x, reg, s', e', g');
    var fr, tail := Body(s, e.k, g), Tail(s, e.k);
    JumpLoadedShape(fr, tail[0], reg);
    JumpLoadedFills(fr, e.k, tail, reg, x);
    RepresentsFilled(s', e', g', JumpLoaded(fr, tail[0], reg), reg, x);
    assert s'.code[|s'.code| - 2..] == s'.code[|s.code|..];
    assert s'.code[..g.start] == s.code[..g.start];
  }

  lemma JumpsBefore(fr: Frag, g: Lists)
    requires Shape(fr) && fr.t == Elems(g.t) && fr.f == Elems(g.f) && fr.start == g.start
    ensures forall j :: j in g.t || j in g.f ==> g.start <= j < |fr.code|
  {
    forall j | j in g.t || j in g.f ensures g.start <= j < |fr.code| { assert j in fr.t + fr.f; }
  }

  lemma ElemsAppend(L: seq<nat>, j: nat)
    ensures Elems(L + [j]) == Elems(L) + {j}
  {
  }

  lemma LoadedRelinked(s: Snap, g: Lists, s': Snap, fr': Frag, tail: seq<Instr>, reg: nat)
    requires |tail| == 2 && tail[1] == Jmp(NO_JUMP) && |s.code| >= 2 && s.code[|s.code| - 2..] == tail
    requires |s'.code| == |s.code| + 2 && s'.code[|s.code|..] == Loads(reg)
    requires fr'.code == s.code + Loads(reg) && fr'.t >= Elems(g.t) && fr'.ks == s.ks
    requires forall p: nat :: p < |s.code| && p !in g.t ==> s'.code[p] == s.code[p]
    requires forall j :: j in g.t ==> j < |s.code| && s'.code[j].Jmp? && s.code[j].Jmp?
    ensures Relinked(fr', s'.code)
  {
    forall p: nat | p < |s'.code|
      ensures s'.code[p] == fr'.code[p] || ((p in fr'.t + fr'.f || p in fr'.here) && s'.code[p].Jmp? && fr'.code[p].Jmp?)
    {
      if p >= |s.code| {
        assert s'.code[p] == s'.code[|s.code|..][p - |s.code|];
      } else if p in g.t {
        assert p in Elems(g.t);
      }
    }
  }

  lemma FilledFacts(s: Snap, e: ExpDesc, g: Lists, reg: nat, x: Expr)
    requires Filled(s, e, g, reg, x)
    ensures Linked(s, e, g) && Shape(Whole(s, g)) && s.nactvar <= g.base && g.start <= |s.code|
    ensures forall j :: j in g.t || j in g.f ==> g.start <= j < |s.code| && s.code[j].Jmp? && j !in s.here
    ensures forall j :: j in s.here ==> j < |s.code| && s.code[j].Jmp? && (|s.code| > g.start ==> g.start <= j)
  {
    JumpsBefore(Whole(s, g), g);
    ListFacts(s.code, e.t, g.t);
    ListFacts(s.code, e.f, g.f);
    ListFacts(s.code, s.jpc, s.here);
    forall j | j in s.here && |s.code| > g.start ensures g.start <= j { assert j in Elems(s.here); }
    forall j | j in g.t || j in g.f ensures j !in s.here {
      assert j in Whole(s, g).t + Whole(s, g).f;
      assert j in s.here ==> j in Whole(s, g).here;
    }
  }

  // A jump over the loads was added, with the pending jumps on hold, and then left pending.
  ghost predicate HeldThenLoads(s: Snap, e: ExpDesc, g: Lists, reg: nat, s': Snap) {
    && |s'.code| == |s.code| + 3 && s'.code[|s.code| + 1..] == Loads(reg) && s'.code[|s.code|].Jmp?
    && (forall p: nat :: p < |s.code| && p !in s.here ==> s'.code[p] == s.code[p])
    && IsList(s'.code, s'.jpc, s'.here) && s'.here == [|s.code|] + s.here && s'.ks == s.ks && s'.nactvar == s.nactvar
  }

  lemma HeldLinked(s: Snap, e: ExpDesc, g: Lists, reg: nat, x: Expr, s': Snap)
    requires Filled(s, e, g, reg, x) && HeldThenLoads(s, e, g, reg, s')
    ensures Linked(s', e, g)
  {
    FilledFacts(s, e, g, reg, x);
    ListKept(s.code, e.t, g.t, s'.code);
    ListKept(s.code, e.f, g.f, s'.code);
  }

  lemma HeldRepresents(s: Snap, e: ExpDesc, g: Lists, reg: nat, x: Expr, s': Snap)
    requires Filled(s, e, g, reg, x) && HeldThenLoads(s, e, g, reg, s')
    ensures Represents(s', g, HeldLoaded(Whole(s, g), s'.code[|s.code|].s, reg))
  {
    hide Filled, Shape, Linked, IsList, Loads;
    var fr, n := Whole(s, g), |s.code|;
    var fr' := HeldLoaded(fr, s'.code[n].s, reg);
    FilledFacts(s, e, g, reg, x);
    HeldHere(s.here, n);
    HeldJumps(s, s', reg);
    forall p: nat | p < |s'.code|
      ensures s'.code[p] == fr'.code[p] || (p in fr'.here && s'.code[p].Jmp? && fr'.code[p].Jmp?)
    {
      if p > n {
        assert s'.code[p] == s'.code[n + 1..][p - (n + 1)];
        assert fr'.code[n + 1..] == Loads(reg);
        assert fr'.code[p] == fr'.code[n + 1..][p - (n + 1)];
      } else if p < n {
        assert p in s.here ==> p in fr'.here;
      }
    }
  }

  lemma HeldHere(here: seq<nat>, n: nat)
    ensures Elems([n] + here) == Elems(here) + {n} && forall p :: p in here ==> p in Elems(here)
  {
  }

  lemma HeldJumps(s: Snap, s': Snap, reg: nat)
    requires s'.here == [|s.code|] + s.here && IsList(s'.code, s'.jpc, s'.here)
    ensures forall p :: p in s.here ==> p < |s'.code| && s'.code[p].Jmp?
  {
    ListFacts(s'.code, s'.jpc, s'.here);
    assert forall p :: p in s.here ==> p in s'.here;
  }

  lemma HeldEnds(s: Snap, e: ExpDesc, g: Lists, reg: nat, x: Expr, s': Snap)
    requires Filled(s, e, g, reg, x) && HeldThenLoads(s, e, g, reg, s') && |s.code| > g.start
    ensures Loaded(s', g, reg) && Kept(s, s', g.start) && forall j :: j in Whole(s, g).here ==> g.start <= j
  {
    hide Filled, Shape, Linked, IsList;
    FilledFacts(s, e, g, reg, x);
    assert s'.code[|s'.code| - 2..] == s'.code[|s.code| + 1..];
    assert s'.code[..g.start] == s.code[..g.start];
  }

  lemma HeldLoadedState(s: Snap, e: ExpDesc, g: Lists, reg: nat, x: Expr, s': Snap)
    requires Filled(s, e, g, reg, x) && HeldThenLoads(s, e, g, reg, s') && |s.code| > g.start
    ensures Filled(s', e, g, reg, x) && Loaded(s', g, reg) && Kept(s, s', g.start)
  {
    hide Filled, Shape, Linked, IsList, Represents, Fills, Loaded, Kept;
    var fr, sj := Whole(s, g), s'.code[|s.code|].s;
    HeldEnds(s, e, g, reg, x, s');
    HeldLinked(s, e, g, reg, x, s');
    HeldRepresents(s, e, g, reg, x, s');
    FilledFacts(s, e, g, reg, x);
    FillsOfFilled(s, e, g, reg, x);
    HeldLoadedShape(fr, sj, reg);
    HeldLoadedFills(fr, sj, reg, x);
    RepresentsFilled(s', e, g, HeldLoaded(fr, sj, reg), reg, x);
  }

  lemma FillsOfFilled(s: Snap, e: ExpDesc, g: Lists, reg: nat, x: Expr)
    requires Filled(s, e, g, reg, x)
    ensures Fills(Whole(s, g), reg, x)
  {
  }

  // Patching the exits of one truth value.
  lemma PatchedState(s: Snap, e: ExpDesc, g: Lists, reg: nat, x: Expr, truth: bool, dt: int)
    requires Filled(s, e, g, reg, x) && CanPatch(Whole(s, g), truth, reg, dt)
    ensures var L := if truth then g.t else g.f;
      var s' := s.(code := Patched(s.code, Elems(L), reg, |s.code|, dt));
      var e', g' := if truth then e.(t := NO_JUMP) else e.(f := NO_JUMP), if truth then g.(t := []) else g.(f := []);
      Filled(s', e', g', reg, x) && Kept(s, s', g.start) && (Loaded(s, g, reg) ==> Loaded(s', g', reg))
  {
    var L := if truth then g.t else g.f;
    var fr, s' := Whole(s, g), s.(code := Patched(s.code, Elems(L), reg, |s.code|, dt));
    var g' := if truth then g.(t := []) else g.(f := []);
    FilledFacts(s, e, g, reg, x);
    PatchedExitsShape(fr, truth, reg, dt);
    PatchedExitsFills(fr, truth, reg, dt, x);
    assert Elems([]) == {};
    assert Whole(s', g') == PatchedExits(fr, truth, reg, dt);
    PatchedLinked(s, e, g, reg, x, truth, dt);
    PatchedPrefix(s, e, g, reg, x, truth, dt);
    if Loaded(s, g, reg) {
      assert forall j :: j in Elems(L) ==> j < |s.code| - 2;
      LoadsStay(s.code, Elems(L), reg, dt);
    }
  }

  lemma PatchedLinked(s: Snap, e: ExpDesc, g: Lists, reg: nat, x: Expr, truth: bool, dt: int)
    requires Filled(s, e, g, reg, x)
    ensures var L := if truth then g.t else g.f;
      var s' := s.(code := Patched(s.code, Elems(L), reg, |s.code|, dt));
      Linked(s', if truth then e.(t := NO_JUMP) else e.(f := NO_JUMP), if truth then g.(t := []) else g.(f := []))
  {
    var L, M := if truth then g.t else g.f, if truth then g.f else g.t;
    var code' := Patched(s.code, Elems(L), reg, |s.code|, dt);
    FilledFacts(s, e, g, reg, x);
    JumpsInside(Whole(s, g));
    forall j | j in M || j in s.here ensures code'[j] == s.code[j] {
      assert j in M ==> j in Elems(M);
      PatchedJump(s.code, Elems(L), reg, |s.code|, dt, j);
    }
    ListKept(s.code, s.jpc, s.here, code');
    ListKept(s.code, if truth then e.f else e.t, M, code');
  }

  lemma PatchedPrefix(s: Snap, e: ExpDesc, g: Lists, reg: nat, x: Expr, truth: bool, dt: int)
    requires Filled(s, e, g, reg, x)
    ensures Kept(s, s.(code := Patched(s.code, Elems(if truth then g.t else g.f), reg, |s.code|, dt)), g.start)
  {
    hide Filled, Shape, Linked, Patched;
    var P := Elems(if truth then g.t else g.f);
    var code' := Patched(s.code, P, reg, |s.code|, dt);
    FilledFacts(s, e, g, reg, x);
    StartsAtEntry(Whole(s, g));
    forall p | 0 <= p < |s.code| && (p < g.start || |s.code| == g.start) ensures code'[p] == s.code[p] {
      assert p + 1 in P ==> p + 1 == g.start;
      UnpatchedBefore(s.code, P, reg, |s.code|, dt, p);
    }
    assert code'[..g.start] == s.code[..g.start];
    assert |s.code| == g.start ==> code' == s.code;
  }

  lemma StartsAtEntry(fr: Frag)
    requires Shape(fr)
    ensures Entry(fr.code, fr.start)
  {
  }

  lemma UnpatchedBefore(code: seq<Instr>, P: set<nat>, reg: int, vt: int, dt: int, p: nat)
    requires p < |code| && p !in P && (p + 1 in P ==> !code[p].TestSet?)
    ensures Patched(code, P, reg, vt, dt)[p] == code[p]
  {
  }

  lemma ComparisonList(code: seq<Instr>, pc: nat, L: seq<nat>)
    requires pc < |code| && code[pc] == Jmp(NO_JUMP) && pc !in L
    ensures IsList(code, pc, [pc]) && Elems(L) !! Elems([pc])
  {
  }

  // Only true exits were linked anew.
  lemma OtherList(s: Snap, e: ExpDesc, g: Lists, x: Expr, code': seq<Instr>)
    requires Worth(s, e, g, x) && |s.code| <= |code'|
    requires forall p: nat :: p < |s.code| && p !in g.t ==> code'[p] == s.code[p]
    ensures IsList(code', e.f, g.f)
  {
    JumpsInside(Body(s, e.k, g));
    ListFacts(s.code, e.f, g.f);
    forall j | j in g.f ensures j !in g.t { assert j in Elems(g.f); assert j in g.t ==> j in Elems(g.t); }
    ListKept(s.code, e.f, g.f, code');
  }

  lemma LinkedParts(s: Snap, e: ExpDesc, g: Lists)
    requires Linked(s, e, g)
    ensures IsList(s.code, s.jpc, s.here) && IsList(s.code, e.t, g.t) && IsList(s.code, e.f, g.f)
  {
  }

  // Without a difference between the heads there are no exits.
  lemma NoExits(s: Snap, e: ExpDesc, g: Lists, reg: nat, x: Expr)
    requires Filled(s, e, g, reg, x) && e.t == e.f
    ensures e.t == e.f == NO_JUMP && g == Lists([], [], g.start, g.base)
  {
    JumpsInside(Whole(s, g));
    if g.t != [] && g.f != [] { DisjointHeads(g.t, g.f); }
  }

  lemma DisjointHeads(L: seq<nat>, M: seq<nat>)
    requires L != [] && M != [] && Elems(L) !! Elems(M)
    ensures L[0] != M[0]
  {
    assert L[0] in Elems(L) && M[0] in Elems(M);
  }

  // Either all exits have their value in a register, or pf and pt are the loads.
  ghost predicate ExitsReady(s: Snap, g: Lists, reg: nat, pf: int, pt: int) {
    || (forall j :: j in g.t || j in g.f ==> TestSetAt(s.code, j))
    || (Loaded(s, g, reg) && pf == |s.code| - 2 && pt == |s.code| - 1)
  }

  lemma PatchReady(s: Snap, e: ExpDesc, g: Lists, reg: nat, x: Expr, pf: int, pt: int)
    requires Filled(s, e, g, reg, x)
    requires ExitsReady(s, g, reg, pf, pt)
    ensures CanPatch(Whole(s, g), false, reg, pf)
  {
    assert forall j :: j in Elems(g.f) ==> j in g.f;
  }

  lemma PatchReadyToo(s: Snap, e: ExpDesc, g: Lists, reg: nat, x: Expr, pf: int, pt: int)
    requires Filled(s, e, g, reg, x)
    requires ExitsReady(s, g, reg, pf, pt)
    ensures var s' := s.(code := Patched(s.code, Elems(g.f), reg, |s.code|, pf));
      CanPatch(Whole(s', g.(f := [])), true, reg, pt)
  {
    PatchReady(s, e, g, reg, x, pf, pt);
    var s' := s.(code := Patched(s.code, Elems(g.f), reg, |s.code|, pf));
    PatchedExitsKeeps(Whole(s, g), false, reg, pf);
    assert forall j :: j in Elems(g.f) ==> j in g.f;
    assert forall j :: j in Elems(g.t) ==> j in g.t;
    if exists j :: (j in g.t || j in g.f) && !TestSetAt(s.code, j) {
      LoadsStay(s.code, Elems(g.f), reg, pf);
    } else {
      forall j | j in Elems(g.t) ensures TestSetAt(s'.code, j) {
        assert SameControl(Whole(s, g), PatchedExits(Whole(s, g), false, reg, pf), j);
      }
    }
  }

  // ---- descriptors between operations ----

  // The descriptor gives the value of x, and the only register in use above the base is its own.
  ghost predicate Ready(s: Snap, e: ExpDesc, g: Lists, x: Expr) {
    Worth(s, e, g, x) && s.freereg == Top(e.k, g.base, s.nactvar)
  }

  // The same without exits.
  ghost predicate Plain(s: Snap, e: ExpDesc, g: Lists, x: Expr) {
    Ready(s, e, g, x) && e.t == e.f == NO_JUMP && g.t == g.f == []
  }

  predicate HasJumps(e: ExpDesc) { e.t != e.f }

  // Constants and values in registers do not need the lists to differ.
  lemma NoJumpsPlain(s: Snap, e: ExpDesc, g: Lists, x: Expr)
    requires Ready(s, e, g, x) && !HasJumps(e)
    ensures Plain(s, e, g, x)
  {
    JumpsInside(Body(s, e.k, g));
    if g.t != [] && g.f != [] { DisjointHeads(g.t, g.f); }
  }

  lemma WorthReg(s: Snap, e: ExpDesc, g: Lists, x: Expr)
    requires Worth(s, e, g, x)
    ensures e.k.VNonReloc? ==> e.k.r < s.nactvar || e.k.r == g.base
    ensures s.nactvar <= g.base
  {
  }

  lemma KeptFree(s: Snap, s1: Snap, s2: Snap, start: nat)
    requires s1 == s.(freereg := s1.freereg) && Kept(s1, s2, start)
    ensures Kept(s, s2, start)
  {
  }

  // The descriptor is the constant v.
  predicate ConstKind(k: Kind, v: Value) {
    match v case Nil => k == VNil case Bool(b) => k == (if b then VTrue else VFalse) case Int(i) => k == VKInt(i)
  }

  lemma ConstantWorth(s: Snap, e: ExpDesc, g: Lists, x: Expr, v: Value, k: nat)
    requires Worth(s, e, g, x) && ConstKind(e.k, v) && k < |s.ks| && s.ks[k] == v
    ensures Worth(s, e.(k := VK(k)), g, x)
  {
    WholeBody(s, e.k, g);
    WholeBody(s, VK(k), g);
    SameEndMeans(Whole(s, g), e.k, VK(k), x);
  }

  // ---- branches ----

  // The code fr has an exit jump that is not in a list yet (or none: then new is empty); the other exits are.
  ghost predicate Jumped(s: Snap, e: ExpDesc, g: Lists, fr: Frag, pc: int, more: seq<nat>, x: Expr, want: bool) {
    && Linked(s, e, g) && IsList(s.code, pc, more) && Elems(more) !! Elems(g.t) + Elems(g.f) + Elems(s.here)
    && fr == Frag(s.code, s.ks, Elems(if want then g.t else g.t + more), Elems(if want then g.f + more else g.f), Elems(s.here), g.start, g.base)
    && Shape(fr) && Branches(fr, x, want) && s.nactvar <= g.base
  }

  // The state after 'luaK_concat' and 'luaK_patchtohere'.
  ghost predicate Branched(s: Snap, e: ExpDesc, g: Lists, pc: int, more: seq<nat>, want: bool, s': Snap, e': ExpDesc, g': Lists) {
    && g' == (if want then Lists([], g.f + more, g.start, g.base) else Lists(g.t + more, [], g.start, g.base))
    && Linked(s', e', g') && s'.here == s.here + (if want then g.t else g.f)
    && |s'.code| == |s.code| && s'.ks == s.ks && s'.nactvar == s.nactvar
    && forall p: nat :: p < |s.code| && p !in (if want then g.f else g.t) && (p in s.here ==> (if want then g.t else g.f) == [])
         ==> s'.code[p] == s.code[p]
  }

  lemma BranchedRepresents(s: Snap, e: ExpDesc, g: Lists, fr: Frag, pc: int, more: seq<nat>, x: Expr, want: bool, s': Snap, e': ExpDesc, g': Lists)
    requires Jumped(s, e, g, fr, pc, more, x, want) && Branched(s, e, g, pc, more, want, s', e', g')
    ensures Represents(s', g', ToHere(fr, want))
  {
    var kept, moved := if want then g.f else g.t, if want then g.t else g.f;
    ListFacts(s.code, s.jpc, s.here);
    ListFacts(s.code, if want then e.f else e.t, kept);
    ListFacts(s'.code, s'.jpc, s'.here);
    ListFacts(s'.code, if want then e'.f else e'.t, kept + more);
    hide IsList, Shape, Branches;
    DisjointElems(s.here, moved);
    assert Elems([]) == {};
    forall p: nat | p < |s'.code|
      ensures s'.code[p] == s.code[p]
        || ((p in Elems(kept + more) || p in Elems(s.here + moved)) && s'.code[p].Jmp? && s.code[p].Jmp?)
    {
      if p in s.here {
        assert p in s'.here;
      } else if p in kept {
        assert p in kept + more;
      }
    }
  }

  lemma JumpedFacts(s: Snap, e: ExpDesc, g: Lists, fr: Frag, pc: int, more: seq<nat>, x: Expr, want: bool)
    requires Jumped(s, e, g, fr, pc, more, x, want)
    ensures var kept, moved := if want then g.f else g.t, if want then g.t else g.f;
      && (forall j :: j in kept || j in moved ==> g.start <= j < |s.code|)
      && (|s.code| == g.start ==> kept == moved == more == [])
      && (forall j :: j in s.here ==> j < |s.code| && (|s.code| > g.start ==> g.start <= j)) && g.start <= |s.code|
      && IsList(s.code, s.jpc, s.here)
  {
    var kept, moved := if want then g.f else g.t, if want then g.t else g.f;
    JumpsInside(fr);
    HereFrom(fr);
    hide Shape, Branches, IsList;
    InRange(kept + more, g.start, |s.code|);
    InRange(moved, g.start, |s.code|);
    assert forall j :: j in kept ==> j in kept + more;
    assert forall j :: j in s.here ==> j in Elems(s.here);
  }

  lemma BranchedKept(s: Snap, e: ExpDesc, g: Lists, fr: Frag, pc: int, more: seq<nat>, x: Expr, want: bool, s': Snap, e': ExpDesc, g': Lists)
    requires Jumped(s, e, g, fr, pc, more, x, want) && Branched(s, e, g, pc, more, want, s', e', g')
    ensures Kept(s, s', g.start)
  {
    hide Jumped, IsList;
    JumpedFacts(s, e, g, fr, pc, more, x, want);
    ListFacts(s.code, s.jpc, s.here);
    ListFacts(s'.code, s'.jpc, s'.here);
    if |s.code| == g.start {
      assert s'.here == s.here + [];
      assert s'.code == s.code;
    } else {
      assert s'.code[..g.start] == s.code[..g.start];
    }
  }

  lemma InRange(L: seq<nat>, lo: nat, hi: nat)
    requires forall j :: j in Elems(L) ==> lo <= j < hi
    ensures (forall j :: j in L ==> lo <= j < hi) && (lo >= hi ==> L == [])
  {
    forall j | j in L ensures lo <= j < hi { assert j in Elems(L); }
    if lo >= hi { NoElems(L); }
  }

  lemma HereFrom(fr: Frag)
    requires Shape(fr)
    ensures forall j :: j in fr.here ==> j < |fr.code| && (|fr.code| > fr.start ==> fr.start <= j)
  {
  }

  lemma BranchedBranching(s: Snap, e: ExpDesc, g: Lists, fr: Frag, pc: int, more: seq<nat>, x: Expr, want: bool, s': Snap, e': ExpDesc, g': Lists)
    requires Jumped(s, e, g, fr, pc, more, x, want) && Branched(s, e, g, pc, more, want, s', e', g')
    ensures Branching(s', e', g', x, want) && Kept(s, s', g.start)
  {
    BranchedRepresents(s, e, g, fr, pc, more, x, want, s', e', g');
    BranchedKept(s, e, g, fr, pc, more, x, want, s', e', g');
    hide Represents, Kept, Shape, Branches, IsList;
    HereBranches(fr, x, want);
    RepresentsBranching(s', e', g', ToHere(fr, want), x, want);
  }

  // A constant decides by itself.
  lemma ConstantJumped(s: Snap, e: ExpDesc, g: Lists, x: Expr, want: bool)
    requires Worth(s, e, g, x) && (if want then AlwaysTrue(e.k) && (e.k.VK? ==> !IsFalse(s.ks[e.k.k])) else AlwaysFalse(e.k))
    ensures Jumped(s, e, g, Whole(s, g), NO_JUMP, [], x, want)
  {
    WholeBody(s, e.k, g);
    EmptyList(s.code);
    ConstantBranches(Whole(s, g), want, e.k, x);
    assert g.f + [] == g.f && g.t + [] == g.t;
  }

  predicate AlwaysTrue(k: Kind) { k.VK? || k.VKInt? || k.VTrue? }
  predicate AlwaysFalse(k: Kind) { k.VNil? || k.VFalse? }

  // A register was tested with OP_TESTSET.
  lemma TestSetJumped(s: Snap, e: ExpDesc, g: Lists, x: Expr, want: bool)
    requires Worth(s, e, g, x) && e.k.VNonReloc?
    ensures var s', pc := EmitTest(s, TestSet(NO_REG, e.k.r, !want)), |s.code| + 1;
      Jumped(s', e, g, WithTest(Settled(Whole(s, g)), TestSet(NO_REG, e.k.r, !want), want), pc, [pc], x, want) && Kept(s, s', g.start)
  {
    hide Worth, Shape, Branches, IsList, Kept, Discharged, Tests;
    var test := TestSet(NO_REG, e.k.r, !want);
    TestSetTests(s, e, g, x, want);
    WorthShape(s, e, g, x);
    EmitTestLinked(s, e, g, test);
    TestedBranches(s, e, g, x, test, want);
    TestedLists(s, g, |s.code| + 1);
  }

  lemma TestSetTests(s: Snap, e: ExpDesc, g: Lists, x: Expr, want: bool)
    requires e.k.VNonReloc?
    ensures Tests(TestSet(NO_REG, e.k.r, !want), want, e.k, [], s.ks)
  {
  }

  lemma WorthShape(s: Snap, e: ExpDesc, g: Lists, x: Expr)
    requires Worth(s, e, g, x) && TailLen(e.k) == 0
    ensures Linked(s, e, g) && Shape(Whole(s, g)) && s.nactvar <= g.base && Means(Whole(s, g), e.k, [], x)
  {
    WholeBody(s, e.k, g);
  }

  lemma TestedLists(s: Snap, g: Lists, pc: nat)
    requires pc !in g.t && pc !in g.f
    ensures Elems(g.t + [pc]) == Elems(g.t) + {pc} && Elems(g.f + [pc]) == Elems(g.f) + {pc} && Elems([pc]) == {pc} && Elems([]) == {}
  {
  }

  // The operand of a 'not' was tested with OP_TEST instead.
  lemma NotJumped(s: Snap, e: ExpDesc, g: Lists, x: Expr, want: bool, b: nat)
    requires Worth(s, e, g, x) && e.k.VReloc? && |s.code| > 0 && s.code[|s.code| - 1].Not? && s.code[|s.code| - 1].b == b
    ensures var n := |s.code| - 1;
      var s' := s.(code := s.code[..n] + [Test(b, want), Jmp(NO_JUMP)]);
      Jumped(s', e, g, WithTest(Body(s, e.k, g), Test(b, want), want), n + 1, [n + 1], x, want) && Kept(s, s', g.start)
      && s.here == [] && s.jpc == NO_JUMP
  {
    var n, test := |s.code| - 1, Test(b, want);
    var s' := s.(code := s.code[..n] + [test, Jmp(NO_JUMP)]);
    var fr := Body(s, e.k, g);
    assert Tail(s, e.k)[0] == s.code[n];
    TailTested(s, e, g, x, test, want);
    RelocLonger(s, e, g, x, s');
    assert s'.code[..g.start] == s.code[..g.start];
  }

  lemma RelocLonger(s: Snap, e: ExpDesc, g: Lists, x: Expr, s': Snap)
    requires Worth(s, e, g, x) && e.k.VReloc? && s' == s.(code := s'.code) && |s'.code| > |s.code|
    requires s'.code[..|s.code| - 1] == s.code[..|s.code| - 1] && s'.code[|s.code|] == Jmp(NO_JUMP)
    ensures Linked(s', e, g) && IsList(s'.code, |s.code|, [|s.code|]) && |s.code| !in g.t && |s.code| !in g.f && g.start < |s.code|
    ensures Elems(g.t + [|s.code|]) == Elems(g.t) + {|s.code|} && Elems(g.f + [|s.code|]) == Elems(g.f) + {|s.code|}
  {
    var fr := Body(s, e.k, g);
    JumpsBefore(fr, g);
    NoElems(s.here);
    forall j | j in g.t || j in g.f ensures s'.code[j] == s.code[j] && j < |s.code| {
      assert s'.code[j] == s'.code[..|s.code| - 1][j] && s.code[j] == s.code[..|s.code| - 1][j];
    }
    ListKept(s.code, e.t, g.t, s'.code);
    ListKept(s.code, e.f, g.f, s'.code);
  }

  // A comparison, inverted or not.
  function Flip(i: Instr, invert: bool): Instr
    requires i.Cmp?
  {
    if invert then i.(want := !i.want) else i
  }

  lemma ComparisonTests(s: Snap, e: ExpDesc, g: Lists, x: Expr, want: bool)
    requires Worth(s, e, g, x) && e.k.VJmp?
    ensures |s.code| >= 2 && s.code[|s.code| - 2].Cmp? && TailOk(e.k, Tail(s, e.k))
    ensures Tests(Flip(s.code[|s.code| - 2], want), want, e.k, Tail(s, e.k), s.ks)
  {
    assert Tail(s, e.k)[0] == s.code[|s.code| - 2];
  }

  // The comparison at the end of the code, inverted if it must be, is the test.
  ghost function Compared(s: Snap, want: bool): Snap
    requires |s.code| >= 2 && s.code[|s.code| - 2].Cmp?
  {
    s.(code := s.code[|s.code| - 2 := Flip(s.code[|s.code| - 2], want)])
  }

  lemma ComparedLinked(s: Snap, e: ExpDesc, g: Lists, x: Expr, want: bool)
    requires Worth(s, e, g, x) && e.k.VJmp? && |s.code| >= 2 && s.code[|s.code| - 2].Cmp?
    ensures var s' := Compared(s, want);
      && Linked(s', e, g) && IsList(s'.code, e.k.pc, [e.k.pc]) && Kept(s, s', g.start)
      && s'.code == Body(s, e.k, g).code + [s'.code[|s.code| - 2], Jmp(NO_JUMP)] && e.k.pc !in g.t && e.k.pc !in g.f
  {
    hide Worth, Shape, Means, TailOk, IsList, Elems;
    ComparisonFacts(s, e, g, x);
    var s' := Compared(s, want);
    LinkedOfWorth(s, e, g, x);
    LinkedParts(s, e, g);
    ListKept(s.code, s.jpc, s.here, s'.code);
    ListKept(s.code, e.t, g.t, s'.code);
    ListKept(s.code, e.f, g.f, s'.code);
    ComparisonList(s'.code, e.k.pc, g.t);
    assert s'.code[..g.start] == s.code[..g.start];
  }

  lemma ComparisonJumped(s: Snap, e: ExpDesc, g: Lists, x: Expr, want: bool)
    requires Worth(s, e, g, x) && e.k.VJmp?
    ensures |s.code| >= 2 && s.code[|s.code| - 2].Cmp? && Kept(s, Compared(s, want), g.start)
    ensures Jumped(Compared(s, want), e, g, WithTest(Body(s, e.k, g), Flip(s.code[|s.code| - 2], want), want), e.k.pc, [e.k.pc], x, want)
  {
    hide Worth, Shape, Branches, IsList, Linked, Kept, TailOk, Tests;
    ComparisonTests(s, e, g, x, want);
    ComparisonFacts(s, e, g, x);
    ComparedLinked(s, e, g, x, want);
    TailTested(s, e, g, x, Flip(s.code[|s.code| - 2], want), want);
    TestedLists(s, g, e.k.pc);
  }

  lemma KeptFreed(s0: Snap, s1: Snap, s2: Snap, s3: Snap, start: nat)
    requires Kept(s0, s1, start) && s2 == s1.(freereg := s2.freereg) && Kept(s2, s3, start)
    ensures Kept(s0, s3, start)
  {
    KeptTrans(s0, s2, s3, start);
  }

  lemma JumpedLists(s: Snap, e: ExpDesc, g: Lists, fr: Frag, pc: int, more: seq<nat>, x: Expr, want: bool)
    requires Jumped(s, e, g, fr, pc, more, x, want)
    ensures IsList(s.code, s.jpc, s.here) && IsList(s.code, e.t, g.t) && IsList(s.code, e.f, g.f) && IsList(s.code, pc, more)
    ensures Elems(g.t) !! Elems(more) && Elems(g.f) !! Elems(more) && Elems(s.here) !! Elems(more)
    ensures Elems(g.t) !! Elems(g.f) && Elems(g.t) !! Elems(s.here) && Elems(g.f) !! Elems(s.here)
  {
    JumpsInside(fr);
    DisjointElems(g.t, more);
    DisjointElems(g.f, more);
  }

  // Linking the new jump leaves the other lists alone.
  lemma JumpedOthers(s: Snap, e: ExpDesc, g: Lists, fr: Frag, pc: int, more: seq<nat>, x: Expr, want: bool, code1: seq<Instr>)
    requires Jumped(s, e, g, fr, pc, more, x, want) && |code1| == |s.code|
    requires forall p: nat :: p < |s.code| && p !in (if want then g.f else g.t) ==> code1[p] == s.code[p]
    ensures IsList(code1, s.jpc, s.here) && IsList(code1, if want then e.t else e.f, if want then g.t else g.f)
    ensures Elems(s.here) !! Elems(if want then g.t else g.f)
  {
    hide Jumped, IsList;
    JumpedLists(s, e, g, fr, pc, more, x, want);
    var kept, moved := if want then g.f else g.t, if want then g.t else g.f;
    ListFacts(s.code, s.jpc, s.here);
    ListFacts(s.code, if want then e.t else e.f, moved);
    ApartElems(s.here, kept);
    ApartElems(moved, kept);
    ListKept(s.code, s.jpc, s.here, code1);
    ListKept(s.code, if want then e.t else e.f, moved, code1);
  }

  lemma ApartElems(L: seq<nat>, M: seq<nat>)
    requires Elems(L) !! Elems(M)
    ensures forall j :: j in L ==> j !in M
  {
    assert forall j :: j in L ==> j in Elems(L);
    assert forall j :: j in M ==> j in Elems(M);
  }

  lemma BranchedLists(s: Snap, e: ExpDesc, g: Lists, fr: Frag, pc: int, more: seq<nat>, x: Expr, want: bool, code1: seq<Instr>, head: int, s': Snap)
    requires Jumped(s, e, g, fr, pc, more, x, want) && |code1| == |s.code| == |s'.code|
    requires IsList(code1, head, if want then g.f + more else g.t + more) && IsList(s'.code, s'.jpc, s'.here)
    requires forall p: nat :: p < |s.code| && p !in (if want then g.f else g.t) ==> code1[p] == s.code[p]
    requires s'.here == s.here + (if want then g.t else g.f) && s'.ks == s.ks && s'.nactvar == s.nactvar
    requires forall p: nat :: p < |s.code| && (p in s.here ==> (if want then g.t else g.f) == []) ==> s'.code[p] == code1[p]
    ensures Branched(s, e, g, pc, more, want, s',
      if want then e.(t := NO_JUMP, f := head) else e.(t := head, f := NO_JUMP),
      if want then Lists([], g.f + more, g.start, g.base) else Lists(g.t + more, [], g.start, g.base))
  {
    hide Jumped, IsList;
    JumpedLists(s, e, g, fr, pc, more, x, want);
    var kept := if want then g.f else g.t;
    ListFacts(code1, head, kept + more);
    ApartElems(kept, s.here);
    ApartElems(more, s.here);
    ListKept(code1, head, kept + more, s'.code);
    EmptyList(s'.code);
  }

  // ---- 'not' ----

  // What is known of code whose exits are about to be exchanged: k', tail' is the negated end.
  ghost predicate Negated(s: Snap, e: ExpDesc, g: Lists, fr: Frag, k': Kind, tail': seq<Instr>, x: Expr) {
    && Linked(s, e, g) && s.code == fr.code + tail' && |tail'| == TailLen(k') && s.nactvar <= g.base
    && fr == Frag(fr.code, s.ks, Elems(g.t), Elems(g.f), Elems(s.here), g.start, g.base)
    && Shape(fr) && TailOk(k', tail') && (tail' != [] ==> fr.here == {}) && Means(Inverted(fr), k', tail', Prefix(NotOp, x))
    && (k'.VReloc? ==> k'.pc == |fr.code|) && (k'.VJmp? ==> k'.pc == |fr.code| + 1)
    && (k'.VReloc? || k'.VJmp? || k'.VTrue? || k'.VFalse?)
  }

  ghost function Swapped(s: Snap, g: Lists): Snap {
    s.(code := Unvalued(s.code, Elems(g.t) + Elems(g.f)))
  }

  lemma UnvaluedTwice(code: seq<Instr>, A: set<nat>, B: set<nat>)
    requires forall p :: p in A + B ==> p < |code| && code[p].Jmp?
    ensures Unvalued(Unvalued(code, A), B) == Unvalued(code, A + B)
  {
    var c, d := Unvalued(Unvalued(code, A), B), Unvalued(code, A + B);
    forall p | 0 <= p < |code| ensures c[p] == d[p] { }
  }

  lemma UnvaluedBody(body: seq<Instr>, tail: seq<Instr>, P: set<nat>)
    requires forall p :: p in P ==> p < |body|
    ensures Unvalued(body + tail, P) == Unvalued(body, P) + tail
  {
  }

  lemma SwappedWorth(s: Snap, e: ExpDesc, g: Lists, fr: Frag, k': Kind, tail': seq<Instr>, x: Expr)
    requires Negated(s, e, g, fr, k', tail', x)
    ensures Worth(Swapped(s, g), ExpDesc(k', e.f, e.t), g.(t := g.f, f := g.t), Prefix(NotOp, x))
  {
    var s', e', g' := Swapped(s, g), ExpDesc(k', e.f, e.t), g.(t := g.f, f := g.t);
    JumpsInside(fr);
    UnvaluedBody(fr.code, tail', Elems(g.t) + Elems(g.f));
    InvertedShape(fr);
    SwappedLinked(s, e, g, fr, k', tail', x);
    hide Shape, Linked, Means, Unvalued;
    assert s'.code == Inverted(fr).code + tail';
    assert Body(s', k', g') == Inverted(fr);
    assert Tail(s', k') == tail';
  }

  lemma SwappedLinked(s: Snap, e: ExpDesc, g: Lists, fr: Frag, k': Kind, tail': seq<Instr>, x: Expr)
    requires Negated(s, e, g, fr, k', tail', x)
    ensures Linked(Swapped(s, g), ExpDesc(k', e.f, e.t), g.(t := g.f, f := g.t)) && Kept(s, Swapped(s, g), g.start)
    ensures forall p :: p in Elems(g.t) + Elems(g.f) ==> p < |s.code| && s.code[p].Jmp?
  {
    var P, code' := Elems(g.t) + Elems(g.f), Swapped(s, g).code;
    JumpsInside(fr);
    StartsAtEntry(fr);
    HereFrom(fr);
    ListFacts(s.code, e.t, g.t);
    ListFacts(s.code, e.f, g.f);
    ListFacts(s.code, s.jpc, s.here);
    hide Shape, Means, Inverted;
    assert forall p :: 0 <= p < |s.code| && s.code[p].Jmp? ==> code'[p] == s.code[p];
    ListKept(s.code, e.t, g.t, code');
    ListKept(s.code, e.f, g.f, code');
    ListKept(s.code, s.jpc, s.here, code');
    SwappedPrefix(s, g, fr);
  }

  lemma SwappedPrefix(s: Snap, g: Lists, fr: Frag)
    requires fr.start == g.start <= |fr.code| <= |s.code| && fr.here == Elems(s.here) && Entry(fr.code, fr.start)
    requires s.code[..|fr.code|] == fr.code
    requires forall j :: j in Elems(g.t) + Elems(g.f) ==> fr.start <= j < |fr.code|
    requires forall j :: j in fr.here ==> j < |fr.code| && (|fr.code| > fr.start ==> fr.start <= j)
    requires |s.code| > |fr.code| ==> fr.here == {}
    ensures Kept(s, Swapped(s, g), g.start)
  {
    var P, code' := Elems(g.t) + Elems(g.f), Swapped(s, g).code;
    assert forall j :: j in s.here ==> j in fr.here;
    forall p | 0 <= p < |s.code| && (p < g.start || |s.code| == g.start) ensures code'[p] == s.code[p] {
      if p + 1 in P {
        assert p + 1 == g.start;
        assert s.code[..|fr.code|][p] == s.code[p];
      }
    }
    assert code'[..g.start] == s.code[..g.start];
    assert |s.code| == g.start ==> code' == s.code;
  }

  lemma ConstantNegated(s: Snap, e: ExpDesc, g: Lists, x: Expr, k': Kind)
    requires Worth(s, e, g, x) && (if k' == VFalse then AlwaysTrue(e.k) && (e.k.VK? ==> !IsFalse(s.ks[e.k.k])) else k' == VTrue && AlwaysFalse(e.k))
    ensures Negated(s, e, g, Whole(s, g), k', [], x)
  {
    WholeBody(s, e.k, g);
    InvertedMeans(Whole(s, g), e.k, [], k', [], x);
    assert s.code + [] == s.code;
  }

  lemma RegisterNegated(s: Snap, e: ExpDesc, g: Lists, x: Expr)
    requires Worth(s, e, g, x) && e.k.VNonReloc?
    ensures var i := Not(0, e.k.r);
      Negated(Emit(s, i), e, g, Settled(Whole(s, g)), VReloc(|s.code|), [i], x) && Kept(s, Emit(s, i), g.start)
  {
    hide Worth, Shape, Linked, Kept, Discharged, Means, Negates;
    var i, fr := Not(0, e.k.r), Whole(s, g);
    WorthShape(s, e, g, x);
    EmitLinked(s, e, g, i);
    SettledShape(fr);
    SettledLike(fr);
    LikeMeans(fr, Settled(fr), e.k, [], x);
    NotNegates(e.k.r, |s.code|, s.ks);
    InvertedMeans(Settled(fr), e.k, [], VReloc(|s.code|), [i], x);
    assert Elems([]) == {};
  }

  lemma NotNegates(r: nat, pc: nat, ks0: seq<Value>)
    ensures Negates(VNonReloc(r), [], VReloc(pc), [Not(0, r)], ks0)
  {
  }

  lemma ComparisonNegated(s: Snap, e: ExpDesc, g: Lists, x: Expr)
    requires Worth(s, e, g, x) && e.k.VJmp?
    ensures |s.code| >= 2 && s.code[|s.code| - 2].Cmp? && Kept(s, Compared(s, true), g.start)
    ensures Negated(Compared(s, true), e, g, Body(s, e.k, g), e.k, [Flip(s.code[|s.code| - 2], true), Jmp(NO_JUMP)], x)
  {
    ComparisonFacts(s, e, g, x);
    ComparedLinked(s, e, g, x, true);
    var fr, tail := Body(s, e.k, g), Tail(s, e.k);
    var tail' := [Flip(s.code[|s.code| - 2], true), Jmp(NO_JUMP)];
    assert tail[0] == s.code[|s.code| - 2];
    hide Worth, Shape, Linked, Kept;
    FlipNegates(e.k, tail, tail', s.ks);
    InvertedMeans(fr, e.k, tail, e.k, tail', x);
  }

  lemma FlipNegates(k: Kind, tail: seq<Instr>, tail': seq<Instr>, ks0: seq<Value>)
    requires k.VJmp? && TailOk(k, tail) && tail' == [Flip(tail[0], true), Jmp(NO_JUMP)]
    ensures TailOk(k, tail') && Negates(k, tail, k, tail', ks0)
  {
  }

  lemma SameCompared(s: Snap)
    requires |s.code| >= 2 && s.code[|s.code| - 2].Cmp?
    ensures Compared(s, false) == s
  {
  }

  lemma NegatedLists(s: Snap, e: ExpDesc, g: Lists, fr: Frag, k': Kind, tail': seq<Instr>, x: Expr)
    requires Negated(s, e, g, fr, k', tail', x)
    ensures IsList(s.code, e.t, g.t) && IsList(s.code, e.f, g.f) && s.nactvar <= g.base
    ensures k'.VReloc? || k'.VJmp? || k'.VTrue? || k'.VFalse?
  {
  }

  lemma UnvaluedKeeps(code: seq<Instr>, head: int, L: seq<nat>, P: set<nat>)
    requires IsList(code, head, L)
    ensures IsList(Unvalued(code, P), head, L)
  {
    hide IsList, Unvalued;
    ListFacts(code, head, L);
    UnvaluedJumps(code, P);
    ListKept(code, head, L, Unvalued(code, P));
  }

  lemma UnvaluedJumps(code: seq<Instr>, P: set<nat>)
    ensures forall j :: 0 <= j < |code| && code[j].Jmp? ==> Unvalued(code, P)[j] == code[j]
  {
  }
}
