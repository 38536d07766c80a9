// Which operator takes which operand: the order of the operators, written out.
module Precedence {
  import opened Integers
  import opened Subexpr

  // The symbol of each binary operator, as the program writes it.
  predicate Spelled(op: BinOpr, s: Sym) {
    match op
    case Add => s == Plus
    case Sub => s == Dash
    case Mul => s == Star
    case Mod => s == Percent
    case Pow => s == Caret
    case Div => s == Slash
    case IDiv => s == SlashSlash
    case BAnd => s == Amp
    case BOr => s == Bar
    case BXor => s == Tilde
    case Shl => s == ShlSym
    case Shr => s == ShrSym
    case Concat => s == DotDot
    case Eq => s == EqEq
    case Lt => s == LtSym
    case Le => s == LeSym
    case Ne => s == NeSym
    case Gt => s == GtSym
    case Ge => s == GeSym
    case And => s == AndWord
    case Or => s == OrWord
  }

  predicate Prefixed(u: UnOpr, s: Sym) {
    match u
    case Minus => s == Dash
    case BNot => s == Tilde
    case Not => s == NotWord
    case Len => s == Hash
  }

  // The levels, from the operators that take the most to those that take the least.
  function Level(op: BinOpr): nat {
    match op
    case Or => 1
    case And => 2
    case Lt | Gt | Le | Ge | Ne | Eq => 3
    case BOr => 4
    case BXor => 5
    case BAnd => 6
    case Shl | Shr => 7
    case Concat => 8
    case Add | Sub => 9
    case Mul | Div | IDiv | Mod => 10
    case Pow => 12
  }

  // The prefix operators are between '*' and '^'.
  const UNARY_LEVEL := 11

  predicate RightAssociative(op: BinOpr) { op == Concat || op == Pow }

  // In 'a o1 b o2 c' the first operator takes b.
  predicate LeftFirst(o1: BinOpr, o2: BinOpr) {
    Level(o1) > Level(o2) || (Level(o1) == Level(o2) && !RightAssociative(o1))
  }

  lemma SpelledSymbol(op: BinOpr, s: Sym)
    requires Spelled(op, s)
    ensures s == Symbol(op)
  {
  }

  lemma Priorities(o1: BinOpr, o2: BinOpr)
    ensures Left(o2) > Right(o1) <==> !LeftFirst(o1, o2)
    ensures Left(o1) > 0
    ensures Left(o1) > UNARY_PRIORITY <==> Level(o1) > UNARY_LEVEL
  {
  }

  lemma AtomAlone(ts: seq<Token>, p: nat, n: Integer, limit: nat, levels: nat)
    requires p + 1 == |ts| && ts[p] == IntTok(n) && levels > 0
    ensures ParseSub(ts, p, limit, levels) == Tree(Atom(n), p + 1)
  {
    StepAtom(ts, p, limit, levels);
    StepStop(ts, Atom(n), p + 1, limit, levels);
  }

  // 'b o c' behind an operator with this limit: it stops before o, or takes c.
  lemma LastTwo(ts: seq<Token>, p: nat, b: Integer, c: Integer, o: BinOpr, limit: nat, levels: nat)
    requires p + 3 == |ts| && ts[p] == IntTok(b) && ts[p + 1] == SymTok(Symbol(o)) && ts[p + 2] == IntTok(c) && levels > 1
    ensures ParseSub(ts, p, limit, levels) ==
      if Left(o) > limit then Tree(Bin(o, Atom(b), Atom(c)), p + 3) else Tree(Atom(b), p + 1)
  {
    hide ParseSub, ParseLoop;
    StepAtom(ts, p, limit, levels);
    if Left(o) > limit {
      StepOperator(ts, Atom(b), p + 1, limit, levels, o);
      AtomAlone(ts, p + 2, c, Right(o), levels - 1);
      StepStop(ts, Bin(o, Atom(b), Atom(c)), p + 3, limit, levels);
    } else {
      StepStop(ts, Atom(b), p + 1, limit, levels);
    }
  }

  // 'a o1 b o2 c'
  lemma TwoOperators(a: Integer, o1: BinOpr, s1: Sym, b: Integer, o2: BinOpr, s2: Sym, c: Integer, levels: nat)
    requires Spelled(o1, s1) && Spelled(o2, s2) && levels >= 3
    ensures ParseSub([IntTok(a), SymTok(s1), IntTok(b), SymTok(s2), IntTok(c)], 0, 0, levels) ==
      Tree(if LeftFirst(o1, o2) then Bin(o2, Bin(o1, Atom(a), Atom(b)), Atom(c)) else Bin(o1, Atom(a), Bin(o2, Atom(b), Atom(c))), 5)
  {
    hide ParseSub, ParseLoop, Left, Right, Level;
    var ts := [IntTok(a), SymTok(s1), IntTok(b), SymTok(s2), IntTok(c)];
    SpelledSymbol(o1, s1);
    SpelledSymbol(o2, s2);
    Priorities(o1, o2);
    Priorities(o2, o2);
    StepAtom(ts, 0, 0, levels);
    StepOperator(ts, Atom(a), 1, 0, levels, o1);
    LastTwo(ts, 2, b, c, o2, Right(o1), levels - 1);
    if LeftFirst(o1, o2) {
      var ab := Bin(o1, Atom(a), Atom(b));
      StepOperator(ts, ab, 3, 0, levels, o2);
      AtomAlone(ts, 4, c, Right(o2), levels - 1);
      StepStop(ts, Bin(o2, ab, Atom(c)), 5, 0, levels);
    } else {
      StepStop(ts, Bin(o1, Atom(a), Bin(o2, Atom(b), Atom(c))), 5, 0, levels);
    }
  }

  // 'u a o b': the prefix operator takes a alone, unless o is '^'.
  lemma PrefixFirst(u: UnOpr, s: Sym, a: Integer, o: BinOpr, so: Sym, b: Integer, levels: nat)
    requires Prefixed(u, s) && Spelled(o, so) && levels >= 3
    ensures ParseSub([SymTok(s), IntTok(a), SymTok(so), IntTok(b)], 0, 0, levels) ==
      Tree(if o == Pow then Un(u, Bin(Pow, Atom(a), Atom(b))) else Bin(o, Un(u, Atom(a)), Atom(b)), 4)
  {
    hide ParseSub, ParseLoop, Left, Right;
    var ts := [SymTok(s), IntTok(a), SymTok(so), IntTok(b)];
    SpelledSymbol(o, so);
    Priorities(o, o);
    assert s == Sign(u);
    StepUnary(ts, 0, 0, levels, u);
    LastTwo(ts, 1, a, b, o, UNARY_PRIORITY, levels - 1);
    if o == Pow {
      StepStop(ts, Un(u, Bin(Pow, Atom(a), Atom(b))), 4, 0, levels);
    } else {
      StepOperator(ts, Un(u, Atom(a)), 2, 0, levels, o);
      AtomAlone(ts, 3, b, Right(o), levels - 1);
      StepStop(ts, Bin(o, Un(u, Atom(a)), Atom(b)), 4, 0, levels);
    }
  }

  // 'a o u b': behind an operator a prefix operator takes what follows it, whatever the operator is.
  lemma PrefixSecond(a: Integer, o: BinOpr, so: Sym, u: UnOpr, s: Sym, b: Integer, levels: nat)
    requires Prefixed(u, s) && Spelled(o, so) && levels >= 3
    ensures ParseSub([IntTok(a), SymTok(so), SymTok(s), IntTok(b)], 0, 0, levels) == Tree(Bin(o, Atom(a), Un(u, Atom(b))), 4)
  {
    hide ParseSub, ParseLoop, Left, Right;
    var ts := [IntTok(a), SymTok(so), SymTok(s), IntTok(b)];
    SpelledSymbol(o, so);
    Priorities(o, o);
    assert s == Sign(u);
    StepAtom(ts, 0, 0, levels);
    StepOperator(ts, Atom(a), 1, 0, levels, o);
    StepUnary(ts, 2, Right(o), levels - 1, u);
    AtomAlone(ts, 3, b, UNARY_PRIORITY, levels - 2);
    StepStop(ts, Un(u, Atom(b)), 4, Right(o), levels - 1);
    StepStop(ts, Bin(o, Atom(a), Un(u, Atom(b))), 4, 0, levels);
  }

  // ---- nesting ----

  // n times '-' before an atom.
  function Minuses(n: nat, a: Integer): Exp { if n == 0 then Atom(a) else Un(Minus, Minuses(n - 1, a)) }

  function MinusTokens(n: nat, a: Integer): seq<Token> { if n == 0 then [IntTok(a)] else [SymTok(Dash)] + MinusTokens(n - 1, a) }

  lemma {:induction false} MinusesPrinted(n: nat, a: Integer)
    ensures Print(Minuses(n, a)) == MinusTokens(n, a) && Levels(Minuses(n, a)) == n + 1
  {
    if n > 0 { MinusesPrinted(n - 1, a); }
  }

  // Up to 199 prefix operators can stand in a row; one more nests 'subexpr' too deep.
  lemma DeepestNesting(n: nat, a: Integer)
    ensures ParseSub(MinusTokens(n, a), 0, 0, LUAI_MAXCCALLS) == if n < 200 then Tree(Minuses(n, a), |MinusTokens(n, a)|) else TooDeep
  {
    hide ParseSub, Print, Levels;
    MinusesPrinted(n, a);
    RoundTrip(Minuses(n, a), LUAI_MAXCCALLS);
  }
}
