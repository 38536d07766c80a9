// Parsing expressions by precedence climbing, and printing them with no more parentheses than the priorities ask for.
module Subexpr {
  import opened Integers

  datatype BinOpr =
    | Add | Sub | Mul | Mod | Pow | Div | IDiv | BAnd | BOr | BXor | Shl | Shr | Concat
    | Eq | Lt | Le | Ne | Gt | Ge | And | Or

  datatype UnOpr = Minus | BNot | Not | Len

  datatype Exp = Atom(n: Integer) | Bin(op: BinOpr, x: Exp, y: Exp) | Un(u: UnOpr, x: Exp)

  // Symbols: '-' and '~' are operators of both kinds.
  datatype Sym =
    | Plus | Dash | Star | Percent | Caret | Slash | SlashSlash | Amp | Bar | Tilde | ShlSym | ShrSym | DotDot
    | EqEq | LtSym | LeSym | NeSym | GtSym | GeSym | AndWord | OrWord | NotWord | Hash

  datatype Token = IntTok(n: Integer) | SymTok(s: Sym) | OpenTok | CloseTok | EosTok

  // 'getbinopr' and 'getunopr'.
  datatype Option<T> = None | Some(value: T)

  function GetBinOpr(t: Token): Option<BinOpr> {
    if !t.SymTok? then None
    else match t.s
      case Plus => Some(Add) case Dash => Some(Sub) case Star => Some(Mul) case Percent => Some(Mod) case Caret => Some(Pow)
      case Slash => Some(Div) case SlashSlash => Some(IDiv) case Amp => Some(BAnd) case Bar => Some(BOr) case Tilde => Some(BXor)
      case ShlSym => Some(Shl) case ShrSym => Some(Shr) case DotDot => Some(Concat) case EqEq => Some(Eq) case LtSym => Some(Lt)
      case LeSym => Some(Le) case NeSym => Some(Ne) case GtSym => Some(Gt) case GeSym => Some(Ge) case AndWord => Some(And)
      case OrWord => Some(Or) case NotWord => None case Hash => None
  }

  function GetUnOpr(t: Token): Option<UnOpr> {
    if !t.SymTok? then None
    else match t.s
      case NotWord => Some(Not) case Dash => Some(Minus) case Tilde => Some(BNot) case Hash => Some(Len)
      case _ => None
  }

  // The table 'priority', and UNARY_PRIORITY.
  function Left(op: BinOpr): nat {
    match op
    case Add => 10 case Sub => 10 case Mul => 11 case Mod => 11 case Pow => 14 case Div => 11 case IDiv => 11
    case BAnd => 6 case BOr => 4 case BXor => 5 case Shl => 7 case Shr => 7 case Concat => 9
    case And => 2 case Or => 1 case _ => 3
  }

  function Right(op: BinOpr): nat {
    match op case Pow => 13 case Concat => 8 case _ => Left(op)
  }

  const UNARY_PRIORITY := 12
  const LUAI_MAXCCALLS := 200

  // ---- the parser as a function ----

  // A tree and where it ends, or an error; a call is outside this grammar.
  datatype Parsed = Tree(e: Exp, next: nat) | SyntaxError | TooDeep | Call

  function Peek(ts: seq<Token>, p: nat): Token { if p < |ts| then ts[p] else EosTok }

  // 'subexpr', with 'levels' nested calls still allowed.
  function ParseSub(ts: seq<Token>, p: nat, limit: nat, levels: nat): (r: Parsed)
    ensures r.Tree? ==> p < r.next <= |ts|
    decreases |ts| - p, 2
  {
    if levels == 0 then TooDeep
    else if p >= |ts| then SyntaxError
    else
      var u := GetUnOpr(ts[p]);
      var r := if u.Some? then ParseSub(ts, p + 1, UNARY_PRIORITY, levels - 1) else ParseSimple(ts, p, levels);
      if !r.Tree? then r
      else ParseLoop(ts, if u.Some? then Un(u.value, r.e) else r.e, r.next, limit, levels)
  }

  // 'simpleexp'.
  function ParseSimple(ts: seq<Token>, p: nat, levels: nat): (r: Parsed)
    requires p < |ts| && levels > 0
    ensures r.Tree? ==> p < r.next <= |ts|
    decreases |ts| - p, 1
  {
    if ts[p].IntTok? then Tree(Atom(ts[p].n), p + 1)
    else if ts[p] == OpenTok then
      var r := ParseSub(ts, p + 1, 0, levels - 1);
      if !r.Tree? then r
      else if Peek(ts, r.next) != CloseTok then SyntaxError
      else if Peek(ts, r.next + 1) == OpenTok then Call
      else Tree(r.e, r.next + 1)
    else SyntaxError
  }

  // The loop of 'subexpr', with v parsed so far.
  function ParseLoop(ts: seq<Token>, v: Exp, p: nat, limit: nat, levels: nat): (r: Parsed)
    requires p <= |ts| && levels > 0
    ensures r.Tree? ==> p <= r.next <= |ts|
    decreases |ts| - p, 0
  {
    var op := GetBinOpr(Peek(ts, p));
    if op.None? || Left(op.value) <= limit then Tree(v, p)
    else
      var r := ParseSub(ts, p + 1, Right(op.value), levels - 1);
      if !r.Tree? then r else ParseLoop(ts, Bin(op.value, v, r.e), r.next, limit, levels)
  }

  // ---- the parser as it works on the token stream ----

  class LexState {
    const toks: seq<Token>
    var pos: nat
    var nCcalls: nat

    constructor (ts: seq<Token>)
      ensures toks == ts && pos == 0 && nCcalls == 0
    {
      toks, pos, nCcalls := ts, 0, 0;
    }

    // 'subexpr'.
    method Subexpr(limit: nat) returns (r: Parsed)
      requires nCcalls <= LUAI_MAXCCALLS
      modifies this
      ensures r == ParseSub(toks, old(pos), limit, LUAI_MAXCCALLS - old(nCcalls))
      ensures r.Tree? ==> pos == r.next && nCcalls == old(nCcalls)
      decreases |toks| - pos, 2
    {
      // 'enterlevel'
      nCcalls := nCcalls + 1;
      if nCcalls > LUAI_MAXCCALLS { return TooDeep; }
      if pos >= |toks| { return SyntaxError; }
      ghost var levels := LUAI_MAXCCALLS + 1 - nCcalls;
      var uop := GetUnOpr(toks[pos]);
      if uop.Some? {
        pos := pos + 1;
        r := Subexpr(UNARY_PRIORITY);
        if !r.Tree? { return; }
        r := r.(e := Un(uop.value, r.e));
      } else {
        r := SimpleExp();
        if !r.Tree? { return; }
      }
      // the operators that bind tighter than the caller's
      var v := r.e;
      var op := GetBinOpr(Peek(toks, pos));
      while op != None && Left(op.value) > limit
        invariant old(pos) < pos <= |toks| && nCcalls == LUAI_MAXCCALLS + 1 - levels == old(nCcalls) + 1 && op == GetBinOpr(Peek(toks, pos))
        invariant ParseSub(toks, old(pos), limit, levels) == ParseLoop(toks, v, pos, limit, levels)
        decreases |toks| - pos
      {
        pos := pos + 1;
        r := Subexpr(Right(op.value));
        if !r.Tree? { return; }
        v := Bin(op.value, v, r.e);
        op := GetBinOpr(Peek(toks, pos));
      }
      // 'leavelevel'
      nCcalls := nCcalls - 1;
      r := Tree(v, pos);
    }

    // 'simpleexp', and 'primaryexp' for parentheses.
    method SimpleExp() returns (r: Parsed)
      requires pos < |toks| && 0 < nCcalls <= LUAI_MAXCCALLS
      modifies this
      ensures r == ParseSimple(toks, old(pos), LUAI_MAXCCALLS + 1 - old(nCcalls))
      ensures r.Tree? ==> pos == r.next && nCcalls == old(nCcalls)
      decreases |toks| - pos, 1
    {
      if toks[pos].IntTok? {
        r := Tree(Atom(toks[pos].n), pos + 1);
        pos := pos + 1;
        return;
      }
      if toks[pos] != OpenTok { return SyntaxError; }
      pos := pos + 1;
      r := Subexpr(0);
      if !r.Tree? { return; }
      if Peek(toks, pos) != CloseTok { return SyntaxError; }
      pos := pos + 1;
      if Peek(toks, pos) == OpenTok { return Call; }
      r := r.(next := pos);
    }
  }

  // ---- printing ----

  function Symbol(op: BinOpr): (s: Sym)
    ensures GetBinOpr(SymTok(s)) == Some(op)
  {
    match op
    case Add => Plus case Sub => Dash case Mul => Star case Mod => Percent case Pow => Caret case Div => Slash case IDiv => SlashSlash
    case BAnd => Amp case BOr => Bar case BXor => Tilde case Shl => ShlSym case Shr => ShrSym case Concat => DotDot
    case Eq => EqEq case Lt => LtSym case Le => LeSym case Ne => NeSym case Gt => GtSym case Ge => GeSym case And => AndWord case Or => OrWord
  }

  function Sign(u: UnOpr): (s: Sym)
    ensures GetUnOpr(SymTok(s)) == Some(u)
  {
    match u case Minus => Dash case BNot => Tilde case Not => NotWord case Len => Hash
  }

  // The lowest limit that is still waiting for operators when the last token of e was read.
  function Tail(e: Exp): nat {
    match e
    case Atom(_) => 255
    case Un(_, x) => if Fenced(x, UNARY_PRIORITY) then UNARY_PRIORITY else Min(UNARY_PRIORITY, Tail(x))
    case Bin(op, _, y) => if Fenced(y, Right(op)) then Right(op) else Min(Right(op), Tail(y))
  }

  function Min(a: nat, b: nat): nat { if a < b then a else b }

  // A right operand, read with this limit, needs parentheses.
  predicate Fenced(y: Exp, limit: nat) { y.Bin? && Left(y.op) <= limit }

  // A left operand of op needs parentheses: something in it would take op for itself.
  predicate FencedLeft(x: Exp, op: BinOpr) { Left(op) > Tail(x) }

  function Parens(fenced: bool, ts: seq<Token>): seq<Token> {
    if fenced then [OpenTok] + ts + [CloseTok] else ts
  }

  function Print(e: Exp): seq<Token> {
    match e
    case Atom(n) => [IntTok(n)]
    case Un(u, x) => [SymTok(Sign(u))] + Parens(Fenced(x, UNARY_PRIORITY), Print(x))
    case Bin(op, x, y) => Parens(FencedLeft(x, op), Print(x)) + [SymTok(Symbol(op))] + Parens(Fenced(y, Right(op)), Print(y))
  }

  // How many calls of 'subexpr' are nested while the printed expression is read.
  function Levels(e: Exp): nat {
    match e
    case Atom(_) => 1
    case Un(_, x) => 1 + Levels(x) + if Fenced(x, UNARY_PRIORITY) then 1 else 0
    case Bin(op, x, y) =>
      var l := Levels(x) + if FencedLeft(x, op) then 1 else 0;
      var r := 1 + Levels(y) + if Fenced(y, Right(op)) then 1 else 0;
      if l < r then r else l
  }

  // ---- the round trip ----

  // ts has these tokens at p.
  predicate AtPos(ts: seq<Token>, p: nat, us: seq<Token>) {
    p + |us| <= |ts| && ts[p..p + |us|] == us
  }

  // The token does not continue an expression for limits up to m.
  predicate Stops(t: Token, m: nat) {
    t != OpenTok && (GetBinOpr(t).Some? ==> Left(GetBinOpr(t).value) <= m)
  }

  lemma AtSplit(ts: seq<Token>, p: nat, us: seq<Token>, vs: seq<Token>)
    requires AtPos(ts, p, us + vs)
    ensures AtPos(ts, p, us) && AtPos(ts, p + |us|, vs)
  {
    assert ts[p..p + |us|] == (us + vs)[..|us|];
    assert ts[p + |us|..p + |us| + |vs|] == (us + vs)[|us|..];
  }

  // ---- single steps of the parser ----

  lemma StepAtom(ts: seq<Token>, p: nat, limit: nat, levels: nat)
    requires p < |ts| && ts[p].IntTok? && levels > 0
    ensures ParseSub(ts, p, limit, levels) == ParseLoop(ts, Atom(ts[p].n), p + 1, limit, levels)
  {
    hide ParseLoop;
  }

  lemma StepUnary(ts: seq<Token>, p: nat, limit: nat, levels: nat, u: UnOpr)
    requires p < |ts| && ts[p] == SymTok(Sign(u)) && levels > 0
    ensures var r := ParseSub(ts, p + 1, UNARY_PRIORITY, levels - 1);
      ParseSub(ts, p, limit, levels) == if !r.Tree? then r else ParseLoop(ts, Un(u, r.e), r.next, limit, levels)
  {
    hide ParseLoop, ParseSimple;
  }

  lemma StepOpen(ts: seq<Token>, p: nat, limit: nat, levels: nat)
    requires p < |ts| && ts[p] == OpenTok && levels > 0
    ensures var r := ParseSimple(ts, p, levels);
      ParseSub(ts, p, limit, levels) == if !r.Tree? then r else ParseLoop(ts, r.e, r.next, limit, levels)
  {
    hide ParseLoop, ParseSimple;
  }

  lemma StepParens(ts: seq<Token>, p: nat, levels: nat)
    requires p < |ts| && ts[p] == OpenTok && levels > 0
    ensures var r := ParseSub(ts, p + 1, 0, levels - 1);
      ParseSimple(ts, p, levels) ==
        if !r.Tree? then r
        else if Peek(ts, r.next) != CloseTok then SyntaxError
        else if Peek(ts, r.next + 1) == OpenTok then Call
        else Tree(r.e, r.next + 1)
  {
    hide ParseSub, ParseLoop;
  }

  lemma StepOperator(ts: seq<Token>, v: Exp, p: nat, limit: nat, levels: nat, op: BinOpr)
    requires p < |ts| && ts[p] == SymTok(Symbol(op)) && Left(op) > limit && levels > 0
    ensures var r := ParseSub(ts, p + 1, Right(op), levels - 1);
      ParseLoop(ts, v, p, limit, levels) == if !r.Tree? then r else ParseLoop(ts, Bin(op, v, r.e), r.next, limit, levels)
  {
    hide ParseSub;
  }

  lemma StepStop(ts: seq<Token>, v: Exp, p: nat, limit: nat, levels: nat)
    requires p <= |ts| && Stops(Peek(ts, p), limit) && levels > 0
    ensures ParseLoop(ts, v, p, limit, levels) == Tree(v, p)
  {
  }

  // Reading a printed expression leads into the loop of 'subexpr' with the whole tree, unless it is too deep.
  ghost predicate Reads(ts: seq<Token>, e: Exp, n: nat, deep: nat, p: nat, limit: nat, levels: nat) {
    && p + n <= |ts|
    && ParseSub(ts, p, limit, levels) == if levels < deep || levels == 0 then TooDeep else ParseLoop(ts, e, p + n, limit, levels)
  }

  // The printed form of a right operand, or of that of a unary operator, and how deep it is.
  function Operand(y: Exp, limit: nat): seq<Token> { Parens(Fenced(y, limit), Print(y)) }
  function OperandLevels(y: Exp, limit: nat): nat { Levels(y) + if Fenced(y, limit) then 1 else 0 }
  function OperandTail(y: Exp, limit: nat): nat { if Fenced(y, limit) then limit else Min(limit, Tail(y)) }

  // The same of a left operand.
  function LeftOperand(x: Exp, op: BinOpr): seq<Token> { Parens(FencedLeft(x, op), Print(x)) }
  function LeftLevels(x: Exp, op: BinOpr): nat { Levels(x) + if FencedLeft(x, op) then 1 else 0 }

  lemma FirstToken(ts: seq<Token>, p: nat, t: Token)
    requires AtPos(ts, p, [t])
    ensures p < |ts| && ts[p] == t
  {
    assert ts[p] == ts[p..p + 1][0];
  }

  lemma {:induction false} PrintedReads(ts: seq<Token>, e: Exp, p: nat, limit: nat, levels: nat)
    requires AtPos(ts, p, Print(e)) && !Fenced(e, limit) && Stops(Peek(ts, p + |Print(e)|), Tail(e))
    ensures Reads(ts, e, |Print(e)|, Levels(e), p, limit, levels)
    decreases e, 1
  {
    hide ParseSub, ParseLoop, AtPos, Stops;
    match e
    case Atom(n) =>
      FirstToken(ts, p, IntTok(n));
      if levels > 0 { StepAtom(ts, p, limit, levels); } else { NoLevels(ts, p, limit); }
    case Un(u, x) =>
      assert Print(e) == [SymTok(Sign(u))] + Operand(x, UNARY_PRIORITY) && Levels(e) == 1 + OperandLevels(x, UNARY_PRIORITY);
      assert Tail(e) == OperandTail(x, UNARY_PRIORITY);
      UnReads(ts, u, x, p, limit, levels);
    case Bin(op, x, y) =>
      assert Print(e) == LeftOperand(x, op) + [SymTok(Symbol(op))] + Operand(y, Right(op)) && Tail(e) == OperandTail(y, Right(op));
      BinReads(ts, op, x, y, p, limit, levels);
  }

  lemma NoLevels(ts: seq<Token>, p: nat, limit: nat)
    ensures ParseSub(ts, p, limit, 0) == TooDeep
  {
  }

  lemma UnReads(ts: seq<Token>, u: UnOpr, x: Exp, p: nat, limit: nat, levels: nat)
    requires var px := [SymTok(Sign(u))] + Operand(x, UNARY_PRIORITY);
      AtPos(ts, p, px) && Stops(Peek(ts, p + |px|), OperandTail(x, UNARY_PRIORITY))
    ensures Reads(ts, Un(u, x), 1 + |Operand(x, UNARY_PRIORITY)|, 1 + OperandLevels(x, UNARY_PRIORITY), p, limit, levels)
    decreases x, 4
  {
    hide ParseSub, ParseLoop, AtPos, Stops, Operand, OperandLevels, OperandTail;
    var t := SymTok(Sign(u));
    AtSplit(ts, p, [t], Operand(x, UNARY_PRIORITY));
    FirstToken(ts, p, t);
    InBounds(ts, p + 1, Operand(x, UNARY_PRIORITY));
    if levels > 0 {
      StepUnary(ts, p, limit, levels, u);
      OperandReads(ts, x, p + 1, UNARY_PRIORITY, levels - 1);
    } else {
      NoLevels(ts, p, limit);
    }
  }

  lemma InBounds(ts: seq<Token>, p: nat, us: seq<Token>)
    requires AtPos(ts, p, us)
    ensures p + |us| <= |ts|
  {
  }

  // Where the parts of a printed binary operation are.
  lemma BinLayout(ts: seq<Token>, p: nat, px: seq<Token>, t: Token, py: seq<Token>)
    requires AtPos(ts, p, px + [t] + py)
    ensures AtPos(ts, p, px) && p + |px| < |ts| && ts[p + |px|] == t && AtPos(ts, p + |px| + 1, py)
    ensures p + |px| + 1 + |py| <= |ts|
  {
    hide AtPos;
    assert px + [t] + py == px + ([t] + py);
    AtSplit(ts, p, px, [t] + py);
    AtSplit(ts, p + |px|, [t], py);
    FirstToken(ts, p + |px|, t);
    InBounds(ts, p + |px| + 1, py);
  }

  lemma BinReads(ts: seq<Token>, op: BinOpr, x: Exp, y: Exp, p: nat, limit: nat, levels: nat)
    requires var us := LeftOperand(x, op) + [SymTok(Symbol(op))] + Operand(y, Right(op));
      AtPos(ts, p, us) && Stops(Peek(ts, p + |us|), OperandTail(y, Right(op)))
    requires Left(op) > limit
    ensures var l, r := LeftLevels(x, op), 1 + OperandLevels(y, Right(op));
      Reads(ts, Bin(op, x, y), |LeftOperand(x, op)| + 1 + |Operand(y, Right(op))|, if l < r then r else l, p, limit, levels)
    decreases Bin(op, x, y), 0
  {
    hide ParseSub, ParseLoop, AtPos, Stops, Operand, OperandLevels, OperandTail, LeftOperand, LeftLevels;
    var px, py := LeftOperand(x, op), Operand(y, Right(op));
    BinLayout(ts, p, px, SymTok(Symbol(op)), py);
    var q := p + |px|;
    LeftReads(ts, op, x, p, limit, levels);
    if levels > 0 {
      StepOperator(ts, x, q, limit, levels, op);
      OperandReads(ts, y, q + 1, Right(op), levels - 1);
    }
  }

  // A left operand, in parentheses or not, leads into the loop at its operator.
  lemma LeftReads(ts: seq<Token>, op: BinOpr, x: Exp, p: nat, limit: nat, levels: nat)
    requires var px := LeftOperand(x, op); AtPos(ts, p, px) && p + |px| < |ts| && ts[p + |px|] == SymTok(Symbol(op))
    requires Left(op) > limit
    ensures Reads(ts, x, |LeftOperand(x, op)|, LeftLevels(x, op), p, limit, levels)
    decreases x, 3
  {
    hide ParseSub, ParseLoop, ParseSimple, AtPos, Print, Levels, Tail;
    if FencedLeft(x, op) {
      FencedReads(ts, x, p, levels);
      if levels > 0 { StepOpen(ts, p, limit, levels); } else { NoLevels(ts, p, limit); }
    } else {
      TailBelow(x, op);
      PrintedReads(ts, x, p, limit, levels);
    }
  }

  // What may stay without parentheses before op has operators that bind as strongly.
  lemma TailBelow(x: Exp, op: BinOpr)
    requires !FencedLeft(x, op)
    ensures x.Bin? ==> Left(x.op) >= Left(op)
  {
  }

  // An expression in parentheses.
  lemma FencedReads(ts: seq<Token>, x: Exp, p: nat, levels: nat)
    requires AtPos(ts, p, [OpenTok] + Print(x) + [CloseTok]) && Peek(ts, p + |Print(x)| + 2) != OpenTok
    ensures p < |ts| && ts[p] == OpenTok
    ensures levels > 0 ==> ParseSimple(ts, p, levels) == if levels < Levels(x) + 1 then TooDeep else Tree(x, p + |Print(x)| + 2)
    decreases x, 2
  {
    hide ParseSub, ParseLoop, ParseSimple, AtPos, Print, Levels, Tail;
    assert [OpenTok] + Print(x) + [CloseTok] == [OpenTok] + (Print(x) + [CloseTok]);
    AtSplit(ts, p, [OpenTok], Print(x) + [CloseTok]);
    AtSplit(ts, p + 1, Print(x), [CloseTok]);
    var q := p + 1 + |Print(x)|;
    FirstToken(ts, p, OpenTok);
    FirstToken(ts, q, CloseTok);
    if levels > 0 {
      PrintedReads(ts, x, p + 1, 0, levels - 1);
      StepParens(ts, p, levels);
      LevelsPositive(x);
      if levels > 1 { StepStop(ts, x, q, 0, levels - 1); }
    }
  }

  // A right operand, or that of a unary operator, is read completely and no further.
  lemma OperandReads(ts: seq<Token>, y: Exp, p: nat, limit: nat, levels: nat)
    requires AtPos(ts, p, Operand(y, limit)) && Stops(Peek(ts, p + |Operand(y, limit)|), OperandTail(y, limit))
    ensures ParseSub(ts, p, limit, levels) == if levels < OperandLevels(y, limit) then TooDeep else Tree(y, p + |Operand(y, limit)|)
    decreases y, 3
  {
    hide ParseSub, ParseLoop, ParseSimple, AtPos, Print, Levels, Tail;
    LevelsPositive(y);
    InBounds(ts, p, Operand(y, limit));
    if Fenced(y, limit) {
      FencedReads(ts, y, p, levels);
      if levels > 0 { StepOpen(ts, p, limit, levels); } else { NoLevels(ts, p, limit); }
    } else {
      PrintedReads(ts, y, p, limit, levels);
    }
    if levels > 0 { StepStop(ts, y, p + |Operand(y, limit)|, limit, levels); }
  }

  lemma LevelsPositive(y: Exp)
    ensures Levels(y) >= 1
  {
  }

  // Printing and then parsing gives the tree back, if it is not too deep for the parser's limit on nested calls.
  lemma RoundTrip(e: Exp, levels: nat)
    ensures ParseSub(Print(e), 0, 0, levels) == if levels < Levels(e) then TooDeep else Tree(e, |Print(e)|)
  {
    hide ParseSub, ParseLoop, Print, Levels;
    var ts := Print(e);
    assert ts[0..0 + |ts|] == ts;
    LevelsPositive(e);
    PrintedReads(ts, e, 0, 0, levels);
    if levels > 0 { StepStop(ts, e, |ts|, 0, levels); }
  }

  // ---- no parentheses too many ----

  function Opens(ts: seq<Token>): nat { if ts == [] then 0 else (if ts[0] == OpenTok then 1 else 0) + Opens(ts[1..]) }

  lemma {:induction false} OpensConcat(a: seq<Token>, b: seq<Token>)
    ensures Opens(a + b) == Opens(a) + Opens(b)
  {
    if a == [] {
      assert a + b == b;
    } else {
      assert (a + b)[1..] == a[1..] + b;
      OpensConcat(a[1..], b);
    }
  }

  lemma OpensSplit(ts: seq<Token>, p: nat, m: nat, n: nat)
    requires p <= m <= n <= |ts|
    ensures Opens(ts[p..n]) == Opens(ts[p..m]) + Opens(ts[m..n])
  {
    assert ts[p..n] == ts[p..m] + ts[m..n];
    OpensConcat(ts[p..m], ts[m..n]);
  }

  lemma OpensOne(ts: seq<Token>, p: nat)
    requires p < |ts|
    ensures Opens(ts[p..p + 1]) == if ts[p] == OpenTok then 1 else 0
  {
    assert ts[p..p + 1] == [ts[p]];
    assert Opens([ts[p]][1..]) == 0;
  }

  function One(b: bool): nat { if b then 1 else 0 }

  lemma ParensOpens(fenced: bool, ts: seq<Token>)
    ensures Opens(Parens(fenced, ts)) == Opens(ts) + One(fenced)
  {
    if fenced {
      OpensConcat([OpenTok] + ts, [CloseTok]);
      OpensConcat([OpenTok], ts);
      OpensOne([OpenTok], 0);
      OpensOne([CloseTok], 0);
      assert [OpenTok][0..1] == [OpenTok] && [CloseTok][0..1] == [CloseTok];
    }
  }

  // The parentheses in what is printed.
  lemma PrintOpens(e: Exp)
    ensures match e
      case Atom(_) => Opens(Print(e)) == 0
      case Un(_, x) => Opens(Print(e)) == Opens(Print(x)) + One(Fenced(x, UNARY_PRIORITY))
      case Bin(op, x, y) => Opens(Print(e)) == Opens(Print(x)) + One(FencedLeft(x, op)) + Opens(Print(y)) + One(Fenced(y, Right(op)))
  {
    hide Opens, Fenced, FencedLeft, Parens;
    match e
    case Atom(n) => OpensOne([IntTok(n)], 0); assert [IntTok(n)][0..1] == [IntTok(n)];
    case Un(u, x) =>
      var t := SymTok(Sign(u));
      var px := Parens(Fenced(x, UNARY_PRIORITY), Print(x));
      OpensConcat([t], px);
      OpensOne([t], 0);
      assert [t][0..1] == [t];
      ParensOpens(Fenced(x, UNARY_PRIORITY), Print(x));
    case Bin(op, x, y) =>
      var t := SymTok(Symbol(op));
      var px, py := Parens(FencedLeft(x, op), Print(x)), Parens(Fenced(y, Right(op)), Print(y));
      OpensConcat(px + [t], py);
      OpensConcat(px, [t]);
      OpensOne([t], 0);
      assert [t][0..1] == [t];
      ParensOpens(FencedLeft(x, op), Print(x));
      ParensOpens(Fenced(y, Right(op)), Print(y));
  }

  // An operator that something inside e would have taken.
  predicate Grabs(e: Exp, t: Token) { GetBinOpr(t).Some? && Left(GetBinOpr(t).value) > Tail(e) }

  // Reading e from p to n took enough parentheses for its place, with limit m and what follows.
  predicate Enough(ts: seq<Token>, p: nat, n: nat, e: Exp, m: nat)
    requires p <= n <= |ts|
  {
    Opens(ts[p..n]) >= Opens(Print(e)) + One(Fenced(e, m) || Grabs(e, Peek(ts, n)))
  }

  // A tree that ends in an operand y read with limit m grabs only what y grabs, as y was followed by
  // nothing that binds tighter.
  lemma GrabsLess(t: Token, tail: nat, y: Exp, m: nat)
    requires tail == (if Fenced(y, m) then m else Min(m, Tail(y))) && (GetBinOpr(t).Some? ==> Left(GetBinOpr(t).value) <= m)
    ensures GetBinOpr(t).Some? && Left(GetBinOpr(t).value) > tail ==> !Fenced(y, m) && Grabs(y, t)
  {
  }

  lemma {:induction false} SubEnough(ts: seq<Token>, p: nat, limit: nat, levels: nat)
    ensures var r := ParseSub(ts, p, limit, levels);
      r.Tree? ==> Enough(ts, p, r.next, r.e, limit) && (GetBinOpr(Peek(ts, r.next)).Some? ==> Left(GetBinOpr(Peek(ts, r.next)).value) <= limit)
    decreases |ts| - p, 2
  {
    hide Opens, Print, Enough, Tail;
    var r := ParseSub(ts, p, limit, levels);
    if r.Tree? {
      var u := GetUnOpr(ts[p]);
      if u.Some? {
        var x := ParseSub(ts, p + 1, UNARY_PRIORITY, levels - 1);
        SubEnough(ts, p + 1, UNARY_PRIORITY, levels - 1);
        UnEnough(ts, p, u.value, x.e, x.next, limit);
        LoopEnough(ts, Un(u.value, x.e), p, x.next, limit, levels);
      } else {
        var x := ParseSimple(ts, p, levels);
        SimpleEnough(ts, p, limit, levels);
        LoopEnough(ts, x.e, p, x.next, limit, levels);
      }
    }
  }

  lemma UnEnough(ts: seq<Token>, p: nat, u: UnOpr, x: Exp, n: nat, limit: nat)
    requires p < n <= |ts| && Enough(ts, p + 1, n, x, UNARY_PRIORITY)
    requires GetBinOpr(Peek(ts, n)).Some? ==> Left(GetBinOpr(Peek(ts, n)).value) <= UNARY_PRIORITY
    ensures Enough(ts, p, n, Un(u, x), limit)
  {
    hide Opens, Print;
    OpensSplit(ts, p, p + 1, n);
    PrintOpens(Un(u, x));
    GrabsLess(Peek(ts, n), Tail(Un(u, x)), x, UNARY_PRIORITY);
  }

  lemma SimpleEnough(ts: seq<Token>, p: nat, limit: nat, levels: nat)
    requires p < |ts| && levels > 0
    ensures var r := ParseSimple(ts, p, levels); r.Tree? ==> Enough(ts, p, r.next, r.e, limit)
    decreases |ts| - p, 1
  {
    hide Opens, Print, ParseSub, ParseLoop;
    var r := ParseSimple(ts, p, levels);
    if r.Tree? {
      if ts[p].IntTok? {
        PrintOpens(r.e);
        SmallPriorities();
      } else {
        SubEnough(ts, p + 1, 0, levels - 1);
        OpensOne(ts, p);
        OpensSplit(ts, p, p + 1, r.next - 1);
        OpensSplit(ts, p, r.next - 1, r.next);
      }
    }
  }

  lemma SmallPriorities()
    ensures forall op: BinOpr :: Left(op) <= 255
  {
  }

  lemma {:induction false} LoopEnough(ts: seq<Token>, v: Exp, p: nat, q: nat, limit: nat, levels: nat)
    requires p < q <= |ts| && levels > 0 && Enough(ts, p, q, v, limit)
    ensures var r := ParseLoop(ts, v, q, limit, levels);
      r.Tree? ==> Enough(ts, p, r.next, r.e, limit) && (GetBinOpr(Peek(ts, r.next)).Some? ==> Left(GetBinOpr(Peek(ts, r.next)).value) <= limit)
    decreases |ts| - q, 0
  {
    hide Opens, Print, Enough, Tail, ParseSub;
    var op := GetBinOpr(Peek(ts, q));
    if op.Some? && Left(op.value) > limit {
      var y := ParseSub(ts, q + 1, Right(op.value), levels - 1);
      if y.Tree? {
        SubEnough(ts, q + 1, Right(op.value), levels - 1);
        BinEnough(ts, p, q, op.value, v, y.e, y.next, limit);
        LoopEnough(ts, Bin(op.value, v, y.e), p, y.next, limit, levels);
      }
    }
  }

  lemma BinEnough(ts: seq<Token>, p: nat, q: nat, op: BinOpr, x: Exp, y: Exp, n: nat, limit: nat)
    requires p < q < n <= |ts| && GetBinOpr(ts[q]) == Some(op) && Left(op) > limit
    requires Enough(ts, p, q, x, limit) && Enough(ts, q + 1, n, y, Right(op))
    requires GetBinOpr(Peek(ts, n)).Some? ==> Left(GetBinOpr(Peek(ts, n)).value) <= Right(op)
    ensures Enough(ts, p, n, Bin(op, x, y), limit)
  {
    hide Opens, Print;
    OpensSplit(ts, p, q, n);
    OpensSplit(ts, q, q + 1, n);
    PrintOpens(Bin(op, x, y));
    GrabsLess(Peek(ts, n), Tail(Bin(op, x, y)), y, Right(op));
  }

  // Any text that is read as e has at least the parentheses that are printed: none of them can be left out.
  lemma FewestParentheses(ts: seq<Token>, e: Exp, n: nat, levels: nat)
    requires ParseSub(ts, 0, 0, levels) == Tree(e, n)
    ensures Opens(ts[..n]) >= Opens(Print(e))
  {
    hide ParseSub, Print, Opens;
    SubEnough(ts, 0, 0, levels);
    assert ts[0..n] == ts[..n];
  }

  // In particular, without any one pair the text is read as another tree, or not at all.
  lemma NoneSpare(e: Exp, i: nat, j: nat, levels: nat)
    requires i < j < |Print(e)| && Print(e)[i] == OpenTok && Print(e)[j] == CloseTok
    ensures var ts := Print(e)[..i] + Print(e)[i + 1..j] + Print(e)[j + 1..]; ParseSub(ts, 0, 0, levels) != Tree(e, |ts|)
  {
    hide ParseSub, Print, Opens;
    var us := Print(e);
    var ts := us[..i] + us[i + 1..j] + us[j + 1..];
    if ParseSub(ts, 0, 0, levels) == Tree(e, |ts|) {
      FewestParentheses(ts, e, |ts|, levels);
      assert ts[..|ts|] == ts && us[0..|us|] == us && us[0..i] == us[..i] && us[j + 1..|us|] == us[j + 1..];
      OpensConcat(us[..i] + us[i + 1..j], us[j + 1..]);
      OpensConcat(us[..i], us[i + 1..j]);
      OpensSplit(us, 0, i, |us|);
      OpensSplit(us, i, i + 1, |us|);
      OpensSplit(us, i + 1, j, |us|);
      OpensSplit(us, j, j + 1, |us|);
      OpensOne(us, i);
      OpensOne(us, j);
    }
  }
}
