// What each letter of a format stands for, as the bytes that 'string.pack' gives.
module PackingLaws {
  import opened Integers
  import opened PackedIntegers
  import opened ByteOrder
  import opened Packing

  function Pack(fmt: seq<char>, native: bool, args: seq<Value>): Outcome<seq<Byte>> {
    Packed(LayoutOf(Start(fmt, native), native), args, [])
  }

  function Bytes(s: LuaString): seq<Byte> { s }

  lemma NoMore(f: Format, native: bool)
    requires f.rest == [] && 1 <= f.maxalign <= MAXINTSIZE
    ensures LayoutOf(f, native) == End
  {
  }

  // A letter that takes no numeral, in a format without alignment.
  lemma Letter(f: Format, native: bool, opt: Option, size: nat, next: Format)
    requires f.rest != [] && f.rest[0] != '\0' && f.maxalign == 1 == next.maxalign && opt != KPaddAlign
    requires ReadOption(f, native) == Ok(OptionRead(opt, size, next))
    ensures LayoutOf(f, native) == Step(Directive(opt, size, 1, next.little), LayoutOf(next, native))
  {
  }

  // A format of a byte order and one letter.
  lemma OrderAndLetter(order: char, c: char, native: bool, opt: Option, size: nat)
    requires order in "<>=" && c != '\0' && opt != KPaddAlign
    requires forall f: Format :: f.rest == [c] ==> ReadOption(f, native) == Ok(OptionRead(opt, size, f.(rest := [])))
    ensures ValidOption(opt, size)
    ensures var little := order == '<' || (order == '=' && native);
      LayoutOf(Start([order, c], native), native) == Step(Directive(KNop, 0, 1, little), Step(Directive(opt, size, 1, little), End))
  {
    var little := order == '<' || (order == '=' && native);
    var f0 := Start([order, c], native);
    var f1 := Format([c], little, 1);
    var f2 := Format([], little, 1);
    assert f0.rest[1..] == [c];
    Letter(f0, native, KNop, 0, f1);
    Letter(f1, native, opt, size, f2);
    NoMore(f2, native);
  }

  // What is packed by such a format: the byte order adds nothing.
  lemma PackedByOne(d0: Directive, d: Directive, args: seq<Value>)
    requires d0 == Directive(KNop, 0, 1, d.little) && d.align == 1 && ValidDirective(d)
    ensures Packed(Step(d0, Step(d, End)), args, []) == PackOne(d, args)
  {
    Adds(d0, Step(d, End), args, []);
    Adds(d, End, args, []);
    assert [] + Pad(Padding(0, 1)) + Pad(0) == [];
    var r := PackOne(d, args);
    if r.Ok? { assert [] + Pad(Padding(0, 1)) + r.value == r.value; }
  }

  lemma Adds(d: Directive, rest: Layout, args: seq<Value>, out: seq<Byte>)
    requires ValidDirective(d) && ValidLayout(rest)
    ensures var r := PackOne(d, args);
      Packed(Step(d, rest), args, out) ==
        if r.Error? then r else Packed(rest, After(d, args), out + Pad(Padding(|out|, d.align)) + r.value)
  {
    hide PackOne, Padding;
  }

  // ---- integers ----

  const INTEGER_LETTERS := "bBhHiIlLjJT"

  function SizeOf(c: char): nat {
    match c
    case 'b' => 1
    case 'B' => 1
    case 'h' => 2
    case 'H' => 2
    case 'i' => 4
    case 'I' => 4
    case _ => 8
  }

  predicate IsSigned(c: char) { c in "bhilj" }

  // The range of a letter; with eight bytes every integer has its place.
  predicate InRange(c: char, n: Integer) {
    match c
    case 'b' => -0x80 <= n < 0x80
    case 'B' => 0 <= n < 0x100
    case 'h' => -0x8000 <= n < 0x8000
    case 'H' => 0 <= n < 0x1_0000
    case 'i' => -0x8000_0000 <= n < 0x8000_0000
    case 'I' => 0 <= n < 0x1_0000_0000
    case _ => true
  }

  lemma RangeIsPackable(c: char, n: Integer)
    requires c in INTEGER_LETTERS
    ensures Packable(n, SizeOf(c), IsSigned(c)) == InRange(c, n)
  {
    assert Pow256(0) == 1 && Pow256(1) == 0x100 && Pow256(2) == 0x1_0000;
    assert Pow256(3) == 0x100_0000 && Pow256(4) == 0x1_0000_0000;
  }

  lemma IntegerLetter(c: char, native: bool, f: Format)
    requires c in INTEGER_LETTERS && f.rest == [c]
    ensures ReadOption(f, native) == Ok(OptionRead(if IsSigned(c) then KInt else KUint, SizeOf(c), f.(rest := [])))
  {
    assert f.rest[1..] == [];
  }

  // With '<' the least significant byte comes first, with '>' the most significant one, with '=' as the machine has it.
  lemma IntegersPacked(c: char, order: char, native: bool, n: Integer)
    requires c in INTEGER_LETTERS && order in "<>="
    ensures var i := if IsSigned(c) then n else n % TWO64;
      Pack([order, c], native, [Int(n)]) ==
        if !InRange(c, n) then Error(if IsSigned(c) then IntegerOverflow else UnsignedOverflow)
        else Ok(if order == '<' || (order == '=' && native) then Low(i, SizeOf(c)) else High(i, SizeOf(c)))
  {
    hide LayoutOf, ReadOption, IntBytes, Packable, InRange, Pow256, Low, High;
    var opt := if IsSigned(c) then KInt else KUint;
    forall f: Format | f.rest == [c] ensures ReadOption(f, native) == Ok(OptionRead(opt, SizeOf(c), f.(rest := []))) {
      IntegerLetter(c, native, f);
    }
    OrderAndLetter(order, c, native, opt, SizeOf(c));
    var little := order == '<' || (order == '=' && native);
    PackedByOne(Directive(KNop, 0, 1, little), Directive(opt, SizeOf(c), 1, little), [Int(n)]);
    RangeIsPackable(c, n);
    BytesAre(if IsSigned(c) then n else n % TWO64, SizeOf(c));
  }

  // ---- sizes given by a numeral ----

  function Numeral1(k: nat): char
    requires k < 10
  {
    "0123456789"[k]
  }

  lemma ReadsNumeral(s: seq<char>, k: nat)
    requires 0 < k < 10 && s == [Numeral1(k)]
    ensures ReadNumeral(s) == (Numeral.Numeral(k), [])
  {
    assert s[1..] == [];
  }

  // 'i', 'I' and 's' take a size, 'c' a length.
  lemma LetterAndNumeral(c: char, k: nat, native: bool)
    requires c in "iIsc" && 0 < k < 10
    ensures var opt := match c case 'i' => KInt case 'I' => KUint case 's' => KString case _ => KChar;
      LayoutOf(Start([c, Numeral1(k)], native), native) == Step(Directive(opt, k, 1, native), End)
  {
    var f0 := Start([c, Numeral1(k)], native);
    var f1 := Format([], native, 1);
    assert f0.rest[1..] == [Numeral1(k)];
    ReadsNumeral(f0.rest[1..], k);
    var opt := match c case 'i' => KInt case 'I' => KUint case 's' => KString case _ => KChar;
    Letter(f0, native, opt, k, f1);
    NoMore(f1, native);
  }

  lemma PackedAlone(d: Directive, args: seq<Value>)
    requires ValidDirective(d) && d.align == 1
    ensures Packed(Step(d, End), args, []) == PackOne(d, args)
  {
    Adds(d, End, args, []);
    var r := PackOne(d, args);
    if r.Ok? { assert [] + Pad(Padding(0, 1)) + r.value == r.value; }
  }

  lemma {:induction false} SmallFits(k: nat)
    requires k > 0
    ensures Pow256(k) >= 256 && Half(k) >= 128
  {
    assert Pow256(k - 1) >= 1;
  }

  // Small integers fit every size.
  lemma SizedIntegers(k: nat, native: bool, n: Integer)
    requires 0 < k < 10
    ensures -128 <= n < 128 ==> Pack(['i', Numeral1(k)], native, [Int(n)]) == Ok(if native then Low(n, k) else High(n, k))
    ensures 0 <= n < 256 ==> Pack(['I', Numeral1(k)], native, [Int(n)]) == Ok(if native then Low(n, k) else High(n, k))
  {
    hide LayoutOf, Packed, PackOne, Low, High;
    LetterAndNumeral('i', k, native);
    LetterAndNumeral('I', k, native);
    PackedAlone(Directive(KInt, k, 1, native), [Int(n)]);
    PackedAlone(Directive(KUint, k, 1, native), [Int(n)]);
    SmallPacked(k, native, n);
  }

  lemma SmallPacked(k: nat, little: bool, n: Integer)
    requires 0 < k < 10
    ensures -128 <= n < 128 ==> PackOne(Directive(KInt, k, 1, little), [Int(n)]) == Ok(if little then Low(n, k) else High(n, k))
    ensures 0 <= n < 256 ==> PackOne(Directive(KUint, k, 1, little), [Int(n)]) == Ok(if little then Low(n, k) else High(n, k))
  {
    hide IntBytes, Pow256, Half, Low, High;
    SmallFits(k);
    BytesAre(n, k);
    assert 0 <= n < 256 ==> ToUnsigned(n) == n;
  }

  // ---- strings ----

  // 's' writes the length before the string, 'c' nothing but the string of that length.
  lemma SizedStrings(k: nat, native: bool, s: LuaString)
    requires 0 < k < 10
    ensures |s| < 256 ==> Pack(['s', Numeral1(k)], native, [Str(s)]) == Ok((if native then Low(|s|, k) else High(|s|, k)) + s)
    ensures |s| == k ==> Pack(['c', Numeral1(k)], native, [Str(s)]) == Ok(Bytes(s))
    ensures |s| != k ==> Pack(['c', Numeral1(k)], native, [Str(s)]) == Error(WrongLength)
  {
    hide LayoutOf, IntBytes, Pow256, Half;
    LetterAndNumeral('s', k, native);
    LetterAndNumeral('c', k, native);
    PackedAlone(Directive(KString, k, 1, native), [Str(s)]);
    PackedAlone(Directive(KChar, k, 1, native), [Str(s)]);
    SmallFits(k);
    BytesAre(|s|, k);
  }

  // Reading a letter that is no option, or lacks its size.
  lemma OrderAndFault(order: char, c: char, native: bool, w: Fault)
    requires order in "<>=" && c != '\0' && forall f: Format :: f.rest == [c] ==> ReadOption(f, native) == Error(w)
    ensures LayoutOf(Start([order, c], native), native)
      == Step(Directive(KNop, 0, 1, order == '<' || (order == '=' && native)), Invalid(w))
  {
    var little := order == '<' || (order == '=' && native);
    var f0 := Start([order, c], native);
    assert f0.rest[1..] == [c];
    Letter(f0, native, KNop, 0, Format([c], little, 1));
  }

  lemma BareLetters(native: bool, f: Format)
    requires |f.rest| == 1
    ensures match f.rest[0]
      case 'z' => ReadOption(f, native) == Ok(OptionRead(KZstr, 0, f.(rest := [])))
      case 's' => ReadOption(f, native) == Ok(OptionRead(KString, 8, f.(rest := [])))
      case 'x' => ReadOption(f, native) == Ok(OptionRead(KPadding, 1, f.(rest := [])))
      case ' ' => ReadOption(f, native) == Ok(OptionRead(KNop, 0, f.(rest := [])))
      case 'c' => ReadOption(f, native) == Error(MissingSize)
      case '?' => ReadOption(f, native) == Error(InvalidOption)
      case _ => true
  {
    assert f.rest[1..] == [];
  }

  lemma OrderAndBare(order: char, c: char, native: bool, opt: Option, size: nat)
    requires order in "<>="
    requires (c, opt, size) in {('z', KZstr, 0), ('s', KString, 8), ('x', KPadding, 1), (' ', KNop, 0)}
    ensures var little := order == '<' || (order == '=' && native);
      ValidOption(opt, size)
      && forall args :: Packed(LayoutOf(Start([order, c], native), native), args, []) == PackOne(Directive(opt, size, 1, little), args)
  {
    hide LayoutOf, ReadOption, PackOne;
    forall f: Format | f.rest == [c] ensures ReadOption(f, native) == Ok(OptionRead(opt, size, f.(rest := []))) { BareLetters(native, f); }
    OrderAndLetter(order, c, native, opt, size);
    var little := order == '<' || (order == '=' && native);
    forall args ensures Packed(LayoutOf(Start([order, c], native), native), args, []) == PackOne(Directive(opt, size, 1, little), args) {
      PackedByOne(Directive(KNop, 0, 1, little), Directive(opt, size, 1, little), args);
    }
  }

  // 'z' writes the string and a zero, 'x' a zero, ' ' nothing; a bare 's' has a length of eight bytes.
  lemma OtherLetters(order: char, native: bool, s: LuaString)
    requires order in "<>="
    ensures Pack([order, 'z'], native, [Str(s)]) == if 0 in s then Error(ContainsZeros) else Ok(s + [0])
    ensures Pack([order, 's'], native, [Str(s)])
      == Ok((if order == '<' || (order == '=' && native) then Low(|s|, 8) else High(|s|, 8)) + s)
    ensures Pack([order, 'x'], native, []) == Ok([0])
    ensures Pack([order, ' '], native, []) == Ok([])
  {
    hide LayoutOf, Packed, PackOne, Low, High;
    var little := order == '<' || (order == '=' && native);
    OrderAndBare(order, 'z', native, KZstr, 0);
    OrderAndBare(order, 's', native, KString, 8);
    OrderAndBare(order, 'x', native, KPadding, 1);
    OrderAndBare(order, ' ', native, KNop, 0);
    ZstrBytes(little, s);
    StringBytes(little, s);
    PaddingBytes(little);
  }

  lemma ZstrBytes(little: bool, s: LuaString)
    ensures PackOne(Directive(KZstr, 0, 1, little), [Str(s)]) == if 0 in s then Error(ContainsZeros) else Ok(s + [0])
  {
    assert HasZero(s) <==> 0 in s;
    hide HasZero;
  }

  lemma StringBytes(little: bool, s: LuaString)
    ensures PackOne(Directive(KString, 8, 1, little), [Str(s)]) == Ok((if little then Low(|s|, 8) else High(|s|, 8)) + s)
  {
    hide IntBytes, Pow256, HasZero, Low, High;
    SizeOfInteger();
    BytesAre(|s|, 8);
    assert Packable(|s|, 8, false);
  }

  lemma PaddingBytes(little: bool)
    ensures PackOne(Directive(KPadding, 1, 1, little), []) == Ok([0])
    ensures PackOne(Directive(KNop, 0, 1, little), []) == Ok([])
  {
    assert Pad(1) == [0] && Pad(0) == [];
  }

  lemma BadLetters(order: char, native: bool, args: seq<Value>)
    requires order in "<>="
    ensures Pack([order, 'c'], native, args) == Error(MissingSize)
    ensures Pack([order, '?'], native, args) == Error(InvalidOption)
  {
    hide LayoutOf, ReadOption;
    forall f: Format | f.rest == ['c'] ensures ReadOption(f, native) == Error(MissingSize) { BareLetters(native, f); }
    forall f: Format | f.rest == ['?'] ensures ReadOption(f, native) == Error(InvalidOption) { BareLetters(native, f); }
    OrderAndFault(order, 'c', native, MissingSize);
    OrderAndFault(order, '?', native, InvalidOption);
    Adds(Directive(KNop, 0, 1, order == '<' || (order == '=' && native)), Invalid(MissingSize), args, []);
    Adds(Directive(KNop, 0, 1, order == '<' || (order == '=' && native)), Invalid(InvalidOption), args, []);
  }

  // ---- alignment ----

  lemma Next(f: Format, native: bool, d: Directive, next: Format)
    requires f.rest != [] && f.rest[0] != '\0' && 1 <= f.maxalign <= MAXINTSIZE
    requires ReadDirective(f, native) == Ok(DirectiveRead(d, next))
    ensures LayoutOf(f, native) == Step(d, LayoutOf(next, native))
  {
  }

  // '<', then '!' and a size, or no '!'.
  lemma Aligning(k: nat, t: seq<char>, native: bool)
    requires k in {1, 2, 4, 8} && t != [] && !IsDigit(t[0])
    ensures LayoutOf(Start(['<', '!', Numeral1(k)] + t, native), native)
      == Step(Directive(KNop, 0, 1, true), Step(Directive(KNop, 0, 1, true), LayoutOf(Format(t, true, k), native)))
  {
    var f0 := Start(['<', '!', Numeral1(k)] + t, native);
    var f1 := Format(['!', Numeral1(k)] + t, true, 1);
    assert f0.rest[1..] == f1.rest && f1.rest[1..] == [Numeral1(k)] + t && ([Numeral1(k)] + t)[1..] == t;
    assert ReadNumeral([Numeral1(k)] + t) == (Numeral.Numeral(k), t);
    Next(f0, native, Directive(KNop, 0, 1, true), f1);
    Next(f1, native, Directive(KNop, 0, 1, true), Format(t, true, k));
  }

  // A byte and an integer of four bytes.
  lemma ByteThenInteger(k: nat, native: bool)
    requires k in {1, 2, 4, 8}
    ensures LayoutOf(Format("bi", true, k), native)
      == Step(Directive(KInt, 1, 1, true), Step(Directive(KInt, 4, if k < 4 then k else 4, true), End))
  {
    var f0, f1, f2 := Format("bi", true, k), Format("i", true, k), Format("", true, k);
    assert f0.rest[1..] == f1.rest && f1.rest[1..] == f2.rest;
    Next(f0, native, Directive(KInt, 1, 1, true), f1);
    Next(f1, native, Directive(KInt, 4, if k < 4 then k else 4, true), f2);
    NoMore(f2, native);
  }

  lemma ByteThenPadding(k: nat, native: bool)
    requires k in {1, 2, 4, 8}
    ensures LayoutOf(Format("bXi", true, k), native)
      == Step(Directive(KInt, 1, 1, true), Step(Directive(KPaddAlign, 0, if k < 4 then k else 4, true), End))
  {
    var f0, f1, f2, f3 := Format("bXi", true, k), Format("Xi", true, k), Format("i", true, k), Format("", true, k);
    assert f0.rest[1..] == f1.rest && f1.rest[1..] == f2.rest && f2.rest[1..] == f3.rest;
    Next(f0, native, Directive(KInt, 1, 1, true), f1);
    Next(f1, native, Directive(KPaddAlign, 0, if k < 4 then k else 4, true), f3);
    NoMore(f3, native);
  }

  lemma SmallBytes(a: Byte)
    requires a < 128
    ensures IntBytes(a, true, 1) == [a] && IntBytes(a, true, 4) == [a, 0, 0, 0]
    ensures Packable(a, 1, true) && Packable(a, 4, true)
  {
    hide IntBytes;
    BytesAre(a, 1);
    BytesAre(a, 4);
    assert Low(0, 3) == [0, 0, 0];
    SmallFits(1);
    SmallFits(4);
  }

  // Under '!' an integer begins at a multiple of its size, or of the largest alignment if that is less; 'X'
  // pads like the option after it, of which nothing is written.
  lemma Alignments(k: nat, native: bool, a: Byte, b: Byte)
    requires k in {1, 2, 4, 8} && a < 128 && b < 128
    ensures Pack(['<', '!', Numeral1(k)] + "bi", native, [Int(a), Int(b)])
      == Ok([a] + (if k == 1 then [] else if k == 2 then [0] else [0, 0, 0]) + [b, 0, 0, 0])
    ensures Pack(['<', '!', Numeral1(k)] + "bXi", native, [Int(a)])
      == Ok([a] + if k == 1 then [] else if k == 2 then [0] else [0, 0, 0])
  {
    hide LayoutOf, IntBytes, Packable, Packed;
    var nop, one := Directive(KNop, 0, 1, true), Directive(KInt, 1, 1, true);
    var four, none := Directive(KInt, 4, if k < 4 then k else 4, true), Directive(KPaddAlign, 0, if k < 4 then k else 4, true);
    var gap: seq<Byte> := if k == 1 then [] else if k == 2 then [0] else [0, 0, 0];
    Aligning(k, "bi", native);
    Aligning(k, "bXi", native);
    ByteThenInteger(k, native);
    ByteThenPadding(k, native);
    SmallBytes(a);
    SmallBytes(b);
    var l, m := Step(one, Step(four, End)), Step(one, Step(none, End));
    TwoNops(l, [Int(a), Int(b)]);
    TwoNops(m, [Int(a)]);
    Adds(one, Step(four, End), [Int(a), Int(b)], []);
    Adds(one, Step(none, End), [Int(a)], []);
    assert [] + Pad(Padding(0, 1)) + [a] == [a];
    assert Pad(Padding(1, four.align)) == gap;
    Adds(four, End, [Int(b)], [a]);
    Adds(none, End, [], [a]);
    assert [Int(a), Int(b)][1..] == [Int(b)] && [Int(a)][1..] == [];
    Ended([Int(b)][1..], [a] + gap + [b, 0, 0, 0]);
    Ended([], [a] + gap);
    assert [a] + gap + Pad(0) == [a] + gap;
  }

  lemma Ended(args: seq<Value>, out: seq<Byte>)
    ensures Packed(End, args, out) == Ok(out)
  {
  }

  lemma TwoNops(l: Layout, args: seq<Value>)
    requires ValidLayout(l)
    ensures var nop := Directive(KNop, 0, 1, true); Packed(Step(nop, Step(nop, l)), args, []) == Packed(l, args, [])
  {
    hide Packed;
    var nop := Directive(KNop, 0, 1, true);
    Adds(nop, Step(nop, l), args, []);
    Adds(nop, l, args, []);
    assert [] + Pad(Padding(0, 1)) + Pad(0) == [];
  }

  // ---- limits ----

  lemma TwoDigits(t: nat, u: nat)
    requires t < 10 && u < 10
    ensures ReadNumeral([Numeral1(t), Numeral1(u)]) == (Numeral.Numeral(10 * t + u), [])
  {
    var s := [Numeral1(t), Numeral1(u)];
    assert s[1..] == [Numeral1(u)] && [Numeral1(u)][1..] == [];
    assert ReadDigits([Numeral1(u)], t) == (10 * t + u, []);
  }

  // An integer has a size of 1 to 16 bytes.
  lemma SizeLimits(t: nat, u: nat, native: bool)
    requires t < 10 && u < 10
    ensures var l := LayoutOf(Start(['i', Numeral1(t), Numeral1(u)], native), native);
      if 1 <= 10 * t + u <= 16 then l == Step(Directive(KInt, 10 * t + u, 1, native), End) else l == Invalid(SizeOutOfLimits)
  {
    hide ReadNumeral, ReadDigits;
    var f0, f1 := Start(['i', Numeral1(t), Numeral1(u)], native), Format([], native, 1);
    assert f0.rest[1..] == [Numeral1(t), Numeral1(u)];
    TwoDigits(t, u);
    if 1 <= 10 * t + u <= 16 {
      Letter(f0, native, KInt, 10 * t + u, f1);
      NoMore(f1, native);
    }
  }

  // A bare '!' stands for eight; an alignment that is no power of two is an error where it is used.
  lemma BareAlignment(native: bool)
    ensures LayoutOf(Format("!l", true, 1), native) == Step(Directive(KNop, 0, 1, true), Step(Directive(KInt, 8, 8, true), End))
    ensures LayoutOf(Format("i", true, 3), native) == Invalid(AlignmentNotPowerOf2)
  {
    var f0, f1, f2 := Format("!l", true, 1), Format("l", true, 8), Format("", true, 8);
    assert f0.rest[1..] == f1.rest && f1.rest[1..] == f2.rest;
    Next(f0, native, Directive(KNop, 0, 1, true), f1);
    Next(f1, native, Directive(KInt, 8, 8, true), f2);
    NoMore(f2, native);
    assert "i"[1..] == "";
  }
}
