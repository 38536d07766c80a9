// string.pack, string.packsize and string.unpack. A format is read option by option into a layout; packing,
// sizing and unpacking walk the same layout. 64-bit machine; float options are not part of this model.
module Packing {
  import opened Integers
  import opened PackedIntegers

  const MAX_INT: nat := 0x7fff_ffff
  const MAXALIGN: nat := 8
  const TWO63: nat := 0x8000_0000_0000_0000
  const PADBYTE: Byte := 0

  type LuaString = s: seq<Byte> | |s| < TWO63

  datatype Value = Int(i: Integer) | Str(s: LuaString)

  datatype Fault =
    | InvalidOption | MissingSize | SizeOutOfLimits | InvalidNextOption | AlignmentNotPowerOf2 | FloatOption
    | BadArgument | IntegerOverflow | UnsignedOverflow | WrongLength | LengthDoesNotFit | ContainsZeros
    | ResultTooLarge | VariableLength
    | InitialPosition | DataTooShort | DoesNotFitInteger | LengthWraps

  datatype Outcome<T> = Ok(value: T) | Error(why: Fault)

  datatype Option = KInt | KUint | KChar | KString | KZstr | KPadding | KPaddAlign | KNop

  // ---- formats ----

  // What is left of a format, with the modes set by what was read of it.
  datatype Format = Format(rest: seq<char>, little: bool, maxalign: nat)

  // Reading past the end of a C string gives its terminator.
  function Head(s: seq<char>): char { if s == [] then '\0' else s[0] }

  predicate IsDigit(c: char) { '0' <= c <= '9' }

  function ReadDigits(s: seq<char>, a: nat): (r: (nat, seq<char>))
    requires s != [] && IsDigit(s[0])
    ensures |r.1| < |s|
  {
    var b := a * 10 + (s[0] as int - '0' as int);
    if IsDigit(Head(s[1..])) && b <= (MAX_INT - 9) / 10 then ReadDigits(s[1..], b) else (b, s[1..])
  }

  // A numeral, or nothing when there is none.
  datatype Numeral = None | Numeral(n: nat)

  function ReadNumeral(s: seq<char>): (r: (Numeral, seq<char>))
    ensures |r.1| <= |s|
  {
    if IsDigit(Head(s)) then var (n, t) := ReadDigits(s, 0); (Numeral(n), t) else (None, s)
  }

  function ReadLimited(s: seq<char>, df: nat): (r: Outcome<(nat, seq<char>)>)
    requires 1 <= df <= MAXINTSIZE
    ensures r.Ok? ==> 1 <= r.value.0 <= MAXINTSIZE && |r.value.1| <= |s|
  {
    var (n, t) := ReadNumeral(s);
    var size := if n.None? then df else n.n;
    if size > MAXINTSIZE || size == 0 then Error(SizeOutOfLimits) else Ok((size, t))
  }

  datatype OptionRead = OptionRead(opt: Option, size: nat, next: Format)

  predicate ValidOption(opt: Option, size: nat) {
    match opt
    case KInt | KUint | KString => 1 <= size <= MAXINTSIZE
    case KChar => true
    case KPadding => size == 1
    case KZstr | KPaddAlign | KNop => size == 0
  }

  function Sized(f: Format, opt: Option, size: nat): Outcome<OptionRead>
    requires f.rest != []
  {
    Ok(OptionRead(opt, size, f.(rest := f.rest[1..])))
  }

  function SizedBy(f: Format, opt: Option, df: nat): Outcome<OptionRead>
    requires f.rest != [] && 1 <= df <= MAXINTSIZE
  {
    match ReadLimited(f.rest[1..], df)
    case Error(w) => Error(w)
    case Ok((n, t)) => Ok(OptionRead(opt, n, f.(rest := t)))
  }

  function ReadOption(f: Format, native: bool): (r: Outcome<OptionRead>)
    requires f.rest != []
    ensures r.Ok? ==> |r.value.next.rest| < |f.rest| && ValidOption(r.value.opt, r.value.size)
    ensures r.Ok? && 1 <= f.maxalign <= MAXINTSIZE ==> 1 <= r.value.next.maxalign <= MAXINTSIZE
  {
    match f.rest[0]
    case 'b' => Sized(f, KInt, 1)
    case 'B' => Sized(f, KUint, 1)
    case 'h' => Sized(f, KInt, 2)
    case 'H' => Sized(f, KUint, 2)
    case 'l' | 'j' => Sized(f, KInt, 8)
    case 'L' | 'J' | 'T' => Sized(f, KUint, 8)
    case 'f' | 'd' | 'n' => Error(FloatOption)
    case 'i' => SizedBy(f, KInt, 4)
    case 'I' => SizedBy(f, KUint, 4)
    case 's' => SizedBy(f, KString, 8)
    case 'c' =>
      var (n, t) := ReadNumeral(f.rest[1..]);
      if n.None? then Error(MissingSize) else Ok(OptionRead(KChar, n.n, f.(rest := t)))
    case 'z' => Sized(f, KZstr, 0)
    case 'x' => Sized(f, KPadding, 1)
    case 'X' => Sized(f, KPaddAlign, 0)
    case ' ' => Sized(f, KNop, 0)
    case '<' => Sized(f.(little := true), KNop, 0)
    case '>' => Sized(f.(little := false), KNop, 0)
    case '=' => Sized(f.(little := native), KNop, 0)
    case '!' =>
      (match ReadLimited(f.rest[1..], MAXALIGN)
       case Error(w) => Error(w)
       case Ok((n, t)) => Ok(OptionRead(KNop, 0, f.(rest := t, maxalign := n))))
    case _ => Error(InvalidOption)
  }

  predicate PowerOf2(n: nat) { n == 1 || n == 2 || n == 4 || n == 8 || n == 16 }

  // One option with the alignment it is to have (1 for none) and the byte order in force.
  datatype Directive = Directive(opt: Option, size: nat, align: nat, little: bool)

  predicate ValidDirective(d: Directive) {
    ValidOption(d.opt, d.size) && PowerOf2(d.align)
  }

  datatype DirectiveRead = DirectiveRead(d: Directive, next: Format)

  // The next directive. 'X' takes its alignment from the option after it, which it consumes.
  function ReadDirective(f: Format, native: bool): (r: Outcome<DirectiveRead>)
    requires f.rest != [] && 1 <= f.maxalign <= MAXINTSIZE
    ensures r.Ok? ==> |r.value.next.rest| < |f.rest| && ValidDirective(r.value.d) && 1 <= r.value.next.maxalign <= MAXINTSIZE
  {
    match ReadOption(f, native)
    case Error(w) => Error(w)
    case Ok(o) =>
      if o.opt.KPaddAlign? then
        if Head(o.next.rest) == '\0' then Error(InvalidNextOption)
        else
          match ReadOption(o.next, native)
          case Error(w) => Error(w)
          case Ok(a) =>
            if a.opt.KChar? || a.size == 0 then Error(InvalidNextOption)
            else Aligned(o.opt, o.size, a.size, a.next)
      else Aligned(o.opt, o.size, o.size, o.next)
  }

  function Aligned(opt: Option, size: nat, wanted: nat, next: Format): Outcome<DirectiveRead>
  {
    if wanted <= 1 || opt.KChar? then Ok(DirectiveRead(Directive(opt, size, 1, next.little), next))
    else
      var align := if wanted > next.maxalign then next.maxalign else wanted;
      if PowerOf2(align) then Ok(DirectiveRead(Directive(opt, size, align, next.little), next)) else Error(AlignmentNotPowerOf2)
  }

  // A whole format.
  datatype Layout = End | Invalid(why: Fault) | Step(d: Directive, rest: Layout)

  predicate ValidLayout(l: Layout) { l.Step? ==> ValidDirective(l.d) && ValidLayout(l.rest) }

  function LayoutOf(f: Format, native: bool): (l: Layout)
    requires 1 <= f.maxalign <= MAXINTSIZE
    ensures ValidLayout(l)
    decreases |f.rest|
  {
    if Head(f.rest) == '\0' then End
    else
      match ReadDirective(f, native)
      case Error(w) => Invalid(w)
      case Ok(r) => Step(r.d, LayoutOf(r.next, native))
  }

  function Start(fmt: seq<char>, native: bool): (f: Format)
    ensures f.maxalign == 1
  {
    Format(fmt, native, 1)
  }

  // ---- packing ----

  // The least padding that reaches a multiple of 'align'.
  function Padding(total: nat, align: nat): (n: nat)
    requires PowerOf2(align)
    ensures n < align && (total + n) % align == 0
  {
    (align - total % align) % align
  }

  function Pad(n: nat): (s: seq<Byte>)
    ensures |s| == n
  {
    seq(n, _ => PADBYTE)
  }

  predicate TakesValue(opt: Option) { opt != KPadding && opt != KPaddAlign && opt != KNop }

  predicate HasZero(s: seq<Byte>) { exists i :: 0 <= i < |s| && s[i] == 0 }

  // The bytes one directive adds after its alignment.
  function PackOne(d: Directive, args: seq<Value>): Outcome<seq<Byte>>
    requires ValidDirective(d)
  {
    if !TakesValue(d.opt) then Ok(Pad(d.size))
    else if args == [] || args[0].Int? != (d.opt.KInt? || d.opt.KUint?) then Error(BadArgument)
    else match d.opt
      case KInt =>
        if Packable(args[0].i, d.size, true) then Ok(IntBytes(args[0].i, d.little, d.size)) else Error(IntegerOverflow)
      case KUint =>
        if Packable(args[0].i, d.size, false) then Ok(IntBytes(ToUnsigned(args[0].i), d.little, d.size)) else Error(UnsignedOverflow)
      case KChar => if |args[0].s| == d.size then Ok(args[0].s) else Error(WrongLength)
      case KString =>
        if Packable(|args[0].s|, d.size, false) then Ok(IntBytes(|args[0].s|, d.little, d.size) + args[0].s) else Error(LengthDoesNotFit)
      case KZstr => if HasZero(args[0].s) then Error(ContainsZeros) else Ok(args[0].s + [0])
      case _ => Ok([])
  }

  // The arguments left after one directive.
  function After(d: Directive, args: seq<Value>): seq<Value> {
    if TakesValue(d.opt) && args != [] then args[1..] else args
  }

  function Packed(l: Layout, args: seq<Value>, out: seq<Byte>): Outcome<seq<Byte>>
    requires ValidLayout(l)
  {
    match l
    case End => Ok(out)
    case Invalid(w) => Error(w)
    case Step(d, rest) =>
      match PackOne(d, args)
      case Error(w) => Error(w)
      case Ok(bytes) => Packed(rest, After(d, args), out + Pad(Padding(|out|, d.align)) + bytes)
  }

  // ---- sizing ----

  function PackedSize(l: Layout, total: nat): Outcome<nat>
    requires ValidLayout(l)
  {
    match l
    case End => Ok(total)
    case Invalid(w) => Error(w)
    case Step(d, rest) =>
      var used := d.size + Padding(total, d.align);
      if total + used > MAX_INT then Error(ResultTooLarge)
      else if d.opt.KString? || d.opt.KZstr? then Error(VariableLength)
      else PackedSize(rest, total + used)
  }

  predicate FixedSize(l: Layout) {
    l.Step? ==> !l.d.opt.KString? && !l.d.opt.KZstr? && FixedSize(l.rest)
  }

  // ---- unpacking ----

  // 'strlen' from p: up to the first zero, or up to the terminator after the string.
  function ZLength(data: seq<Byte>, p: nat): (n: nat)
    requires p <= |data|
    ensures p + n <= |data|
    decreases |data| - p
  {
    if p == |data| || data[p] == 0 then 0 else 1 + ZLength(data, p + 1)
  }

  datatype Item = Item(values: seq<Value>, next: nat)

  // What one directive reads at p, where its alignment ends.
  function UnpackOne(d: Directive, data: LuaString, p: nat): Outcome<Item>
    requires p + d.size <= |data| && ValidDirective(d)
  {
    var raw := data[p..p + d.size];
    match d.opt
    case KInt | KUint =>
      (match ReadInt(raw, d.little, d.opt.KInt?)
       case TooLarge => Error(DoesNotFitInteger)
       case Fits(i) => Ok(Item([Int(i)], p + d.size)))
    case KChar => Ok(Item([Str(raw)], p + d.size))
    case KString =>
      (match ReadInt(raw, d.little, false)
       case TooLarge => Error(DoesNotFitInteger)
       case Fits(i) =>
         var len := ToUnsigned(i);
         if (p + len + d.size) % TWO64 > |data| then Error(DataTooShort)
         else if p + d.size + len > |data| then Error(LengthWraps)
         else Ok(Item([Str(data[p + d.size..p + d.size + len])], p + d.size + len)))
    case KZstr =>
      // the length goes through an 'int'
      var len := ZLength(data, p) % (2 * (MAX_INT + 1));
      if len > MAX_INT then Error(LengthWraps)
      else Ok(Item([Str(data[p..p + len])], p + len + 1))
    case KPadding | KPaddAlign | KNop => Ok(Item([], p + d.size))
  }

  // The values read and the place of the byte after them.
  function Unpacked(l: Layout, data: LuaString, pos: nat): Outcome<Item>
    requires ValidLayout(l)
  {
    match l
    case End => Ok(Item([], pos))
    case Invalid(w) => Error(w)
    case Step(d, rest) =>
      var p := pos + Padding(pos, d.align);
      if p + d.size > |data| then Error(DataTooShort)
      else
        match UnpackOne(d, data, p)
        case Error(w) => Error(w)
        case Ok(one) =>
          match Unpacked(rest, data, one.next)
          case Error(w) => Error(w)
          case Ok(others) => Ok(Item(one.values + others.values, others.next))
  }

  // ---- the laws ----

  function Taken(l: Layout): nat {
    if l.Step? then (if TakesValue(l.d.opt) then 1 else 0) + Taken(l.rest) else 0
  }

  // Every zero-terminated string has a length that fits an 'int'.
  predicate ZFits(l: Layout, args: seq<Value>) {
    l.Step? ==>
      (l.d.opt.KZstr? && args != [] && args[0].Str? ==> |args[0].s| <= MAX_INT) && ZFits(l.rest, After(l.d, args))
  }

  lemma {:induction false} ZeroEnds(data: seq<Byte>, p: nat, n: nat)
    requires p + n < |data| && data[p + n] == 0 && !HasZero(data[p..p + n])
    ensures ZLength(data, p) == n
    decreases n
  {
    if n > 0 {
      assert data[p..p + n][0] == data[p];
      assert data[p + 1..p + n] == data[p..p + n][1..];
      ZeroEnds(data, p + 1, n - 1);
    }
  }

  // A directive and an argument that pack to 'bytes' at p.
  predicate PackedAt(d: Directive, args: seq<Value>, data: LuaString, p: nat, bytes: seq<Byte>) {
    && ValidDirective(d)
    && PackOne(d, args) == Ok(bytes)
    && p + |bytes| <= |data|
    && data[p..p + |bytes|] == bytes
  }

  lemma IntReadsBack(d: Directive, args: seq<Value>, data: LuaString, p: nat, bytes: seq<Byte>)
    requires PackedAt(d, args, data, p, bytes) && (d.opt.KInt? || d.opt.KUint?)
    ensures |bytes| == d.size && args != [] && UnpackOne(d, data, p) == Ok(Item(args[..1], p + d.size))
  {
    hide IntBytes, ReadInt, Packable;
    IntRoundTrip(args[0].i, d.little, d.size, d.opt.KInt?);
    assert args[..1] == [args[0]];
  }

  lemma StringReadsBack(d: Directive, args: seq<Value>, data: LuaString, p: nat, bytes: seq<Byte>)
    requires PackedAt(d, args, data, p, bytes) && d.opt.KString?
    ensures |bytes| >= d.size && args != [] && UnpackOne(d, data, p) == Ok(Item(args[..1], p + |bytes|))
  {
    hide IntBytes, ReadInt, Packable;
    var s := args[0].s;
    IntRoundTrip(|s|, d.little, d.size, false);
    assert data[p..p + d.size] == bytes[..d.size] == IntBytes(|s|, d.little, d.size);
    assert data[p + d.size..p + d.size + |s|] == bytes[d.size..] == s;
    assert args[..1] == [args[0]];
  }

  lemma ZstrPacked(d: Directive, args: seq<Value>)
    requires ValidDirective(d) && d.opt.KZstr? && PackOne(d, args).Ok?
    ensures args != [] && args[0].Str? && !HasZero(args[0].s) && PackOne(d, args).value == args[0].s + [0]
  {
  }

  lemma ZstrUnpacked(d: Directive, data: LuaString, p: nat, n: nat)
    requires ValidDirective(d) && d.opt.KZstr? && p <= |data| && ZLength(data, p) == n
    ensures d.size == 0
    ensures n <= MAX_INT ==> UnpackOne(d, data, p) == Ok(Item([Str(data[p..p + n])], p + n + 1))
    ensures n > MAX_INT && UnpackOne(d, data, p).Ok? ==> exists s: LuaString | |s| < n :: UnpackOne(d, data, p).value.values == [Str(s)]
  {
    hide ZLength;
  }

  lemma ZstrReadsBack(d: Directive, args: seq<Value>, data: LuaString, p: nat, bytes: seq<Byte>)
    requires PackedAt(d, args, data, p, bytes) && d.opt.KZstr?
    ensures args != [] && args[0].Str? && d.size == 0
    ensures if |args[0].s| <= MAX_INT then UnpackOne(d, data, p) == Ok(Item(args[..1], p + |bytes|))
      else UnpackOne(d, data, p).Ok? ==> |UnpackOne(d, data, p).value.values| == 1 && UnpackOne(d, data, p).value.values[0] != args[0]
  {
    hide PackOne, UnpackOne, ZLength, HasZero;
    ZstrPacked(d, args);
    var s := args[0].s;
    assert data[p + |s|] == bytes[|s|] == 0;
    assert data[p..p + |s|] == bytes[..|s|] == s;
    ZeroEnds(data, p, |s|);
    ZstrUnpacked(d, data, p, |s|);
    assert args[..1] == [args[0]];
  }

  // One directive reads back what it packed, except a zero-terminated string too long for an 'int'.
  lemma OneRoundTrip(d: Directive, args: seq<Value>, data: LuaString, p: nat, bytes: seq<Byte>)
    requires PackedAt(d, args, data, p, bytes)
    ensures p + d.size <= |data| && (TakesValue(d.opt) ==> args != []) && (d.opt.KZstr? ==> args[0].Str?)
    ensures
      if d.opt.KZstr? && |args[0].s| > MAX_INT then
        UnpackOne(d, data, p).Ok? ==> |UnpackOne(d, data, p).value.values| == 1 && UnpackOne(d, data, p).value.values[0] != args[0]
      else UnpackOne(d, data, p) == Ok(Item(if TakesValue(d.opt) then args[..1] else [], p + |bytes|))
  {
    hide IntBytes, ReadInt, Packable;
    match d.opt
    case KInt | KUint => IntReadsBack(d, args, data, p, bytes);
    case KString => StringReadsBack(d, args, data, p, bytes);
    case KZstr => ZstrReadsBack(d, args, data, p, bytes);
    case KChar => assert args[..1] == [args[0]];
    case _ =>
  }

  lemma {:induction false} PackedExtends(l: Layout, args: seq<Value>, out: seq<Byte>)
    requires ValidLayout(l) && Packed(l, args, out).Ok?
    ensures out <= Packed(l, args, out).value && Taken(l) <= |args|
  {
    if l.Step? {
      PackedExtends(l.rest, After(l.d, args), out + Pad(Padding(|out|, l.d.align)) + PackOne(l.d, args).value);
    }
  }

  // The arguments a layout uses: the first ones.
  function Used(l: Layout, args: seq<Value>): seq<Value> {
    if l.Step? then (if TakesValue(l.d.opt) && args != [] then args[..1] else []) + Used(l.rest, After(l.d, args)) else []
  }

  lemma {:induction false} UsedArePrefix(l: Layout, args: seq<Value>)
    requires Taken(l) <= |args|
    ensures Used(l, args) == args[..Taken(l)]
  {
    if l.Step? { UsedArePrefix(l.rest, After(l.d, args)); }
  }

  // Unpacking from the first byte gives back the arguments that were packed, and the position after the
  // last byte, exactly when no zero-terminated string was too long for an 'int'.
  lemma {:induction false} RoundTrip(l: Layout, args: seq<Value>, out: seq<Byte>, b: LuaString)
    requires ValidLayout(l) && Packed(l, args, out).Ok? && b == Packed(l, args, out).value
    ensures Unpacked(l, b, |out|) == Ok(Item(Used(l, args), |b|)) <==> ZFits(l, args)
  {
    hide UnpackOne, PackOne, Padding;
    if l.Step? {
      var d := l.d;
      var bytes, padded := PackOne(d, args).value, out + Pad(Padding(|out|, d.align));
      PackedExtends(l.rest, After(d, args), padded + bytes);
      assert b[|padded|..|padded| + |bytes|] == bytes;
      OneRoundTrip(d, args, b, |padded|, bytes);
      RoundTrip(l.rest, After(d, args), padded + bytes, b);
      Joined(d, UnpackOne(d, b, |padded|), Unpacked(l.rest, b, |padded + bytes|), args, Used(l.rest, After(d, args)));
    }
  }

  lemma Joined(d: Directive, one: Outcome<Item>, others: Outcome<Item>, args: seq<Value>, used: seq<Value>)
    ensures d.opt.KZstr? && args != [] && one.Ok? && |one.value.values| == 1 && one.value.values[0] != args[0] ==>
      forall vs: seq<Value> :: one.value.values + vs != args[..1] + used
    ensures one.Ok? && others.Ok? ==> (one.value.values + others.value.values == one.value.values + used <==> others.value.values == used)
  {
    if one.Ok? {
      if others.Ok? { Cancels(one.value.values, others.value.values, used); }
      forall vs: seq<Value> | args != [] && |one.value.values| == 1 && one.value.values + vs == args[..1] + used
        ensures one.value.values[0] == args[0]
      {
        assert (one.value.values + vs)[0] == (args[..1] + used)[0];
      }
    }
  }

  lemma Cancels(a: seq<Value>, b: seq<Value>, c: seq<Value>)
    ensures a + b == a + c <==> b == c
  {
    assert (a + b)[|a|..] == b && (a + c)[|a|..] == c;
  }

  // For formats without strings of variable length the size is known in advance, up to the largest 'int'.
  lemma {:induction false} SizeIsKnown(l: Layout, args: seq<Value>, out: seq<Byte>, b: seq<Byte>)
    requires ValidLayout(l) && Packed(l, args, out) == Ok(b) && |out| <= MAX_INT
    ensures PackedSize(l, |out|) == if FixedSize(l) && |b| <= MAX_INT then Ok(|b|) else PackedSize(l, |out|)
    ensures PackedSize(l, |out|).Ok? <==> FixedSize(l) && |b| <= MAX_INT
  {
    if l.Step? {
      var d := l.d;
      var bytes, padded := PackOne(d, args).value, out + Pad(Padding(|out|, d.align));
      PackedExtends(l.rest, After(d, args), padded + bytes);
      if !d.opt.KString? && !d.opt.KZstr? {
        assert |bytes| == d.size;
        if |padded + bytes| <= MAX_INT { SizeIsKnown(l.rest, After(d, args), padded + bytes, b); }
      }
    }
  }

  // A string that does not come back: 'z' with 2^31 bytes.
  lemma LongZstrIsLost()
    ensures var l, s := Step(Directive(KZstr, 0, 1, true), End), seq(MAX_INT + 1, _ => 1);
      LayoutOf(Start("z", true), true) == l &&
      var b := Packed(l, [Str(s)], []); b.Ok? && |b.value| < TWO63 && Unpacked(l, b.value, 0) != Ok(Item([Str(s)], |b.value|))
  {
    var l, s := Step(Directive(KZstr, 0, 1, true), End), seq(MAX_INT + 1, _ => 1);
    assert ReadDirective(Start("z", true), true) == Ok(DirectiveRead(l.d, Format([], true, 1)));
    assert !HasZero(s);
    assert PackOne(l.d, [Str(s)]) == Ok(s + [0]);
    var b := Packed(l, [Str(s)], []);
    assert Packed(End, After(l.d, [Str(s)]), [] + Pad(Padding(0, 1)) + (s + [0])) == b;
    assert b.value == [] + Pad(0) + (s + [0]);
    RoundTrip(l, [Str(s)], [], b.value);
    assert [Str(s)][..1] + [] == [Str(s)];
  }
}
