// The reader of pack formats, and string.pack, string.packsize and string.unpack.
module StringPack {
  import opened Integers
  import opened PackedIntegers
  import opened Packing

  // The format at hand and the modes it has set.
  class Header {
    const native: bool
    var fmt: seq<char>
    var isLittle: bool
    var maxAlign: nat

    function View(): Format
      reads this
    {
      Format(fmt, isLittle, maxAlign)
    }

    predicate Valid()
      reads this
    {
      1 <= maxAlign <= MAXINTSIZE
    }

    function Rest(): Layout
      requires Valid()
      reads this
    {
      LayoutOf(View(), native)
    }

    constructor (fmt: seq<char>, native: bool)
      ensures Valid() && this.native == native && View() == Start(fmt, native)
    {
      this.fmt := fmt;
      this.native := native;
      isLittle := native;
      maxAlign := 1;
    }

    method GetNum(df: int) returns (n: int)
      modifies `fmt
      ensures if IsDigit(Head(old(fmt))) then n >= 0 && ReadNumeral(old(fmt)) == (Numeral(n), fmt)
        else n == df && ReadNumeral(old(fmt)) == (None, fmt)
    {
      if !IsDigit(Head(fmt)) { return df; }
      var a: nat := fmt[0] as int - '0' as int;
      ghost var start := fmt;
      fmt := fmt[1..];
      while IsDigit(Head(fmt)) && a <= (MAX_INT - 9) / 10
        invariant a >= 0
        invariant ReadDigits(start, 0) == if IsDigit(Head(fmt)) && a <= (MAX_INT - 9) / 10 then ReadDigits(fmt, a) else (a, fmt)
        decreases |fmt|
      {
        a := a * 10 + (fmt[0] as int - '0' as int);
        fmt := fmt[1..];
      }
      return a;
    }

    method GetNumLimit(df: nat) returns (r: Outcome<nat>)
      requires 1 <= df <= MAXINTSIZE
      modifies `fmt
      ensures match ReadLimited(old(fmt), df)
        case Ok((n, t)) => r == Ok(n) && fmt == t
        case Error(w) => r == Error(w)
    {
      var size := GetNum(df);
      if size > MAXINTSIZE || size <= 0 { return Error(SizeOutOfLimits); }
      return Ok(size);
    }

    method SizedOption(opt: Option, df: nat) returns (r: Outcome<(Option, nat)>)
      requires 1 <= df <= MAXINTSIZE
      modifies `fmt
      ensures match ReadLimited(old(fmt), df)
        case Ok((n, t)) => r == Ok((opt, n)) && fmt == t
        case Error(w) => r == Error(w)
    {
      var size := GetNumLimit(df);
      match size
      case Error(w) => return Error(w);
      case Ok(n) => return Ok((opt, n));
    }

    method GetOption() returns (r: Outcome<(Option, nat)>)
      requires fmt != []
      modifies this
      ensures match ReadOption(old(View()), native)
        case Ok(o) => r == Ok((o.opt, o.size)) && View() == o.next
        case Error(w) => r == Error(w)
    {
      var c := fmt[0];
      fmt := fmt[1..];
      match c
      case 'b' => return Ok((KInt, 1));
      case 'B' => return Ok((KUint, 1));
      case 'h' => return Ok((KInt, 2));
      case 'H' => return Ok((KUint, 2));
      case 'l' | 'j' => return Ok((KInt, 8));
      case 'L' | 'J' | 'T' => return Ok((KUint, 8));
      case 'f' | 'd' | 'n' => return Error(FloatOption);
      case 'i' => r := SizedOption(KInt, 4);
      case 'I' => r := SizedOption(KUint, 4);
      case 's' => r := SizedOption(KString, 8);
      case 'c' =>
        var size := GetNum(-1);
        if size == -1 { return Error(MissingSize); }
        return Ok((KChar, size));
      case 'z' => return Ok((KZstr, 0));
      case 'x' => return Ok((KPadding, 1));
      case 'X' => return Ok((KPaddAlign, 0));
      case ' ' => return Ok((KNop, 0));
      case '<' => isLittle := true; return Ok((KNop, 0));
      case '>' => isLittle := false; return Ok((KNop, 0));
      case '=' => isLittle := native; return Ok((KNop, 0));
      case '!' =>
        var align := GetNumLimit(MAXALIGN);
        if align.Error? { return Error(align.why); }
        maxAlign := align.value;
        return Ok((KNop, 0));
      case _ => return Error(InvalidOption);
    }

    // The next option, its size and the padding it needs after 'total' bytes.
    method GetDetails(total: nat) returns (r: Outcome<(Option, nat, nat)>)
      requires Valid() && fmt != []
      modifies this
      ensures match ReadDirective(old(View()), native)
        case Ok(x) => Valid() && View() == x.next && isLittle == x.d.little && r == Ok((x.d.opt, x.d.size, Padding(total, x.d.align)))
        case Error(w) => r == Error(w)
    {
      hide ReadOption;
      var o := GetOption();
      if o.Error? { return Error(o.why); }
      var (opt, size) := o.value;
      var align := size;
      if opt == KPaddAlign {
        if Head(fmt) == '\0' { return Error(InvalidNextOption); }
        var next := GetOption();
        if next.Error? { return Error(next.why); }
        align := next.value.1;
        if next.value.0 == KChar || align == 0 { return Error(InvalidNextOption); }
      }
      if align <= 1 || opt == KChar { return Ok((opt, size, 0)); }
      if align > maxAlign { align := maxAlign; }
      if !PowerOf2(align) { return Error(AlignmentNotPowerOf2); }
      return Ok((opt, size, Padding(total, align)));
    }
  }

  // One round of the three loops below.
  lemma NextStep(f: Format, native: bool)
    requires 1 <= f.maxalign <= MAXINTSIZE
    ensures Head(f.rest) == '\0' ==> LayoutOf(f, native) == End
    ensures Head(f.rest) != '\0' ==>
      f.rest != [] && (var r := ReadDirective(f, native);
        LayoutOf(f, native) == if r.Error? then Invalid(r.why) else Step(r.value.d, LayoutOf(r.value.next, native)))
  {
  }

  // The cases of the 'switch' in 'str_pack': the bytes to add, or an error.
  method PackOption(opt: Option, size: nat, little: bool, ghost align: nat, args: seq<Value>, arg: nat)
    returns (r: Outcome<seq<Byte>>)
    requires ValidDirective(Directive(opt, size, align, little)) && arg <= |args|
    ensures r == PackOne(Directive(opt, size, align, little), args[arg..])
  {
    hide IntBytes, Packable;
    if opt == KPadding {
      assert [PADBYTE] == Pad(1);
      return Ok([PADBYTE]);
    }
    if opt == KPaddAlign || opt == KNop { return Ok([]); }
    if arg == |args| || args[arg].Int? != (opt == KInt || opt == KUint) { return Error(BadArgument); }
    assert args[arg..][0] == args[arg];
    match opt
    case KInt =>
      var n := args[arg].i;
      if !Packable(n, size, true) { return Error(IntegerOverflow); }
      var buff := PackInt(ToUnsigned(n), little, size, n < 0);
      return Ok(buff[..]);
    case KUint =>
      var n := args[arg].i;
      if !Packable(n, size, false) { return Error(UnsignedOverflow); }
      var buff := PackInt(ToUnsigned(n), little, size, false);
      return Ok(buff[..]);
    case KChar =>
      if |args[arg].s| != size { return Error(WrongLength); }
      return Ok(args[arg].s);
    case KString =>
      var s := args[arg].s;
      if !Packable(|s|, size, false) { return Error(LengthDoesNotFit); }
      var buff := PackInt(|s|, little, size, false);
      return Ok(buff[..] + s);
    case KZstr =>
      var s := args[arg].s;
      var len := StrLen(s, 0);
      if len != |s| { return Error(ContainsZeros); }
      return Ok(s + [0]);
  }

  method StrLen(data: seq<Byte>, p: nat) returns (n: nat)
    requires p <= |data|
    ensures n == ZLength(data, p)
    ensures p == 0 ==> (n == |data| <==> !HasZero(data))
  {
    n := 0;
    while p + n < |data| && data[p + n] != 0
      invariant p + n <= |data|
      invariant ZLength(data, p) == n + ZLength(data, p + n)
      invariant forall i :: p <= i < p + n ==> data[i] != 0
    {
      n := n + 1;
    }
  }

  method StrPack(fmt: seq<char>, native: bool, args: seq<Value>) returns (r: Outcome<seq<Byte>>)
    ensures r == Packed(LayoutOf(Start(fmt, native), native), args, [])
  {
    hide LayoutOf, ReadDirective, PackOne;
    var h := new Header(fmt, native);
    ghost var layout := h.Rest();
    var b: seq<Byte> := [];
    var arg := 0;
    var totalSize := 0;
    while Head(h.fmt) != '\0'
      invariant h.Valid() && fresh(h) && h.native == native
      invariant totalSize == |b| && arg <= |args|
      invariant Packed(layout, args, []) == Packed(h.Rest(), args[arg..], b)
      decreases |h.fmt|
    {
      NextStep(h.View(), native);
      ghost var d := ReadDirective(h.View(), native);
      var o := h.GetDetails(totalSize);
      if o.Error? { return Error(o.why); }
      var (opt, size, ntoalign) := o.value;
      totalSize := totalSize + ntoalign + size;
      b := b + Pad(ntoalign);
      var bytes := PackOption(opt, size, h.isLittle, d.value.d.align, args, arg);
      if bytes.Error? { return Error(bytes.why); }
      PackedOne(d.value.d, args, arg);
      b := b + bytes.value;
      if opt == KString { totalSize := totalSize + |bytes.value| - size; }
      if opt == KZstr { totalSize := totalSize + |bytes.value|; }
      if TakesValue(opt) { arg := arg + 1; }
    }
    NextStep(h.View(), native);
    return Ok(b);
  }

  lemma PackedOne(d: Directive, args: seq<Value>, arg: nat)
    requires arg <= |args| && ValidDirective(d) && PackOne(d, args[arg..]).Ok?
    ensures var n := |PackOne(d, args[arg..]).value|;
      n >= d.size && (!d.opt.KString? && !d.opt.KZstr? ==> n == d.size) && (d.opt.KZstr? ==> d.size == 0)
    ensures if TakesValue(d.opt) then arg < |args| && After(d, args[arg..]) == args[arg + 1..] else After(d, args[arg..]) == args[arg..]
  {
  }

  method StrPackSize(fmt: seq<char>, native: bool) returns (r: Outcome<nat>)
    ensures r == PackedSize(LayoutOf(Start(fmt, native), native), 0)
  {
    hide LayoutOf, ReadDirective;
    var h := new Header(fmt, native);
    ghost var layout := h.Rest();
    var totalSize := 0;
    while Head(h.fmt) != '\0'
      invariant h.Valid() && fresh(h) && h.native == native
      invariant PackedSize(layout, 0) == PackedSize(h.Rest(), totalSize)
      decreases |h.fmt|
    {
      NextStep(h.View(), native);
      var o := h.GetDetails(totalSize);
      if o.Error? { return Error(o.why); }
      var (opt, size, ntoalign) := o.value;
      size := size + ntoalign;
      if totalSize + size > MAX_INT { return Error(ResultTooLarge); }
      totalSize := totalSize + size;
      if opt == KString || opt == KZstr { return Error(VariableLength); }
    }
    NextStep(h.View(), native);
    return Ok(totalSize);
  }

  // 'posrelat': a negative position counts from the end.
  function StartPosition(pos: Integer, len: nat): int {
    var back: int := pos;
    if pos >= 0 then pos else if -back > len then 0 else len + pos + 1
  }

  // The cases of the 'switch' in 'str_unpack'.
  method UnpackOption(opt: Option, size: nat, little: bool, ghost align: nat, data: LuaString, pos: nat)
    returns (r: Outcome<Item>)
    requires ValidDirective(Directive(opt, size, align, little)) && pos + size <= |data|
    ensures r == UnpackOne(Directive(opt, size, align, little), data, pos)
  {
    hide ReadInt, ZLength;
    match opt
    case KInt | KUint =>
      var n := UnpackInt(data[pos..pos + size], little, opt == KInt);
      if n.TooLarge? { return Error(DoesNotFitInteger); }
      return Ok(Item([Int(n.i)], pos + size));
    case KChar => return Ok(Item([Str(data[pos..pos + size])], pos + size));
    case KString =>
      var n := UnpackInt(data[pos..pos + size], little, false);
      if n.TooLarge? { return Error(DoesNotFitInteger); }
      var len := ToUnsigned(n.i);
      if (pos + len + size) % TWO64 > |data| { return Error(DataTooShort); }
      if pos + size + len > |data| { return Error(LengthWraps); }
      return Ok(Item([Str(data[pos + size..pos + size + len])], pos + size + len));
    case KZstr =>
      var len := StrLen(data, pos);
      len := len % (2 * (MAX_INT + 1));
      if len > MAX_INT { return Error(LengthWraps); }
      return Ok(Item([Str(data[pos..pos + len])], pos + len + 1));
    case KPadding | KPaddAlign | KNop => return Ok(Item([], pos + size));
  }

  // Results so far and what is to come.
  function Prefixed(values: seq<Value>, r: Outcome<Item>): Outcome<Item> {
    if r.Ok? then Ok(Item(values + r.value.values, r.value.next)) else r
  }

  // The values read, and the position (counted from 1) after them.
  // -1 is the last byte and -len the first; further to the left there is nothing.
  lemma NegativePositions(k: Integer, len: nat)
    requires 1 <= k && len < TWO63
    ensures k <= len ==> StartPosition(-k, len) == StartPosition(len + 1 - k, len) == len + 1 - k
    ensures k > len ==> StartPosition(-k, len) == 0
  {
  }

  method StrUnpack(fmt: seq<char>, native: bool, data: LuaString, init: Integer) returns (r: Outcome<Item>)
    ensures var pos := StartPosition(init, |data|) - 1;
      if !(0 <= pos <= |data|) then r == Error(InitialPosition)
      else match Unpacked(LayoutOf(Start(fmt, native), native), data, pos)
        case Ok(item) => r == Ok(item.(next := item.next + 1))
        case Error(w) => r == Error(w)
  {
    hide LayoutOf, ReadDirective, UnpackOne, Prefixed;
    var start := StartPosition(init, |data|) - 1;
    if start < 0 || start > |data| { return Error(InitialPosition); }
    var pos: nat := start;
    var h := new Header(fmt, native);
    ghost var layout := h.Rest();
    var values: seq<Value> := [];
    while Head(h.fmt) != '\0'
      invariant h.Valid() && fresh(h) && h.native == native
      invariant Prefixed([], Unpacked(layout, data, start)) == Prefixed(values, Unpacked(h.Rest(), data, pos))
      decreases |h.fmt|
    {
      NextStep(h.View(), native);
      ghost var d := ReadDirective(h.View(), native);
      var o := h.GetDetails(pos);
      PrefixedByNone(Unpacked(layout, data, start));
      if o.Error? {
        PrefixedError(values, o.why);
        return Error(o.why);
      }
      UnpackedStep(values, d.value.d, h.Rest(), data, pos);
      var (opt, size, ntoalign) := o.value;
      if pos + ntoalign + size > |data| { return Error(DataTooShort); }
      pos := pos + ntoalign;
      var one := UnpackOption(opt, size, h.isLittle, d.value.d.align, data, pos);
      if one.Error? { return Error(one.why); }
      values := values + one.value.values;
      pos := one.value.next;
    }
    NextStep(h.View(), native);
    PrefixedEnd(values, pos);
    PrefixedByNone(Unpacked(layout, data, start));
    return Ok(Item(values, pos + 1));
  }

  lemma PrefixedEnd(values: seq<Value>, pos: nat)
    ensures Prefixed(values, Ok(Item([], pos))) == Ok(Item(values, pos))
  {
    assert values + [] == values;
  }

  lemma PrefixedError(values: seq<Value>, w: Fault)
    ensures Prefixed(values, Error(w)) == Error(w)
  {
  }

  // One round of unpacking.
  lemma UnpackedStep(values: seq<Value>, d: Directive, rest: Layout, data: LuaString, pos: nat)
    requires ValidDirective(d) && ValidLayout(rest)
    ensures var p := pos + Padding(pos, d.align);
      Prefixed(values, Unpacked(Step(d, rest), data, pos)) ==
        if p + d.size > |data| then Error(DataTooShort)
        else
          var one := UnpackOne(d, data, p);
          if one.Error? then Error(one.why) else Prefixed(values + one.value.values, Unpacked(rest, data, one.value.next))
  {
    hide UnpackOne;
    var p := pos + Padding(pos, d.align);
    if p + d.size <= |data| && UnpackOne(d, data, p).Ok? {
      var one := UnpackOne(d, data, p).value;
      PrefixedTwice(values, one.values, Unpacked(rest, data, one.next));
    }
  }

  lemma PrefixedByNone(r: Outcome<Item>)
    ensures Prefixed([], r) == r
  {
    if r.Ok? { assert [] + r.value.values == r.value.values; }
  }

  lemma PrefixedTwice(a: seq<Value>, b: seq<Value>, r: Outcome<Item>)
    ensures Prefixed(a, Prefixed(b, r)) == Prefixed(a + b, r)
  {
    if r.Ok? { assert a + (b + r.value.values) == (a + b) + r.value.values; }
  }

  // Packing, then unpacking with the same format, is the identity on the arguments used.
  method PackThenUnpack(fmt: seq<char>, native: bool, args: seq<Value>) returns (r: Outcome<Item>, b: Outcome<seq<Byte>>)
    ensures var l := LayoutOf(Start(fmt, native), native);
      b == Packed(l, args, []) &&
      (b.Ok? && |b.value| < TWO63 ==>
        Taken(l) <= |args| && (r == Ok(Item(args[..Taken(l)], |b.value| + 1)) <==> ZFits(l, args)))
  {
    hide LayoutOf, Packed, Unpacked, ZFits, Taken, Used;
    b := StrPack(fmt, native, args);
    if b.Ok? && |b.value| < TWO63 {
      var l := LayoutOf(Start(fmt, native), native);
      PackedExtends(l, args, []);
      UsedArePrefix(l, args);
      RoundTrip(l, args, [], b.value);
      r := StrUnpack(fmt, native, b.value, 1);
    } else {
      r := Error(InitialPosition);
    }
  }
}
