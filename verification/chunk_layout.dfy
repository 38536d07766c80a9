// Where everything is in a precompiled chunk: the format written out, field by field.
module ChunkLayout {
  import opened Integers
  import opened PackedIntegers
  import opened ByteOrder
  import opened Chunks

  function Flat(parts: seq<seq<Byte>>): seq<Byte> { if parts == [] then [] else parts[0] + Flat(parts[1..]) }

  // A vector: its length in four bytes, then its elements.
  function Counted(parts: seq<seq<Byte>>): seq<Byte> { Low(|parts|, 4) + Flat(parts) }

  // A string: 0 for NULL, else its length plus one, in one byte if that is less than 255 and otherwise in eight
  // bytes behind a 255, and the characters.
  function TextPart(name: Name): seq<Byte> {
    if name.Null? then [0]
    else if |name.text| < 254 then [|name.text| + 1] + name.text
    else [255] + Low(|name.text| + 1, 8) + name.text
  }

  // A constant: its tag, then its value; strings of up to 40 characters have a tag of their own.
  function ConstantPart(c: Constant): seq<Byte> {
    match c
    case Nil => [0]
    case Bool(b) => [1, if b then 1 else 0]
    case Float(n) => [3] + n
    case Int(i) => [19] + Low(i, 8)
    case Str(s) => [if |s| <= 40 then 4 else 20] + TextPart(Name(s))
  }

  function LocVarPart(v: LocVar): seq<Byte> { TextPart(v.varname) + Low(v.startpc, 4) + Low(v.endpc, 4) }

  // What comes last of a function: line numbers, local variables, names of upvalues.
  function DebugPart(f: Proto, strip: bool): seq<Byte> {
    if strip then Counted([]) + Counted([]) + Counted([])
    else
      Counted(seq(|f.lineinfo|, i requires 0 <= i < |f.lineinfo| => Low(f.lineinfo[i], 4)))
      + Counted(seq(|f.locvars|, i requires 0 <= i < |f.locvars| => LocVarPart(f.locvars[i])))
      + Counted(seq(|f.upvalues|, i requires 0 <= i < |f.upvalues| => TextPart(f.upvalues[i].name)))
  }

  // A function in one whose source is 'psource'.
  function FunctionPart(f: Proto, psource: Name, strip: bool): seq<Byte>
    decreases f
  {
    TextPart(if strip || f.source == psource then Null else f.source)
    + (Low(f.linedefined, 4) + Low(f.lastlinedefined, 4) + [f.numparams, f.isVararg, f.maxstacksize])
    + Counted(seq(|f.code|, i requires 0 <= i < |f.code| => Low(f.code[i], 4)))
    + Counted(seq(|f.k|, i requires 0 <= i < |f.k| => ConstantPart(f.k[i])))
    + Counted(seq(|f.upvalues|, i requires 0 <= i < |f.upvalues| => [f.upvalues[i].instack, f.upvalues[i].idx]))
    + Counted(NestedParts(f, strip))
    + DebugPart(f, strip)
  }

  function NestedParts(f: Proto, strip: bool): (parts: seq<seq<Byte>>)
    ensures |parts| == |f.p| && forall i :: 0 <= i < |parts| ==> parts[i] == FunctionPart(f.p[i], f.source, strip)
    decreases f, 0
  {
    seq(|f.p|, i requires 0 <= i < |f.p| => FunctionPart(f.p[i], f.source, strip))
  }

  // The header: the signature, version 5.3 and format 0, the bytes that show a broken transfer, the sizes of int,
  // size_t, instructions, integers and floats, and an integer and a float, 0x5678 and 370.5.
  const HEADER_PART: seq<Byte> :=
    [0x1b, 0x4c, 0x75, 0x61] + [0x53, 0] + [0x19, 0x93, 0x0d, 0x0a, 0x1a, 0x0a] + [4, 8, 4, 8, 8]
    + [0x78, 0x56, 0, 0, 0, 0, 0, 0] + [0, 0, 0, 0, 0, 0x28, 0x77, 0x40]

  // ---- the dumper writes this ----

  lemma IntPart(i: int)
    ensures Int4(i) == Low(i, 4) && Int8(i) == Low(i, 8)
  {
    BytesAre(i, 4);
    BytesAre(i, 8);
  }

  lemma TextIs(name: Name)
    ensures StringBytes(name) == TextPart(name)
  {
    hide Int8, Low;
    if !name.Null? { IntPart(|name.text| + 1); }
  }

  lemma ConstantIs(c: Constant)
    ensures ConstantBytes(c) == ConstantPart(c)
  {
    hide Int8, Low, StringBytes, TextPart;
    match c
    case Int(i) => IntPart(i);
    case Str(s) => TextIs(Name(s));
    case _ =>
  }

  lemma LocVarIs(v: LocVar)
    ensures LocVarBytes(v) == LocVarPart(v)
  {
    hide Int4, Low, StringBytes, TextPart;
    TextIs(v.varname);
    IntPart(v.startpc);
    IntPart(v.endpc);
  }

  lemma {:induction false} ManyAre<T>(xs: seq<T>, bytes: T -> seq<Byte>, parts: seq<seq<Byte>>)
    requires |parts| == |xs| && forall i :: 0 <= i < |xs| ==> parts[i] == bytes(xs[i])
    ensures ManyBytes(xs, bytes) == Flat(parts)
  {
    if xs != [] {
      forall i | 0 <= i < |xs| - 1 ensures parts[1..][i] == bytes(xs[1..][i]) { assert parts[i + 1] == bytes(xs[i + 1]); }
      ManyAre(xs[1..], bytes, parts[1..]);
    }
  }

  lemma VectorIs<T>(xs: seq<T>, bytes: T -> seq<Byte>, parts: seq<seq<Byte>>)
    requires |parts| == |xs| && forall i :: 0 <= i < |xs| ==> parts[i] == bytes(xs[i])
    ensures VectorBytes(xs, bytes) == Counted(parts)
  {
    hide Int4, Low;
    IntPart(|xs|);
    ManyAre(xs, bytes, parts);
  }

  lemma HeadIs(f: Proto, psource: Name, strip: bool)
    ensures HeadBytes(HeadOf(f, psource, strip)) == TextPart(if strip || f.source == psource then Null else f.source)
      + (Low(f.linedefined, 4) + Low(f.lastlinedefined, 4) + [f.numparams, f.isVararg, f.maxstacksize])
  {
    hide Int4, Low, StringBytes, TextPart;
    TextIs(if strip || f.source == psource then Null else f.source);
    IntPart(f.linedefined);
    IntPart(f.lastlinedefined);
  }

  lemma BodyIs(f: Proto)
    ensures BodyBytes(BodyOf(f)) ==
      Counted(seq(|f.code|, i requires 0 <= i < |f.code| => Low(f.code[i], 4)))
      + Counted(seq(|f.k|, i requires 0 <= i < |f.k| => ConstantPart(f.k[i])))
      + Counted(seq(|f.upvalues|, i requires 0 <= i < |f.upvalues| => [f.upvalues[i].instack, f.upvalues[i].idx]))
  {
    hide Int4, Low, ConstantBytes, ConstantPart, VectorBytes, Counted;
    forall i | 0 <= i < |f.code| ensures WordBytes(f.code[i]) == Low(f.code[i], 4) { IntPart(f.code[i]); }
    forall i | 0 <= i < |f.k| ensures ConstantBytes(f.k[i]) == ConstantPart(f.k[i]) { ConstantIs(f.k[i]); }
    VectorIs(f.code, WordBytes, seq(|f.code|, i requires 0 <= i < |f.code| => Low(f.code[i], 4)));
    VectorIs(f.k, ConstantBytes, seq(|f.k|, i requires 0 <= i < |f.k| => ConstantPart(f.k[i])));
    VectorIs(f.upvalues, UpvalueBytes, seq(|f.upvalues|, i requires 0 <= i < |f.upvalues| => [f.upvalues[i].instack, f.upvalues[i].idx]));
  }

  lemma DebugIs(f: Proto, strip: bool)
    ensures DebugBytes(DebugOf(f, strip)) == DebugPart(f, strip)
  {
    hide Int4, Low, StringBytes, TextPart, LocVarBytes, LocVarPart, VectorBytes, Counted;
    if strip {
      VectorIs<Int32>([], LineBytes, []);
      VectorIs<LocVar>([], LocVarBytes, []);
      VectorIs<Name>([], StringBytes, []);
    } else {
      forall i | 0 <= i < |f.lineinfo| ensures LineBytes(f.lineinfo[i]) == Low(f.lineinfo[i], 4) { IntPart(f.lineinfo[i]); }
      forall i | 0 <= i < |f.locvars| ensures LocVarBytes(f.locvars[i]) == LocVarPart(f.locvars[i]) { LocVarIs(f.locvars[i]); }
      forall i | 0 <= i < |f.upvalues| ensures StringBytes(f.upvalues[i].name) == TextPart(f.upvalues[i].name) { TextIs(f.upvalues[i].name); }
      VectorIs(f.lineinfo, LineBytes, seq(|f.lineinfo|, i requires 0 <= i < |f.lineinfo| => Low(f.lineinfo[i], 4)));
      VectorIs(f.locvars, LocVarBytes, seq(|f.locvars|, i requires 0 <= i < |f.locvars| => LocVarPart(f.locvars[i])));
      VectorIs(Names(f.upvalues), StringBytes, seq(|f.upvalues|, i requires 0 <= i < |f.upvalues| => TextPart(f.upvalues[i].name)));
    }
  }

  lemma {:induction false} NestedAre(f: Proto, i: nat, strip: bool)
    requires i <= |f.p|
    ensures ProtosBytes(f, i, strip) == Flat(NestedParts(f, strip)[i..])
    decreases f, |f.p| - i
  {
    hide FunctionBytes, FunctionPart;
    if i < |f.p| {
      FunctionIs(f.p[i], f.source, strip);
      NestedAre(f, i + 1, strip);
      assert NestedParts(f, strip)[i..][1..] == NestedParts(f, strip)[i + 1..];
    }
  }

  lemma {:induction false} FunctionIs(f: Proto, psource: Name, strip: bool)
    ensures FunctionBytes(f, psource, strip) == FunctionPart(f, psource, strip)
    decreases f, |f.p| + 1
  {
    hide Int4, Low, TextPart, ConstantPart, LocVarPart, DebugPart, Flat, HeadBytes, BodyBytes, DebugBytes, ProtosBytes;
    HeadIs(f, psource, strip);
    BodyIs(f);
    IntPart(|f.p|);
    NestedAre(f, 0, strip);
    assert NestedParts(f, strip)[0..] == NestedParts(f, strip);
    DebugIs(f, strip);
  }

  // A chunk is the header, the number of upvalues of the main function in one byte, and that function.
  lemma ChunkIs(f: Proto, strip: bool)
    requires Valid(f)
    ensures ChunkBytes(f, strip) == HEADER_PART + [|f.upvalues|] + FunctionPart(f, Null, strip)
  {
    hide FunctionBytes, FunctionPart, HeaderBytes;
    HeaderIs();
    FunctionIs(f, Null, strip);
  }

  lemma HeaderIs()
    ensures HeaderBytes() == HEADER_PART
  {
    hide Int8, Concat;
    IntPart(0x5678);
    assert Low(0x5678, 8) == [0x78, 0x56, 0, 0, 0, 0, 0, 0];
    HeaderConcat();
  }

  lemma HeaderConcat()
    ensures Concat(HEADER) == LUA_SIGNATURE[1..] + [LUAC_VERSION] + [LUAC_FORMAT] + LUAC_DATA + [4] + [8] + [4] + [8] + [8] + Int8(LUAC_INT) + LUAC_NUM
  {
    hide Int8, Concat;
    var last := [Int8(LUAC_INT), LUAC_NUM];
    var sizes: seq<seq<Byte>> := [[4], [8], [4], [8], [8]];
    var first := [LUA_SIGNATURE[1..], [LUAC_VERSION], [LUAC_FORMAT], LUAC_DATA];
    assert HEADER == first + (sizes + last);
    ConcatJoins(first, sizes + last);
    ConcatJoins(sizes, last);
    ConcatOfTwo(Int8(LUAC_INT), LUAC_NUM);
    ConcatOfSome(LUA_SIGNATURE[1..], [LUAC_VERSION], [LUAC_FORMAT], LUAC_DATA);
    ConcatOfSome([8], [4], [8], [8]);
    ConcatJoins([[4]], [[8], [4], [8], [8]]);
    assert sizes == [[4]] + [[8], [4], [8], [8]];
    ConcatOfOne([4]);
  }

  lemma {:induction false} ConcatJoins(a: seq<seq<Byte>>, b: seq<seq<Byte>>)
    ensures Concat(a + b) == Concat(a) + Concat(b)
  {
    if a == [] {
      assert a + b == b;
    } else {
      assert (a + b)[1..] == a[1..] + b;
      ConcatJoins(a[1..], b);
    }
  }

  lemma ConcatOfOne(a: seq<Byte>)
    ensures Concat([a]) == a
  {
    assert Concat([a]) == a + Concat([]);
  }

  lemma ConcatOfTwo(a: seq<Byte>, b: seq<Byte>)
    ensures Concat([a, b]) == a + b
  {
    ConcatOfOne(b);
    assert [a, b][1..] == [b];
  }

  lemma ConcatOfSome(a: seq<Byte>, b: seq<Byte>, c: seq<Byte>, d: seq<Byte>)
    ensures Concat([a, b, c, d]) == a + b + c + d
  {
    ConcatOfTwo(a, b);
    ConcatOfTwo(c, d);
    ConcatJoins([a, b], [c, d]);
    assert [a, b] + [c, d] == [a, b, c, d];
  }
}
