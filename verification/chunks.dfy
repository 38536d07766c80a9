// Precompiled chunks: the bytes of a function, and what is read back from them. Little-endian 64-bit machine.
module Chunks {
  import opened Integers
  import opened PackedIntegers

  type UInt32 = n: int | 0 <= n < 0x1_0000_0000
  type Int32 = n: int | -0x8000_0000 <= n < 0x8000_0000
  type Text = s: seq<Byte> | |s| < 0x7fff_ffff_ffff_ffff
  // A float as the machine holds it.
  type Number = s: seq<Byte> | |s| == 8 witness seq(8, _ => 0)
  // Vectors have a size that is an 'int'.
  predicate Sized<T>(s: seq<T>) { |s| < 0x8000_0000 }

  // A string that may be NULL.
  datatype Name = Null | Name(text: Text)

  datatype Constant = Nil | Bool(b: bool) | Float(n: Number) | Int(i: Integer) | Str(s: Text)

  datatype LocVar = LocVar(varname: Name, startpc: Int32, endpc: Int32)

  datatype Upvaldesc = Upvaldesc(name: Name, instack: Byte, idx: Byte)

  datatype Proto = Proto(
    source: Name, linedefined: Int32, lastlinedefined: Int32, numparams: Byte, isVararg: Byte, maxstacksize: Byte,
    code: seq<UInt32>, k: seq<Constant>, upvalues: seq<Upvaldesc>, p: seq<Proto>,
    lineinfo: seq<Int32>, locvars: seq<LocVar>)

  predicate Valid(f: Proto)
    decreases f
  {
    && Sized(f.code) && Sized(f.k) && |f.upvalues| <= 255 && Sized(f.p) && Sized(f.lineinfo) && Sized(f.locvars)
    && forall i :: 0 <= i < |f.p| ==> Valid(f.p[i])
  }

  // ---- reading ----

  datatype Fault = Truncated | NoMemory | OutOfBounds | BadHeader

  // A value and the bytes after it, or an error.
  datatype Loaded<T> = Got(value: T, rest: seq<Byte>) | Error(why: Fault) {
    predicate IsFailure() { Error? }
    function PropagateFailure<U>(): Loaded<U>
      requires IsFailure()
    {
      Error(why)
    }
    function Extract(): (T, seq<Byte>)
      requires !IsFailure()
    {
      (value, rest)
    }
  }

  function LoadBlock(z: seq<Byte>, n: nat): (r: Loaded<seq<Byte>>)
    ensures r.Got? ==> |r.value| == n && z == r.value + r.rest
  {
    if n <= |z| then Got(z[..n], z[n..]) else Error(Truncated)
  }

  function LoadByte(z: seq<Byte>): (r: Loaded<Byte>)
    ensures r.Got? ==> z == [r.value] + r.rest
  {
    if z != [] then Got(z[0], z[1..]) else Error(Truncated)
  }

  lemma DenotedInRange(s: seq<Byte>, signed: bool)
    requires |s| == 4 || |s| == 8
    ensures var v := Denoted(s, true, signed);
      if signed then -Half(|s|) <= v < Half(|s|) else 0 <= v < Pow256(|s|)
    ensures Half(4) == 0x8000_0000 && Pow256(4) == 0x1_0000_0000 && Half(8) == 0x8000_0000_0000_0000 && Pow256(8) == TWO64
  {
    NumberIsBounded(s);
    SizeOfInteger();
    assert Pow256(4) == 256 * 256 * 256 * 256;
  }

  function LoadInt(z: seq<Byte>): (r: Loaded<Int32>)
    ensures r.Got? ==> |z| == |r.rest| + 4
  {
    var (s, rest) :- LoadBlock(z, 4);
    DenotedInRange(s, true);
    Got(Denoted(s, true, true), rest)
  }

  function LoadInstruction(z: seq<Byte>): (r: Loaded<UInt32>)
    ensures r.Got? ==> |z| == |r.rest| + 4
  {
    var (s, rest) :- LoadBlock(z, 4);
    DenotedInRange(s, false);
    Got(Denoted(s, true, false), rest)
  }

  function LoadInteger(z: seq<Byte>): (r: Loaded<Integer>)
    ensures r.Got? ==> |z| == |r.rest| + 8
  {
    var (s, rest) :- LoadBlock(z, 8);
    DenotedInRange(s, true);
    Got(Denoted(s, true, true), rest)
  }

  function LoadNumber(z: seq<Byte>): (r: Loaded<Number>)
    ensures r.Got? ==> |z| == |r.rest| + 8
  {
    var (s, rest) :- LoadBlock(z, 8);
    var n: Number := s;
    Got(n, rest)
  }

  // The size of a string with its final zero; 0 for NULL.
  function LoadSize(z: seq<Byte>): (r: Loaded<nat>)
    ensures r.Got? ==> |z| > |r.rest|
  {
    var (b, r1) :- LoadByte(z);
    if b != 0xff then Got(b, r1)
    else
      var (s, r2) :- LoadBlock(r1, 8);
      DenotedInRange(s, false);
      Got(Denoted(s, true, false), r2)
  }

  function LoadString(z: seq<Byte>): (r: Loaded<Name>)
    ensures r.Got? ==> |z| > |r.rest|
  {
    var (size, r1) :- LoadSize(z);
    if size == 0 then Got(Null, r1)
    else if size - 1 >= 0x7fff_ffff_ffff_ffff then Error(NoMemory)
    else
      var (s, r2) :- LoadBlock(r1, size - 1);
      Got(Name(s), r2)
  }

  // A loader only ever takes bytes away.
  ghost predicate Shrinks<T>(item: seq<Byte> -> Loaded<T>) {
    forall z :: item(z).Got? ==> |item(z).rest| <= |z|
  }

  // n items one after the other.
  function Many<T>(z: seq<Byte>, n: nat, item: seq<Byte> -> Loaded<T>): (r: Loaded<seq<T>>)
    ensures r.Got? ==> |r.value| == n
    ensures r.Got? && Shrinks(item) ==> |r.rest| <= |z|
    decreases n
  {
    if n == 0 then Got([], z)
    else
      var (x, r1) :- item(z);
      var (xs, r2) :- Many(r1, n - 1, item);
      Got([x] + xs, r2)
  }

  // A count, then that many items; the vector is allocated first.
  function LoadVector<T>(z: seq<Byte>, item: seq<Byte> -> Loaded<T>): (r: Loaded<seq<T>>)
    ensures r.Got? && Shrinks(item) ==> |r.rest| <= |z|
  {
    var (n, rest) :- LoadInt(z);
    if n < 0 then Error(NoMemory) else Many(rest, n, item)
  }

  const LUA_TNIL: Byte := 0
  const LUA_TBOOLEAN: Byte := 1
  const LUA_TNUMFLT: Byte := 3
  const LUA_TNUMINT: Byte := 19
  const LUA_TSHRSTR: Byte := 4
  const LUA_TLNGSTR: Byte := 20
  const LUAI_MAXSHORTLEN: nat := 40

  // A tag that is none of these leaves the constant nil.
  function LoadConstant(z: seq<Byte>): (r: Loaded<Constant>)
    ensures r.Got? ==> |r.rest| <= |z|
  {
    var (t, r1) :- LoadByte(z);
    if t == LUA_TBOOLEAN then
      var (b, r2) :- LoadByte(r1);
      Got(Bool(b != 0), r2)
    else if t == LUA_TNUMFLT then
      var (x, r2) :- LoadNumber(r1);
      Got(Float(x), r2)
    else if t == LUA_TNUMINT then
      var (i, r2) :- LoadInteger(r1);
      Got(Int(i), r2)
    else if t == LUA_TSHRSTR || t == LUA_TLNGSTR then
      // a NULL string here is not looked at by the loader
      var (s, r2) :- LoadString(r1);
      if s.Null? then Error(OutOfBounds) else Got(Str(s.text), r2)
    else Got(Nil, r1)
  }

  function LoadUpvalue(z: seq<Byte>): (r: Loaded<Upvaldesc>)
    ensures r.Got? ==> |r.rest| <= |z|
  {
    var (instack, r1) :- LoadByte(z);
    var (idx, r2) :- LoadByte(r1);
    Got(Upvaldesc(Null, instack, idx), r2)
  }

  function LoadLocVar(z: seq<Byte>): (r: Loaded<LocVar>)
    ensures r.Got? ==> |r.rest| <= |z|
  {
    var (name, r1) :- LoadString(z);
    var (startpc, r2) :- LoadInt(r1);
    var (endpc, r3) :- LoadInt(r2);
    Got(LocVar(name, startpc, endpc), r3)
  }

  function WithNames(us: seq<Upvaldesc>, names: seq<Name>): (r: seq<Upvaldesc>)
    requires |names| <= |us|
    ensures |r| == |us|
  {
    seq(|us|, i requires 0 <= i < |us| => if i < |names| then us[i].(name := names[i]) else us[i])
  }

  // ---- writing ----

  function Int4(i: int): seq<Byte> { IntBytes(i, true, 4) }
  function Int8(i: int): seq<Byte> { IntBytes(i, true, 8) }

  function WordBytes(i: UInt32): seq<Byte> { Int4(i) }
  function LineBytes(i: Int32): seq<Byte> { Int4(i) }

  function SizeBytes(size: nat): seq<Byte> {
    if size < 0xff then [size] else [0xff] + Int8(size)
  }

  function StringBytes(s: Name): seq<Byte> {
    if s.Null? then [0] else SizeBytes(|s.text| + 1) + s.text
  }

  function ConstantBytes(c: Constant): seq<Byte> {
    match c
    case Nil => [LUA_TNIL]
    case Bool(b) => [LUA_TBOOLEAN, if b then 1 else 0]
    case Float(n) => [LUA_TNUMFLT] + n
    case Int(i) => [LUA_TNUMINT] + Int8(i)
    case Str(s) => [if |s| <= LUAI_MAXSHORTLEN then LUA_TSHRSTR else LUA_TLNGSTR] + StringBytes(Name(s))
  }

  function UpvalueBytes(u: Upvaldesc): seq<Byte> { [u.instack, u.idx] }

  function LocVarBytes(v: LocVar): seq<Byte> { StringBytes(v.varname) + Int4(v.startpc) + Int4(v.endpc) }

  function ManyBytes<T>(xs: seq<T>, bytes: T -> seq<Byte>): seq<Byte> {
    if xs == [] then [] else bytes(xs[0]) + ManyBytes(xs[1..], bytes)
  }

  function VectorBytes<T>(xs: seq<T>, bytes: T -> seq<Byte>): seq<Byte> { Int4(|xs|) + ManyBytes(xs, bytes) }

  function Names(us: seq<Upvaldesc>): (ns: seq<Name>)
    ensures |ns| == |us|
  {
    seq(|us|, i requires 0 <= i < |us| => us[i].name)
  }

  // ---- one item at a time ----

  lemma Block(s: seq<Byte>, rest: seq<Byte>)
    ensures LoadBlock(s + rest, |s|) == Got(s, rest)
  {
  }

  lemma IntReads(i: Int32, rest: seq<Byte>)
    ensures LoadInt(Int4(i) + rest) == Got(i, rest)
  {
    hide IntBytes, Denoted;
    Block(Int4(i), rest);
    DenotedInRange(Int4(i), true);
    IntRoundTrip(i, true, 4, true);
  }

  lemma InstructionReads(i: UInt32, rest: seq<Byte>)
    ensures LoadInstruction(Int4(i) + rest) == Got(i, rest)
  {
    hide IntBytes, Denoted;
    Block(Int4(i), rest);
    DenotedInRange(Int4(i), false);
    IntRoundTrip(i, true, 4, false);
  }

  lemma IntegerReads(i: Integer, rest: seq<Byte>)
    ensures LoadInteger(Int8(i) + rest) == Got(i, rest)
  {
    hide IntBytes, Denoted;
    Block(Int8(i), rest);
    DenotedInRange(Int8(i), true);
    IntRoundTrip(i, true, 8, true);
  }

  lemma SizeReads(size: nat, rest: seq<Byte>)
    requires size < TWO64 / 2
    ensures LoadSize(SizeBytes(size) + rest) == Got(size, rest)
  {
    hide IntBytes, Denoted;
    if size >= 0xff {
      assert (SizeBytes(size) + rest)[1..] == Int8(size) + rest;
      Block(Int8(size), rest);
      DenotedInRange(Int8(size), false);
      IntRoundTrip(size, true, 8, false);
    }
  }

  lemma StringReads(s: Name, rest: seq<Byte>)
    ensures LoadString(StringBytes(s) + rest) == Got(s, rest)
  {
    hide LoadSize, SizeBytes;
    if s.Null? {
      assert [0] + rest == SizeBytes(0) + rest by { OneByteSize(); }
      SizeReads(0, rest);
    } else {
      assert StringBytes(s) + rest == SizeBytes(|s.text| + 1) + (s.text + rest);
      SizeReads(|s.text| + 1, s.text + rest);
      Block(s.text, rest);
    }
  }

  lemma OneByteSize()
    ensures SizeBytes(0) == [0]
  {
  }

  lemma ConstantReads(c: Constant, rest: seq<Byte>)
    ensures LoadConstant(ConstantBytes(c) + rest) == Got(c, rest)
  {
    hide LoadString, StringBytes, LoadInteger, Int8;
    var z := ConstantBytes(c) + rest;
    match c
    case Nil =>
    case Bool(b) => assert z[1..][1..] == rest;
    case Float(n) =>
      assert z[1..] == n + rest;
      Block(n, rest);
    case Int(i) =>
      assert z[1..] == Int8(i) + rest;
      IntegerReads(i, rest);
    case Str(s) =>
      assert z[1..] == StringBytes(Name(s)) + rest;
      StringReads(Name(s), rest);
  }

  lemma UpvalueReads(u: Upvaldesc, rest: seq<Byte>)
    ensures LoadUpvalue(UpvalueBytes(u) + rest) == Got(u.(name := Null), rest)
  {
    assert (UpvalueBytes(u) + rest)[1..] == [u.idx] + rest;
  }

  lemma LocVarReads(v: LocVar, rest: seq<Byte>)
    ensures LoadLocVar(LocVarBytes(v) + rest) == Got(v, rest)
  {
    hide LoadString, StringBytes, LoadInt, Int4;
    assert LocVarBytes(v) + rest == StringBytes(v.varname) + (Int4(v.startpc) + (Int4(v.endpc) + rest));
    StringReads(v.varname, Int4(v.startpc) + (Int4(v.endpc) + rest));
    IntReads(v.startpc, Int4(v.endpc) + rest);
    IntReads(v.endpc, rest);
  }

  // ---- many items ----

  ghost predicate Inverse<T(!new)>(bytes: T -> seq<Byte>, item: seq<Byte> -> Loaded<T>) {
    forall x, rest :: item(bytes(x) + rest) == Got(x, rest)
  }

  lemma {:induction false} ManyRead<T(!new)>(xs: seq<T>, bytes: T -> seq<Byte>, item: seq<Byte> -> Loaded<T>, rest: seq<Byte>)
    requires Inverse(bytes, item)
    ensures Many(ManyBytes(xs, bytes) + rest, |xs|, item) == Got(xs, rest)
  {
    if xs == [] {
      assert ManyBytes(xs, bytes) + rest == rest;
    } else {
      var tail := ManyBytes(xs[1..], bytes);
      assert ManyBytes(xs, bytes) + rest == bytes(xs[0]) + (tail + rest);
      ManyRead(xs[1..], bytes, item, rest);
      assert [xs[0]] + xs[1..] == xs;
    }
  }

  lemma VectorReads<T(!new)>(xs: seq<T>, bytes: T -> seq<Byte>, item: seq<Byte> -> Loaded<T>, rest: seq<Byte>)
    requires Inverse(bytes, item) && Sized(xs)
    ensures LoadVector(VectorBytes(xs, bytes) + rest, item) == Got(xs, rest)
  {
    hide LoadInt, Int4, Inverse;
    assert VectorBytes(xs, bytes) + rest == Int4(|xs|) + (ManyBytes(xs, bytes) + rest);
    IntReads(|xs|, ManyBytes(xs, bytes) + rest);
    ManyRead(xs, bytes, item, rest);
  }

  // ---- functions ----

  function Bare(us: seq<Upvaldesc>): (r: seq<Upvaldesc>)
    ensures |r| == |us|
  {
    seq(|us|, i requires 0 <= i < |us| => us[i].(name := Null))
  }

  datatype Debug = Debug(lineinfo: seq<Int32>, locvars: seq<LocVar>, names: seq<Name>)

  function DebugBytes(d: Debug): seq<Byte> {
    VectorBytes(d.lineinfo, LineBytes) + (VectorBytes(d.locvars, LocVarBytes) + VectorBytes(d.names, StringBytes))
  }

  // The names of the upvalues go into the vector that is already there, so that nothing is allocated
  // for them: a negative count makes the loop do nothing.
  function LoadNames(z: seq<Byte>): (r: Loaded<seq<Name>>)
    ensures r.Got? ==> |r.rest| <= |z|
  {
    assert Shrinks(LoadString);
    var (n, r1) :- LoadInt(z);
    Many(r1, if n < 0 then 0 else n, LoadString)
  }

  function LoadDebug(z: seq<Byte>): (r: Loaded<Debug>)
    ensures r.Got? ==> |r.rest| <= |z|
  {
    assert Shrinks(LoadInt) && Shrinks(LoadLocVar);
    var (lineinfo, r1) :- LoadVector(z, LoadInt);
    var (locvars, r2) :- LoadVector(r1, LoadLocVar);
    var (names, r3) :- LoadNames(r2);
    Got(Debug(lineinfo, locvars, names), r3)
  }

  // What comes before the vectors.
  datatype Head = Head(source: Name, linedefined: Int32, lastlinedefined: Int32, numparams: Byte, isVararg: Byte, maxstacksize: Byte)

  function HeadBytes(h: Head): seq<Byte> {
    StringBytes(h.source) + (Int4(h.linedefined) + (Int4(h.lastlinedefined) + [h.numparams, h.isVararg, h.maxstacksize]))
  }

  function LoadHead(z: seq<Byte>): (r: Loaded<Head>)
    ensures r.Got? ==> |r.rest| < |z|
  {
    var (source, r1) :- LoadString(z);
    var (linedefined, r2) :- LoadInt(r1);
    var (lastlinedefined, r3) :- LoadInt(r2);
    var (numparams, r4) :- LoadByte(r3);
    var (isVararg, r5) :- LoadByte(r4);
    var (maxstacksize, r6) :- LoadByte(r5);
    Got(Head(source, linedefined, lastlinedefined, numparams, isVararg, maxstacksize), r6)
  }

  // The vectors before the nested functions.
  datatype Body = Body(code: seq<UInt32>, k: seq<Constant>, upvalues: seq<Upvaldesc>)

  function BodyBytes(b: Body): seq<Byte> {
    VectorBytes(b.code, WordBytes) + (VectorBytes(b.k, ConstantBytes) + VectorBytes(b.upvalues, UpvalueBytes))
  }

  function LoadBody(z: seq<Byte>): (r: Loaded<Body>)
    ensures r.Got? ==> |r.rest| <= |z|
  {
    assert Shrinks(LoadInstruction) && Shrinks(LoadConstant) && Shrinks(LoadUpvalue);
    var (code, r1) :- LoadVector(z, LoadInstruction);
    var (k, r2) :- LoadVector(r1, LoadConstant);
    var (upvalues, r3) :- LoadVector(r2, LoadUpvalue);
    Got(Body(code, k, upvalues), r3)
  }

  // 'DumpFunction'; psource is the source of the enclosing function.
  function HeadOf(f: Proto, psource: Name, strip: bool): Head {
    Head(if strip || f.source == psource then Null else f.source,
      f.linedefined, f.lastlinedefined, f.numparams, f.isVararg, f.maxstacksize)
  }

  function BodyOf(f: Proto): Body { Body(f.code, f.k, f.upvalues) }

  function DebugOf(f: Proto, strip: bool): Debug { if strip then Debug([], [], []) else Debug(f.lineinfo, f.locvars, Names(f.upvalues)) }

  function FunctionBytes(f: Proto, psource: Name, strip: bool): seq<Byte>
    decreases f, |f.p| + 1
  {
    HeadBytes(HeadOf(f, psource, strip)) + (BodyBytes(BodyOf(f)) + (Int4(|f.p|) + (ProtosBytes(f, 0, strip) + DebugBytes(DebugOf(f, strip)))))
  }

  // The nested functions from the i-th on.
  function ProtosBytes(f: Proto, i: nat, strip: bool): seq<Byte>
    requires i <= |f.p|
    decreases f, |f.p| - i
  {
    if i == |f.p| then [] else FunctionBytes(f.p[i], f.source, strip) + ProtosBytes(f, i + 1, strip)
  }

  // 'LoadFunction'
  function LoadFunction(z: seq<Byte>, psource: Name): (r: Loaded<Proto>)
    ensures r.Got? ==> |r.rest| < |z|
    decreases |z|, 0, 0
  {
    var (h, r1) :- LoadHead(z);
    var source := if h.source.Null? then psource else h.source;
    var (b, r2) :- LoadBody(r1);
    var (n, r3) :- LoadInt(r2);
    if n < 0 then Error(NoMemory)
    else
      var (ps, r4) :- LoadProtos(r3, n, source);
      var (d, r5) :- LoadDebug(r4);
      // more names than upvalues would be written outside of the vector
      if |d.names| > |b.upvalues| then Error(OutOfBounds)
      else
        Got(Proto(source, h.linedefined, h.lastlinedefined, h.numparams, h.isVararg, h.maxstacksize,
              b.code, b.k, WithNames(b.upvalues, d.names), ps, d.lineinfo, d.locvars), r5)
  }

  function LoadProtos(z: seq<Byte>, n: nat, psource: Name): (r: Loaded<seq<Proto>>)
    ensures r.Got? ==> |r.rest| <= |z| && |r.value| == n
    decreases |z|, 1, n
  {
    if n == 0 then Got([], z)
    else
      var (p, r1) :- LoadFunction(z, psource);
      var (ps, r2) :- LoadProtos(r1, n - 1, psource);
      Got([p] + ps, r2)
  }

  // ---- what comes back ----

  // A function whose enclosing function had source 'psource' when written and has 'lsource' when read.
  function Restored(f: Proto, psource: Name, lsource: Name, strip: bool): Proto
    decreases f, |f.p| + 1
  {
    var source := if strip || f.source == psource || f.source.Null? then lsource else f.source;
    var bare := f.(source := source, p := RestoredFrom(f, 0, source, strip));
    if strip then bare.(lineinfo := [], locvars := [], upvalues := Bare(f.upvalues)) else bare
  }

  function RestoredFrom(f: Proto, i: nat, lsource: Name, strip: bool): (ps: seq<Proto>)
    requires i <= |f.p|
    ensures |ps| == |f.p| - i
    decreases f, |f.p| - i
  {
    if i == |f.p| then [] else [Restored(f.p[i], f.source, lsource, strip)] + RestoredFrom(f, i + 1, lsource, strip)
  }

  lemma HeadReads(h: Head, rest: seq<Byte>)
    ensures LoadHead(HeadBytes(h) + rest) == Got(h, rest)
  {
    hide LoadString, StringBytes, LoadInt, Int4;
    var bs := [h.numparams, h.isVararg, h.maxstacksize];
    var r3 := bs + rest;
    var r2 := Int4(h.lastlinedefined) + r3;
    var r1 := Int4(h.linedefined) + r2;
    assert HeadBytes(h) + rest == StringBytes(h.source) + r1;
    StringReads(h.source, r1);
    IntReads(h.linedefined, r2);
    IntReads(h.lastlinedefined, r3);
    assert r3[1..] == [h.isVararg, h.maxstacksize] + rest && r3[1..][1..] == [h.maxstacksize] + rest && r3[1..][1..][1..] == rest;
  }

  lemma Inverses()
    ensures Inverse<UInt32>(WordBytes, LoadInstruction) && Inverse<Constant>(ConstantBytes, LoadConstant)
    ensures Inverse<Int32>(LineBytes, LoadInt) && Inverse<LocVar>(LocVarBytes, LoadLocVar) && Inverse<Name>(StringBytes, LoadString)
  {
    hide LoadInstruction, LoadConstant, ConstantBytes, LoadInt, Int4, LoadLocVar, LocVarBytes, LoadString, StringBytes;
    forall i: UInt32, rest ensures LoadInstruction(WordBytes(i) + rest) == Got(i, rest) { InstructionReads(i, rest); }
    forall c: Constant, rest ensures LoadConstant(ConstantBytes(c) + rest) == Got(c, rest) { ConstantReads(c, rest); }
    forall i: Int32, rest ensures LoadInt(LineBytes(i) + rest) == Got(i, rest) { IntReads(i, rest); }
    forall v: LocVar, rest ensures LoadLocVar(LocVarBytes(v) + rest) == Got(v, rest) { LocVarReads(v, rest); }
    forall s: Name, rest ensures LoadString(StringBytes(s) + rest) == Got(s, rest) { StringReads(s, rest); }
  }

  lemma NamesRead(names: seq<Name>, rest: seq<Byte>)
    requires Sized(names)
    ensures LoadNames(VectorBytes(names, StringBytes) + rest) == Got(names, rest)
  {
    hide LoadInt, Int4, StringBytes, LoadString;
    assert Inverse(StringBytes, LoadString) by { Inverses(); }
    assert VectorBytes(names, StringBytes) + rest == Int4(|names|) + (ManyBytes(names, StringBytes) + rest);
    IntReads(|names|, ManyBytes(names, StringBytes) + rest);
    ManyRead(names, StringBytes, LoadString, rest);
  }

  lemma DebugReads(d: Debug, rest: seq<Byte>)
    requires Sized(d.lineinfo) && Sized(d.locvars) && Sized(d.names)
    ensures LoadDebug(DebugBytes(d) + rest) == Got(d, rest)
  {
    hide VectorBytes, LoadVector, LoadNames;
    Inverses();
    var r2 := VectorBytes(d.names, StringBytes) + rest;
    var r1 := VectorBytes(d.locvars, LocVarBytes) + r2;
    assert DebugBytes(d) + rest == VectorBytes(d.lineinfo, LineBytes) + r1;
    VectorReads(d.lineinfo, LineBytes, LoadInt, r1);
    VectorReads(d.locvars, LocVarBytes, LoadLocVar, r2);
    NamesRead(d.names, rest);
  }

  lemma {:induction false} UpvaluesRead(us: seq<Upvaldesc>, rest: seq<Byte>)
    ensures Many(ManyBytes(us, UpvalueBytes) + rest, |us|, LoadUpvalue) == Got(Bare(us), rest)
  {
    if us == [] {
      assert ManyBytes(us, UpvalueBytes) + rest == rest;
    } else {
      var tail := ManyBytes(us[1..], UpvalueBytes) + rest;
      assert ManyBytes(us, UpvalueBytes) + rest == UpvalueBytes(us[0]) + tail;
      UpvalueReads(us[0], tail);
      UpvaluesRead(us[1..], rest);
      assert [us[0].(name := Null)] + Bare(us[1..]) == Bare(us);
    }
  }

  lemma BodyReads(b: Body, rest: seq<Byte>)
    requires Sized(b.code) && Sized(b.k) && Sized(b.upvalues)
    ensures LoadBody(BodyBytes(b) + rest) == Got(b.(upvalues := Bare(b.upvalues)), rest)
  {
    hide LoadInt, Int4, LoadConstant, ConstantBytes, LoadUpvalue, UpvalueBytes, Many, ManyBytes, LoadInstruction;
    Inverses();
    var r3 := ManyBytes(b.upvalues, UpvalueBytes) + rest;
    var r2 := VectorBytes(b.upvalues, UpvalueBytes) + rest;
    var r1 := VectorBytes(b.k, ConstantBytes) + r2;
    assert BodyBytes(b) + rest == VectorBytes(b.code, WordBytes) + r1;
    VectorReads(b.code, WordBytes, LoadInstruction, r1);
    VectorReads(b.k, ConstantBytes, LoadConstant, r2);
    assert r2 == Int4(|b.upvalues|) + r3;
    IntReads(|b.upvalues|, r3);
    UpvaluesRead(b.upvalues, rest);
  }

  lemma NamesBack(us: seq<Upvaldesc>)
    ensures WithNames(Bare(us), Names(us)) == us && WithNames(Bare(us), []) == Bare(us)
  {
  }

  // Undumping what was dumped.
  lemma {:induction false} FunctionReads(f: Proto, psource: Name, lsource: Name, strip: bool, rest: seq<Byte>)
    requires Valid(f)
    ensures LoadFunction(FunctionBytes(f, psource, strip) + rest, lsource) == Got(Restored(f, psource, lsource, strip), rest)
    decreases f, |f.p| + 1
  {
    hide LoadHead, HeadBytes, LoadBody, BodyBytes, LoadDebug, DebugBytes, LoadInt, Int4, LoadProtos, ProtosBytes, WithNames, Bare, Names;
    var h, b, d := HeadOf(f, psource, strip), BodyOf(f), DebugOf(f, strip);
    var r4 := DebugBytes(d) + rest;
    var r3 := ProtosBytes(f, 0, strip) + r4;
    var r2 := Int4(|f.p|) + r3;
    var r1 := BodyBytes(b) + r2;
    assert FunctionBytes(f, psource, strip) + rest == HeadBytes(h) + r1;
    HeadReads(h, r1);
    BodyReads(b, r2);
    IntReads(|f.p|, r3);
    var source := if h.source.Null? then lsource else h.source;
    ProtosRead(f, 0, source, strip, r4);
    DebugReads(d, rest);
    NamesBack(f.upvalues);
  }

  lemma {:induction false} ProtosRead(f: Proto, i: nat, lsource: Name, strip: bool, rest: seq<Byte>)
    requires Valid(f) && i <= |f.p|
    ensures LoadProtos(ProtosBytes(f, i, strip) + rest, |f.p| - i, lsource) == Got(RestoredFrom(f, i, lsource, strip), rest)
    decreases f, |f.p| - i
  {
    hide LoadFunction, FunctionBytes, Restored;
    if i == |f.p| {
      assert ProtosBytes(f, i, strip) + rest == rest;
    } else {
      var r1 := ProtosBytes(f, i + 1, strip) + rest;
      assert ProtosBytes(f, i, strip) + rest == FunctionBytes(f.p[i], f.source, strip) + r1;
      FunctionReads(f.p[i], f.source, lsource, strip, r1);
      ProtosRead(f, i + 1, lsource, strip, rest);
    }
  }

  // No nested function loses its source: it has one, or its enclosing function has none either.
  predicate KeepsSources(f: Proto)
    decreases f
  {
    forall i :: 0 <= i < |f.p| ==> (f.p[i].source.Null? ==> f.source.Null?) && KeepsSources(f.p[i])
  }

  // Unstripped, a function comes back the same exactly under that condition.
  lemma {:induction false} RestoredIsSame(f: Proto, psource: Name)
    requires f.source.Null? ==> psource.Null?
    ensures Restored(f, psource, psource, false) == f <==> KeepsSources(f)
    decreases f, |f.p| + 1
  {
    SamePrefix(f, 0);
    assert f.p[0..] == f.p;
  }

  lemma {:induction false} SamePrefix(f: Proto, i: nat)
    requires i <= |f.p|
    ensures RestoredFrom(f, i, f.source, false) == f.p[i..] <==>
      forall j :: i <= j < |f.p| ==> (f.p[j].source.Null? ==> f.source.Null?) && KeepsSources(f.p[j])
    decreases f, |f.p| - i
  {
    if i < |f.p| {
      hide KeepsSources;
      SamePrefix(f, i + 1);
      assert f.p[i..] == [f.p[i]] + f.p[i + 1..];
      SameHead(RestoredFrom(f, i, f.source, false), f.p[i..]);
      if f.p[i].source.Null? && !f.source.Null? {
        assert Restored(f.p[i], f.source, f.source, false).source == f.source;
      } else {
        RestoredIsSame(f.p[i], f.source);
      }
    }
  }

  lemma SameHead(a: seq<Proto>, b: seq<Proto>)
    requires |a| == |b| > 0
    ensures a == b <==> a[0] == b[0] && a[1..] == b[1..]
  {
    if a[0] == b[0] && a[1..] == b[1..] { assert a == [a[0]] + a[1..] && b == [b[0]] + b[1..]; }
  }

  // Without its debug information.
  function Stripped(f: Proto): Proto
    decreases f
  {
    f.(source := Null, lineinfo := [], locvars := [], upvalues := Bare(f.upvalues),
       p := seq(|f.p|, i requires 0 <= i < |f.p| => Stripped(f.p[i])))
  }

  lemma {:induction false} RestoredIsStripped(f: Proto, psource: Name)
    ensures Restored(f, psource, Null, true) == Stripped(f)
    decreases f, |f.p| + 1
  {
    StrippedFrom(f, 0);
    assert Stripped(f).p == seq(|f.p|, i requires 0 <= i < |f.p| => Stripped(f.p[i]));
    assert RestoredFrom(f, 0, Null, true) == Stripped(f).p;
  }

  lemma {:induction false} StrippedFrom(f: Proto, i: nat)
    requires i <= |f.p|
    ensures forall j :: i <= j < |f.p| ==> RestoredFrom(f, i, Null, true)[j - i] == Stripped(f.p[j])
    decreases f, |f.p| - i
  {
    if i < |f.p| {
      hide Stripped, Restored;
      RestoredIsStripped(f.p[i], f.source);
      StrippedFrom(f, i + 1);
    }
  }

  // ---- the header ----

  const LUA_SIGNATURE: seq<Byte> := [0x1b, 0x4c, 0x75, 0x61]
  const LUAC_DATA: seq<Byte> := [0x19, 0x93, 0x0d, 0x0a, 0x1a, 0x0a]
  const LUAC_VERSION: Byte := 0x53
  const LUAC_FORMAT: Byte := 0
  const LUAC_INT: Integer := 0x5678
  // 370.5
  const LUAC_NUM: Number := [0, 0, 0, 0, 0, 0x28, 0x77, 0x40]
  // What the header is made of: the literals, then the sizes of int, size_t, Instruction, lua_Integer and
  // lua_Number, then a value of each of the last two.
  const HEADER: seq<seq<Byte>> :=
    [LUA_SIGNATURE[1..], [LUAC_VERSION], [LUAC_FORMAT], LUAC_DATA, [4], [8], [4], [8], [8], Int8(LUAC_INT), LUAC_NUM]

  function Concat(parts: seq<seq<Byte>>): seq<Byte> { if parts == [] then [] else parts[0] + Concat(parts[1..]) }

  function HeaderBytes(): seq<Byte> { LUA_SIGNATURE[..1] + Concat(HEADER) }

  // The header past its first byte, which the caller has read: each part is read and compared.
  function CheckParts(z: seq<Byte>, parts: seq<seq<Byte>>): Loaded<()>
    decreases |parts|
  {
    if parts == [] then Got((), z)
    else
      var (s, rest) :- LoadBlock(z, |parts[0]|);
      if s == parts[0] then CheckParts(rest, parts[1..]) else Error(BadHeader)
  }

  lemma {:induction false} PartsPass(parts: seq<seq<Byte>>, rest: seq<Byte>)
    ensures CheckParts(Concat(parts) + rest, parts) == Got((), rest)
  {
    if parts == [] {
      assert Concat(parts) + rest == rest;
    } else {
      assert Concat(parts) + rest == parts[0] + (Concat(parts[1..]) + rest);
      Block(parts[0], Concat(parts[1..]) + rest);
      PartsPass(parts[1..], rest);
    }
  }

  // 'luaU_dump' and 'luaU_undump'
  function ChunkBytes(f: Proto, strip: bool): seq<Byte>
    requires Valid(f)
  {
    HeaderBytes() + [|f.upvalues|] + FunctionBytes(f, Null, strip)
  }

  function Undumped(z: seq<Byte>): Loaded<Proto> {
    var (_, r1) :- CheckParts(z, HEADER);
    var (_, r2) :- LoadByte(r1);
    LoadFunction(r2, Null)
  }

  // A dumped chunk is read back as the same tree, or as the tree without debug information if it was
  // stripped. Unstripped, that fails exactly for a nested function without a source in one that has one.
  lemma RoundTrip(f: Proto, strip: bool, rest: seq<Byte>)
    requires Valid(f)
    ensures ChunkBytes(f, strip) != [] && ChunkBytes(f, strip)[0] == LUA_SIGNATURE[0]
    ensures strip ==> Undumped(ChunkBytes(f, strip)[1..] + rest) == Got(Stripped(f), rest)
    ensures !strip ==> (Undumped(ChunkBytes(f, strip)[1..] + rest) == Got(f, rest) <==> KeepsSources(f))
  {
    hide HeaderBytes, LoadFunction, FunctionBytes, Restored, Stripped, KeepsSources, Concat, CheckParts;
    HeaderStarts();
    var body := FunctionBytes(f, Null, strip) + rest;
    var z := ChunkBytes(f, strip)[1..] + rest;
    assert z == Concat(HEADER) + ([|f.upvalues|] + body);
    assert ([|f.upvalues|] + body)[1..] == body;
    PartsPass(HEADER, [|f.upvalues|] + body);
    FunctionReads(f, Null, Null, strip, rest);
    if strip { RestoredIsStripped(f, Null); } else { RestoredIsSame(f, Null); }
  }

  lemma HeaderStarts()
    ensures HeaderBytes() != [] && HeaderBytes()[0] == LUA_SIGNATURE[0] && HeaderBytes()[1..] == Concat(HEADER)
  {
  }
}
