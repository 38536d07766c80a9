// The loader: consumes a stream and fills the vectors of a function one element after the other.
module Undumper {
  import opened Integers
  import opened PackedIntegers
  import opened Chunks
  import opened Dumper

  class LoadState {
    // The bytes not yet read.
    var z: seq<Byte>

    constructor (z: seq<Byte>)
      ensures this.z == z
    {
      this.z := z;
    }

    method ReadBlock(n: nat) returns (r: Loaded<seq<Byte>>)
      modifies this
      ensures r == LoadBlock(old(z), n) && (r.Got? ==> z == r.rest)
    {
      if n > |z| { return Error(Truncated); }
      var b := z[..n];
      z := z[n..];
      return Got(b, z);
    }

    method ReadByte() returns (r: Loaded<Byte>)
      modifies this
      ensures r == LoadByte(old(z)) && (r.Got? ==> z == r.rest)
    {
      if z == [] { return Error(Truncated); }
      var b := z[0];
      z := z[1..];
      return Got(b, z);
    }

    method ReadNumber32() returns (r: Loaded<Int32>)
      modifies this
      ensures r == LoadInt(old(z)) && (r.Got? ==> z == r.rest)
    {
      hide Denoted;
      var b :- ReadBlock(4);
      DenotedInRange(b.0, true);
      return Got(Denoted(b.0, true, true), z);
    }

    method ReadInstruction() returns (r: Loaded<UInt32>)
      modifies this
      ensures r == LoadInstruction(old(z)) && (r.Got? ==> z == r.rest)
    {
      hide Denoted;
      var b :- ReadBlock(4);
      DenotedInRange(b.0, false);
      return Got(Denoted(b.0, true, false), z);
    }

    method ReadString() returns (r: Loaded<Name>)
      modifies this
      ensures r == LoadString(old(z)) && (r.Got? ==> z == r.rest)
    {
      hide Denoted;
      var b :- ReadByte();
      var size: nat := b.0;
      if size == 0xff {
        var s :- ReadBlock(8);
        DenotedInRange(s.0, false);
        size := Denoted(s.0, true, false);
      }
      if size == 0 { return Got(Null, z); }
      if size - 1 >= 0x7fff_ffff_ffff_ffff { return Error(NoMemory); }
      var s :- ReadBlock(size - 1);
      return Got(Name(s.0), z);
    }

    method ReadConstant() returns (r: Loaded<Constant>)
      modifies this
      ensures r == LoadConstant(old(z)) && (r.Got? ==> z == r.rest)
    {
      hide Denoted, LoadString;
      var t :- ReadByte();
      if t.0 == LUA_TBOOLEAN {
        var b :- ReadByte();
        return Got(Bool(b.0 != 0), z);
      } else if t.0 == LUA_TNUMFLT {
        var b :- ReadBlock(8);
        return Got(Float(b.0), z);
      } else if t.0 == LUA_TNUMINT {
        var b :- ReadBlock(8);
        DenotedInRange(b.0, true);
        return Got(Int(Denoted(b.0, true, true)), z);
      } else if t.0 == LUA_TSHRSTR || t.0 == LUA_TLNGSTR {
        var s :- ReadString();
        if s.0.Null? { return Error(OutOfBounds); }
        return Got(Str(s.0.text), z);
      } else {
        return Got(Nil, z);
      }
    }

    // 'LoadCode'
    method ReadCode() returns (r: Loaded<seq<UInt32>>)
      modifies this
      ensures r == LoadVector(old(z), LoadInstruction) && (r.Got? ==> z == r.rest)
    {
      hide LoadInt, LoadInstruction;
      var n :- ReadNumber32();
      if n.0 < 0 { return Error(NoMemory); }
      ghost var start := z;
      var xs: seq<UInt32> := [];
      var i := 0;
      First(Many(start, n.0, LoadInstruction));
      while i < n.0
        invariant 0 <= i <= n.0 && |xs| == i
        invariant Many(start, n.0, LoadInstruction) == After(xs, Many(z, n.0 - i, LoadInstruction))
      {
        Next(xs, z, n.0 - i, LoadInstruction);
        var x :- ReadInstruction();
        xs := xs + [x.0];
        i := i + 1;
      }
      Last(xs, z, LoadInstruction);
      return Got(xs, z);
    }

    method ReadConstants() returns (r: Loaded<seq<Constant>>)
      modifies this
      ensures r == LoadVector(old(z), LoadConstant) && (r.Got? ==> z == r.rest)
    {
      hide LoadInt, LoadConstant;
      var n :- ReadNumber32();
      if n.0 < 0 { return Error(NoMemory); }
      ghost var start := z;
      var xs: seq<Constant> := [];
      var i := 0;
      First(Many(start, n.0, LoadConstant));
      while i < n.0
        invariant 0 <= i <= n.0 && |xs| == i
        invariant Many(start, n.0, LoadConstant) == After(xs, Many(z, n.0 - i, LoadConstant))
      {
        Next(xs, z, n.0 - i, LoadConstant);
        var x :- ReadConstant();
        xs := xs + [x.0];
        i := i + 1;
      }
      Last(xs, z, LoadConstant);
      return Got(xs, z);
    }

    method ReadUpvalue() returns (r: Loaded<Upvaldesc>)
      modifies this
      ensures r == LoadUpvalue(old(z)) && (r.Got? ==> z == r.rest)
    {
      var instack :- ReadByte();
      var idx :- ReadByte();
      return Got(Upvaldesc(Null, instack.0, idx.0), z);
    }

    method ReadUpvalues() returns (r: Loaded<seq<Upvaldesc>>)
      modifies this
      ensures r == LoadVector(old(z), LoadUpvalue) && (r.Got? ==> z == r.rest)
    {
      hide LoadInt, LoadUpvalue;
      var n :- ReadNumber32();
      if n.0 < 0 { return Error(NoMemory); }
      ghost var start := z;
      var xs: seq<Upvaldesc> := [];
      var i := 0;
      First(Many(start, n.0, LoadUpvalue));
      while i < n.0
        invariant 0 <= i <= n.0 && |xs| == i
        invariant Many(start, n.0, LoadUpvalue) == After(xs, Many(z, n.0 - i, LoadUpvalue))
      {
        Next(xs, z, n.0 - i, LoadUpvalue);
        var x :- ReadUpvalue();
        xs := xs + [x.0];
        i := i + 1;
      }
      Last(xs, z, LoadUpvalue);
      return Got(xs, z);
    }

    method ReadLocVar() returns (r: Loaded<LocVar>)
      modifies this
      ensures r == LoadLocVar(old(z)) && (r.Got? ==> z == r.rest)
    {
      hide LoadString, LoadInt;
      var varname :- ReadString();
      var startpc :- ReadNumber32();
      var endpc :- ReadNumber32();
      return Got(LocVar(varname.0, startpc.0, endpc.0), z);
    }

    // The loops of 'LoadDebug'.
    method ReadLines() returns (r: Loaded<seq<Int32>>)
      modifies this
      ensures r == LoadVector(old(z), LoadInt) && (r.Got? ==> z == r.rest)
    {
      hide LoadInt, LoadInt;
      var n :- ReadNumber32();
      if n.0 < 0 { return Error(NoMemory); }
      ghost var start := z;
      var xs: seq<Int32> := [];
      var i := 0;
      First(Many(start, n.0, LoadInt));
      while i < n.0
        invariant 0 <= i <= n.0 && |xs| == i
        invariant Many(start, n.0, LoadInt) == After(xs, Many(z, n.0 - i, LoadInt))
      {
        Next(xs, z, n.0 - i, LoadInt);
        var x :- ReadNumber32();
        xs := xs + [x.0];
        i := i + 1;
      }
      Last(xs, z, LoadInt);
      return Got(xs, z);
    }

    method ReadLocVars() returns (r: Loaded<seq<LocVar>>)
      modifies this
      ensures r == LoadVector(old(z), LoadLocVar) && (r.Got? ==> z == r.rest)
    {
      hide LoadInt, LoadLocVar;
      var n :- ReadNumber32();
      if n.0 < 0 { return Error(NoMemory); }
      ghost var start := z;
      var xs: seq<LocVar> := [];
      var i := 0;
      First(Many(start, n.0, LoadLocVar));
      while i < n.0
        invariant 0 <= i <= n.0 && |xs| == i
        invariant Many(start, n.0, LoadLocVar) == After(xs, Many(z, n.0 - i, LoadLocVar))
      {
        Next(xs, z, n.0 - i, LoadLocVar);
        var x :- ReadLocVar();
        xs := xs + [x.0];
        i := i + 1;
      }
      Last(xs, z, LoadLocVar);
      return Got(xs, z);
    }

    method ReadNames() returns (r: Loaded<seq<Name>>)
      modifies this
      ensures r == LoadNames(old(z)) && (r.Got? ==> z == r.rest)
    {
      hide LoadInt, LoadString;
      var n :- ReadNumber32();
      ghost var start, count := z, if n.0 < 0 then 0 else n.0;
      var xs: seq<Name> := [];
      var i := 0;
      First(Many(start, count, LoadString));
      while i < n.0
        invariant 0 <= i <= count && |xs| == i
        invariant Many(start, count, LoadString) == After(xs, Many(z, count - i, LoadString))
      {
        Next(xs, z, count - i, LoadString);
        var x :- ReadString();
        xs := xs + [x.0];
        i := i + 1;
      }
      Last(xs, z, LoadString);
      return Got(xs, z);
    }

    method ReadDebug() returns (r: Loaded<Debug>)
      modifies this
      ensures r == LoadDebug(old(z)) && (r.Got? ==> z == r.rest)
    {
      hide LoadVector, LoadNames;
      var lineinfo :- ReadLines();
      var locvars :- ReadLocVars();
      var names :- ReadNames();
      return Got(Debug(lineinfo.0, locvars.0, names.0), z);
    }

    method ReadHead() returns (r: Loaded<Head>)
      modifies this
      ensures r == LoadHead(old(z)) && (r.Got? ==> z == r.rest)
    {
      hide LoadString, LoadInt, LoadByte;
      var source :- ReadString();
      var linedefined :- ReadNumber32();
      var lastlinedefined :- ReadNumber32();
      var numparams :- ReadByte();
      var isVararg :- ReadByte();
      var maxstacksize :- ReadByte();
      return Got(Head(source.0, linedefined.0, lastlinedefined.0, numparams.0, isVararg.0, maxstacksize.0), z);
    }

    method ReadBody() returns (r: Loaded<Body>)
      modifies this
      ensures r == LoadBody(old(z)) && (r.Got? ==> z == r.rest)
    {
      hide LoadVector;
      var code :- ReadCode();
      var k :- ReadConstants();
      var upvalues :- ReadUpvalues();
      return Got(Body(code.0, k.0, upvalues.0), z);
    }

    // 'LoadProtos', after its count.
    method ReadProtos(n: nat, psource: Name) returns (r: Loaded<seq<Proto>>)
      modifies this
      ensures r == LoadProtos(old(z), n, psource) && (r.Got? ==> z == r.rest)
      decreases |z|, 1
    {
      hide LoadFunction;
      ghost var start := z;
      var ps: seq<Proto> := [];
      var i := 0;
      First(LoadProtos(start, n, psource));
      while i < n
        invariant i <= n && |ps| == i && |z| <= |start|
        invariant LoadProtos(start, n, psource) == After(ps, LoadProtos(z, n - i, psource))
      {
        NextProto(ps, z, n - i, psource);
        var p :- ReadFunction(psource);
        ps := ps + [p.0];
        i := i + 1;
      }
      assert ps + [] == ps;
      return Got(ps, z);
    }

    // 'LoadFunction'
    method ReadFunction(psource: Name) returns (r: Loaded<Proto>)
      modifies this
      ensures r == LoadFunction(old(z), psource) && (r.Got? ==> z == r.rest)
      decreases |z|, 0
    {
      hide LoadHead, LoadBody, LoadInt, LoadProtos, LoadDebug, WithNames;
      var h :- ReadHead();
      var source := if h.0.source.Null? then psource else h.0.source;
      var b :- ReadBody();
      var n :- ReadNumber32();
      if n.0 < 0 { return Error(NoMemory); }
      var ps :- ReadProtos(n.0, source);
      var d :- ReadDebug();
      if |d.0.names| > |b.0.upvalues| { return Error(OutOfBounds); }
      return Got(Proto(source, h.0.linedefined, h.0.lastlinedefined, h.0.numparams, h.0.isVararg, h.0.maxstacksize,
        b.0.code, b.0.k, WithNames(b.0.upvalues, d.0.names), ps.0, d.0.lineinfo, d.0.locvars), z);
    }

    // 'checkHeader'
    method CheckHeader() returns (r: Loaded<()>)
      modifies this
      ensures r == CheckParts(old(z), HEADER) && (r.Got? ==> z == r.rest)
    {
      ghost var start := z;
      var i := 0;
      while i < |HEADER|
        invariant i <= |HEADER| && CheckParts(start, HEADER) == CheckParts(z, HEADER[i..])
      {
        assert HEADER[i..][0] == HEADER[i] && HEADER[i..][1..] == HEADER[i + 1..];
        var s :- ReadBlock(|HEADER[i]|);
        if s.0 != HEADER[i] { return Error(BadHeader); }
        i := i + 1;
      }
      return Got((), z);
    }

    // 'luaU_undump'
    method Undump() returns (r: Loaded<Proto>)
      modifies this
      ensures r == Undumped(old(z)) && (r.Got? ==> z == r.rest)
    {
      hide CheckParts, LoadFunction, LoadByte;
      var header :- CheckHeader();
      var nupvalues :- ReadByte();
      r := ReadFunction(Null);
    }
  }

  // Dumping and loading back what was written, past the first byte.
  method DumpAndUndump(f: Proto, strip: bool) returns (st: int, r: Loaded<Proto>)
    requires Valid(f)
    ensures st == 0 && strip ==> r == Got(Stripped(f), [])
    ensures st == 0 && !strip ==> (r == Got(f, []) <==> KeepsSources(f))
  {
    hide Stripped, KeepsSources, Valid, ChunkBytes, Undumped;
    var d := new DumpState(strip);
    st := d.Dump(f);
    if st != 0 { return st, Error(Truncated); }
    RoundTrip(f, strip, []);
    assert d.out[1..] + [] == d.out[1..];
    var s := new LoadState(d.out[1..]);
    r := s.Undump();
  }

  lemma First<T>(r: Loaded<seq<T>>)
    ensures After([], r) == r
  {
    if r.Got? { assert [] + r.value == r.value; }
  }

  lemma NextProto(xs: seq<Proto>, z: seq<Byte>, n: nat, psource: Name)
    requires n > 0
    ensures var f := LoadFunction(z, psource);
      After(xs, LoadProtos(z, n, psource)) ==
        if f.Error? then Error(f.why) else After(xs + [f.value], LoadProtos(f.rest, n - 1, psource))
  {
    hide LoadFunction;
    var f := LoadFunction(z, psource);
    if f.Got? {
      var others := LoadProtos(f.rest, n - 1, psource);
      if others.Got? { assert xs + ([f.value] + others.value) == xs + [f.value] + others.value; }
    }
  }

  // A vector of which 'xs' has been read already.
  function After<T>(xs: seq<T>, r: Loaded<seq<T>>): Loaded<seq<T>> {
    match r
    case Got(ys, rest) => Got(xs + ys, rest)
    case Error(w) => Error(w)
  }

  lemma Next<T>(xs: seq<T>, z: seq<Byte>, n: nat, item: seq<Byte> -> Loaded<T>)
    requires n > 0
    ensures After(xs, Many(z, n, item)) ==
      if item(z).Error? then Error(item(z).why) else After(xs + [item(z).value], Many(item(z).rest, n - 1, item))
  {
    if item(z).Got? {
      var others := Many(item(z).rest, n - 1, item);
      if others.Got? { assert xs + ([item(z).value] + others.value) == xs + [item(z).value] + others.value; }
    }
  }

  lemma Last<T>(xs: seq<T>, z: seq<Byte>, item: seq<Byte> -> Loaded<T>)
    ensures After(xs, Many(z, 0, item)) == Got(xs, z)
  {
    assert xs + [] == xs;
  }
}
