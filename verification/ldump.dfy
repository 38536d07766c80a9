// The dumper: a recursive walk over a function that hands bytes to a writer until the writer fails.
module Dumper {
  import opened Integers
  import opened PackedIntegers
  import opened Chunks

  // Between two states of the dumper 'bytes' were handed over, or as many of them as the writer took before
  // it failed; after a failure nothing is.
  ghost predicate Wrote(out0: seq<Byte>, status0: int, out: seq<Byte>, status: int, bytes: seq<Byte>) {
    && (status == 0 ==> status0 == 0 && out == out0 + bytes)
    && (status0 != 0 ==> status == status0 && out == out0)
    && out0 <= out <= out0 + bytes
  }

  lemma Then(out0: seq<Byte>, status0: int, out1: seq<Byte>, status1: int, out2: seq<Byte>, status2: int, a: seq<Byte>, b: seq<Byte>)
    requires Wrote(out0, status0, out1, status1, a) && Wrote(out1, status1, out2, status2, b)
    ensures Wrote(out0, status0, out2, status2, a + b)
  {
  }

  class DumpState {
    // The bytes that the writer took.
    var out: seq<Byte>
    var status: int
    const strip: bool

    constructor (strip: bool)
      ensures out == [] && status == 0 && this.strip == strip
    {
      this.strip := strip;
      out, status := [], 0;
    }

    // The writer is not known: it takes the bytes, or fails with a status of its own.
    method Writer(b: seq<Byte>) returns (st: int)
      modifies `out
      ensures out == if st == 0 then old(out) + b else old(out)
    {
      st := *;
      if st == 0 { out := out + b; }
    }

    method DumpBlock(b: seq<Byte>)
      modifies this
      ensures Wrote(old(out), old(status), out, status, b)
    {
      if status == 0 { status := Writer(b); }
    }

    method DumpByte(y: Byte)
      modifies this
      ensures Wrote(old(out), old(status), out, status, [y])
    {
      DumpBlock([y]);
    }

    method DumpInt(x: Int32)
      modifies this
      ensures Wrote(old(out), old(status), out, status, Int4(x))
    {
      DumpBlock(Int4(x));
    }

    method DumpString(s: Name)
      modifies this
      ensures Wrote(old(out), old(status), out, status, StringBytes(s))
    {
      hide Int8;
      if s.Null? {
        DumpByte(0);
      } else {
        var size := |s.text| + 1;
        if size < 0xff {
          DumpByte(size);
        } else {
          DumpByte(0xff);
          ghost var out1, status1 := out, status;
          DumpBlock(Int8(size));
          Then(old(out), old(status), out1, status1, out, status, [0xff], Int8(size));
        }
        ghost var out2, status2 := out, status;
        DumpBlock(s.text);
        Then(old(out), old(status), out2, status2, out, status, SizeBytes(size), s.text);
      }
    }

    method DumpConstant(c: Constant)
      modifies this
      ensures Wrote(old(out), old(status), out, status, ConstantBytes(c))
    {
      hide Int8, StringBytes, Wrote;
      var tag := ConstantBytes(c)[0];
      DumpByte(tag);
      ghost var out1, status1 := out, status;
      match c
      case Nil =>
      case Bool(b) =>
        DumpByte(if b then 1 else 0);
        Then(old(out), old(status), out1, status1, out, status, [tag], [if b then 1 else 0]);
        assert [tag] + [if b then 1 else 0] == ConstantBytes(c);
      case Float(n) =>
        DumpBlock(n);
        Then(old(out), old(status), out1, status1, out, status, [tag], n);
      case Int(i) =>
        DumpBlock(Int8(i));
        Then(old(out), old(status), out1, status1, out, status, [tag], Int8(i));
      case Str(s) =>
        DumpString(Name(s));
        Then(old(out), old(status), out1, status1, out, status, [tag], StringBytes(Name(s)));
    }
  
    method DumpConstants(k: seq<Constant>)
      requires Sized(k)
      modifies this
      ensures Wrote(old(out), old(status), out, status, VectorBytes(k, ConstantBytes))
    {
      hide Int4, ConstantBytes, Wrote;
      ghost var n := |k|;
      DumpInt(|k|);
      ghost var done := Int4(n);
      var i := 0;
      assert k[0..] == k;
      while i < |k|
        invariant i <= n && done + ManyBytes(k[i..], ConstantBytes) == VectorBytes(k, ConstantBytes)
        invariant Wrote(old(out), old(status), out, status, done)
      {
        ghost var out1, status1 := out, status;
        ManySplit(k, i, ConstantBytes);
        DumpConstant(k[i]);
        Then(old(out), old(status), out1, status1, out, status, done, ConstantBytes(k[i]));
        done := done + ConstantBytes(k[i]);
        i := i + 1;
      }
      assert k[n..] == [] && done + [] == done;
    }

    method DumpUpvalue(u: Upvaldesc)
      modifies this
      ensures Wrote(old(out), old(status), out, status, UpvalueBytes(u))
    {
      DumpByte(u.instack);
      ghost var out1, status1 := out, status;
      DumpByte(u.idx);
      Then(old(out), old(status), out1, status1, out, status, [u.instack], [u.idx]);
      assert [u.instack] + [u.idx] == UpvalueBytes(u);
    }

    method DumpUpvalues(upvalues: seq<Upvaldesc>)
      requires Sized(upvalues)
      modifies this
      ensures Wrote(old(out), old(status), out, status, VectorBytes(upvalues, UpvalueBytes))
    {
      hide Int4, UpvalueBytes, Wrote;
      ghost var n := |upvalues|;
      DumpInt(|upvalues|);
      ghost var done := Int4(n);
      var i := 0;
      assert upvalues[0..] == upvalues;
      while i < |upvalues|
        invariant i <= n && done + ManyBytes(upvalues[i..], UpvalueBytes) == VectorBytes(upvalues, UpvalueBytes)
        invariant Wrote(old(out), old(status), out, status, done)
      {
        ghost var out1, status1 := out, status;
        ManySplit(upvalues, i, UpvalueBytes);
        DumpUpvalue(upvalues[i]);
        Then(old(out), old(status), out1, status1, out, status, done, UpvalueBytes(upvalues[i]));
        done := done + UpvalueBytes(upvalues[i]);
        i := i + 1;
      }
      assert upvalues[n..] == [] && done + [] == done;
    }

    method DumpLocVar(v: LocVar)
      modifies this
      ensures Wrote(old(out), old(status), out, status, LocVarBytes(v))
    {
      hide Int4, StringBytes, Wrote;
      DumpString(v.varname);
      ghost var out1, status1 := out, status;
      DumpInt(v.startpc);
      Then(old(out), old(status), out1, status1, out, status, StringBytes(v.varname), Int4(v.startpc));
      ghost var out2, status2 := out, status;
      DumpInt(v.endpc);
      Then(old(out), old(status), out2, status2, out, status, StringBytes(v.varname) + Int4(v.startpc), Int4(v.endpc));
    }

    // The loops of 'DumpDebug'.
    method DumpLocVars(locvars: seq<LocVar>)
      requires Sized(locvars)
      modifies this
      ensures Wrote(old(out), old(status), out, status, VectorBytes(locvars, LocVarBytes))
    {
      hide Int4, LocVarBytes, Wrote;
      ghost var n := |locvars|;
      DumpInt(|locvars|);
      ghost var done := Int4(n);
      var i := 0;
      assert locvars[0..] == locvars;
      while i < |locvars|
        invariant i <= n && done + ManyBytes(locvars[i..], LocVarBytes) == VectorBytes(locvars, LocVarBytes)
        invariant Wrote(old(out), old(status), out, status, done)
      {
        ghost var out1, status1 := out, status;
        ManySplit(locvars, i, LocVarBytes);
        DumpLocVar(locvars[i]);
        Then(old(out), old(status), out1, status1, out, status, done, LocVarBytes(locvars[i]));
        done := done + LocVarBytes(locvars[i]);
        i := i + 1;
      }
      assert locvars[n..] == [] && done + [] == done;
    }

    method DumpNames(names: seq<Name>)
      requires Sized(names)
      modifies this
      ensures Wrote(old(out), old(status), out, status, VectorBytes(names, StringBytes))
    {
      hide Int4, StringBytes, Wrote;
      ghost var n := |names|;
      DumpInt(|names|);
      ghost var done := Int4(n);
      var i := 0;
      assert names[0..] == names;
      while i < |names|
        invariant i <= n && done + ManyBytes(names[i..], StringBytes) == VectorBytes(names, StringBytes)
        invariant Wrote(old(out), old(status), out, status, done)
      {
        ghost var out1, status1 := out, status;
        ManySplit(names, i, StringBytes);
        DumpString(names[i]);
        Then(old(out), old(status), out1, status1, out, status, done, StringBytes(names[i]));
        done := done + StringBytes(names[i]);
        i := i + 1;
      }
      assert names[n..] == [] && done + [] == done;
    }

    // 'DumpCode', and the line numbers: whole vectors at once.
    method DumpWords(code: seq<UInt32>)
      requires Sized(code)
      modifies this
      ensures Wrote(old(out), old(status), out, status, VectorBytes(code, WordBytes))
    {
      hide Int4, ManyBytes, Wrote;
      DumpInt(|code|);
      ghost var out1, status1 := out, status;
      DumpBlock(ManyBytes(code, WordBytes));
      Then(old(out), old(status), out1, status1, out, status, Int4(|code|), ManyBytes(code, WordBytes));
    }

    method DumpLines(lineinfo: seq<Int32>)
      requires Sized(lineinfo)
      modifies this
      ensures Wrote(old(out), old(status), out, status, VectorBytes(lineinfo, LineBytes))
    {
      hide Int4, ManyBytes, Wrote;
      DumpInt(|lineinfo|);
      ghost var out1, status1 := out, status;
      DumpBlock(ManyBytes(lineinfo, LineBytes));
      Then(old(out), old(status), out1, status1, out, status, Int4(|lineinfo|), ManyBytes(lineinfo, LineBytes));
    }

    method DumpDebug(f: Proto)
      requires Valid(f)
      modifies this
      ensures Wrote(old(out), old(status), out, status, DebugBytes(DebugOf(f, strip)))
    {
      hide VectorBytes, Wrote, Valid;
      ValidSizes(f);
      var d := DebugOf(f, strip);
      DumpLines(d.lineinfo);
      ghost var out1, status1 := out, status;
      DumpLocVars(d.locvars);
      ghost var out2, status2 := out, status;
      DumpNames(d.names);
      Then(out1, status1, out2, status2, out, status, VectorBytes(d.locvars, LocVarBytes), VectorBytes(d.names, StringBytes));
      Then(old(out), old(status), out1, status1, out, status, VectorBytes(d.lineinfo, LineBytes),
        VectorBytes(d.locvars, LocVarBytes) + VectorBytes(d.names, StringBytes));
    }

    method DumpHead(f: Proto, psource: Name)
      modifies this
      ensures Wrote(old(out), old(status), out, status, HeadBytes(HeadOf(f, psource, strip)))
    {
      hide Int4, StringBytes, Wrote;
      var h := HeadOf(f, psource, strip);
      var bs := [h.numparams, h.isVararg, h.maxstacksize];
      if strip || f.source == psource { DumpString(Null); } else { DumpString(f.source); }
      ghost var out1, status1 := out, status;
      DumpInt(f.linedefined);
      ghost var out2, status2 := out, status;
      DumpInt(f.lastlinedefined);
      ghost var out3, status3 := out, status;
      DumpBytes(f.numparams, f.isVararg, f.maxstacksize);
      Then(out2, status2, out3, status3, out, status, Int4(h.lastlinedefined), bs);
      Then(out1, status1, out2, status2, out, status, Int4(h.linedefined), Int4(h.lastlinedefined) + bs);
      Then(old(out), old(status), out1, status1, out, status, StringBytes(h.source), Int4(h.linedefined) + (Int4(h.lastlinedefined) + bs));
    }

    method DumpBytes(a: Byte, b: Byte, c: Byte)
      modifies this
      ensures Wrote(old(out), old(status), out, status, [a, b, c])
    {
      DumpByte(a);
      DumpByte(b);
      DumpByte(c);
    }

    method DumpBody(f: Proto)
      requires Valid(f)
      modifies this
      ensures Wrote(old(out), old(status), out, status, BodyBytes(BodyOf(f)))
    {
      hide VectorBytes, Wrote, Valid;
      ValidSizes(f);
      DumpWords(f.code);
      ghost var out1, status1 := out, status;
      DumpConstants(f.k);
      ghost var out2, status2 := out, status;
      DumpUpvalues(f.upvalues);
      Then(out1, status1, out2, status2, out, status, VectorBytes(f.k, ConstantBytes), VectorBytes(f.upvalues, UpvalueBytes));
      Then(old(out), old(status), out1, status1, out, status, VectorBytes(f.code, WordBytes),
        VectorBytes(f.k, ConstantBytes) + VectorBytes(f.upvalues, UpvalueBytes));
    }

    method DumpProtos(f: Proto)
      requires Valid(f)
      modifies this
      ensures Wrote(old(out), old(status), out, status, Int4(|f.p|) + ProtosBytes(f, 0, strip))
      decreases f, 0
    {
      hide Int4, Wrote, FunctionBytes;
      ghost var all := Int4(|f.p|) + ProtosBytes(f, 0, strip);
      DumpInt(|f.p|);
      ghost var done := Int4(|f.p|);
      var i := 0;
      while i < |f.p|
        invariant i <= |f.p| && done + ProtosBytes(f, i, strip) == all
        invariant Wrote(old(out), old(status), out, status, done)
      {
        ghost var out1, status1, bytes := out, status, FunctionBytes(f.p[i], f.source, strip);
        assert done + ProtosBytes(f, i, strip) == done + bytes + ProtosBytes(f, i + 1, strip);
        DumpFunction(f.p[i], f.source);
        Then(old(out), old(status), out1, status1, out, status, done, bytes);
        done := done + bytes;
        i := i + 1;
      }
      assert ProtosBytes(f, |f.p|, strip) == [] && done + [] == done;
    }

    method DumpFunction(f: Proto, psource: Name)
      requires Valid(f)
      modifies this
      ensures Wrote(old(out), old(status), out, status, FunctionBytes(f, psource, strip))
      decreases f, 1
    {
      hide HeadBytes, BodyBytes, DebugBytes, Int4, ProtosBytes, Wrote;
      ghost var h, b, d := HeadBytes(HeadOf(f, psource, strip)), BodyBytes(BodyOf(f)), DebugBytes(DebugOf(f, strip));
      ghost var n, ps := Int4(|f.p|), ProtosBytes(f, 0, strip);
      DumpHead(f, psource);
      ghost var out1, status1 := out, status;
      DumpBody(f);
      ghost var out2, status2 := out, status;
      DumpProtos(f);
      ghost var out3, status3 := out, status;
      DumpDebug(f);
      Then(out2, status2, out3, status3, out, status, n + ps, d);
      assert n + ps + d == n + (ps + d);
      Then(out1, status1, out2, status2, out, status, b, n + (ps + d));
      Then(old(out), old(status), out1, status1, out, status, h, b + (n + (ps + d)));
    }

    method DumpHeader()
      modifies this
      ensures Wrote(old(out), old(status), out, status, HeaderBytes())
    {
      hide Int8, Wrote, Concat;
      DumpBlock(LUA_SIGNATURE[..1]);
      ghost var done := LUA_SIGNATURE[..1];
      var i := 0;
      while i < |HEADER|
        invariant i <= |HEADER| && done + Concat(HEADER[i..]) == HeaderBytes()
        invariant Wrote(old(out), old(status), out, status, done)
      {
        ghost var out1, status1 := out, status;
        ConcatSplit(HEADER, i);
        DumpBlock(HEADER[i]);
        Then(old(out), old(status), out1, status1, out, status, done, HEADER[i]);
        done := done + HEADER[i];
        i := i + 1;
      }
      NoMore(HEADER[i..]);
      assert done + [] == done;
    }

    // 'luaU_dump'
    method Dump(f: Proto) returns (st: int)
      requires Valid(f) && status == 0 && out == []
      modifies this
      ensures st == status && out <= ChunkBytes(f, strip)
      ensures st == 0 ==> out == ChunkBytes(f, strip)
    {
      hide HeaderBytes, FunctionBytes, Wrote;
      ghost var top := [|f.upvalues|];
      DumpHeader();
      ghost var out1, status1 := out, status;
      DumpByte(|f.upvalues|);
      Then([], 0, out1, status1, out, status, HeaderBytes(), top);
      ghost var out2, status2 := out, status;
      DumpFunction(f, Null);
      Then([], 0, out2, status2, out, status, HeaderBytes() + top, FunctionBytes(f, Null, strip));
      AllOut(out, status, ChunkBytes(f, strip));
      return status;
    }
  }

  lemma AllOut(out: seq<Byte>, status: int, bytes: seq<Byte>)
    requires Wrote([], 0, out, status, bytes)
    ensures status == 0 ==> out == bytes
    ensures out <= bytes
  {
    assert [] + bytes == bytes;
  }

  lemma ValidSizes(f: Proto)
    requires Valid(f)
    ensures Sized(f.code) && Sized(f.k) && Sized(f.upvalues) && Sized(f.lineinfo) && Sized(f.locvars)
  {
  }

  lemma ManySplit<T>(xs: seq<T>, i: nat, bytes: T -> seq<Byte>)
    requires i < |xs|
    ensures ManyBytes(xs[i..], bytes) == bytes(xs[i]) + ManyBytes(xs[i + 1..], bytes)
  {
    assert xs[i..][1..] == xs[i + 1..];
  }

  lemma ConcatSplit(parts: seq<seq<Byte>>, i: nat)
    requires i < |parts|
    ensures Concat(parts[i..]) == parts[i] + Concat(parts[i + 1..])
  {
    assert parts[i..][1..] == parts[i + 1..];
  }

  lemma NoMore(parts: seq<seq<Byte>>)
    requires parts == []
    ensures Concat(parts) == []
  {
  }
}
