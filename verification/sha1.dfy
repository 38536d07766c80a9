// SHA-1 by parts: SHA1_Init, SHA1_Transform, SHA1_Update and SHA1_Final, on a little-endian machine and
// without SHA1HANDSOFF, so that whole blocks are transformed where they lie in the caller's data.
module Sha1Streaming {
  import opened Sha1Spec
  import opened Sha1Rounds

  const TWO32: int := 0x1_0000_0000
  const TWO64: int := 0x1_0000_0000_0000_0000

  type UInt32 = n: int | 0 <= n < 0x1_0000_0000

  // 'size_t'
  type Size = n: int | 0 <= n < 0x1_0000_0000_0000_0000

  // ---- the bit counter ----

  function Low(bits: nat): UInt32 { bits % TWO32 }
  function High(bits: nat): UInt32 { bits / TWO32 % TWO32 }

  // 'len << 3'
  function Shifted3(len: Size): Size { 8 * len % TWO64 }

  // The two words after 'len' more bytes: the carry is guessed by comparing 32 bits of the sum with the
  // 64 bits that were added.
  function NewLow(low: UInt32, len: Size): UInt32 { (low + Shifted3(len)) % TWO32 }
  function NewHigh(low: UInt32, high: UInt32, len: Size): UInt32 {
    (high + (if NewLow(low, len) < Shifted3(len) then 1 else 0) + len / 0x2000_0000) % TWO32
  }

  // When the guess is right: when no more than 32 bits are added, as for less than 2^29 bytes, or when
  // there really is a carry.
  predicate CarrySeen(low: UInt32, len: Size)
    ensures len < 0x2000_0000 ==> CarrySeen(low, len)
  {
    Shifted3(len) < TWO32 || low + 8 * len % TWO32 >= TWO32
  }

  lemma CountIsRight(n: nat, len: Size)
    ensures NewLow(Low(8 * n), len) == Low(8 * (n + len))
    ensures NewHigh(Low(8 * n), High(8 * n), len) == High(8 * (n + len)) <==> CarrySeen(Low(8 * n), len)
  {
    hide Shifted3;
    var low, rest := 8 * n % TWO32, 8 * len % TWO32;
    var carry := if low + rest >= TWO32 then 1 else 0;
    SumParts(8 * n, 8 * len);
    ShiftedLow(low, len);
    assert len / 0x2000_0000 == 8 * len / TWO32;
    var high := 8 * n / TWO32;
    ModAdds(high, 8 * len / TWO32 + carry);
    var guess := if NewLow(low, len) < Shifted3(len) then 1 else 0;
    ModAdds(high, guess + 8 * len / TWO32);
    if Shifted3(len) < TWO32 {
      assert guess == carry;
    } else {
      assert guess == 1;
      ModDiffers(high + 8 * len / TWO32);
    }
  }

  lemma ShiftedLow(low: UInt32, len: Size)
    ensures Shifted3(len) % TWO32 == 8 * len % TWO32 && (low + Shifted3(len)) % TWO32 == (low + 8 * len) % TWO32
    ensures Shifted3(len) < TWO32 ==> Shifted3(len) == 8 * len % TWO32
  {
    var q := 8 * len / TWO64;
    assert 8 * len == Shifted3(len) + TWO32 * (TWO32 * q);
    ModSkips(Shifted3(len), TWO32 * q);
    ModSkips(low + Shifted3(len), TWO32 * q);
  }

  lemma ModSkips(x: nat, k: nat)
    ensures (x + TWO32 * k) % TWO32 == x % TWO32
  {
  }

  lemma SumParts(a: nat, b: nat)
    ensures var carry := if a % TWO32 + b % TWO32 >= TWO32 then 1 else 0;
      (a + b) / TWO32 == a / TWO32 + b / TWO32 + carry && (a + b) % TWO32 == a % TWO32 + b % TWO32 - carry * TWO32
      && (a % TWO32 + b) % TWO32 == (a + b) % TWO32
  {
  }

  lemma ModAdds(h: nat, d: nat)
    ensures (h % TWO32 + d) % TWO32 == (h + d) % TWO32
  {
  }

  lemma ModDiffers(x: nat)
    ensures x % TWO32 != (x + 1) % TWO32
  {
  }

  // ---- the state ----

  function RegsOf(s: seq<Word>): Regs
    requires |s| == 5
  {
    Regs(s[0], s[1], s[2], s[3], s[4])
  }

  // The part of a message that makes whole blocks, and the rest.
  function Whole(m: seq<Byte>): (p: seq<Byte>)
    ensures |p| % 64 == 0
  {
    m[..|m| - |m| % 64]
  }

  function Tail(m: seq<Byte>): (t: seq<Byte>)
    ensures |t| == |m| % 64 && Whole(m) + t == m
  {
    m[|m| - |m| % 64..]
  }

  class Context {
    const state: array<Word>
    const buffer: array<Byte>
    var count0: UInt32
    var count1: UInt32
    // All that has been hashed.
    ghost var message: seq<Byte>

    ghost predicate Valid()
      reads this, state, buffer
    {
      && state.Length == 5 && buffer.Length == 64
      && RegsOf(state[..]) == Hashed(Whole(message))
      && buffer[..|message| % 64] == Tail(message)
      && count0 == Low(8 * |message|) && count1 == High(8 * |message|)
    }

    // 'SHA1_Init'
    constructor ()
      ensures Valid() && message == [] && fresh(state) && fresh(buffer)
    {
      state := new Word[5];
      buffer := new Byte[64];
      count0, count1 := 0, 0;
      message := [];
      new;
      state[0] := 0x67452301;
      state[1] := 0xefcdab89;
      state[2] := 0x98badcfe;
      state[3] := 0x10325476;
      state[4] := 0xc3d2e1f0;
    }

    // 'SHA1_Transform' on the 64 bytes at mem + off, which it overwrites.
    method Transform(mem: array<Byte>, off: nat)
      requires state.Length == 5 && off + 64 <= mem.Length
      modifies state, mem
      ensures RegsOf(state[..]) == Compress(RegsOf(old(state[..])), old(mem[off..off + 64]))
      ensures mem[..off] == old(mem[..off]) && mem[off + 64..] == old(mem[off + 64..])
    {
      hide At, Compress, Hashed, Added;
      ghost var h, block: Block := RegsOf(state[..]), mem[off..off + 64];
      ghost var job := Job(h, block, mem[..off], mem[off + 64..]);
      var a, b, c, d, e := state[0], state[1], state[2], state[3], state[4];
      Begins(job, off, mem[..]);
      a, b, c, d, e := Rounds1(mem, off, job, a, b, c, d, e);
      a, b, c, d, e := Rounds2(mem, off, job, a, b, c, d, e);
      a, b, c, d, e := Rounds3(mem, off, job, a, b, c, d, e);
      a, b, c, d, e := Rounds4(mem, off, job, a, b, c, d, e);
      Ends(job, off, Regs(a, b, c, d, e), mem[..]);
      AddBack(a, b, c, d, e);
    }

    method AddBack(a: Word, b: Word, c: Word, d: Word, e: Word)
      requires state.Length == 5
      modifies state
      ensures RegsOf(state[..]) == Added(RegsOf(old(state[..])), Regs(a, b, c, d, e))
    {
      hide Plus;
      state[0] := Plus(state[0], a);
      state[1] := Plus(state[1], b);
      state[2] := Plus(state[2], c);
      state[3] := Plus(state[3], d);
      state[4] := Plus(state[4], e);
    }

    // 'memcpy' into the buffer.
    method Fill(j: nat, data: array<Byte>, from: nat, n: nat)
      requires j + n <= buffer.Length && from + n <= data.Length && data != buffer
      modifies buffer
      ensures buffer[..j] == old(buffer[..j]) && buffer[j..j + n] == data[from..from + n]
    {
      forall i | 0 <= i < n { buffer[j + i] := data[from + i]; }
    }

    // 'SHA1_Update' with the first 'len' bytes of the data, which is not left as it was. No array comes so
    // near to the whole address space that the sums with 'len' or 'i' wrap.
    method Update(data: array<Byte>, len: Size)
      requires Valid() && data != buffer && len <= data.Length && CarrySeen(count0, len)
      modifies this, state, buffer, data
      ensures Valid() && message == old(message) + old(data[..len])
    {
      hide Hashed, Compress, Low, High, NewLow, NewHigh, CarrySeen, RegsOf, Whole, Tail;
      ghost var m, bytes := message, data[..len];
      CountIsRight(|m|, len);
      LowBits(8 * |m|, count0);
      var j := count0 / 8 % 64;
      count0, count1 := NewLow(count0, len), NewHigh(count0, count1, len);
      message := m + bytes;
      var i := 0;
      if j + len > 63 {
        i := TransformBlocks(data, len, j, m);
        j := 0;
      }
      Fill(j, data, i, len - i);
      Rested(m, bytes, i, j);
    }

    // The blocks of SHA1_Update: first the one begun in the buffer, then those whole in the data.
    method TransformBlocks(data: array<Byte>, len: nat, j: nat, ghost m: seq<Byte>) returns (i: nat)
      requires state.Length == 5 && buffer.Length == 64 && data != buffer && len <= data.Length && j == |m| % 64 && j + len > 63
      requires RegsOf(state[..]) == Hashed(Whole(m)) && buffer[..j] == Tail(m)
      modifies state, buffer, data
      ensures 0 < i <= len < i + 64 && (|m| + i) % 64 == 0 && data[i..len] == old(data[i..len])
      ensures RegsOf(state[..]) == Hashed((m + old(data[..len]))[..|m| + i])
    {
      hide Hashed, Compress, Whole, Tail;
      ghost var bytes := data[..len];
      ghost var all := m + bytes;
      i := 64 - j;
      Fill(j, data, 0, i);
      assert buffer[0..64] == buffer[..];
      Absorbed(m, bytes, i, buffer[..]);
      Transform(buffer, 0);
      assert RegsOf(state[..]) == Hashed(all[..|m| + i]);
      while i + 63 < len
        invariant 0 < i <= len && (|m| + i) % 64 == 0
        invariant RegsOf(state[..]) == Hashed(all[..|m| + i])
        invariant data[i..len] == bytes[i..]
      {
        ghost var before := data[..];
        BlockAt(before, bytes, m, i);
        NextBlock(all, |m| + i, before[i..i + 64]);
        Transform(data, i);
        StillThere(before, data[..], bytes, i);
        i := i + 64;
      }
      assert bytes[i..] == old(data[i..len]);
    }

    // The message's length in bits, most significant byte first.
    method FinalCount() returns (finalCount: array<Byte>)
      requires Valid() && |message| < 0x2000_0000_0000_0000
      ensures fresh(finalCount) && finalCount[..] == LengthBytes(8 * |message|)
    {
      hide Hashed, Pow256, High, Low, LengthByte;
      finalCount := new Byte[8];
      var i := 0;
      while i < 8
        invariant i <= 8 && forall j :: 0 <= j < i ==> finalCount[j] == LengthByte(8 * |message|, 7 - j)
      {
        CountByte(8 * |message|, i);
        finalCount[i] := ((if i >= 4 then count0 else count1) / Pow256(3 - i % 4) % 256) as bv8;
        i := i + 1;
      }
    }

    method WriteDigest() returns (digest: array<Byte>)
      requires state.Length == 5
      ensures fresh(digest) && digest[..] == Digest(RegsOf(state[..]))
    {
      hide Octets;
      digest := new Byte[20];
      forall i | 0 <= i < 20 { digest[i] := Octets(state[i / 4])[i % 4]; }
      forall i | 0 <= i < 20 ensures digest[i] == Digest(RegsOf(state[..]))[i] { DigestAt(state[..], i); }
    }

    // The zero bytes of SHA1_Final.
    method FillUp(ghost m: seq<Byte>)
      requires Valid() && message == Unfinished(m, 0)
      modifies this, state, buffer
      ensures Valid() && message == Unfinished(m, Zeros(|m|))
    {
      hide Hashed, Unfinished, Whole, Tail, Low, High;
      ghost var k := 0;
      LowBits(8 * |message|, count0);
      FewestZeros(|m|, 0);
      while count0 / 8 % 64 != 56
        invariant Valid() && k <= Zeros(|m|) && message == Unfinished(m, k)
        invariant count0 / 8 % 64 == 56 <==> k == Zeros(|m|)
        decreases Zeros(|m|) - k
      {
        var zero := new Byte[] [0];
        Update(zero, 1);
        OneMoreZero(m, k);
        k := k + 1;
        LowBits(8 * |message|, count0);
        FewestZeros(|m|, k);
      }
    }

    method Wipe()
      requires state.Length == 5 && buffer.Length == 64
      modifies this, state, buffer
      ensures state[..] == seq(5, _ => 0) && buffer[..] == seq(64, _ => 0) && count0 == count1 == 0
    {
      forall i | 0 <= i < 64 { buffer[i] := 0; }
      forall i | 0 <= i < 5 { state[i] := 0; }
      count0, count1 := 0, 0;
    }

    // 'SHA1_Final': the digest of everything hashed so far. The context is wiped.
    method Final() returns (digest: array<Byte>)
      requires Valid() && |message| < 0x2000_0000_0000_0000
      modifies this, state, buffer
      ensures fresh(digest) && digest[..] == Sha1(old(message))
      ensures state[..] == seq(5, _ => 0) && buffer[..] == seq(64, _ => 0) && count0 == count1 == 0
    {
      hide Hashed, Sha1, Digest, LengthBytes, LengthByte, Padded, Unfinished, Whole, Tail, Low, High;
      ghost var m := message;
      var finalCount := FinalCount();
      var one := new Byte[] [0x80];
      Update(one, 1);
      FirstBit(m);
      FillUp(m);
      Finished(m);
      assert finalCount[..8] == finalCount[..];
      Update(finalCount, 8);
      DigestOf(m, RegsOf(state[..]));
      digest := WriteDigest();
      Wipe();
    }
  }

  function Joined(parts: seq<seq<Byte>>): seq<Byte> { if parts == [] then [] else Joined(parts[..|parts| - 1]) + parts[|parts| - 1] }

  // The digest of a message given in parts depends only on the whole.
  method HashParts(parts: seq<seq<Byte>>) returns (digest: array<Byte>)
    requires forall i :: 0 <= i < |parts| ==> |parts[i]| < 0x2000_0000
    requires |Joined(parts)| < 0x2000_0000_0000_0000
    ensures digest[..] == Sha1(Joined(parts))
    ensures digest.Length == 20 && forall k :: 0 <= k < 5 ==> BigEndian(digest[..], 4 * k) == WordOf(Hashed(Padded(Joined(parts))), k)
  {
    hide Sha1, Hashed, Padded, BigEndian, WordOf;
    var context := new Context();
    for i := 0 to |parts|
      invariant context.Valid() && fresh(context) && fresh(context.state) && fresh(context.buffer)
      invariant context.message == Joined(parts[..i])
    {
      var data := new Byte[|parts[i]|](j requires 0 <= j < |parts[i]| => parts[i][j]);
      assert data[..|parts[i]|] == parts[i];
      assert parts[..i + 1][..i] == parts[..i];
      context.Update(data, |parts[i]|);
    }
    assert parts[..|parts|] == parts;
    digest := context.Final();
    Sha1Words(Joined(parts));
  }

  lemma Sha1Words(m: seq<Byte>)
    ensures |Sha1(m)| == 20 && forall k :: 0 <= k < 5 ==> BigEndian(Sha1(m), 4 * k) == WordOf(Hashed(Padded(m)), k)
  {
    hide Padded, Hashed, Digest, BigEndian, WordOf;
    DigestWords(Hashed(Padded(m)));
  }

  // The message with its bit 1 and k zero bytes.
  function Unfinished(m: seq<Byte>, k: nat): (u: seq<Byte>)
    ensures |u| == |m| + 1 + k
  {
    m + [0x80] + seq(k, _ => 0)
  }

  lemma FirstBit(m: seq<Byte>)
    ensures Unfinished(m, 0) == m + [0x80]
  {
  }

  lemma Finished(m: seq<Byte>)
    ensures Unfinished(m, Zeros(|m|)) + LengthBytes(8 * |m|) == Padded(m)
  {
  }

  lemma DigestOf(m: seq<Byte>, h: Regs)
    requires h == Hashed(Whole(Padded(m)))
    ensures Digest(h) == Sha1(m)
  {
    hide Padded, Hashed, Digest;
    assert Whole(Padded(m)) == Padded(m);
  }

  lemma DigestAt(s: seq<Word>, i: nat)
    requires |s| == 5 && i < 20
    ensures |Digest(RegsOf(s))| == 20 && Digest(RegsOf(s))[i] == Octets(s[i / 4])[i % 4]
  {
    hide Octets;
  }

  lemma OneMoreZero(m: seq<Byte>, k: nat)
    ensures Unfinished(m, k) + [0] == Unfinished(m, k + 1)
  {
    var zeros: seq<Byte> := seq(k + 1, _ => 0);
    assert seq(k, _ => 0) + [0] == zeros;
  }

  lemma LowBits(bits: nat, low: UInt32)
    requires low == Low(bits)
    ensures low / 8 % 64 == bits / 8 % 64
  {
    var q := bits / TWO32;
    assert bits == (q * 0x2000_0000) * 8 + low;
    Scaled(q * 0x2000_0000, low, 8, bits);
    var x, k := low / 8, q * 0x80_0000;
    assert q * 0x2000_0000 == 64 * k;
    Skips(x, k);
  }

  lemma Skips(x: nat, k: nat)
    ensures (64 * k + x) % 64 == x % 64
  {
  }

  // The first block: what was in the buffer and the start of the data.
  lemma Absorbed(m: seq<Byte>, bytes: seq<Byte>, i: nat, block: Block)
    requires i == 64 - |m| % 64 <= |bytes| && block[..|m| % 64] == Tail(m) && block[|m| % 64..] == bytes[..i]
    ensures (|m| + i) % 64 == 0 && Hashed((m + bytes)[..|m| + i]) == Compress(Hashed(Whole(m)), block)
  {
    hide Hashed, Compress;
    assert block == Tail(m) + bytes[..i];
    assert (m + bytes)[..|m| + i] == Whole(m) + block;
    HashedStep(Whole(m), block);
  }

  lemma NextBlock(all: seq<Byte>, at: nat, block: Block)
    requires at % 64 == 0 && at + 64 <= |all| && block == all[at..at + 64]
    ensures Hashed(all[..at + 64]) == Compress(Hashed(all[..at]), block)
  {
    hide Hashed, Compress;
    assert all[..at + 64] == all[..at] + block;
    HashedStep(all[..at], block);
  }

  lemma BlockAt(data: seq<Byte>, bytes: seq<Byte>, m: seq<Byte>, i: nat)
    requires i + 64 <= |bytes| <= |data| && data[i..|bytes|] == bytes[i..]
    ensures data[i..i + 64] == (m + bytes)[|m| + i..|m| + i + 64]
  {
    assert data[i..i + 64] == data[i..|bytes|][..64] == bytes[i..][..64];
  }

  lemma StillThere(before: seq<Byte>, after: seq<Byte>, bytes: seq<Byte>, i: nat)
    requires i + 64 <= |bytes| <= |before| == |after| && before[i..|bytes|] == bytes[i..] && after[i + 64..] == before[i + 64..]
    ensures after[i + 64..|bytes|] == bytes[i + 64..]
  {
    var n := |bytes| - i - 64;
    assert bytes[i + 64..] == before[i..|bytes|][64..] == before[i + 64..][..n];
    assert after[i + 64..|bytes|] == after[i + 64..][..n];
  }

  // What is left for the buffer.
  lemma Rested(m: seq<Byte>, bytes: seq<Byte>, i: nat, j: nat)
    requires i <= |bytes| && j + |bytes| - i < 64
    requires if i == 0 then j == |m| % 64 else j == 0 && (|m| + i) % 64 == 0
    ensures j + |bytes| - i == |m + bytes| % 64
    ensures Whole(m + bytes) == if i == 0 then Whole(m) else (m + bytes)[..|m| + i]
    ensures Tail(m + bytes) == (if i == 0 then Tail(m) else []) + bytes[i..]
  {
  }

  // Another zero is due exactly when the block does not yet end before its length.
  lemma FewestZeros(n: nat, k: nat)
    requires k <= Zeros(n)
    ensures (n + 1 + k) % 64 == 56 <==> k == Zeros(n)
  {
  }

  lemma CountByte(bits: nat, i: nat)
    requires i < 8
    ensures ((if i >= 4 then Low(bits) else High(bits)) / Pow256(3 - i % 4) % 256) as bv8 == LengthByte(bits, 7 - i)
  {
    CountDigit(bits, i);
  }

  lemma CountDigit(bits: nat, i: nat)
    requires i < 8
    ensures (if i >= 4 then Low(bits) else High(bits)) / Pow256(3 - i % 4) % 256 == bits / Pow256(7 - i) % 256
  {
    var n := if i >= 4 then bits else bits / TWO32;
    LowByte(n, 3 - i % 4);
    Powers();
    if i < 4 { assert bits / Pow256(7 - i) == n / Pow256(3 - i); }
  }

  lemma Powers()
    ensures Pow256(0) == 1 && Pow256(1) == 0x100 && Pow256(2) == 0x1_0000 && Pow256(3) == 0x100_0000
    ensures Pow256(4) == TWO32 && Pow256(5) == 0x100 * TWO32 && Pow256(6) == 0x1_0000 * TWO32 && Pow256(7) == 0x100_0000 * TWO32
  {
    assert Pow256(3) == 256 * 256 * 256;
    assert Pow256(5) == 256 * 256 * Pow256(3);
  }

  lemma LowByte(n: nat, k: nat)
    requires k < 4
    ensures n % TWO32 / Pow256(k) % 256 == n / Pow256(k) % 256
  {
    Powers();
    match k
    case 0 => ByteOf(n, 1, TWO32);
    case 1 => ByteOf(n, 0x100, 0x100_0000);
    case 2 => ByteOf(n, 0x1_0000, 0x1_0000);
    case 3 => ByteOf(n, 0x100_0000, 0x100);
  }

  lemma ByteOf(n: nat, p: int, r: int)
    requires p > 0 && r > 0 && p * r == TWO32 && r % 256 == 0
    ensures n % TWO32 / p % 256 == n / p % 256
  {
    var q, low := n / TWO32, n % TWO32;
    Scaled(q * r, low, p, n);
    assert q * TWO32 == (q * r) * p by { assert q * (p * r) == (q * r) * p; }
    Multiple(q, r / 256);
    assert q * r == 256 * (q * (r / 256));
    Shifted(low / p, q * (r / 256));
  }

  lemma Scaled(a: nat, low: nat, p: int, n: nat)
    requires p > 0
    ensures (a * p + low) / p == a + low / p
  {
    var x := low / p;
    assert a * p + low == p * (a + x) + low % p;
    Unique(a * p + low, p, a + x, low % p);
  }

  lemma Unique(n: int, p: int, q: int, r: int)
    requires p > 0 && n == p * q + r && 0 <= r < p
    ensures n / p == q
  {
    var d := q - n / p;
    assert p * d == n % p - r;
    assert d >= 1 ==> p * d >= p;
    assert d <= -1 ==> p * d <= -p;
  }

  lemma Multiple(q: nat, s: nat)
    ensures q * (256 * s) == 256 * (q * s)
  {
  }

  lemma Shifted(x: nat, k: nat)
    ensures (x + 256 * k) % 256 == x % 256
  {
  }
}
