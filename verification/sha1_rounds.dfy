// The rounds of SHA1_Transform: sixteen words used in place, registers renamed instead of moved.
module Sha1Rounds {
  import opened Sha1Spec

  // ---- words in memory, on a little-endian machine ----

  function LittleEndian(s: seq<Byte>, p: nat): Word
    requires p + 4 <= |s|
  {
    Joined(s[p + 3] as bv32, s[p + 2] as bv32, s[p + 1] as bv32, s[p] as bv32)
  }

  // The swap in 'blk0'.
  function Swapped(l: Word): Word { (((l << 24) | (l >> 8)) & 0xff00ff00) | (((l << 8) | (l >> 24)) & 0x00ff00ff) }

  lemma SwapBytes(a: Word, b: Word, c: Word, d: Word)
    requires a <= 0xff && b <= 0xff && c <= 0xff && d <= 0xff
    ensures Swapped(Joined(d, c, b, a)) == Joined(a, b, c, d)
  {
  }

  lemma SwapMakesBigEndian(s: seq<Byte>, p: nat)
    requires p + 4 <= |s|
    ensures Swapped(LittleEndian(s, p)) == BigEndian(s, p)
  {
    hide Joined, Swapped;
    SwapBytes(s[p] as bv32, s[p + 1] as bv32, s[p + 2] as bv32, s[p + 3] as bv32);
  }

  method LoadWord(mem: array<Byte>, p: nat) returns (w: Word)
    requires p + 4 <= mem.Length
    ensures w == LittleEndian(mem[..], p)
  {
    w := Joined(mem[p + 3] as bv32, mem[p + 2] as bv32, mem[p + 1] as bv32, mem[p] as bv32);
  }

  method StoreWord(mem: array<Byte>, p: nat, w: Word)
    requires p + 4 <= mem.Length
    modifies mem
    ensures LittleEndian(mem[..], p) == w
    ensures forall i :: 0 <= i < mem.Length && !(p <= i < p + 4) ==> mem[i] == old(mem[i])
  {
    mem[p] := (w & 0xff) as bv8;
    mem[p + 1] := ((w >> 8) & 0xff) as bv8;
    mem[p + 2] := ((w >> 16) & 0xff) as bv8;
    mem[p + 3] := ((w >> 24) & 0xff) as bv8;
  }

  // ---- the round functions as the source writes them ----

  function Selected(w: Word, x: Word, y: Word): Word { (w & (x ^ y)) ^ y }
  function Voted(w: Word, x: Word, y: Word): Word { ((w | x) & y) | (w & x) }

  lemma SelectedIsCh(w: Word, x: Word, y: Word)
    ensures Selected(w, x, y) == Ch(w, x, y)
  {
    calc {
      Selected(w, x, y);
      (w & (x ^ y)) ^ y;
      (w & x) ^ (!w & y);
      Ch(w, x, y);
    }
  }

  lemma VotedIsMaj(w: Word, x: Word, y: Word)
    ensures Voted(w, x, y) == Maj(w, x, y)
  {
    calc {
      Voted(w, x, y);
      ((w | x) & y) | (w & x);
      (w & x) ^ (w & y) ^ (x & y);
      Maj(w, x, y);
    }
  }

  lemma Select(t: nat, w: Word, x: Word, y: Word)
    requires t < 20
    ensures Selected(w, x, y) == F(t, w, x, y) && K(t) == 0x5a827999
  {
    hide Selected, Ch, Maj, Parity;
    SelectedIsCh(w, x, y);
  }

  lemma Vote(t: nat, w: Word, x: Word, y: Word)
    requires 40 <= t < 60
    ensures Voted(w, x, y) == F(t, w, x, y) && K(t) == 0x8f1bbcdc
  {
    hide Voted, Ch, Maj, Parity;
    VotedIsMaj(w, x, y);
  }

  lemma Parities(t: nat, w: Word, x: Word, y: Word)
    requires 20 <= t < 40 || 60 <= t < 80
    ensures Parity(w, x, y) == F(t, w, x, y) && K(t) == if t < 40 then 0x6ed9eba1 else 0xca62c1d6
  {
    hide Ch, Maj, Parity;
  }

  // A round that leaves the words where they are and changes what they are called.
  lemma RoundInPlace(v: Word, w: Word, x: Word, y: Word, z: Word, t: nat, word: Word)
    ensures Round(Regs(v, w, x, y, z), t, word) == Regs(Sum(z, F(t, w, x, y), word, K(t), Rotl(v, 5)), v, Rotl(w, 30), x, y)
  {
    hide F, K, Rotl, Sum;
    Summed(z, F(t, w, x, y), word, K(t), Rotl(v, 5));
  }

  lemma Summed(z: Word, f: Word, t: Word, k: Word, r: Word)
    ensures Sum(z, f, t, k, r) == Sum(r, f, z, k, t)
  {
  }

  // ---- the rolling schedule ----

  // The last word of the schedule before t that goes to slot k.
  function Latest(t: nat, k: nat): int
    requires k < 16
  {
    t - 1 - (t - 1 - k) % 16
  }

  // What slot k holds when t words of the schedule have been computed.
  function Slot(block: Block, t: nat, k: nat): Word
    requires k < 16
  {
    if k < t then W(block, Latest(t, k)) else LittleEndian(block, 4 * k)
  }

  ghost predicate Window(s: seq<Byte>, block: Block, t: nat) {
    |s| == 64 && forall k :: 0 <= k < 16 ==> LittleEndian(s, 4 * k) == Slot(block, t, k)
  }

  lemma WindowStarts(block: Block)
    ensures Window(block, block, 0)
  {
  }

  // Writing the word that is due moves the window on.
  lemma WindowMoves(s: seq<Byte>, n: seq<Byte>, block: Block, t: nat)
    requires Window(s, block, t) && |n| == 64
    requires LittleEndian(n, 4 * (t % 16)) == W(block, t)
    requires forall i :: 0 <= i < 64 && !(4 * (t % 16) <= i < 4 * (t % 16) + 4) ==> n[i] == s[i]
    ensures Window(n, block, t + 1)
  {
    hide W, LittleEndian;
    forall k | 0 <= k < 16 ensures LittleEndian(n, 4 * k) == Slot(block, t + 1, k) {
      SlotMoves(block, t, k);
      if k != t % 16 { SameWord(s, n, 4 * k); }
    }
  }

  lemma SameWord(s: seq<Byte>, n: seq<Byte>, p: nat)
    requires p + 4 <= |s| == |n| && forall i :: p <= i < p + 4 ==> s[i] == n[i]
    ensures LittleEndian(s, p) == LittleEndian(n, p)
  {
  }

  lemma SlotMoves(block: Block, t: nat, k: nat)
    requires k < 16
    ensures Slot(block, t + 1, k) == if k == t % 16 then W(block, t) else Slot(block, t, k)
  {
    hide W, LittleEndian;
    if k == t % 16 {
      assert (t - k) % 16 == 0;
    } else if k <= t {
      LatestMoves(t, k);
    }
  }

  lemma LatestMoves(t: nat, k: nat)
    requires k < 16 && k < t && k != t % 16
    ensures Latest(t + 1, k) == Latest(t, k)
  {
  }

  // The four words the next one is made of, and where they are.
  lemma DueWord(block: Block, t: nat)
    requires t >= 16
    ensures W(block, t) == Rotl(Slot(block, t, (t + 13) % 16) ^ Slot(block, t, (t + 8) % 16) ^ Slot(block, t, (t + 2) % 16) ^ Slot(block, t, t % 16), 1)
  {
    hide Rotl, LittleEndian, Latest;
    LatestAt(t, 3);
    LatestAt(t, 8);
    LatestAt(t, 14);
    LatestAt(t, 16);
  }

  lemma LatestAt(t: nat, back: nat)
    requires 1 <= back <= 16 <= t
    ensures Latest(t, (t + 16 - back) % 16) == t - back
  {
    var k := (t + 16 - back) % 16;
    assert (t - 1 - k) % 16 == back - 1;
  }

  // ---- the rounds ----

  // One transformation: the hash value and block it starts from, and the bytes around the block.
  datatype Job = Job(h: Regs, block: Block, before: seq<Byte>, after: seq<Byte>)

  // After t rounds: the registers, and the block as a window on the schedule.
  ghost predicate At(job: Job, off: nat, t: nat, r: Regs, m: seq<Byte>) {
    && off + 64 <= |m|
    && r == Rounds(job.h, job.block, t)
    && m[..off] == job.before && m[off + 64..] == job.after
    && Window(m[off..off + 64], job.block, t)
  }

  lemma Begins(job: Job, off: nat, m: seq<Byte>)
    requires off + 64 <= |m| && job.before == m[..off] && job.block == m[off..off + 64] && job.after == m[off + 64..]
    ensures At(job, off, 0, job.h, m)
  {
    WindowStarts(job.block);
  }

  lemma Ends(job: Job, off: nat, r: Regs, m: seq<Byte>)
    requires off + 64 <= |m| && At(job, off, 80, r, m)
    ensures Added(job.h, r) == Compress(job.h, job.block) && m[..off] == job.before && m[off + 64..] == job.after
  {
    hide Rounds, Window;
  }

  lemma Stepped(job: Job, off: nat, t: nat, r: Regs, m: seq<Byte>, n: seq<Byte>, w: Word)
    requires At(job, off, t, r, m) && |n| == |m| && w == W(job.block, t)
    requires LittleEndian(n, off + 4 * (t % 16)) == w
    requires forall i :: 0 <= i < |m| && !(off + 4 * (t % 16) <= i < off + 4 * (t % 16) + 4) ==> n[i] == m[i]
    ensures At(job, off, t + 1, Round(r, t, w), n)
  {
    hide W, Round, LittleEndian;
    var s, u := m[off..off + 64], n[off..off + 64];
    assert forall i :: 0 <= i < 64 && !(4 * (t % 16) <= i < 4 * (t % 16) + 4) ==> u[i] == n[off + i] == m[off + i] == s[i];
    Sliced(n, off, 4 * (t % 16));
    assert n[..off] == m[..off] && n[off + 64..] == m[off + 64..];
    WindowMoves(s, u, job.block, t);
  }

  lemma Sliced(n: seq<Byte>, off: nat, p: nat)
    requires off + 64 <= |n| && p + 4 <= 64
    ensures LittleEndian(n[off..off + 64], p) == LittleEndian(n, off + p)
  {
  }

  // 'blk0': the next word of the block, turned to big-endian in place.
  method Blk0(mem: array<Byte>, off: nat, ghost job: Job, ghost r: Regs, i: nat) returns (w: Word)
    requires off + 64 <= mem.Length && i < 16 && At(job, off, i, r, mem[..])
    modifies mem
    ensures w == W(job.block, i) && At(job, off, i + 1, Round(r, i, w), mem[..])
  {
    hide Round, LittleEndian, Swapped;
    ghost var m := mem[..];
    Sliced(m, off, 4 * i);
    SwapMakesBigEndian(job.block, 4 * i);
    var l := LoadWord(mem, off + 4 * i);
    w := Swapped(l);
    StoreWord(mem, off + 4 * i, w);
    Stepped(job, off, i, r, m, mem[..], w);
  }

  // 'blk': a word of the extended schedule, over the one sixteen places back.
  method Blk(mem: array<Byte>, off: nat, ghost job: Job, ghost r: Regs, i: nat) returns (w: Word)
    requires off + 64 <= mem.Length && i >= 16 && At(job, off, i, r, mem[..])
    modifies mem
    ensures w == W(job.block, i) && At(job, off, i + 1, Round(r, i, w), mem[..])
  {
    hide Round, LittleEndian, Slot, W, Rotl;
    ghost var m := mem[..];
    var w3 := LoadWord(mem, off + 4 * ((i + 13) % 16));
    var w8 := LoadWord(mem, off + 4 * ((i + 8) % 16));
    var w14 := LoadWord(mem, off + 4 * ((i + 2) % 16));
    var w16 := LoadWord(mem, off + 4 * (i % 16));
    Sliced(m, off, 4 * ((i + 13) % 16));
    Sliced(m, off, 4 * ((i + 8) % 16));
    Sliced(m, off, 4 * ((i + 2) % 16));
    Sliced(m, off, 4 * (i % 16));
    DueWord(job.block, i);
    w := Rotl(w3 ^ w8 ^ w14 ^ w16, 1);
    StoreWord(mem, off + 4 * (i % 16), w);
    Stepped(job, off, i, r, m, mem[..], w);
  }

  method R0(mem: array<Byte>, off: nat, ghost job: Job, v: Word, w: Word, x: Word, y: Word, z: Word, i: nat) returns (z': Word, w': Word)
    requires off + 64 <= mem.Length && 0 <= i < 16 && At(job, off, i, Regs(v, w, x, y, z), mem[..])
    modifies mem
    ensures At(job, off, i + 1, Regs(z', v, w', x, y), mem[..])
  {
    hide At, Rotl, F, K, Round, Selected, Voted, Parity, Sum;
    ghost var r := Regs(v, w, x, y, z);
    var t := Blk0(mem, off, job, r, i);
    Select(i, w, x, y);
    z' := Sum(z, Selected(w, x, y), t, 0x5a827999, Rotl(v, 5));
    w' := Rotl(w, 30);
    RoundInPlace(v, w, x, y, z, i, t);
  }

  method R1(mem: array<Byte>, off: nat, ghost job: Job, v: Word, w: Word, x: Word, y: Word, z: Word, i: nat) returns (z': Word, w': Word)
    requires off + 64 <= mem.Length && 16 <= i < 20 && At(job, off, i, Regs(v, w, x, y, z), mem[..])
    modifies mem
    ensures At(job, off, i + 1, Regs(z', v, w', x, y), mem[..])
  {
    hide At, Rotl, F, K, Round, Selected, Voted, Parity, Sum;
    ghost var r := Regs(v, w, x, y, z);
    var t := Blk(mem, off, job, r, i);
    Select(i, w, x, y);
    z' := Sum(z, Selected(w, x, y), t, 0x5a827999, Rotl(v, 5));
    w' := Rotl(w, 30);
    RoundInPlace(v, w, x, y, z, i, t);
  }

  method R2(mem: array<Byte>, off: nat, ghost job: Job, v: Word, w: Word, x: Word, y: Word, z: Word, i: nat) returns (z': Word, w': Word)
    requires off + 64 <= mem.Length && 20 <= i < 40 && At(job, off, i, Regs(v, w, x, y, z), mem[..])
    modifies mem
    ensures At(job, off, i + 1, Regs(z', v, w', x, y), mem[..])
  {
    hide At, Rotl, F, K, Round, Selected, Voted, Parity, Sum;
    ghost var r := Regs(v, w, x, y, z);
    var t := Blk(mem, off, job, r, i);
    Parities(i, w, x, y);
    z' := Sum(z, Parity(w, x, y), t, 0x6ed9eba1, Rotl(v, 5));
    w' := Rotl(w, 30);
    RoundInPlace(v, w, x, y, z, i, t);
  }

  method R3(mem: array<Byte>, off: nat, ghost job: Job, v: Word, w: Word, x: Word, y: Word, z: Word, i: nat) returns (z': Word, w': Word)
    requires off + 64 <= mem.Length && 40 <= i < 60 && At(job, off, i, Regs(v, w, x, y, z), mem[..])
    modifies mem
    ensures At(job, off, i + 1, Regs(z', v, w', x, y), mem[..])
  {
    hide At, Rotl, F, K, Round, Selected, Voted, Parity, Sum;
    ghost var r := Regs(v, w, x, y, z);
    var t := Blk(mem, off, job, r, i);
    Vote(i, w, x, y);
    z' := Sum(z, Voted(w, x, y), t, 0x8f1bbcdc, Rotl(v, 5));
    w' := Rotl(w, 30);
    RoundInPlace(v, w, x, y, z, i, t);
  }

  method R4(mem: array<Byte>, off: nat, ghost job: Job, v: Word, w: Word, x: Word, y: Word, z: Word, i: nat) returns (z': Word, w': Word)
    requires off + 64 <= mem.Length && 60 <= i < 80 && At(job, off, i, Regs(v, w, x, y, z), mem[..])
    modifies mem
    ensures At(job, off, i + 1, Regs(z', v, w', x, y), mem[..])
  {
    hide At, Rotl, F, K, Round, Selected, Voted, Parity, Sum;
    ghost var r := Regs(v, w, x, y, z);
    var t := Blk(mem, off, job, r, i);
    Parities(i, w, x, y);
    z' := Sum(z, Parity(w, x, y), t, 0xca62c1d6, Rotl(v, 5));
    w' := Rotl(w, 30);
    RoundInPlace(v, w, x, y, z, i, t);
  }

  method Rounds1(mem: array<Byte>, off: nat, ghost job: Job, a0: Word, b0: Word, c0: Word, d0: Word, e0: Word)
    returns (a: Word, b: Word, c: Word, d: Word, e: Word)
    requires off + 64 <= mem.Length && At(job, off, 0, Regs(a0, b0, c0, d0, e0), mem[..])
    modifies mem
    ensures At(job, off, 20, Regs(a, b, c, d, e), mem[..])
  {
    hide At;
    a, b, c, d, e := a0, b0, c0, d0, e0;
    e, b := R0(mem, off, job, a, b, c, d, e, 0);
    d, a := R0(mem, off, job, e, a, b, c, d, 1);
    c, e := R0(mem, off, job, d, e, a, b, c, 2);
    b, d := R0(mem, off, job, c, d, e, a, b, 3);
    a, c := R0(mem, off, job, b, c, d, e, a, 4);
    e, b := R0(mem, off, job, a, b, c, d, e, 5);
    d, a := R0(mem, off, job, e, a, b, c, d, 6);
    c, e := R0(mem, off, job, d, e, a, b, c, 7);
    b, d := R0(mem, off, job, c, d, e, a, b, 8);
    a, c := R0(mem, off, job, b, c, d, e, a, 9);
    e, b := R0(mem, off, job, a, b, c, d, e, 10);
    d, a := R0(mem, off, job, e, a, b, c, d, 11);
    c, e := R0(mem, off, job, d, e, a, b, c, 12);
    b, d := R0(mem, off, job, c, d, e, a, b, 13);
    a, c := R0(mem, off, job, b, c, d, e, a, 14);
    e, b := R0(mem, off, job, a, b, c, d, e, 15);
    d, a := R1(mem, off, job, e, a, b, c, d, 16);
    c, e := R1(mem, off, job, d, e, a, b, c, 17);
    b, d := R1(mem, off, job, c, d, e, a, b, 18);
    a, c := R1(mem, off, job, b, c, d, e, a, 19);
  }

  method Rounds2(mem: array<Byte>, off: nat, ghost job: Job, a0: Word, b0: Word, c0: Word, d0: Word, e0: Word)
    returns (a: Word, b: Word, c: Word, d: Word, e: Word)
    requires off + 64 <= mem.Length && At(job, off, 20, Regs(a0, b0, c0, d0, e0), mem[..])
    modifies mem
    ensures At(job, off, 40, Regs(a, b, c, d, e), mem[..])
  {
    hide At;
    a, b, c, d, e := a0, b0, c0, d0, e0;
    e, b := R2(mem, off, job, a, b, c, d, e, 20);
    d, a := R2(mem, off, job, e, a, b, c, d, 21);
    c, e := R2(mem, off, job, d, e, a, b, c, 22);
    b, d := R2(mem, off, job, c, d, e, a, b, 23);
    a, c := R2(mem, off, job, b, c, d, e, a, 24);
    e, b := R2(mem, off, job, a, b, c, d, e, 25);
    d, a := R2(mem, off, job, e, a, b, c, d, 26);
    c, e := R2(mem, off, job, d, e, a, b, c, 27);
    b, d := R2(mem, off, job, c, d, e, a, b, 28);
    a, c := R2(mem, off, job, b, c, d, e, a, 29);
    e, b := R2(mem, off, job, a, b, c, d, e, 30);
    d, a := R2(mem, off, job, e, a, b, c, d, 31);
    c, e := R2(mem, off, job, d, e, a, b, c, 32);
    b, d := R2(mem, off, job, c, d, e, a, b, 33);
    a, c := R2(mem, off, job, b, c, d, e, a, 34);
    e, b := R2(mem, off, job, a, b, c, d, e, 35);
    d, a := R2(mem, off, job, e, a, b, c, d, 36);
    c, e := R2(mem, off, job, d, e, a, b, c, 37);
    b, d := R2(mem, off, job, c, d, e, a, b, 38);
    a, c := R2(mem, off, job, b, c, d, e, a, 39);
  }

  method Rounds3(mem: array<Byte>, off: nat, ghost job: Job, a0: Word, b0: Word, c0: Word, d0: Word, e0: Word)
    returns (a: Word, b: Word, c: Word, d: Word, e: Word)
    requires off + 64 <= mem.Length && At(job, off, 40, Regs(a0, b0, c0, d0, e0), mem[..])
    modifies mem
    ensures At(job, off, 60, Regs(a, b, c, d, e), mem[..])
  {
    hide At;
    a, b, c, d, e := a0, b0, c0, d0, e0;
    e, b := R3(mem, off, job, a, b, c, d, e, 40);
    d, a := R3(mem, off, job, e, a, b, c, d, 41);
    c, e := R3(mem, off, job, d, e, a, b, c, 42);
    b, d := R3(mem, off, job, c, d, e, a, b, 43);
    a, c := R3(mem, off, job, b, c, d, e, a, 44);
    e, b := R3(mem, off, job, a, b, c, d, e, 45);
    d, a := R3(mem, off, job, e, a, b, c, d, 46);
    c, e := R3(mem, off, job, d, e, a, b, c, 47);
    b, d := R3(mem, off, job, c, d, e, a, b, 48);
    a, c := R3(mem, off, job, b, c, d, e, a, 49);
    e, b := R3(mem, off, job, a, b, c, d, e, 50);
    d, a := R3(mem, off, job, e, a, b, c, d, 51);
    c, e := R3(mem, off, job, d, e, a, b, c, 52);
    b, d := R3(mem, off, job, c, d, e, a, b, 53);
    a, c := R3(mem, off, job, b, c, d, e, a, 54);
    e, b := R3(mem, off, job, a, b, c, d, e, 55);
    d, a := R3(mem, off, job, e, a, b, c, d, 56);
    c, e := R3(mem, off, job, d, e, a, b, c, 57);
    b, d := R3(mem, off, job, c, d, e, a, b, 58);
    a, c := R3(mem, off, job, b, c, d, e, a, 59);
  }

  method Rounds4(mem: array<Byte>, off: nat, ghost job: Job, a0: Word, b0: Word, c0: Word, d0: Word, e0: Word)
    returns (a: Word, b: Word, c: Word, d: Word, e: Word)
    requires off + 64 <= mem.Length && At(job, off, 60, Regs(a0, b0, c0, d0, e0), mem[..])
    modifies mem
    ensures At(job, off, 80, Regs(a, b, c, d, e), mem[..])
  {
    hide At;
    a, b, c, d, e := a0, b0, c0, d0, e0;
    e, b := R4(mem, off, job, a, b, c, d, e, 60);
    d, a := R4(mem, off, job, e, a, b, c, d, 61);
    c, e := R4(mem, off, job, d, e, a, b, c, 62);
    b, d := R4(mem, off, job, c, d, e, a, b, 63);
    a, c := R4(mem, off, job, b, c, d, e, a, 64);
    e, b := R4(mem, off, job, a, b, c, d, e, 65);
    d, a := R4(mem, off, job, e, a, b, c, d, 66);
    c, e := R4(mem, off, job, d, e, a, b, c, 67);
    b, d := R4(mem, off, job, c, d, e, a, b, 68);
    a, c := R4(mem, off, job, b, c, d, e, a, 69);
    e, b := R4(mem, off, job, a, b, c, d, e, 70);
    d, a := R4(mem, off, job, e, a, b, c, d, 71);
    c, e := R4(mem, off, job, d, e, a, b, c, 72);
    b, d := R4(mem, off, job, c, d, e, a, b, 73);
    a, c := R4(mem, off, job, b, c, d, e, a, 74);
    e, b := R4(mem, off, job, a, b, c, d, e, 75);
    d, a := R4(mem, off, job, e, a, b, c, d, 76);
    c, e := R4(mem, off, job, d, e, a, b, c, 77);
    b, d := R4(mem, off, job, c, d, e, a, b, 78);
    a, c := R4(mem, off, job, b, c, d, e, a, 79);
  }
}
