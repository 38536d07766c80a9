// SHA-1 as FIPS PUB 180-4 defines it, on messages of whole bytes.
module Sha1Spec {

  type Byte = bv8
  type Word = bv32

  // ---- section 4: operations ----

  function Rotl(x: Word, n: nat): Word
    requires 0 < n < 32
  {
    (x << n) | (x >> (32 - n))
  }

  function Ch(x: Word, y: Word, z: Word): Word { (x & y) ^ (!x & z) }
  function Parity(x: Word, y: Word, z: Word): Word { x ^ y ^ z }
  function Maj(x: Word, y: Word, z: Word): Word { (x & y) ^ (x & z) ^ (y & z) }

  function F(t: nat, x: Word, y: Word, z: Word): Word {
    if t < 20 then Ch(x, y, z) else if 40 <= t < 60 then Maj(x, y, z) else Parity(x, y, z)
  }

  function K(t: nat): Word {
    if t < 20 then 0x5a827999 else if t < 40 then 0x6ed9eba1 else if t < 60 then 0x8f1bbcdc else 0xca62c1d6
  }

  // ---- section 5: padding and parsing ----

  // A byte of the length, counted from the least significant one.
  function LengthByte(bits: nat, k: nat): Byte
    requires k < 8
  {
    (bits / Pow256(k) % 256) as bv8
  }

  function Pow256(k: nat): (p: nat)
    ensures p > 0
  {
    if k == 0 then 1 else 256 * Pow256(k - 1)
  }

  function LengthBytes(bits: nat): (s: seq<Byte>)
    ensures |s| == 8
  {
    seq(8, i requires 0 <= i < 8 => LengthByte(bits, 7 - i))
  }

  // Zero bytes between the bit 1 and the length: the fewest that fill a block.
  function Zeros(n: nat): (k: nat)
    ensures k < 64 && (n + 1 + k + 8) % 64 == 0
  {
    (119 - n % 64) % 64
  }

  function Padded(m: seq<Byte>): (p: seq<Byte>)
    ensures |p| % 64 == 0
  {
    m + [0x80] + seq(Zeros(|m|), _ => 0) + LengthBytes(8 * |m|)
  }

  type Block = s: seq<Byte> | |s| == 64 witness seq(64, _ => 0)

  function BigEndian(s: seq<Byte>, p: nat): Word
    requires p + 4 <= |s|
  {
    Joined(s[p] as bv32, s[p + 1] as bv32, s[p + 2] as bv32, s[p + 3] as bv32)
  }

  // Four octets, the most significant first.
  function Joined(a: Word, b: Word, c: Word, d: Word): Word { (a << 24) | (b << 16) | (c << 8) | d }

  // ---- section 6.1.2: the hash computation ----

  function W(block: Block, t: nat): Word {
    if t < 16 then BigEndian(block, 4 * t)
    else Rotl(W(block, t - 3) ^ W(block, t - 8) ^ W(block, t - 14) ^ W(block, t - 16), 1)
  }

  datatype Regs = Regs(a: Word, b: Word, c: Word, d: Word, e: Word)

  function Round(r: Regs, t: nat, w: Word): Regs {
    Regs(Sum(Rotl(r.a, 5), F(t, r.b, r.c, r.d), r.e, K(t), w), r.a, Rotl(r.b, 30), r.c, r.d)
  }

  function Sum(a: Word, b: Word, c: Word, d: Word, e: Word): Word { a + b + c + d + e }

  function Rounds(h: Regs, block: Block, t: nat): Regs {
    if t == 0 then h else Round(Rounds(h, block, t - 1), t - 1, W(block, t - 1))
  }

  function Plus(x: Word, y: Word): Word { x + y }
  function Added(h: Regs, r: Regs): Regs { Regs(Plus(h.a, r.a), Plus(h.b, r.b), Plus(h.c, r.c), Plus(h.d, r.d), Plus(h.e, r.e)) }

  function Compress(h: Regs, block: Block): Regs { Added(h, Rounds(h, block, 80)) }

  const H0: Regs := Regs(0x67452301, 0xefcdab89, 0x98badcfe, 0x10325476, 0xc3d2e1f0)

  // The hash value after all the blocks of m.
  function Hashed(m: seq<Byte>): Regs
    requires |m| % 64 == 0
  {
    if m == [] then H0 else Compress(Hashed(m[..|m| - 64]), m[|m| - 64..])
  }

  function Octets(w: Word): (s: seq<Byte>)
    ensures |s| == 4
  {
    [((w >> 24) & 0xff) as bv8, ((w >> 16) & 0xff) as bv8, ((w >> 8) & 0xff) as bv8, (w & 0xff) as bv8]
  }

  function Digest(h: Regs): seq<Byte> { Octets(h.a) + Octets(h.b) + Octets(h.c) + Octets(h.d) + Octets(h.e) }

  function Sha1(m: seq<Byte>): seq<Byte> { Digest(Hashed(Padded(m))) }

  function WordOf(r: Regs, k: nat): Word
    requires k < 5
  {
    match k case 0 => r.a case 1 => r.b case 2 => r.c case 3 => r.d case _ => r.e
  }

  // The octets of a word, read as a big-endian number, are the word.
  lemma OctetsRead(w: Word)
    ensures BigEndian(Octets(w), 0) == w
  {
    OctetsJoined(w);
  }

  lemma OctetsJoined(w: Word)
    ensures Joined((w >> 24) & 0xff, (w >> 16) & 0xff, (w >> 8) & 0xff, w & 0xff) == w
  {
  }

  // The digest is the five words of the hash value, each most significant byte first.
  lemma DigestWords(r: Regs)
    ensures |Digest(r)| == 20 && forall k :: 0 <= k < 5 ==> BigEndian(Digest(r), 4 * k) == WordOf(r, k)
  {
    hide Octets, BigEndian;
    forall k | 0 <= k < 5 ensures BigEndian(Digest(r), 4 * k) == WordOf(r, k) {
      var w := WordOf(r, k);
      OctetsRead(w);
      SameBytes(Digest(r), 4 * k, Octets(w));
    }
  }

  lemma SameBytes(s: seq<Byte>, p: nat, t: seq<Byte>)
    requires |t| == 4 && p + 4 <= |s| && forall i :: 0 <= i < 4 ==> s[p + i] == t[i]
    ensures BigEndian(s, p) == BigEndian(t, 0)
  {
    assert s[p + 0] == t[0];
  }

  lemma HashedStep(m: seq<Byte>, block: Block)
    requires |m| % 64 == 0
    ensures Hashed(m + block) == Compress(Hashed(m), block)
  {
    var n := m + block;
    assert n[..|n| - 64] == m && n[|n| - 64..] == block;
  }
}
