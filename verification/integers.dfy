// 64-bit Lua integers: wrap-around, and division, modulus and shifts built on C's truncating operators.
module Integers {

  const TWO64: int := 0x1_0000_0000_0000_0000
  const NBITS: int := 64

  // A lua_Integer.
  type Integer = i: int | -0x8000_0000_0000_0000 <= i < 0x8000_0000_0000_0000

  // 'l_castS2U'.
  function ToUnsigned(i: int): (u: int)
    ensures 0 <= u < TWO64
  {
    i % TWO64
  }

  // 'l_castU2S'.
  function ToSigned(u: int): Integer
    requires 0 <= u < TWO64
  {
    if u < 0x8000_0000_0000_0000 then u else u - TWO64
  }

  // The result of an operation on unsigned integers, as 'intop' gives it.
  function Wrap(i: int): Integer { ToSigned(ToUnsigned(i)) }

  lemma WrapsNothing(i: Integer)
    ensures Wrap(i) == i
  {
  }

  // C's '/' and '%', which truncate towards zero.
  function CDiv(m: int, n: int): int
    requires n != 0
  {
    if (m < 0) == (n < 0) then Abs(m) / Abs(n) else -(Abs(m) / Abs(n))
  }

  function CRem(m: int, n: int): int
    requires n != 0
  {
    if m < 0 then -(Abs(m) % Abs(n)) else Abs(m) % Abs(n)
  }

  function Abs(m: int): nat { if m < 0 then -m else m }

  // Division that rounds towards minus infinity.
  function FloorDiv(m: int, n: int): int
    requires n != 0
  {
    if n > 0 then m / n else (-m) / (-n)
  }

  lemma FloorIsUnique(m: int, n: int, q: int, r: int)
    requires n != 0 && m == n * q + r && (if n > 0 then 0 <= r < n else n < r <= 0)
    ensures q == FloorDiv(m, n)
  {
    if n > 0 { DivIsUnique(m, n, q, r); } else { DivIsUnique(-m, -n, q, -r); }
  }

  lemma DivIsUnique(m: int, n: int, q: int, r: int)
    requires n > 0 && m == n * q + r && 0 <= r < n
    ensures q == m / n
  {
    var d := q - m / n;
    assert n * d == m % n - r;
    assert d >= 1 ==> n * d >= n;
    assert d <= -1 ==> n * d <= -n;
  }

  lemma CDivSplit(m: int, n: int)
    requires n != 0
    ensures m == n * CDiv(m, n) + CRem(m, n) && Abs(CRem(m, n)) < Abs(n) && (CRem(m, n) == 0 || (CRem(m, n) < 0) == (m < 0))
  {
    SignedProduct(Abs(m), Abs(n), m < 0, n < 0);
  }

  lemma SignedProduct(a: int, b: int, mneg: bool, nneg: bool)
    requires a >= 0 && b > 0
    ensures var q, r := a / b, a % b;
      (if mneg then -a else a) == (if nneg then -b else b) * (if mneg == nneg then q else -q) + if mneg then -r else r
  {
    var q: int := a / b;
    assert a == b * q + a % b;
    assert b * -q == -(b * q);
  }

  // The truncated quotient of a negative non-integer quotient is one too high.
  lemma CDivIsFloor(m: int, n: int)
    requires n != 0
    ensures FloorDiv(m, n) == CDiv(m, n) - if CRem(m, n) != 0 && (m < 0) != (n < 0) then 1 else 0
    ensures m == n * CDiv(m, n) + CRem(m, n)
  {
    hide FloorDiv, CDiv, CRem;
    CDivSplit(m, n);
    if CRem(m, n) != 0 && (m < 0) != (n < 0) {
      assert n * (CDiv(m, n) - 1) == n * CDiv(m, n) - n;
      FloorIsUnique(m, n, CDiv(m, n) - 1, CRem(m, n) + n);
    } else {
      FloorIsUnique(m, n, CDiv(m, n), CRem(m, n));
    }
  }

  // 'luaV_div', for n != 0.
  function Div(m: Integer, n: Integer): (q: Integer)
    requires n != 0
    ensures q == Wrap(FloorDiv(m, n))
  {
    CDivIsFloor(m, n);
    if n == -1 then Wrap(0 - m)
    else
      CDivInRange(m, n);
      var q := CDiv(m, n);
      if (m < 0) != (n < 0) && CRem(m, n) != 0 then q - 1 else q
  }

  lemma CDivInRange(m: Integer, n: Integer)
    requires n != 0 && n != -1
    ensures -0x8000_0000_0000_0000 <= FloorDiv(m, n) < 0x8000_0000_0000_0000
    ensures -0x8000_0000_0000_0000 <= CDiv(m, n) < 0x8000_0000_0000_0000
    ensures Wrap(FloorDiv(m, n)) == FloorDiv(m, n)
  {
    hide FloorDiv, CRem, CDiv, Wrap;
    CDivIsFloor(m, n);
    CDivSmall(m, n);
    WrapsNothing(FloorDiv(m, n));
  }

  lemma CDivSmall(m: int, n: int)
    requires n != 0 && n != -1
    ensures if n == 1 then CDiv(m, n) == m && CRem(m, n) == 0 else Abs(CDiv(m, n)) <= Abs(m) / 2
  {
    if n == 1 {
      assert Abs(m) / 1 == Abs(m);
    } else {
      HalfAtMost(Abs(m), Abs(n));
    }
  }

  lemma HalfAtMost(a: nat, b: nat)
    requires b >= 2
    ensures 0 <= a / b <= a / 2
  {
    var q := a / b;
    assert b * q <= a;
    assert 2 * q <= b * q;
  }

  // 'luaV_mod', for n != 0.
  function Mod(m: Integer, n: Integer): (r: Integer)
    requires n != 0
    ensures m == n * FloorDiv(m, n) + r
    ensures if n > 0 then 0 <= r < n else n < r <= 0
  {
    RemIsFloor(m, n);
    if n == -1 then 0
    else
      var r := CRem(m, n);
      if r != 0 && (m < 0) != (n < 0) then r + n else r
  }

  lemma RemIsFloor(m: int, n: int)
    requires n != 0
    ensures var r := CRem(m, n) + if CRem(m, n) != 0 && (m < 0) != (n < 0) then n else 0;
      m == n * FloorDiv(m, n) + r && if n > 0 then 0 <= r < n else n < r <= 0
  {
    hide FloorDiv, CDiv, CRem;
    CDivIsFloor(m, n);
    CDivSplit(m, n);
    assert n * (CDiv(m, n) - 1) == n * CDiv(m, n) - n;
  }

  function Pow2(n: nat): (p: nat)
    ensures p > 0
  {
    if n == 0 then 1 else 2 * Pow2(n - 1)
  }

  // 'luaV_shiftl'.
  function ShiftLeft(x: Integer, y: int): Integer {
    if y < 0 then
      if y <= -NBITS then 0 else Wrap(ToUnsigned(x) / Pow2(-y))
    else if y >= NBITS then 0
    else Wrap(ToUnsigned(x) * Pow2(y))
  }

  lemma Pow2Is64()
    ensures Pow2(64) == TWO64
  {
    assert Pow2(8) == 256;
    Pow2Add(8, 8);
    Pow2Add(16, 16);
    Pow2Add(32, 32);
  }

  lemma {:induction false} Pow2Add(m: nat, n: nat)
    ensures Pow2(m + n) == Pow2(m) * Pow2(n)
  {
    if n > 0 {
      Pow2Add(m, n - 1);
      assert Pow2(m) * (2 * Pow2(n - 1)) == 2 * (Pow2(m) * Pow2(n - 1));
    }
  }

  // An operation on the low n bits of two numbers, bit by bit.
  function Bits(n: nat, u: nat, v: nat, op: (bool, bool) -> bool): (r: nat)
    ensures r < Pow2(n)
  {
    if n == 0 then 0 else 2 * Bits(n - 1, u / 2, v / 2, op) + if op(u % 2 == 1, v % 2 == 1) then 1 else 0
  }

  function Word(x: Integer, y: Integer, op: (bool, bool) -> bool): Integer {
    Pow2Is64();
    ToSigned(Bits(64, ToUnsigned(x), ToUnsigned(y), op))
  }

  function And(x: Integer, y: Integer): Integer { Word(x, y, (a, b) => a && b) }
  function Or(x: Integer, y: Integer): Integer { Word(x, y, (a, b) => a || b) }
  function Xor(x: Integer, y: Integer): Integer { Word(x, y, (a, b) => a != b) }
}
