// Integers as bytes: what 'packint' writes and 'unpackint' reads, in either byte order and any size.
module PackedIntegers {
  import opened Integers

  type Byte = n: int | 0 <= n < 256

  const MC: Byte := 255
  const SZINT: nat := 8
  const MAXINTSIZE: nat := 16

  function Pow256(k: nat): (p: int)
    ensures p > 0
  {
    if k == 0 then 1 else 256 * Pow256(k - 1)
  }

  // Half of 256^size.
  function Half(size: nat): (h: int)
    requires size > 0
    ensures h > 0 && 2 * h == Pow256(size)
  {
    128 * Pow256(size - 1)
  }

  lemma SizeOfInteger()
    ensures Pow256(SZINT) == TWO64
  {
    assert Pow256(4) == 0x1_0000_0000;
    assert Pow256(8) == 256 * 256 * 256 * 256 * Pow256(4);
  }

  lemma {:induction false} PowAdds(a: nat, b: nat)
    ensures Pow256(a + b) == Pow256(a) * Pow256(b)
  {
    if a > 0 {
      PowAdds(a - 1, b);
      assert 256 * Pow256(a - 1) * Pow256(b) == 256 * (Pow256(a - 1) * Pow256(b));
    }
  }

  lemma {:induction false} PowGrows(a: nat, b: nat)
    requires a <= b
    ensures Pow256(a) <= Pow256(b)
  {
    if a < b { PowGrows(a, b - 1); }
  }

  // The number whose bytes, least significant first, are ds.
  function Number(ds: seq<Byte>): (v: nat)
  {
    if ds == [] then 0 else ds[0] + 256 * Number(ds[1..])
  }

  lemma {:induction false} NumberIsBounded(ds: seq<Byte>)
    ensures Number(ds) < Pow256(|ds|)
  {
    if ds != [] { NumberIsBounded(ds[1..]); }
  }

  lemma {:induction false} NumberOfConcat(lo: seq<Byte>, hi: seq<Byte>)
    ensures Number(lo + hi) == Number(lo) + Pow256(|lo|) * Number(hi)
  {
    if lo == [] {
      assert lo + hi == hi;
    } else {
      assert (lo + hi)[1..] == lo[1..] + hi;
      NumberOfConcat(lo[1..], hi);
      assert 256 * (Pow256(|lo| - 1) * Number(hi)) == (256 * Pow256(|lo| - 1)) * Number(hi);
    }
  }

  lemma {:induction false} NumberIsInjective(a: seq<Byte>, b: seq<Byte>)
    requires |a| == |b| && Number(a) == Number(b)
    ensures a == b
  {
    if a != [] {
      assert Number(a) % 256 == a[0] && Number(b) % 256 == b[0];
      NumberIsInjective(a[1..], b[1..]);
      assert a == [a[0]] + a[1..] && b == [b[0]] + b[1..];
    }
  }

  // v shifted right by i bytes.
  function Shifted(v: nat, i: nat): nat { if i == 0 then v else Shifted(v, i - 1) / 256 }

  function Digit(v: nat, i: nat): Byte { Shifted(v, i) % 256 }

  function Digits(v: nat, size: nat): (ds: seq<Byte>)
    ensures |ds| == size && forall i :: 0 <= i < size ==> ds[i] == Digit(v, i)
  {
    seq(size, i requires 0 <= i < size => Digit(v, i))
  }

  lemma NextDigit(v: nat, i: nat)
    ensures Digit(v, i) == Shifted(v, i) % 256
    ensures i > 0 ==> Shifted(v, i) == Shifted(v, i - 1) / 256
  {
  }

  lemma {:induction false} ShiftedByOne(v: nat, i: nat)
    ensures Shifted(v, i + 1) == Shifted(v / 256, i)
  {
    if i > 0 { ShiftedByOne(v, i - 1); }
  }

  lemma {:induction false} DigitsOf(v: nat, size: nat)
    ensures Number(Digits(v, size)) == v % Pow256(size)
  {
    if size == 0 {
      assert v % 1 == 0;
    } else {
      var ds := Digits(v, size);
      forall i | 0 <= i < size - 1 ensures ds[1..][i] == Digits(v / 256, size - 1)[i] { ShiftedByOne(v, i); }
      assert ds[1..] == Digits(v / 256, size - 1);
      DigitsOf(v / 256, size - 1);
      ModSplits(v, Pow256(size - 1));
      assert ds[0] == v % 256;
    }
  }

  lemma ModSplits(v: int, m: int)
    requires m > 0
    ensures v % (256 * m) == v % 256 + 256 * ((v / 256) % m)
  {
    var w: int := v / 256;
    var q: int := w / m;
    var r: int := v % 256 + 256 * (w % m);
    assert w == m * q + w % m;
    assert 256 * (m * q) == (256 * m) * q;
    assert v == (256 * m) * q + r;
    DivIsUnique(v, 256 * m, q, r);
  }

  // ---- byte order ----

  function Reversed(s: seq<Byte>): (r: seq<Byte>)
    ensures |r| == |s| && forall i :: 0 <= i < |s| ==> r[i] == s[|s| - 1 - i]
  {
    seq(|s|, i requires 0 <= i < |s| => s[|s| - 1 - i])
  }

  // Least significant first if 'little', else most significant first. Its own inverse.
  function Ordered(ds: seq<Byte>, little: bool): (s: seq<Byte>)
    ensures |s| == |ds| && (if little then s == ds else s == Reversed(ds))
  {
    if little then ds else Reversed(ds)
  }

  lemma OrderedTwice(ds: seq<Byte>, little: bool)
    ensures Ordered(Ordered(ds, little), little) == ds
  {
  }

  // 'buff[islittle ? i : size - 1 - i]'
  function Place(i: nat, size: nat, little: bool): (p: nat)
    requires i < size
    ensures p < size
  {
    if little then i else size - 1 - i
  }

  // ---- what a packed integer denotes ----

  // The two's complement of i on 'size' bytes.
  function IntBytes(i: int, little: bool, size: nat): (s: seq<Byte>)
    ensures |s| == size
  {
    Ordered(Digits(i % Pow256(size), size), little)
  }

  // The bytes are the only ones of their number that denote i.
  lemma IntBytesDenote(i: int, little: bool, size: nat)
    ensures Number(Ordered(IntBytes(i, little, size), little)) == i % Pow256(size)
  {
    OrderedTwice(Digits(i % Pow256(size), size), little);
    DigitsOf(i % Pow256(size), size);
    ModTwice(i, Pow256(size));
  }

  lemma ModTwice(i: int, m: int)
    requires m > 0
    ensures (i % m) % m == i % m
  {
  }

  // The number the bytes stand for, as an unsigned or as a two's complement integer.
  function Denoted(s: seq<Byte>, little: bool, signed: bool): int {
    var v := Number(Ordered(s, little));
    if signed && s != [] && v >= Half(|s|) then v - Pow256(|s|) else v
  }

  // What 'unpackint' makes of the bytes: a Lua integer, or nothing if they denote a number outside of it.
  datatype Read = Fits(i: Integer) | TooLarge

  function ReadInt(s: seq<Byte>, little: bool, signed: bool): Read {
    var v := Denoted(s, little, signed);
    if signed then if -TWO64 / 2 <= v < TWO64 / 2 then Fits(v) else TooLarge
    else if 0 <= v < TWO64 then Fits(ToSigned(v)) else TooLarge
  }

  // The values 'str_pack' lets through for an option of 'size' bytes.
  predicate Packable(i: Integer, size: nat, signed: bool)
    requires size > 0
  {
    size < SZINT ==>
      if signed then -Half(size) <= i < Half(size) else 0 <= i < Pow256(size)
  }

  // The integer whose two's complement is written.
  function Stored(i: Integer, signed: bool): int { if signed then i else ToUnsigned(i) }

  lemma IntRoundTrip(i: Integer, little: bool, size: nat, signed: bool)
    requires size > 0 && Packable(i, size, signed)
    ensures ReadInt(IntBytes(Stored(i, signed), little, size), little, signed) == Fits(i)
  {
    hide Pow256, Half, IntBytes, Number, Ordered;
    var p := Stored(i, signed);
    var m := Pow256(size);
    IntBytesDenote(p, little, size);
    SizeOfInteger();
    if size >= SZINT { PowGrows(SZINT, size); } else { PowGrows(size, SZINT); }
    if p < 0 { ModIs(p, m, p + m); } else { ModIs(p, m, p); }
  }

  lemma ModIs(i: int, m: int, r: int)
    requires m > 0 && 0 <= r < m && (i == r || i == r - m)
    ensures i % m == r
  {
    DivIsUnique(i, m, if i == r then 0 else -1, r);
  }

  // Outside of those values the bytes lose the integer.
  lemma OnlyPackable(i: Integer, little: bool, size: nat, signed: bool)
    requires size > 0 && ReadInt(IntBytes(Stored(i, signed), little, size), little, signed) == Fits(i)
    ensures Packable(i, size, signed)
  {
    var s := IntBytes(Stored(i, signed), little, size);
    NumberIsBounded(Ordered(s, little));
    if size < SZINT {
      SizeOfInteger();
      PowGrows(size + 1, SZINT);
    }
  }

  // ---- sign extension ----

  lemma {:induction false} AllOnes(k: nat)
    ensures Number(seq(k, _ => MC)) == Pow256(k) - 1
  {
    if k > 0 {
      assert seq(k, _ => MC)[1..] == seq(k - 1, _ => MC);
      AllOnes(k - 1);
    }
  }

  lemma {:induction false} AllZeros(k: nat)
    ensures Number(seq(k, _ => 0)) == 0
  {
    if k > 0 {
      assert seq(k, _ => 0)[1..] == seq(k - 1, _ => 0);
      AllZeros(k - 1);
    }
  }

  // The eight bytes of a negative integer followed by bytes of ones are its two's complement.
  lemma SignExtends(u: nat, size: nat, ds: seq<Byte>)
    requires TWO64 / 2 <= u < TWO64 && size > SZINT && |ds| == size
    requires ds[..SZINT] == Digits(u, SZINT) && ds[SZINT..] == seq(size - SZINT, _ => MC)
    ensures ds == Digits((u - TWO64) % Pow256(size), size)
  {
    SizeOfInteger();
    DigitsOf(u, SZINT);
    ModIs(u, TWO64, u);
    AllOnes(size - SZINT);
    assert ds == ds[..SZINT] + ds[SZINT..];
    NumberOfConcat(ds[..SZINT], ds[SZINT..]);
    PowAdds(SZINT, size - SZINT);
    assert TWO64 * (Pow256(size - SZINT) - 1) == TWO64 * Pow256(size - SZINT) - TWO64;
    var v := u - TWO64 + Pow256(size);
    assert Number(ds) == v;
    NumberIsBounded(ds);
    ModIs(u - TWO64, Pow256(size), v);
    DigitsOf(v, size);
    ModIs(v, Pow256(size), v);
    NumberIsInjective(ds, Digits(v, size));
  }

  // When the unread bytes all repeat the sign, and only then, the number fits.
  lemma UnreadBytes(ds: seq<Byte>, signed: bool)
    requires |ds| > SZINT
    ensures var lo, hi := Number(ds[..SZINT]), ds[SZINT..];
      0 <= lo < TWO64 &&
      var mask: Byte := if !signed || ToSigned(lo) >= 0 then 0 else MC;
      ReadInt(ds, true, signed) == if hi == seq(|hi|, _ => mask) then Fits(ToSigned(lo)) else TooLarge
  {
    var lo, hi := Number(ds[..SZINT]), ds[SZINT..];
    var n := |hi|;
    SizeOfInteger();
    NumberIsBounded(ds[..SZINT]);
    NumberIsBounded(hi);
    assert ds == ds[..SZINT] + hi;
    NumberOfConcat(ds[..SZINT], hi);
    PowAdds(SZINT, n);
    AllOnes(n);
    AllZeros(n);
    ghost var h, p := Number(hi), Pow256(n);
    assert h == 0 ==> hi == seq(n, _ => 0) by { if h == 0 { NumberIsInjective(hi, seq(n, _ => 0)); } }
    assert h == p - 1 ==> hi == seq(n, _ => MC) by { if h == p - 1 { NumberIsInjective(hi, seq(n, _ => MC)); } }
    HighPart(lo, h, p);
  }

  lemma HighPart(lo: int, h: int, p: int)
    requires 0 <= lo < TWO64 && 0 <= h < p
    ensures h == 0 ==> TWO64 * h == 0
    ensures h == p - 1 ==> TWO64 * h == TWO64 * p - TWO64
    ensures h >= 1 ==> TWO64 * h >= TWO64
    ensures h <= p - 2 ==> TWO64 * h <= TWO64 * p - 2 * TWO64
  {
  }

  // 'n ^ mask' for a mask of one bit.
  function FlipBit(n: nat, mask: nat): int
    requires mask > 0
  {
    if n / mask % 2 == 0 then n + mask else n - mask
  }

  lemma FlippedSign(v: nat, h: nat)
    requires h > 0 && v < 2 * h
    ensures FlipBit(v, h) - h == if v >= h then v - 2 * h else v
  {
    if v >= h { DivIsUnique(v, h, 1, v - h); } else { DivIsUnique(v, h, 0, v); }
  }

  // ---- the operations ----

  // 'packint', returning the bytes it adds to the buffer.
  method PackInt(n: int, little: bool, size: nat, neg: bool) returns (buff: array<Byte>)
    requires 0 <= n < TWO64 && size > 0 && (neg ==> n >= TWO64 / 2)
    ensures fresh(buff)
    ensures buff[..] == IntBytes(if neg then n - TWO64 else n, little, size)
  {
    hide IntBytes, Pow256, Digits, Number, Shifted, Digit, Place;
    buff := new Byte[size];
    var rest := n;
    NextDigit(n, 0);
    assert Shifted(n, 0) == n by { FirstShift(n); }
    buff[Place(0, size, little)] := rest % 256;
    var i := 1;
    while i < size
      invariant 1 <= i <= size
      invariant rest == Shifted(n, i - 1)
      invariant forall j :: 0 <= j < i ==> buff[Place(j, size, little)] == Digit(n, j)
    {
      NextDigit(n, i);
      PlacesDiffer(i, size, little);
      rest := rest / 256;
      buff[Place(i, size, little)] := rest % 256;
      i := i + 1;
    }
    if neg && size > SZINT {
      i := SZINT;
      while i < size
        invariant SZINT <= i <= size
        invariant forall j :: 0 <= j < size ==> buff[Place(j, size, little)] == if SZINT <= j < i then MC else Digit(n, j)
      {
        PlacesDiffer(i, size, little);
        buff[Place(i, size, little)] := MC;
        i := i + 1;
      }
    }
    PackedBytes(n, little, size, neg, buff[..]);
  }

  lemma FirstShift(v: nat)
    ensures Shifted(v, 0) == v
  {
  }

  lemma PlacesDiffer(i: nat, size: nat, little: bool)
    requires i < size
    ensures forall j :: 0 <= j < size && j != i ==> Place(j, size, little) != Place(i, size, little)
  {
  }

  lemma PackedBytes(n: int, little: bool, size: nat, neg: bool, s: seq<Byte>)
    requires 0 <= n < TWO64 && size > 0 && (neg ==> n >= TWO64 / 2) && |s| == size
    requires forall j :: 0 <= j < size ==> s[Place(j, size, little)] == if neg && j >= SZINT then MC else Digit(n, j)
    ensures s == IntBytes(if neg then n - TWO64 else n, little, size)
  {
    hide Pow256, Number, Shifted, Digit;
    var ds := Ordered(s, little);
    var v := if neg then n - TWO64 else n;
    OrderedAt(s, little);
    OrderedTwice(s, little);
    if neg && size > SZINT {
      assert ds[..SZINT] == Digits(n, SZINT);
      assert ds[SZINT..] == seq(size - SZINT, _ => MC);
      SignExtends(n, size, ds);
    } else {
      assert ds == Digits(n, size);
      SizeOfInteger();
      if neg { WrapsAround(n, size); }
      DigitsOf(n, size);
      DigitsOf(v % Pow256(size), size);
      ModTwice(v, Pow256(size));
      NumberIsInjective(ds, Digits(v % Pow256(size), size));
    }
  }

  // On eight bytes or fewer a multiple of 2^64 changes nothing.
  lemma WrapsAround(n: int, size: nat)
    requires size <= SZINT
    ensures (n - TWO64) % Pow256(size) == n % Pow256(size)
  {
    hide Pow256;
    var m, k := Pow256(size), Pow256(SZINT - size);
    SizeOfInteger();
    PowAdds(size, SZINT - size);
    var q := n / m;
    assert m * (q - k) == m * q - m * k;
    DivIsUnique(n - TWO64, m, q - k, n % m);
  }

  lemma OrderedAt(s: seq<Byte>, little: bool)
    ensures forall i :: 0 <= i < |s| ==> Ordered(s, little)[i] == s[Place(i, |s|, little)]
  {
  }

  // Sign extension: the arithmetic of the mask.
  lemma SignExtended(v: nat, h: nat)
    requires v < 2 * h <= TWO64 / 256
    ensures ToSigned((FlipBit(v, h) - h) % TWO64) == if v >= h then v - 2 * h else v
  {
    hide FlipBit;
    FlippedSign(v, h);
    var x := FlipBit(v, h) - h;
    ModIs(x, TWO64, if x < 0 then x + TWO64 else x);
  }

  lemma ShortPower(size: nat)
    requires size < SZINT
    ensures Pow256(size) <= TWO64 / 256
  {
    SizeOfInteger();
    PowGrows(size, 7);
    assert Pow256(8) == 256 * Pow256(7);
  }

  // What the bytes denote when none of them is left unread.
  lemma ReadAll(str: seq<Byte>, little: bool, signed: bool, v: nat)
    requires 0 < |str| <= SZINT && v == Number(Ordered(str, little))
    ensures v < TWO64
    ensures ReadInt(str, little, signed) == Fits(ToSigned(
      if signed && |str| < SZINT then (FlipBit(v, Half(|str|)) - Half(|str|)) % TWO64 else v))
  {
    hide Pow256, Half, Number, FlipBit, Ordered;
    NumberIsBounded(Ordered(str, little));
    SizeOfInteger();
    if |str| < SZINT {
      ShortPower(|str|);
      SignExtended(v, Half(|str|));
    }
  }

  // What they denote when some are.
  lemma ReadPart(str: seq<Byte>, little: bool, signed: bool, lo: nat)
    requires |str| > SZINT && lo == Number(Ordered(str, little)[..SZINT])
    ensures lo < TWO64
    ensures var mask: Byte := if !signed || ToSigned(lo) >= 0 then 0 else MC;
      ReadInt(str, little, signed) ==
        if forall i :: SZINT <= i < |str| ==> Ordered(str, little)[i] == mask then Fits(ToSigned(lo)) else TooLarge
  {
    hide Pow256, Number;
    var ds := Ordered(str, little);
    UnreadBytes(ds, signed);
    var mask: Byte := if !signed || ToSigned(lo) >= 0 then 0 else MC;
    assert (forall i :: SZINT <= i < |str| ==> ds[i] == mask) <==> ds[SZINT..] == seq(|str| - SZINT, _ => mask) by {
      if ds[SZINT..] == seq(|str| - SZINT, _ => mask) {
        forall i | SZINT <= i < |str| ensures ds[i] == mask { assert ds[i] == ds[SZINT..][i - SZINT]; }
      }
    }
  }

  // 'unpackint': str holds the bytes at hand.
  method UnpackInt(str: seq<Byte>, little: bool, signed: bool) returns (r: Read)
    requires |str| > 0
    ensures r == ReadInt(str, little, signed)
  {
    hide Pow256, ReadInt, Number, Place, FlipBit, ToSigned, Ordered;
    var size := |str|;
    ghost var ds := Ordered(str, little);
    OrderedAt(str, little);
    var limit := if size <= SZINT then size else SZINT;
    var res := ReadBytes(str, little, limit);
    if size <= SZINT {
      assert ds[..limit] == ds;
      ReadAll(str, little, signed, res);
      if size < SZINT && signed {
        var mask := Half(size);
        res := (FlipBit(res, mask) - mask) % TWO64;
      }
    } else {
      ReadPart(str, little, signed, res);
      var mask: Byte := if !signed || ToSigned(res) >= 0 then 0 else MC;
      var i := limit;
      while i < size
        invariant limit <= i <= size
        invariant forall j :: limit <= j < i ==> ds[j] == mask
      {
        if str[Place(i, size, little)] != mask {
          assert ds[i] != mask;
          return TooLarge;
        }
        i := i + 1;
      }
    }
    return Fits(ToSigned(res));
  }

  // The number in the first 'limit' bytes, from the most significant down.
  method ReadBytes(str: seq<Byte>, little: bool, limit: nat) returns (res: nat)
    requires limit <= |str|
    ensures res == Number(Ordered(str, little)[..limit])
  {
    hide Place, Ordered;
    ghost var ds := Ordered(str, little);
    OrderedAt(str, little);
    res := 0;
    var i := limit - 1;
    while i >= 0
      invariant -1 <= i < limit
      invariant res == Number(ds[i + 1..limit])
    {
      res := res * 256 + str[Place(i, |str|, little)];
      assert ds[i..limit][1..] == ds[i + 1..limit];
      i := i - 1;
    }
    assert ds[0..limit] == ds[..limit];
  }
}
