// The optimal size of the array part: 'luaO_ceillog2', 'computesizes', and the count array of 'rehash'.
module TableSizes {

  // Integer keys up to 2^MAXABITS are candidates for the array part.
  const MAXABITS: nat := 31

  // The largest number of integer keys with which no candidate size wraps around an unsigned int.
  const MAXCOUNT: nat := 0x4000_0000

  function Pow(i: nat): (p: nat)
    ensures p >= 1
  {
    if i == 0 then 1 else 2 * Pow(i - 1)
  }

  lemma {:induction false} PowMonotone(i: nat, j: nat)
    requires i <= j
    ensures Pow(i) <= Pow(j) && (i < j ==> 2 * Pow(i) <= Pow(j))
    decreases j
  {
    if i < j { PowMonotone(i, j - 1); }
  }

  lemma PowMax()
    ensures Pow(0) == 1 && Pow(8) == 256 && Pow(30) == MAXCOUNT && Pow(31) == 2 * MAXCOUNT
  {
    assert Pow(8) == 256;
    assert Pow(16) == 256 * Pow(8);
    assert Pow(24) == 256 * Pow(16);
    assert Pow(30) == 64 * Pow(24);
  }

  // l is the logarithm of x in base 2, rounded up.
  ghost predicate IsCeilLog(x: nat, l: nat) {
    x <= Pow(l) && (l == 0 || Pow(l - 1) < x)
  }

  lemma CeilLogIsUnique(x: nat, a: nat, b: nat)
    requires IsCeilLog(x, a) && IsCeilLog(x, b)
    ensures a == b
  {
    if a < b { PowMonotone(a, b - 1); }
    if b < a { PowMonotone(b, a - 1); }
  }

  lemma CeilLogBound(x: nat, l: nat, max: nat)
    requires IsCeilLog(x, l) && x <= Pow(max)
    ensures x <= Pow(l) && l <= max && (Pow(l) == 1 || Pow(l) < 2 * x)
  {
    if l > max { PowMonotone(max, l - 1); }
  }

  // The table 'log_2' of 'luaO_ceillog2': entry i is the logarithm of i + 1.
  function Log2Table(i: nat): (l: nat)
    requires i < 256
    ensures IsCeilLog(i + 1, l)
  {
    if i < 1 then 0 else if i < 2 then 1 else if i < 4 then 2 else if i < 8 then 3 else if i < 16 then 4
    else if i < 32 then 5 else if i < 64 then 6 else if i < 128 then 7 else 8
  }

  lemma {:induction false} PowAdd(l: nat, k: nat)
    ensures Pow(l + k) == Pow(l) * Pow(k)
    decreases k
  {
    if k > 0 { PowAdd(l, k - 1); }
  }

  // y is z without its low l bits.
  ghost predicate HighBits(z: nat, y: nat, l: nat) {
    y * Pow(l) <= z < (y + 1) * Pow(l)
  }

  lemma ShiftByte(z: nat, y: nat, l: nat)
    requires HighBits(z, y, l)
    ensures HighBits(z, y / 256, l + 8)
  {
    hide Pow;
    var p, q := Pow(l), y / 256;
    PowAdd(l, 8);
    PowMax();
    MulMono(q * 256, y, p);
    MulMono(y + 1, (q + 1) * 256, p);
    MulAssoc(q, p);
    MulAssoc(q + 1, p);
  }

  lemma MulAssoc(q: nat, p: nat)
    ensures (q * 256) * p == q * (p * 256)
  {
  }

  lemma MulMono(a: nat, b: nat, p: nat)
    requires a <= b
    ensures a * p <= b * p
  {
  }

  lemma PowProduct(l: nat, k: nat, y: nat)
    ensures y <= Pow(k) ==> y * Pow(l) <= Pow(l + k)
    ensures Pow(k) <= y ==> Pow(l + k) <= y * Pow(l)
  {
    PowAdd(l, k);
    if y <= Pow(k) { MulMono(y, Pow(k), Pow(l)); }
    if Pow(k) <= y { MulMono(Pow(k), y, Pow(l)); }
    assert Pow(k) * Pow(l) == Pow(l) * Pow(k);
  }

  lemma CeilLogOfHighBits(x: nat, y: nat, l: nat, t: nat)
    requires x > 0 && HighBits(x - 1, y, l) && IsCeilLog(y + 1, t) && (y == 0 ==> l == 0)
    ensures IsCeilLog(x, l + t)
  {
    PowProduct(l, t, y + 1);
    if t > 0 {
      PowProduct(l, t - 1, y);
      assert Pow(l + (t - 1)) == Pow(l + t - 1);
    }
  }

  // 'luaO_ceillog2'.
  method CeilLog2(x: nat) returns (r: nat)
    requires x > 0
    ensures IsCeilLog(x, r)
  {
    var l, y := 0, x - 1;
    assert Pow(0) == 1;
    while y >= 256
      invariant y >= 0 && HighBits(x - 1, y, l)
      invariant y == 0 ==> l == 0
      decreases y
    {
      ShiftByte(x - 1, y, l);
      l, y := l + 8, y / 256;
    }
    CeilLogOfHighBits(x, y, l, Log2Table(y));
    r := l + Log2Table(y);
  }

  // ---- sets of integer keys ----

  // The keys of S among 1..n.
  function Upto(S: set<int>, n: int): set<int> {
    set x | x in S && 1 <= x <= n
  }

  lemma SubsetSize<T>(a: set<T>, b: set<T>)
    requires a <= b
    ensures |a| <= |b|
  {
    assert b == a + (b - a);
  }

  lemma {:induction false} UptoSize(S: set<int>, n: nat)
    ensures |Upto(S, n)| <= n
  {
    if n == 0 {
      assert Upto(S, 0) == {};
    } else {
      UptoSize(S, n - 1);
      assert Upto(S, n) <= Upto(S, n - 1) + {n};
      SubsetSize(Upto(S, n), Upto(S, n - 1) + {n});
    }
  }

  // The keys of S in (2^(i-1), 2^i].
  ghost function Slice(S: set<int>, i: nat): set<int> {
    set x | x in S && x > 0 && IsCeilLog(x, i)
  }

  // nums[i] is the number of keys of S in (2^(i-1), 2^i].
  ghost predicate Buckets(nums: seq<nat>, S: set<int>) {
    && |nums| == MAXABITS + 1
    && forall i :: 0 <= i < |nums| ==> nums[i] == |Slice(S, i)|
  }

  // Counting one more key.
  lemma BucketsAdd(nums: seq<nat>, S: set<int>, x: int, l: nat)
    requires Buckets(nums, S) && x !in S && x > 0 && IsCeilLog(x, l) && l <= MAXABITS
    ensures Buckets(nums[l := nums[l] + 1], S + {x})
  {
    forall i | 0 <= i < |nums| ensures nums[l := nums[l] + 1][i] == |Slice(S + {x}, i)| {
      if i == l {
        assert Slice(S + {x}, i) == Slice(S, i) + {x};
      } else {
        if IsCeilLog(x, i) { CeilLogIsUnique(x, i, l); }
        assert Slice(S + {x}, i) == Slice(S, i);
      }
    }
  }

  // ---- the optimal size ----

  // The array part of size n is more than half full.
  ghost predicate HalfFull(S: set<int>, n: nat) {
    2 * |Upto(S, n)| > n
  }

  ghost predicate NoLargerFull(S: set<int>, i: nat, top: nat) {
    forall j :: i < j < top ==> !HalfFull(S, Pow(j))
  }

  // The largest power of two below 2^top such that more than half of that many slots are in use, or 0.
  ghost predicate BestBelow(S: set<int>, n: nat, top: nat) {
    || (n == 0 && forall j :: 0 <= j < top ==> !HalfFull(S, Pow(j)))
    || exists i :: 0 <= i < top && n == Pow(i) && HalfFull(S, n) && NoLargerFull(S, i, top)
  }

  ghost predicate IsOptimal(S: set<int>, n: nat) {
    forall top :: top > MAXABITS ==> BestBelow(S, n, top)
  }

  lemma OptimalIsUnique(S: set<int>, a: nat, b: nat)
    requires IsOptimal(S, a) && IsOptimal(S, b)
    ensures a == b
  {
    var top := MAXABITS + 1;
    assert BestBelow(S, a, top) && BestBelow(S, b, top);
    if a != 0 && b != 0 {
      var i :| 0 <= i < top && a == Pow(i) && HalfFull(S, a) && NoLargerFull(S, i, top);
      var j :| 0 <= j < top && b == Pow(j) && HalfFull(S, b) && NoLargerFull(S, j, top);
      assert i == j;
    }
  }

  // More than half of an array part of the optimal size is in use.
  lemma OptimalIsHalfFull(S: set<int>, n: nat)
    requires IsOptimal(S, n)
    ensures n == 0 || HalfFull(S, n)
  {
    assert BestBelow(S, n, MAXABITS + 1);
  }

  lemma BestNext(S: set<int>, n: nat, top: nat)
    requires BestBelow(S, n, top)
    ensures BestBelow(S, if HalfFull(S, Pow(top)) then Pow(top) else n, top + 1)
  {
    hide Pow, HalfFull;
    if HalfFull(S, Pow(top)) {
      assert NoLargerFull(S, top, top + 1);
    } else if n != 0 || !(forall j :: 0 <= j < top ==> !HalfFull(S, Pow(j))) {
      var i :| 0 <= i < top && n == Pow(i) && HalfFull(S, n) && NoLargerFull(S, i, top);
      assert NoLargerFull(S, i, top + 1);
    }
  }

  // One turn of the loop: a becomes the number of keys up to 2^i.
  lemma NextSlice(nums: seq<nat>, S: set<int>, i: nat)
    requires Buckets(nums, S) && i <= MAXABITS
    ensures |Upto(S, Pow(i))| == (if i == 0 then 0 else |Upto(S, Pow(i - 1))|) + nums[i]
    ensures nums[i] == 0 ==> !HalfFull(S, Pow(i))
  {
    if i == 0 {
      assert Upto(S, Pow(0)) == Slice(S, 0);
    } else {
      assert Upto(S, Pow(i)) == Upto(S, Pow(i - 1)) + Slice(S, i);
      UptoSize(S, Pow(i - 1));
    }
  }

  // Too few keys to fill half of any larger size.
  lemma {:induction false} BestIsOptimal(S: set<int>, n: nat, i: nat, top: nat)
    requires BestBelow(S, n, i) && i <= top && 2 * |S| <= Pow(i)
    ensures BestBelow(S, n, top)
    decreases top
  {
    if i < top {
      BestIsOptimal(S, n, i, top - 1);
      SubsetSize(Upto(S, Pow(top - 1)), S);
      PowMonotone(i, top - 1);
      BestNext(S, n, top - 1);
    }
  }

  // 'computesizes'.
  method ComputeSizes(nums: array<nat>, pna: nat, ghost S: set<int>) returns (optimal: nat, na: nat)
    requires Buckets(nums[..], S) && pna == |S| <= MAXCOUNT
    ensures IsOptimal(S, optimal) && na == |Upto(S, optimal)|
    ensures optimal <= 2 * MAXCOUNT
  {
    var i, twotoi := 0, 1;
    var a := 0;
    na, optimal := 0, 0;
    assert Upto(S, 0) == {};
    PowMax();
    while pna > twotoi / 2
      invariant 0 <= i <= MAXABITS && twotoi == Pow(i) <= 2 * MAXCOUNT
      invariant a == if i == 0 then 0 else |Upto(S, Pow(i - 1))|
      invariant na == |Upto(S, optimal)| && optimal <= 2 * MAXCOUNT
      invariant BestBelow(S, optimal, i)
      decreases MAXABITS - i
    {
      NextSlice(nums[..], S, i);
      BestNext(S, optimal, i);
      if nums[i] > 0 {
        a := a + nums[i];
        if a > twotoi / 2 {
          optimal := twotoi;
          na := a;
        }
      }
      PowMonotone(i + 1, MAXABITS);
      i, twotoi := i + 1, twotoi * 2;
    }
    forall top | top > MAXABITS ensures BestBelow(S, optimal, top) {
      BestIsOptimal(S, optimal, i, top);
    }
  }
}
