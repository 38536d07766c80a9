// 'auxsort' of table.sort. Tables start at 1: slot 0 of the array is not used.
module Quicksort {

  // ---- orders ----

  ghost predicate StrictWeak<T(!new)>(lt: (T, T) -> bool) {
    && (forall x :: !lt(x, x))
    && (forall x, y, z :: lt(x, y) && lt(y, z) ==> lt(x, z))
    && (forall x, y, z :: !lt(x, y) && !lt(y, z) ==> !lt(x, z))
  }

  lemma Ordered<T(!new)>(lt: (T, T) -> bool, x: T, y: T)
    ensures StrictWeak(lt) ==> !lt(x, y) || !lt(y, x)
  {
    assert StrictWeak(lt) && lt(x, y) && lt(y, x) ==> lt(x, x);
  }

  lemma Chained<T(!new)>(lt: (T, T) -> bool, x: T, y: T, z: T)
    ensures StrictWeak(lt) && !lt(x, y) && !lt(y, z) ==> !lt(x, z)
  {
  }

  ghost predicate Sorted<T>(s: seq<T>, lt: (T, T) -> bool, l: nat, u: int) {
    u < |s| && forall p, q :: l <= p < q <= u ==> !lt(s[q], s[p])
  }

  ghost predicate AllBelow<T>(s: seq<T>, lt: (T, T) -> bool, l: nat, u: int, x: T) {
    u < |s| && forall p :: l <= p <= u ==> !lt(x, s[p])
  }

  ghost predicate AllAbove<T>(s: seq<T>, lt: (T, T) -> bool, l: nat, u: int, x: T) {
    u < |s| && forall p :: l <= p <= u ==> !lt(s[p], x)
  }

  // ---- permutations of a range ----

  ghost predicate Permuted<T>(s: seq<T>, t: seq<T>, l: nat, u: int) {
    && |s| == |t| && l <= u + 1 <= |s|
    && s[..l] == t[..l] && s[u + 1..] == t[u + 1..]
    && multiset(s[l..u + 1]) == multiset(t[l..u + 1])
  }

  lemma Same<T>(s: seq<T>, l: nat, u: int)
    requires l <= u + 1 <= |s|
    ensures Permuted(s, s, l, u)
  {
  }

  lemma Swapped<T>(s: seq<T>, i: nat, j: nat, l: nat, u: int)
    requires l <= i <= u < |s| && l <= j <= u
    ensures Permuted(s[i := s[j]][j := s[i]], s, l, u)
  {
    var t, r := s[i := s[j]][j := s[i]], s[l..u + 1];
    assert t[l..u + 1] == r[i - l := r[j - l]][j - l := r[i - l]];
  }

  lemma Trans<T>(s: seq<T>, t: seq<T>, v: seq<T>, l: nat, u: int)
    requires Permuted(s, t, l, u) && Permuted(t, v, l, u)
    ensures Permuted(s, v, l, u)
  {
  }

  lemma Widen<T>(s: seq<T>, t: seq<T>, l: nat, u: int, l0: nat, u0: int)
    requires Permuted(s, t, l, u) && l0 <= l && u <= u0 < |s| && l0 <= u0 + 1
    ensures Permuted(s, t, l0, u0)
  {
    assert s[..l0] == s[..l][..l0] && t[..l0] == t[..l][..l0];
    assert s[u0 + 1..] == s[u + 1..][u0 - u..] && t[u0 + 1..] == t[u + 1..][u0 - u..];
    assert s[l0..u0 + 1] == s[..l][l0..] + s[l..u + 1] + s[u + 1..][..u0 - u];
    assert t[l0..u0 + 1] == t[..l][l0..] + t[l..u + 1] + t[u + 1..][..u0 - u];
  }

  // What a range holds it held before.
  lemma Held<T>(s: seq<T>, t: seq<T>, l: nat, u: int, p: nat) returns (q: nat)
    requires Permuted(s, t, l, u) && l <= p <= u
    ensures l <= q <= u && s[p] == t[q]
  {
    assert s[p] == s[l..u + 1][p - l] && s[p] in multiset(s[l..u + 1]);
    assert s[p] in t[l..u + 1];
    var k :| 0 <= k < u + 1 - l && t[l..u + 1][k] == s[p];
    q := l + k;
  }

  // ---- the operations ----

  // 'set2', in a range that is a permutation of what it was
  method Set2<T>(a: array<T>, i: nat, j: nat, ghost was: seq<T>, ghost l: nat, ghost u: int)
    requires 1 <= l <= i <= u < a.Length && l <= j <= u && Permuted(a[..], was, l, u)
    modifies a
    ensures a[..] == old(a[..][i := a[j]][j := a[i]])
    ensures Permuted(a[..], was, l, u)
  {
    hide Permuted;
    Swapped(a[..], i, j, l, u);
    ghost var s := a[..];
    a[i], a[j] := a[j], a[i];
    assert a[..] == s[i := s[j]][j := s[i]];
    Trans(a[..], s, was, l, u);
  }

  // The first and last elements, and the middle one between them, put in order.
  method MedianOfThree<T(!new)>(a: array<T>, lt: (T, T) -> bool, l: nat, u: nat) returns (i: nat)
    requires 1 <= l < u < a.Length
    modifies a
    ensures Permuted(a[..], old(a[..]), l, u) && i == (l + u) / 2
    ensures StrictWeak(lt) ==> !lt(a[i], a[l]) && !lt(a[u], a[i]) && !lt(a[u], a[l])
  {
    hide StrictWeak, Permuted;
    ghost var was := a[..];
    Same(was, l, u);
    Ordered(lt, a[l], a[u]);
    Ordered(lt, a[l], a[l]);
    Ordered(lt, a[u], a[u]);
    if lt(a[u], a[l]) { Set2(a, l, u, was, l, u); }
    i := (l + u) / 2;
    if u - l == 1 { return; }
    Ordered(lt, a[i], a[l]);
    Ordered(lt, a[u], a[i]);
    Chained(lt, a[u], a[l], a[i]);
    if lt(a[i], a[l]) {
      Set2(a, i, l, was, l, u);
    } else if lt(a[u], a[i]) {
      Set2(a, i, u, was, l, u);
    }
  }

  // 'repeat ++i until a[i] >= P': raises an error when it has passed over a[u].
  method ScanUp<T>(a: array<T>, lt: (T, T) -> bool, i0: nat, u: nat, pivot: T) returns (ok: bool, i: nat)
    requires i0 < u < a.Length
    ensures i0 < i <= u && ok == !lt(a[i], pivot)
    ensures forall p :: i0 < p < i ==> lt(a[p], pivot)
    ensures !ok ==> i == u
  {
    i := i0 + 1;
    while lt(a[i], pivot)
      invariant i0 < i <= u
      invariant forall p :: i0 < p < i ==> lt(a[p], pivot)
      decreases u - i
    {
      if i >= u { return false, i; }
      i := i + 1;
    }
    ok := true;
  }

  // 'repeat --j until a[j] <= P'
  method ScanDown<T>(a: array<T>, lt: (T, T) -> bool, j0: nat, l: nat, pivot: T) returns (ok: bool, j: nat)
    requires l < j0 <= a.Length
    ensures l <= j < j0 && ok == !lt(pivot, a[j])
    ensures forall p :: j < p < j0 ==> lt(pivot, a[p])
    ensures !ok ==> j == l
  {
    j := j0 - 1;
    while lt(pivot, a[j])
      invariant l <= j < j0
      invariant forall p :: j < p < j0 ==> lt(pivot, a[p])
      decreases j
    {
      if j <= l { return false, j; }
      j := j - 1;
    }
    ok := true;
  }

  // Between two exchanges: everything up to i is not above the pivot, everything from j is not below it.
  ghost predicate Parted<T(!new)>(s: seq<T>, lt: (T, T) -> bool, l: nat, u: nat, i: nat, j: nat, pivot: T) {
    StrictWeak(lt) && AllBelow(s, lt, l, i, pivot) && AllAbove(s, lt, j, u, pivot)
  }

  // The scans do not run off the ends.
  lemma ScansStop<T(!new)>(s: seq<T>, lt: (T, T) -> bool, l: nat, u: nat, i0: nat, j0: nat, i: nat, j: nat, pivot: T)
    requires Parted(s, lt, l, u, i0, j0, pivot) && l <= i0 <= j0 < u < |s| && l <= j < j0 && i0 < i <= u
    requires (forall p :: i0 < p < i ==> lt(s[p], pivot)) && forall p :: j < p < j0 ==> lt(pivot, s[p])
    ensures i <= j0 + 1 && j + 1 >= i0 && (i0 < j0 ==> i <= j0)
    ensures AllBelow(s, lt, l, i - 1, pivot) && AllAbove(s, lt, j + 1, u, pivot)
  {
    forall p | l <= p <= i - 1 ensures !lt(pivot, s[p]) { Ordered(lt, pivot, s[p]); }
    forall p | j + 1 <= p <= u ensures !lt(s[p], pivot) { Ordered(lt, pivot, s[p]); }
    var p := if j + 1 <= i0 then j + 1 else i0;
    assert !lt(s[j0], pivot) && !lt(s[j0 + 1], pivot) && !lt(pivot, s[p]);
  }

  lemma Exchanged<T(!new)>(s: seq<T>, lt: (T, T) -> bool, l: nat, u: nat, i: nat, j: nat, pivot: T)
    requires StrictWeak(lt) && l <= i <= j <= u < |s|
    requires AllBelow(s, lt, l, i - 1, pivot) && AllAbove(s, lt, j + 1, u, pivot) && !lt(s[i], pivot) && !lt(pivot, s[j])
    ensures Parted(s[i := s[j]][j := s[i]], lt, l, u, i, j, pivot)
  {
  }

  lemma PivotPlaced<T(!new)>(s: seq<T>, lt: (T, T) -> bool, l: nat, u: nat, i: nat, j: nat, pivot: T)
    requires StrictWeak(lt) && l <= j < i < u < |s| && s[u - 1] == pivot
    requires AllBelow(s, lt, l, i - 1, pivot) && AllAbove(s, lt, j + 1, u, pivot)
    ensures var t := s[u - 1 := s[i]][i := pivot]; AllBelow(t, lt, l, i - 1, pivot) && AllAbove(t, lt, i + 1, u, pivot)
  {
  }

  // The pivot's final place, or nothing if the order makes no sense.
  datatype Split = InvalidOrder | At(i: nat)

  // The loop around the pivot, which waits at u - 1.
  method Partition<T(!new)>(a: array<T>, lt: (T, T) -> bool, l: nat, u: nat) returns (r: Split)
    requires 1 <= l && l + 3 <= u < a.Length
    modifies a
    ensures Permuted(a[..], old(a[..]), l, u)
    ensures r.At? ==> l < r.i <= u
    ensures Parted(old(a[..]), lt, l, u, l, u - 1, old(a[u - 1])) ==>
      r.At? && r.i < u && AllBelow(a[..], lt, l, r.i - 1, a[r.i]) && AllAbove(a[..], lt, r.i + 1, u, a[r.i])
  {
    hide StrictWeak, AllBelow, AllAbove, Permuted, Parted;
    var pivot := a[u - 1];
    ghost var sane := Parted(a[..], lt, l, u, l, u - 1, pivot);
    var i, j := l, u - 1;
    ghost var was := a[..];
    Same(was, l, u);
    while true
      invariant l <= i <= j <= u - 1 && (i == l <==> j == u - 1) && a[u - 1] == pivot
      invariant Permuted(a[..], was, l, u)
      invariant sane ==> Parted(a[..], lt, l, u, i, j, pivot)
      decreases j - i
    {
      ghost var i0, j0, s := i, j, a[..];
      var ok;
      ok, i := ScanUp(a, lt, i, u, pivot);
      if !ok {
        NotSane(s, lt, l, u, i0, j0, pivot);
        return InvalidOrder;
      }
      ok, j := ScanDown(a, lt, j, l, pivot);
      if !ok {
        NotSane(s, lt, l, u, i0, j0, pivot);
        return InvalidOrder;
      }
      if sane { Scanned(s, lt, l, u, i0, j0, i, j, pivot); }
      if j < i {
        Set2(a, u - 1, i, was, l, u);
        if sane { PivotPlaced(s, lt, l, u, i, j, pivot); }
        return At(i);
      }
      Set2(a, i, j, was, l, u);
      if sane { Exchanged(s, lt, l, u, i, j, pivot); }
    }
  }

  lemma NotSane<T(!new)>(s: seq<T>, lt: (T, T) -> bool, l: nat, u: nat, i: nat, j: nat, pivot: T)
    requires l <= i <= j < u < |s| && (lt(s[u], pivot) || lt(pivot, s[l]))
    ensures !Parted(s, lt, l, u, i, j, pivot)
  {
    hide StrictWeak;
  }

  lemma Scanned<T(!new)>(s: seq<T>, lt: (T, T) -> bool, l: nat, u: nat, i0: nat, j0: nat, i: nat, j: nat, pivot: T)
    requires Parted(s, lt, l, u, i0, j0, pivot) && l <= i0 <= j0 < u < |s| && l <= j < j0 && i0 < i <= u
    requires (forall p :: i0 < p < i ==> lt(s[p], pivot)) && forall p :: j < p < j0 ==> lt(pivot, s[p])
    ensures StrictWeak(lt) && i <= j0 + 1 && (i0 < j0 ==> i <= j0) && AllBelow(s, lt, l, i - 1, pivot) && AllAbove(s, lt, j + 1, u, pivot)
  {
    hide StrictWeak;
    ScansStop(s, lt, l, u, i0, j0, i, j, pivot);
  }

  // ---- the whole sort ----

  // Of two places of [l0, u0] that are not both in [l, u], the lower one holds nothing that is above the other.
  ghost predicate Done<T(!new)>(s: seq<T>, lt: (T, T) -> bool, l0: nat, u0: int, l: nat, u: int) {
    u0 < |s| && forall p, q :: l0 <= p < q <= u0 && !(l <= p && q <= u) ==> !lt(s[q], s[p])
  }

  lemma DoneKept<T(!new)>(s: seq<T>, t: seq<T>, lt: (T, T) -> bool, l0: nat, u0: int, l: nat, u: int)
    requires Permuted(s, t, l, u) && Done(t, lt, l0, u0, l, u) && l0 <= l && u <= u0
    ensures Done(s, lt, l0, u0, l, u)
  {
    forall p, q | l0 <= p < q <= u0 && !(l <= p && q <= u) ensures !lt(s[q], s[p]) {
      var i := HeldOutside(s, t, l, u, p);
      var j := HeldOutside(s, t, l, u, q);
    }
  }

  lemma HeldOutside<T>(s: seq<T>, t: seq<T>, l: nat, u: int, p: nat) returns (q: nat)
    requires Permuted(s, t, l, u) && p < |s|
    ensures q < |t| && s[p] == t[q] && if l <= p <= u then l <= q <= u else q == p
  {
    if l <= p <= u {
      q := Held(s, t, l, u, p);
    } else {
      q := p;
      if p < l {
        assert s[p] == s[..l][p] && t[p] == t[..l][p];
      } else {
        assert s[p] == s[u + 1..][p - u - 1] && t[p] == t[u + 1..][p - u - 1];
      }
    }
  }

  // A range around a pivot in its place.
  ghost predicate Around<T(!new)>(s: seq<T>, lt: (T, T) -> bool, l: nat, u: int, i: nat) {
    StrictWeak(lt) && l <= i <= u < |s| && AllBelow(s, lt, l, i - 1, s[i]) && AllAbove(s, lt, i + 1, u, s[i])
  }

  // Both sides keep away from the pivot while one of them, [j, k], is sorted.
  lemma AroundKept<T(!new)>(s: seq<T>, t: seq<T>, lt: (T, T) -> bool, l: nat, u: nat, i: nat, j: nat, k: int)
    requires Around(t, lt, l, u, i) && Permuted(s, t, j, k) && ((j == l && k == i - 1) || (j == i + 1 && k == u))
    ensures Around(s, lt, l, u, i)
  {
    hide StrictWeak, Permuted;
    assert |s| == |t| by { Lengths(s, t, j, k); }
    var i' := HeldOutside(s, t, j, k, i);
    forall p | l <= p <= i - 1 ensures !lt(s[i], s[p]) { var q := HeldOutside(s, t, j, k, p); }
    forall p | i + 1 <= p <= u ensures !lt(s[p], s[i]) { var q := HeldOutside(s, t, j, k, p); }
  }

  lemma Lengths<T>(s: seq<T>, t: seq<T>, l: nat, u: int)
    requires Permuted(s, t, l, u)
    ensures |s| == |t|
  {
  }

  // With one side sorted only the other one is left.
  lemma SideDone<T(!new)>(s: seq<T>, lt: (T, T) -> bool, l0: nat, u0: int, l: nat, u: nat, i: nat, left: bool)
    requires Done(s, lt, l0, u0, l, u) && Around(s, lt, l, u, i) && l0 <= l && u <= u0
    requires if left then Sorted(s, lt, l, i - 1) else Sorted(s, lt, i + 1, u)
    ensures if left then Done(s, lt, l0, u0, i + 1, u) else Done(s, lt, l0, u0, l, i - 1)
  {
    hide StrictWeak;
    var j, k := if left then i + 1 else l, if left then u else i - 1;
    forall p, q | l0 <= p < q <= u0 && !(j <= p && q <= k) ensures !lt(s[q], s[p]) {
      if l <= p < i && i < q <= u { Chained(lt, s[q], s[i], s[p]); }
    }
  }

  lemma AllDone<T(!new)>(s: seq<T>, lt: (T, T) -> bool, l0: nat, u0: int, l: nat, u: int)
    requires Done(s, lt, l0, u0, l, u) && Sorted(s, lt, l, u)
    ensures Sorted(s, lt, l0, u0)
  {
  }

  function Log2(n: nat): nat { if n < 2 then 0 else 1 + Log2(n / 2) }

  lemma {:induction false} Log2Grows(m: nat, n: nat)
    requires m <= n
    ensures Log2(m) <= Log2(n)
  {
    if m >= 2 { Log2Grows(m / 2, n / 2); }
  }

  function TwoTo(d: nat): nat { if d == 0 then 1 else 2 * TwoTo(d - 1) }

  // So deep a nesting needs that many elements.
  lemma {:induction false} LogBounds(n: nat, d: nat)
    requires d <= Log2(n) && n > 0
    ensures TwoTo(d) <= n
  {
    if d > 0 { LogBounds(n / 2, d - 1); }
  }

  // A call for at most half of the elements is one level deeper.
  lemma HalfIsOneLess(m: nat, n: nat)
    requires 2 * m <= n && n >= 4
    ensures 1 + Log2(m) <= Log2(n)
  {
    Log2Grows(m, n / 2);
  }

  // The pivot is put aside, and back in its place when the rest is divided.
  method PartitionAround<T(!new)>(a: array<T>, lt: (T, T) -> bool, l: nat, u: nat, m: nat) returns (r: Split)
    requires 1 <= l && l + 3 <= u < a.Length && m == (l + u) / 2
    modifies a
    ensures Permuted(a[..], old(a[..]), l, u)
    ensures r.At? ==> l < r.i <= u
    ensures StrictWeak(lt) && !lt(old(a[m]), old(a[l])) && !lt(old(a[u]), old(a[m])) ==> r.At? && Around(a[..], lt, l, u, r.i)
  {
    hide StrictWeak, Permuted, AllBelow, AllAbove, Parted;
    ghost var s := a[..];
    Same(s, l, u);
    Set2(a, m, u - 1, s, l, u);
    ghost var t := a[..];
    PivotWaits(s, t, lt, l, u, m);
    r := Partition(a, lt, l, u);
    Trans(a[..], t, s, l, u);
  }

  // 'auxsort': the range sorted, or the error "invalid order function"; either way a permutation of what it
  // was. With a strict weak order there is no error. 'depth' counts the calls inside one another.
  method AuxSort<T(!new)>(a: array<T>, lt: (T, T) -> bool, l0: nat, u0: int) returns (ok: bool, ghost depth: nat)
    requires 1 <= l0 <= u0 + 1 <= a.Length
    modifies a
    ensures Permuted(a[..], old(a[..]), l0, u0)
    ensures StrictWeak(lt) ==> ok && Sorted(a[..], lt, l0, u0)
    ensures depth <= Log2(u0 - l0 + 1)
    decreases u0 - l0 + 1
  {
    hide StrictWeak, Permuted, Sorted, Done, Around;
    var l: nat, u: int := l0, u0;
    depth := 0;
    ghost var was := a[..];
    Same(was, l0, u0);
    Untouched(was, lt, l0, u0);
    while l < u
      invariant l0 <= l <= u + 1 && u <= u0
      invariant Permuted(a[..], was, l0, u0)
      invariant StrictWeak(lt) ==> Done(a[..], lt, l0, u0, l, u)
      invariant depth <= Log2(u0 - l0 + 1)
      decreases u - l + 1
    {
      ghost var s := a[..];
      var i := MedianOfThree(a, lt, l, u);
      Inside(a[..], s, was, lt, l0, u0, l, u);
      if u - l <= 2 {
        if StrictWeak(lt) { SortedByThree(a[..], lt, l, u); AllDone(a[..], lt, l0, u0, l, u); }
        return true, depth;
      }
      s := a[..];
      var r := PartitionAround(a, lt, l, u, i);
      Inside(a[..], s, was, lt, l0, u0, l, u);
      if r.InvalidOrder? { return false, depth; }
      i := r.i;
      ghost var left := i - l < u - i;
      ghost var l1, u1 := l, u;
      var j: nat;
      if i - l < u - i {
        j, i, l := l, i - 1, i + 1;
      } else {
        j, i, u := i + 1, u, i - 1;
      }
      s := a[..];
      var sub; ghost var d;
      sub, d := AuxSort(a, lt, j, i);
      HalfIsOneLess(i - j + 1, u0 - l0 + 1);
      depth := if depth >= d + 1 then depth else d + 1;
      OneSide(a[..], s, was, lt, l0, u0, l1, u1, r.i, j, i, left);
      if !sub { return false, depth; }
    }
    if StrictWeak(lt) { Nothing(a[..], lt, l, u); AllDone(a[..], lt, l0, u0, l, u); }
    return true, depth;
  }

  lemma Untouched<T(!new)>(s: seq<T>, lt: (T, T) -> bool, l: nat, u: int)
    requires u < |s|
    ensures Done(s, lt, l, u, l, u)
  {
  }

  lemma Nothing<T(!new)>(s: seq<T>, lt: (T, T) -> bool, l: nat, u: int)
    requires u <= l && u < |s|
    ensures Sorted(s, lt, l, u)
  {
  }

  lemma SortedByThree<T(!new)>(s: seq<T>, lt: (T, T) -> bool, l: nat, u: nat)
    requires l < u <= l + 2 && u < |s| && !lt(s[(l + u) / 2], s[l]) && !lt(s[u], s[(l + u) / 2]) && !lt(s[u], s[l])
    ensures Sorted(s, lt, l, u)
  {
  }

  // A change inside the range at hand.
  lemma Inside<T(!new)>(s: seq<T>, t: seq<T>, was: seq<T>, lt: (T, T) -> bool, l0: nat, u0: int, l: nat, u: nat)
    requires Permuted(s, t, l, u) && Permuted(t, was, l0, u0) && l0 <= l <= u <= u0
    ensures Permuted(s, was, l0, u0)
    ensures Done(t, lt, l0, u0, l, u) ==> Done(s, lt, l0, u0, l, u)
  {
    Widen(s, t, l, u, l0, u0);
    Trans(s, t, was, l0, u0);
    if Done(t, lt, l0, u0, l, u) { DoneKept(s, t, lt, l0, u0, l, u); }
  }

  lemma PivotWaits<T(!new)>(s: seq<T>, t: seq<T>, lt: (T, T) -> bool, l: nat, u: nat, i: nat)
    requires u < |s| && l + 3 <= u && i == (l + u) / 2 && t == s[i := s[u - 1]][u - 1 := s[i]]
    ensures StrictWeak(lt) && !lt(s[i], s[l]) && !lt(s[u], s[i]) ==> Parted(t, lt, l, u, l, u - 1, t[u - 1])
  {
    Ordered(lt, t[u - 1], t[u - 1]);
  }

  lemma OneSide<T(!new)>(s: seq<T>, t: seq<T>, was: seq<T>, lt: (T, T) -> bool, l0: nat, u0: int, l: nat, u: nat, i: nat, j: nat, k: int, left: bool)
    requires Permuted(s, t, j, k) && Permuted(t, was, l0, u0) && l0 <= l <= i <= u <= u0
    requires if left then j == l && k == i - 1 else j == i + 1 && k == u
    ensures Permuted(s, was, l0, u0)
    ensures Done(t, lt, l0, u0, l, u) && Around(t, lt, l, u, i) && Sorted(s, lt, j, k) ==>
      if left then Done(s, lt, l0, u0, i + 1, u) else Done(s, lt, l0, u0, l, i - 1)
  {
    hide StrictWeak, Around, Done, Sorted;
    Lengths(s, t, j, k);
    Widen(s, t, j, k, l0, u0);
    Trans(s, t, was, l0, u0);
    Widen(s, t, j, k, l, u);
    if Done(t, lt, l0, u0, l, u) && Around(t, lt, l, u, i) && Sorted(s, lt, j, k) {
      DoneKept(s, t, lt, l0, u0, l, u);
      AroundKept(s, t, lt, l, u, i, j, k);
      SideDone(s, lt, l0, u0, l, u, i, left);
    }
  }
}
