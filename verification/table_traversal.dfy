// Traversing a table with 'luaH_next', and the borders that 'luaH_getn' finds.
module TableTraversal {
  import opened Integers
  import opened TableNodes
  import opened TableSizes
  import opened TableState

  // ---- positions: the array part, then the nodes ----

  function KeyAt(t: Table, p: nat): Key
    requires p < Positions(t) && |t.arr| <= MAXASIZE
  {
    if p < |t.arr| then Int(p + 1) else t.ns[p - |t.arr|].key
  }

  function ValueAt(t: Table, p: nat): Value
    requires p < Positions(t)
  {
    if p < |t.arr| then t.arr[p] else t.ns[p - |t.arr|].val
  }

  // k is at position p.
  ghost predicate At(t: Table, k: Key, p: nat) {
    |t.arr| <= MAXASIZE && p < Positions(t) && KeyAt(t, p) == k != NilKey
  }

  ghost predicate Known(t: Table, k: Key) { exists p: nat :: At(t, k, p) }

  lemma AtUnique(t: Table, p: nat, q: nat, k: Key)
    requires Valid(t) && At(t, k, p) && At(t, k, q)
    ensures p == q
  {
    if p >= |t.arr| { assert Used(t.ns, p - |t.arr|); }
    if q >= |t.arr| { assert Used(t.ns, q - |t.arr|); }
  }

  lemma AtReads(t: Table, k: Key, p: nat)
    requires Valid(t) && At(t, k, p)
    ensures Norm(k) == k && Read(t, k) == ValueAt(t, p)
  {
    if p >= |t.arr| {
      assert Used(t.ns, p - |t.arr|);
      LookupAt(t.ns, t.rank, p - |t.arr|);
    }
  }

  lemma NodeHasKey(t: Table, j: nat)
    requires Valid(t) && j < |t.ns| && t.ns[j].val != Nil
    ensures t.ns[j].key != NilKey
  {
  }

  lemma LiveKnown(t: Table, k: Key) returns (p: nat)
    requires Valid(t) && Norm(k) == k && Read(t, k) != Nil
    ensures At(t, k, p) && ValueAt(t, p) == Read(t, k)
  {
    if InRange(k, |t.arr|) {
      p := k.i - 1;
    } else {
      var j :| Used(t.ns, j) && t.ns[j].key == k;
      LookupAt(t.ns, t.rank, j);
      p := |t.arr| + j;
    }
  }

  // ---- one step ----

  datatype Step = Entry(key: Key, val: Value) | Done | BadKey

  // i is where the search after key k starts: 'findindex'.
  ghost predicate Starts(t: Table, k: Key, i: nat) {
    if k == NilKey then i == 0 else i > 0 && At(t, k, i - 1)
  }

  // The first entry with a value from position i on.
  ghost predicate FirstLive(t: Table, i: nat, r: Step) {
    match r
    case Entry(k, v) =>
      exists p: nat :: i <= p && At(t, k, p) && ValueAt(t, p) == v != Nil && NoneLive(t, i, p)
    case Done => NoneLive(t, i, Positions(t))
    case BadKey => false
  }

  ghost predicate NoneLive(t: Table, i: nat, n: nat) {
    forall q: nat :: i <= q < n && q < Positions(t) ==> ValueAt(t, q) == Nil
  }

  // What 'luaH_next' gives after k.
  ghost predicate NextOf(t: Table, k: Key, r: Step) {
    if k != NilKey && !Known(t, k) then r == BadKey
    else exists i: nat :: Starts(t, k, i) && FirstLive(t, i, r)
  }

  lemma NextUnknown(t: Table, k: Key)
    requires k != NilKey && !Known(t, k)
    ensures NextOf(t, k, BadKey)
  {
  }

  lemma NextFound(t: Table, k: Key, i: nat, p: nat)
    requires Valid(t) && Starts(t, k, i) && i <= p < Positions(t) && ValueAt(t, p) != Nil && NoneLive(t, i, p)
    ensures NextOf(t, k, Entry(KeyAt(t, p), ValueAt(t, p)))
  {
    if p >= |t.arr| { NodeHasKey(t, p - |t.arr|); }
    assert At(t, KeyAt(t, p), p);
    assert FirstLive(t, i, Entry(KeyAt(t, p), ValueAt(t, p)));
  }

  lemma NextNone(t: Table, k: Key, i: nat)
    requires Starts(t, k, i) && NoneLive(t, i, Positions(t))
    ensures NextOf(t, k, Done)
  {
    assert FirstLive(t, i, Done);
  }

  // ---- whole traversals ----

  // Values were overwritten, possibly with nil, but no key was added.
  ghost predicate SameShape(t: Table, t': Table) {
    && |t'.arr| == |t.arr| && |t'.ns| == |t.ns|
    && forall j :: 0 <= j < |t.ns| ==> t'.ns[j].key == t.ns[j].key
  }

  // The key that call i of 'luaH_next' starts from.
  function From(steps: seq<Step>, i: nat): Key
    requires i <= |steps|
  {
    if i == 0 || !steps[i - 1].Entry? then NilKey else steps[i - 1].key
  }

  // Call i of a traversal sees table ts[i]; only the last one may be no entry.
  ghost predicate Call(ts: seq<Table>, steps: seq<Step>, i: nat)
    requires i < |ts| == |steps|
  {
    && Valid(ts[i]) && NextOf(ts[i], From(steps, i), steps[i])
    && (i + 1 < |ts| ==> steps[i].Entry? && SameShape(ts[i], ts[i + 1]))
  }

  // A traversal: between calls, entries may be overwritten or set to nil.
  ghost predicate Walk(ts: seq<Table>, steps: seq<Step>) {
    |ts| == |steps| > 0 && forall i: nat :: i < |ts| ==> Call(ts, steps, i)
  }

  lemma AtKept(t: Table, t': Table, k: Key, p: nat)
    requires At(t, k, p) && SameShape(t, t')
    ensures At(t', k, p)
  {
  }

  // Where the search of call i starts.
  ghost predicate StartOf(ts: seq<Table>, steps: seq<Step>, i: nat, s: nat) {
    i < |ts| == |steps| && Starts(ts[i], From(steps, i), s) && FirstLive(ts[i], s, steps[i])
  }

  // Every call knows its key, and an entry it yields lies at or after its start.
  lemma {:induction false} Begins(ts: seq<Table>, steps: seq<Step>, i: nat) returns (s: nat)
    requires Walk(ts, steps) && i < |ts|
    ensures StartOf(ts, steps, i, s)
    decreases i
  {
    hide Valid;
    assert Call(ts, steps, i);
    if i > 0 {
      assert Call(ts, steps, i - 1);
      var s0 := Begins(ts, steps, i - 1);
      var p := EntryAt(ts[i - 1], s0, steps[i - 1]);
      AtKept(ts[i - 1], ts[i], steps[i - 1].key, p);
      assert Known(ts[i], steps[i - 1].key);
    }
    s :| Starts(ts[i], From(steps, i), s) && FirstLive(ts[i], s, steps[i]);
  }

  lemma EntryAt(t: Table, i: nat, r: Step) returns (p: nat)
    requires FirstLive(t, i, r) && r.Entry?
    ensures i <= p && At(t, r.key, p) && ValueAt(t, p) == r.val != Nil && NoneLive(t, i, p)
  {
    p :| i <= p && At(t, r.key, p) && ValueAt(t, p) == r.val != Nil && NoneLive(t, i, p);
  }

  // No call of a traversal fails.
  lemma NoBadKey(ts: seq<Table>, steps: seq<Step>, i: nat)
    requires Walk(ts, steps) && i < |ts|
    ensures steps[i] != BadKey
  {
    var _ := Begins(ts, steps, i);
  }

  // The next call starts right after the entry of this one.
  lemma NextStart(ts: seq<Table>, steps: seq<Step>, i: nat, s: nat, s': nat)
    requires Walk(ts, steps) && i + 1 < |ts| && StartOf(ts, steps, i, s) && StartOf(ts, steps, i + 1, s')
    ensures s < s' && At(ts[i], steps[i].key, s' - 1) && NoneLive(ts[i], s, s' - 1) && ValueAt(ts[i], s' - 1) == steps[i].val
    ensures SameShape(ts[i], ts[i + 1])
  {
    hide Valid, NoneLive;
    assert Call(ts, steps, i) && Call(ts, steps, i + 1);
    var p := EntryAt(ts[i], s, steps[i]);
    AtKept(ts[i], ts[i + 1], steps[i].key, p);
    AtUnique(ts[i + 1], p, s' - 1, steps[i].key);
  }

  lemma {:induction false} StartsRise(ts: seq<Table>, steps: seq<Step>, i: nat, j: nat, s: nat, s': nat)
    requires Walk(ts, steps) && i < j < |ts| && StartOf(ts, steps, i, s) && StartOf(ts, steps, j, s')
    ensures s < s'
    decreases j
  {
    hide Walk, StartOf, At;
    if i + 1 == j {
      NextStart(ts, steps, i, s, s');
    } else {
      var m := Begins(ts, steps, j - 1);
      StartsRise(ts, steps, i, j - 1, s, m);
      NextStart(ts, steps, j - 1, m, s');
    }
  }

  lemma {:induction false} ShapeKept(ts: seq<Table>, steps: seq<Step>, i: nat, j: nat)
    requires Walk(ts, steps) && i <= j < |ts|
    ensures SameShape(ts[i], ts[j])
    decreases j
  {
    hide Valid, NextOf;
    if i < j {
      ShapeKept(ts, steps, i, j - 1);
      assert Call(ts, steps, j - 1);
    }
  }

  // No key is yielded twice.
  lemma YieldedOnce(ts: seq<Table>, steps: seq<Step>, i: nat, j: nat)
    requires Walk(ts, steps) && i < j < |ts| && steps[i].Entry? && steps[j].Entry?
    ensures steps[i].key != steps[j].key
  {
    hide Valid, NextOf, SameShape, At, NoneLive;
    var s := Begins(ts, steps, i);
    var n := Begins(ts, steps, i + 1);
    NextStart(ts, steps, i, s, n);
    var s' := n;
    if i + 1 < j {
      s' := Begins(ts, steps, j);
      StartsRise(ts, steps, i + 1, j, n, s');
    }
    var q := EntryAt(ts[j], s', steps[j]);
    ShapeKept(ts, steps, i, j);
    AtKept(ts[i], ts[j], steps[i].key, n - 1);
    assert Call(ts, steps, j);
    if steps[i].key == steps[j].key { AtUnique(ts[j], n - 1, q, steps[j].key); }
  }

  // What is yielded was in the table when it was yielded.
  lemma YieldedIsLive(ts: seq<Table>, steps: seq<Step>, i: nat)
    requires Walk(ts, steps) && i < |ts| && steps[i].Entry?
    ensures Read(ts[i], steps[i].key) == steps[i].val != Nil && Norm(steps[i].key) == steps[i].key
  {
    hide Valid, NextOf;
    var s := Begins(ts, steps, i);
    var p := EntryAt(ts[i], s, steps[i]);
    assert Call(ts, steps, i);
    AtReads(ts[i], steps[i].key, p);
  }

  // The call that passes position p: a key there that has a value is yielded by it.
  lemma {:induction false} Passes(ts: seq<Table>, steps: seq<Step>, k: Key, p: nat, i: nat, s: nat) returns (j: nat)
    requires Walk(ts, steps) && steps[|ts| - 1] == Done && StartOf(ts, steps, i, s)
    requires At(ts[i], k, p) && s <= p
    requires forall x: nat :: i <= x < |ts| ==> HasValue(ts, x, k)
    ensures i <= j < |ts| && steps[j] == Entry(k, Read(ts[j], k))
    decreases |ts| - i
  {
    hide Valid, Read, NextOf, SameShape;
    assert HasValue(ts, i, k);
    assert Call(ts, steps, i);
    AtReads(ts[i], k, p);
    if i + 1 < |ts| {
      var n := Begins(ts, steps, i + 1);
      NextStart(ts, steps, i, s, n);
      if p < n {
        assert p == n - 1;
        j := i;
      } else {
        AtKept(ts[i], ts[i + 1], k, p);
        j := Passes(ts, steps, k, p, i + 1, n);
      }
    }
  }

  ghost predicate HasValue(ts: seq<Table>, i: nat, k: Key)
    requires i < |ts|
  {
    Read(ts[i], k) != Nil
  }

  // Every key that has a value throughout is yielded, with the value it has then.
  lemma YieldsAll(ts: seq<Table>, steps: seq<Step>, k: Key) returns (j: nat)
    requires Walk(ts, steps) && steps[|ts| - 1] == Done && Norm(k) == k
    requires forall i: nat :: i < |ts| ==> HasValue(ts, i, k)
    ensures j < |ts| && steps[j] == Entry(k, Read(ts[j], k))
  {
    hide Valid, Read, NextOf, SameShape;
    var s := Begins(ts, steps, 0);
    assert HasValue(ts, 0, k);
    assert Call(ts, steps, 0);
    var p := LiveKnown(ts[0], k);
    j := Passes(ts, steps, k, p, 0, s);
  }

  // A traversal makes at most one call for each position, and one more.
  lemma {:induction false} WalkIsShort(ts: seq<Table>, steps: seq<Step>, i: nat, s: nat)
    requires Walk(ts, steps) && i < |ts| && StartOf(ts, steps, i, s)
    ensures i <= s && s <= Positions(ts[i])
    decreases i
  {
    hide Valid, NextOf, Walk;
    if i > 0 {
      var s0 := Begins(ts, steps, i - 1);
      WalkIsShort(ts, steps, i - 1, s0);
      NextStart(ts, steps, i - 1, s0, s);
    }
  }

  // ---- borders ----

  // What '#t' may be.
  ghost predicate Border(t: Table, n: Integer) {
    && n >= 0 && (n == 0 || Read(t, Int(n)) != Nil)
    && n < 0x7fff_ffff_ffff_ffff && Read(t, Int(n + 1)) == Nil
  }

  function FirstInts(n: Integer): set<Key>
    requires n >= 0
  {
    if n == 0 then {} else FirstInts(n - 1) + {Int(n)}
  }

  lemma {:induction false} FirstIntsSize(n: Integer)
    requires n >= 0
    ensures |FirstInts(n)| == n
    ensures forall k :: k in FirstInts(n) <==> k.Int? && 1 <= k.i <= n
    decreases n
  {
    if n > 0 { FirstIntsSize(n - 1); }
  }

  // A table has no more keys than positions.
  lemma FullPrefix(t: Table, n: Integer)
    requires Valid(t) && n >= 0 && forall i: Integer :: 1 <= i <= n ==> Read(t, Int(i)) != Nil
    ensures n <= |t.arr| + |t.ns|
  {
    FirstIntsSize(n);
    forall k | k in FirstInts(n) ensures k in Live(t) { LiveIsRead(t, k); }
    SubsetSize(FirstInts(n), Live(t));
    CountBound(t);
  }
}
