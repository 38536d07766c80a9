// A table as a value: its array part, its node vector, and what a key reads as.
module TableState {
  import opened Integers
  import opened TableNodes
  import opened TableSizes

  // 'rank' orders the chains; 'free' is 'lastfree' as an index; 'dummy' tells that the node vector is the
  // shared dummy node.
  datatype Table = Table(arr: seq<Value>, ns: seq<Node>, rank: seq<nat>, free: nat, lsize: nat, dummy: bool)

  // Where a value lives: 'NoCell' is 'luaO_nilobject'.
  datatype Cell = NoCell | InArray(i: nat) | InNode(j: nat)

  const MAXASIZE := 0x8000_0000
  const MAXHBITS := 30
  const EMPTY := Node(Nil, NilKey, 0)

  // A float key with an integer value stands for that integer.
  function Norm(k: Key): (n: Key)
    ensures !n.IntFloat?
  {
    if k.IntFloat? then Int(k.i) else k
  }

  predicate InRange(k: Key, size: nat) { k.Int? && 1 <= k.i <= size }

  // No free node at or after 'lastfree', but for f.
  ghost predicate FreeBut(ns: seq<Node>, free: nat, f: int) {
    free <= |ns| && forall j :: free <= j < |ns| && j != f ==> Used(ns, j)
  }

  ghost predicate Apart(arr: seq<Value>, ns: seq<Node>) {
    forall j :: Used(ns, j) ==> !InRange(ns[j].key, |arr|)
  }

  ghost predicate Valid(t: Table) {
    && Chained(t.ns, t.rank) && |t.ns| == Pow(t.lsize) && t.lsize <= MAXHBITS
    && Apart(t.arr, t.ns) && |t.arr| <= MAXASIZE
    && (if t.dummy then t.ns == [EMPTY] && t.free == 0 else FreeBut(t.ns, t.free, -1))
  }

  lemma SizeBound(t: Table)
    requires Valid(t)
    ensures |t.arr| <= MAXASIZE && 0 < |t.ns| <= MAXCOUNT
  {
    PowMonotone(t.lsize, MAXHBITS);
    PowMax();
  }

  // What the table holds under k.
  ghost function Read(t: Table, k: Key): Value {
    var n := Norm(k);
    if InRange(n, |t.arr|) then t.arr[n.i - 1] else Lookup(t.ns, n)
  }

  ghost predicate SameReads(t: Table, t': Table) {
    forall k :: Read(t', k) == Read(t, k)
  }

  // Only k reads differently, and as v.
  ghost predicate Updated(t: Table, t': Table, k: Key, v: Value) {
    forall k' :: Read(t', k') == if Norm(k') == Norm(k) then v else Read(t, k')
  }

  function LiveArr(arr: seq<Value>, n: nat): set<Key>
    requires n <= |arr| <= MAXASIZE
  {
    set i: nat | i < n && arr[i] != Nil :: Int(i + 1)
  }

  // Keys with a value in the nodes from n on.
  function LiveNodes(ns: seq<Node>, n: nat): set<Key> {
    set j | n <= j < |ns| && ns[j].val != Nil :: ns[j].key
  }

  // The keys that hold a value.
  ghost function Live(t: Table): set<Key>
    requires |t.arr| <= MAXASIZE
  {
    LiveArr(t.arr, |t.arr|) + LiveNodes(t.ns, 0)
  }

  lemma LiveIsRead(t: Table, k: Key)
    requires Valid(t)
    ensures k in Live(t) <==> Read(t, k) != Nil && k == Norm(k)
  {
    if k in LiveNodes(t.ns, 0) {
      var j :| 0 <= j < |t.ns| && t.ns[j].val != Nil && k == t.ns[j].key;
      assert Used(t.ns, j);
      LookupAt(t.ns, t.rank, j);
    }
    if k == Norm(k) && InRange(k, |t.arr|) {
      var i := k.i - 1;
      assert t.arr[i] != Nil ==> Int(i + 1) in LiveArr(t.arr, |t.arr|);
    } else if k == Norm(k) && Has(t.ns, k) {
      var j :| Used(t.ns, j) && t.ns[j].key == k;
      LookupAt(t.ns, t.rank, j);
      assert t.ns[j].val != Nil ==> t.ns[j].key in LiveNodes(t.ns, 0);
    }
  }

  // The table as a map.
  ghost function Contents(t: Table): (m: map<Key, Value>)
    requires |t.arr| <= MAXASIZE
  {
    map k | k in Live(t) :: Read(t, k)
  }

  lemma ReadsContents(t: Table, k: Key)
    requires Valid(t)
    ensures |t.arr| <= MAXASIZE && Read(t, k) == if Norm(k) in Contents(t) then Contents(t)[Norm(k)] else Nil
  {
    hide Live, Valid;
    SizeBound(t);
    LiveIsRead(t, Norm(k));
  }

  lemma UpdatedLive(t: Table, t': Table, k: Key, v: Value, k': Key)
    requires Valid(t) && Valid(t') && Updated(t, t', k, v)
    ensures k' in Live(t') <==> if Norm(k) == k' then v != Nil else k' in Live(t)
  {
    LiveIsRead(t, k');
    LiveIsRead(t', k');
    assert Read(t', k') == if Norm(k') == Norm(k) then v else Read(t, k');
  }

  // An update of what is read is an update of the map.
  lemma UpdatedContents(t: Table, t': Table, k: Key, v: Value)
    requires Valid(t) && Valid(t') && Updated(t, t', k, v)
    ensures Contents(t') == if v == Nil then Contents(t) - {Norm(k)} else Contents(t)[Norm(k) := v]
  {
    var m, m', n := Contents(t), Contents(t'), Norm(k);
    forall k'
      ensures k' in m' <==> if n == k' then v != Nil else k' in m
      ensures k' in m' ==> m'[k'] == if n == k' then v else m[k']
    {
      UpdatedLive(t, t', k, v, k');
      if k' in m' { LiveIsRead(t', k'); }
    }
    MapUpdate(m, m', n, v);
  }

  lemma SameContents(t: Table, t': Table)
    requires Valid(t) && Valid(t') && SameReads(t, t')
    ensures Contents(t') == Contents(t)
  {
    forall k ensures k in Live(t') <==> k in Live(t) {
      LiveIsRead(t, k);
      LiveIsRead(t', k);
    }
  }

  lemma MapUpdate(m: map<Key, Value>, m': map<Key, Value>, n: Key, v: Value)
    requires forall k :: k in m' <==> if n == k then v != Nil else k in m
    requires forall k :: k in m' ==> m'[k] == if n == k then v else m[k]
    ensures m' == if v == Nil then m - {n} else m[n := v]
  {
  }

  // ---- cells ----

  ghost predicate CellOf(t: Table, k: Key, c: Cell) {
    var n := Norm(k);
    match c
    case InArray(i) => InRange(n, |t.arr|) && i == n.i - 1
    case InNode(j) => !InRange(n, |t.arr|) && Used(t.ns, j) && t.ns[j].key == n
    case NoCell => !InRange(n, |t.arr|) && !Has(t.ns, n)
  }

  lemma CellReads(t: Table, k: Key, c: Cell)
    requires Valid(t) && CellOf(t, k, c)
    ensures Read(t, k) == match c { case NoCell => Nil case InArray(i) => t.arr[i] case InNode(j) => t.ns[j].val }
  {
    if c.InNode? { LookupAt(t.ns, t.rank, c.j); }
  }

  // Assigning through the pointer to a cell.
  function Assign(t: Table, c: Cell, v: Value): Table {
    match c
    case InArray(i) => if i < |t.arr| then t.(arr := t.arr[i := v]) else t
    case InNode(j) => if j < |t.ns| then t.(ns := t.ns[j := t.ns[j].(val := v)]) else t
    case NoCell => t
  }

  lemma SetNodeChained(ns: seq<Node>, rank: seq<nat>, j: nat, v: Value)
    requires Chained(ns, rank) && Used(ns, j)
    ensures Chained(ns[j := ns[j].(val := v)], rank)
  {
    var ns' := ns[j := ns[j].(val := v)];
    assert forall i :: 0 <= i < |ns| ==> ns'[i].key == ns[i].key && ns'[i].next == ns[i].next;
    assert forall i :: Used(ns', i) <==> Used(ns, i);
    assert Joined(ns') by { assert forall a, b :: Linked(ns', a, b) <==> Linked(ns, a, b); }
    assert Placed(ns') by { assert forall p :: InMainPos(ns', p) <==> InMainPos(ns, p); }
    forall i | Used(ns', i) ensures OnChain(ns', rank, MainPos(ns'[i].key, |ns'|), i) {
      SameLinks(ns, ns', rank, MainPos(ns[i].key, |ns|), i);
    }
  }

  // Two node vectors with the same keys, and the same values but for node j.
  lemma SameKeysLookup(ns: seq<Node>, ns': seq<Node>, rank: seq<nat>, j: nat, k: Key)
    requires Chained(ns, rank) && Chained(ns', rank) && Used(ns, j) && |ns'| == |ns|
    requires forall i :: 0 <= i < |ns| ==> ns'[i].key == ns[i].key && (i == j || ns'[i].val == ns[i].val)
    ensures Lookup(ns', k) == if k == ns[j].key then ns'[j].val else Lookup(ns, k)
  {
    if i :| Used(ns, i) && ns[i].key == k {
      assert Used(ns', i);
      LookupAt(ns, rank, i);
      LookupAt(ns', rank, i);
    } else {
      assert forall i :: Used(ns', i) ==> Used(ns, i);
    }
  }

  lemma SetNodeLookup(ns: seq<Node>, rank: seq<nat>, j: nat, v: Value)
    requires Chained(ns, rank) && Used(ns, j)
    ensures var ns' := ns[j := ns[j].(val := v)];
      Lookup(ns', ns[j].key) == v && SameBut(ns, ns', ns[j].key)
  {
    var ns' := ns[j := ns[j].(val := v)];
    SetNodeChained(ns, rank, j, v);
    forall k ensures Lookup(ns', k) == if k == ns[j].key then v else Lookup(ns, k) {
      SameKeysLookup(ns, ns', rank, j, k);
    }
  }

  // The node vector is replaced by one with the same keys.
  lemma KeysKept(t: Table, ns': seq<Node>, free: nat)
    requires Valid(t) && !t.dummy && |ns'| == |t.ns| && FreeBut(t.ns, free, -1)
    requires forall i :: 0 <= i < |ns'| ==> ns'[i].key == t.ns[i].key
    ensures Apart(t.arr, ns') && FreeBut(ns', free, -1)
  {
    assert forall i :: Used(ns', i) <==> Used(t.ns, i);
  }

  lemma ValidFrom(t: Table)
    requires Chained(t.ns, t.rank) && |t.ns| == Pow(t.lsize) && Apart(t.arr, t.ns) && |t.arr| <= MAXASIZE
    requires !t.dummy && FreeBut(t.ns, t.free, -1) && t.lsize <= MAXHBITS
    ensures Valid(t)
  {
  }

  lemma AssignNodeValid(t: Table, j: nat, v: Value)
    requires Valid(t) && Used(t.ns, j)
    ensures Valid(Assign(t, InNode(j), v))
  {
    var t' := Assign(t, InNode(j), v);
    SetNodeChained(t.ns, t.rank, j, v);
    KeysKept(t, t'.ns, t.free);
    ValidFrom(t');
  }

  lemma AssignNode(t: Table, k: Key, j: nat, v: Value)
    requires Valid(t) && CellOf(t, k, InNode(j))
    ensures Updated(t, Assign(t, InNode(j), v), k, v)
  {
    SetNodeLookup(t.ns, t.rank, j, v);
  }

  lemma AssignReads(t: Table, k: Key, c: Cell, v: Value)
    requires Valid(t) && CellOf(t, k, c) && c != NoCell
    ensures Valid(Assign(t, c, v)) && Updated(t, Assign(t, c, v), k, v)
    ensures Free(Assign(t, c, v)) == Free(t)
  {
    var t' := Assign(t, c, v);
    assert FreeSet(t'.ns) == FreeSet(t.ns);
    if c.InNode? {
      AssignNodeValid(t, c.j, v);
      AssignNode(t, k, c.j, v);
    }
  }

  // Free positions of the hash part; the dummy node is none.
  ghost function Free(t: Table): set<int> {
    if t.dummy then {} else FreeSet(t.ns)
  }

  // ---- inserting a key ----

  // Inserting k finds a place without growing the table.
  ghost predicate HasRoom(t: Table, k: Key) {
    InRange(Norm(k), |t.arr|) || Has(t.ns, Norm(k)) || Free(t) != {}
  }

  // The hash part got a node for k, without a value, and at most one free position was used.
  ghost predicate Inserted(t: Table, t': Table, k: Key, j: nat) {
    && Valid(t') && t'.arr == t.arr && t'.lsize == t.lsize && t'.dummy == t.dummy
    && Used(t'.ns, j) && t'.ns[j].key == k && t'.ns[j].val == Nil
    && SameReads(t, t')
    && |Free(t')| >= |Free(t)| - 1
  }

  // A new key, and where it goes: 'mp' is its main position.
  ghost predicate NewAt(t: Table, k: Key, mp: nat) {
    Valid(t) && !t.dummy && Storable(k) && !InRange(k, |t.arr|) && !Has(t.ns, k) && mp == MainPos(k, |t.ns|)
  }

  // What 'getfreepos' leaves.
  ghost predicate Found(t: Table, free: nat, f: int) {
    free <= t.free && (t.dummy || FreeBut(t.ns, free, f)) && (f >= 0 ==> f == free < |t.ns| && t.ns[f].key == NilKey)
  }

  lemma SameButReads(t: Table, t': Table, k: Key)
    requires Valid(t) && Valid(t') && t'.arr == t.arr && SameBut(t.ns, t'.ns, k) && !Has(t.ns, k)
    requires exists j :: Used(t'.ns, j) && t'.ns[j].key == k && t'.ns[j].val == Nil
    ensures SameReads(t, t')
  {
    var j :| Used(t'.ns, j) && t'.ns[j].key == k && t'.ns[j].val == Nil;
    LookupAt(t'.ns, t'.rank, j);
  }

  lemma InPlaceInserts(t: Table, k: Key, mp: nat)
    requires NewAt(t, k, mp) && t.ns[mp].val == Nil
    ensures Inserted(t, t.(ns := PutInPlace(t.ns, mp, k)), k, mp)
  {
    var t' := t.(ns := PutInPlace(t.ns, mp, k));
    PutInPlaceChained(t.ns, t.rank, mp, k);
    PutInPlaceSame(t.ns, t.rank, mp, k);
    assert Used(t'.ns, mp);
    assert forall j :: Used(t.ns, j) ==> Used(t'.ns, j);
    assert forall j :: Used(t'.ns, j) && j != mp ==> Used(t.ns, j) && t'.ns[j] == t.ns[j];
    SameButReads(t, t', k);
    InsertTakesOne(t.ns, t'.ns, mp);
  }

  lemma AsideInserts(t: Table, k: Key, mp: nat, f: nat)
    requires NewAt(t, k, mp) && t.ns[mp].val != Nil && InMainPos(t.ns, mp) && f < |t.ns| && Found(t, f, f)
    ensures Inserted(t, t.(ns := PutAside(t.ns, mp, f, k), rank := AsideRank(t.rank, mp, f), free := f), k, f)
  {
    var t' := t.(ns := PutAside(t.ns, mp, f, k), rank := AsideRank(t.rank, mp, f), free := f);
    PutAsideChained(t.ns, t.rank, mp, f, k);
    PutAsideSame(t.ns, t.rank, mp, f, k);
    assert Used(t'.ns, f);
    assert forall j :: Used(t.ns, j) ==> Used(t'.ns, j);
    assert forall j :: Used(t'.ns, j) && j != f ==> Used(t.ns, j) && t'.ns[j].key == t.ns[j].key;
    SameButReads(t, t', k);
    InsertTakesOne(t.ns, t'.ns, f);
  }

  lemma DisplaceShape(t: Table, k: Key, mp: nat, f: nat, p: nat)
    requires NewAt(t, k, mp) && Displacing(t.ns, t.rank, mp, f, p, k) && Found(t, f, f)
    ensures Apart(t.arr, Displace(t.ns, mp, f, p, k)) && FreeBut(Displace(t.ns, mp, f, p, k), f, -1)
  {
    var ns' := Displace(t.ns, mp, f, p, k);
    DisplacedRanked(t.ns, t.rank, mp, f, p, k);
    assert Used(t.ns, mp) && ns'[f].key == t.ns[mp].key && ns'[mp].key == k;
    forall j | 0 <= j < |ns'| && j != f && j != mp ensures ns'[j].key == t.ns[j].key && (Used(ns', j) <==> Used(t.ns, j)) { }
  }

  lemma DisplaceValid(t: Table, k: Key, mp: nat, f: nat, p: nat)
    requires NewAt(t, k, mp) && Displacing(t.ns, t.rank, mp, f, p, k) && Found(t, f, f)
    ensures Valid(t.(ns := Displace(t.ns, mp, f, p, k), rank := t.rank[f := t.rank[mp]], free := f))
  {
    DisplaceChained(t.ns, t.rank, mp, f, p, k);
    DisplaceShape(t, k, mp, f, p);
    ValidFrom(t.(ns := Displace(t.ns, mp, f, p, k), rank := t.rank[f := t.rank[mp]], free := f));
  }

  lemma DisplaceInserts(t: Table, k: Key, mp: nat, f: nat, p: nat)
    requires NewAt(t, k, mp) && t.ns[mp].val != Nil && MainPos(t.ns[mp].key, |t.ns|) != mp && Linked(t.ns, p, mp)
    requires f < |t.ns| && Found(t, f, f)
    ensures Inserted(t, t.(ns := Displace(t.ns, mp, f, p, k), rank := t.rank[f := t.rank[mp]], free := f), k, mp)
  {
    var t' := t.(ns := Displace(t.ns, mp, f, p, k), rank := t.rank[f := t.rank[mp]], free := f);
    assert Used(t.ns, mp);
    assert Displacing(t.ns, t.rank, mp, f, p, k);
    DisplaceValid(t, k, mp, f, p);
    DisplaceSame(t.ns, t.rank, mp, f, p, k);
    assert Used(t'.ns, mp);
    SameButReads(t, t', k);
    InsertTakesOne(t.ns, t'.ns, f);
  }

  // ---- counting keys ----

  // The keys of K that are candidates for the array part.
  function IntsOf(K: set<Key>): set<int> {
    set i: Integer | 1 <= i <= MAXASIZE && Int(i) in K
  }

  // The keys of K that an array part of size n does not take.
  function Outside(K: set<Key>, n: nat): set<Key> {
    set k | k in K && !InRange(k, n)
  }

  lemma {:induction false} OutsideSize(K: set<Key>, n: nat)
    requires n <= MAXASIZE
    ensures |K| == |Outside(K, n)| + |Upto(IntsOf(K), n)|
    decreases |K|
  {
    if K == {} {
      assert IntsOf(K) == {};
    } else {
      var k :| k in K;
      var K' := K - {k};
      OutsideSize(K', n);
      if InRange(k, n) {
        assert Outside(K, n) == Outside(K', n);
        assert Upto(IntsOf(K), n) == Upto(IntsOf(K'), n) + {k.i};
      } else {
        assert Outside(K, n) == Outside(K', n) + {k};
        assert Upto(IntsOf(K), n) == Upto(IntsOf(K'), n);
      }
    }
  }

  lemma ArrSize(arr: seq<Value>, n: nat)
    requires n <= |arr| <= MAXASIZE
    ensures |LiveArr(arr, n)| == |IntsOf(LiveArr(arr, n))| <= n
  {
    var K := LiveArr(arr, n);
    OutsideSize(K, MAXASIZE);
    assert Outside(K, MAXASIZE) == {};
    assert Upto(IntsOf(K), MAXASIZE) == IntsOf(K) == Upto(IntsOf(K), n);
    UptoSize(IntsOf(K), n);
  }

  lemma NextArr(arr: seq<Value>, i: nat)
    requires 1 <= i <= |arr| <= MAXASIZE
    ensures LiveArr(arr, i) == LiveArr(arr, i - 1) + if arr[i - 1] != Nil then {Int(i)} else {}
    ensures Int(i) !in LiveArr(arr, i - 1)
  {
    var a, b := LiveArr(arr, i), LiveArr(arr, i - 1) + if arr[i - 1] != Nil then {Int(i)} else {};
    forall k | k in b ensures k in a {
      var x: nat :| x < i && arr[x] != Nil && k == Int(x + 1);
    }
  }

  // Counting one more key.
  lemma CountKey(nums: seq<nat>, K: set<Key>, k: Key, l: nat)
    requires Buckets(nums, IntsOf(K)) && k !in K && (InRange(k, MAXASIZE) ==> IsCeilLog(k.i, l) && l <= MAXABITS)
    ensures Buckets(if InRange(k, MAXASIZE) then nums[l := nums[l] + 1] else nums, IntsOf(K + {k}))
  {
    if InRange(k, MAXASIZE) {
      assert IntsOf(K + {k}) == IntsOf(K) + {k.i};
      BucketsAdd(nums, IntsOf(K), k.i, l);
    } else {
      assert IntsOf(K + {k}) == IntsOf(K);
    }
  }

  lemma NextNode(ns: seq<Node>, rank: seq<nat>, j: nat)
    requires Chained(ns, rank) && j < |ns|
    ensures LiveNodes(ns, j) == LiveNodes(ns, j + 1) + if ns[j].val != Nil then {ns[j].key} else {}
    ensures ns[j].val != Nil ==> Used(ns, j) && ns[j].key !in LiveNodes(ns, j + 1)
  {
    assert ns[j].val != Nil ==> Used(ns, j);
    forall x | j < x < |ns| && ns[x].val != Nil && ns[j].val != Nil ensures ns[x].key != ns[j].key { assert Used(ns, x); }
  }

  // Array part and hash part hold different keys.
  lemma LiveSize(t: Table)
    requires Valid(t)
    ensures |Live(t)| == |LiveArr(t.arr, |t.arr|)| + |LiveNodes(t.ns, 0)|
    ensures forall k :: k in LiveNodes(t.ns, 0) ==> k !in LiveArr(t.arr, |t.arr|)
  {
    var a, b := LiveArr(t.arr, |t.arr|), LiveNodes(t.ns, 0);
    forall k | k in b ensures k !in a {
      var j :| 0 <= j < |t.ns| && t.ns[j].val != Nil && t.ns[j].key == k;
      assert Used(t.ns, j);
    }
    assert a !! b;
  }

  // The live keys counted when the hash part was walked down to node i.
  ghost function LiveFrom(t: Table, i: nat): set<Key>
    requires |t.arr| <= MAXASIZE
  {
    LiveArr(t.arr, |t.arr|) + LiveNodes(t.ns, i)
  }

  lemma NextLive(t: Table, i: nat)
    requires Valid(t) && i < |t.ns|
    ensures LiveFrom(t, i) == LiveFrom(t, i + 1) + if t.ns[i].val != Nil then {t.ns[i].key} else {}
    ensures |LiveNodes(t.ns, i)| == |LiveNodes(t.ns, i + 1)| + if t.ns[i].val != Nil then 1 else 0
    ensures t.ns[i].val != Nil ==> t.ns[i].key !in LiveFrom(t, i + 1)
  {
    LiveSize(t);
    NextNode(t.ns, t.rank, i);
    NodeIsLive(t.ns, i);
  }

  lemma NodeIsLive(ns: seq<Node>, i: nat)
    requires i < |ns|
    ensures ns[i].val != Nil ==> ns[i].key in LiveNodes(ns, 0)
  {
  }

  lemma NoneCounted(arr: seq<Value>, nums: seq<nat>)
    requires |nums| == MAXABITS + 1 && (forall l :: 0 <= l < |nums| ==> nums[l] == 0) && |arr| <= MAXASIZE
    ensures LiveArr(arr, 0) == {} && Buckets(nums, IntsOf(LiveArr(arr, 0)))
  {
    assert LiveArr(arr, 0) == {};
  }

  lemma ArrCounted(t: Table)
    requires Valid(t)
    ensures |t.arr| <= MAXASIZE
    ensures LiveFrom(t, |t.ns|) == LiveArr(t.arr, |t.arr|) && LiveFrom(t, 0) == Live(t) && LiveNodes(t.ns, |t.ns|) == {}
    ensures |LiveArr(t.arr, |t.arr|)| == |IntsOf(LiveArr(t.arr, |t.arr|))|
  {
    ArrSize(t.arr, |t.arr|);
    assert LiveNodes(t.ns, |t.ns|) == {};
  }

  lemma {:induction false} NodesSize(ns: seq<Node>, n: nat)
    requires n <= |ns|
    ensures |LiveNodes(ns, n)| <= |ns| - n
    decreases |ns| - n
  {
    if n == |ns| {
      assert LiveNodes(ns, n) == {};
    } else {
      NodesSize(ns, n + 1);
      assert LiveNodes(ns, n) <= LiveNodes(ns, n + 1) + {ns[n].key};
      SubsetSize(LiveNodes(ns, n), LiveNodes(ns, n + 1) + {ns[n].key});
    }
  }

  lemma CountBound(t: Table)
    requires Valid(t)
    ensures |Live(t)| <= |t.arr| + |t.ns|
  {
    LiveSize(t);
    ArrSize(t.arr, |t.arr|);
    NodesSize(t.ns, 0);
  }

  // The counts of 'rehash', with the extra key ek.
  lemma RehashCounts(t: Table, ek: Key)
    requires Valid(t) && CellOf(t, ek, NoCell) && Norm(ek) == ek
    ensures ek !in Live(t) && |IntsOf(Live(t) + {ek})| <= |Live(t) + {ek}| == |Live(t)| + 1 <= |t.arr| + |t.ns| + 1
    ensures |Live(t)| == |LiveArr(t.arr, |t.arr|)| + |LiveNodes(t.ns, 0)|
  {
    LiveIsRead(t, ek);
    LiveSize(t);
    CountBound(t);
    OutsideSize(Live(t) + {ek}, MAXASIZE);
    assert Upto(IntsOf(Live(t) + {ek}), MAXASIZE) == IntsOf(Live(t) + {ek});
  }

  // The hash part has a node for each key that the array part does not take.
  lemma RehashFits(t: Table, ek: Key, asize: nat)
    requires |t.arr| <= MAXASIZE && asize <= MAXASIZE && ek !in Live(t)
    ensures |Live(t) + {ek}| - |Upto(IntsOf(Live(t) + {ek}), asize)|
      == |Outside(Live(t), asize)| + if InRange(ek, asize) then 0 else 1
  {
    var K, o := Live(t) + {ek}, Outside(Live(t), asize);
    OutsideSize(K, asize);
    assert Outside(K, asize) == if InRange(ek, asize) then o else o + {ek};
  }

  // ---- rebuilding the table ----

  function Positions(t: Table): nat { |t.arr| + |t.ns| }

  // A table grows only when it is full, and then has at most two positions for each key it holds and for
  // the one to come.
  ghost predicate GrownFor(t: Table, t': Table)
    requires |t.arr| <= MAXASIZE
  {
    Positions(t') <= Positions(t) || Positions(t') <= 2 * |Live(t)| + 2
  }

  lemma RehashGrowth(t: Table, ek: Key, asize: nat, nsize: nat)
    requires |t.arr| <= MAXASIZE && asize <= MAXASIZE && ek !in Live(t) && IsOptimal(IntsOf(Live(t) + {ek}), asize)
    requires nsize == 1 || nsize < 2 * (|Live(t) + {ek}| - |Upto(IntsOf(Live(t) + {ek}), asize)|)
    ensures asize + nsize <= 2 * |Live(t)| + 2
  {
    hide Live, IsOptimal, IntsOf;
    var S := IntsOf(Live(t) + {ek});
    OptimalIsHalfFull(S, asize);
    OutsideSize(Live(t) + {ek}, asize);
  }

  lemma ContentsSize(t: Table)
    requires |t.arr| <= MAXASIZE
    ensures |Contents(t)| == |Live(t)|
  {
    hide Live;
    assert Contents(t).Keys == Live(t);
  }

  ghost function Slack(t0: Table, nasize: nat, nhsize: nat): int
    requires |t0.arr| <= MAXASIZE
  {
    nhsize - |Outside(Live(t0), nasize)|
  }

  // While entries of t0 are put into the new t: room is left for all that are still missing.
  ghost predicate Refilling(t0: Table, t: Table, nasize: nat, nhsize: nat) {
    && |t0.arr| <= MAXASIZE && |t.arr| == nasize <= MAXASIZE
    && (forall k :: Read(t, k) == Nil || Read(t, k) == Read(t0, k))
    && |Free(t)| >= |Outside(Live(t0), nasize) - Live(t)| + Slack(t0, nasize, nhsize) >= 0
    && Slack(t0, nasize, nhsize) >= 0
  }

  lemma RefillRoom(t0: Table, t: Table, nasize: nat, nhsize: nat, k: Key)
    requires Valid(t0) && Valid(t) && Refilling(t0, t, nasize, nhsize) && k in Live(t0)
    ensures HasRoom(t, k)
  {
    LiveIsRead(t0, k);
    if !InRange(k, nasize) {
      if k in Live(t) { LiveIsRead(t, k); } else { assert k in Outside(Live(t0), nasize) - Live(t); }
    }
  }

  // Free positions after v was stored under k in t.
  ghost predicate FreeAfter(t: Table, t': Table, k: Key) {
    |Free(t')| >= |Free(t)| - if InRange(Norm(k), |t.arr|) || Read(t, k) != Nil then 0 else 1
  }

  lemma PendingAfter(t0: Table, t: Table, t': Table, nasize: nat, nhsize: nat, k: Key)
    requires Valid(t0) && Valid(t) && Refilling(t0, t, nasize, nhsize) && k in Live(t0) && Valid(t') && |t'.arr| == |t.arr|
    requires Updated(t, t', k, Read(t0, k)) && FreeAfter(t, t', k)
    ensures |Free(t')| >= |Outside(Live(t0), nasize) - Live(t')| + Slack(t0, nasize, nhsize)
  {
    LiveIsRead(t0, k);
    LiveIsRead(t, k);
    var v := Read(t0, k);
    var p, p' := Outside(Live(t0), nasize) - Live(t), Outside(Live(t0), nasize) - Live(t');
    forall x ensures x in p' <==> x in p && x != k { UpdatedLive(t, t', k, v, x); }
    assert p' == p - {k};
  }

  lemma RefillReads(t0: Table, t: Table, t': Table, k: Key)
    requires Updated(t, t', k, Read(t0, k))
    requires forall x :: Read(t, x) == Nil || Read(t, x) == Read(t0, x)
    ensures forall x :: Read(t', x) == Nil || Read(t', x) == Read(t0, x)
    ensures Carried(t0, t, t')
    ensures Read(t', k) == Read(t0, k)
  {
    forall x
      ensures Read(t', x) == Nil || Read(t', x) == Read(t0, x)
      ensures Read(t, x) == Read(t0, x) ==> Read(t', x) == Read(t0, x)
    {
      assert Norm(x) == Norm(k) ==> Read(t0, x) == Read(t0, k);
    }
  }

  // What t has right, t' has right.
  ghost predicate Carried(t0: Table, t: Table, t': Table) {
    forall x :: Read(t, x) == Read(t0, x) ==> Read(t', x) == Read(t0, x)
  }

  lemma RefillStep(t0: Table, t: Table, t': Table, nasize: nat, nhsize: nat, k: Key)
    requires Valid(t0) && Valid(t) && Refilling(t0, t, nasize, nhsize) && k in Live(t0) && Valid(t') && |t'.arr| == |t.arr|
    requires Updated(t, t', k, Read(t0, k)) && FreeAfter(t, t', k)
    ensures Refilling(t0, t', nasize, nhsize) && Carried(t0, t, t') && Read(t', k) == Read(t0, k)
  {
    PendingAfter(t0, t, t', nasize, nhsize, k);
    RefillReads(t0, t, t', k);
  }

  // The first n entries of the old array part are back.
  ghost predicate ArrBack(t0: Table, t: Table, n: int) {
    forall i :: 0 <= i < |t0.arr| <= MAXASIZE && i < n ==> Read(t, Int(i + 1)) == t0.arr[i]
  }

  // The entries of the old nodes from n on are back.
  ghost predicate NodesBack(t0: Table, t: Table, n: int) {
    forall j :: 0 <= j < |t0.ns| && n <= j && t0.ns[j].val != Nil ==> Read(t, t0.ns[j].key) == t0.ns[j].val
  }

  lemma ArrCarried(t0: Table, t: Table, t': Table, n: int)
    requires Valid(t0) && Carried(t0, t, t') && ArrBack(t0, t, n)
    ensures ArrBack(t0, t', n)
  {
    forall i | 0 <= i < |t0.arr| && i < n ensures Read(t', Int(i + 1)) == t0.arr[i] {
      assert Read(t0, Int(i + 1)) == t0.arr[i];
    }
  }

  lemma NodesCarried(t0: Table, t: Table, t': Table, n: int)
    requires Valid(t0) && Carried(t0, t, t') && NodesBack(t0, t, n)
    ensures NodesBack(t0, t', n)
  {
    forall j | 0 <= j < |t0.ns| && n <= j && t0.ns[j].val != Nil ensures Read(t', t0.ns[j].key) == t0.ns[j].val {
      LiveNode(t0, j);
    }
  }

  lemma LiveNode(t: Table, j: nat)
    requires Valid(t) && j < |t.ns| && t.ns[j].val != Nil
    ensures Used(t.ns, j) && t.ns[j].key in Live(t) && Norm(t.ns[j].key) == t.ns[j].key && !InRange(t.ns[j].key, |t.arr|)
    ensures Read(t, t.ns[j].key) == t.ns[j].val
  {
    assert Used(t.ns, j);
    LookupAt(t.ns, t.rank, j);
    assert t.ns[j].key in LiveNodes(t.ns, 0);
  }

  // Storing back what old node j holds.
  lemma NodeRoom(t0: Table, t: Table, nasize: nat, nhsize: nat, j: nat)
    requires Valid(t0) && Valid(t) && Refilling(t0, t, nasize, nhsize) && j < |t0.ns| && t0.ns[j].val != Nil
    ensures HasRoom(t, t0.ns[j].key) && Read(t0, t0.ns[j].key) == t0.ns[j].val
    ensures !t0.ns[j].key.NilKey? && !t0.ns[j].key.NaN?
  {
    LiveNode(t0, j);
    RefillRoom(t0, t, nasize, nhsize, t0.ns[j].key);
  }

  lemma NodeBack(t0: Table, t: Table, t': Table, nasize: nat, nhsize: nat, j: nat)
    requires Valid(t0) && Valid(t) && Refilling(t0, t, nasize, nhsize) && j < |t0.ns| && t0.ns[j].val != Nil && Valid(t')
    requires |t'.arr| == |t.arr| && Updated(t, t', t0.ns[j].key, t0.ns[j].val) && FreeAfter(t, t', t0.ns[j].key)
    requires ArrBack(t0, t, |t0.arr|) && NodesBack(t0, t, j + 1)
    ensures Refilling(t0, t', nasize, nhsize) && ArrBack(t0, t', |t0.arr|) && NodesBack(t0, t', j)
  {
    LiveNode(t0, j);
    RefillStep(t0, t, t', nasize, nhsize, t0.ns[j].key);
    ArrCarried(t0, t, t', |t0.arr|);
    NodesCarried(t0, t, t', j + 1);
  }

  // Storing back entry i of the vanishing slice.
  lemma SlotRoom(t0: Table, t: Table, nasize: nat, nhsize: nat, i: nat)
    requires Valid(t0) && Valid(t) && Refilling(t0, t, nasize, nhsize) && i < |t0.arr|
    ensures Read(t0, Int(i + 1)) == t0.arr[i] && (t0.arr[i] != Nil ==> HasRoom(t, Int(i + 1)))
    ensures t0.arr[i] == Nil ==> Read(t, Int(i + 1)) == Nil
  {
    hide Valid, Live, LiveArr, LiveNodes, Free;
    LiveIsRead(t0, Int(i + 1));
    if t0.arr[i] != Nil { RefillRoom(t0, t, nasize, nhsize, Int(i + 1)); }
  }

  lemma SlotBack(t0: Table, t: Table, t': Table, nasize: nat, nhsize: nat, i: nat)
    requires Valid(t0) && Valid(t) && Refilling(t0, t, nasize, nhsize) && i < |t0.arr| && t0.arr[i] != Nil && Valid(t')
    requires |t'.arr| == |t.arr| && Updated(t, t', Int(i + 1), t0.arr[i]) && FreeAfter(t, t', Int(i + 1)) && ArrBack(t0, t, i)
    ensures Refilling(t0, t', nasize, nhsize) && ArrBack(t0, t', i + 1)
  {
    hide Valid, Refilling, Live, LiveArr, LiveNodes, Free;
    LiveIsRead(t0, Int(i + 1));
    RefillStep(t0, t, t', nasize, nhsize, Int(i + 1));
    ArrCarried(t0, t, t', i);
  }

  // All entries are back.
  lemma Refilled(t0: Table, t: Table, nasize: nat, nhsize: nat)
    requires Valid(t0) && Valid(t) && Refilling(t0, t, nasize, nhsize)
    requires ArrBack(t0, t, |t0.arr|) && NodesBack(t0, t, 0)
    ensures SameReads(t0, t) && |Free(t)| >= Slack(t0, nasize, nhsize)
  {
    forall k ensures Read(t, k) == Read(t0, k) {
      var n := Norm(k);
      assert Read(t, k) == Read(t, n) && Read(t0, k) == Read(t0, n);
      if Read(t0, n) != Nil {
        if InRange(n, |t0.arr|) {
          assert Read(t, Int((n.i - 1) + 1)) == t0.arr[n.i - 1];
        } else {
          var j :| Used(t0.ns, j) && t0.ns[j].key == n;
          LookupAt(t0.ns, t0.rank, j);
        }
      }
    }
  }

  // An empty node vector.
  ghost predicate Blank(t: Table) {
    && (forall j :: 0 <= j < |t.ns| ==> t.ns[j] == EMPTY) && |t.rank| == |t.ns| == Pow(t.lsize) && t.lsize <= MAXHBITS
    && (if t.dummy then |t.ns| == 1 && t.free == 0 else t.free == |t.ns|)
    && |t.arr| <= MAXASIZE
  }

  lemma BlankReads(t: Table, k: Key)
    requires Blank(t)
    ensures Valid(t) && Read(t, k) == (if InRange(Norm(k), |t.arr|) then t.arr[Norm(k).i - 1] else Nil)
    ensures !t.dummy ==> |Free(t)| == |t.ns|
  {
    if !t.dummy {
      AllFree(t.ns, |t.ns|);
      assert FreeSet(t.ns) == FirstFree(t.ns, |t.ns|);
    }
  }

  // The old array part, cut or extended to nasize, and a new node vector.
  ghost predicate Restarted(t0: Table, t: Table, nasize: nat, nhsize: nat) {
    && Blank(t) && |t.arr| == nasize && (if nhsize == 0 then t.dummy else !t.dummy && |t.ns| >= nhsize)
    && forall i :: 0 <= i < nasize ==> t.arr[i] == if i < |t0.arr| then t0.arr[i] else Nil
  }

  lemma RefillStart(t0: Table, t: Table, nasize: nat, nhsize: nat)
    requires Valid(t0) && Restarted(t0, t, nasize, nhsize) && |Outside(Live(t0), nasize)| <= nhsize
    ensures Valid(t) && Refilling(t0, t, nasize, nhsize)
    ensures ArrBack(t0, t, nasize)
  {
    BlankReads(t, NilKey);
    forall k ensures Read(t, k) == Nil || Read(t, k) == Read(t0, k) { BlankReads(t, k); }
    SubsetSize(Outside(Live(t0), nasize) - Live(t), Outside(Live(t0), nasize));
  }
}
