// The hash part of a table: a chained scatter table with Brent's variation.
module TableNodes {
  import TableSizes
  import opened Integers

  // Stored keys are integers, keys hashed modulo the size (strings, booleans), and keys hashed modulo
  // an odd number (pointers, floats). IntFloat and NaN are float keys that a table never stores.
  datatype Key =
    | NilKey
    | NaN
    | IntFloat(i: Integer)
    | Int(i: Integer)
    | Pow2(id: nat, hash: nat)
    | Mod(id: nat, hash: nat)

  datatype Value = Nil | Val(v: int)

  datatype Node = Node(val: Value, key: Key, next: int)

  predicate Storable(k: Key) { k.Int? || k.Pow2? || k.Mod? }

  // 'mainposition' as an index; 'lmod' of a negative integer is that of its two's complement.
  function MainPos(k: Key, size: nat): (p: nat)
    requires size > 0
    ensures p < size
  {
    match k
    case Int(i) => i % size
    case Pow2(_, h) => h % size
    case Mod(_, h) => h % (if size == 1 then 1 else size - 1)
    case _ => 0
  }

  predicate LinksInside(ns: seq<Node>) {
    forall i :: 0 <= i < |ns| ==> 0 <= i + ns[i].next < |ns|
  }

  // The links go down in rank, so that chains end.
  ghost predicate Ranked(ns: seq<Node>, rank: seq<nat>) {
    && |rank| == |ns| && LinksInside(ns)
    && forall i :: 0 <= i < |ns| && ns[i].next != 0 ==> rank[i + ns[i].next] < rank[i]
  }

  // j is met on the way along the links from i.
  ghost predicate OnChain(ns: seq<Node>, rank: seq<nat>, i: nat, j: nat)
    requires Ranked(ns, rank) && i < |ns|
    decreases rank[i]
  {
    i == j || (ns[i].next != 0 && OnChain(ns, rank, i + ns[i].next, j))
  }

  ghost predicate Linked(ns: seq<Node>, i: int, j: int) {
    0 <= i < |ns| && ns[i].next != 0 && i + ns[i].next == j
  }

  ghost predicate Used(ns: seq<Node>, j: int) { 0 <= j < |ns| && ns[j].key != NilKey }

  // The node at p holds a key whose main position is p.
  ghost predicate InMainPos(ns: seq<Node>, p: int) {
    Used(ns, p) && MainPos(ns[p].key, |ns|) == p
  }

  // No key is stored twice, and the main position of each holds a key of its own.
  ghost predicate Placed(ns: seq<Node>) {
    && |ns| > 0
    && (forall i, j :: Used(ns, i) && Used(ns, j) && ns[i].key == ns[j].key ==> i == j)
    && (forall j :: Used(ns, j) ==> InMainPos(ns, MainPos(ns[j].key, |ns|)))
  }

  // Links join used nodes, at most one to each.
  ghost predicate Joined(ns: seq<Node>) {
    && (forall i, j :: Linked(ns, i, j) ==> Used(ns, i) && Used(ns, j))
    && (forall a, b, j :: Linked(ns, a, j) && Linked(ns, b, j) ==> a == b)
  }

  // The main invariant of ltable.c.
  ghost predicate Chained(ns: seq<Node>, rank: seq<nat>) {
    && |ns| > 0 && Ranked(ns, rank)
    && (forall j :: Used(ns, j) ==> Storable(ns[j].key) && OnChain(ns, rank, MainPos(ns[j].key, |ns|), j))
    && Placed(ns) && Joined(ns)
    && (forall i :: 0 <= i < |ns| && ns[i].key == NilKey ==> ns[i].val.Nil?)
  }

  ghost predicate Has(ns: seq<Node>, k: Key) {
    exists j :: Used(ns, j) && ns[j].key == k
  }

  // What the hash part holds under k.
  ghost function Lookup(ns: seq<Node>, k: Key): Value {
    if Has(ns, k) then (var j :| Used(ns, j) && ns[j].key == k; ns[j].val) else Nil
  }

  lemma LookupAt(ns: seq<Node>, rank: seq<nat>, j: nat)
    requires Chained(ns, rank) && Used(ns, j)
    ensures Lookup(ns, ns[j].key) == ns[j].val
  {
    var k := ns[j].key;
    assert Has(ns, k);
  }

  // Two node vectors that hold the same under every key but k.
  ghost predicate SameBut(ns: seq<Node>, ns': seq<Node>, k: Key) {
    forall k' :: k' != k ==> Lookup(ns', k') == Lookup(ns, k')
  }

  // ---- the three ways to insert a key ----

  // Its main position is free, or holds a key without a value, which it replaces.
  function PutInPlace(ns: seq<Node>, mp: nat, k: Key): (r: seq<Node>)
    requires mp < |ns|
    ensures |r| == |ns|
  {
    ns[mp := Node(Nil, k, ns[mp].next)]
  }

  // The colliding node is in its own main position: the new key goes to the free position f.
  function PutAside(ns: seq<Node>, mp: nat, f: nat, k: Key): (r: seq<Node>)
    requires mp < |ns| && f < |ns|
    ensures |r| == |ns|
  {
    ns[f := Node(Nil, k, if ns[mp].next != 0 then mp + ns[mp].next - f else ns[f].next)]
      [mp := ns[mp].(next := f - mp)]
  }

  // The colliding node is not: it moves to f, and the new key takes its place. p is what links to mp.
  function Displace(ns: seq<Node>, mp: nat, f: nat, p: nat, k: Key): (r: seq<Node>)
    requires mp < |ns| && f < |ns| && p < |ns|
    ensures |r| == |ns|
  {
    ns[p := ns[p].(next := f - p)]
      [f := Node(ns[mp].val, ns[mp].key, if ns[mp].next != 0 then ns[mp].next + mp - f else 0)]
      [mp := Node(Nil, k, 0)]
  }

  lemma {:induction false} SameLinks(ns: seq<Node>, ns': seq<Node>, rank: seq<nat>, i: nat, j: nat)
    requires Ranked(ns, rank) && Ranked(ns', rank) && i < |ns| == |ns'|
    requires forall x :: 0 <= x < |ns| ==> ns'[x].next == ns[x].next
    ensures OnChain(ns', rank, i, j) == OnChain(ns, rank, i, j)
    decreases rank[i]
  {
    if i != j && ns[i].next != 0 { SameLinks(ns, ns', rank, i + ns[i].next, j); }
  }

  lemma PutInPlacePlaced(ns: seq<Node>, rank: seq<nat>, mp: nat, k: Key)
    requires Chained(ns, rank) && Storable(k) && !Has(ns, k) && mp == MainPos(k, |ns|) && ns[mp].val.Nil?
    ensures Placed(PutInPlace(ns, mp, k)) && Joined(PutInPlace(ns, mp, k))
  {
    var ns' := PutInPlace(ns, mp, k);
    forall i, j | Used(ns', i) && Used(ns', j) && ns'[i].key == ns'[j].key ensures i == j {
      if i != mp { assert Used(ns, i); }
      if j != mp { assert Used(ns, j); }
    }
    forall j | Used(ns', j) ensures InMainPos(ns', MainPos(ns'[j].key, |ns'|)) {
      if j != mp { assert Used(ns, j) && InMainPos(ns, MainPos(ns[j].key, |ns|)); }
    }
    forall i, j | Linked(ns', i, j) ensures Used(ns', i) && Used(ns', j) { assert Linked(ns, i, j); assert Used(ns, i) && Used(ns, j); }
    forall a, b, j | Linked(ns', a, j) && Linked(ns', b, j) ensures a == b { assert Linked(ns, a, j) && Linked(ns, b, j); }
  }

  lemma PutInPlaceChained(ns: seq<Node>, rank: seq<nat>, mp: nat, k: Key)
    requires Chained(ns, rank) && Storable(k) && !Has(ns, k) && mp == MainPos(k, |ns|) && ns[mp].val.Nil?
    ensures Chained(PutInPlace(ns, mp, k), rank)
  {
    var ns' := PutInPlace(ns, mp, k);
    PutInPlacePlaced(ns, rank, mp, k);
    forall j | Used(ns', j) ensures Storable(ns'[j].key) && OnChain(ns', rank, MainPos(ns'[j].key, |ns'|), j) {
      if j != mp {
        assert Used(ns, j);
        SameLinks(ns, ns', rank, MainPos(ns[j].key, |ns|), j);
      }
    }
  }

  // Ranks that leave room just below that of x.
  function Bump(rank: seq<nat>, x: nat): (r: seq<nat>)
    requires x < |rank|
    ensures |r| == |rank| && forall i :: 0 <= i < |r| ==> r[i] == if rank[i] >= rank[x] then rank[i] + 1 else rank[i]
  {
    seq(|rank|, i requires 0 <= i < |rank| => if rank[i] >= rank[x] then rank[i] + 1 else rank[i])
  }

  // What holds when 'getfreepos' has found f and the main position mp is taken.
  ghost predicate Colliding(ns: seq<Node>, rank: seq<nat>, mp: nat, f: nat, k: Key) {
    && Chained(ns, rank) && Storable(k) && !Has(ns, k) && mp == MainPos(k, |ns|)
    && Used(ns, mp) && f < |ns| && ns[f].key == NilKey
  }

  function AsideRank(rank: seq<nat>, mp: nat, f: nat): seq<nat>
    requires mp < |rank| && f < |rank|
  {
    Bump(rank, mp)[f := rank[mp]]
  }

  lemma NoLinkToFree(ns: seq<Node>, rank: seq<nat>, f: nat)
    requires Chained(ns, rank) && f < |ns| && ns[f].key == NilKey
    ensures ns[f].next == 0 && forall a :: !Linked(ns, a, f)
  {
    assert Linked(ns, f, f + ns[f].next) ==> Used(ns, f);
    forall a ensures !Linked(ns, a, f) { assert Linked(ns, a, f) ==> Used(ns, f); }
  }

  lemma AsideRanked(ns: seq<Node>, rank: seq<nat>, mp: nat, f: nat, k: Key)
    requires Colliding(ns, rank, mp, f, k)
    ensures Ranked(PutAside(ns, mp, f, k), AsideRank(rank, mp, f))
  {
    NoLinkToFree(ns, rank, f);
    var ns', r := PutAside(ns, mp, f, k), AsideRank(rank, mp, f);
    forall i | 0 <= i < |ns'| && ns'[i].next != 0 ensures r[i + ns'[i].next] < r[i] {
      if i != mp && i != f { assert Linked(ns, i, i + ns[i].next); }
      if i == f { assert Linked(ns, mp, mp + ns[mp].next); }
    }
  }

  lemma {:induction false} AsideKeepsChains(ns: seq<Node>, rank: seq<nat>, mp: nat, f: nat, k: Key, i: nat, j: nat)
    requires Colliding(ns, rank, mp, f, k) && i < |ns| && i != f && j != f && OnChain(ns, rank, i, j)
    requires Ranked(PutAside(ns, mp, f, k), AsideRank(rank, mp, f))
    ensures OnChain(PutAside(ns, mp, f, k), AsideRank(rank, mp, f), i, j)
    decreases rank[i]
  {
    NoLinkToFree(ns, rank, f);
    if i != j {
      var x := i + ns[i].next;
      assert Linked(ns, i, x);
      AsideKeepsChains(ns, rank, mp, f, k, x, j);
      if i == mp { assert OnChain(PutAside(ns, mp, f, k), AsideRank(rank, mp, f), f, j); }
    }
  }

  lemma AsideLinks(ns: seq<Node>, rank: seq<nat>, mp: nat, f: nat, k: Key)
    requires Colliding(ns, rank, mp, f, k)
    ensures Joined(PutAside(ns, mp, f, k))
  {
    NoLinkToFree(ns, rank, f);
    var ns' := PutAside(ns, mp, f, k);
    forall i, j | Linked(ns', i, j) ensures Used(ns', i) && Used(ns', j)
      && (i != mp && i != f ==> Linked(ns, i, j)) && (i == mp ==> j == f) && (i == f ==> Linked(ns, mp, j)) && (j == f ==> i == mp)
    {
      if i == f { assert Linked(ns, mp, j); assert Used(ns, j); }
      else if i != mp { assert Linked(ns, i, j); assert Used(ns, i) && Used(ns, j); }
    }
  }

  lemma PutAsideChained(ns: seq<Node>, rank: seq<nat>, mp: nat, f: nat, k: Key)
    requires Colliding(ns, rank, mp, f, k) && InMainPos(ns, mp)
    ensures Chained(PutAside(ns, mp, f, k), AsideRank(rank, mp, f))
  {
    var ns', r := PutAside(ns, mp, f, k), AsideRank(rank, mp, f);
    AsideRanked(ns, rank, mp, f, k);
    AsideLinks(ns, rank, mp, f, k);
    forall j | Used(ns', j) ensures Storable(ns'[j].key) && OnChain(ns', r, MainPos(ns'[j].key, |ns'|), j) {
      if j == f {
        assert OnChain(ns', r, f, f);
      } else {
        assert Used(ns, j) && InMainPos(ns, MainPos(ns[j].key, |ns|));
        AsideKeepsChains(ns, rank, mp, f, k, MainPos(ns[j].key, |ns|), j);
      }
    }
    forall i, j | Used(ns', i) && Used(ns', j) && ns'[i].key == ns'[j].key ensures i == j {
      assert i == f || Used(ns, i);
      assert j == f || Used(ns, j);
    }
    forall j | Used(ns', j) ensures InMainPos(ns', MainPos(ns'[j].key, |ns'|)) {
      if j != f { assert Used(ns, j) && InMainPos(ns, MainPos(ns[j].key, |ns|)); }
    }
  }

  // ---- a displaced node ----

  ghost predicate Displacing(ns: seq<Node>, rank: seq<nat>, mp: nat, f: nat, p: nat, k: Key) {
    Colliding(ns, rank, mp, f, k) && MainPos(ns[mp].key, |ns|) != mp && Linked(ns, p, mp)
  }

  lemma DisplacedRanked(ns: seq<Node>, rank: seq<nat>, mp: nat, f: nat, p: nat, k: Key)
    requires Displacing(ns, rank, mp, f, p, k)
    ensures p != mp && p != f && Ranked(Displace(ns, mp, f, p, k), rank[f := rank[mp]])
  {
    NoLinkToFree(ns, rank, f);
    assert Used(ns, p);
    var ns', r := Displace(ns, mp, f, p, k), rank[f := rank[mp]];
    forall i | 0 <= i < |ns'| && ns'[i].next != 0 ensures r[i + ns'[i].next] < r[i] {
      if i != mp && i != f && i != p { assert Linked(ns, i, i + ns[i].next); }
      if i == f { assert Linked(ns, mp, mp + ns[mp].next); }
    }
  }

  lemma {:induction false} DisplaceKeepsChains(ns: seq<Node>, rank: seq<nat>, mp: nat, f: nat, p: nat, k: Key, i: nat, j: nat)
    requires Displacing(ns, rank, mp, f, p, k) && Ranked(Displace(ns, mp, f, p, k), rank[f := rank[mp]])
    requires i < |ns| && i != f && j != f && OnChain(ns, rank, i, j) && j != mp
    ensures OnChain(Displace(ns, mp, f, p, k), rank[f := rank[mp]], if i == mp then f else i, j)
    decreases rank[i]
  {
    NoLinkToFree(ns, rank, f);
    if i != j {
      var x := i + ns[i].next;
      assert Linked(ns, i, x);
      if x == mp { assert i == p; }
      DisplaceKeepsChains(ns, rank, mp, f, p, k, x, j);
    }
  }

  lemma {:induction false} DisplacedOnChain(ns: seq<Node>, rank: seq<nat>, mp: nat, f: nat, p: nat, k: Key, i: nat)
    requires Displacing(ns, rank, mp, f, p, k) && Ranked(Displace(ns, mp, f, p, k), rank[f := rank[mp]])
    requires i < |ns| && i != f && i != mp && OnChain(ns, rank, i, mp)
    ensures OnChain(Displace(ns, mp, f, p, k), rank[f := rank[mp]], i, f)
    decreases rank[i]
  {
    NoLinkToFree(ns, rank, f);
    var x := i + ns[i].next;
    assert Linked(ns, i, x);
    if x == mp {
      assert i == p;
      assert OnChain(Displace(ns, mp, f, p, k), rank[f := rank[mp]], f, f);
    } else {
      DisplacedOnChain(ns, rank, mp, f, p, k, x);
    }
  }

  lemma DisplaceLinks(ns: seq<Node>, rank: seq<nat>, mp: nat, f: nat, p: nat, k: Key)
    requires Displacing(ns, rank, mp, f, p, k)
    ensures Joined(Displace(ns, mp, f, p, k))
  {
    NoLinkToFree(ns, rank, f);
    DisplacedRanked(ns, rank, mp, f, p, k);
    var ns' := Displace(ns, mp, f, p, k);
    forall i, j | Linked(ns', i, j) ensures Used(ns', i) && Used(ns', j) && i != mp
      && (i != p && i != f ==> Linked(ns, i, j)) && (i == p ==> j == f) && (i == f ==> Linked(ns, mp, j)) && (j == f ==> i == p)
    {
      if i == f { assert Linked(ns, mp, j); assert Used(ns, j); }
      else if i == p { assert Used(ns, p); }
      else if i != mp { assert Linked(ns, i, j); assert Used(ns, i) && Used(ns, j); }
    }
  }

  // Nothing that is stored has its main position where a displaced node was.
  lemma NoMainPosHere(ns: seq<Node>, rank: seq<nat>, mp: nat, f: nat, p: nat, k: Key, j: nat)
    requires Displacing(ns, rank, mp, f, p, k) && Used(ns, j)
    ensures MainPos(ns[j].key, |ns|) != mp && MainPos(ns[j].key, |ns|) != f
  {
    assert InMainPos(ns, MainPos(ns[j].key, |ns|));
  }

  lemma DisplacePlaced(ns: seq<Node>, rank: seq<nat>, mp: nat, f: nat, p: nat, k: Key)
    requires Displacing(ns, rank, mp, f, p, k)
    ensures Placed(Displace(ns, mp, f, p, k))
  {
    var ns' := Displace(ns, mp, f, p, k);
    DisplacedRanked(ns, rank, mp, f, p, k);
    forall i, j | Used(ns', i) && Used(ns', j) && ns'[i].key == ns'[j].key ensures i == j {
      assert i == f || i == mp || Used(ns, i);
      assert j == f || j == mp || Used(ns, j);
    }
    forall j | Used(ns', j) ensures InMainPos(ns', MainPos(ns'[j].key, |ns'|)) {
      if j != mp {
        var o := if j == f then mp else j;
        NoMainPosHere(ns, rank, mp, f, p, k, o);
        assert InMainPos(ns, MainPos(ns[o].key, |ns|));
      }
    }
  }

  lemma DisplaceReached(ns: seq<Node>, rank: seq<nat>, mp: nat, f: nat, p: nat, k: Key, j: nat)
    requires Displacing(ns, rank, mp, f, p, k) && Used(Displace(ns, mp, f, p, k), j)
    requires Ranked(Displace(ns, mp, f, p, k), rank[f := rank[mp]])
    ensures var ns' := Displace(ns, mp, f, p, k);
      Storable(ns'[j].key) && OnChain(ns', rank[f := rank[mp]], MainPos(ns'[j].key, |ns|), j)
  {
    DisplacedRanked(ns, rank, mp, f, p, k);
    if j == f {
      NoMainPosHere(ns, rank, mp, f, p, k, mp);
      DisplacedOnChain(ns, rank, mp, f, p, k, MainPos(ns[mp].key, |ns|));
    } else if j != mp {
      NoMainPosHere(ns, rank, mp, f, p, k, j);
      DisplaceKeepsChains(ns, rank, mp, f, p, k, MainPos(ns[j].key, |ns|), j);
    }
  }

  lemma DisplaceChained(ns: seq<Node>, rank: seq<nat>, mp: nat, f: nat, p: nat, k: Key)
    requires Displacing(ns, rank, mp, f, p, k)
    ensures Chained(Displace(ns, mp, f, p, k), rank[f := rank[mp]])
  {
    var ns', r := Displace(ns, mp, f, p, k), rank[f := rank[mp]];
    DisplacedRanked(ns, rank, mp, f, p, k);
    DisplaceLinks(ns, rank, mp, f, p, k);
    DisplacePlaced(ns, rank, mp, f, p, k);
    forall j | Used(ns', j) ensures Storable(ns'[j].key) && OnChain(ns', r, MainPos(ns'[j].key, |ns'|), j) {
      DisplaceReached(ns, rank, mp, f, p, k, j);
    }
  }

  // ---- an insertion changes what no other key finds ----

  // Each used node of ns is found in ns' at 'to', unless it has no value; and back.
  ghost predicate Moved(ns: seq<Node>, ns': seq<Node>, k: Key) {
    && (forall j :: Used(ns, j) && !ns[j].val.Nil? ==>
          exists i :: Used(ns', i) && ns'[i].key == ns[j].key && ns'[i].val == ns[j].val)
    && (forall i :: Used(ns', i) && ns'[i].key != k ==>
          exists j :: Used(ns, j) && ns[j].key == ns'[i].key && ns[j].val == ns'[i].val)
  }

  lemma MovedSame(ns: seq<Node>, rank: seq<nat>, ns': seq<Node>, rank': seq<nat>, k: Key)
    requires Chained(ns, rank) && Chained(ns', rank') && Moved(ns, ns', k)
    ensures SameBut(ns, ns', k)
  {
    forall k' | k' != k ensures Lookup(ns', k') == Lookup(ns, k') {
      if Has(ns', k') {
        var i :| Used(ns', i) && ns'[i].key == k';
        var j :| Used(ns, j) && ns[j].key == ns'[i].key && ns[j].val == ns'[i].val;
        LookupAt(ns', rank', i);
        LookupAt(ns, rank, j);
      } else if Has(ns, k') {
        var j :| Used(ns, j) && ns[j].key == k';
        LookupAt(ns, rank, j);
        assert ns[j].val.Nil?;
      }
    }
  }

  lemma PutInPlaceSame(ns: seq<Node>, rank: seq<nat>, mp: nat, k: Key)
    requires Chained(ns, rank) && Storable(k) && !Has(ns, k) && mp == MainPos(k, |ns|) && ns[mp].val.Nil?
    ensures SameBut(ns, PutInPlace(ns, mp, k), k)
  {
    var ns' := PutInPlace(ns, mp, k);
    PutInPlaceChained(ns, rank, mp, k);
    forall j | Used(ns, j) && !ns[j].val.Nil?
      ensures exists i :: Used(ns', i) && ns'[i].key == ns[j].key && ns'[i].val == ns[j].val { assert Used(ns', j); }
    forall i | Used(ns', i) && ns'[i].key != k
      ensures exists j :: Used(ns, j) && ns[j].key == ns'[i].key && ns[j].val == ns'[i].val { assert Used(ns, i); }
    MovedSame(ns, rank, ns', rank, k);
  }

  lemma PutAsideSame(ns: seq<Node>, rank: seq<nat>, mp: nat, f: nat, k: Key)
    requires Colliding(ns, rank, mp, f, k) && InMainPos(ns, mp)
    ensures SameBut(ns, PutAside(ns, mp, f, k), k)
  {
    var ns' := PutAside(ns, mp, f, k);
    PutAsideChained(ns, rank, mp, f, k);
    forall j | Used(ns, j) && !ns[j].val.Nil?
      ensures exists i :: Used(ns', i) && ns'[i].key == ns[j].key && ns'[i].val == ns[j].val { assert Used(ns', j); }
    forall i | Used(ns', i) && ns'[i].key != k
      ensures exists j :: Used(ns, j) && ns[j].key == ns'[i].key && ns[j].val == ns'[i].val { assert Used(ns, i); }
    MovedSame(ns, rank, ns', AsideRank(rank, mp, f), k);
  }

  lemma DisplaceSame(ns: seq<Node>, rank: seq<nat>, mp: nat, f: nat, p: nat, k: Key)
    requires Displacing(ns, rank, mp, f, p, k)
    ensures SameBut(ns, Displace(ns, mp, f, p, k), k)
  {
    var ns' := Displace(ns, mp, f, p, k);
    DisplaceChained(ns, rank, mp, f, p, k);
    DisplacedRanked(ns, rank, mp, f, p, k);
    forall j | Used(ns, j) && !ns[j].val.Nil?
      ensures exists i :: Used(ns', i) && ns'[i].key == ns[j].key && ns'[i].val == ns[j].val
    {
      assert Used(ns', if j == mp then f else j);
    }
    forall i | Used(ns', i) && ns'[i].key != k
      ensures exists j :: Used(ns, j) && ns[j].key == ns'[i].key && ns[j].val == ns'[i].val
    {
      assert Used(ns, if i == f then mp else i);
    }
    MovedSame(ns, rank, ns', rank[f := rank[mp]], k);
  }

  // ---- room ----

  function FreeSet(ns: seq<Node>): set<int> {
    set j | 0 <= j < |ns| && ns[j].key == NilKey
  }

  function FirstFree(ns: seq<Node>, n: nat): set<int>
    requires n <= |ns|
  {
    set j | 0 <= j < n && ns[j].key == NilKey
  }

  lemma {:induction false} AllFree(ns: seq<Node>, n: nat)
    requires n <= |ns| && forall j :: 0 <= j < |ns| ==> ns[j].key == NilKey
    ensures |FirstFree(ns, n)| == n
  {
    if n > 0 {
      AllFree(ns, n - 1);
      assert ns[n - 1].key == NilKey;
      assert FirstFree(ns, n) == FirstFree(ns, n - 1) + {n - 1};
    }
  }

  lemma InsertTakesOne(ns: seq<Node>, ns': seq<Node>, f: nat)
    requires |ns'| == |ns| && f < |ns| && forall j :: 0 <= j < |ns| && j != f && ns[j].key == NilKey ==> ns'[j].key == NilKey
    ensures |FreeSet(ns')| >= |FreeSet(ns)| - 1
  {
    assert FreeSet(ns) - {f} <= FreeSet(ns');
    TableSizes.SubsetSize(FreeSet(ns) - {f}, FreeSet(ns'));
    if f in FreeSet(ns) { assert FreeSet(ns) == FreeSet(ns) - {f} + {f}; } else { assert FreeSet(ns) - {f} == FreeSet(ns); }
  }
}
