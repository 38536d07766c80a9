// Lua tables: 'luaH_get', 'luaH_set', 'luaH_newkey', 'rehash' and 'luaH_resize' on arrays updated in place.
module Tables {
  import opened Integers
  import opened TableNodes
  import opened TableSizes
  import opened TableState
  import opened TableTraversal

  datatype Outcome = Ok(cell: Cell) | Error(message: string)

  const MAX_INT := 0x7fff_ffff
  const NIL_INDEX := "table index is nil"
  const NAN_INDEX := "table index is NaN"

  // 'luaV_rawequalobj' on keys.
  predicate RawEqual(a: Key, b: Key) { a == b && !a.NaN? }

  class LuaTable {
    var arr: array<Value>
    var node: array<Node>
    var lastfree: nat
    var lsizenode: nat
    var dummy: bool
    ghost var rank: seq<nat>

    ghost function View(): Table
      reads this, arr, node
    {
      Table(arr[..], node[..], rank, lastfree, lsizenode, dummy)
    }

    // Far from the sizes at which counts and sizes wrap around.
    ghost predicate Small()
      reads this
    {
      arr.Length + node.Length < MAXCOUNT
    }

    // 'luaH_new'.
    constructor ()
      ensures Valid(View()) && Contents(View()) == map[] && fresh(arr) && fresh(node) && Small()
    {
      arr := new Value[0];
      node := new Node[1](_ => EMPTY);
      lastfree, lsizenode, dummy, rank := 0, 0, true, [0];
      new;
      forall k ensures Read(View(), k) == Nil { BlankReads(View(), k); }
      BlankReads(View(), NilKey);
      forall k | k in Live(View()) ensures false { LiveIsRead(View(), k); }
    }

    // The search along a chain, from the main position of k.
    method FindNode(k: Key) returns (c: Cell)
      requires Valid(View()) && !k.IntFloat? && !k.NilKey? && !InRange(k, arr.Length)
      ensures CellOf(View(), k, c) && !c.InArray?
    {
      hide Placed, Joined, Apart, FreeBut;
      ghost var ns := node[..];
      var n: nat := MainPos(k, node.Length);
      while true
        invariant n < node.Length
        invariant forall i :: Used(ns, i) && ns[i].key == k ==> OnChain(ns, rank, n, i)
        decreases rank[n]
      {
        if RawEqual(node[n].key, k) { return InNode(n); }
        var nx := node[n].next;
        if nx == 0 { return NoCell; }
        n := n + nx;
      }
    }

    // 'luaH_getint'.
    method GetInt(i: Integer) returns (c: Cell)
      requires Valid(View())
      ensures CellOf(View(), Int(i), c)
    {
      if ToUnsigned(i - 1) < arr.Length {
        c := InArray(i - 1);
      } else {
        c := FindNode(Int(i));
      }
    }

    // 'luaH_get'.
    method Get(k: Key) returns (c: Cell)
      requires Valid(View())
      ensures CellOf(View(), k, c)
    {
      match k
      case Int(i) => c := GetInt(i);
      case NilKey => c := NoCell;
      case IntFloat(i) => c := GetInt(i);
      case _ => c := FindNode(k);
    }

    // Reading through the pointer that 'luaH_get' returns.
    method Fetch(k: Key) returns (v: Value)
      requires Valid(View())
      ensures v == Read(View(), k)
      ensures v == if Norm(k) in Contents(View()) then Contents(View())[Norm(k)] else Nil
    {
      hide Valid, Read, Live, Contents;
      var c := Get(k);
      CellReads(View(), k, c);
      ReadsContents(View(), k);
      match c
      case NoCell => v := Nil;
      case InArray(i) => v := arr[i];
      case InNode(j) => v := node[j].val;
    }

    // Storing through the pointer that 'luaH_set' returns.
    method Store(ghost k: Key, c: Cell, v: Value)
      requires Valid(View()) && CellOf(View(), k, c) && c != NoCell
      modifies arr, node
      ensures Valid(View()) && Updated(old(View()), View(), k, v)
      ensures Free(View()) == Free(old(View())) && View() == Assign(old(View()), c, v)
    {
      AssignReads(View(), k, c, v);
      ghost var t' := Assign(View(), c, v);
      match c {
        case InArray(i) => arr[i] := v;
        case InNode(j) => node[j] := node[j].(val := v);
      }
      assert View() == t';
    }

    // 'getfreepos'.
    method GetFreePos() returns (f: int)
      requires Valid(View())
      modifies this`lastfree
      ensures View() == old(View()).(free := lastfree)
      ensures Found(old(View()), lastfree, f)
      ensures f < 0 ==> Free(old(View())) == {} && Valid(View())
      ensures dummy ==> f < 0
    {
      while lastfree > 0
        invariant lastfree <= old(lastfree) && (!dummy ==> FreeBut(node[..], lastfree, -1))
        invariant dummy ==> lastfree == 0
      {
        lastfree := lastfree - 1;
        if node[lastfree].key == NilKey { return lastfree; }
      }
      return -1;
    }

    // The node that links to mp, from where the chain of mp starts.
    method FindPrevious(othern: nat, mp: nat) returns (p: nat)
      requires Ranked(node[..], rank) && othern < node.Length && othern != mp && OnChain(node[..], rank, othern, mp)
      ensures Linked(node[..], p, mp)
    {
      p := othern;
      while p + node[p].next != mp
        invariant p < node.Length && p != mp && OnChain(node[..], rank, p, mp)
        decreases rank[p]
      {
        p := p + node[p].next;
      }
    }

    // The colliding node is out of its main position: it moves to f.
    method MoveColliding(k: Key, mp: nat, f: nat, othern: nat)
      requires mp < node.Length && f < node.Length && mp != f && node[mp].key != NilKey && node[f].key == NilKey
      requires Ranked(node[..], rank) && othern < node.Length && othern != mp && OnChain(node[..], rank, othern, mp)
      requires Joined(node[..])
      modifies node
      ensures exists p :: Linked(old(node[..]), p, mp) && node[..] == Displace(old(node[..]), mp, f, p, k)
    {
      var p := FindPrevious(othern, mp);
      ghost var ns := node[..];
      assert Linked(ns, p, mp) && Used(ns, p);
      node[p] := node[p].(next := f - p);
      node[f] := node[mp];
      if node[mp].next != 0 {
        node[f] := node[f].(next := node[f].next + (mp - f));
        node[mp] := node[mp].(next := 0);
      }
      node[mp] := node[mp].(val := Nil);
      node[mp] := node[mp].(key := k);
      assert node[..] == Displace(ns, mp, f, p, k);
    }

    // The colliding node is in its own main position: the new key goes to f.
    method ChainAside(k: Key, mp: nat, f: nat)
      requires mp < node.Length && f < node.Length && mp != f && node[f].val == Nil && node[f].next == 0
      modifies node
      ensures node[..] == PutAside(old(node[..]), mp, f, k)
    {
      if node[mp].next != 0 {
        node[f] := node[f].(next := mp + node[mp].next - f);
      }
      node[mp] := node[mp].(next := f - mp);
      node[f] := node[f].(key := k);
    }

    // A collision at mp, with f free.
    method Collide(k: Key, mp: nat, f: nat, ghost t0: Table) returns (j: nat)
      requires NewAt(t0, k, mp) && t0.ns[mp].val != Nil && f < |t0.ns| && Found(t0, f, f) && View() == t0.(free := f)
      modifies node, this`rank
      ensures Inserted(t0, View(), k, j)
    {
      ghost var ns := t0.ns;
      assert Used(ns, mp);
      NoLinkToFree(ns, t0.rank, f);
      var othern := MainPos(node[mp].key, node.Length);
      if othern != mp {
        MoveColliding(k, mp, f, othern);
        ghost var p: nat :| Linked(ns, p, mp) && node[..] == Displace(ns, mp, f, p, k);
        DisplaceInserts(t0, k, mp, f, p);
        rank := rank[f := rank[mp]];
        return mp;
      } else {
        AsideInserts(t0, k, mp, f);
        ChainAside(k, mp, f);
        rank := AsideRank(rank, mp, f);
        return f;
      }
    }

    // 'luaH_newkey'. 'grow' tells whether it may have to rehash: it then ends in a 'luaH_set' that does not.
    method NewKey(key: Key, ghost grow: bool) returns (r: Outcome)
      requires Valid(View()) && CellOf(View(), key, NoCell)
      requires if grow then Small() else Refused(key) || HasRoom(View(), key)
      modifies this, arr, node
      ensures KeyAdded(old(View()), View(), key, r)
      ensures if grow then (arr == old(arr) || fresh(arr)) && (node == old(node) || fresh(node)) && GrownFor(old(View()), View())
              else arr == old(arr) && node == old(node) && FreeAfter(old(View()), View(), key)
      decreases if grow then 1 else 0, 0
    {
      hide Valid, KeyAdded, Inserted, GrownFor, FreeAfter, Live, SameReads;
      ghost var t0 := View();
      if key.NilKey? {
        NotAdded(t0, key, Error(NIL_INDEX));
        return Error(NIL_INDEX);
      }
      var k := key;
      if key.IntFloat? {
        k := Int(key.i);
      } else if key.NaN? {
        NotAdded(t0, key, Error(NAN_INDEX));
        return Error(NAN_INDEX);
      }
      SizeBound(t0);
      var mp := MainPos(k, node.Length);
      if node[mp].val != Nil || dummy {
        var f := GetFreePos();
        if f < 0 {
          ghost var full := View();
          RoomGone(t0, key, full);
          Rehash(k);
          ghost var grown := View();
          r := Set(k, false);
          AddedAfterGrowth(t0, full, grown, View(), key, r);
          return;
        }
        IsNewAt(t0, key, mp);
        var j := Collide(k, mp, f, t0);
        InsertedIsAdded(t0, View(), key, j);
        return Ok(InNode(j));
      }
      IsNewAt(t0, key, mp);
      InPlaceInserts(t0, k, mp);
      node[mp] := node[mp].(key := k);
      assert node[..] == PutInPlace(t0.ns, mp, k);
      InsertedIsAdded(t0, View(), key, mp);
      return Ok(InNode(mp));
    }

    // 'luaH_set'.
    method Set(k: Key, ghost grow: bool) returns (r: Outcome)
      requires Valid(View())
      requires if grow then Small() else Refused(k) || HasRoom(View(), k)
      modifies this, arr, node
      ensures KeyAdded(old(View()), View(), k, r)
      ensures if grow then (arr == old(arr) || fresh(arr)) && (node == old(node) || fresh(node)) && GrownFor(old(View()), View())
              else arr == old(arr) && node == old(node) && FreeAfter(old(View()), View(), k)
      decreases if grow then 1 else 0, 1
    {
      var c := Get(k);
      if c != NoCell { return Ok(c); }
      r := NewKey(k, grow);
    }

    // Storing v under a key that is no error: 't[k] = v'.
    method Put(k: Key, v: Value, ghost grow: bool) returns (r: Outcome)
      requires Valid(View())
      requires if grow then Small() else Refused(k) || HasRoom(View(), k)
      modifies this, arr, node
      ensures Valid(View()) && (r.Error? <==> Refused(k))
      ensures if r.Error? then SameReads(old(View()), View()) else Updated(old(View()), View(), k, v)
      ensures if grow then (arr == old(arr) || fresh(arr)) && (node == old(node) || fresh(node)) && GrownFor(old(View()), View())
              else arr == old(arr) && node == old(node) && FreeAfter(old(View()), View(), k)
      decreases if grow then 1 else 0, 2
    {
      r := Set(k, grow);
      if r.Ok? { Store(k, r.cell, v); }
    }

    // 'luaH_setint'.
    method SetInt(i: Integer, v: Value)
      requires Valid(View()) && HasRoom(View(), Int(i))
      modifies this, arr, node
      ensures Valid(View()) && Updated(old(View()), View(), Int(i), v)
      ensures arr == old(arr) && node == old(node) && FreeAfter(old(View()), View(), Int(i))
      decreases 0, 2
    {
      var c := GetInt(i);
      if c == NoCell {
        var r := NewKey(Int(i), false);
        c := r.cell;
      }
      Store(Int(i), c, v);
    }

    // 'setarrayvector', or the cut of a vanishing slice.
    method SetArrayVector(size: nat)
      modifies this`arr
      ensures arr.Length == size && fresh(arr)
      ensures forall i :: 0 <= i < size ==> arr[i] == if i < old(arr.Length) then old(arr[i]) else Nil
    {
      var a := new Value[size];
      var i := 0;
      while i < size
        invariant 0 <= i <= size
        invariant forall x :: 0 <= x < i ==> a[x] == if x < arr.Length then arr[x] else Nil
        modifies a
      {
        a[i] := if i < arr.Length then arr[i] else Nil;
        i := i + 1;
      }
      arr := a;
    }

    // 'setnodevector'.
    method SetNodeVector(size: nat)
      requires arr.Length <= MAXASIZE && size <= MAXCOUNT
      modifies this`node, this`lastfree, this`lsizenode, this`dummy, this`rank
      ensures Blank(View()) && fresh(node) && arr[..] == old(arr[..])
      ensures if size == 0 then dummy else !dummy && node.Length >= size
      ensures node.Length == 1 || node.Length < 2 * size
    {
      hide Pow, IsCeilLog;
      PowMax();
      if size == 0 {
        node := new Node[1](_ => EMPTY);
        lsizenode, lastfree, dummy := 0, 0, true;
      } else {
        var lsize := CeilLog2(size);
        CeilLogBound(size, lsize, MAXHBITS);
        node := new Node[Pow(lsize)](_ => EMPTY);
        lsizenode, lastfree, dummy := lsize, Pow(lsize), false;
      }
      rank := seq(node.Length, _ => 0);
    }

    // 'luaH_resize'.
    method Resize(nasize: nat, nhsize: nat)
      requires Valid(View()) && nasize <= MAXASIZE && |Outside(Live(View()), nasize)| <= nhsize <= MAXCOUNT
      modifies this, arr, node
      ensures Valid(View()) && SameReads(old(View()), View()) && arr.Length == nasize
      ensures |Free(View())| >= Slack(old(View()), nasize, nhsize) && (node.Length == 1 || node.Length < 2 * nhsize)
      ensures fresh(node) && (fresh(arr) || arr == old(arr))
      decreases 0, 4
    {
      hide Valid, Refilling, Live, LiveArr, LiveNodes, Outside, Free, Read, Blank;
      SizeBound(View());
      ghost var t0 := View();
      var oldarr, nold, oldasize := arr, node, arr.Length;
      if nasize != oldasize { SetArrayVector(nasize); }
      SetNodeVector(nhsize);
      RefillStart(t0, View(), nasize, nhsize);
      PutBackSlice(t0, oldarr, nasize, nhsize);
      PutBackNodes(t0, nold, nasize, nhsize);
      Refilled(t0, View(), nasize, nhsize);
    }

    // The loop over a vanishing slice of the array part.
    method PutBackSlice(ghost t0: Table, oldarr: array<Value>, nasize: nat, ghost nhsize: nat)
      requires Valid(t0) && Valid(View()) && Refilling(t0, View(), nasize, nhsize) && ArrBack(t0, View(), nasize)
      requires oldarr[..] == t0.arr && (oldarr == arr ==> oldarr.Length == nasize)
      modifies this, arr, node
      ensures arr == old(arr) && node == old(node) && Valid(View()) && Refilling(t0, View(), nasize, nhsize)
      ensures ArrBack(t0, View(), |t0.arr|)
      decreases 0, 3
    {
      hide Valid, Refilling;
      var i := nasize;
      while i < oldarr.Length
        invariant arr == old(arr) && node == old(node) && Valid(View()) && Refilling(t0, View(), nasize, nhsize)
        invariant nasize <= i && oldarr[..] == t0.arr && ArrBack(t0, View(), i)
      {
        ghost var t := View();
        SlotRoom(t0, t, nasize, nhsize, i);
        if oldarr[i] != Nil {
          SetInt(i + 1, oldarr[i]);
          SlotBack(t0, t, View(), nasize, nhsize, i);
        }
        i := i + 1;
      }
    }

    // The loop over the nodes of the old hash part.
    method PutBackNodes(ghost t0: Table, nold: array<Node>, ghost nasize: nat, ghost nhsize: nat)
      requires Valid(t0) && Valid(View()) && Refilling(t0, View(), nasize, nhsize) && nold != node && nold[..] == t0.ns
      requires ArrBack(t0, View(), |t0.arr|)
      modifies this, arr, node
      ensures arr == old(arr) && node == old(node) && Valid(View()) && Refilling(t0, View(), nasize, nhsize)
      ensures ArrBack(t0, View(), |t0.arr|) && NodesBack(t0, View(), 0)
      decreases 0, 3
    {
      hide Valid, Refilling;
      var j := nold.Length - 1;
      while j >= 0
        invariant arr == old(arr) && node == old(node) && Valid(View()) && Refilling(t0, View(), nasize, nhsize)
        invariant j < nold.Length && nold[..] == t0.ns
        invariant ArrBack(t0, View(), |t0.arr|) && NodesBack(t0, View(), j + 1)
      {
        if nold[j].val != Nil {
          ghost var t := View();
          NodeRoom(t0, t, nasize, nhsize, j);
          var _ := Put(nold[j].key, nold[j].val, false);
          NodeBack(t0, t, View(), nasize, nhsize, j);
        }
        j := j - 1;
      }
    }

    // Counting the keys of the array part, slice by slice: 'numusearray'.
    method NumUseArray(nums: array<nat>) returns (ause: nat)
      requires Valid(View()) && nums.Length == MAXABITS + 1 && forall l :: 0 <= l < nums.Length ==> nums[l] == 0
      modifies nums
      ensures Buckets(nums[..], IntsOf(LiveArr(arr[..], arr.Length))) && ause == |LiveArr(arr[..], arr.Length)|
    {
      hide Valid, Buckets, LiveArr, IntsOf;
      ghost var a := arr[..];
      SizeBound(View());
      var lg, ttlg, i := 0, 1, 1;
      ause := 0;
      PowMax();
      NoneCounted(a, nums[..]);
      while lg <= MAXABITS
        invariant 0 <= lg <= MAXABITS + 1 && ttlg == Pow(lg) && 1 <= i <= arr.Length + 1
        invariant i == arr.Length + 1 || i == 1 + if lg == 0 then 0 else Pow(lg - 1)
        invariant i == arr.Length + 1 ==> ttlg > arr.Length
        invariant Buckets(nums[..], IntsOf(LiveArr(a, i - 1))) && ause == |LiveArr(a, i - 1)|
      {
        var lc, lim := 0, ttlg;
        if lim > arr.Length {
          lim := arr.Length;
          if i > lim { break; }
        }
        ghost var base := nums[..];
        assert base[lg := base[lg] + lc] == base;
        while i <= lim
          invariant 1 <= i <= lim + 1 && (i > lim || lg == 0 || i > Pow(lg - 1)) && nums[..] == base
          invariant Buckets(base[lg := base[lg] + lc], IntsOf(LiveArr(a, i - 1))) && ause + lc == |LiveArr(a, i - 1)|
        {
          NextArr(a, i);
          if arr[i - 1] != Nil {
            CountKey(base[lg := base[lg] + lc], LiveArr(a, i - 1), Int(i), lg);
            assert base[lg := base[lg] + lc][lg := base[lg] + lc + 1] == base[lg := base[lg] + lc + 1];
            lc := lc + 1;
          }
          i := i + 1;
        }
        nums[lg] := nums[lg] + lc;
        ause := ause + lc;
        lg, ttlg := lg + 1, 2 * ttlg;
      }
    }

    // 'countint'.
    method CountInt(k: Key, nums: array<nat>, ghost K: set<Key>) returns (n: nat)
      requires Buckets(nums[..], IntsOf(K)) && k !in K
      modifies nums
      ensures Buckets(nums[..], IntsOf(K + {k})) && n == if InRange(k, MAXASIZE) then 1 else 0
      ensures n == |IntsOf(K + {k})| - |IntsOf(K)|
    {
      if k.Int? && 0 < k.i <= MAXASIZE {
        var l := CeilLog2(k.i);
        PowMax();
        CeilLogBound(k.i, l, MAXABITS);
        CountKey(nums[..], K, k, l);
        assert IntsOf(K + {k}) == IntsOf(K) + {k.i};
        nums[l] := nums[l] + 1;
        return 1;
      }
      CountKey(nums[..], K, k, 0);
      assert IntsOf(K + {k}) == IntsOf(K);
      return 0;
    }

    // 'numusehash'.
    method NumUseHash(nums: array<nat>, pna: nat) returns (totaluse: nat, na: nat)
      requires Valid(View()) && Buckets(nums[..], IntsOf(LiveArr(arr[..], arr.Length))) && pna == |LiveArr(arr[..], arr.Length)|
      modifies nums
      ensures Buckets(nums[..], IntsOf(Live(View()))) && na == |IntsOf(Live(View()))|
      ensures totaluse == |LiveNodes(node[..], 0)|
    {
      hide Valid, Buckets, LiveArr, LiveNodes, LiveFrom, IntsOf, Live;
      ghost var t := View();
      var ause := 0;
      totaluse := 0;
      var i := node.Length;
      ArrCounted(t);
      while i > 0
        invariant 0 <= i <= node.Length && View() == t && totaluse == |LiveNodes(t.ns, i)|
        invariant Buckets(nums[..], IntsOf(LiveFrom(t, i))) && pna + ause == |IntsOf(LiveFrom(t, i))|
      {
        i := i - 1;
        NextLive(t, i);
        if node[i].val != Nil {
          var n := CountInt(node[i].key, nums, LiveFrom(t, i + 1));
          ause := ause + n;
          totaluse := totaluse + 1;
        }
      }
      na := pna + ause;
    }

    // 'rehash': the new sizes leave room for all that was in the table, and for the extra key.
    method Rehash(ek: Key)
      requires Valid(View()) && Small() && CellOf(View(), ek, NoCell) && Norm(ek) == ek
      modifies this, arr, node
      ensures Valid(View()) && SameReads(old(View()), View()) && HasRoom(View(), ek)
      ensures IsOptimal(IntsOf(old(Live(View())) + {ek}), arr.Length)
      ensures Positions(View()) <= 2 * |old(Live(View()))| + 2
      ensures fresh(node) && (fresh(arr) || arr == old(arr))
      decreases 0, 5
    {
      ghost var t := View();
      ghost var K := Live(t) + {ek};
      RehashCounts(t, ek);
      var nums := new nat[MAXABITS + 1](_ => 0);
      hide Valid, Buckets, LiveArr, LiveNodes, IntsOf, Live, Upto, Outside, IsOptimal;
      var na := NumUseArray(nums);
      var totaluse := na;
      var h;
      h, na := NumUseHash(nums, na);
      totaluse := totaluse + h;
      var n := CountInt(ek, nums, Live(t));
      na, totaluse := na + n, totaluse + 1;
      var asize;
      asize, na := ComputeSizes(nums, na, IntsOf(K));
      RehashFits(t, ek, asize);
      Resize(asize, totaluse - na);
      RehashGrowth(t, ek, asize, node.Length);
    }

    // 't[k] = v' by a program: the table as a map.
    method SetField(k: Key, v: Value) returns (r: Outcome)
      requires Valid(View()) && Small()
      modifies this, arr, node
      ensures Valid(View()) && (r.Error? <==> Refused(k))
      ensures Contents(View()) == if r.Error? then old(Contents(View()))
        else if v == Nil then old(Contents(View())) - {Norm(k)} else old(Contents(View()))[Norm(k) := v]
      ensures (arr == old(arr) || fresh(arr)) && (node == old(node) || fresh(node))
      ensures Positions(View()) <= old(Positions(View())) || Positions(View()) <= 2 * |old(Contents(View()))| + 2
    {
      hide Valid, Contents, Read, Updated, Live;
      ghost var t := View();
      ContentsSize(t);
      r := Put(k, v, true);
      if r.Error? { SameContents(t, View()); } else { UpdatedContents(t, View(), k, v); }
    }

    // A program's assignments one after the other: the table stays what the same assignments make of a map.
    method SetFields(entries: seq<(Key, Value)>)
      requires Valid(View()) && Small() && 2 * (|Contents(View())| + |entries|) < MAXCOUNT
      modifies this, arr, node
      ensures Valid(View()) && Contents(View()) == Assigned(old(Contents(View())), entries)
      ensures Positions(View()) <= old(Positions(View())) || Positions(View()) <= 2 * (|old(Contents(View()))| + |entries|)
      ensures (arr == old(arr) || fresh(arr)) && (node == old(node) || fresh(node))
    {
      hide Valid, Contents, Live;
      SizeBound(View());
      ghost var m := Contents(View());
      assert entries[..0] == [];
      for i := 0 to |entries|
        invariant Valid(View()) && arr.Length <= MAXASIZE && Contents(View()) == Assigned(m, entries[..i])
        invariant Positions(View()) <= old(Positions(View())) || Positions(View()) <= 2 * (|m| + i)
        invariant (arr == old(arr) || fresh(arr)) && (node == old(node) || fresh(node))
      {
        AssignedSize(m, entries[..i]);
        assert entries[..i + 1][..i] == entries[..i];
        var _ := SetField(entries[i].0, entries[i].1);
        SizeBound(View());
      }
      assert entries[..|entries|] == entries;
    }

    // Overwriting or clearing an entry that has a value adds no key.
    method Overwrite(k: Key, v: Value)
      requires Valid(View()) && Read(View(), k) != Nil
      modifies arr, node
      ensures Valid(View()) && Updated(old(View()), View(), k, v) && SameShape(old(View()), View())
    {
      hide Valid;
      var c := Get(k);
      CellReads(View(), k, c);
      Store(k, c, v);
    }

    // ---- traversal and length ----

    // 'findindex'; -1 stands for its error.
    method FindIndex(k: Key) returns (i: int)
      requires Valid(View()) && !k.IntFloat?
      ensures i >= 0 ==> Starts(View(), k, i)
      ensures i < 0 ==> k != NilKey && !Known(View(), k)
    {
      if k.NilKey? { return 0; }
      if k.Int? && 0 < k.i <= MAXASIZE && k.i <= arr.Length { return k.i; }
      var c := FindNode(k);
      if c.InNode? {
        return c.j + 1 + arr.Length;
      }
      forall p: nat ensures !At(View(), k, p) {
        assert p < node.Length + arr.Length && p >= arr.Length && node[p - arr.Length].key == k ==> Used(node[..], p - arr.Length);
      }
      return -1;
    }

    // 'luaH_next'.
    method Next(k: Key) returns (r: Step)
      requires Valid(View()) && !k.IntFloat?
      ensures NextOf(View(), k, r)
    {
      hide Valid, Known, NextOf, Starts;
      ghost var t := View();
      SizeBound(t);
      var i := FindIndex(k);
      if i < 0 {
        NextUnknown(t, k);
        return BadKey;
      }
      ghost var s: nat := i;
      while i < arr.Length
        invariant s <= i && NoneLive(t, s, i) && (s <= arr.Length ==> i <= arr.Length)
      {
        if arr[i] != Nil {
          NextFound(t, k, s, i);
          return Entry(Int(i + 1), arr[i]);
        }
        i := i + 1;
      }
      i := i - arr.Length;
      while i < node.Length
        invariant 0 <= i && s <= i + arr.Length && NoneLive(t, s, i + arr.Length)
      {
        if node[i].val != Nil {
          NextFound(t, k, s, i + arr.Length);
          return Entry(node[i].key, node[i].val);
        }
        i := i + 1;
      }
      NextNone(t, k, s);
      return Done;
    }

    // The value of an integer key, read through the pointer that 'luaH_getint' returns.
    method FetchInt(i: Integer) returns (v: Value)
      requires Valid(View())
      ensures v == Read(View(), Int(i))
    {
      hide Valid;
      var c := GetInt(i);
      CellReads(View(), Int(i), c);
      match c
      case NoCell => v := Nil;
      case InArray(i) => v := arr[i];
      case InNode(j) => v := node[j].val;
    }

    // 'unbound_search': doubling, then a binary search; or a linear search when doubling gets too far.
    method UnboundSearch(start: nat) returns (n: Integer)
      requires Valid(View()) && start <= MAXASIZE && (start == 0 || Read(View(), Int(start)) != Nil)
      ensures Border(View(), n)
    {
      hide Valid, Read, Norm;
      var i: nat, j: nat := start, start + 1;
      var v := FetchInt(j);
      while v != Nil
        invariant i < j <= MAXASIZE + 1 && (i == 0 || Read(View(), Int(i)) != Nil) && v == Read(View(), Int(j))
        decreases MAXASIZE + 1 - j
      {
        i := j;
        if j > MAX_INT / 2 {
          n := LinearSearch();
          return;
        }
        j := j * 2;
        v := FetchInt(j);
      }
      n := BinarySearch(i, j);
    }

    method LinearSearch() returns (n: Integer)
      requires Valid(View())
      ensures Border(View(), n)
    {
      hide Valid, Read, Norm;
      var i: Integer := 1;
      var v := FetchInt(i);
      while v != Nil
        invariant 1 <= i && v == Read(View(), Int(i)) && forall x: Integer :: 1 <= x < i ==> Read(View(), Int(x)) != Nil
        invariant i - 1 <= arr.Length + node.Length
        decreases arr.Length + node.Length + 1 - i
      {
        SizeBound(View());
        FullPrefix(View(), i);
        i := i + 1;
        v := FetchInt(i);
      }
      n := i - 1;
    }

    method BinarySearch(present: nat, absent: nat) returns (n: Integer)
      requires Valid(View()) && present < absent <= 2 * MAXASIZE && Read(View(), Int(absent)) == Nil
      requires present == 0 || Read(View(), Int(present)) != Nil
      ensures Border(View(), n)
    {
      hide Valid, Read, Norm;
      var i: nat, j: nat := present, absent;
      while j - i > 1
        invariant i < j <= absent && Read(View(), Int(j)) == Nil && (i == 0 || Read(View(), Int(i)) != Nil)
      {
        var m := (i + j) / 2;
        var v := FetchInt(m);
        if v == Nil { j := m; } else { i := m; }
      }
      n := i;
    }

    // 'luaH_getn'.
    method GetN() returns (n: Integer)
      requires Valid(View())
      ensures Border(View(), n)
    {
      ghost var t := View();
      SizeBound(t);
      var j := arr.Length;
      if j > 0 && arr[j - 1] == Nil {
        var i := 0;
        while j - i > 1
          invariant 0 <= i < j <= arr.Length && arr[j - 1] == Nil && (i == 0 || arr[i - 1] != Nil)
        {
          var m := (i + j) / 2;
          if arr[m - 1] == Nil { j := m; } else { i := m; }
        }
        return i;
      } else if dummy {
        assert !Has(t.ns, Int(j + 1));
        return j;
      }
      n := UnboundSearch(j);
    }
  }

  predicate Refused(k: Key) { k.NilKey? || k.NaN? }

  // What 'luaH_newkey' and 'luaH_set' promise: a cell for k, and the same reads as before.
  ghost predicate KeyAdded(t: Table, t': Table, k: Key, r: Outcome) {
    && Valid(t') && SameReads(t, t')
    && r.Error? == Refused(k) && (k.NilKey? ==> r == Error(NIL_INDEX)) && (k.NaN? ==> r == Error(NAN_INDEX))
    && (r.Ok? ==> CellOf(t', k, r.cell) && r.cell != NoCell)
  }

  // The map after some assignments; those with a bad key change nothing.
  ghost function Assigned(m: map<Key, Value>, entries: seq<(Key, Value)>): map<Key, Value> {
    if entries == [] then m
    else
      var (k, v) := entries[|entries| - 1];
      var m' := Assigned(m, entries[..|entries| - 1]);
      if Refused(k) then m' else if v == Nil then m' - {Norm(k)} else m'[Norm(k) := v]
  }

  lemma {:induction false} AssignedSize(m: map<Key, Value>, entries: seq<(Key, Value)>)
    ensures |Assigned(m, entries)| <= |m| + |entries|
  {
    if entries != [] {
      var k := entries[|entries| - 1].0;
      var m' := Assigned(m, entries[..|entries| - 1]);
      AssignedSize(m, entries[..|entries| - 1]);
      SubsetSize((m' - {Norm(k)}).Keys, m'.Keys);
      SubsetSize(Assigned(m, entries).Keys, m'.Keys + {Norm(k)});
      KeysSize(m');
      KeysSize(Assigned(m, entries));
    }
  }

  lemma KeysSize(m: map<Key, Value>)
    ensures |m| == |m.Keys|
  {
  }

  lemma NotAdded(t: Table, k: Key, r: Outcome)
    requires Valid(t) && Refused(k) && r == Error(if k.NilKey? then NIL_INDEX else NAN_INDEX)
    ensures |t.arr| <= MAXASIZE && KeyAdded(t, t, k, r) && FreeAfter(t, t, k) && GrownFor(t, t)
  {
  }

  lemma IsNewAt(t: Table, k: Key, mp: nat)
    requires Valid(t) && CellOf(t, k, NoCell) && !Refused(k) && !t.dummy && mp == MainPos(Norm(k), |t.ns|)
    ensures NewAt(t, Norm(k), mp)
  {
  }

  // An insertion keeps the array part, the number of nodes and all but one of the free ones.
  lemma InsertedIsAdded(t: Table, t': Table, k: Key, j: nat)
    requires Valid(t) && CellOf(t, k, NoCell) && !Refused(k) && Inserted(t, t', Norm(k), j)
    ensures |t.arr| <= MAXASIZE && KeyAdded(t, t', k, Ok(InNode(j))) && FreeAfter(t, t', k) && GrownFor(t, t')
  {
    CellReads(t, k, NoCell);
  }

  // Room for k is an in-place position or a free node.
  lemma RoomGone(t: Table, k: Key, t': Table)
    requires Valid(t) && CellOf(t, k, NoCell) && !Refused(k) && Free(t) == {} && t' == t.(free := t'.free)
    ensures |t.arr| <= MAXASIZE && !HasRoom(t, k) && CellOf(t', Norm(k), NoCell) && SameReads(t, t') && Live(t') == Live(t)
  {
  }

  lemma AddedAfterGrowth(t: Table, full: Table, grown: Table, t': Table, k: Key, r: Outcome)
    requires Valid(t) && SameReads(t, full) && SameReads(full, grown) && KeyAdded(grown, t', Norm(k), r) && !Refused(k)
    requires Positions(t') == Positions(grown) <= 2 * |Live(t)| + 2
    ensures KeyAdded(t, t', k, r) && GrownFor(t, t')
  {
  }
}
