// The convergence over ephemeron tables in the atomic phase, and the clearing of their dead keys.
module Ephemeron {

  type Id = nat

  datatype Val = Nil | Prim | Ref(id: Id)

  datatype Entry = Entry(key: Val, val: Val)

  datatype Obj =
    | Str
    | Strong(refs: seq<Val>)
    | Eph(meta: Val, slots: seq<Val>, entries: seq<Entry>)   // an ephemeron table

  type Graph = map<Id, Obj>

  predicate IsStr(g: Graph, v: Val) { v.Ref? && v.id in g && g[v.id].Str? }

  predicate IsWhiteVal(m: set<Id>, v: Val) { v.Ref? && v.id !in m }

  // 'iscleared', but for its marking of strings.
  predicate Cleared(g: Graph, m: set<Id>, v: Val) { IsWhiteVal(m, v) && !IsStr(g, v) }

  ghost predicate AllIn(m: set<Id>, vs: seq<Val>) {
    forall v :: v in vs ==> !IsWhiteVal(m, v)
  }

  predicate LiveEntry(e: Entry) { !e.val.Nil? }

  // Strings are values: a string that is a key is never cleared.
  ghost predicate StringKeysIn(g: Graph, m: set<Id>, es: seq<Entry>) {
    forall e :: e in es && LiveEntry(e) && IsStr(g, e.key) ==> !IsWhiteVal(m, e.key)
  }

  // A value is held by its key: it is in m when the key does not stand to be cleared.
  ghost predicate EntriesClosed(g: Graph, m: set<Id>, es: seq<Entry>) {
    forall e :: e in es && LiveEntry(e) && !Cleared(g, m, e.key) ==> !IsWhiteVal(m, e.val)
  }

  ghost predicate ValuesIn(m: set<Id>, es: seq<Entry>) {
    forall e :: e in es && LiveEntry(e) ==> !IsWhiteVal(m, e.val)
  }

  ghost predicate KeysIn(m: set<Id>, es: seq<Entry>) {
    forall e :: e in es && LiveEntry(e) ==> !IsWhiteVal(m, e.key)
  }

  ghost predicate ClosedAt(g: Graph, m: set<Id>, o: Id) {
    o in g ==>
      match g[o]
      case Str => true
      case Strong(refs) => AllIn(m, refs)
      case Eph(meta, slots, entries) =>
        AllIn(m, [meta]) && AllIn(m, slots) && StringKeysIn(g, m, entries) && EntriesClosed(g, m, entries)
  }

  // Ephemeron reachability: the sets that contain all that they hold.
  ghost predicate ClosedSet(g: Graph, m: set<Id>) {
    forall o :: o in m ==> ClosedAt(g, m, o)
  }

  // m is the least closed set over m0.
  ghost predicate IsLeast(g: Graph, m0: set<Id>, m: set<Id>) {
    m0 <= m && ClosedSet(g, m) && forall c :: m0 <= c && ClosedSet(g, c) ==> m <= c
  }

  // ---- the same, entry by entry ----

  predicate Inside(v: Val, m: set<Id>) { v.Ref? ==> v.id in m }

  // An entry without a value holds nothing. A string key is held like a value; with any other key the value is
  // held only if the key is in m or is no object.
  predicate EntryInside(g: Graph, m: set<Id>, e: Entry) {
    e.val != Nil ==>
      if e.key.Ref? && e.key.id in g && g[e.key.id] == Str then e.key.id in m && Inside(e.val, m)
      else (e.key.Ref? && e.key.id !in m) || Inside(e.val, m)
  }

  predicate HeldInside(g: Graph, m: set<Id>, b: Obj) {
    match b
    case Str => true
    case Strong(refs) => forall i :: 0 <= i < |refs| ==> Inside(refs[i], m)
    case Eph(meta, slots, entries) =>
      && Inside(meta, m) && (forall i :: 0 <= i < |slots| ==> Inside(slots[i], m))
      && forall i :: 0 <= i < |entries| ==> EntryInside(g, m, entries[i])
  }

  lemma InsideIsIn(m: set<Id>, vs: seq<Val>)
    ensures AllIn(m, vs) <==> forall i :: 0 <= i < |vs| ==> Inside(vs[i], m)
  {
    assert forall i :: 0 <= i < |vs| ==> vs[i] in vs;
  }

  lemma EntriesInside(g: Graph, m: set<Id>, es: seq<Entry>)
    ensures StringKeysIn(g, m, es) && EntriesClosed(g, m, es) <==> forall i :: 0 <= i < |es| ==> EntryInside(g, m, es[i])
  {
    assert forall i :: 0 <= i < |es| ==> es[i] in es;
  }

  // What it means to be closed, in terms of the fields of the objects.
  lemma ClosedSetIs(g: Graph, m: set<Id>)
    ensures ClosedSet(g, m) <==> forall o :: o in m && o in g ==> HeldInside(g, m, g[o])
  {
    hide AllIn, Inside, StringKeysIn, EntriesClosed, EntryInside;
    forall o | o in g ensures ClosedAt(g, m, o) <==> HeldInside(g, m, g[o]) {
      match g[o]
      case Str =>
      case Strong(refs) => InsideIsIn(m, refs);
      case Eph(meta, slots, entries) =>
        InsideIsIn(m, [meta]);
        InsideIsIn(m, slots);
        EntriesInside(g, m, entries);
        assert [meta][0] == meta;
    }
  }

  // ---- uniqueness ----

  // Whatever order the tables were visited in, the marks are the same.
  lemma LeastIsUnique(g: Graph, m0: set<Id>, a: set<Id>, b: set<Id>)
    requires IsLeast(g, m0, a) && IsLeast(g, m0, b)
    ensures a == b
  {
  }

  datatype State = State(marked: set<Id>, gray: seq<Id>, ephemeron: seq<Id>, allweak: seq<Id>)

  ghost predicate Exists(g: Graph, vs: seq<Val>) {
    forall v :: v in vs && v.Ref? ==> v.id in g
  }

  ghost predicate GraphOk(g: Graph) {
    forall o :: o in g ==>
      match g[o]
      case Str => true
      case Strong(refs) => Exists(g, refs)
      case Eph(meta, slots, entries) =>
        Exists(g, [meta]) && Exists(g, slots) && forall e :: e in entries ==> Exists(g, [e.key]) && Exists(g, [e.val])
  }

  // What the traversal of an object has seen to. The tables that are to be visited again are in 'again'.
  ghost predicate DoneAt(g: Graph, s: State, again: set<Id>, o: Id) {
    o in g ==>
      match g[o]
      case Str => true
      case Strong(refs) => AllIn(s.marked, refs)
      case Eph(meta, slots, entries) =>
        && AllIn(s.marked, [meta]) && AllIn(s.marked, slots) && StringKeysIn(g, s.marked, entries)
        && (o in again || ValuesIn(s.marked, entries))
        && (o in again || o in s.allweak || KeysIn(s.marked, entries))
  }

  // The invariant of the atomic phase once the 'grayagain' list has been traversed.
  ghost predicate Converging(g: Graph, s: State, again: set<Id>) {
    && (forall o :: o in s.marked ==> o in g)
    && (forall o :: o in s.gray ==> o in s.marked)
    && (forall o :: o in s.marked && o !in s.gray ==> DoneAt(g, s, again, o))
  }

  ghost function Elems(q: seq<Id>): set<Id> { set x | x in q }

  // White objects got marked; all but strings joined the gray list.
  ghost predicate Extends(g: Graph, s: State, s': State) {
    && s.marked <= s'.marked
    && (forall x :: x in s'.marked && x !in s.marked ==> x in g && (x in s'.gray || g[x].Str?))
    && (forall x :: x in s.gray ==> x in s'.gray)
    && (forall x :: x in s'.gray ==> x in s.gray || (x in s'.marked && x !in s.marked && x in g && !g[x].Str?))
    && (s'.marked == s.marked ==> s'.gray == s.gray)
  }

  // No closed set that has the old marks can do without the new ones.
  ghost predicate Only(g: Graph, m: set<Id>, m': set<Id>) {
    forall c :: ClosedSet(g, c) && m <= c ==> m' <= c
  }

  lemma ExtendsTransitive(g: Graph, a: State, b: State, c: State)
    requires Extends(g, a, b) && Extends(g, b, c)
    ensures Extends(g, a, c)
  {
  }

  // Only strings were marked.
  ghost predicate StringsOnly(g: Graph, m: set<Id>, m': set<Id>) {
    forall x :: x in m' && x !in m ==> x in g && g[x].Str?
  }

  ghost predicate Held(g: Graph, m: set<Id>, vs: seq<Val>) {
    forall c :: ClosedSet(g, c) && m <= c ==> AllIn(c, vs)
  }

  lemma DoneMonotone(g: Graph, s: State, again: set<Id>, s': State, again': set<Id>, o: Id)
    requires DoneAt(g, s, again, o) && s.marked <= s'.marked && (o in again ==> o in again')
    requires forall x :: x in s.allweak ==> x in s'.allweak
    ensures DoneAt(g, s', again', o)
  {
  }

  ghost predicate Prefix(g: Graph, m: set<Id>, es: seq<Entry>, clears: bool, ww: bool) {
    && StringKeysIn(g, m, es) && (ww || ValuesIn(m, es)) && (clears || KeysIn(m, es))
  }

  lemma PrefixGrows(g: Graph, m: set<Id>, es: seq<Entry>, clears: bool, ww: bool, m': set<Id>, e: Entry, c: bool, w: bool)
    requires Prefix(g, m, es, clears, ww) && m <= m' && Prefix(g, m', [e], c, w)
    ensures Prefix(g, m', es + [e], clears || c, ww || w)
  {
    forall x | x in es + [e] && LiveEntry(x)
      ensures (IsStr(g, x.key) ==> !IsWhiteVal(m', x.key)) && (ww || w || !IsWhiteVal(m', x.val)) && (clears || c || !IsWhiteVal(m', x.key))
    {
      if x in es { } else { assert x in [e]; }
    }
  }

  // Marking strings lets no other key off being cleared.
  lemma ClosedPrefixGrows(g: Graph, m: set<Id>, es: seq<Entry>, m': set<Id>, e: Entry)
    requires EntriesClosed(g, m, es) && m <= m' && StringsOnly(g, m, m') && EntriesClosed(g, m', [e])
    ensures EntriesClosed(g, m', es + [e])
  {
    forall x | x in es + [e] && LiveEntry(x) && !Cleared(g, m', x.key) ensures !IsWhiteVal(m', x.val) {
      if x in es { assert !Cleared(g, m, x.key); } else { assert x in [e]; }
    }
  }

  lemma OnlyTransitive(g: Graph, a: set<Id>, b: set<Id>, c: set<Id>)
    requires Only(g, a, b) && Only(g, b, c)
    ensures Only(g, a, c)
  {
  }

  // What an entry makes the collector mark is in every closed set that has the table.
  lemma EntryHeld(g: Graph, m: set<Id>, t: Id, e: Entry, m1: set<Id>, m2: set<Id>)
    requires t in m && t in g && g[t].Eph? && e in g[t].entries && LiveEntry(e)
    requires m1 == m || (IsStr(g, e.key) && m1 == m + {e.key.id})
    requires m2 == m1 || (!IsWhiteVal(m1, e.key) && e.val.Ref? && m2 == m1 + {e.val.id})
    ensures Only(g, m, m2)
  {
    forall c | ClosedSet(g, c) && m <= c ensures m2 <= c {
      assert ClosedAt(g, c, t);
      assert m1 <= c;
      if m2 != m1 { assert !Cleared(g, c, e.key); }
    }
  }

  lemma HeldByTable(g: Graph, m: set<Id>, t: Id)
    requires t in m && t in g && g[t].Eph?
    ensures Held(g, m, g[t].slots) && Held(g, m, [g[t].meta])
  {
    forall c | ClosedSet(g, c) && m <= c ensures AllIn(c, g[t].slots) && AllIn(c, [g[t].meta]) {
      assert ClosedAt(g, c, t);
    }
  }

  lemma HeldByStrong(g: Graph, m: set<Id>, o: Id)
    requires o in m && o in g && g[o].Strong?
    ensures Held(g, m, g[o].refs)
  {
    forall c | ClosedSet(g, c) && m <= c ensures AllIn(c, g[o].refs) { assert ClosedAt(g, c, o); }
  }

  // A list of marked ephemeron tables.
  ghost predicate Tables(g: Graph, m: set<Id>, q: seq<Id>) {
    forall t :: t in q ==> t in m && t in g && g[t].Eph?
  }

  // One object left the gray list and was traversed; the others are as they were.
  lemma OneMoreDone(g: Graph, s: State, again: set<Id>, s': State, again': set<Id>, o: Id)
    requires Converging(g, s, again) && o in s.marked
    requires s.marked <= s'.marked && forall x :: x in s'.marked && x !in s.marked ==> x in g && (x in s'.gray || g[x].Str?)
    requires forall x :: x in s.gray && x != o ==> x in s'.gray
    requires forall x :: x in s'.gray ==> x in s'.marked
    requires again <= again' + {o} && (forall x :: x in s.allweak ==> x in s'.allweak)
    requires DoneAt(g, s', again', o)
    ensures Converging(g, s', again')
  {
    forall x | x in s'.marked && x !in s'.gray ensures DoneAt(g, s', again', x) {
      if x != o {
        if x in s.marked { DoneMonotone(g, s, again, s', again', x); }
      }
    }
  }

  ghost predicate ClosedTable(g: Graph, s: State, again: set<Id>, t: Id) {
    t in g && g[t].Eph? ==> AllIn(s.marked, [g[t].meta])
  }

  lemma NewMarks(g: Graph, m: set<Id>, m': set<Id>)
    requires m <= m' && forall o :: o in m' ==> o in g
    ensures m < m' ==> g.Keys - m' < g.Keys - m
  {
    if m < m' {
      var x :| x in m' && x !in m;
      assert x in g.Keys - m && x !in g.Keys - m';
    }
  }

  lemma StillClosed(g: Graph, m: set<Id>, m': set<Id>, q: seq<Id>)
    requires m <= m' && StringsOnly(g, m, m') && Tables(g, m, q)
    requires forall t :: t in q ==> EntriesClosed(g, m, g[t].entries)
    ensures forall t :: t in q ==> EntriesClosed(g, m', g[t].entries)
  {
    forall t | t in q ensures EntriesClosed(g, m', g[t].entries) {
      forall e | e in g[t].entries && LiveEntry(e) && !Cleared(g, m', e.key) ensures !IsWhiteVal(m', e.val) {
        assert !Cleared(g, m, e.key);
      }
    }
  }

  // With the gray list empty and no table left that could mark anything, the marks are closed.
  lemma Converged(g: Graph, s: State)
    requires s.gray == [] && Converging(g, s, Elems(s.ephemeron)) && Tables(g, s.marked, s.ephemeron)
    requires forall t :: t in s.ephemeron ==> EntriesClosed(g, s.marked, g[t].entries)
    ensures ClosedSet(g, s.marked)
  {
    forall o | o in s.marked ensures ClosedAt(g, s.marked, o) { assert DoneAt(g, s, Elems(s.ephemeron), o); }
  }

  // An entry whose key is not marked loses its value.
  function ClearedEntry(g: Graph, m: set<Id>, e: Entry): Entry {
    if LiveEntry(e) && Cleared(g, m, e.key) then Entry(e.key, Nil) else e
  }

  function WithoutCleared(g: Graph, m: set<Id>, es: seq<Entry>): (r: seq<Entry>)
    ensures |r| == |es| && forall i :: 0 <= i < |r| ==> r[i] == ClearedEntry(g, m, es[i])
  {
    if es == [] then [] else [ClearedEntry(g, m, es[0])] + WithoutCleared(g, m, es[1..])
  }

  function ClearedObj(g: Graph, m: set<Id>, o: Obj): Obj {
    match o
    case Eph(meta, slots, entries) => Eph(meta, slots, WithoutCleared(g, m, entries))
    case _ => o
  }

  // The graph after the tables of 'ts' have been cleared.
  function ClearedGraph(g: Graph, m: set<Id>, ts: set<Id>): Graph {
    map o | o in g :: if o in ts then ClearedObj(g, m, g[o]) else g[o]
  }

  // What o still holds is marked.
  ghost predicate NothingWhite(g: Graph, m: set<Id>, o: Id) {
    o in g ==>
      match g[o]
      case Str => true
      case Strong(refs) => AllIn(m, refs)
      case Eph(meta, slots, entries) => AllIn(m, [meta]) && AllIn(m, slots) && KeysIn(m, entries) && ValuesIn(m, entries)
  }

  // Clearing takes the value, and only the value, of exactly the entries whose key is an unmarked object that is no
  // string.
  lemma ClearedExactly(g: Graph, m: set<Id>, ts: set<Id>, t: Id, i: nat)
    requires t in ts && t in g && g[t].Eph? && i < |g[t].entries|
    ensures var o, o' := g[t], ClearedGraph(g, m, ts)[t];
      o'.Eph? && o'.meta == o.meta && o'.slots == o.slots && |o'.entries| == |o.entries|
      && o'.entries[i].key == o.entries[i].key
      && o'.entries[i].val ==
        if o.entries[i].key.Ref? && o.entries[i].key.id !in m && !(o.entries[i].key.id in g && g[o.entries[i].key.id] == Str) then Nil
        else o.entries[i].val
  {
  }

  lemma ClearingIsStable(g: Graph, m: set<Id>, ts: set<Id>, es: seq<Entry>)
    ensures WithoutCleared(ClearedGraph(g, m, ts), m, es) == WithoutCleared(g, m, es)
    ensures WithoutCleared(g, m, WithoutCleared(g, m, es)) == WithoutCleared(g, m, es)
  {
    var g1 := ClearedGraph(g, m, ts);
    forall i | 0 <= i < |es| ensures ClearedEntry(g1, m, es[i]) == ClearedEntry(g, m, es[i]) {
      assert IsStr(g1, es[i].key) == IsStr(g, es[i].key);
    }
  }

  lemma ClearedObjStable(g: Graph, m: set<Id>, ts: set<Id>, o: Obj)
    ensures ClearedObj(ClearedGraph(g, m, ts), m, o) == ClearedObj(g, m, o)
    ensures ClearedObj(g, m, ClearedObj(g, m, o)) == ClearedObj(g, m, o)
  {
    if o.Eph? { ClearingIsStable(g, m, ts, o.entries); }
  }

  lemma ClearMore(g: Graph, m: set<Id>, a: set<Id>, b: set<Id>)
    ensures ClearedGraph(ClearedGraph(g, m, a), m, b) == ClearedGraph(g, m, a + b)
  {
    var g1 := ClearedGraph(g, m, a);
    forall o | o in g ensures ClearedGraph(g1, m, b)[o] == ClearedGraph(g, m, a + b)[o] {
      ClearedObjStable(g, m, a, g[o]);
      ClearedObjStable(g, m, a, g1[o]);
    }
  }

  lemma ClearOneMore(g: Graph, m: set<Id>, a: set<Id>, t: Id)
    requires t in g
    ensures var g1 := ClearedGraph(g, m, a); g1[t := ClearedObj(g1, m, g1[t])] == ClearedGraph(g, m, a + {t})
  {
    var g1 := ClearedGraph(g, m, a);
    ClearMore(g, m, a, {t});
    assert g1[t := ClearedObj(g1, m, g1[t])] == ClearedGraph(g1, m, {t});
  }

  lemma ClearedIsClean(g: Graph, s: State)
    requires s.gray == [] && Converging(g, s, Elems(s.ephemeron)) && ClosedSet(g, s.marked)
    ensures forall o :: o in s.marked ==> NothingWhite(ClearedGraph(g, s.marked, Elems(s.ephemeron) + Elems(s.allweak)), s.marked, o)
  {
    var ts := Elems(s.ephemeron) + Elems(s.allweak);
    var g1 := ClearedGraph(g, s.marked, ts);
    forall o | o in s.marked ensures NothingWhite(g1, s.marked, o) {
      assert ClosedAt(g, s.marked, o) && DoneAt(g, s, Elems(s.ephemeron), o);
      if g[o].Eph? { TableIsClean(g, s.marked, g[o].entries, g1[o].entries, o in ts); }
    }
  }

  lemma TableIsClean(g: Graph, m: set<Id>, es: seq<Entry>, es': seq<Entry>, cleared: bool)
    requires StringKeysIn(g, m, es) && EntriesClosed(g, m, es)
    requires if cleared then es' == WithoutCleared(g, m, es) else es' == es && KeysIn(m, es)
    ensures KeysIn(m, es') && ValuesIn(m, es')
  {
    forall e | e in es' && LiveEntry(e) ensures !IsWhiteVal(m, e.key) && !IsWhiteVal(m, e.val) {
      if cleared {
        var i :| 0 <= i < |es'| && es'[i] == e;
        assert es[i] in es && es[i] == e;
      }
    }
  }

  class Atomic {
    var g: Graph
    var marked: set<Id>
    var gray: seq<Id>
    var ephemeron: seq<Id>
    var allweak: seq<Id>

    function View(): State
      reads this
    {
      State(marked, gray, ephemeron, allweak)
    }

    // The macro 'markvalue', with 'reallymarkobject'.
    method MarkValue(v: Val) returns (was: bool)
      requires Exists(g, [v])
      modifies this`marked, this`gray
      ensures was == IsWhiteVal(old(marked), v)
      ensures marked == (if was then old(marked) + {v.id} else old(marked)) && Extends(g, old(View()), View())
      ensures was && IsStr(g, v) ==> gray == old(gray)
    {
      was := v.Ref? && v.id !in marked;
      if was {
        assert v in [v];
        marked := marked + {v.id};
        if !g[v.id].Str? {
          gray := [v.id] + gray;
        }
      }
    }

    method MarkValues(vs: seq<Val>) returns (any: bool)
      requires Exists(g, vs) && Held(g, marked, vs)
      modifies this`marked, this`gray
      ensures AllIn(marked, vs) && Extends(g, old(View()), View()) && Only(g, old(marked), marked)
      ensures if any then old(marked) < marked else marked == old(marked)
    {
      any := false;
      for i := 0 to |vs|
        invariant AllIn(marked, vs[..i]) && Extends(g, old(View()), View()) && Only(g, old(marked), marked)
        invariant if any then old(marked) < marked else marked == old(marked)
      {
        ghost var s := View();
        assert vs[i] in vs && vs[..i+1] == vs[..i] + [vs[i]];
        var was := MarkValue(vs[i]);
        any := any || was;
        ExtendsTransitive(g, old(View()), s, View());
      }
      assert vs[..|vs|] == vs;
    }

    // One entry of the hash part in 'traverseephemeron'.
    method TraverseEntry(e: Entry, ghost t: Id) returns (any: bool, clears: bool, ww: bool)
      requires GraphOk(g) && t in marked && t in g && g[t].Eph? && e in g[t].entries
      modifies this`marked, this`gray
      ensures Extends(g, old(View()), View()) && Only(g, old(marked), marked)
      ensures StringKeysIn(g, marked, [e])
      ensures ww || ValuesIn(marked, [e])
      ensures clears || KeysIn(marked, [e])
      ensures any ==> old(marked) < marked
      ensures !any ==> StringsOnly(g, old(marked), marked) && gray == old(gray) && EntriesClosed(g, marked, [e])
    {
      any, clears, ww := false, false, false;
      assert Exists(g, [e.key]) && Exists(g, [e.val]);
      if e.val.Nil? {
        return;
      }
      if IsStr(g, e.key) {
        var _ := MarkValue(e.key);
      }
      ghost var s := View();
      if e.key.Ref? && e.key.id !in marked {
        clears := true;
        ww := e.val.Ref? && e.val.id !in marked;
      } else {
        any := MarkValue(e.val);
        ExtendsTransitive(g, old(View()), s, View());
      }
      EntryHeld(g, old(marked), t, e, s.marked, marked);
    }

    // The hash part in 'traverseephemeron'.
    method TraverseEntries(t: Id) returns (any: bool, clears: bool, ww: bool)
      requires GraphOk(g) && t in marked && t in g && g[t].Eph?
      modifies this`marked, this`gray
      ensures Extends(g, old(View()), View()) && Only(g, old(marked), marked)
      ensures Prefix(g, marked, g[t].entries, clears, ww)
      ensures any ==> old(marked) < marked
      ensures !any ==> StringsOnly(g, old(marked), marked) && gray == old(gray) && EntriesClosed(g, marked, g[t].entries)
    {
      any, clears, ww := false, false, false;
      var es := g[t].entries;
      for i := 0 to |es|
        invariant Extends(g, old(View()), View()) && Only(g, old(marked), marked)
        invariant Prefix(g, marked, es[..i], clears, ww)
        invariant any ==> old(marked) < marked
        invariant !any ==> StringsOnly(g, old(marked), marked) && gray == old(gray) && EntriesClosed(g, marked, es[..i])
      {
        ghost var s := View();
        assert es[..i+1] == es[..i] + [es[i]];
        var a, c, w := TraverseEntry(es[i], t);
        PrefixGrows(g, s.marked, es[..i], clears, ww, marked, es[i], c, w);
        ExtendsTransitive(g, old(View()), s, View());
        OnlyTransitive(g, old(marked), s.marked, marked);
        any, clears, ww := any || a, clears || c, ww || w;
        if !any { ClosedPrefixGrows(g, s.marked, es[..i], marked, es[i]); }
      }
      assert es[..|es|] == es;
    }

    // 'traverseephemeron' in the atomic phase.
    method TraverseEphemeron(t: Id) returns (any: bool)
      requires GraphOk(g) && t in marked && t in g && g[t].Eph? && AllIn(marked, [g[t].meta])
      modifies this`marked, this`gray, this`ephemeron, this`allweak
      ensures Extends(g, old(View()), View()) && Only(g, old(marked), marked)
      ensures ephemeron in {old(ephemeron), [t] + old(ephemeron)} && allweak in {old(allweak), [t] + old(allweak)}
      ensures DoneAt(g, View(), Elems(ephemeron), t)
      ensures any ==> old(marked) < marked
      ensures !any ==> StringsOnly(g, old(marked), marked) && gray == old(gray) && EntriesClosed(g, marked, g[t].entries)
    {
      HeldByTable(g, marked, t);
      any := MarkValues(g[t].slots);
      ghost var s := View();
      var a, clears, ww := TraverseEntries(t);
      ExtendsTransitive(g, old(View()), s, View());
      OnlyTransitive(g, old(marked), s.marked, marked);
      any := any || a;
      if ww {
        ephemeron := [t] + ephemeron;
      } else if clears {
        allweak := [t] + allweak;
      }
    }

    // 'propagatemark', for the objects of this graph. 'rest' are tables still to be visited by the caller.
    method PropagateMark(ghost rest: set<Id>)
      requires GraphOk(g) && Converging(g, View(), Elems(ephemeron) + rest) && gray != []
      requires Tables(g, marked, ephemeron) && Tables(g, marked, allweak) && forall o :: o in gray ==> o in g && !g[o].Str?
      modifies this`marked, this`gray, this`ephemeron, this`allweak
      ensures Converging(g, View(), Elems(ephemeron) + rest) && Only(g, old(marked), marked)
      ensures Tables(g, marked, ephemeron) && Tables(g, marked, allweak) && forall o :: o in gray ==> o in g && !g[o].Str?
      ensures old(marked) < marked || (marked == old(marked) && gray == old(gray)[1..])
    {
      ghost var s := View();
      var o := gray[0];
      gray := gray[1..];
      ghost var t := View();
      assert forall x :: x in s.gray ==> x == o || x in t.gray;
      match g[o]
      case Strong(refs) =>
        HeldByStrong(g, marked, o);
        var _ := MarkValues(refs);
      case Eph(meta, slots, entries) =>
        HeldByTable(g, marked, o);
        var _ := MarkValues([meta]);
        ghost var u := View();
        var _ := TraverseEphemeron(o);
        ExtendsTransitive(g, t, u, View());
        OnlyTransitive(g, s.marked, u.marked, marked);
      OneMoreDone(g, s, Elems(s.ephemeron) + rest, View(), Elems(ephemeron) + rest, o);
    }

    // 'propagateall'.
    method PropagateAll(ghost rest: set<Id>)
      requires GraphOk(g) && Converging(g, View(), Elems(ephemeron) + rest)
      requires Tables(g, marked, ephemeron) && Tables(g, marked, allweak) && forall o :: o in gray ==> o in g && !g[o].Str?
      modifies this`marked, this`gray, this`ephemeron, this`allweak
      ensures Converging(g, View(), Elems(ephemeron) + rest) && Only(g, old(marked), marked) && gray == []
      ensures Tables(g, marked, ephemeron) && Tables(g, marked, allweak) && old(marked) <= marked
    {
      while gray != []
        invariant Converging(g, View(), Elems(ephemeron) + rest) && Only(g, old(marked), marked)
        invariant Tables(g, marked, ephemeron) && Tables(g, marked, allweak) && old(marked) <= marked && forall o :: o in gray ==> o in g && !g[o].Str?
        decreases g.Keys - marked, |gray|
      {
        ghost var m := marked;
        PropagateMark(rest);
        OnlyTransitive(g, old(marked), m, marked);
        NewMarks(g, m, marked);
      }
    }

    // The inner loop of 'convergeephemerons': one visit to every table of the list.
    method VisitTables() returns (changed: bool)
      requires GraphOk(g) && gray == [] && Converging(g, View(), Elems(ephemeron)) && Tables(g, marked, ephemeron) && Tables(g, marked, allweak)
      modifies this`marked, this`gray, this`ephemeron, this`allweak
      ensures gray == [] && Converging(g, View(), Elems(ephemeron)) && Tables(g, marked, ephemeron) && Tables(g, marked, allweak)
      ensures Only(g, old(marked), marked) && old(marked) <= marked
      ensures changed ==> old(marked) < marked
      ensures !changed ==> forall t :: t in ephemeron ==> EntriesClosed(g, marked, g[t].entries)
    {
      var next := ephemeron;
      ephemeron := [];
      changed := false;
      assert Elems(ephemeron) + Elems(next) == Elems(next);
      while next != []
        invariant gray == [] && Converging(g, View(), Elems(ephemeron) + Elems(next))
        invariant Tables(g, marked, ephemeron) && Tables(g, marked, allweak) && Tables(g, marked, next)
        invariant Only(g, old(marked), marked) && old(marked) <= marked
        invariant changed ==> old(marked) < marked
        invariant !changed ==> forall t :: t in ephemeron ==> EntriesClosed(g, marked, g[t].entries)
        decreases |next|
      {
        ghost var s, again := View(), Elems(ephemeron) + Elems(next);
        var w := next[0];
        assert w in next && ClosedTable(g, s, again, w) by { assert DoneAt(g, s, again, w); }
        next := next[1..];
        assert forall x :: x in again ==> x == w || x in Elems(ephemeron) + Elems(next);
        var any := TraverseEphemeron(w);
        OneMoreDone(g, s, again, View(), Elems(ephemeron) + Elems(next), w);
        OnlyTransitive(g, old(marked), s.marked, marked);
        if any {
          ghost var m := marked;
          PropagateAll(Elems(next));
          OnlyTransitive(g, old(marked), m, marked);
          changed := true;
        } else if !changed {
          StillClosed(g, s.marked, marked, s.ephemeron);
        }
      }
      assert Elems(ephemeron) + Elems(next) == Elems(ephemeron);
    }

    // 'convergeephemerons': the marks are the least fixed point of ephemeron reachability.
    method ConvergeEphemerons()
      requires GraphOk(g) && gray == [] && Converging(g, View(), Elems(ephemeron)) && Tables(g, marked, ephemeron) && Tables(g, marked, allweak)
      modifies this`marked, this`gray, this`ephemeron, this`allweak
      ensures IsLeast(g, old(marked), marked)
      ensures gray == [] && Converging(g, View(), Elems(ephemeron)) && Tables(g, marked, ephemeron) && Tables(g, marked, allweak)
    {
      var changed := true;
      while changed
        invariant gray == [] && Converging(g, View(), Elems(ephemeron)) && Tables(g, marked, ephemeron) && Tables(g, marked, allweak)
        invariant Only(g, old(marked), marked) && old(marked) <= marked
        invariant !changed ==> forall t :: t in ephemeron ==> EntriesClosed(g, marked, g[t].entries)
        decreases g.Keys - marked, changed
      {
        ghost var m := marked;
        changed := VisitTables();
        OnlyTransitive(g, old(marked), m, marked);
        NewMarks(g, m, marked);
      }
      Converged(g, View());
    }

    // The loop over the hash part in 'clearkeys'. The string keys are marked by now.
    method ClearEntries(es: seq<Entry>) returns (r: seq<Entry>)
      ensures r == WithoutCleared(g, marked, es)
    {
      r := es;
      for i := 0 to |es|
        invariant |r| == |es| && r[i..] == es[i..] && r[..i] == WithoutCleared(g, marked, es)[..i]
      {
        if !r[i].val.Nil? && r[i].key.Ref? && r[i].key.id !in marked && !IsStr(g, r[i].key) {
          r := r[i := Entry(r[i].key, Nil)];
        }
      }
    }

    // 'clearkeys'.
    method ClearKeys(list: seq<Id>)
      requires Tables(g, marked, list)
      modifies this`g
      ensures g == ClearedGraph(old(g), marked, Elems(list))
    {
      assert g == ClearedGraph(old(g), marked, Elems([]));
      for i := 0 to |list|
        invariant g == ClearedGraph(old(g), marked, Elems(list[..i]))
      {
        var t := list[i];
        assert t in list;
        var Eph(meta, slots, entries) := g[t];
        var es := ClearEntries(entries);
        ClearOneMore(old(g), marked, Elems(list[..i]), t);
        assert Elems(list[..i+1]) == Elems(list[..i]) + {t};
        g := g[t := Eph(meta, slots, es)];
      }
      assert list[..|list|] == list;
    }

    // What 'atomic' does with the ephemeron tables: afterwards no marked object holds an unmarked one.
    method ConvergeAndClear()
      requires GraphOk(g) && gray == [] && Converging(g, View(), Elems(ephemeron)) && Tables(g, marked, ephemeron) && Tables(g, marked, allweak)
      modifies this
      ensures IsLeast(old(g), old(marked), marked)
      ensures forall o :: o in marked ==> NothingWhite(g, marked, o)
      ensures g == ClearedGraph(old(g), marked, Elems(ephemeron) + Elems(allweak))
    {
      ghost var g0 := g;
      ConvergeEphemerons();
      ClearedIsClean(g0, View());
      ClearKeys(ephemeron);
      ClearKeys(allweak);
      ClearMore(g0, marked, Elems(ephemeron), Elems(allweak));
    }
  }
}
