// Every transition keeps the collector's invariant.
module GcProofs {
  import opened GcHeap
  import opened GcState
  import opened GcSteps

  // Changing colours keeps the live objects closed when no dead object comes back to life.
  lemma LiveKept(s: St, s': St)
    requires s'.h == s.h && s'.current == s.current && s'.color.Keys == s.color.Keys
    requires s'.main == s.main && s'.registry == s.registry && s'.mt == s.mt && s'.fixedgc == s.fixedgc
    requires forall id :: id in s.color ==> (Live(s, id) <==> Live(s', id))
    requires Safe(s)
    ensures Safe(s')
  {
    forall r | IsRoot(s', r) ensures Live(s', r) { assert IsRoot(s, r); assert Live(s, r); }
    forall a, b | Live(s', a) && Points(s'.h, a, b) ensures Live(s', b) {
      assert Live(s, a);
      assert Live(s, b);
    }
  }

  // ---- marking ----

  lemma MarksKeepLists(s: St, m: St)
    requires Marks(s, m) && Listed(s) && FixedGray(s)
    ensures Listed(m)
  {
    forall id | id in m.gray
      ensures id in m.color && id in m.h.body && m.color[id].Gray? && id !in m.grayagain && !m.h.body[id].Str?
    {
      assert id in s.gray || NewlyGray(s, m, id);
    }
    forall id | id in s.fixedgc && id in s.color && s.color[id].Gray? ensures id !in m.gray {
      if NewlyGray(s, m, id) { assert false; }
    }
    assert forall id :: id in s.gray ==> Marked(s, id);
    forall id | id in m.color && m.color[id].Gray? ensures id in m.gray || id in m.grayagain || id in m.fixedgc {
      if s.color[id] != m.color[id] { assert NewlyGray(s, m, id); }
    }
    forall id | id in m.color && m.color[id].Black? ensures id in m.h.body && !m.h.body[id].Thread? {
      if s.color[id] != m.color[id] { assert NewlyBlack(s, m, id); }
    }
  }

  lemma MarksKeepBlack(s: St, m: St, X: set<Id>)
    requires Marks(s, m) && BlackClosedBut(s, X)
    ensures BlackClosedBut(m, X)
  {
    forall a, b | a in m.color && m.color[a].Black? && a !in X && Points(m.h, a, b) ensures Marked(m, b) {
      if s.color[a] != m.color[a] { assert NewlyBlack(s, m, a); }
    }
  }

  lemma MarksKeepRest(s: St, m: St)
    requires Marks(s, m) && WellFormed(s) && NoDead(s) && Safe(s)
    ensures WellFormed(m) && NoDead(m) && Safe(m)
  {
    LiveKept(s, m);
  }

  lemma RestartKeeps(s: St, s': St)
    requires Inv(s) && RestartStep(s, s')
    ensures Inv(s')
  {
    var s0 := s.(gray := [], grayagain := []);
    var m := s'.(phase := Pause);
    assert WellFormed(m) && NoDead(m) && Safe(m) by { LiveKept(s, s0); MarksKeepRest(s0, m); }
    assert Listed(m) by { MarksKeepLists(s0, m); }
    assert BlackClosedBut(m, {}) by { MarksKeepBlack(s0, m, {}); }
    assert IsRoot(m, s.main);
    assert NewlyGray(s0, m, s.main);
    PhaseChange(m, s');
  }

  lemma TakenKeeps(s: St)
    requires WellFormed(s) && Safe(s) && Tricolor(s) && s.gray != []
    ensures WellFormed(Taken(s)) && Safe(Taken(s)) && NoDead(Taken(s))
    ensures BlackClosedBut(Taken(s), {s.gray[0]})
  {
    assert s.gray[0] in s.gray;
    LiveKept(s, Taken(s));
  }

  lemma TakenLists(s: St)
    requires Listed(s) && s.main in s.h.body && ListsOk(s.h.body, s.main, s.limit, s.allgc, s.fixedgc) && s.gray != []
    ensures Listed(Taken(s))
  {
    var t := Taken(s);
    var o := s.gray[0];
    assert o in s.gray;
    forall id ensures id in t.gray <==> id in s.gray && id != o {
      if id in t.gray {
        var i :| 0 <= i < |t.gray| && t.gray[i] == id;
        assert s.gray[i+1] == id;
      }
      if id in s.gray && id != o {
        var i :| 0 <= i < |s.gray| && s.gray[i] == id;
        assert t.gray[i-1] == id;
      }
    }
    assert NoDups(t.gray);
    if o == s.main {
      assert forall id :: id in t.grayagain <==> id == o || id in s.grayagain;
      assert NoDups(t.grayagain);
      assert GrayList(t, t.grayagain);
    }
  }

  lemma PropagateKeeps(s: St, s': St)
    requires Inv(s) && PropagateStep(s, s')
    ensures Inv(s')
  {
    var o := s.gray[0];
    var t := Taken(s);
    var m := s'.(phase := Propagate);
    assert Listed(m) by { TakenLists(s); MarksKeepLists(t, m); }
    assert BlackClosedBut(m, {}) by {
      TakenKeeps(s);
      MarksKeepBlack(t, m, {o});
      forall b | Points(m.h, o, b) ensures Marked(m, b) { assert Ref(b) in Slots(s.h, o); }
    }
    assert WellFormed(m) && NoDead(m) && Safe(m) by { TakenKeeps(s); MarksKeepRest(t, m); }
    MainStaysGray(s, t, m);
    PhaseChange(m, s');
  }

  // Going from one phase of marking to the other.
  lemma PhaseChange(m: St, s': St)
    requires s' == m.(phase := s'.phase) && KeepInvariant(s') && (s'.phase.Propagate? ==> m.gray != [])
    requires WellFormed(m) && NoDead(m) && Safe(m) && Listed(m) && BlackClosedBut(m, {})
    requires m.main in m.color && m.color[m.main].Gray?
    ensures Inv(s')
  {
    LiveKept(m, s');
  }

  lemma MainStaysGray(s: St, t: St, m: St)
    requires s.gray != [] && t == Taken(s) && Marks(t, m) && s.main in s.color && s.color[s.main].Gray?
    ensures m.main in m.color && m.color[m.main].Gray?
  {
    assert t.color[s.main].Gray?;
  }

  // ---- sweeping ----

  lemma {:induction false} FindAt(q: seq<Id>, i: nat)
    requires NoDups(q) && i < |q|
    ensures Find(q, q[i]) == i
  {
    assert q[i] in q;
  }

  lemma WithoutIs(q: seq<Id>, i: nat)
    requires NoDups(q) && i < |q|
    ensures Without(q, q[i]) == q[..i] + q[i+1..] && NoDups(Without(q, q[i]))
    ensures forall id :: id in Without(q, q[i]) <==> id in q && id != q[i]
  {
    FindAt(q, i);
    var r := Without(q, q[i]);
    forall id | id in q && id != q[i] ensures id in r {
      var j :| 0 <= j < |q| && q[j] == id;
      assert r[if j < i then j else j - 1] == id;
    }
  }

  // Where the cursor stands, as an index into 'allgc'.
  function Pos(s: St): (i: nat)
    requires CursorOk(s)
    ensures i <= |s.allgc| && Rest(s) == s.allgc[i..]
  {
    match s.sweepgc
    case Off => |s.allgc|
    case AtHead => 0
    case After(id) => Find(s.allgc, id) + 1
  }

  ghost predicate SweepOk(s: St) {
    WellFormed(s) && Safe(s) && CursorOk(s) && Swept(s)
  }

  lemma FreeKeepsLists(s: St, i: nat)
    requires WellFormed(s) && i < |s.allgc|
    ensures WellFormed(Free(s, s.allgc[i]))
  {
    WithoutIs(s.allgc, i);
  }

  lemma FreeKeepsSafe(s: St, id: Id)
    requires WellFormed(s) && Safe(s) && IsDead(s, id)
    ensures Safe(Free(s, id))
  {
    var s' := Free(s, id);
    forall r | IsRoot(s', r) ensures Live(s', r) { assert IsRoot(s, r); }
    forall a, b | Live(s', a) && Points(s'.h, a, b) ensures Live(s', b) {
      assert Live(s, a) && Points(s.h, a, b);
    }
  }

  lemma FreePos(s: St)
    requires WellFormed(s) && CursorOk(s) && Rest(s) != []
    ensures var s' := Free(s, Rest(s)[0]); CursorOk(s') && Rest(s') == Rest(s)[1..] && s'.sweepgc == s.sweepgc
  {
    var i := Pos(s);
    var s' := Free(s, s.allgc[i]);
    WithoutIs(s.allgc, i);
    if s.sweepgc.After? {
      FindAt(s'.allgc, i - 1);
    }
    assert s'.allgc[Pos(s')..] == s.allgc[i+1..];
  }

  lemma RestDisjoint(s: St)
    requires NoDups(s.allgc) && CursorOk(s)
    ensures forall id :: id in s.allgc ==> (id in Rest(s) <==> id !in s.allgc[..Pos(s)])
    ensures NoDups(Rest(s)) && forall id :: id in Rest(s) ==> id in s.allgc
  {
  }

  lemma SweepOneKeeps(s: St)
    requires SweepOk(s) && Rest(s) != []
    ensures SweepOk(SweepOne(s)) && Rest(SweepOne(s)) == Rest(s)[1..]
  {
    if IsDead(s, Rest(s)[0]) { SweepDead(s); } else { SweepLive(s); }
  }

  lemma SweepDead(s: St)
    requires SweepOk(s) && Rest(s) != [] && IsDead(s, Rest(s)[0])
    ensures SweepOk(SweepOne(s)) && Rest(SweepOne(s)) == Rest(s)[1..]
  {
    var i := Pos(s);
    var curr := Rest(s)[0];
    var s' := SweepOne(s);
    assert WellFormed(s') by { FreeKeepsLists(s, i); }
    FreeKeepsSafe(s, curr);
    FreePos(s);
    WithoutIs(s.allgc, i);
    forall id | id in s'.allgc && id !in Rest(s') ensures id in s'.color && s'.color[id] == White(s'.current) {
      assert id in s.allgc && id !in Rest(s);
    }
  }

  lemma SweepLive(s: St)
    requires SweepOk(s) && Rest(s) != [] && !IsDead(s, Rest(s)[0])
    ensures SweepOk(SweepOne(s)) && Rest(SweepOne(s)) == Rest(s)[1..]
  {
    var i := Pos(s);
    var curr := Rest(s)[0];
    var s' := SweepOne(s);
    RestDisjoint(s);
    assert curr in s.allgc;
    FindAt(s.allgc, i);
    LiveKept(s, s');
    forall id | id in s'.allgc && id !in Rest(s') ensures id in s'.color && s'.color[id] == White(s'.current) {
      if id != curr { assert id !in Rest(s); }
    }
  }

  // A sweep frees dead objects only, and changes nothing else but colours.
  ghost predicate SweptFrom(s: St, s': St) {
    && s' == s.(h := s.h.(body := s'.h.body), color := s'.color, allgc := s'.allgc, strt := s'.strt, sweepgc := s'.sweepgc)
    && (forall id :: id in s'.h.body ==> id in s.h.body && s'.h.body[id] == s.h.body[id])
    && (forall id :: id in s.h.body && id !in s'.h.body ==> IsDead(s, id))
    && (forall id :: id in s'.color ==> id in s.color && (s'.color[id] == s.color[id] || (Live(s, id) && s'.color[id] == White(s.current))))
  }

  lemma SweepOneFrees(s: St)
    requires SweepOk(s)
    ensures SweptFrom(s, SweepOne(s))
  {
    if Rest(s) != [] {
      RestDisjoint(s);
      assert Rest(s)[0] in Rest(s);
    }
  }

  lemma SweptFromTransitive(a: St, b: St, c: St)
    requires SweptFrom(a, b) && SweptFrom(b, c) && a.color.Keys == a.h.body.Keys && b.color.Keys == b.h.body.Keys
    ensures SweptFrom(a, c)
  {
    assert forall id :: IsDead(b, id) ==> IsDead(a, id);
    assert forall id :: Live(b, id) ==> Live(a, id);
  }

  lemma {:induction false} SweepListKeeps(s: St, n: nat)
    requires SweepOk(s)
    ensures var s' := SweepList(s, n);
      SweepOk(s') && SweptFrom(s, s') && |Rest(s')| <= |Rest(s)| && (s'.sweepgc.Off? <==> Rest(s') == [])
    ensures n > 0 && !s.sweepgc.Off? && Rest(s) != [] ==> |Rest(SweepList(s, n))| < |Rest(s)|
    decreases n
  {
    if Rest(s) == [] {
      OffKeeps(s);
    } else if n > 0 {
      SweepOneKeeps(s);
      SweepOneFrees(s);
      SweepListKeeps(SweepOne(s), n - 1);
      SweptFromTransitive(s, SweepOne(s), SweepList(s, n));
    }
  }

  lemma OffKeeps(s: St)
    requires SweepOk(s) && Rest(s) == []
    ensures SweepOk(s.(sweepgc := Off)) && SweptFrom(s, s.(sweepgc := Off))
  {
    LiveKept(s, s.(sweepgc := Off));
  }

  lemma {:induction false} SweepToLiveKeeps(s: St)
    requires SweepOk(s) && s.sweepgc.AtHead?
    ensures var s' := SweepToLive(s); SweepOk(s') && SweptFrom(s, s') && !s'.sweepgc.AtHead?
    decreases |s.allgc|
  {
    var s1 := SweepList(s, 1);
    SweepListKeeps(s, 1);
    if s1.sweepgc.AtHead? {
      assert s1 == SweepOne(s) && IsDead(s, s.allgc[0]);
      WithoutIs(s.allgc, 0);
      assert |s1.allgc| < |s.allgc|;
      SweepToLiveKeeps(s1);
      SweptFromTransitive(s, s1, SweepToLive(s));
    }
  }

  lemma AtHeadIsOk(s: St)
    requires WellFormed(s) && Safe(s)
    ensures SweepOk(s.(phase := SwpAllgc, sweepgc := AtHead))
  {
    LiveKept(s, s.(phase := SwpAllgc, sweepgc := AtHead));
  }

  lemma EnterSweepFrees(s: St)
    requires WellFormed(s) && Safe(s)
    ensures SweptFrom(s.(phase := SwpAllgc, sweepgc := AtHead), EnterSweep(s))
  {
    AtHeadIsOk(s);
    SweepToLiveKeeps(s.(phase := SwpAllgc, sweepgc := AtHead));
  }

  lemma EnterSweepKeeps(s: St)
    requires WellFormed(s) && Safe(s)
    ensures Inv(EnterSweep(s))
  {
    AtHeadIsOk(s);
    SweepToLiveKeeps(s.(phase := SwpAllgc, sweepgc := AtHead));
  }

  lemma SweepStepKeeps(s: St)
    requires Inv(s) && s.phase.SwpAllgc?
    ensures Inv(SweepStep(s))
  {
    if s.sweepgc.Off? {
      SweepDone(s);
    } else {
      SweepSome(s, GCSWEEPMAX);
    }
  }

  lemma SweepSome(s: St, n: nat)
    requires Inv(s) && s.phase.SwpAllgc? && n > 0
    ensures var s1 := SweepList(s, n);
      Inv(if s1.sweepgc.Off? then s1.(phase := SwpFinobj, sweepgc := AtHead) else s1)
  {
    SweepListKeeps(s, n);
    CursorMovesOn(s, n);
    SweepGoesOn(SweepList(s, n));
  }

  lemma SweepGoesOn(s: St)
    requires SweepOk(s) && s.phase.SwpAllgc? && !s.sweepgc.AtHead?
    ensures Inv(if s.sweepgc.Off? then s.(phase := SwpFinobj, sweepgc := AtHead) else s)
  {
    if s.sweepgc.Off? {
      SweepDone(s);
    }
  }

  lemma {:induction false} CursorMovesOn(s: St, n: nat)
    requires !s.sweepgc.AtHead?
    ensures !SweepList(s, n).sweepgc.AtHead?
    decreases n
  {
    if Rest(s) != [] && n > 0 {
      CursorMovesOn(SweepOne(s), n - 1);
    }
  }

  lemma SweepDone(s: St)
    requires SweepOk(s) && s.phase.SwpAllgc? && s.sweepgc.Off?
    ensures Inv(s.(phase := SwpFinobj, sweepgc := AtHead))
  {
    LiveKept(s, s.(phase := SwpFinobj, sweepgc := AtHead));
  }

  // ---- the atomic step ----

  // After the flip the marked objects are exactly those that no sweep frees.
  lemma FlipKeeps(s: St, m: St)
    requires Inv(s) && s.phase.Atomic? && AtomicMarks(s, m)
    ensures var f := m.(current := !m.current); WellFormed(f) && Safe(f)
    ensures forall id :: Live(m.(current := !m.current), id) <==> Marked(m, id)
  {
    var f := m.(current := !m.current);
    forall id ensures Live(f, id) <==> Marked(m, id) {
      if IsWhite(m, id) { assert Live(s, id); }
    }
    forall r | IsRoot(f, r) ensures Live(f, r) { assert IsRoot(m, r); }
    forall a, b | Live(f, a) && Points(f.h, a, b) ensures Live(f, b) { assert Marked(m, a); assert Marked(m, b); }
  }

  lemma AtomicKeeps(s: St, s': St)
    requires Inv(s) && AtomicStep(s, s')
    ensures Inv(s')
  {
    var m :| AtomicMarks(s, m) && s' == EnterSweep(m.(current := !m.current));
    FlipKeeps(s, m);
    EnterSweepKeeps(m.(current := !m.current));
  }

  lemma LastPhasesKeep(s: St, s': St)
    requires Inv(s) && CollectorStep(s, s') && (s.phase.SwpFinobj? || s.phase.SwpTobefnz? || s.phase.SwpEnd? || s.phase.CallFin?)
    ensures Inv(s')
  {
    LiveKept(s, s');
  }

  lemma CollectorKeeps(s: St, s': St)
    requires Inv(s) && CollectorStep(s, s')
    ensures Inv(s')
  {
    if s.phase.Pause? {
      RestartKeeps(s, s');
    } else if s.phase.Propagate? {
      PropagateKeeps(s, s');
    } else if s.phase.Atomic? {
      AtomicKeeps(s, s');
    } else if s.phase.SwpAllgc? {
      SweepStepKeeps(s);
    } else {
      LastPhasesKeep(s, s');
    }
  }
}
