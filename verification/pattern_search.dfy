// The search finds exactly the derivations, and prefers long ones for '*', '+' and '?', short ones for '-'.
module PatternSearch {
  import opened Patterns

  // The search yields the match.
  ghost predicate Yields(hits: seq<Hit>, e: nat, caps': seq<Cap>) { Hit(e, caps') in hits }

  // Some number of repetitions, from 'lo' to 'hi', after which the rest derives.
  ghost predicate Reps(src: string, pat: string, s: nat, next: nat, caps: seq<Cap>, lo: int, hi: int, e: nat, caps': seq<Cap>)
    requires next <= |pat| && InSubject(src, s, caps) && s + hi <= |src|
  {
    exists n: nat :: lo <= n <= hi && DerivesAt(src, pat, s, n, next, caps, e, caps')
  }

  ghost predicate DerivesAt(src: string, pat: string, s: nat, n: nat, next: nat, caps: seq<Cap>, e: nat, caps': seq<Cap>)
    requires next <= |pat| && InSubject(src, s, caps) && s + n <= |src|
  {
    Derives(src, pat, s + n, next, caps, e, caps')
  }

  lemma {:induction false} GreedyYields(src: string, pat: string, s: nat, p: nat, ep: nat, next: nat, caps: seq<Cap>, n: int, least: nat,
      e: nat, caps': seq<Cap>)
    requires p < next <= |pat| && InSubject(src, s, caps) && s + n <= |src|
    ensures Yields(GreedySearch(src, pat, s, p, ep, next, caps, n, least), e, caps') <==> Reps(src, pat, s, next, caps, least, n, e, caps')
    decreases |pat| - next, 1, n
  {
    if n >= least {
      SearchDerives(src, pat, s + n, next, caps, e, caps');
      GreedyYields(src, pat, s, p, ep, next, caps, n - 1, least, e, caps');
      assert DerivesAt(src, pat, s, n, next, caps, e, caps') == Derives(src, pat, s + n, next, caps, e, caps');
    }
  }

  // Repetitions of matching characters from s on.
  ghost predicate LazyReps(src: string, pat: string, s: nat, p: nat, ep: nat, next: nat, caps: seq<Cap>, e: nat, caps': seq<Cap>)
    requires p < next <= |pat| && InSubject(src, s, caps)
  {
    exists n: nat :: s + n <= |src| && Repeats(src, pat, s, p, ep, n) && DerivesAt(src, pat, s, n, next, caps, e, caps')
  }

  lemma {:induction false} LazyYields(src: string, pat: string, s: nat, p: nat, ep: nat, next: nat, caps: seq<Cap>, e: nat, caps': seq<Cap>)
    requires p < next <= |pat| && InSubject(src, s, caps)
    ensures Yields(LazySearch(src, pat, s, p, ep, next, caps), e, caps') <==> LazyReps(src, pat, s, p, ep, next, caps, e, caps')
    decreases |pat| - next, 1, |src| - s
  {
    SearchDerives(src, pat, s, next, caps, e, caps');
    assert DerivesAt(src, pat, s, 0, next, caps, e, caps') == Derives(src, pat, s, next, caps, e, caps');
    if SingleMatch(src, pat, s, p, ep) {
      LazyYields(src, pat, s + 1, p, ep, next, caps, e, caps');
      LazyShift(src, pat, s, p, ep, next, caps, e, caps');
    } else {
      forall n: nat | n > 0 ensures !Repeats(src, pat, s, p, ep, n) { NoRepeat(src, pat, s, p, ep, n); }
    }
  }

  lemma NoRepeat(src: string, pat: string, s: nat, p: nat, ep: nat, n: nat)
    requires p < |pat| && n > 0 && !SingleMatch(src, pat, s, p, ep)
    ensures !Repeats(src, pat, s, p, ep, n)
  {
    assert s <= s < s + n;
  }

  lemma LazyShift(src: string, pat: string, s: nat, p: nat, ep: nat, next: nat, caps: seq<Cap>, e: nat, caps': seq<Cap>)
    requires p < next <= |pat| && InSubject(src, s, caps) && SingleMatch(src, pat, s, p, ep)
    ensures LazyReps(src, pat, s, p, ep, next, caps, e, caps')
      <==> Derives(src, pat, s, next, caps, e, caps') || LazyReps(src, pat, s + 1, p, ep, next, caps, e, caps')
  {
    if LazyReps(src, pat, s + 1, p, ep, next, caps, e, caps') {
      var n: nat :| s + 1 + n <= |src| && Repeats(src, pat, s + 1, p, ep, n) && DerivesAt(src, pat, s + 1, n, next, caps, e, caps');
      assert Repeats(src, pat, s, p, ep, n + 1) && DerivesAt(src, pat, s, n + 1, next, caps, e, caps');
    }
    if Derives(src, pat, s, next, caps, e, caps') {
      assert Repeats(src, pat, s, p, ep, 0) && DerivesAt(src, pat, s, 0, next, caps, e, caps');
    }
    if LazyReps(src, pat, s, p, ep, next, caps, e, caps') {
      var n: nat :| s + n <= |src| && Repeats(src, pat, s, p, ep, n) && DerivesAt(src, pat, s, n, next, caps, e, caps');
      if n > 0 { assert Repeats(src, pat, s + 1, p, ep, n - 1) && DerivesAt(src, pat, s + 1, n - 1, next, caps, e, caps'); }
    }
  }

  // Derivations of a repeated item, by the number of repetitions.
  lemma SingleDerives(src: string, pat: string, s: nat, p: nat, caps: seq<Cap>, e: nat, caps': seq<Cap>)
    requires p <= |pat| && InSubject(src, s, caps) && NodeAt(pat, p).Single?
    ensures var Single(ep, x, next) := NodeAt(pat, p);
      Derives(src, pat, s, p, caps, e, caps') <==>
        exists n: nat :: InCount(x, n) && s + n <= |src| && Repeats(src, pat, s, p, ep, n) && DerivesAt(src, pat, s, n, next, caps, e, caps')
  {
    var Single(ep, x, next) := NodeAt(pat, p);
    if Derives(src, pat, s, p, caps, e, caps') {
      var n: nat :| InCount(x, n) && s + n <= |src| && Repeats(src, pat, s, p, ep, n) && Derives(src, pat, s + n, next, caps, e, caps');
      assert DerivesAt(src, pat, s, n, next, caps, e, caps');
    }
    if n: nat :| InCount(x, n) && s + n <= |src| && Repeats(src, pat, s, p, ep, n) && DerivesAt(src, pat, s, n, next, caps, e, caps') {
      assert Derives(src, pat, s + n, next, caps, e, caps');
    }
  }

  // A greedy item tries every number of repetitions that the characters allow.
  lemma CountIsMost(src: string, pat: string, s: nat, p: nat, ep: nat, most: nat, n: nat)
    requires p < |pat| && s <= |src|
    ensures n <= Count(src, pat, s, p, ep, most) <==> n <= most && Repeats(src, pat, s, p, ep, n)
  {
    var c := Count(src, pat, s, p, ep, most);
    if c < n <= most { assert !SingleMatch(src, pat, s + c, p, ep); }
  }

  lemma {:induction false} SearchDerives(src: string, pat: string, s: nat, p: nat, caps: seq<Cap>, e: nat, caps': seq<Cap>)
    requires p <= |pat| && InSubject(src, s, caps)
    ensures Yields(Search(src, pat, s, p, caps), e, caps') <==> Derives(src, pat, s, p, caps, e, caps')
    decreases |pat| - p, 0, 0
  {
    match NodeAt(pat, p)
    case Open(position, next) =>
      if |caps| < MAXCAPTURES { SearchDerives(src, pat, s, next, Opened(caps, s, position), e, caps'); }
    case Close(next) =>
      if ToClose(caps) >= 0 { SearchDerives(src, pat, s, next, Closed(caps, s), e, caps'); }
    case Balance(b, x, next) =>
      var r := BalanceEnd(src, b, x, s);
      if r >= 0 {
        SearchDerives(src, pat, r, next, caps, e, caps');
        forall r': nat | Balanced(src, b, x, s, r') ensures r' == r { BalanceUnique(src, b, x, s, r, r'); }
      }
    case Frontier(bracket, next) => SearchDerives(src, pat, s, next, caps, e, caps');
    case BackRef(digit, next) =>
      var l := CaptureIndex(caps, digit);
      if l >= 0 && Again(src, s, caps[l]) { SearchDerives(src, pat, s + caps[l].len, next, caps, e, caps'); }
    case Single(ep, x, next) => SingleSearch(src, pat, s, p, caps, e, caps');
    case _ =>
  }

  lemma SingleSearch(src: string, pat: string, s: nat, p: nat, caps: seq<Cap>, e: nat, caps': seq<Cap>)
    requires p <= |pat| && InSubject(src, s, caps) && NodeAt(pat, p).Single?
    ensures Yields(Search(src, pat, s, p, caps), e, caps') <==> Derives(src, pat, s, p, caps, e, caps')
    decreases |pat| - NodeAt(pat, p).next, 2, 0
  {
    var Single(ep, x, next) := NodeAt(pat, p);
    SingleDerives(src, pat, s, p, caps, e, caps');
    if x == Lazy {
      LazyYields(src, pat, s, p, ep, next, caps, e, caps');
    } else {
      var most := if x == One || x == Opt then 1 else |src| - s;
      var least := if x == One || x == Plus then 1 else 0;
      GreedyYields(src, pat, s, p, ep, next, caps, Count(src, pat, s, p, ep, most), least, e, caps');
      forall n: nat ensures n <= Count(src, pat, s, p, ep, most) <==> n <= most && Repeats(src, pat, s, p, ep, n) {
        CountIsMost(src, pat, s, p, ep, most, n);
      }
      hide Search, Derives;
      assert forall n: nat :: s + n <= |src| ==> (InCount(x, n) <==> least <= n <= most);
    }
  }

  // ---- priority ----

  // After n repetitions the rest of the pattern matches in no way.
  ghost predicate NoneAfter(src: string, pat: string, s: nat, n: nat, next: nat, caps: seq<Cap>)
    requires next <= |pat| && InSubject(src, s, caps) && s + n <= |src|
  {
    forall e, caps' :: !DerivesAt(src, pat, s, n, next, caps, e, caps')
  }

  lemma EmptySearch(src: string, pat: string, s: nat, n: nat, next: nat, caps: seq<Cap>)
    requires next <= |pat| && InSubject(src, s, caps) && s + n <= |src| && Search(src, pat, s + n, next, caps) == []
    ensures NoneAfter(src, pat, s, n, next, caps)
  {
    forall e, caps' ensures !DerivesAt(src, pat, s, n, next, caps, e, caps') {
      SearchDerives(src, pat, s + n, next, caps, e, caps');
      assert !Yields(Search(src, pat, s + n, next, caps), e, caps');
    }
  }

  // The first result of a greedy search comes from the largest number of repetitions after which anything comes.
  lemma {:induction false} GreedyPrefersLong(src: string, pat: string, s: nat, p: nat, ep: nat, next: nat, caps: seq<Cap>, n: int, least: nat)
    returns (m: nat)
    requires p < next <= |pat| && InSubject(src, s, caps) && s + n <= |src| && GreedySearch(src, pat, s, p, ep, next, caps, n, least) != []
    ensures least <= m <= n && Search(src, pat, s + m, next, caps) != []
    ensures GreedySearch(src, pat, s, p, ep, next, caps, n, least)[0] == Search(src, pat, s + m, next, caps)[0]
    ensures forall k: nat :: m < k <= n ==> NoneAfter(src, pat, s, k, next, caps)
    decreases n
  {
    if Search(src, pat, s + n, next, caps) != [] {
      m := n;
    } else {
      EmptySearch(src, pat, s, n, next, caps);
      m := GreedyPrefersLong(src, pat, s, p, ep, next, caps, n - 1, least);
    }
  }

  // The first result of a lazy search comes from the smallest such number.
  lemma {:induction false} LazyPrefersShort(src: string, pat: string, s: nat, p: nat, ep: nat, next: nat, caps: seq<Cap>)
    returns (m: nat)
    requires p < next <= |pat| && InSubject(src, s, caps) && LazySearch(src, pat, s, p, ep, next, caps) != []
    ensures s + m <= |src| && Repeats(src, pat, s, p, ep, m) && Search(src, pat, s + m, next, caps) != []
    ensures LazySearch(src, pat, s, p, ep, next, caps)[0] == Search(src, pat, s + m, next, caps)[0]
    ensures forall k: nat :: k < m ==> NoneAfter(src, pat, s, k, next, caps)
    decreases |src| - s
  {
    hide Search, Derives, NoneAfter, SingleMatch;
    if Search(src, pat, s, next, caps) != [] {
      m := 0;
    } else {
      EmptySearch(src, pat, s, 0, next, caps);
      MatchInside(src, pat, s, p, ep);
      var m' := LazyPrefersShort(src, pat, s + 1, p, ep, next, caps);
      m := m' + 1;
      forall k: nat | k < m ensures NoneAfter(src, pat, s, k, next, caps) {
        if k > 0 { ShiftNone(src, pat, s, k, next, caps); }
      }
    }
  }

  lemma ShiftNone(src: string, pat: string, s: nat, k: nat, next: nat, caps: seq<Cap>)
    requires next <= |pat| && InSubject(src, s, caps) && k > 0 && s + k <= |src| && NoneAfter(src, pat, s + 1, k - 1, next, caps)
    ensures NoneAfter(src, pat, s, k, next, caps)
  {
    forall e, caps' ensures !DerivesAt(src, pat, s, k, next, caps, e, caps') {
      assert DerivesAt(src, pat, s, k, next, caps, e, caps') == DerivesAt(src, pat, s + 1, k - 1, next, caps, e, caps');
    }
  }

  // '*', '+', '?' and no suffix: the number of repetitions that decides is the largest possible one.
  lemma SuffixPrefersLong(src: string, pat: string, s: nat, p: nat, caps: seq<Cap>) returns (m: nat)
    requires p <= |pat| && InSubject(src, s, caps) && NodeAt(pat, p).Single? && NodeAt(pat, p).suffix != Lazy
    requires Search(src, pat, s, p, caps) != []
    ensures var Single(ep, x, next) := NodeAt(pat, p);
      && s + m <= |src| && InCount(x, m) && Repeats(src, pat, s, p, ep, m)
      && Search(src, pat, s + m, next, caps) != [] && Search(src, pat, s, p, caps)[0] == Search(src, pat, s + m, next, caps)[0]
      && forall k: nat :: m < k && InCount(x, k) && s + k <= |src| && Repeats(src, pat, s, p, ep, k) ==> NoneAfter(src, pat, s, k, next, caps)
  {
    var Single(ep, x, next) := NodeAt(pat, p);
    var most := if x == One || x == Opt then 1 else |src| - s;
    var least := if x == One || x == Plus then 1 else 0;
    var c := Count(src, pat, s, p, ep, most);
    m := GreedyPrefersLong(src, pat, s, p, ep, next, caps, c, least);
    forall k: nat | m < k && InCount(x, k) && s + k <= |src| && Repeats(src, pat, s, p, ep, k) ensures NoneAfter(src, pat, s, k, next, caps) {
      CountIsMost(src, pat, s, p, ep, most, k);
    }
  }
}
