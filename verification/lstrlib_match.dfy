// The backtracking matcher of lstrlib.c: 'match' and its helpers on one MatchState.
module StringMatch {
  import opened Integers
  import opened Patterns
  import opened PatternSearch

  const TOO_COMPLEX := "pattern too complex"
  const MAXCCALLS := 200

  // A null pointer, a position, or an error.
  datatype Result = Null | Found(e: nat) | Raised(msg: string)

  // The result is the first one of the search; without a match the captures are as before. Only where the
  // depth may not be enough can the pattern be found too complex.
  ghost predicate FirstOf(r: Result, hits: seq<Hit>, before: seq<Cap>, after: seq<Cap>, deep: bool) {
    match r
    case Null => hits == [] && after == before
    case Found(e) => hits != [] && hits[0] == Hit(e, after)
    case Raised(msg) => (!deep && msg == TOO_COMPLEX) || (hits != [] && hits[0] == Fault(msg))
  }

  class MatchState {
    const src: string
    const pat: string
    var matchdepth: int
    var level: nat
    const capture: array<Cap>

    // What 'str_find_aux' and 'gmatch' set up before they call 'match'.
    constructor (s: string, p: string)
      ensures src == s && pat == p && matchdepth == MAXCCALLS && level == 0 && Valid() && fresh(capture)
    {
      src, pat, matchdepth, level := s, p, MAXCCALLS, 0;
      capture := new Cap[MAXCAPTURES](_ => Cap(0, 0));
    }

    predicate Valid()
      reads this
    {
      capture.Length == MAXCAPTURES && level <= MAXCAPTURES
    }

    // The captures, finished or not.
    function Caps(): seq<Cap>
      requires Valid()
      reads this, capture
    {
      capture[..level]
    }

    // ---- helpers that only read ----

    // 'classend'.
    method ClassEndOf(p0: nat) returns (r: ClassEnd)
      requires p0 < |pat|
      ensures r == EndOfClass(pat, p0)
    {
      var p := p0 + 1;
      if pat[p0] == L_ESC {
        if p == |pat| { return Malformed(ENDS_WITH_ESC); }
        return Ends(p + 1);
      } else if pat[p0] == '[' {
        if At(pat, p) == '^' { p := p + 1; }
        ghost var first := p;
        while true
          invariant p0 < p && BracketEnd(pat, first) == BracketEnd(pat, p)
          decreases |pat| - p
        {
          if p >= |pat| { return Malformed(MISSING_BRACKET); }
          p := p + 1;
          if pat[p - 1] == L_ESC && p < |pat| { p := p + 1; }
          if At(pat, p) == ']' { return Ends(p + 1); }
        }
      }
      return Ends(p);
    }

    // 'matchbracketclass', for the set between the bracket at p0 and the one at ec.
    method MatchBracketClass(c: char, p0: nat, ec: nat) returns (found: bool)
      ensures found == InSet(pat, c, p0, ec)
    {
      hide AnyContains, MatchClass, SetItems;
      var sig := true;
      var p := p0;
      if At(pat, p + 1) == '^' {
        sig := false;
        p := p + 1;
      }
      p := p + 1;
      ghost var items := SetItems(pat, p, ec);
      while p < ec
        invariant AnyContains(items, c) == AnyContains(SetItems(pat, p, ec), c)
        decreases ec - p
      {
        SetItemsStep(pat, p, ec, c);
        if At(pat, p) == L_ESC {
          p := p + 1;
          if MatchClass(c, At(pat, p)) { return sig; }
        } else if At(pat, p + 1) == '-' && p + 2 < ec {
          p := p + 2;
          if At(pat, p - 2) <= c <= At(pat, p) { return sig; }
        } else {
          if At(pat, p) == c { return sig; }
        }
        p := p + 1;
      }
      NothingContains(pat, p, ec, c);
      return !sig;
    }

    // 'singlematch'.
    method SingleMatchAt(s: nat, p: nat, ep: nat) returns (m: bool)
      requires p < |pat| && ep > 0
      ensures m == SingleMatch(src, pat, s, p, ep)
    {
      if s >= |src| { return false; }
      var c := src[s];
      if pat[p] == '.' { return true; }
      if pat[p] == L_ESC { return MatchClass(c, At(pat, p + 1)); }
      if pat[p] == '[' {
        m := MatchBracketClass(c, p, ep - 1);
        return;
      }
      return pat[p] == c;
    }

    // 'matchbalance', without its check of the pattern.
    method MatchBalance(s0: nat, p: nat) returns (r: int)
      requires s0 <= |src| && p + 1 < |pat|
      ensures r == BalanceEnd(src, pat[p], pat[p + 1], s0) || (r < 0 && BalanceEnd(src, pat[p], pat[p + 1], s0) < 0)
    {
      if At(src, s0) != pat[p] { return -1; }
      var b, e, cont := pat[p], pat[p + 1], 1;
      var s := s0 + 1;
      while s < |src|
        invariant s0 < s && (s0 < |src| ==> s <= |src| && cont == Nesting(src, b, e, s0, s) > 0)
        invariant s0 < |src| ==> forall k :: s0 < k <= s ==> Nesting(src, b, e, s0, k) > 0
      {
        if src[s] == e {
          cont := cont - 1;
          if cont == 0 {
            BalanceFound(src, b, e, s0, s + 1);
            return s + 1;
          }
        } else if src[s] == b {
          cont := cont + 1;
        }
        s := s + 1;
      }
      NoBalance(src, b, e, s0);
      return -1;
    }

    // 'capture_to_close'.
    method CaptureToClose() returns (l: int)
      requires Valid()
      ensures l == ToClose(Caps())
    {
      l := level - 1;
      while l >= 0
        invariant -1 <= l < level && ToClose(Caps()) == ToClose(capture[..l + 1])
      {
        if capture[l].len == CAP_UNFINISHED { return; }
        assert capture[..l + 1][..l] == capture[..l];
        l := l - 1;
      }
    }

    // 'match_capture', after 'check_capture' gave l.
    method MatchCapture(s: nat, l: nat) returns (m: bool)
      requires Valid() && l < level && InSubject(src, s, Caps()) && Caps()[l].len != CAP_UNFINISHED
      ensures m == Again(src, s, Caps()[l])
    {
      var cap := capture[l];
      assert CapOk(src, Caps()[l]);
      // As unsigned, the length of a position capture is larger than any string.
      var len := ToUnsigned(cap.len);
      assert cap.len < 0 ==> len == cap.len + TWO64;
      m := |src| - s >= len && src[cap.init..cap.init + len] == src[s..s + len];
    }

    // ---- the recursion ----

    // Nested calls of 'match' strictly advance in the pattern, so one for each character left is enough.
    predicate Deep(depth: int, p: nat) { depth > |pat| - p }

    // A state in which the pattern from p on can be matched at s.
    ghost predicate Ready(s: nat, p: nat)
      reads this, capture
    {
      Valid() && p <= |pat| && InSubject(src, s, Caps())
    }

    // 'start_capture'.
    method StartCapture(s: nat, p: nat, what: int) returns (r: Result)
      requires Ready(s, p) && (what == CAP_POSITION || what == CAP_UNFINISHED)
      modifies `matchdepth, `level, capture
      ensures Valid() && (!r.Raised? ==> matchdepth == old(matchdepth))
      ensures if old(level) >= MAXCAPTURES then r == Raised(TOO_MANY)
              else FirstOf(r, Search(src, pat, s, p, Opened(old(Caps()), s, what == CAP_POSITION)), old(Caps()), Caps(), Deep(old(matchdepth), p))
      decreases |pat| - p, 2
    {
      hide Search;
      if level >= MAXCAPTURES { return Raised(TOO_MANY); }
      ghost var caps := Caps();
      capture[level] := Cap(s, what);
      level := level + 1;
      assert Caps() == Opened(caps, s, what == CAP_POSITION);
      r := Match(s, p);
      if r == Null {
        level := level - 1;
        assert Caps() == caps;
      }
    }

    // 'end_capture'.
    method EndCapture(s: nat, p: nat) returns (r: Result)
      requires Ready(s, p)
      modifies `matchdepth, `level, capture
      ensures Valid() && (!r.Raised? ==> matchdepth == old(matchdepth))
      ensures if ToClose(old(Caps())) < 0 then r == Raised(NO_OPEN)
              else FirstOf(r, Search(src, pat, s, p, Closed(old(Caps()), s)), old(Caps()), Caps(), Deep(old(matchdepth), p))
      decreases |pat| - p, 2
    {
      hide Search;
      var l := CaptureToClose();
      if l < 0 { return Raised(NO_OPEN); }
      ghost var caps := Caps();
      assert CapOk(src, caps[l]) && caps[l].init <= s;
      capture[l] := Cap(capture[l].init, s - capture[l].init);
      assert Caps() == Closed(caps, s);
      r := Match(s, p);
      if r == Null {
        assert Caps()[l] == capture[l] && caps[l] == Cap(capture[l].init, CAP_UNFINISHED);
        capture[l] := Cap(capture[l].init, CAP_UNFINISHED);
        assert Caps() == caps;
      }
    }

    // 'max_expand'.
    method MaxExpand(s: nat, p: nat, ep: nat, ghost most: nat) returns (r: Result)
      requires Ready(s, p) && p < ep < |pat| && most == |src| - s
      modifies `matchdepth, `level, capture
      ensures Valid() && (!r.Raised? ==> matchdepth == old(matchdepth))
      ensures FirstOf(r, GreedySearch(src, pat, s, p, ep, ep + 1, old(Caps()), Count(src, pat, s, p, ep, most), 0), old(Caps()), Caps(), Deep(old(matchdepth), p + 1))
      decreases |pat| - p, 0, 0
    {
      hide Search, SingleMatch;
      ghost var caps := Caps();
      var i: int := 0;
      var m := SingleMatchAt(s, p, ep);
      while m
        invariant Valid() && matchdepth == old(matchdepth) && Caps() == caps
        invariant 0 <= i && s + i <= |src| && m == SingleMatch(src, pat, s + i, p, ep)
        invariant Count(src, pat, s, p, ep, most) == i + Count(src, pat, s + i, p, ep, most - i)
        decreases |src| - (s + i)
      {
        MatchInside(src, pat, s + i, p, ep);
        i := i + 1;
        m := SingleMatchAt(s + i, p, ep);
      }
      while i >= 0
        invariant -1 <= i && s + i <= |src| && Valid() && Caps() == caps && matchdepth == old(matchdepth)
        invariant GreedySearch(src, pat, s, p, ep, ep + 1, caps, Count(src, pat, s, p, ep, most), 0)
          == GreedySearch(src, pat, s, p, ep, ep + 1, caps, i, 0)
      {
        r := Match(s + i, ep + 1);
        if r != Null { return; }
        i := i - 1;
      }
      return Null;
    }

    // 'min_expand'.
    method MinExpand(s0: nat, p: nat, ep: nat) returns (r: Result)
      requires Ready(s0, p) && p < ep < |pat|
      modifies `matchdepth, `level, capture
      ensures Valid() && (!r.Raised? ==> matchdepth == old(matchdepth))
      ensures FirstOf(r, LazySearch(src, pat, s0, p, ep, ep + 1, old(Caps())), old(Caps()), Caps(), Deep(old(matchdepth), p + 1))
      decreases |pat| - p, 0, 0
    {
      hide Search, SingleMatch;
      ghost var caps := Caps();
      var s := s0;
      while true
        invariant s0 <= s <= |src| && Valid() && Caps() == caps && matchdepth == old(matchdepth)
        invariant InSubject(src, s, caps)
        invariant LazySearch(src, pat, s0, p, ep, ep + 1, caps) == LazySearch(src, pat, s, p, ep, ep + 1, caps)
        decreases |src| - s
      {
        r := Match(s, ep + 1);
        if r != Null { return; }
        var m := SingleMatchAt(s, p, ep);
        if !m { return Null; }
        MatchInside(src, pat, s, p, ep);
        s := s + 1;
      }
    }

    // The step is right for the search from s and p.
    ghost predicate Leads(step: Step, s: nat, p: nat, caps: seq<Cap>, depth: int)
      requires p <= |pat| && InSubject(src, s, caps)
      reads this, capture
    {
      Valid() && match step
        case Finish(r) => FirstOf(r, Search(src, pat, s, p, caps), caps, Caps(), Deep(depth, p + 1))
        case Goto(s', p') => p < p' && Ready(s', p') && Caps() == caps && Search(src, pat, s', p', caps) == Search(src, pat, s, p, caps)
    }

    // '%b': a balanced string.
    method MatchBalanced(s: nat, p: nat) returns (step: Step)
      requires Ready(s, p) && p + 1 < |pat| && pat[p] == L_ESC && pat[p + 1] == 'b'
      ensures Leads(step, s, p, Caps(), matchdepth)
    {
      hide Balanced, CapsOk, Before;
      if p + 2 >= |pat| - 1 { return Finish(Raised(MISSING_BALANCE)); }
      var r := MatchBalance(s, p + 2);
      if r < 0 { return Finish(Null); }
      BalanceInside(src, pat[p + 2], pat[p + 3], s);
      BeforeLater(src, Caps(), s, r);
      return Goto(r, p + 4);
    }

    // '%f': a frontier.
    method MatchFrontier(s: nat, p: nat) returns (step: Step)
      requires Ready(s, p) && p + 1 < |pat| && pat[p] == L_ESC && pat[p + 1] == 'f'
      ensures Leads(step, s, p, Caps(), matchdepth)
    {
      hide InSet, CapsOk, Before, EndOfClass;
      if At(pat, p + 2) != '[' { return Finish(Raised(MISSING_FRONTIER)); }
      var c := ClassEndOf(p + 2);
      if c.Malformed? { return Finish(Raised(c.msg)); }
      var previous := if s == 0 then '\0' else src[s - 1];
      var was := MatchBracketClass(previous, p + 2, c.ep - 1);
      var now := MatchBracketClass(At(src, s), p + 2, c.ep - 1);
      if !was && now { return Goto(s, c.ep); }
      return Finish(Null);
    }

    // '%0' to '%9': the text of a capture again.
    method MatchBackRef(s: nat, p: nat) returns (step: Step)
      requires Ready(s, p) && p + 1 < |pat| && pat[p] == L_ESC && IsDigit(pat[p + 1])
      ensures Leads(step, s, p, Caps(), matchdepth)
    {
      var l := pat[p + 1] as int - '1' as int;
      if l < 0 || l >= level || capture[l].len == CAP_UNFINISHED { return Finish(Raised(BAD_INDEX)); }
      var m := MatchCapture(s, l);
      if !m { return Finish(Null); }
      BeforeLater(src, Caps(), s, s + capture[l].len);
      return Goto(s + capture[l].len, p + 2);
    }

    // A character class that matched once, and its suffix.
    method MatchSuffix(s: nat, p: nat, ep: nat) returns (step: Step)
      requires Ready(s, p) && p < |pat| && NodeAt(pat, p) == Single(ep, SuffixAt(pat, ep), if SuffixAt(pat, ep) == One then ep else ep + 1)
      requires SingleMatch(src, pat, s, p, ep)
      modifies `matchdepth, `level, capture
      ensures Leads(step, s, p, old(Caps()), old(matchdepth))
      ensures !(step.Finish? && step.r.Raised?) ==> matchdepth == old(matchdepth)
      decreases |pat| - p, 0, 1
    {
      hide Search, SingleMatch, Derives, GreedySearch, LazySearch, NodeAt, CapsOk, Before, Count;
      ghost var caps := Caps();
      SingleStep(src, pat, s, p, caps);
      var x := At(pat, ep);
      if x == '-' {
        var r := MinExpand(s, p, ep);
        return Finish(r);
      } else if x == '*' {
        var r := MaxExpand(s, p, ep, |src| - s);
        return Finish(r);
      }
      BeforeLater(src, caps, s, s + 1);
      if x == '?' {
        var r := Match(s + 1, ep + 1);
        if r != Null { return Finish(r); }
        return Goto(s, ep + 1);
      } else if x == '+' {
        var r := MaxExpand(s + 1, p, ep, |src| - (s + 1));
        return Finish(r);
      }
      return Goto(s + 1, ep);
    }

    // A character class and its suffix.
    method MatchDefault(s: nat, p: nat) returns (step: Step)
      requires Ready(s, p) && p < |pat| && NodeAt(pat, p) == SingleAt(pat, p)
      modifies `matchdepth, `level, capture
      ensures Leads(step, s, p, old(Caps()), old(matchdepth))
      ensures !(step.Finish? && step.r.Raised?) ==> matchdepth == old(matchdepth)
      decreases |pat| - p, 0, 2
    {
      hide SingleMatch, Derives, GreedySearch, LazySearch, CapsOk, Before, EndOfClass;
      var c := ClassEndOf(p);
      if c.Malformed? { return Finish(Raised(c.msg)); }
      var m := SingleMatchAt(s, p, c.ep);
      if m {
        step := MatchSuffix(s, p, c.ep);
        return;
      }
      SingleStep(src, pat, s, p, Caps());
      var x := At(pat, c.ep);
      if x == '*' || x == '?' || x == '-' { return Goto(s, c.ep + 1); }
      return Finish(Null);
    }

    // One turn of 'match'.
    method MatchStep(s: nat, p: nat) returns (step: Step)
      requires Ready(s, p)
      modifies `matchdepth, `level, capture
      ensures Leads(step, s, p, old(Caps()), old(matchdepth))
      ensures !(step.Finish? && step.r.Raised?) ==> matchdepth == old(matchdepth)
      decreases |pat| - p, 0, 3
    {
      hide Derives;
      if p == |pat| {
        return Finish(Found(s));
      } else if pat[p] == '(' {
        var r;
        if At(pat, p + 1) == ')' { r := StartCapture(s, p + 2, CAP_POSITION); } else { r := StartCapture(s, p + 1, CAP_UNFINISHED); }
        return Finish(r);
      } else if pat[p] == ')' {
        var r := EndCapture(s, p + 1);
        return Finish(r);
      } else if pat[p] == '$' && p + 1 == |pat| {
        return Finish(if s == |src| then Found(s) else Null);
      } else if pat[p] == L_ESC && At(pat, p + 1) == 'b' {
        step := MatchBalanced(s, p);
      } else if pat[p] == L_ESC && At(pat, p + 1) == 'f' {
        step := MatchFrontier(s, p);
      } else if pat[p] == L_ESC && IsDigit(At(pat, p + 1)) {
        step := MatchBackRef(s, p);
      } else {
        step := MatchDefault(s, p);
      }
    }

    // 'match'.
    method Match(s0: nat, p0: nat) returns (r: Result)
      requires Ready(s0, p0)
      modifies `matchdepth, `level, capture
      ensures Valid() && (!r.Raised? ==> matchdepth == old(matchdepth))
      ensures FirstOf(r, Search(src, pat, s0, p0, old(Caps())), old(Caps()), Caps(), Deep(old(matchdepth), p0))
      decreases |pat| - p0, 1
    {
      hide Search;
      matchdepth := matchdepth - 1;
      if matchdepth == -1 { return Raised(TOO_COMPLEX); }
      ghost var caps := Caps();
      var s, p := s0, p0;
      while true
        invariant p0 <= p && Ready(s, p) && Caps() == caps && matchdepth == old(matchdepth) - 1
        invariant Search(src, pat, s, p, caps) == Search(src, pat, s0, p0, caps)
        decreases |pat| - p
      {
        var step := MatchStep(s, p);
        if step.Finish? {
          r := step.r;
          break;
        }
        s, p := step.s, step.p;
      }
      if !r.Raised? { matchdepth := matchdepth + 1; }
    }

    // What 'str_find_aux' asks for at one position, with no captures yet: a match exists just when one derives,
    // and an error is the one that the search meets first, or there are too few levels for the pattern.
    method MatchAt(s: nat) returns (r: Result)
      requires Valid() && level == 0 && s <= |src| < 0x8000_0000_0000_0000 && InSubject(src, s, [])
      modifies `matchdepth, `level, capture
      ensures Valid()
      ensures r.Found? ==> Derives(src, pat, s, 0, [], r.e, Caps())
      ensures r.Found? ==> Search(src, pat, s, 0, []) != [] && Search(src, pat, s, 0, [])[0] == Hit(r.e, Caps())
      ensures r == Null ==> forall e, caps' :: !Derives(src, pat, s, 0, [], e, caps')
      ensures r.Raised? ==>
        (r.msg == TOO_COMPLEX && old(matchdepth) <= |pat|) || (Search(src, pat, s, 0, []) != [] && Search(src, pat, s, 0, [])[0] == Fault(r.msg))
    {
      assert Caps() == [];
      r := Match(s, 0);
      ghost var hits := Search(src, pat, s, 0, []);
      if r.Found? {
        assert Yields(hits, r.e, Caps());
        SearchDerives(src, pat, s, 0, [], r.e, Caps());
      } else if r == Null {
        forall e, caps' ensures !Derives(src, pat, s, 0, [], e, caps') {
          SearchDerives(src, pat, s, 0, [], e, caps');
          assert !Yields(hits, e, caps');
        }
      }
    }
  }

  // How 'match' goes on: it is done, or goes to 'init' with a new position in subject and pattern.
  datatype Step = Finish(r: Result) | Goto(s: nat, p: nat)

  lemma BalanceInside(src: string, b: char, e: char, s: nat)
    ensures BalanceEnd(src, b, e, s) >= 0 ==> s < BalanceEnd(src, b, e, s) <= |src|
  {
  }

  lemma NothingContains(pat: string, p: nat, ec: nat, c: char)
    requires p >= ec
    ensures !AnyContains(SetItems(pat, p, ec), c)
  {
  }
}
