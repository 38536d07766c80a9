// What the items of a pattern match, as sets of characters written out.
module PatternLaws {
  import opened Integers
  import opened Patterns

  // ---- classes ----

  const CLASSES := "acdglpsuwxz"

  // The characters of the class named by a lower-case letter, in the "C" locale.
  predicate Holds(l: char, c: char) {
    var n := c as int;
    match l
    case 'a' => 65 <= n <= 90 || 97 <= n <= 122
    case 'c' => n <= 31 || n == 127
    case 'd' => 48 <= n <= 57
    case 'g' => 33 <= n <= 126
    case 'l' => 97 <= n <= 122
    case 'p' => 33 <= n <= 47 || 58 <= n <= 64 || 91 <= n <= 96 || 123 <= n <= 126
    case 's' => 9 <= n <= 13 || n == 32
    case 'u' => 65 <= n <= 90
    case 'w' => 48 <= n <= 57 || 65 <= n <= 90 || 97 <= n <= 122
    case 'x' => 48 <= n <= 57 || 65 <= n <= 70 || 97 <= n <= 102
    case 'z' => n == 0
    case _ => false
  }

  // The pattern matches the one character at s, and nothing else, exactly when 'yes'.
  ghost predicate MatchesOne(src: string, pat: string, s: nat, yes: bool)
    requires InSubject(src, s, [])
  {
    forall e, caps :: Derives(src, pat, s, 0, [], e, caps) <==> yes && e == s + 1 && caps == []
  }

  lemma {:induction false} OneFirst(src: string, pat: string, s: nat, p: nat, ep: nat, caps0: seq<Cap>, e: nat, caps: seq<Cap>)
    requires InSubject(src, s, caps0) && p <= |pat| && NodeAt(pat, p) == Single(ep, One, ep)
    ensures Derives(src, pat, s, p, caps0, e, caps) <==>
      s < |src| && SingleMatch(src, pat, s, p, ep) && Derives(src, pat, s + 1, ep, caps0, e, caps)
  {
    if s < |src| {
      assert Repeats(src, pat, s, p, ep, 1) <==> SingleMatch(src, pat, s, p, ep);
      assert InCount(One, 1);
    }
  }

  // A pattern that is one single-character item without a suffix.
  lemma {:induction false} OneItem(src: string, pat: string, s: nat, ep: nat)
    requires InSubject(src, s, []) && 0 < ep == |pat| && NodeAt(pat, 0) == Single(ep, One, ep)
    ensures MatchesOne(src, pat, s, s < |src| && SingleMatch(src, pat, s, 0, ep))
  {
    forall e, caps
      ensures Derives(src, pat, s, 0, [], e, caps) <==> s < |src| && SingleMatch(src, pat, s, 0, ep) && e == s + 1 && caps == []
    {
      OneFirst(src, pat, s, 0, ep, [], e, caps);
      assert NodeAt(pat, ep) == Done;
    }
  }

  // '%x' matches the class of a letter, '%X' the characters that '%x' does not match.
  lemma Classes(src: string, s: nat, l: char)
    requires InSubject(src, s, []) && l in CLASSES
    ensures MatchesOne(src, ['%', l], s, s < |src| && Holds(l, src[s]))
    ensures MatchesOne(src, ['%', (l as int - 32) as char], s, s < |src| && !Holds(l, src[s]))
  {
    hide Derives;
    var u := (l as int - 32) as char;
    OneItem(src, ['%', l], s, 2);
    OneItem(src, ['%', u], s, 2);
    if s < |src| { ClassHolds(src[s], l); }
  }

  lemma ClassHolds(c: char, l: char)
    requires l in CLASSES
    ensures MatchClass(c, l) == Holds(l, c) && MatchClass(c, (l as int - 32) as char) == !Holds(l, c)
  {
  }

  // ---- other single characters ----

  // A character that has no meaning of its own in a pattern.
  predicate Ordinary(c: char) { c !in "().%[$*+?-" }

  lemma Singles(src: string, s: nat, c: char)
    requires InSubject(src, s, [])
    ensures MatchesOne(src, ".", s, s < |src|)
    ensures Ordinary(c) ==> MatchesOne(src, [c], s, s < |src| && src[s] == c)
    ensures !IsAlpha(c) && !IsDigit(c) ==> MatchesOne(src, ['%', c], s, s < |src| && src[s] == c)
  {
    hide Derives;
    OneItem(src, ".", s, 1);
    if Ordinary(c) { OneItem(src, [c], s, 1); }
    if !IsAlpha(c) && !IsDigit(c) {
      OneItem(src, ['%', c], s, 2);
      if s < |src| { EscapedIsItself(src[s], c); }
    }
  }

  lemma EscapedIsItself(c: char, x: char)
    requires !IsAlpha(x) && !IsDigit(x)
    ensures MatchClass(c, x) == (c == x)
  {
  }

  // ---- sets ----

  lemma {:induction false} SetClosesAt(pat: string, p: nat)
    requires p < |pat| && pat[p] != '%' && p + 1 < |pat|
    ensures BracketEnd(pat, p) == if pat[p + 1] == ']' then Ends(p + 2) else BracketEnd(pat, p + 1)
  {
  }

  // '[x-y]' matches what is between its ends, '[^x-y]' what is not.
  lemma Ranges(src: string, s: nat, x: char, y: char)
    requires InSubject(src, s, []) && x != '%' && y != '%' && y != ']'
    ensures x != '^' ==> MatchesOne(src, ['[', x, '-', y, ']'], s, s < |src| && x <= src[s] <= y)
    ensures MatchesOne(src, ['[', '^', x, '-', y, ']'], s, s < |src| && !(x <= src[s] <= y))
  {
    hide Derives, AnyContains;
    var pat, not := ['[', x, '-', y, ']'], ['[', '^', x, '-', y, ']'];
    if x != '^' {
      SetClosesAt(pat, 1);
      SetClosesAt(pat, 2);
      SetClosesAt(pat, 3);
      OneItem(src, pat, s, 5);
      if s < |src| { RangeInSet(pat, 1, src[s]); }
    }
    SetClosesAt(not, 2);
    SetClosesAt(not, 3);
    SetClosesAt(not, 4);
    OneItem(src, not, s, 6);
    if s < |src| { RangeInSet(not, 2, src[s]); }
  }

  lemma {:induction false} RangeInSet(pat: string, p: nat, c: char)
    requires p + 4 == |pat| && pat[p] != '%' && pat[p + 1] == '-'
    ensures AnyContains(SetItems(pat, p, p + 3), c) <==> pat[p] <= c <= pat[p + 2]
  {
    SetItemsStep(pat, p, p + 3, c);
    assert SetItems(pat, p + 3, p + 3) == [];
  }

  // '[xy]' matches either, and '[%x]' the class.
  lemma Lists(src: string, s: nat, x: char, y: char, l: char)
    requires InSubject(src, s, []) && x !in "^%" && y !in "%]-" && l in CLASSES
    ensures MatchesOne(src, ['[', x, y, ']'], s, s < |src| && (src[s] == x || src[s] == y))
    ensures MatchesOne(src, ['[', '%', l, ']'], s, s < |src| && Holds(l, src[s]))
  {
    hide Derives, AnyContains;
    var pat, cls := ['[', x, y, ']'], ['[', '%', l, ']'];
    SetClosesAt(pat, 1);
    SetClosesAt(pat, 2);
    OneItem(src, pat, s, 4);
    assert BracketEnd(cls, 1) == Ends(4);
    OneItem(src, cls, s, 4);
    if s < |src| {
      ListInSet(pat, x, y, src[s]);
      ClassInSet(cls, l, src[s]);
    }
  }

  lemma {:induction false} ListInSet(pat: string, x: char, y: char, c: char)
    requires pat == ['[', x, y, ']'] && x != '%' && y !in "%-"
    ensures AnyContains(SetItems(pat, 1, 3), c) <==> c == x || c == y
  {
    SetItemsStep(pat, 1, 3, c);
    SetItemsStep(pat, 2, 3, c);
    assert SetItems(pat, 3, 3) == [];
    assert !AnyContains([], c);
  }

  lemma {:induction false} ClassInSet(pat: string, l: char, c: char)
    requires pat == ['[', '%', l, ']'] && l in CLASSES
    ensures AnyContains(SetItems(pat, 1, 3), c) <==> Holds(l, c)
  {
    SetItemsStep(pat, 1, 3, c);
    assert SetItems(pat, 3, 3) == [];
    ClassHolds(c, l);
    assert !AnyContains([], c);
  }

  // ---- repetitions ----

  ghost predicate Run(src: string, c: char, s: nat, e: nat) {
    s <= e <= |src| && forall k :: s <= k < e ==> src[k] == c
  }

  // How many of the character c a suffix allows.
  predicate Allowed(suffix: char, n: int) {
    match suffix case '*' => n >= 0 case '-' => n >= 0 case '+' => n >= 1 case '?' => 0 <= n <= 1 case _ => false
  }

  // A character and a suffix, as a pattern.
  lemma {:induction false} SuffixedAt(pat: string, c: char, suffix: char)
    requires pat == [c, suffix] && Ordinary(c) && suffix in "*+-?"
    ensures NodeAt(pat, 0) == Single(1, SuffixAt(pat, 1), 2) && NodeAt(pat, 2) == Done && pat[0] == c
    ensures forall n: nat :: InCount(SuffixAt(pat, 1), n) <==> Allowed(suffix, n)
  {
  }

  lemma {:induction false} CharMatches(src: string, pat: string, c: char)
    requires |pat| > 0 && pat[0] == c && Ordinary(c)
    ensures forall k: nat :: SingleMatch(src, pat, k, 0, 1) <==> k < |src| && src[k] == c
  {
  }

  lemma RunDerives(src: string, c: char, suffix: char, s: nat, e: nat)
    requires InSubject(src, s, []) && Ordinary(c) && suffix in "*+-?" && Run(src, c, s, e) && Allowed(suffix, e - s)
    ensures Derives(src, [c, suffix], s, 0, [], e, [])
  {
    hide NodeAt, SingleMatch, Allowed;
    var pat, n: nat := [c, suffix], e - s;
    SuffixedAt(pat, c, suffix);
    CharMatches(src, pat, c);
    assert Repeats(src, pat, s, 0, 1, n) && InCount(SuffixAt(pat, 1), n);
    assert Derives(src, pat, s + n, 2, [], e, []);
  }

  lemma DerivesRun(src: string, c: char, suffix: char, s: nat, e: nat, caps: seq<Cap>)
    requires InSubject(src, s, []) && Ordinary(c) && suffix in "*+-?" && Derives(src, [c, suffix], s, 0, [], e, caps)
    ensures caps == [] && Run(src, c, s, e) && Allowed(suffix, e - s)
  {
    hide NodeAt, SingleMatch, Allowed;
    var pat := [c, suffix];
    SuffixedAt(pat, c, suffix);
    CharMatches(src, pat, c);
    var n: nat :| InCount(SuffixAt(pat, 1), n) && s + n <= |src| && Repeats(src, pat, s, 0, 1, n) && Derives(src, pat, s + n, 2, [], e, caps);
    forall k: nat | s <= k < s + n ensures src[k] == c { assert SingleMatch(src, pat, k, 0, 1); }
  }

  lemma Repetitions(src: string, c: char, suffix: char, s: nat, e: nat, caps: seq<Cap>)
    requires InSubject(src, s, []) && Ordinary(c) && suffix in "*+-?"
    ensures Derives(src, [c, suffix], s, 0, [], e, caps) <==> caps == [] && Run(src, c, s, e) && Allowed(suffix, e - s)
  {
    hide Derives, Run, Allowed;
    if Derives(src, [c, suffix], s, 0, [], e, caps) { DerivesRun(src, c, suffix, s, e, caps); }
    if caps == [] && Run(src, c, s, e) && Allowed(suffix, e - s) { RunDerives(src, c, suffix, s, e); }
  }

  // The first result of the search, which is the one that is returned.
  ghost predicate First(src: string, pat: string, s: nat, e: nat)
    requires InSubject(src, s, [])
  {
    Search(src, pat, s, 0, []) != [] && Search(src, pat, s, 0, [])[0] == Hit(e, [])
  }

  // '*' takes the longest run, '-' the shortest.
  lemma Longest(src: string, c: char, s: nat) returns (e: nat)
    requires InSubject(src, s, []) && Ordinary(c)
    ensures First(src, [c, '*'], s, e) && Run(src, c, s, e) && (e == |src| || src[e] != c)
  {
    hide NodeAt, SingleMatch;
    var pat := [c, '*'];
    SuffixedAt(pat, c, '*');
    CharMatches(src, pat, c);
    assert SuffixAt(pat, 1) == Star;
    var n := Count(src, pat, s, 0, 1, |src| - s);
    e := s + n;
    forall k: nat | s <= k < e ensures src[k] == c { assert SingleMatch(src, pat, k, 0, 1); }
    assert Search(src, pat, e, 2, []) == [Hit(e, [])];
    SingleParts(src, pat, s, 0, []);
    assert GreedySearch(src, pat, s, 0, 1, 2, [], n, 0)[0] == Hit(e, []);
  }

  lemma Shortest(src: string, c: char, s: nat)
    requires InSubject(src, s, []) && Ordinary(c)
    ensures First(src, [c, '-'], s, s)
  {
    var pat := [c, '-'];
    assert NodeAt(pat, 0) == Single(1, Lazy, 2) && NodeAt(pat, 2) == Done;
    assert Search(src, pat, s, 2, []) == [Hit(s, [])];
    SingleParts(src, pat, s, 0, []);
  }

  // ---- the end, frontiers and captures ----

  lemma Anchors(src: string, s: nat, l: char, e: nat, caps: seq<Cap>)
    requires InSubject(src, s, []) && l in CLASSES
    ensures Derives(src, "$", s, 0, [], e, caps) <==> s == |src| && e == s && caps == []
    ensures var before, here := if s == 0 then '\0' else src[s - 1], if s < |src| then src[s] else '\0';
      Derives(src, ['%', 'f', '[', '%', l, ']'], s, 0, [], e, caps) <==> !Holds(l, before) && Holds(l, here) && e == s && caps == []
  {
    var pat := ['%', 'f', '[', '%', l, ']'];
    assert BracketEnd(pat, 3) == Ends(6);
    assert NodeAt(pat, 0) == Frontier(2, 6) && NodeAt(pat, 6) == Done;
    FrontierSet(pat, l, if s == 0 then '\0' else src[s - 1]);
    FrontierSet(pat, l, At(src, s));
  }

  lemma {:induction false} FrontierSet(pat: string, l: char, c: char)
    requires pat == ['%', 'f', '[', '%', l, ']'] && l in CLASSES
    ensures InSet(pat, c, 2, 5) <==> Holds(l, c)
  {
    SetItemsStep(pat, 3, 5, c);
    assert SetItems(pat, 5, 5) == [];
    ClassHolds(c, l);
  }

  // '()' captures the position, '(c)' the character, and '%1' after it matches it again.
  lemma Captures(src: string, s: nat, c: char, e: nat, caps: seq<Cap>)
    requires InSubject(src, s, []) && Ordinary(c)
    ensures Derives(src, "()", s, 0, [], e, caps) <==> e == s && caps == [Cap(s, CAP_POSITION)]
    ensures Derives(src, ['(', c, ')'], s, 0, [], e, caps) <==> Run(src, c, s, s + 1) && e == s + 1 && caps == [Cap(s, 1)]
    ensures Derives(src, ['(', c, ')', '%', '1'], s, 0, [], e, caps) <==> Run(src, c, s, s + 2) && e == s + 2 && caps == [Cap(s, 1)]
  {
    hide Run;
    var one, twice := ['(', c, ')'], ['(', c, ')', '%', '1'];
    Captured(src, one, s, c, e, caps);
    Captured(src, twice, s, c, e, caps);
    RunOfOne(src, c, s);
    if s < |src| {
      assert NodeAt(one, 3) == Done;
      CapturedAgain(src, twice, s, e, caps);
    }
  }

  lemma RunOfOne(src: string, c: char, s: nat)
    requires s <= |src|
    ensures Run(src, c, s, s + 1) <==> s < |src| && src[s] == c
    ensures Run(src, c, s, s + 2) <==> s + 1 < |src| && src[s] == c && src[s + 1] == c
  {
  }

  lemma {:induction false} CapturedAt(pat: string, c: char)
    requires Ordinary(c) && ['(', c, ')'] <= pat && (|pat| == 3 || At(pat, 3) == '%')
    ensures NodeAt(pat, 0) == Open(false, 1) && NodeAt(pat, 1) == Single(2, One, 2) && NodeAt(pat, 2) == Close(3) && pat[1] == c
  {
    assert pat[0] == '(' && pat[1] == c && pat[2] == ')';
  }

  lemma {:induction false} Captured(src: string, pat: string, s: nat, c: char, e: nat, caps: seq<Cap>)
    requires InSubject(src, s, []) && Ordinary(c) && ['(', c, ')'] <= pat && (|pat| == 3 || At(pat, 3) == '%')
    ensures Derives(src, pat, s, 0, [], e, caps) <==>
      s < |src| && src[s] == c && CapsOk(src, [Cap(s, 1)]) && Derives(src, pat, s + 1, 3, [Cap(s, 1)], e, caps)
  {
    hide NodeAt;
    var open: seq<Cap> := [Cap(s, CAP_UNFINISHED)];
    assert Opened([], s, false) == open;
    CapturedAt(pat, c);
    OneFirst(src, pat, s, 1, 2, open, e, caps);
    if s < |src| { assert Closed(open, s + 1) == [Cap(s, 1)]; }
  }

  lemma {:induction false} CapturedAgain(src: string, pat: string, s: nat, e: nat, caps: seq<Cap>)
    requires s < |src| && InSubject(src, s + 1, [Cap(s, 1)]) && |pat| == 5 && pat[3] == '%' && pat[4] == '1'
    ensures Derives(src, pat, s + 1, 3, [Cap(s, 1)], e, caps) <==>
      s + 1 < |src| && src[s + 1] == src[s] && e == s + 2 && caps == [Cap(s, 1)]
  {
    assert NodeAt(pat, 3) == BackRef('1', 5) && NodeAt(pat, 5) == Done;
    assert src[s..s + 1] == [src[s]];
    if s + 1 < |src| { assert src[s + 1..s + 2] == [src[s + 1]]; }
  }

  // ---- errors ----

  lemma Faults(src: string, s: nat)
    requires InSubject(src, s, [])
    ensures Search(src, "%", s, 0, []) == [Fault("malformed pattern (ends with '%')")]
    ensures Search(src, "[a", s, 0, []) == [Fault("malformed pattern (missing ']')")]
    ensures Search(src, "%b(", s, 0, []) == [Fault("malformed pattern (missing arguments to '%b')")]
    ensures Search(src, "%fa", s, 0, []) == [Fault("missing '[' after '%f' in pattern")]
    ensures Search(src, ")", s, 0, []) == [Fault("invalid pattern capture")]
    ensures Search(src, "%1", s, 0, []) == [Fault("invalid capture index")]
  {
    assert BracketEnd("[a", 1) == Malformed(MISSING_BRACKET);
  }
}
