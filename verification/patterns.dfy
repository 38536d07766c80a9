// Lua patterns: their syntax, what they match, and the order in which matches are tried.
module Patterns {
  import opened Integers

  const L_ESC := '%'
  const MAXCAPTURES := 32
  const CAP_UNFINISHED := -1
  const CAP_POSITION := -2

  const ENDS_WITH_ESC := "malformed pattern (ends with '%')"
  const MISSING_BRACKET := "malformed pattern (missing ']')"
  const MISSING_FRONTIER := "missing '[' after '%f' in pattern"
  const MISSING_BALANCE := "malformed pattern (missing arguments to '%b')"
  const TOO_MANY := "too many captures"
  const NO_OPEN := "invalid pattern capture"
  const BAD_INDEX := "invalid capture index"

  // Strings end with a '\0' that may be read.
  function At(s: string, i: nat): char { if i < |s| then s[i] else '\0' }

  // ---- character classes, in the "C" locale ----

  predicate IsUpper(c: char) { 'A' <= c <= 'Z' }
  predicate IsLower(c: char) { 'a' <= c <= 'z' }
  predicate IsAlpha(c: char) { IsUpper(c) || IsLower(c) }
  predicate IsDigit(c: char) { '0' <= c <= '9' }
  predicate IsGraph(c: char) { '!' <= c <= '~' }
  predicate IsCntrl(c: char) { c as int < 32 || c as int == 127 }
  predicate IsSpace(c: char) { c == ' ' || 9 <= c as int <= 13 }
  predicate IsXDigit(c: char) { IsDigit(c) || 'a' <= c <= 'f' || 'A' <= c <= 'F' }
  function ToLower(c: char): char { if IsUpper(c) then ((c as int) + 32) as char else c }

  // 'match_class'.
  predicate MatchClass(c: char, cl: char) {
    var l := ToLower(cl);
    if l in "acdglpsuwxz" then
      var res :=
        if l == 'a' then IsAlpha(c) else if l == 'c' then IsCntrl(c) else if l == 'd' then IsDigit(c)
        else if l == 'g' then IsGraph(c) else if l == 'l' then IsLower(c)
        else if l == 'p' then IsGraph(c) && !IsAlpha(c) && !IsDigit(c) else if l == 's' then IsSpace(c)
        else if l == 'u' then IsUpper(c) else if l == 'w' then IsAlpha(c) || IsDigit(c)
        else if l == 'x' then IsXDigit(c) else c == '\0';
      if IsLower(cl) then res else !res
    else cl == c
  }

  // ---- sets in brackets ----

  datatype SetItem = Class(cl: char) | Range(lo: char, hi: char) | Lone(ch: char)

  predicate Contains(i: SetItem, c: char) {
    match i case Class(cl) => MatchClass(c, cl) case Range(lo, hi) => lo <= c <= hi case Lone(ch) => ch == c
  }

  // The items from p on, up to the bracket at ec.
  function SetItems(pat: string, p: nat, ec: nat): seq<SetItem>
    decreases ec - p
  {
    if p >= ec then []
    else
      var (i, q) := HeadItem(pat, p, ec);
      [i] + SetItems(pat, q, ec)
  }

  // The first item, and where the others begin.
  function HeadItem(pat: string, p: nat, ec: nat): (SetItem, nat) {
    if At(pat, p) == L_ESC then (Class(At(pat, p + 1)), p + 2)
    else if At(pat, p + 1) == '-' && p + 2 < ec then (Range(At(pat, p), At(pat, p + 2)), p + 3)
    else (Lone(At(pat, p)), p + 1)
  }

  lemma SetItemsStep(pat: string, p: nat, ec: nat, c: char)
    requires p < ec
    ensures var (i, q) := HeadItem(pat, p, ec);
      p < q && (AnyContains(SetItems(pat, p, ec), c) <==> Contains(i, c) || AnyContains(SetItems(pat, q, ec), c))
  {
    hide AnyContains;
    var (i, q) := HeadItem(pat, p, ec);
    AnyOfMore(i, SetItems(pat, q, ec), c);
  }

  // What a set that opens at p and closes at ec contains.
  ghost predicate InSet(pat: string, c: char, p: nat, ec: nat) {
    var negated := At(pat, p + 1) == '^';
    var items := SetItems(pat, if negated then p + 2 else p + 1, ec);
    AnyContains(items, c) != negated
  }

  ghost predicate AnyContains(items: seq<SetItem>, c: char) {
    exists i :: i in items && Contains(i, c)
  }

  lemma AnyOfMore(i: SetItem, rest: seq<SetItem>, c: char)
    ensures AnyContains([i] + rest, c) <==> Contains(i, c) || AnyContains(rest, c)
  {
    assert i in [i] + rest;
    assert forall x :: x in rest ==> x in [i] + rest;
  }

  // ---- syntax ----

  // Where the single-character class at p ends: one past its last character.
  datatype ClassEnd = Ends(ep: nat) | Malformed(msg: string)

  // The end of a set, from position p behind its opening.
  function BracketEnd(pat: string, p: nat): (r: ClassEnd)
    ensures r.Ends? ==> p + 1 < r.ep <= |pat| && pat[r.ep - 1] == ']'
    decreases |pat| - p
  {
    if p >= |pat| then Malformed(MISSING_BRACKET)
    else
      var q := if pat[p] == L_ESC && p + 1 < |pat| then p + 2 else p + 1;
      if At(pat, q) == ']' then Ends(q + 1) else BracketEnd(pat, q)
  }

  // 'classend'.
  function EndOfClass(pat: string, p: nat): (r: ClassEnd)
    requires p < |pat|
    ensures r.Ends? ==> p < r.ep <= |pat| && (pat[p] == '[' ==> p + 2 < r.ep && pat[r.ep - 1] == ']')
  {
    if pat[p] == L_ESC then
      if p + 1 >= |pat| then Malformed(ENDS_WITH_ESC) else Ends(p + 2)
    else if pat[p] == '[' then BracketEnd(pat, if At(pat, p + 1) == '^' then p + 2 else p + 1)
    else Ends(p + 1)
  }

  datatype Suffix = One | Opt | Star | Plus | Lazy

  datatype Node =
    | Done
    | Open(position: bool, next: nat)
    | Close(next: nat)
    | AtEnd
    | Balance(b: char, e: char, next: nat)
    | Frontier(bracket: nat, next: nat)
    | BackRef(digit: char, next: nat)
    | Single(ep: nat, suffix: Suffix, next: nat)
    | Bad(msg: string)

  function SuffixAt(pat: string, ep: nat): Suffix {
    var c := At(pat, ep);
    if c == '?' then Opt else if c == '*' then Star else if c == '+' then Plus else if c == '-' then Lazy else One
  }

  function SingleAt(pat: string, p: nat): Node
    requires p < |pat|
  {
    match EndOfClass(pat, p)
    case Malformed(msg) => Bad(msg)
    case Ends(ep) => var x := SuffixAt(pat, ep); Single(ep, x, if x == One then ep else ep + 1)
  }

  // The pattern item at p.
  function NodeAt(pat: string, p: nat): (n: Node)
    requires p <= |pat|
    ensures match n
      case Open(_, next) => p < next <= |pat|
      case Close(next) => p < next <= |pat|
      case Balance(_, _, next) => p < next <= |pat|
      case Frontier(bracket, next) => p < bracket < next <= |pat|
      case BackRef(_, next) => p < next <= |pat|
      case Single(ep, _, next) => p < ep <= next <= |pat|
      case _ => true
  {
    if p == |pat| then Done
    else if pat[p] == '(' then
      if At(pat, p + 1) == ')' then Open(true, p + 2) else Open(false, p + 1)
    else if pat[p] == ')' then Close(p + 1)
    else if pat[p] == '$' && p + 1 == |pat| then AtEnd
    else if pat[p] == L_ESC && At(pat, p + 1) == 'b' then
      if p + 2 >= |pat| - 1 then Bad(MISSING_BALANCE) else Balance(pat[p + 2], pat[p + 3], p + 4)
    else if pat[p] == L_ESC && At(pat, p + 1) == 'f' then
      if At(pat, p + 2) != '[' then Bad(MISSING_FRONTIER)
      else (match EndOfClass(pat, p + 2) case Malformed(msg) => Bad(msg) case Ends(ep) => Frontier(p + 2, ep))
    else if pat[p] == L_ESC && IsDigit(At(pat, p + 1)) then BackRef(pat[p + 1], p + 2)
    else SingleAt(pat, p)
  }

  // ---- what one item matches ----

  // 'singlematch'.
  ghost predicate SingleMatch(src: string, pat: string, s: nat, p: nat, ep: nat)
    requires p < |pat|
  {
    s < |src| &&
    var c := src[s];
    if pat[p] == '.' then true
    else if pat[p] == L_ESC then MatchClass(c, At(pat, p + 1))
    else if pat[p] == '[' then ep > 0 && InSet(pat, c, p, ep - 1)
    else pat[p] == c
  }

  // The n characters from s on all match.
  ghost predicate Repeats(src: string, pat: string, s: nat, p: nat, ep: nat, n: nat)
    requires p < |pat|
  {
    forall k: nat :: s <= k < s + n ==> SingleMatch(src, pat, k, p, ep)
  }

  // How deep the balance is after the characters up to k, counting the one at s as an opening.
  ghost function Nesting(src: string, b: char, e: char, s: nat, k: nat): int
    requires s < k <= |src|
  {
    if k == s + 1 then 1
    else Nesting(src, b, e, s, k - 1) + (if src[k - 1] == e then -1 else if src[k - 1] == b then 1 else 0)
  }

  // The balance that opens at s closes just before r.
  ghost predicate Balanced(src: string, b: char, e: char, s: nat, r: nat) {
    && s + 1 < r <= |src| && src[s] == b && Nesting(src, b, e, s, r) == 0
    && forall k :: s < k < r ==> Nesting(src, b, e, s, k) > 0
  }

  ghost function BalanceEnd(src: string, b: char, e: char, s: nat): (r: int)
    ensures r >= 0 ==> Balanced(src, b, e, s, r)
    ensures r < 0 ==> forall x: nat :: !Balanced(src, b, e, s, x)
  {
    if exists x: nat :: Balanced(src, b, e, s, x) then (var x: nat :| Balanced(src, b, e, s, x); x) else -1
  }

  lemma BalanceUnique(src: string, b: char, e: char, s: nat, r: nat, x: nat)
    requires Balanced(src, b, e, s, r) && Balanced(src, b, e, s, x)
    ensures r == x
  {
  }

  lemma BalanceFound(src: string, b: char, e: char, s: nat, r: nat)
    requires Balanced(src, b, e, s, r)
    ensures BalanceEnd(src, b, e, s) == r
  {
    BalanceUnique(src, b, e, s, r, BalanceEnd(src, b, e, s));
  }

  // Where the nesting stays positive to the end there is no balance.
  lemma NoBalance(src: string, b: char, e: char, s: nat)
    requires forall k :: s < k <= |src| ==> Nesting(src, b, e, s, k) > 0
    ensures BalanceEnd(src, b, e, s) < 0
  {
    forall x: nat ensures !Balanced(src, b, e, s, x) {
      if s < x <= |src| { assert Nesting(src, b, e, s, x) > 0; }
    }
  }

  ghost predicate AtFrontier(src: string, pat: string, s: nat, bracket: nat, ep: nat)
    requires s <= |src| && ep > 0
  {
    var previous := if s == 0 then '\0' else src[s - 1];
    !InSet(pat, previous, bracket, ep - 1) && InSet(pat, At(src, s), bracket, ep - 1)
  }

  // ---- captures ----

  datatype Cap = Cap(init: nat, len: int)

  // The innermost unfinished capture, or -1: 'capture_to_close'.
  function ToClose(caps: seq<Cap>): (l: int)
    ensures -1 <= l < |caps|
    ensures l >= 0 ==> caps[l].len == CAP_UNFINISHED && forall i :: l < i < |caps| ==> caps[i].len != CAP_UNFINISHED
    ensures l < 0 ==> forall i :: 0 <= i < |caps| ==> caps[i].len != CAP_UNFINISHED
  {
    if caps == [] then -1
    else if caps[|caps| - 1].len == CAP_UNFINISHED then |caps| - 1
    else ToClose(caps[..|caps| - 1])
  }

  // The index of a capture that a digit refers to, or -1: 'check_capture'.
  function CaptureIndex(caps: seq<Cap>, digit: char): (l: int)
    ensures l >= 0 ==> l < |caps| && caps[l].len != CAP_UNFINISHED
  {
    var l := digit as int - '1' as int;
    if l < 0 || l >= |caps| || caps[l].len == CAP_UNFINISHED then -1 else l
  }

  // Whether the text of a capture comes again at s; position captures have none.
  predicate Again(src: string, s: nat, cap: Cap)
    requires s <= |src| && (cap.len >= 0 ==> cap.init + cap.len <= |src|)
  {
    0 <= cap.len <= |src| - s && src[cap.init..cap.init + cap.len] == src[s..s + cap.len]
  }

  // Captures lie in the subject.
  predicate CapsOk(src: string, caps: seq<Cap>) {
    && |src| < 0x8000_0000_0000_0000
    && forall i :: 0 <= i < |caps| ==> CapOk(src, caps[i])
  }

  predicate CapOk(src: string, cap: Cap) {
    cap.init <= |src| && cap.len >= CAP_POSITION && (cap.len >= 0 ==> cap.init + cap.len <= |src|)
  }

  // Captures that may be closed at s: unfinished ones began before.
  predicate Before(caps: seq<Cap>, s: nat) {
    forall i :: 0 <= i < |caps| ==> caps[i].init <= s
  }

  // ---- what a pattern matches, in no order ----

  // How often an item may be repeated.
  predicate InCount(x: Suffix, n: nat) {
    match x case One => n == 1 case Opt => n <= 1 case Plus => n >= 1 case _ => true
  }

  ghost predicate InSubject(src: string, s: nat, caps: seq<Cap>) {
    s <= |src| && CapsOk(src, caps) && Before(caps, s)
  }

  // From s with captures caps, the pattern from p on matches up to e, with captures caps'.
  ghost predicate Derives(src: string, pat: string, s: nat, p: nat, caps: seq<Cap>, e: nat, caps': seq<Cap>)
    requires p <= |pat| && InSubject(src, s, caps)
    decreases |pat| - p
  {
    match NodeAt(pat, p)
    case Done => e == s && caps' == caps
    case AtEnd => s == |src| && e == s && caps' == caps
    case Open(position, next) =>
      |caps| < MAXCAPTURES && Derives(src, pat, s, next, Opened(caps, s, position), e, caps')
    case Close(next) => ToClose(caps) >= 0 && Derives(src, pat, s, next, Closed(caps, s), e, caps')
    case Balance(b, x, next) =>
      exists r: nat :: Balanced(src, b, x, s, r) && Derives(src, pat, r, next, caps, e, caps')
    case Frontier(bracket, next) => AtFrontier(src, pat, s, bracket, next) && Derives(src, pat, s, next, caps, e, caps')
    case BackRef(digit, next) =>
      var l := CaptureIndex(caps, digit);
      l >= 0 && Again(src, s, caps[l]) && Derives(src, pat, s + caps[l].len, next, caps, e, caps')
    case Single(ep, x, next) =>
      exists n: nat :: InCount(x, n) && s + n <= |src| && Repeats(src, pat, s, p, ep, n) && Derives(src, pat, s + n, next, caps, e, caps')
    case Bad(_) => false
  }

  function Opened(caps: seq<Cap>, s: nat, position: bool): seq<Cap> {
    caps + [Cap(s, if position then CAP_POSITION else CAP_UNFINISHED)]
  }

  function Closed(caps: seq<Cap>, s: nat): seq<Cap>
    requires ToClose(caps) >= 0
  {
    var l := ToClose(caps);
    caps[l := Cap(caps[l].init, s - caps[l].init)]
  }

  // ---- the search: matches in the order in which they are tried ----

  // A match, or an error that ends the search.
  datatype Hit = Hit(e: nat, caps: seq<Cap>) | Fault(msg: string)

  ghost function Search(src: string, pat: string, s: nat, p: nat, caps: seq<Cap>): seq<Hit>
    requires p <= |pat| && InSubject(src, s, caps)
    decreases |pat| - p, 0, 0
  {
    match NodeAt(pat, p)
    case Done => [Hit(s, caps)]
    case AtEnd => if s == |src| then [Hit(s, caps)] else []
    case Open(position, next) =>
      if |caps| >= MAXCAPTURES then [Fault(TOO_MANY)] else Search(src, pat, s, next, Opened(caps, s, position))
    case Close(next) => if ToClose(caps) < 0 then [Fault(NO_OPEN)] else Search(src, pat, s, next, Closed(caps, s))
    case Balance(b, x, next) =>
      var r := BalanceEnd(src, b, x, s);
      if r < 0 then [] else Search(src, pat, r, next, caps)
    case Frontier(bracket, next) => if AtFrontier(src, pat, s, bracket, next) then Search(src, pat, s, next, caps) else []
    case BackRef(digit, next) =>
      var l := CaptureIndex(caps, digit);
      if l < 0 then [Fault(BAD_INDEX)]
      else if Again(src, s, caps[l]) then Search(src, pat, s + caps[l].len, next, caps) else []
    case Bad(msg) => [Fault(msg)]
    case Single(ep, x, next) =>
      if x == Lazy then LazySearch(src, pat, s, p, ep, next, caps)
      else
        var most := if x == One || x == Opt then 1 else |src| - s;
        var least := if x == One || x == Plus then 1 else 0;
        GreedySearch(src, pat, s, p, ep, next, caps, Count(src, pat, s, p, ep, most), least)
  }

  // How many characters from s on match, at most 'most'.
  ghost function Count(src: string, pat: string, s: nat, p: nat, ep: nat, most: nat): (n: nat)
    requires p < |pat| && s <= |src|
    ensures n <= most && s + n <= |src| && Repeats(src, pat, s, p, ep, n)
    ensures n < most ==> !SingleMatch(src, pat, s + n, p, ep)
    decreases most
  {
    if most == 0 || !SingleMatch(src, pat, s, p, ep) then 0
    else 1 + Count(src, pat, s + 1, p, ep, most - 1)
  }

  // From n repetitions down to 'least'.
  ghost function GreedySearch(src: string, pat: string, s: nat, p: nat, ep: nat, next: nat, caps: seq<Cap>, n: int, least: nat): seq<Hit>
    requires p < next <= |pat| && InSubject(src, s, caps) && s + n <= |src|
    decreases |pat| - next, 1, n
  {
    if n < least then []
    else Search(src, pat, s + n, next, caps) + GreedySearch(src, pat, s, p, ep, next, caps, n - 1, least)
  }

  // From no repetition up.
  ghost function LazySearch(src: string, pat: string, s: nat, p: nat, ep: nat, next: nat, caps: seq<Cap>): seq<Hit>
    requires p < next <= |pat| && InSubject(src, s, caps)
    decreases |pat| - next, 1, |src| - s
  {
    Search(src, pat, s, next, caps)
      + if SingleMatch(src, pat, s, p, ep) then LazySearch(src, pat, s + 1, p, ep, next, caps) else []
  }

  lemma {:induction false} GreedyShift(src: string, pat: string, s: nat, p: nat, ep: nat, next: nat, caps: seq<Cap>, n: int)
    requires p < next <= |pat| && InSubject(src, s, caps) && s + 1 + n <= |src| && s < |src| && n >= -1
    ensures GreedySearch(src, pat, s, p, ep, next, caps, n + 1, 1) == GreedySearch(src, pat, s + 1, p, ep, next, caps, n, 0)
    decreases n + 1
  {
    if n >= 0 {
      GreedyShift(src, pat, s, p, ep, next, caps, n - 1);
      assert s + (n + 1) == s + 1 + n;
    }
  }

  // One item with its suffix, by whether its character matches here.
  lemma SingleStep(src: string, pat: string, s: nat, p: nat, caps: seq<Cap>)
    requires p <= |pat| && InSubject(src, s, caps) && NodeAt(pat, p).Single?
    ensures var Single(ep, x, next) := NodeAt(pat, p); !SingleMatch(src, pat, s, p, ep) ==>
      Search(src, pat, s, p, caps) == if x == One || x == Plus then [] else Search(src, pat, s, next, caps)
    ensures var Single(ep, x, next) := NodeAt(pat, p); SingleMatch(src, pat, s, p, ep) ==>
      s < |src| && Search(src, pat, s, p, caps) == match x
        case One => Search(src, pat, s + 1, next, caps)
        case Opt => Search(src, pat, s + 1, next, caps) + Search(src, pat, s, next, caps)
        case Plus => GreedySearch(src, pat, s + 1, p, ep, next, caps, Count(src, pat, s + 1, p, ep, |src| - (s + 1)), 0)
        case Star => GreedySearch(src, pat, s, p, ep, next, caps, Count(src, pat, s, p, ep, |src| - s), 0)
        case Lazy => LazySearch(src, pat, s, p, ep, next, caps)
  {
    hide Search, SingleMatch, NodeAt, CapsOk, Before;
    var Single(ep, x, next) := NodeAt(pat, p);
    SingleParts(src, pat, s, p, caps);
    var most := if x == One || x == Opt then 1 else |src| - s;
    var least := if x == One || x == Plus then 1 else 0;
    var n := Count(src, pat, s, p, ep, most);
    if SingleMatch(src, pat, s, p, ep) {
      MatchInside(src, pat, s, p, ep);
      BeforeLater(src, caps, s, s + 1);
      if x == Plus { GreedyShift(src, pat, s, p, ep, next, caps, n - 1); }
      GreedyOfOne(src, pat, s, p, ep, next, caps);
    }
    assert GreedySearch(src, pat, s, p, ep, next, caps, 0, 0) == Search(src, pat, s, next, caps) + [];
  }

  lemma GreedyOfOne(src: string, pat: string, s: nat, p: nat, ep: nat, next: nat, caps: seq<Cap>)
    requires p < next <= |pat| && InSubject(src, s, caps) && InSubject(src, s + 1, caps)
    ensures GreedySearch(src, pat, s, p, ep, next, caps, 1, 1) == Search(src, pat, s + 1, next, caps)
    ensures GreedySearch(src, pat, s, p, ep, next, caps, 1, 0) == Search(src, pat, s + 1, next, caps) + Search(src, pat, s, next, caps)
  {
    hide Search, CapsOk, Before;
    assert GreedySearch(src, pat, s, p, ep, next, caps, 0, 1) == [];
    assert GreedySearch(src, pat, s, p, ep, next, caps, 0, 0) == Search(src, pat, s, next, caps) + [];
  }

  lemma SingleParts(src: string, pat: string, s: nat, p: nat, caps: seq<Cap>)
    requires p <= |pat| && InSubject(src, s, caps) && NodeAt(pat, p).Single?
    ensures var Single(ep, x, next) := NodeAt(pat, p);
      var most := if x == One || x == Opt then 1 else |src| - s;
      Search(src, pat, s, p, caps) == if x == Lazy then LazySearch(src, pat, s, p, ep, next, caps)
        else GreedySearch(src, pat, s, p, ep, next, caps, Count(src, pat, s, p, ep, most), if x == One || x == Plus then 1 else 0)
    ensures p < NodeAt(pat, p).ep <= NodeAt(pat, p).next <= |pat|
  {
  }

  lemma MatchInside(src: string, pat: string, s: nat, p: nat, ep: nat)
    requires p < |pat| && SingleMatch(src, pat, s, p, ep)
    ensures s < |src|
  {
  }

  lemma BeforeLater(src: string, caps: seq<Cap>, s: nat, s': nat)
    requires InSubject(src, s, caps) && s <= s' <= |src|
    ensures InSubject(src, s', caps)
  {
  }
}
