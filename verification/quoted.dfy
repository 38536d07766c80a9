// String literals: what '%q' writes and what the lexer reads back.
module Quoted {

  type Byte = c: char | c as int < 256

  const QUOTE: Byte := '"'
  const BACKSLASH: Byte := '\\'
  const NEWLINE: Byte := '\n'
  const RETURN: Byte := '\r'
  const MAX_INT := 0x7fff_ffff
  const UCHAR_MAX := 255

  predicate IsDigit(c: Byte) { '0' <= c <= '9' }
  predicate IsXDigit(c: Byte) { IsDigit(c) || 'a' <= c <= 'f' || 'A' <= c <= 'F' }
  predicate IsSpace(c: Byte) { c == ' ' || 9 <= c as int <= 13 }
  predicate IsCntrl(c: Byte) { c as int < 32 || c as int == 127 }
  predicate IsNewline(c: Byte) { c == NEWLINE || c == RETURN }

  // Reading past the end of a C string gives its terminator.
  function Head(s: seq<Byte>): Byte { if s == [] then '\0' else s[0] }

  function Digit(n: nat): Byte
    requires n < 10
  {
    ('0' as int + n) as char
  }

  // The value of a digit; 'luaO_hexavalue'.
  function DecValue(c: Byte): (n: nat)
    requires IsDigit(c)
    ensures n < 10
  {
    c as int - '0' as int
  }

  function HexValue(c: Byte): (n: nat)
    requires IsXDigit(c)
    ensures n < 16
  {
    if IsDigit(c) then c as int - '0' as int
    else if 'a' <= c <= 'f' then c as int - 'a' as int + 10
    else c as int - 'A' as int + 10
  }

  // ---- writing ----

  // '%d' and '%03d' of a byte.
  function Decimal(n: nat, wide: bool): (d: seq<Byte>)
    requires n < 256
    ensures 1 <= |d| <= 3 && (wide ==> |d| == 3) && forall i :: 0 <= i < |d| ==> IsDigit(d[i])
  {
    if wide || n >= 100 then [Digit(n / 100), Digit(n / 10 % 10), Digit(n % 10)]
    else if n >= 10 then [Digit(n / 10), Digit(n % 10)]
    else [Digit(n)]
  }

  // What 'addquoted' writes for c, when 'next' follows it in the string.
  function QuotedChar(c: Byte, next: Byte): seq<Byte> {
    if c == QUOTE || c == BACKSLASH || c == NEWLINE then [BACKSLASH, c]
    else if c == '\0' || IsCntrl(c) then [BACKSLASH] + Decimal(c as int, IsDigit(next))
    else [c]
  }

  function QuotedBody(s: seq<Byte>): seq<Byte> {
    if s == [] then [] else QuotedChar(s[0], Head(s[1..])) + QuotedBody(s[1..])
  }

  lemma BodyStep(b: seq<Byte>, s: seq<Byte>, i: nat)
    requires i < |s|
    ensures b + QuotedBody(s[i..]) == b + QuotedChar(s[i], if i + 1 < |s| then s[i + 1] else '\0') + QuotedBody(s[i + 1..])
  {
    assert s[i..][1..] == s[i + 1..];
  }

  // 'addquoted'.
  method AddQuoted(s: seq<Byte>) returns (b: seq<Byte>)
    ensures b == [QUOTE] + QuotedBody(s) + [QUOTE]
  {
    hide QuotedBody, Decimal;
    b := [QUOTE];
    var i := 0;
    assert s[0..] == s;
    while i < |s|
      invariant 0 <= i <= |s| && b + QuotedBody(s[i..]) == [QUOTE] + QuotedBody(s)
    {
      BodyStep(b, s, i);
      if s[i] == QUOTE || s[i] == BACKSLASH || s[i] == NEWLINE {
        b := b + [BACKSLASH, s[i]];
      } else if s[i] == '\0' || IsCntrl(s[i]) {
        if !IsDigit(if i + 1 < |s| then s[i + 1] else '\0') {
          b := b + ([BACKSLASH] + Decimal(s[i] as int, false));
        } else {
          b := b + ([BACKSLASH] + Decimal(s[i] as int, true));
        }
      } else {
        b := b + [s[i]];
      }
      i := i + 1;
    }
    BodyEmpty(s[i..]);
    b := b + [QUOTE];
  }

  lemma BodyEmpty(s: seq<Byte>)
    requires s == []
    ensures QuotedBody(s) == []
  {
  }

  // ---- reading ----

  const UNFINISHED := "unfinished string"
  const BAD_ESCAPE := "invalid escape sequence"
  const TOO_LARGE := "decimal escape too large"
  const HEX_EXPECTED := "hexadecimal digit expected"
  const TOO_MANY_LINES := "chunk has too many lines"
  const MISSING_OPEN := "missing '{'"
  const MISSING_CLOSE := "missing '}'"
  const UTF8_TOO_LARGE := "UTF-8 value too large"

  // The bytes of a literal, the input after it, and the line there.
  datatype Literal = Literal(bytes: seq<Byte>, rest: seq<Byte>, line: nat) | Error(msg: string)

  // The input and the line after a line break: 'inclinenumber' skips any of \n, \r, \n\r, \r\n.
  function AfterBreak(input: seq<Byte>): (rest: seq<Byte>)
    requires input != [] && IsNewline(input[0])
    ensures |rest| < |input|
  {
    if |input| > 1 && IsNewline(input[1]) && input[1] != input[0] then input[2..] else input[1..]
  }

  // Up to three decimal digits.
  function DecDigits(input: seq<Byte>, most: nat): (n: nat)
    ensures n <= |input| && n <= most && forall i :: 0 <= i < n ==> IsDigit(input[i])
    ensures n < most && n < |input| ==> !IsDigit(input[n])
    decreases most
  {
    if most == 0 || input == [] || !IsDigit(input[0]) then 0 else 1 + DecDigits(input[1..], most - 1)
  }

  function DecNumber(d: seq<Byte>): nat
    requires forall i :: 0 <= i < |d| ==> IsDigit(d[i])
  {
    if d == [] then 0 else 10 * DecNumber(d[..|d| - 1]) + DecValue(d[|d| - 1])
  }

  // The character of a one-letter escape.
  function Letter(c: Byte): (l: Byte)
    requires c in "abfnrtv"
  {
    if c == 'a' then 7 as char else if c == 'b' then 8 as char else if c == 'f' then 12 as char else if c == 'n' then NEWLINE
    else if c == 'r' then RETURN else if c == 't' then 9 as char else 11 as char
  }

  // The input after a span of spaces, and how many line breaks it had.
  function SkipSpace(input: seq<Byte>, line: nat): (r: (seq<Byte>, nat))
    ensures |r.0| <= |input| && r.1 >= line
    decreases |input|
  {
    if input == [] || !IsSpace(input[0]) then (input, line)
    else if IsNewline(input[0]) then SkipSpace(AfterBreak(input), line + 1)
    else SkipSpace(input[1..], line)
  }

  // An escape sequence: its bytes, the input after it, and the line there. The input starts behind the backslash.
  function Escape(input: seq<Byte>, line: nat): (r: Literal)
    ensures r.Literal? ==> |r.rest| <= |input| && (input == [] || |r.rest| < |input|) && r.line >= line
  {
    if input == [] then Literal([], [], line)
    else
      var c := input[0];
      if c in "abfnrtv" then Literal([Letter(c)], input[1..], line)
      else if c == 'x' then
        if |input| < 2 || !IsXDigit(input[1]) || |input| < 3 || !IsXDigit(input[2]) then Error(HEX_EXPECTED)
        else Literal([(16 * HexValue(input[1]) + HexValue(input[2])) as char], input[3..], line)
      else if c == 'u' then Utf8Escape(input, line)
      else if IsNewline(c) then
        if line + 1 >= MAX_INT then Error(TOO_MANY_LINES) else Literal([NEWLINE], AfterBreak(input), line + 1)
      else if c == BACKSLASH || c == QUOTE || c == '\'' then Literal([c], input[1..], line)
      else if c == 'z' then
        var (rest, l) := SkipSpace(input[1..], line);
        if l > line && l >= MAX_INT then Error(TOO_MANY_LINES) else Literal([], rest, l)
      else if !IsDigit(c) then Error(BAD_ESCAPE)
      else
        var n := DecDigits(input, 3);
        var v := DecNumber(input[..n]);
        if v > UCHAR_MAX then Error(TOO_LARGE) else Literal([v as char], input[n..], line)
  }

  // '\u{XXX}': hexadecimal digits up to 10FFFF.
  function Utf8Escape(input: seq<Byte>, line: nat): (r: Literal)
    requires input != []
    ensures r.Literal? ==> |r.rest| < |input| && r.line == line
  {
    if |input| < 2 || input[1] != '{' then Error(MISSING_OPEN)
    else if |input| < 3 || !IsXDigit(input[2]) then Error(HEX_EXPECTED)
    else
      match HexNumber(input[3..], HexValue(input[2]))
      case TooBig => Error(UTF8_TOO_LARGE)
      case Code(x, rest) =>
        if rest == [] || rest[0] != '}' then Error(MISSING_CLOSE) else Literal(Utf8(x), rest[1..], line)
  }

  datatype CodePoint = Code(x: nat, rest: seq<Byte>) | TooBig

  function HexNumber(input: seq<Byte>, x: nat): (r: CodePoint)
    requires x <= 0x10FFFF
    ensures r.Code? ==> r.x <= 0x10FFFF && |r.rest| <= |input|
    decreases |input|
  {
    if input == [] || !IsXDigit(input[0]) then Code(x, input)
    else if 16 * x + HexValue(input[0]) > 0x10FFFF then TooBig
    else HexNumber(input[1..], 16 * x + HexValue(input[0]))
  }

  // 'luaO_utf8esc'.
  function Utf8(x: nat): seq<Byte>
    requires x <= 0x10FFFF
  {
    if x < 0x80 then [x as char]
    else if x < 0x800 then [(0xC0 + x / 64) as char, (0x80 + x % 64) as char]
    else if x < 0x10000 then [(0xE0 + x / 4096) as char, (0x80 + x / 64 % 64) as char, (0x80 + x % 64) as char]
    else [(0xF0 + x / 262144) as char, (0x80 + x / 4096 % 64) as char, (0x80 + x / 64 % 64) as char, (0x80 + x % 64) as char]
  }

  function Prepend(bytes: seq<Byte>, r: Literal): Literal {
    if r.Literal? then r.(bytes := bytes + r.bytes) else r
  }

  // The rest of a literal up to its delimiter.
  function ReadBody(input: seq<Byte>, del: Byte, line: nat): Literal
    decreases |input|
  {
    if input == [] then Error(UNFINISHED)
    else if input[0] == del then Literal([], input[1..], line)
    else if IsNewline(input[0]) then Error(UNFINISHED)
    else if input[0] == BACKSLASH then
      var r := Escape(input[1..], line);
      if r.Error? then r else Prepend(r.bytes, ReadBody(r.rest, del, r.line))
    else Prepend([input[0]], ReadBody(input[1..], del, line))
  }

  // ---- the round trip ----

  function Breaks(s: seq<Byte>): nat {
    if s == [] then 0 else Breaks(s[1..]) + if s[0] == NEWLINE then 1 else 0
  }

  // Fewer than three digits are followed by no digit; then they are read back as they were written.
  lemma DecimalReads(n: nat, wide: bool, tail: seq<Byte>)
    requires n < 256 && (!wide ==> tail == [] || !IsDigit(tail[0]))
    ensures var d := Decimal(n, wide); DecDigits(d + tail, 3) == |d| && (d + tail)[..|d|] == d && (d + tail)[|d|..] == tail && DecNumber(d) == n
  {
    DigitsCounted(Decimal(n, wide), tail, 3);
    DecimalNumber(n, wide);
  }

  lemma DigitValue(n: nat)
    requires n < 10
    ensures IsDigit(Digit(n)) && DecValue(Digit(n)) == n
  {
  }

  // Numbers of up to three digits.
  lemma OneDigit(a: nat)
    requires a < 10
    ensures IsDigit(Digit(a)) && DecNumber([Digit(a)]) == a
  {
    DigitValue(a);
    NumberStep([], Digit(a));
    assert [] + [Digit(a)] == [Digit(a)];
  }

  lemma TwoDigits(a: nat, b: nat)
    requires a < 10 && b < 10
    ensures IsDigit(Digit(a)) && IsDigit(Digit(b)) && DecNumber([Digit(a), Digit(b)]) == 10 * a + b
  {
    hide DecNumber, Digit;
    OneDigit(a);
    DigitValue(b);
    NumberStep([Digit(a)], Digit(b));
    assert [Digit(a)] + [Digit(b)] == [Digit(a), Digit(b)];
  }

  lemma ThreeDigits(a: nat, b: nat, c: nat)
    requires a < 10 && b < 10 && c < 10
    ensures IsDigit(Digit(a)) && IsDigit(Digit(b)) && IsDigit(Digit(c)) && DecNumber([Digit(a), Digit(b), Digit(c)]) == 100 * a + 10 * b + c
  {
    hide DecNumber, Digit;
    TwoDigits(a, b);
    DigitValue(c);
    NumberStep([Digit(a), Digit(b)], Digit(c));
    assert [Digit(a), Digit(b)] + [Digit(c)] == [Digit(a), Digit(b), Digit(c)];
  }

  lemma DecimalNumber(n: nat, wide: bool)
    requires n < 256
    ensures DecNumber(Decimal(n, wide)) == n
  {
    hide DecNumber, Digit;
    if wide || n >= 100 {
      ThreeDigits(n / 100, n / 10 % 10, n % 10);
    } else if n >= 10 {
      TwoDigits(n / 10, n % 10);
    } else {
      OneDigit(n);
    }
  }

  lemma NumberStep(d: seq<Byte>, c: Byte)
    requires IsDigit(c) && forall i :: 0 <= i < |d| ==> IsDigit(d[i])
    ensures DecNumber(d + [c]) == 10 * DecNumber(d) + DecValue(c)
  {
    assert (d + [c])[..|d|] == d;
  }

  lemma {:induction false} DigitsCounted(d: seq<Byte>, tail: seq<Byte>, most: nat)
    requires |d| <= most && (forall i :: 0 <= i < |d| ==> IsDigit(d[i])) && (|d| < most ==> tail == [] || !IsDigit(tail[0]))
    ensures DecDigits(d + tail, most) == |d|
    decreases |d|
  {
    if d == [] {
      assert d + tail == tail;
    } else {
      assert (d + tail)[1..] == d[1..] + tail;
      DigitsCounted(d[1..], tail, most - 1);
    }
  }

  // What is written for s begins with a digit only if s does.
  lemma BodyHead(s: seq<Byte>, rest: seq<Byte>)
    ensures var out := QuotedBody(s) + [QUOTE] + rest;
      IsDigit(out[0]) ==> IsDigit(Head(s))
    ensures var out := QuotedBody(s) + [QUOTE] + rest; out[0] != RETURN
  {
    if s != [] { assert QuotedChar(s[0], Head(s[1..])) != []; }
  }

  // What reading c and then the tail gives.
  function ReadAs(c: Byte, tail: seq<Byte>, line: nat): Literal {
    if c == NEWLINE then
      if line + 1 >= MAX_INT then Error(TOO_MANY_LINES) else Prepend([c], ReadBody(tail, QUOTE, line + 1))
    else Prepend([c], ReadBody(tail, QUOTE, line))
  }

  lemma EscapedReads(c: Byte, tail: seq<Byte>, line: nat)
    requires (c == QUOTE || c == BACKSLASH || c == NEWLINE) && tail != [] && tail[0] != RETURN
    ensures ReadBody([BACKSLASH, c] + tail, QUOTE, line) == ReadAs(c, tail, line)
  {
    hide Prepend, DecDigits, DecNumber, SkipSpace, Utf8Escape;
    var input := [BACKSLASH, c] + tail;
    assert input[1..] == [c] + tail;
    EscapedChar(c, tail, line);
  }

  lemma EscapedChar(c: Byte, tail: seq<Byte>, line: nat)
    requires (c == QUOTE || c == BACKSLASH || c == NEWLINE) && tail != [] && tail[0] != RETURN
    ensures Escape([c] + tail, line) ==
      if c != NEWLINE then Literal([c], tail, line) else if line + 1 >= MAX_INT then Error(TOO_MANY_LINES) else Literal([c], tail, line + 1)
  {
    hide DecDigits, DecNumber, SkipSpace, Utf8Escape;
    assert ([c] + tail)[1..] == tail;
    assert c == NEWLINE ==> AfterBreak([c] + tail) == tail;
  }

  lemma ControlReads(c: Byte, wide: bool, tail: seq<Byte>, line: nat)
    requires IsCntrl(c) && c != NEWLINE && (!wide ==> tail == [] || !IsDigit(tail[0]))
    ensures ReadBody([BACKSLASH] + Decimal(c as int, wide) + tail, QUOTE, line) == ReadAs(c, tail, line)
  {
    hide Decimal, DecDigits, DecNumber;
    var d := Decimal(c as int, wide);
    var input := [BACKSLASH] + d + tail;
    assert input[1..] == d + tail;
    DecimalReads(c as int, wide, tail);
    assert IsDigit((d + tail)[0]);
    assert Escape(d + tail, line) == Literal([c], tail, line);
  }

  lemma PlainReads(c: Byte, tail: seq<Byte>, line: nat)
    requires c != QUOTE && c != BACKSLASH && c != NEWLINE && c != RETURN
    ensures ReadBody([c] + tail, QUOTE, line) == ReadAs(c, tail, line)
  {
    assert ([c] + tail)[1..] == tail;
  }

  // One character of s is read back, whatever follows it in s.
  lemma CharReads(c: Byte, s: seq<Byte>, rest: seq<Byte>, line: nat)
    ensures var tail := QuotedBody(s) + [QUOTE] + rest;
      ReadBody(QuotedChar(c, Head(s)) + tail, QUOTE, line) == ReadAs(c, tail, line)
  {
    hide QuotedBody, ReadBody, ReadAs, Decimal;
    var tail := QuotedBody(s) + [QUOTE] + rest;
    BodyHead(s, rest);
    if c == QUOTE || c == BACKSLASH || c == NEWLINE {
      EscapedReads(c, tail, line);
    } else if IsCntrl(c) {
      ControlReads(c, IsDigit(Head(s)), tail, line);
    } else {
      PlainReads(c, tail, line);
    }
  }

  // The literal written for any bytes is read as these bytes, unless it takes the chunk past its limit on lines.
  lemma {:induction false} ReadsBack(s: seq<Byte>, rest: seq<Byte>, line: nat)
    requires line < MAX_INT
    ensures ReadBody(QuotedBody(s) + [QUOTE] + rest, QUOTE, line) ==
      if line + Breaks(s) >= MAX_INT then Error(TOO_MANY_LINES) else Literal(s, rest, line + Breaks(s))
    decreases |s|
  {
    if s == [] {
      assert QuotedBody(s) + [QUOTE] + rest == [QUOTE] + rest;
    } else {
      var q, tail := QuotedChar(s[0], Head(s[1..])), QuotedBody(s[1..]) + [QUOTE] + rest;
      assert QuotedBody(s) + [QUOTE] + rest == q + tail;
      CharReads(s[0], s[1..], rest, line);
      var l := if s[0] == NEWLINE then line + 1 else line;
      if l < MAX_INT { ReadsBack(s[1..], rest, l); }
      assert [s[0]] + s[1..] == s;
    }
  }
}
