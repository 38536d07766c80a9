// The text of a string literal: which escape stands for which byte, and which one '%q' writes.
module LiteralLaws {
  import opened Quoted

  const DIGITS := "0123456789"
  const LOWER := "0123456789abcdef"
  const UPPER := "0123456789ABCDEF"
  const LETTERS := "abfnrtv"
  const CODES := [7, 8, 12, 10, 13, 9, 11]

  // ---- writing ----

  predicate Digital(c: Byte) { 48 <= c as int <= 57 }

  // A decimal numeral, of three digits or as short as possible.
  function Numeral(n: nat, wide: bool): seq<Byte>
    requires n < 256
  {
    if wide || n >= 100 then [DIGITS[n / 100], DIGITS[n / 10 % 10], DIGITS[n % 10]]
    else if n >= 10 then [DIGITS[n / 10], DIGITS[n % 10]]
    else [DIGITS[n]]
  }

  // A quote, a backslash and a newline have a backslash before them; other control characters become decimal
  // escapes, of three digits if a digit follows; all else stays as it is.
  lemma Written(c: Byte, next: Byte)
    ensures c as int in {34, 92, 10} ==> QuotedChar(c, next) == ['\\', c]
    ensures (c as int < 32 || c as int == 127) && c as int != 10 ==> QuotedChar(c, next) == ['\\'] + Numeral(c as int, Digital(next))
    ensures var n := c as int; n >= 32 && n !in {34, 92, 127} ==> QuotedChar(c, next) == [c]
  {
    hide Digit;
    DigitIs(c as int / 100 % 10);
    DigitIs(c as int / 10 % 10);
    DigitIs(c as int % 10);
  }

  lemma DigitIs(n: nat)
    requires n < 10
    ensures Digit(n) == DIGITS[n]
  {
  }

  // ---- reading ----

  // The text, closed by a quote, is read as these bytes.
  ghost predicate Reads(text: seq<Byte>, bytes: seq<Byte>, lines: nat) {
    forall line: nat :: line + lines < MAX_INT ==> ReadBody(text + ['"'], '"', line) == Literal(bytes, [], line + lines)
  }

  ghost predicate Refuses(text: seq<Byte>, msg: string) {
    forall line: nat :: ReadBody(text + ['"'], '"', line) == Error(msg)
  }

  // One escape that is all of the text.
  lemma OneEscape(body: seq<Byte>, bytes: seq<Byte>, lines: nat)
    requires forall line: nat :: line + lines < MAX_INT ==> Escape(body + ['"'], line) == Literal(bytes, ['"'], line + lines)
    ensures Reads(['\\'] + body, bytes, lines)
  {
    var text := ['\\'] + body + ['"'];
    assert text[1..] == body + ['"'];
    forall line: nat | line + lines < MAX_INT ensures ReadBody(['\\'] + body + ['"'], '"', line) == Literal(bytes, [], line + lines) {
      assert ReadBody(['"'], '"', line + lines) == Literal([], [], line + lines);
    }
  }

  lemma OneFault(body: seq<Byte>, msg: string)
    requires forall line: nat :: Escape(body + ['"'], line) == Error(msg)
    ensures Refuses(['\\'] + body, msg)
  {
    var text := ['\\'] + body + ['"'];
    assert text[1..] == body + ['"'];
  }

  // '\a' to '\v' are the bytes 7, 8, 12, 10, 13, 9 and 11.
  lemma LetterEscapes(i: nat)
    requires i < 7
    ensures Reads(['\\', LETTERS[i]], [CODES[i] as char], 0)
  {
    hide ReadBody;
    var input: seq<Byte> := [LETTERS[i]] + ['"'];
    assert input[1..] == ['"'];
    OneEscape([LETTERS[i]], [CODES[i] as char], 0);
    assert ['\\'] + [LETTERS[i]] == ['\\', LETTERS[i]];
  }

  // A backslash before a backslash or a quote of either kind.
  lemma SelfEscapes(c: Byte)
    requires c in "\\\"'"
    ensures Reads(['\\', c], [c], 0)
  {
    hide ReadBody;
    var input: seq<Byte> := [c] + ['"'];
    assert input[1..] == ['"'];
    OneEscape([c], [c], 0);
    assert ['\\'] + [c] == ['\\', c];
  }

  lemma HexDigits(c: Byte, n: nat)
    requires n < 16 && (c == LOWER[n] || c == UPPER[n])
    ensures IsXDigit(c) && HexValue(c) == n
  {
  }

  // '\xXX', with digits of either case.
  lemma HexEscapes(c: Byte, i: nat, d: Byte, j: nat)
    requires i < 16 && (c == LOWER[i] || c == UPPER[i]) && j < 16 && (d == LOWER[j] || d == UPPER[j])
    ensures Reads(['\\', 'x', c, d], [(16 * i + j) as char], 0)
  {
    hide ReadBody, HexValue, IsXDigit;
    HexDigits(c, i);
    HexDigits(d, j);
    var body: seq<Byte> := ['x', c, d];
    assert (body + ['"'])[3..] == ['"'];
    OneEscape(body, [(16 * i + j) as char], 0);
    assert ['\\'] + body == ['\\', 'x', c, d];
  }

  // '\ddd'
  lemma DecimalEscapes(i: nat, j: nat, k: nat)
    requires i < 10 && j < 10 && k < 10
    ensures 100 * i + 10 * j + k <= 255 ==> Reads(['\\', DIGITS[i], DIGITS[j], DIGITS[k]], [(100 * i + 10 * j + k) as char], 0)
    ensures 100 * i + 10 * j + k > 255 ==> Refuses(['\\', DIGITS[i], DIGITS[j], DIGITS[k]], "decimal escape too large")
  {
    hide ReadBody, DecNumber, Digit, DecDigits;
    DigitIs(i);
    DigitIs(j);
    DigitIs(k);
    ThreeDigits(i, j, k);
    var body: seq<Byte> := [DIGITS[i], DIGITS[j], DIGITS[k]];
    DigitsCounted(body, ['"'], 3);
    assert (body + ['"'])[3..] == ['"'] && (body + ['"'])[..3] == body;
    assert ['\\'] + body == ['\\', DIGITS[i], DIGITS[j], DIGITS[k]];
    assert DIGITS[i] !in "abfnrtvxuz\\\"'" && !IsNewline(DIGITS[i]);
    if 100 * i + 10 * j + k <= 255 {
      OneEscape(body, [(100 * i + 10 * j + k) as char], 0);
    } else {
      OneFault(body, "decimal escape too large");
    }
  }

  // A backslash before a line break of one or two characters is one newline; '\z' skips white space.
  lemma BreakEscapes()
    ensures Reads(['\\', '\n'], ['\n'], 1) && Reads(['\\', '\r'], ['\n'], 1)
    ensures Reads(['\\', '\r', '\n'], ['\n'], 1) && Reads(['\\', '\n', '\r'], ['\n'], 1)
    ensures Reads(['\\', 'z', ' ', '\n', '\t'], [], 1)
  {
    hide ReadBody;
    AfterOne('\n');
    AfterOne('\r');
    OneEscape(['\n'], ['\n'], 1);
    OneEscape(['\r'], ['\n'], 1);
    AfterTwo('\r', '\n');
    AfterTwo('\n', '\r');
    OneEscape(['\r', '\n'], ['\n'], 1);
    OneEscape(['\n', '\r'], ['\n'], 1);
    assert ['\\'] + ['\n'] == ['\\', '\n'] && ['\\'] + ['\r'] == ['\\', '\r'];
    assert ['\\'] + ['\r', '\n'] == ['\\', '\r', '\n'] && ['\\'] + ['\n', '\r'] == ['\\', '\n', '\r'];
    Skips();
    OneEscape(['z', ' ', '\n', '\t'], [], 1);
    assert ['\\'] + ['z', ' ', '\n', '\t'] == ['\\', 'z', ' ', '\n', '\t'];
  }

  lemma AfterOne(c: Byte)
    requires c == '\n' || c == '\r'
    ensures AfterBreak([c] + ['"']) == ['"']
  {
  }

  lemma AfterTwo(c: Byte, d: Byte)
    requires (c == '\n' && d == '\r') || (c == '\r' && d == '\n')
    ensures AfterBreak([c, d] + ['"']) == ['"']
  {
  }

  lemma Skips()
    ensures forall line: nat :: SkipSpace((['z', ' ', '\n', '\t'] + ['"'])[1..], line) == (['"'], line + 1)
  {
    forall line: nat ensures SkipSpace((['z', ' ', '\n', '\t'] + ['"'])[1..], line) == (['"'], line + 1) {
      var s3: seq<Byte> := ['"'];
      var s2: seq<Byte> := ['\t', '"'];
      var s1: seq<Byte> := ['\n', '\t', '"'];
      var s0: seq<Byte> := [' ', '\n', '\t', '"'];
      assert (['z', ' ', '\n', '\t'] + ['"'])[1..] == s0 && s0[1..] == s1 && s1[1..] == s2 && s2[1..] == s3;
      assert SkipSpace(s3, line + 1) == (s3, line + 1);
      assert SkipSpace(s2, line + 1) == (s3, line + 1);
      assert SkipSpace(s1, line) == (s3, line + 1);
    }
  }

  // No other character may follow a backslash; a literal ends on its line.
  lemma Faults(c: Byte)
    requires c !in "abfnrtvxuz\\\"'" && !Digital(c) && c != '\n' && c != '\r'
    ensures Refuses(['\\', c], "invalid escape sequence")
    ensures Refuses(['\n'], "unfinished string")
  {
    OneFault([c], "invalid escape sequence");
    assert ['\\'] + [c] == ['\\', c];
  }

  // ---- UTF-8 ----

  predicate Continues(b: Byte) { 0x80 <= b as int < 0xC0 }

  // The code point that a sequence of one to four bytes stands for.
  function Decoded(b: seq<Byte>): int
    requires 1 <= |b| <= 4
  {
    match |b|
    case 1 => b[0] as int
    case 2 => (b[0] as int - 0xC0) * 64 + (b[1] as int - 0x80)
    case 3 => (b[0] as int - 0xE0) * 4096 + (b[1] as int - 0x80) * 64 + (b[2] as int - 0x80)
    case _ => (b[0] as int - 0xF0) * 262144 + (b[1] as int - 0x80) * 4096 + (b[2] as int - 0x80) * 64 + (b[3] as int - 0x80)
  }

  // A code point is written as the shortest sequence that decodes to it.
  lemma Utf8Decodes(x: nat)
    requires x <= 0x10FFFF
    ensures |Utf8(x)| == (if x < 0x80 then 1 else if x < 0x800 then 2 else if x < 0x10000 then 3 else 4)
    ensures Decoded(Utf8(x)) == x && forall i :: 0 < i < |Utf8(x)| ==> Continues(Utf8(x)[i])
  {
    var y, z := x / 64, x / 4096;
    Sextets(x);
    assert x == 64 * y + x % 64 && y == 64 * z + y % 64 && z == 64 * (x / 262144) + z % 64;
  }

  lemma Sextets(x: nat)
    ensures x / 4096 == x / 64 / 64 && x / 262144 == x / 4096 / 64
  {
  }

  // '\u{X}' and '\u{XX}' are the bytes of the code point.
  lemma CodePoints(c: Byte, i: nat, d: Byte, j: nat)
    requires i < 16 && (c == LOWER[i] || c == UPPER[i]) && j < 16 && (d == LOWER[j] || d == UPPER[j])
    ensures Reads(['\\', 'u', '{', c, '}'], Utf8(i), 0)
    ensures Reads(['\\', 'u', '{', c, d, '}'], Utf8(16 * i + j), 0)
  {
    hide ReadBody, HexValue, IsXDigit, Utf8;
    HexDigits(c, i);
    HexDigits(d, j);
    var one: seq<Byte> := ['u', '{', c, '}'];
    var two: seq<Byte> := ['u', '{', c, d, '}'];
    var end: seq<Byte> := ['}', '"'];
    NoHex();
    assert (one + ['"'])[3..] == end && end[1..] == ['"'];
    assert (two + ['"'])[3..] == [d] + end && ([d] + end)[1..] == end;
    assert HexNumber(end, i) == Code(i, end) && HexNumber(end, 16 * i + j) == Code(16 * i + j, end);
    assert HexNumber([d] + end, i) == Code(16 * i + j, end);
    OneEscape(one, Utf8(i), 0);
    OneEscape(two, Utf8(16 * i + j), 0);
    assert ['\\'] + one == ['\\', 'u', '{', c, '}'] && ['\\'] + two == ['\\', 'u', '{', c, d, '}'];
  }

  lemma NoHex()
    ensures !IsXDigit('}')
  {
  }
}
