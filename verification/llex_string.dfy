// Reading a short string literal, character by character: 'read_string' of llex.c.
module StringLexer {
  import opened Quoted

  // The source's esccheck fails with a message; otherwise there is none.
  datatype Check = Fine | Fails(msg: string)

  class LexState {
    const src: seq<Byte>
    var pos: nat
    var linenumber: nat
    var buff: seq<Byte>

    constructor (input: seq<Byte>, line: nat)
      ensures src == input && pos == 0 && linenumber == line && buff == []
    {
      src, pos, linenumber, buff := input, 0, line, [];
    }

    predicate Valid()
      reads this
    {
      pos <= |src|
    }

    // What is still to be read.
    function Input(): seq<Byte>
      requires Valid()
      reads this
    {
      src[pos..]
    }

    // 'save_and_next'.
    method SaveAndNext()
      requires Valid() && pos < |src|
      modifies `pos, `buff
      ensures Valid() && pos == old(pos) + 1 && buff == old(buff) + [src[old(pos)]]
      ensures Input() == old(Input())[1..]
    {
      buff := buff + [src[pos]];
      pos := pos + 1;
    }

    // 'luaZ_buffremove'.
    method BuffRemove(n: nat)
      requires n <= |buff|
      modifies `buff
      ensures buff == old(buff)[..|old(buff)| - n]
    {
      buff := buff[..|buff| - n];
    }

    // 'inclinenumber'.
    method IncLineNumber() returns (check: Check)
      requires Valid() && pos < |src| && IsNewline(src[pos])
      modifies `pos, `linenumber
      ensures Valid() && Input() == AfterBreak(old(Input())) && linenumber == old(linenumber) + 1
      ensures check == if linenumber >= MAX_INT then Fails(TOO_MANY_LINES) else Fine
    {
      var was := src[pos];
      pos := pos + 1;
      if pos < |src| && IsNewline(src[pos]) && src[pos] != was {
        pos := pos + 1;
      }
      linenumber := linenumber + 1;
      return if linenumber >= MAX_INT then Fails(TOO_MANY_LINES) else Fine;
    }

    // 'readdecesc': up to three digits.
    method ReadDecEsc() returns (check: Check, r: nat)
      requires Valid()
      modifies `pos, `buff
      ensures Valid() && buff == old(buff)
      ensures var n := DecDigits(old(Input()), 3); r == DecNumber(old(Input())[..n]) && Input() == old(Input())[n..]
      ensures check == if r > UCHAR_MAX then Fails(TOO_LARGE) else Fine
    {
      hide DecDigits, DecNumber;
      ghost var input := Input();
      var i := 0;
      r := 0;
      NoDigit(input);
      while i < 3 && pos < |src| && IsDigit(src[pos])
        invariant 0 <= i <= 3 && Valid() && i <= |input| && pos == old(pos) + i && Input() == input[i..]
        invariant (forall j :: 0 <= j < i ==> IsDigit(input[j])) && r == DecNumber(input[..i])
        invariant buff == old(buff) + input[..i] && DecDigits(input, 3) == i + DecDigits(input[i..], 3 - i)
        decreases 3 - i
      {
        NextDigit(input, i, 3);
        r := 10 * r + DecValue(src[pos]);
        SaveAndNext();
        i := i + 1;
      }
      LastDigit(input[i..], 3 - i);
      check := if r > UCHAR_MAX then Fails(TOO_LARGE) else Fine;
      BuffRemove(i);
    }

    // 'gethexa'.
    method GetHexa() returns (check: Check, h: nat)
      requires Valid() && pos < |src|
      modifies `pos, `buff
      ensures Valid() && pos == old(pos) + 1 && buff == old(buff) + [src[old(pos)]]
      ensures if pos < |src| && IsXDigit(src[pos]) then check == Fine && h == HexValue(src[pos]) else check == Fails(HEX_EXPECTED)
    {
      SaveAndNext();
      h := 0;
      if pos >= |src| || !IsXDigit(src[pos]) { return Fails(HEX_EXPECTED), 0; }
      return Fine, HexValue(src[pos]);
    }

    // 'readhexaesc', and the 'next' after it. The current character is the 'x'.
    method ReadHexaEsc() returns (e: Literal)
      requires Valid() && pos < |src| && src[pos] == 'x'
      modifies `pos, `buff
      ensures Valid() && e == Escape(old(Input()), linenumber)
      ensures e.Literal? ==> buff == old(buff) && Input() == e.rest
    {
      ghost var input, p0 := Input(), pos;
      var check, r := GetHexa();
      if check != Fine { return Error(check.msg); }
      var h;
      check, h := GetHexa();
      if check != Fine { return Error(check.msg); }
      BuffRemove(2);
      assert input[3..] == src[p0 + 3..];
      pos := pos + 1;
      return Literal([(16 * r + h) as char], src[pos..], linenumber);
    }

    // The hexadecimal digits of 'readutf8esc' after the first one, which is the current character.
    method ReadHexDigits(first: nat) returns (c: CodePoint, n: nat)
      requires Valid() && pos < |src| && first <= 0x10FFFF
      modifies `pos, `buff
      ensures Valid() && c == HexNumber(old(Input())[1..], first)
      ensures c.Code? ==> Input() == c.rest && |buff| == |old(buff)| + 1 + n && buff[..|old(buff)|] == old(buff)
    {
      n := 0;
      var r: nat := first;
      SaveAndNext();
      while pos < |src| && IsXDigit(src[pos])
        invariant Valid() && r <= 0x10FFFF && HexNumber(old(Input())[1..], first) == HexNumber(Input(), r)
        invariant |buff| == |old(buff)| + 1 + n && buff[..|old(buff)|] == old(buff)
        decreases |src| - pos
      {
        n := n + 1;
        r := 16 * r + HexValue(src[pos]);
        if r > 0x10FFFF { return TooBig, n; }
        SaveAndNext();
      }
      c := Code(r, src[pos..]);
    }

    // 'utf8esc' and 'readutf8esc'. The current character is the 'u', and the backslash is at the end of the buffer.
    method Utf8Esc() returns (e: Literal)
      requires Valid() && pos < |src| && src[pos] == 'u' && |buff| > 0
      modifies `pos, `buff
      ensures Valid() && e == Escape(old(Input()), linenumber)
      ensures e.Literal? ==> buff == old(buff)[..|old(buff)| - 1] + e.bytes && Input() == e.rest
    {
      ghost var input, p0, b := Input(), pos, buff;
      SaveAndNext();
      if pos >= |src| || src[pos] != '{' { return Error(MISSING_OPEN); }
      var check, first := GetHexa();
      if check != Fine { return Error(check.msg); }
      assert Input() == input[2..] && input[2..][1..] == input[3..];
      assert buff[..|b|] == b;
      var c, n := ReadHexDigits(first);
      if c.TooBig? { return Error(UTF8_TOO_LARGE); }
      if pos >= |src| || src[pos] != '}' { return Error(MISSING_CLOSE); }
      assert c.rest[1..] == src[pos + 1..];
      pos := pos + 1;
      BuffRemove(4 + n);
      assert buff == b[..|b| - 1];
      buff := buff + Utf8(c.x);
      return Literal(Utf8(c.x), src[pos..], linenumber);
    }

    // The span of spaces after '\z'.
    method SkipSpaces() returns (check: Check)
      requires Valid()
      modifies `pos, `linenumber
      ensures Valid() && linenumber >= old(linenumber)
      ensures var (rest, l) := SkipSpace(old(Input()), old(linenumber));
        if l > old(linenumber) && l >= MAX_INT then check == Fails(TOO_MANY_LINES) else check == Fine && Input() == rest && linenumber == l
    {
      hide AfterBreak;
      while pos < |src| && IsSpace(src[pos])
        invariant Valid() && linenumber >= old(linenumber)
        invariant SkipSpace(old(Input()), old(linenumber)) == SkipSpace(Input(), linenumber)
        invariant linenumber > old(linenumber) ==> linenumber < MAX_INT
        decreases |src| - pos
      {
        ghost var here := Input();
        if IsNewline(src[pos]) {
          check := IncLineNumber();
          if check != Fine { return; }
        } else {
          pos := pos + 1;
          assert Input() == here[1..];
        }
      }
      return Fine;
    }

    // '\z'. The current character is the 'z'.
    method Zap() returns (e: Literal)
      requires Valid() && pos < |src| && src[pos] == 'z' && |buff| > 0
      modifies `pos, `buff, `linenumber
      ensures Valid() && e == Escape(old(Input()), old(linenumber))
      ensures e.Literal? ==> buff == old(buff)[..|old(buff)| - 1] && Input() == e.rest && linenumber == e.line
    {
      hide SkipSpace, DecDigits, DecNumber, Utf8Escape;
      ghost var input := Input();
      BuffRemove(1);
      pos := pos + 1;
      assert Input() == input[1..];
      var check := SkipSpaces();
      if check != Fine { return Error(check.msg); }
      return Literal([], src[pos..], linenumber);
    }

    // An escape sequence. The current character is the backslash.
    method ReadEscape() returns (e: Literal)
      requires Valid() && pos < |src| && src[pos] == BACKSLASH
      modifies `pos, `buff, `linenumber
      ensures Valid() && e == Escape(old(Input())[1..], old(linenumber))
      ensures e.Literal? ==> Input() == e.rest && linenumber == e.line && (Input() != [] ==> buff == old(buff) + e.bytes)
    {
      ghost var b := buff;
      SaveAndNext();
      ghost var input := Input();
      assert buff[..|buff| - 1] == b;
      if pos == |src| { return Literal([], src[pos..], linenumber); }
      var c := src[pos];
      if c == 'u' {
        e := Utf8Esc();
        return;
      } else if c == 'z' {
        e := Zap();
        return;
      } else if c == 'x' {
        e := ReadHexaEsc();
        if e.Error? { return; }
      } else if IsNewline(c) {
        var check := IncLineNumber();
        if check != Fine { return Error(check.msg); }
        e := Literal([NEWLINE], src[pos..], linenumber);
      } else if c in "abfnrtv" {
        pos := pos + 1;
        assert Input() == input[1..];
        e := Literal([Letter(c)], src[pos..], linenumber);
      } else if c == BACKSLASH || c == QUOTE || c == '\'' {
        pos := pos + 1;
        assert Input() == input[1..];
        e := Literal([c], src[pos..], linenumber);
      } else {
        if !IsDigit(c) { return Error(BAD_ESCAPE); }
        var check, r := ReadDecEsc();
        if check != Fine { return Error(check.msg); }
        e := Literal([r as char], src[pos..], linenumber);
      }
      BuffRemove(1);
      buff := buff + e.bytes;
    }

    // 'read_string', with the delimiter as the current character and an empty buffer.
    method ReadString(del: Byte) returns (r: Literal)
      requires Valid() && pos < |src| && src[pos] == del && buff == []
      modifies `pos, `buff, `linenumber
      ensures Valid() && r == ReadBody(old(Input())[1..], del, old(linenumber))
      ensures r.Literal? ==> Input() == r.rest && linenumber == r.line
    {
      hide Escape;
      ghost var input, line := Input()[1..], linenumber;
      SaveAndNext();
      ghost var bytes: seq<Byte> := [];
      PrependNothing(ReadBody(Input(), del, linenumber));
      while pos < |src| && src[pos] != del
        invariant Valid() && ReadBody(input, del, line) == Prepend(bytes, ReadBody(Input(), del, linenumber))
        invariant pos < |src| ==> buff == [del] + bytes
        decreases |src| - pos
      {
        ghost var here, l := Input(), linenumber;
        if IsNewline(src[pos]) { return Error(UNFINISHED); }
        if src[pos] == BACKSLASH {
          var e := ReadEscape();
          if e.Error? { return e; }
          PrependTwice(bytes, e.bytes, ReadBody(Input(), del, linenumber));
          bytes := bytes + e.bytes;
        } else {
          PrependTwice(bytes, [src[pos]], ReadBody(here[1..], del, l));
          bytes := bytes + [src[pos]];
          SaveAndNext();
        }
      }
      if pos == |src| { return Error(UNFINISHED); }
      SaveAndNext();
      assert buff == [del] + bytes + [del];
      return Literal(buff[1..|buff| - 1], src[pos..], linenumber);
    }
  }

  lemma NoDigit(input: seq<Byte>)
    ensures DecNumber(input[..0]) == 0 && input[0..] == input
  {
  }

  lemma NextDigit(input: seq<Byte>, i: nat, most: nat)
    requires i < |input| && i < most && IsDigit(input[i]) && forall j :: 0 <= j < i ==> IsDigit(input[j])
    ensures DecNumber(input[..i + 1]) == 10 * DecNumber(input[..i]) + DecValue(input[i]) && input[i..][1..] == input[i + 1..]
    ensures DecDigits(input[i..], most - i) == 1 + DecDigits(input[i + 1..], most - (i + 1)) && input[..i + 1] == input[..i] + [input[i]]
  {
    NumberStep(input[..i], input[i]);
    assert input[..i + 1] == input[..i] + [input[i]];
    assert input[i..][1..] == input[i + 1..];
  }

  lemma LastDigit(input: seq<Byte>, most: nat)
    requires most == 0 || input == [] || !IsDigit(input[0])
    ensures DecDigits(input, most) == 0
  {
  }

  lemma PrependNothing(r: Literal)
    ensures Prepend([], r) == r
  {
  }

  lemma PrependTwice(a: seq<Byte>, b: seq<Byte>, r: Literal)
    ensures Prepend(a, Prepend(b, r)) == Prepend(a + b, r)
  {
    if r.Literal? { assert a + (b + r.bytes) == a + b + r.bytes; }
  }

  // The literal that 'addquoted' writes, read by 'read_string', gives the same bytes.
  method WriteAndRead(s: seq<Byte>, line: nat) returns (r: Literal)
    requires line < MAX_INT
    ensures r == if line + Breaks(s) >= MAX_INT then Error(TOO_MANY_LINES) else Literal(s, [], line + Breaks(s))
  {
    var text := AddQuoted(s);
    var ls := new LexState(text, line);
    assert text[0..][1..] == QuotedBody(s) + [QUOTE] + [];
    ReadsBack(s, [], line);
    r := ls.ReadString(QUOTE);
  }
}
