/** A printed setting tree is read back: the scanner finds the tokens of the tree in its text. */
module ConfigRoundTrip {
  import opened Options
  import opened ConfigTree
  import opened ConfigScanner
  import opened ConfigParser
  import opened ConfigTokens

  /** What follows a value in a printed text. */
  predicate Delimiter(c: char) {
    c == ',' || c == ' ' || c == ';'
  }

  // ----- Joining results

  lemma JoinTokens(a: seq<Token>, b: seq<Token>, r: Scanned)
    ensures AllBefore(a, AllBefore(b, r)) == AllBefore(a + b, r)
    ensures AllBefore([], r) == r
    ensures forall t: Token {:trigger Before(t, AllBefore(b, r))} :: Before(t, AllBefore(b, r)) == AllBefore([t] + b, r)
    ensures forall t: Token {:trigger Before(t, r)} :: Before(t, r) == AllBefore([t], r) && AllBefore(a, Before(t, r)) == AllBefore(a + [t], r)
  {
    if r.Scanned? {
      assert a + b + r.ts == a + (b + r.ts);
      forall t: Token ensures [t] + (b + r.ts) == [t] + b + r.ts && a + ([t] + r.ts) == a + [t] + r.ts {}
    }
  }

  // ----- Blanks, marks and words

  lemma {:induction false} ScanBlanks(a: string, b: string)
    requires forall k {:trigger a[k]} :: 0 <= k < |a| ==> IsBlank(a[k])
    ensures Scan(a + b) == Scan(b)
  {
    hide Scan;
    if a == "" {
      assert a + b == b;
    } else {
      ScanNext(a + b);
      assert (a + b)[1..] == a[1..] + b;
      ScanBlanks(a[1..], b);
    }
  }

  predicate IsMark(c: char) {
    c == '=' || c == ':' || c == ',' || c == ';' || c == '[' || c == ']' || c == '(' || c == ')' || c == '{' || c == '}' || c == '?'
  }

  lemma ScanMark(c: char, b: string)
    requires IsMark(c)
    ensures Scan([c] + b) == Before(Punctuation(c), Scan(b))
  {
    hide Scan;
    ScanNext([c] + b);
    assert ([c] + b)[1..] == b;
  }

  lemma ScanWord(name: string, b: string)
    requires ValidName(name) && b != "" && Delimiter(b[0])
    ensures Scan(name + b) == Before(WordToken(name), Scan(b))
  {
    hide Scan, WordToken;
    ScanNext(name + b);
    SpanExact(name, b, IsNameChar);
    assert (name + b)[..|name|] == name && (name + b)[|name|..] == b;
  }

  // ----- Numbers

  lemma LexDecimal(i: int, b: string)
    requires b != "" && (Delimiter(b[0]) || b[0] == 'L')
    ensures Decimal(i) != "" && (IsDigit(Decimal(i)[0]) || IsSign(Decimal(i)[0]))
    ensures LexNumber(Decimal(i) + b) == Decimally(i, |Decimal(i)|, Suffix(b, 0))
  {
    hide LexNumber, Digits, Spelled, Suffix, Decimally;
    var n := if i < 0 then -i else i;
    var sign := if i < 0 then 1 else 0;
    DigitsSpell(n, 10);
    var s := Decimal(i) + b;
    assert s[sign..] == Digits(n, 10) + b;
    assert s[0] == if i < 0 then '-' else Digits(n, 10)[0];
    LexDigits(s, sign, Digits(n, 10), b);
  }

  lemma LexDigits(s: string, sign: nat, digits: string, b: string)
    requires sign <= 1 && digits != "" && (forall k {:trigger digits[k]} :: 0 <= k < |digits| ==> IsDigit(digits[k]))
    requires b != "" && (Delimiter(b[0]) || b[0] == 'L')
    requires s != "" && s[sign..] == digits + b && s[0] == if sign == 1 then '-' else digits[0]
    ensures LexNumber(s) == Decimally(if sign == 1 then 0 - Spelled(digits, 10) else Spelled(digits, 10), sign + |digits|, Suffix(b, 0))
  {
    hide LexNumber, LexInteger, Spelled, Suffix, Decimally, Span, ExponentAt, HexAt, IsSign;
    var end := sign + |digits|;
    SpanExact(digits, b, IsDigit);
    NotHex(s, sign, digits, b);
    LexNumberIs(s, sign, |digits|);
    assert s[sign..][..|digits|] == digits;
    assert s[end..] == s[sign..][|digits|..] == b;
    NoExponent(s, end, b);
    LexIntegerIs(s, sign, |digits|);
  }

  lemma NotHex(s: string, sign: nat, digits: string, b: string)
    requires sign <= 1 && digits != "" && (forall k {:trigger digits[k]} :: 0 <= k < |digits| ==> IsDigit(digits[k]))
    requires b != "" && (Delimiter(b[0]) || b[0] == 'L')
    requires s != "" && s[sign..] == digits + b && s[0] == if sign == 1 then '-' else digits[0]
    ensures !HexAt(s) && IsSign(s[0]) == (sign == 1) && (sign == 0 ==> IsDigit(s[0]))
  {
    if sign == 0 {
      assert s == digits + b;
      assert s[1] == if |digits| > 1 then digits[1] else b[0];
    }
  }

  lemma LexNumberIs(s: string, sign: nat, d: nat)
    requires s != "" && (IsDigit(s[0]) || IsSign(s[0])) && sign == (if IsSign(s[0]) then 1 else 0) && d == Span(s[sign..], IsDigit) && d > 0 && !HexAt(s)
    ensures LexNumber(s) == LexInteger(s, sign, d)
  {
    hide LexInteger, LexHex, HexAt, Span;
  }

  lemma LexIntegerIs(s: string, sign: nat, d: nat)
    requires 0 < d && sign + d < |s| && (forall k {:trigger s[sign..][k]} :: 0 <= k < d ==> IsDigit(s[sign..][k])) && s[sign + d] != '.' && !ExponentAt(s, sign + d)
    ensures var value := Spelled(s[sign..][..d], 10);
      LexInteger(s, sign, d) == Decimally(if s[0] == '-' then 0 - value else value, sign + d, Suffix(s, sign + d))
  {
    hide Spelled, Suffix, Decimally, ExponentAt;
  }

  /** Nothing of a number but its letters L goes beyond its digits. */
  lemma NoExponent(s: string, end: nat, b: string)
    requires end <= |s| && s[end..] == b && b != "" && (Delimiter(b[0]) || b[0] == 'L')
    ensures end < |s| && s[end] != '.' && !ExponentAt(s, end) && Suffix(s, end) == Suffix(b, 0)
  {
    assert s[end] == b[0] && (|b| > 1 ==> s[end + 1] == b[1]);
  }

  lemma ToSignedBack(i: int, half: int)
    requires (half == TWO31 || half == TWO63) && -half <= i < half
    ensures ToSigned(Clamp(Unsigned(i, half)), half) == i
  {
    var n := Unsigned(i, half);
    if half == TWO31 {
      assert n % (2 * TWO31) == n;
    } else {
      assert n % (2 * TWO63) == n;
    }
  }

  /** The number with the same remainder modulo 2 half between -half and half. */
  lemma ToSignedIs(n: nat, half: nat)
    requires half > 0
    ensures InRange(ToSigned(n, half), half) && exists q {:trigger Times(q, 2 * half)} :: n == ToSigned(n, half) + Times(q, 2 * half)
  {
    var q := n / (2 * half);
    assert n == Times(q, 2 * half) + n % (2 * half);
    if n % (2 * half) >= half {
      assert Times(q + 1, 2 * half) == Times(q, 2 * half) + 2 * half;
      assert n == ToSigned(n, half) + Times(q + 1, 2 * half);
    } else {
      assert n == ToSigned(n, half) + Times(q, 2 * half);
    }
  }

  function Times(a: int, b: int): int {
    a * b
  }

  /**
    Any hexadecimal number: more than 64 bits are as many as there are, and the value is reduced to the signed range of
    the type, which letters L behind it choose.
   */
  lemma LexHexDigits(digits: string, b: string)
    requires digits != "" && (forall k {:trigger digits[k]} :: 0 <= k < |digits| ==> IsHexDigit(digits[k]))
    requires b != "" && (Delimiter(b[0]) || b[0] == 'L')
    ensures var x, half, text := Suffix(b, 0), if Suffix(b, 0) == 0 then TWO31 else TWO63, "0x" + digits;
      var v := Spelled(digits, 16);
      var i := ToSigned(if v >= 2 * TWO63 then 2 * TWO63 - 1 else v, half);
      LexNumber(text + b) == Lexeme(if x == 0 then HexTok(i) else Hex64Tok(i), |text| + x)
  {
    hide Digits, Spelled, Suffix, LexNumber, LexHex, LexInteger, Span, ExponentAt, ToSigned, Unsigned;
    var s := "0x" + digits + b;
    assert s[2..] == digits + b && s[2] == digits[0];
    ZeroSpan(s);
    SpanExact(digits, b, IsHexDigit);
    assert s[2..][..|digits|] == digits;
    assert s[2 + |digits|..] == b;
    NoExponent(s, 2 + |digits|, b);
    LexHexIs(s, |digits|);
  }

  lemma LexHexText(i: int, half: int, b: string)
    requires (half == TWO31 || half == TWO63) && InRange(i, half) && b != "" && (Delimiter(b[0]) || b[0] == 'L')
    ensures var x, text := Suffix(b, 0), "0x" + Digits(Unsigned(i, half), 16);
      (half == TWO31 <==> x == 0) ==>
      LexNumber(text + b) == Lexeme(if x == 0 then HexTok(i) else Hex64Tok(i), |text| + x)
  {
    hide Digits, Spelled, Suffix, LexNumber, Span, ToSigned;
    var u := Unsigned(i, half);
    DigitsSpell(u, 16);
    ToSignedBack(i, half);
    LexHexDigits(Digits(u, 16), b);
  }

  lemma LexHexIs(s: string, h: nat)
    requires HexAt(s) && s[0] == '0' && Span(s[0..], IsDigit) == 1 && Span(s[2..], IsHexDigit) == h
    ensures LexNumber(s) == Hexadecimally(Clamp(Spelled(s[2..][..h], 16)), 2 + h, Suffix(s, 2 + h))
  {
    hide Spelled, Clamp, Suffix, Span, Hexadecimally, LexInteger;
  }

  /** The leading zero of a hexadecimal number is a run of one digit. */
  lemma ZeroSpan(s: string)
    requires |s| > 2 && s[0] == '0' && s[1] == 'x'
    ensures Span(s[0..], IsDigit) == 1
  {
    assert s[0..] == ['0'] + s[1..];
    SpanExact(['0'], s[1..], IsDigit);
  }

  /** A number with the letters x behind it, at the start of a text. */
  lemma ScanNumber(text: string, x: string, b: string, t: Token)
    requires text != "" && (IsDigit(text[0]) || IsSign(text[0])) && LexNumber(text + (x + b)) == Lexeme(t, |text| + |x|)
    ensures Scan(text + x + b) == Before(t, Scan(b))
  {
    hide Scan, Lex, LexNumber, IsDigit, IsSign;
    var s := text + (x + b);
    assert text + x + b == s;
    assert s[0] == text[0];
    assert s[|text| + |x|..] == b;
    LexIsNumber(s);
    ScanNext(s);
  }

  lemma LexIsNumber(s: string)
    requires s != "" && (IsDigit(s[0]) || IsSign(s[0]))
    ensures Lex(s) == LexNumber(s)
  {
    hide LexNumber;
  }

  /** The letter L behind a 64-bit number, and none behind a 32-bit one. */
  function Letter(half: int): string {
    if half == TWO63 then "L" else ""
  }

  lemma LetterSuffix(half: int, b: string)
    requires b != "" && Delimiter(b[0])
    ensures Letter(half) + b != "" && Suffix(Letter(half) + b, 0) == |Letter(half)| && (Delimiter((Letter(half) + b)[0]) || (Letter(half) + b)[0] == 'L')
  {
    if half == TWO63 {
      assert ("L" + b)[1] == b[0];
    } else {
      assert "" + b == b;
    }
  }

  lemma ScanDecimal(i: int, half: int, b: string)
    requires (half == TWO31 || half == TWO63) && InRange(i, half) && b != "" && Delimiter(b[0])
    ensures Scan(Decimal(i) + Letter(half) + b) == Before(if half == TWO31 then IntTok(i) else Int64Tok(i), Scan(b))
  {
    hide Scan, LexNumber, Decimal, Suffix, Delimiter;
    LetterSuffix(half, b);
    LexDecimal(i, Letter(half) + b);
    ScanNumber(Decimal(i), Letter(half), b, if half == TWO31 then IntTok(i) else Int64Tok(i));
  }

  lemma ScanHex(i: int, half: int, b: string)
    requires (half == TWO31 || half == TWO63) && InRange(i, half) && b != "" && Delimiter(b[0])
    ensures Scan("0x" + Digits(Unsigned(i, half), 16) + Letter(half) + b) == Before(if half == TWO31 then HexTok(i) else Hex64Tok(i), Scan(b))
  {
    hide Scan, LexNumber, Digits, Suffix, Delimiter;
    LetterSuffix(half, b);
    LexHexText(i, half, Letter(half) + b);
    ScanNumber("0x" + Digits(Unsigned(i, half), 16), Letter(half), b, if half == TWO31 then HexTok(i) else Hex64Tok(i));
  }

  // ----- Strings

  lemma QuotedChar(c: char, b: string)
    requires 0 < c as int < 256
    ensures Quoted(EscapeChar(c) + b) == More([c], |EscapeChar(c)|, Quoted(b))
  {
    var e := EscapeChar(c);
    var s := e + b;
    assert s[|e|..] == b;
    if c < ' ' && c != '\n' && c != '\r' && c != '\t' && c as int != 12 {
      assert s[0] == '\\' && s[1] == 'x' && s[2] == DigitChar(c as int / 16) && s[3] == DigitChar(c as int % 16);
      assert HexChar(s[2], s[3]) == [c];
    }
  }

  lemma {:induction false} QuotedText(s: string, b: string)
    requires CString(s)
    ensures Quoted(Escape(s) + "\"" + b) == Closed(s, |Escape(s)| + 1)
  {
    hide EscapeChar;
    if s == "" {
      assert Escape(s) + "\"" + b == "\"" + b;
    } else {
      var tail := Escape(s[1..]) + "\"" + b;
      assert Escape(s) + "\"" + b == EscapeChar(s[0]) + tail;
      QuotedText(s[1..], b);
      QuotedChar(s[0], tail);
      assert [s[0]] + s[1..] == s;
    }
  }

  lemma ScanString(s: string, b: string)
    requires CString(s)
    ensures Scan("\"" + Escape(s) + "\"" + b) == Before(StringTok(s), Scan(b))
  {
    hide Scan, Quoted, Escape;
    var text := "\"" + Escape(s) + "\"" + b;
    QuotedText(s, b);
    assert text[1..] == Escape(s) + "\"" + b;
    ScanNext(text);
    assert text[|Escape(s)| + 2..] == b;
  }

  // ----- The tokens of a printed tree

  lemma IndentBlank(depth: nat, st: Style)
    ensures depth > 1 ==> forall k {:trigger Indent(depth, st.width)[k]} :: 0 <= k < |Indent(depth, st.width)| ==> IsBlank(Indent(depth, st.width)[k])
  {
  }

  lemma ScanIndent(depth: nat, st: Style, b: string)
    ensures Scan((if depth > 1 then Indent(depth, st.width) else "") + b) == Scan(b)
  {
    hide Scan, Indent;
    IndentBlank(depth, st);
    ScanBlanks(if depth > 1 then Indent(depth, st.width) else "", b);
  }

  lemma ScanOpening(depth: nat, st: Style, b: string)
    requires depth > 0
    ensures Scan(Opening(depth, st) + b) == Before(GroupStart, Scan(b))
  {
    hide Scan, Indent;
    var indent := if depth > 1 then Indent(depth, st.width) else "";
    assert Opening(depth, st) + b == "\n" + (indent + (['{'] + ("\n" + b)));
    ScanBlanks("\n", indent + (['{'] + ("\n" + b)));
    ScanIndent(depth, st, ['{'] + ("\n" + b));
    ScanMark('{', "\n" + b);
    ScanBlanks("\n", b);
  }

  lemma ScanClosing(depth: nat, st: Style, b: string)
    requires depth > 0
    ensures Scan(Closing(depth, st) + b) == Before(GroupEnd, Scan(b))
  {
    hide Scan, Indent;
    var indent := if depth > 1 then Indent(depth, st.width) else "";
    assert Closing(depth, st) + b == indent + (['}'] + b);
    ScanIndent(depth, st, ['}'] + b);
    ScanMark('}', b);
  }

  lemma ScanHeading(m: Member, depth: nat, st: Style, b: string)
    requires MayName(m.name)
    ensures Scan(Heading(m, depth, st) + b) == AllBefore(HeadTokens(m), Scan(b))
  {
    hide Scan, Indent, ValidName, WordToken, AllBefore, Before;
    assert Heading(m, depth, st) + b == (if depth > 1 then Indent(depth, st.width) else "") + (Label(m) + b);
    ScanIndent(depth, st, Label(m) + b);
    if m.name.Some? {
      ScanLabel(m, b);
    } else {
      assert Label(m) + b == b;
      JoinTokens([], [], Scan(b));
    }
  }

  lemma ScanLabel(m: Member, b: string)
    requires m.name.Some? && ValidName(m.name.value)
    ensures Scan(Label(m) + b) == AllBefore([WordToken(m.name.value), Equals], Scan(b))
  {
    hide Scan, ValidName, WordToken, AllBefore, Before;
    var name, c := m.name.value, if m.value.Group? then ':' else '=';
    var tail := " " + ([c] + (" " + b));
    assert Label(m) + b == name + tail;
    ScanWord(name, tail);
    ScanBlanks(" ", [c] + (" " + b));
    ScanMark(c, " " + b);
    ScanBlanks(" ", b);
    JoinOne(WordToken(name), [Equals], Scan(b));
    JoinOne(Equals, [], Scan(b));
    assert [WordToken(name)] + [Equals] == [WordToken(name), Equals];
  }

  /** The separator after an element. */
  lemma ScanSeparator(more: bool, b: string)
    ensures Scan((if more then ", " else " ") + b) == AllBefore(if more then [Comma] else [], Scan(b))
  {
    hide Scan;
    JoinTokens([], [], Scan(b));
    ScanBlanks(" ", b);
    if more {
      assert ", " + b == [','] + (" " + b);
      ScanMark(',', " " + b);
    }
  }

  lemma JoinOne(t: Token, ts: seq<Token>, r: Scanned)
    ensures Before(t, AllBefore(ts, r)) == AllBefore([t] + ts, r) && Before(t, r) == AllBefore([t], r)
  {
    if r.Scanned? {
      assert [t] + (ts + r.ts) == [t] + ts + r.ts;
    }
  }

  lemma ScanUnset(b: string)
    ensures Scan("???" + b) == AllBefore([Garbage, Garbage, Garbage], Scan(b))
  {
    hide Scan, AllBefore, Before;
    var one := ['?'] + b;
    var two := ['?'] + one;
    assert "???" + b == ['?'] + two;
    ScanMark('?', two);
    ScanMark('?', one);
    ScanMark('?', b);
    JoinOne(Garbage, [Garbage, Garbage], Scan(b));
    JoinOne(Garbage, [Garbage], Scan(b));
    assert [Garbage] + [Garbage] == [Garbage, Garbage] && [Garbage] + [Garbage, Garbage] == [Garbage, Garbage, Garbage];
  }

  lemma ScanBool(w: bool, b: string)
    requires b != "" && Delimiter(b[0])
    ensures Scan((if w then "true" else "false") + b) == Before(BoolTok(w), Scan(b))
  {
    hide Scan;
    ScanWord(if w then "true" else "false", b);
  }

  lemma ScanScalar(v: Value, depth: nat, st: Style, b: string)
    requires WellFormed(v) && !v.Array? && !v.List? && !v.Group? && b != "" && Delimiter(b[0])
    ensures Scan(Show(v, depth, st) + b) == AllBefore(Tokens(v, st.default), Scan(b))
  {
    hide Scan, Decimal, Digits, Unsigned, Escape, AllBefore, Before, CString;
    JoinTokens([], [], Scan(b));
    match v
    case Unset => ScanUnset(b);
    case Bool(w) => ScanBool(w, b);
    case Int(i, f) =>
      if Effective(f, st.default) == Hex {
        NoLetter("0x" + Digits(Unsigned(i, TWO31), 16));
        ScanHex(i, TWO31, b);
      } else {
        NoLetter(Decimal(i));
        ScanDecimal(i, TWO31, b);
      }
    case Int64(i, f) =>
      if Effective(f, st.default) == Hex { ScanHex(i, TWO63, b); } else { ScanDecimal(i, TWO63, b); }
    case Str(s) =>
      EmptyText();
      ScanString(if s.Some? then s.value else "", b);
  }

  lemma NoLetter(text: string)
    ensures text + Letter(TWO31) == text
  {
  }

  lemma EmptyText()
    ensures Escape("") == "" && CString("") && "\"" + "" + "\"" == "\"\""
  {
  }

  lemma {:induction false} ScanShow(v: Value, depth: nat, st: Style, b: string)
    requires WellFormed(v) && b != "" && Delimiter(b[0]) && depth > 0
    ensures Scan(Show(v, depth, st) + b) == AllBefore(Tokens(v, st.default), Scan(b))
    decreases v, 1, 0
  {
    hide Scan, WellFormed, Show, ShowElems, ShowMembers, Tokens, ElemTokens, MemberTokens, Opening, Closing;
    ShowIs(v, depth, st);
    TokensAre(v, st.default);
    match v
    case Array(_) =>
      ScanElems(v, 0, depth, st, "]" + b);
      ScanBracketed('[', ArrayStart, ShowElems(v, 0, depth, st), ElemTokens(v, 0, st.default), ']', ArrayEnd, b);
    case List(_) =>
      ScanElems(v, 0, depth, st, ")" + b);
      ScanBracketed('(', ListStart, ShowElems(v, 0, depth, st), ElemTokens(v, 0, st.default), ')', ListEnd, b);
    case Group(_) =>
      var closing, body := Closing(depth, st) + b, MemberTokens(v, 0, st.default);
      assert Opening(depth, st) + ShowMembers(v, 0, depth, st) + Closing(depth, st) + b == Opening(depth, st) + (ShowMembers(v, 0, depth, st) + closing);
      ScanOpening(depth, st, ShowMembers(v, 0, depth, st) + closing);
      ScanMembers(v, 0, depth, st, closing);
      ScanClosing(depth, st, b);
      JoinTokens(body, [], Scan(b));
      JoinTokens([GroupStart], body + [GroupEnd], Scan(b));
      assert [GroupStart] + (body + [GroupEnd]) == [GroupStart] + body + [GroupEnd];
    case _ =>
      ScanScalar(v, depth, st, b);
  }

  lemma ShowIs(v: Value, depth: nat, st: Style)
    requires WellFormed(v)
    ensures v.Array? ==> Show(v, depth, st) == "[ " + ShowElems(v, 0, depth, st) + "]"
    ensures v.List? ==> Show(v, depth, st) == "( " + ShowElems(v, 0, depth, st) + ")"
    ensures v.Group? ==> Show(v, depth, st) == Opening(depth, st) + ShowMembers(v, 0, depth, st) + Closing(depth, st)
  {
    hide ShowElems, ShowMembers, Opening, Closing, WellFormed;
  }

  lemma TokensAre(v: Value, d: Format)
    ensures v.Array? ==> Tokens(v, d) == [ArrayStart] + ElemTokens(v, 0, d) + [ArrayEnd]
    ensures v.List? ==> Tokens(v, d) == [ListStart] + ElemTokens(v, 0, d) + [ListEnd]
    ensures v.Group? ==> Tokens(v, d) == [GroupStart] + MemberTokens(v, 0, d) + [GroupEnd]
  {
    hide ElemTokens, MemberTokens;
  }

  /** An opening bracket and a blank, a text that scans to `body`, and a closing bracket. */
  lemma ScanBracketed(o: char, start: Token, text: string, body: seq<Token>, c: char, close: Token, b: string)
    requires IsMark(o) && IsMark(c) && Punctuation(o) == start && Punctuation(c) == close
    requires Scan(text + ([c] + b)) == AllBefore(body, Scan([c] + b))
    ensures Scan([o, ' '] + text + [c] + b) == AllBefore([start] + body + [close], Scan(b))
  {
    hide Scan, Punctuation;
    var inner := text + ([c] + b);
    assert [o, ' '] + text + [c] + b == [o] + (" " + inner);
    ScanMark(o, " " + inner);
    ScanBlanks(" ", inner);
    ScanMark(c, b);
    JoinTokens(body, [], Scan(b));
    JoinTokens([start], body + [close], Scan(b));
    assert [start] + (body + [close]) == [start] + body + [close];
  }

  lemma {:induction false} ScanElems(v: Value, k: nat, depth: nat, st: Style, b: string)
    requires WellFormed(v) && (v.Array? || v.List?) && k <= |v.elems|
    ensures Scan(ShowElems(v, k, depth, st) + b) == AllBefore(ElemTokens(v, k, st.default), Scan(b))
    decreases v, 0, |v.elems| - k
  {
    hide Scan, WellFormed, Show, ShowElems, Tokens, ElemTokens;
    JoinTokens([], [], Scan(b));
    if k == |v.elems| {
      ElemsNone(v, depth, st);
      NoElemTokens(v, st.default);
      assert "" + b == b;
    } else {
      var more, d := k + 1 < |v.elems|, st.default;
      var separator, comma := if more then ", " else " ", if more then [Comma] else [];
      var tail := ShowElems(v, k + 1, depth, st) + b;
      ElemWellFormed(v, k);
      ElemsStep(v, k, depth, st, "", "" + Show(v.elems[k], depth + 1, st) + separator);
      assert ShowElems(v, k, depth, st) + b == Show(v.elems[k], depth + 1, st) + (separator + tail) by {
        JoinShow(Show(v.elems[k], depth + 1, st), separator, ShowElems(v, k + 1, depth, st), ShowElems(v, k, depth, st), b);
      }
      ScanShow(v.elems[k], depth + 1, st, separator + tail);
      ScanSeparator(more, tail);
      ScanElems(v, k + 1, depth, st, b);
      ElemTokensNext(v, k, d);
      JoinTokens(comma, ElemTokens(v, k + 1, d), Scan(b));
      JoinTokens(Tokens(v.elems[k], d), comma + ElemTokens(v, k + 1, d), Scan(b));
      assert Tokens(v.elems[k], d) + (comma + ElemTokens(v, k + 1, d)) == Tokens(v.elems[k], d) + comma + ElemTokens(v, k + 1, d);
    }
  }

  lemma JoinShow(x: string, y: string, z: string, w: string, b: string)
    requires "" + x + y + z == "" + w
    ensures w + b == x + (y + (z + b))
  {
    assert "" + w == w && "" + x + y + z == x + y + z;
    assert x + y + z + b == x + (y + (z + b));
  }

  lemma NoElemTokens(v: Value, d: Format)
    requires v.Array? || v.List?
    ensures ElemTokens(v, |v.elems|, d) == []
  {
  }

  lemma {:induction false} ScanMembers(v: Value, k: nat, depth: nat, st: Style, b: string)
    requires WellFormed(v) && v.Group? && k <= |v.members|
    ensures Scan(ShowMembers(v, k, depth, st) + b) == AllBefore(MemberTokens(v, k, st.default), Scan(b))
    decreases v, 0, |v.members| - k
  {
    hide Scan, WellFormed, Show, ShowMember, ShowMembers, Tokens, MemberTokens, Heading, WordToken, ValidName;
    JoinTokens([], [], Scan(b));
    if k == |v.members| {
      MembersNone(v, depth, st);
      NoMemberTokens(v, st.default);
      assert "" + b == b;
    } else {
      var m, d := v.members[k], st.default;
      var tail := ShowMembers(v, k + 1, depth, st) + b;
      var after := ";" + ("\n" + tail);
      MemberWellFormed(v, k);
      MembersStep(v, k, depth, st, "", "" + ShowMember(v, k, depth + 1, st));
      assert ShowMembers(v, k, depth, st) + b == Heading(m, depth + 1, st) + (Show(m.value, depth + 1, st) + after) by {
        assert ShowMember(v, k, depth + 1, st) == Heading(m, depth + 1, st) + Show(m.value, depth + 1, st) + ";\n";
        JoinMember(Heading(m, depth + 1, st), Show(m.value, depth + 1, st), ShowMembers(v, k + 1, depth, st), ShowMembers(v, k, depth, st), b);
      }
      ScanHeading(m, depth + 1, st, Show(m.value, depth + 1, st) + after);
      ScanShow(m.value, depth + 1, st, after);
      ScanMark(';', "\n" + tail);
      ScanBlanks("\n", tail);
      ScanMembers(v, k + 1, depth, st, b);
      JoinMemberTokens(m, Tokens(m.value, d), MemberTokens(v, k + 1, d), Scan(b));
      MemberTokensAre(v, k, d);
    }
  }

  lemma JoinMember(x: string, y: string, z: string, w: string, b: string)
    requires "" + (x + y + ";\n") + z == "" + w
    ensures w + b == x + (y + (";" + ("\n" + (z + b))))
  {
    assert "" + w == w && "" + (x + y + ";\n") + z == x + y + ";\n" + z;
    assert x + y + ";\n" + z + b == x + (y + (";\n" + (z + b)));
    assert ";\n" + (z + b) == ";" + ("\n" + (z + b));
  }

  lemma JoinMemberTokens(m: Member, ts: seq<Token>, tail: seq<Token>, r: Scanned)
    ensures AllBefore(HeadTokens(m), AllBefore(ts, Before(Semicolon, AllBefore(tail, r)))) ==
            AllBefore(HeadTokens(m) + ts + [Semicolon] + tail, r)
  {
    hide WordToken;
    var head := HeadTokens(m);
    JoinTokens([], tail, r);
    JoinTokens(ts, [Semicolon] + tail, r);
    JoinTokens(head, ts + ([Semicolon] + tail), r);
    assert head + (ts + ([Semicolon] + tail)) == head + ts + [Semicolon] + tail;
  }

  lemma NoMemberTokens(v: Value, d: Format)
    requires v.Group?
    ensures MemberTokens(v, |v.members|, d) == []
  {
  }

  lemma MemberTokensAre(v: Value, k: nat, d: Format)
    requires v.Group? && k < |v.members|
    ensures MemberTokens(v, k, d) == HeadTokens(v.members[k]) + Tokens(v.members[k].value, d) + [Semicolon] + MemberTokens(v, k + 1, d)
  {
    hide Tokens, WordToken;
  }

  // ----- Printing and reading back

  /**
    The text of a tree holds the tree's tokens, and the tree is rebuilt from
    them exactly when it is readable; otherwise they are rejected.
   */
  lemma PrintedIsRead(root: Value, st: Style)
    requires WellFormed(root) && root.Group?
    ensures var r := Scan(Show(root, 0, st));
      r.Scanned? && ParseConfig(r.ts) == if Readable(root) then Some(AsRead(root, st.default)) else None
  {
    hide Scan, Show, ShowMembers, MemberTokens, MembersReadable, Readable, AsRead, MembersRead, ParseSettings, WellFormed;
    var ts := MemberTokens(root, 0, st.default);
    ShowIs(root, 0, st);
    assert Opening(0, st) + ShowMembers(root, 0, 0, st) + Closing(0, st) == ShowMembers(root, 0, 0, st) + "";
    ScanMembers(root, 0, 0, st, "");
    ScanNext("");
    assert AllBefore(ts, Scanned([])) == Scanned(ts);
    Parts(root, st.default, []);
    GroupTokens(root, 0, st.default, []);
    assert ts + [] == ts;
  }

  /** config_write, then config_read_string on the text that was written. */
  method WriteThenRead(root: Value, tabWidth: nat, defaultFormat: Format) returns (text: string, back: Option<Value>)
    requires WellFormed(root) && root.Group?
    ensures text == Show(root, 0, Style(tabWidth, defaultFormat))
    ensures back == if Readable(root) then Some(AsRead(root, defaultFormat)) else None
  {
    var w := new Writer(tabWidth, defaultFormat);
    w.Write(root);
    text := w.stream;
    assert text == Show(root, 0, Style(tabWidth, defaultFormat));
    PrintedIsRead(root, Style(tabWidth, defaultFormat));
    var scanned := ScanText(text);
    var ctx := new Context(scanned.ts);
    back := ctx.Configuration();
  }

  // ----- Trees that do not come back

  /** A setting with the name of a reserved word can be added, but its text is rejected. */
  lemma ReservedNameRejected(st: Style)
    ensures var root := Group([Member(Some("True"), Int(1, Default))]);
      WellFormed(root) && var r := Scan(Show(root, 0, st)); r.Scanned? && ParseConfig(r.ts) == None
  {
    hide Scan, ParseConfig, Show;
    var ms := [Member(Some("True"), Int(1, Default))];
    var root := Group(ms);
    assert Spells(ms[0].name.value, "true");
    assert !Readable(root);
    PrintedIsRead(root, st);
  }

  /** A setting can be added to a group without a name, but its text is rejected. */
  lemma UnnamedRejected(st: Style)
    ensures var root := Group([Member(None, Int(1, Default))]);
      WellFormed(root) && var r := Scan(Show(root, 0, st)); r.Scanned? && ParseConfig(r.ts) == None
  {
    hide Scan, ParseConfig, Show;
    var ms := [Member(None, Int(1, Default))];
    var root := Group(ms);
    assert !CanName(ms[0].name);
    assert !Readable(root);
    PrintedIsRead(root, st);
  }

  /** A string setting without a value comes back as an empty string. */
  lemma MissingStringIsEmpty(st: Style)
    ensures var root := Group([Member(Some("s"), Str(None))]);
      WellFormed(root) && !Complete(root)
      && var r := Scan(Show(root, 0, st)); r.Scanned? && ParseConfig(r.ts) == Some(Group([Member(Some("s"), Str(Some("")))]))
  {
    hide Scan, ParseConfig, Show;
    var ms := [Member(Some("s"), Str(None))];
    var root := Group(ms);
    assert !Spells(ms[0].name.value, "true") && !Spells(ms[0].name.value, "false");
    assert !Complete(ms[0].value);
    PrintedIsRead(root, st);
    assert MembersRead(root, st.default) == [Member(Some("s"), Str(Some("")))];
  }
}
