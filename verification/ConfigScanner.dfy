/** The scanner of configuration texts, and what it makes of a printed setting tree. */
module ConfigScanner {
  import opened ConfigTree

  datatype Token =
    | BoolTok(b: bool)
    | IntTok(i: int)
    | HexTok(i: int)
    | Int64Tok(i: int)
    | Hex64Tok(i: int)
    | StringTok(s: string)
    | NameTok(name: string)
    | Equals | Comma | Semicolon
    | ArrayStart | ArrayEnd
    | ListStart | ListEnd
    | GroupStart | GroupEnd
    | Garbage

  /**
    The first token of a text and the number of characters it takes; blanks
    are skipped.  A string that is not closed ends the input.  Beyond is a text
    with a comment, an include directive, a float, or a decimal number too
    large for its type.
   */
  datatype Lexeme = Lexeme(t: Token, n: nat) | Blank(n: nat) | EndOfInput | Beyond

  datatype Scanned = Scanned(ts: seq<Token>) | Outside

  // ----- Character runs

  function Span(s: string, p: char -> bool): (n: nat)
    ensures n <= |s| && (forall k {:trigger s[k]} :: 0 <= k < n ==> p(s[k])) && (n < |s| ==> !p(s[n]))
  {
    if s == "" || !p(s[0]) then 0 else 1 + Span(s[1..], p)
  }

  lemma {:induction false} SpanExact(a: string, b: string, p: char -> bool)
    requires (forall k {:trigger a[k]} :: 0 <= k < |a| ==> p(a[k])) && (b == "" || !p(b[0]))
    ensures Span(a + b, p) == |a|
  {
    if a == "" {
      assert a + b == b;
    } else {
      assert (a + b)[1..] == a[1..] + b;
      SpanExact(a[1..], b, p);
    }
  }

  // ----- Strings

  /** The characters of a string up to its closing quote, and the length of the text that spells them. */
  datatype Quote = Closed(s: string, n: nat) | Unclosed

  function More(c: string, n: nat, q: Quote): Quote {
    if q.Closed? then Closed(c + q.s, n + q.n) else Unclosed
  }

  /** A backslash that starts no escape sequence is echoed, and is not part of the string. */
  function Quoted(s: string): (q: Quote)
    ensures q.Closed? ==> 0 < q.n <= |s|
  {
    if s == "" then Unclosed
    else if s[0] == '"' then Closed("", 1)
    else if s[0] != '\\' then More([s[0]], 1, Quoted(s[1..]))
    else if |s| > 1 && s[1] == 'n' then More("\n", 2, Quoted(s[2..]))
    else if |s| > 1 && s[1] == 'r' then More("\r", 2, Quoted(s[2..]))
    else if |s| > 1 && s[1] == 't' then More("\t", 2, Quoted(s[2..]))
    else if |s| > 1 && s[1] == 'f' then More([12 as char], 2, Quoted(s[2..]))
    else if |s| > 1 && (s[1] == '\\' || s[1] == '"') then More([s[1]], 2, Quoted(s[2..]))
    else if |s| > 3 && (s[1] == 'x' || s[1] == 'X') && IsHexDigit(s[2]) && IsHexDigit(s[3]) then More(HexChar(s[2], s[3]), 4, Quoted(s[4..]))
    else More("", 1, Quoted(s[1..]))
  }

  /** A zero byte ends the C string that is appended, so it adds nothing. */
  function HexChar(a: char, b: char): string
    requires IsHexDigit(a) && IsHexDigit(b)
  {
    var c := DigitValue(a) * 16 + DigitValue(b);
    if c == 0 then "" else [c as char]
  }

  // ----- Numbers

  function ToSigned(n: nat, half: nat): int
    requires half > 0
  {
    var m := n % (2 * half);
    if m < half then m else m - 2 * half
  }

  /** strtoul and strtoull stop at the largest 64-bit number. */
  function Clamp(n: nat): nat {
    if n < 2 * TWO63 then n else 2 * TWO63 - 1
  }

  predicate InRange(i: int, half: int) {
    -half <= i < half
  }

  /** An exponent starts at s[k], so the number is a float. */
  predicate ExponentAt(s: string, k: nat) {
    k + 1 < |s| && (s[k] == 'e' || s[k] == 'E') && (IsDigit(s[k + 1]) || (k + 2 < |s| && IsSign(s[k + 1]) && IsDigit(s[k + 2])))
  }

  predicate IsSign(c: char) {
    c == '+' || c == '-'
  }

  /** One or two letters L from s[k]. */
  function Suffix(s: string, k: nat): (n: nat)
    ensures k <= |s| ==> k + n <= |s|
  {
    if k < |s| && s[k] == 'L' then (if k + 1 < |s| && s[k + 1] == 'L' then 2 else 1) else 0
  }

  function LexHex(s: string): (l: Lexeme)
    requires |s| > 2 && IsHexDigit(s[2])
    ensures l.Lexeme? && 0 < l.n <= |s|
  {
    var h := Span(s[2..], IsHexDigit);
    var value := Clamp(Spelled(s[2..][..h], 16));
    Hexadecimally(value, 2 + h, Suffix(s, 2 + h))
  }

  /** A hexadecimal number of n characters and x letters L. */
  function Hexadecimally(value: nat, n: nat, x: nat): (l: Lexeme)
    ensures l.Lexeme? && l.n == n + x
  {
    Lexeme(if x == 0 then HexTok(ToSigned(value, TWO31)) else Hex64Tok(ToSigned(value, TWO63)), n + x)
  }

  function LexNumber(s: string): (l: Lexeme)
    requires s != "" && (IsDigit(s[0]) || IsSign(s[0]))
    ensures l.Lexeme? ==> 0 < l.n <= |s|
    ensures !l.Blank?
  {
    var sign := if IsSign(s[0]) then 1 else 0;
    var d := Span(s[sign..], IsDigit);
    if d == 0 then (if sign < |s| && s[sign] == '.' then Beyond else Lexeme(Garbage, 1))
    else if HexAt(s) then LexHex(s)
    else LexInteger(s, sign, d)
  }

  predicate HexAt(s: string) {
    |s| > 2 && s[0] == '0' && (s[1] == 'x' || s[1] == 'X') && IsHexDigit(s[2])
  }

  /** A number of d decimal digits after its sign. */
  function LexInteger(s: string, sign: nat, d: nat): (l: Lexeme)
    requires 0 < d && sign + d <= |s| && forall k {:trigger s[sign..][k]} :: 0 <= k < d ==> IsDigit(s[sign..][k])
    ensures l.Lexeme? ==> 0 < l.n <= |s|
    ensures !l.Blank?
  {
    var end := sign + d;
    if (end < |s| && s[end] == '.') || ExponentAt(s, end) then Beyond
    else
      var value := Spelled(s[sign..][..d], 10);
      Decimally(if s[0] == '-' then 0 - value else value, end, Suffix(s, end))
  }

  /** A decimal number of n characters and x letters L. */
  function Decimally(i: int, n: nat, x: nat): (l: Lexeme)
    ensures l.Lexeme? ==> l.n == n + x
    ensures !l.Blank?
  {
    if !InRange(i, if x == 0 then TWO31 else TWO63) then Beyond
    else Lexeme(if x == 0 then IntTok(i) else Int64Tok(i), n + x)
  }

  // ----- Names and the reserved words

  function LowerChar(c: char): char {
    if 'A' <= c <= 'Z' then c - 'A' + 'a' else c
  }

  predicate Spells(s: string, word: string) {
    |s| == |word| && forall k {:trigger s[k]} :: 0 <= k < |s| ==> LowerChar(s[k]) == word[k]
  }

  predicate Reserved(name: string) {
    Spells(name, "true") || Spells(name, "false")
  }

  /** The reserved words, each letter in either case. */
  lemma ReservedIs(name: string)
    ensures Reserved(name) <==>
      || (|name| == 4 && name[0] in {'t', 'T'} && name[1] in {'r', 'R'} && name[2] in {'u', 'U'} && name[3] in {'e', 'E'})
      || (|name| == 5 && name[0] in {'f', 'F'} && name[1] in {'a', 'A'} && name[2] in {'l', 'L'} && name[3] in {'s', 'S'} && name[4] in {'e', 'E'})
  {
    if Spells(name, "true") {
      assert LowerChar(name[0]) == 't' && LowerChar(name[1]) == 'r' && LowerChar(name[2]) == 'u' && LowerChar(name[3]) == 'e';
    }
    if Spells(name, "false") {
      assert LowerChar(name[0]) == 'f' && LowerChar(name[1]) == 'a' && LowerChar(name[2]) == 'l' && LowerChar(name[3]) == 's' && LowerChar(name[4]) == 'e';
    }
  }

  function WordToken(name: string): Token {
    if Spells(name, "true") then BoolTok(true) else if Spells(name, "false") then BoolTok(false) else NameTok(name)
  }

  // ----- The scanner

  predicate IsBlank(c: char) {
    c == ' ' || c == '\t' || c == '\n' || c == '\r' || c as int == 12
  }

  function Punctuation(c: char): Token {
    match c
    case '=' => Equals
    case ':' => Equals
    case ',' => Comma
    case ';' => Semicolon
    case '[' => ArrayStart
    case ']' => ArrayEnd
    case '(' => ListStart
    case ')' => ListEnd
    case '{' => GroupStart
    case '}' => GroupEnd
    case _ => Garbage
  }

  function Lex(s: string): (l: Lexeme)
    requires s != ""
    ensures l.Lexeme? || l.Blank? ==> 0 < l.n <= |s|
  {
    var c := s[0];
    if IsBlank(c) then Blank(1)
    else if c == '"' then
      var q := Quoted(s[1..]);
      if q.Closed? then Lexeme(StringTok(q.s), 1 + q.n) else EndOfInput
    else if IsNameStart(c) then
      var n := Span(s, IsNameChar);
      Lexeme(WordToken(s[..n]), n)
    else if IsDigit(c) || IsSign(c) then LexNumber(s)
    else if c == '.' || c == '#' || c == '/' || c == '@' then Beyond
    else Lexeme(Punctuation(c), 1)
  }

  function Before(t: Token, r: Scanned): Scanned {
    if r.Scanned? then Scanned([t] + r.ts) else Outside
  }

  function Scan(s: string): Scanned
    decreases |s|
  {
    if s == "" then Scanned([]) else
      match Lex(s)
      case Lexeme(t, n) => Before(t, Scan(s[n..]))
      case Blank(n) => Scan(s[n..])
      case EndOfInput => Scanned([])
      case Beyond => Outside
  }

  lemma ScanNext(s: string)
    ensures s == "" ==> Scan(s) == Scanned([])
    ensures s != "" && Lex(s).Lexeme? ==> Scan(s) == Before(Lex(s).t, Scan(s[Lex(s).n..]))
    ensures s != "" && Lex(s).Blank? ==> Scan(s) == Scan(s[Lex(s).n..])
    ensures s != "" && Lex(s).EndOfInput? ==> Scan(s) == Scanned([])
    ensures s != "" && Lex(s).Beyond? ==> Scan(s) == Outside
  {
    hide Lex;
  }

  /** libconfig_yylex over the whole text. */
  method ScanText(s: string) returns (r: Scanned)
    ensures r == Scan(s)
  {
    hide Lex, Scan;
    var ts, k := [], 0;
    while k < |s|
      invariant k <= |s| && Scan(s) == AllBefore(ts, Scan(s[k..]))
    {
      var l := Lex(s[k..]);
      ScanNext(s[k..]);
      match l {
        case Lexeme(t, n) =>
          assert s[k..][n..] == s[k + n..];
          BeforeNext(ts, t, Scan(s[k + n..]));
          ts, k := ts + [t], k + n;
        case Blank(n) =>
          assert s[k..][n..] == s[k + n..];
          k := k + n;
        case EndOfInput =>
          return Scanned(ts);
        case Beyond =>
          return Outside;
      }
    }
    assert s[k..] == "";
    ScanNext("");
    r := Scanned(ts);
  }

  function AllBefore(ts: seq<Token>, r: Scanned): Scanned {
    if r.Scanned? then Scanned(ts + r.ts) else Outside
  }

  lemma BeforeNext(ts: seq<Token>, t: Token, r: Scanned)
    ensures AllBefore(ts, Before(t, r)) == AllBefore(ts + [t], r)
  {
  }
}
