/** The printed text of one tree, character by character, and a text in another layout that is read as a tree. */
module ConfigSamples {
  import opened Options
  import opened ConfigTree
  import opened ConfigScanner
  import opened ConfigParser
  import opened ConfigTokens
  import opened ConfigRoundTrip

  const TwoWide := Style(2, Default)

  // ----- A tree and its text

  lemma Numerals()
    ensures Decimal(-17) == "-17" && Decimal(5) == "5" && Digits(255, 16) == "FF"
  {
    assert Digits(1, 10) == "1" && Digits(17, 10) == "1" + "7";
    assert Digits(15, 16) == "F" && Digits(255, 16) == "F" + "F";
  }

  /** A form feed and a control character without a letter of its own. */
  const Feed := [12 as char, 1 as char]
  const Odd := "a \"\n" + Feed

  lemma Escapes()
    ensures Escape(Odd) == "a \\\"\\n\\f\\x01"
  {
    var s := Odd;
    assert s[1..] == " \"\n" + Feed && s[1..][1..] == "\"\n" + Feed && s[1..][1..][1..] == "\n" + Feed;
    assert ("\n" + Feed)[1..] == Feed && Feed[1..] == [1 as char] && Feed[1..][1..] == "";
    assert Escape(Feed[1..]) == "\\x01" + "";
    assert Escape(Feed) == "\\f" + "\\x01";
    assert Escape("\n" + Feed) == "\\n" + "\\f\\x01";
    assert Escape("\"\n" + Feed) == "\\\"" + "\\n\\f\\x01";
    assert Escape(" \"\n" + Feed) == " " + "\\\"\\n\\f\\x01";
    assert Escape(s) == "a" + " \\\"\\n\\f\\x01";
  }

  const Flags := Array([Bool(true), Bool(false)])
  const Mixed := List([Flags, Int(5, Default)])
  const Inner := Group([Member(Some("x"), Unset)])
  const Sample := Group([
    Member(Some("aZ*_-9zA"), Int(-17, Default)),
    Member(Some("m"), Int64(255, Hex)),
    Member(Some("s"), Str(Some(Odd))),
    Member(Some("l"), Mixed),
    Member(Some("g"), Inner)])

  lemma ArrayText()
    ensures WellFormed(Flags) && Show(Flags, 2, TwoWide) == "[ true, false ]"
  {
    assert ShowElems(Flags, 2, 2, TwoWide) == "";
    assert ShowElems(Flags, 1, 2, TwoWide) == "false" + " " + "";
    assert ShowElems(Flags, 0, 2, TwoWide) == "true" + ", " + "false ";
    assert Show(Flags, 2, TwoWide) == "[ " + "true, false " + "]";
  }

  lemma ListText()
    ensures WellFormed(Mixed) && Show(Mixed, 1, TwoWide) == "( [ true, false ], 5 )"
  {
    ArrayText();
    Numerals();
    assert ShowElems(Mixed, 2, 1, TwoWide) == "";
    assert ShowElems(Mixed, 1, 1, TwoWide) == "5" + " " + "";
    assert ShowElems(Mixed, 0, 1, TwoWide) == "[ true, false ]" + ", " + "5 ";
    assert Show(Mixed, 1, TwoWide) == "( " + "[ true, false ], 5 " + ")";
  }

  lemma GroupText()
    ensures WellFormed(Inner) && Show(Inner, 1, TwoWide) == "\n{\n  x = ???;\n}"
  {
    assert ShowMembers(Inner, 1, 1, TwoWide) == "";
    assert Indent(2, 2) == "  ";
    assert Heading(Inner.members[0], 2, TwoWide) == "  " + ("x" + " = ");
    assert ShowMember(Inner, 0, 2, TwoWide) == "  x = " + "???" + ";\n";
    assert ShowMembers(Inner, 0, 1, TwoWide) == "  x = ???;\n" + "";
    assert Show(Inner, 1, TwoWide) == "\n{\n" + "  x = ???;\n" + "}";
  }

  /** The line of a setting of the root. */
  ghost predicate LineIs(m: Member, line: string) {
    m.name.Some? && WellFormed(m.value) && line == m.name.value + (if m.value.Group? then " : " else " = ") + Show(m.value, 1, TwoWide) + ";\n"
  }

  /** A setting of the root in front of the text of those after it. */
  lemma Line(v: Value, k: nat, line: string, rest: string)
    requires WellFormed(v) && v.Group? && k < |v.members| && LineIs(v.members[k], line) && ShowMembers(v, k + 1, 0, TwoWide) == rest
    ensures ShowMembers(v, k, 0, TwoWide) == line + rest
  {
    hide Show, WellFormed;
    MemberWellFormed(v, k);
    assert ShowMembers(v, k, 0, TwoWide) == ShowMember(v, k, 1, TwoWide) + rest;
    assert Heading(v.members[k], 1, TwoWide) == "" + Label(v.members[k]);
    assert "" + Label(v.members[k]) == Label(v.members[k]);
  }

  lemma FirstLine()
    ensures LineIs(Sample.members[0], "aZ*_-9zA = -17;\n")
  {
    Numerals();
    hide Digits, Decimal;
    assert "aZ*_-9zA" + " = " + "-17" + ";\n" == "aZ*_-9zA = -17;\n";
  }

  lemma SecondLine()
    ensures LineIs(Sample.members[1], "m = 0xFFL;\n")
  {
    Numerals();
    hide Digits, Decimal;
    assert "0x" + "FF" + "L" == "0xFFL";
    assert "m" + " = " + "0xFFL" + ";\n" == "m = 0xFFL;\n";
  }

  lemma ThirdLine()
    ensures LineIs(Sample.members[2], "s = \"a \\\"\\n\\f\\x01\";\n")
  {
    Escapes();
    hide Escape;
    assert "\"" + "a \\\"\\n\\f\\x01" + "\"" == "\"a \\\"\\n\\f\\x01\"";
    assert "s" + " = " + "\"a \\\"\\n\\f\\x01\"" + ";\n" == "s = \"a \\\"\\n\\f\\x01\";\n";
  }

  lemma FourthLine()
    ensures LineIs(Sample.members[3], "l = ( [ true, false ], 5 );\n")
  {
    ListText();
    hide Show, WellFormed;
    assert "l" + " = " + "( [ true, false ], 5 )" + ";\n" == "l = ( [ true, false ], 5 );\n";
  }

  lemma LastLine()
    ensures LineIs(Sample.members[4], "g : \n{\n  x = ???;\n};\n")
  {
    GroupText();
    hide Show, WellFormed;
    assert "g" + " : " + "\n{\n  x = ???;\n}" + ";\n" == "g : \n{\n  x = ???;\n};\n";
  }

  lemma SampleParts()
    ensures WellFormed(Sample) && Sample.Group? && |Sample.members| == 5
  {
    ListText();
    GroupText();
    hide Show;
    Escapes();
  }

  /** The text of the tree. */
  lemma SampleText()
    ensures WellFormed(Sample) && Show(Sample, 0, TwoWide) == "aZ*_-9zA = -17;\n" + ("m = 0xFFL;\n" + ("s = \"a \\\"\\n\\f\\x01\";\n" + ("l = ( [ true, false ], 5 );\n" + ("g : \n{\n  x = ???;\n};\n" + ""))))
  {
    SampleParts();
    hide Show, ShowMembers, WellFormed, Sample, LineIs;
    FirstLine();
    SecondLine();
    ThirdLine();
    FourthLine();
    LastLine();
    MembersNone(Sample, 0, TwoWide);
    Line(Sample, 4, "g : \n{\n  x = ???;\n};\n", "");
    Line(Sample, 3, "l = ( [ true, false ], 5 );\n", ShowMembers(Sample, 4, 0, TwoWide));
    Line(Sample, 2, "s = \"a \\\"\\n\\f\\x01\";\n", ShowMembers(Sample, 3, 0, TwoWide));
    Line(Sample, 1, "m = 0xFFL;\n", ShowMembers(Sample, 2, 0, TwoWide));
    Line(Sample, 0, "aZ*_-9zA = -17;\n", ShowMembers(Sample, 1, 0, TwoWide));
    ShowIs(Sample, 0, TwoWide);
    assert Opening(0, TwoWide) + ShowMembers(Sample, 0, 0, TwoWide) + Closing(0, TwoWide) == ShowMembers(Sample, 0, 0, TwoWide);
  }

  // ----- A text in another layout

  /** A comma, a semicolon or nothing ends a setting; words and hexadecimal digits may be in either case; adjacent strings are joined. */
  const Strings3 := "\"x\\x41\" " + "\"y\""
  const Other := "A" + " " + ":" + " " + ("TRUE" + ("," + ("b" + " " + "=" + " " + ("0xfFL" + (";" + ("d" + " " + "=" + " " + Strings3))))))

  lemma StringTokens()
    ensures Scan("\"x\\x41\" " + "\"y\"") == Scanned([StringTok("xA"), StringTok("y")])
  {
    hide Scan;
    var y := "\"y\"";
    assert y[1..] == "y\"" && y[1..][1..] == "\"";
    assert Quoted("\"") == Closed("", 1);
    assert Quoted("y\"") == Closed("y" + "", 2);
    assert "y" + "" == "y" && Quoted(y[1..]) == Closed("y", 2);
    ScanNext(y);
    assert Lex(y) == Lexeme(StringTok("y"), 3);
    assert y[3..] == "";
    ScanNext("");
    assert Scan(y) == Before(StringTok("y"), Scanned([])) == Scanned([StringTok("y")]);
    var s := "\"x\\x41\" " + y;
    EscapedHex(y);
    ScanNext(s);
    assert s[1..] == "x\\x41\" " + y;
    assert s[7..] == " " + y;
    assert Lex(s) == Lexeme(StringTok("xA"), 7);
    ScanBlanks(" ", y);
    assert Scan(s) == Before(StringTok("xA"), Scanned([StringTok("y")])) == Scanned([StringTok("xA"), StringTok("y")]);
  }

  lemma EscapedHex(y: string)
    ensures Quoted("x\\x41\" " + y) == Closed("xA", 6)
  {
    var a, b, c := "x\\x41\" " + y, "\\x41\" " + y, "\" " + y;
    assert a[1..] == b && b[4..] == c;
    assert Quoted(c) == Closed("", 1);
    assert HexChar('4', '1') == "A";
    assert Quoted(b) == Closed("A" + "", 5);
    assert Quoted(a) == Closed("x" + "A", 6);
  }

  lemma HexToken(b: string)
    ensures Scan("0xfFL" + (";" + b)) == Before(Hex64Tok(255), Scan(";" + b))
  {
    hide Scan;
    var s := "0xfF" + ("L" + (";" + b));
    ZeroSpan(s);
    assert s[2..] == "fF" + ("L" + (";" + b));
    SpanExact("fF", "L" + (";" + b), IsHexDigit);
    LexHexIs(s, 2);
    assert s[2..][..2] == "fF";
    assert "fF"[..1] == "f" && "f"[..0] == "";
    assert Spelled("f", 16) == 15 && Spelled("fF", 16) == 255;
    assert Suffix(s, 4) == 1;
    ScanNumber("0xfF", "L", ";" + b, Hex64Tok(255));
    assert "0xfF" + "L" + (";" + b) == "0xfFL" + (";" + b);
  }

  /** A name, a sign and a blank. */
  lemma NameAndSign(name: string, c: char, b: string)
    requires ValidName(name) && (c == '=' || c == ':')
    ensures Scan(name + " " + [c] + " " + b) == Before(WordToken(name), Before(Equals, Scan(b)))
  {
    hide Scan, ValidName, WordToken;
    var tail := " " + ([c] + (" " + b));
    assert name + " " + [c] + " " + b == name + tail;
    ScanWord(name, tail);
    ScanBlanks(" ", [c] + (" " + b));
    ScanMark(c, " " + b);
    ScanBlanks(" ", b);
  }

  lemma OtherTokens()
    ensures Scan(Other) == Scanned([NameTok("A"), Equals, BoolTok(true), Comma, NameTok("b"), Equals, Hex64Tok(255), Semicolon, NameTok("d"), Equals, StringTok("xA"), StringTok("y")])
  {
    hide Scan, Before;
    var d := "d" + " " + "=" + " " + Strings3;
    var b := "b" + " " + "=" + " " + ("0xfFL" + (";" + d));
    StringTokens();
    NameAndSign("d", '=', Strings3);
    assert Strings3 == "\"x\\x41\" " + "\"y\"";
    ScanMark(';', d);
    HexToken(d);
    NameAndSign("b", '=', "0xfFL" + (";" + d));
    ScanMark(',', b);
    ScanWord("TRUE", "," + b);
    NameAndSign("A", ':', "TRUE" + ("," + b));
    Words();
    Chain(Scan(Strings3));
  }

  lemma Chain(r: Scanned)
    requires r == Scanned([StringTok("xA"), StringTok("y")])
    ensures Before(NameTok("A"), Before(Equals, Before(BoolTok(true), Before(Comma, Before(NameTok("b"), Before(Equals, Before(Hex64Tok(255), Before(Semicolon, Before(NameTok("d"), Before(Equals, r))))))))))
      == Scanned([NameTok("A"), Equals, BoolTok(true), Comma, NameTok("b"), Equals, Hex64Tok(255), Semicolon, NameTok("d"), Equals, StringTok("xA"), StringTok("y")])
  {
  }

  const D := [NameTok("d"), Equals, StringTok("xA"), StringTok("y")]
  const B := [NameTok("b"), Equals, Hex64Tok(255), Semicolon]
  const A := [NameTok("A"), Equals, BoolTok(true), Comma]

  lemma ReadD(ms: seq<Member>)
    requires !HasName(ms, "d")
    ensures ParseSettings(D, ms) == Parsed(ms + [Member(Some("d"), Str(Some("xAy")))], [])
  {
    hide ParseSettings, HasName;
    assert D[2..] == [StringTok("xA"), StringTok("y")] && D[2..][1..] == [StringTok("y")] && [StringTok("y")][1..] == [];
    assert Strings([], "xAy") == Parsed(Str(Some("xAy")), []);
    assert "xA" + "y" == "xAy" && Strings([StringTok("y")], "xA") == Strings([], "xAy");
    ReadSetting(D, ms, Str(Some("xAy")), []);
    SettingNext([], ms + [Member(Some("d"), Str(Some("xAy")))]);
  }

  lemma ReadB(ms: seq<Member>)
    requires !HasName(ms, "b")
    ensures ParseSettings(B + D, ms) == ParseSettings(D, ms + [Member(Some("b"), Int64(255, Hex))])
  {
    hide ParseSettings, HasName;
    assert (B + D)[2..][1..] == [Semicolon] + D && ([Semicolon] + D)[1..] == D;
    ReadSetting(B + D, ms, Int64(255, Hex), [Semicolon] + D);
  }

  lemma ReadA()
    ensures ParseSettings(A + (B + D), []) == ParseSettings(B + D, [Member(Some("A"), Bool(true))])
  {
    hide ParseSettings;
    assert (A + (B + D))[2..][1..] == [Comma] + (B + D) && ([Comma] + (B + D))[1..] == B + D;
    assert [] + [Member(Some("A"), Bool(true))] == [Member(Some("A"), Bool(true))];
    ReadSetting(A + (B + D), [], Bool(true), [Comma] + (B + D));
  }

  /** What the text is read as. */
  lemma OtherIsRead()
    ensures Scan(Other).Scanned? && ParseConfig(Scan(Other).ts) ==
      Some(Group([Member(Some("A"), Bool(true)), Member(Some("b"), Int64(255, Hex)), Member(Some("d"), Str(Some("xAy")))]))
  {
    hide Scan, ParseSettings, Other;
    OtherTokens();
    assert A + (B + D) == Scan(Other).ts;
    var m1, m2 := [Member(Some("A"), Bool(true))], [Member(Some("b"), Int64(255, Hex))];
    ReadA();
    ReadB(m1);
    ReadD(m1 + m2);
    assert m1 + m2 + [Member(Some("d"), Str(Some("xAy")))] == [m1[0], m2[0], Member(Some("d"), Str(Some("xAy")))];
  }

  lemma ReadSetting(ts: seq<Token>, ms: seq<Member>, v: Value, rest: seq<Token>)
    requires |ts| > 2 && ts[0].NameTok? && ts[1] == Equals && !HasName(ms, ts[0].name) && ParseSimple(ts[2..]) == Parsed(v, rest)
    requires ts[2].BoolTok? || ts[2].Hex64Tok? || ts[2].StringTok?
    ensures ParseSettings(ts, ms) == ParseSettings(Terminated(rest), ms + [Member(Some(ts[0].name), v)])
  {
    hide ParseSettings, ParseSimple, HasName;
    SettingNext(ts, ms);
    ValueNext(ts[2..]);
    assert ts[2..][0] == ts[2] && ts[1..][0] == Equals;
  }

  lemma Words()
    ensures WordToken("A") == NameTok("A") && WordToken("b") == NameTok("b") && WordToken("d") == NameTok("d") && WordToken("TRUE") == BoolTok(true)
    ensures ValidName("A") && ValidName("b") && ValidName("d") && ValidName("TRUE")
  {
  }
}
