/** Whatever is read from a text can be printed, and is read back from that as it is. */
module ConfigReading {
  import opened Options
  import opened ConfigTree
  import opened ConfigScanner
  import opened ConfigParser
  import opened ConfigTokens
  import opened ConfigRoundTrip

  // ----- The tokens of a text

  predicate GoodToken(t: Token) {
    match t
    case IntTok(i) => InRange(i, TWO31)
    case HexTok(i) => InRange(i, TWO31)
    case Int64Tok(i) => InRange(i, TWO63)
    case Hex64Tok(i) => InRange(i, TWO63)
    case StringTok(s) => CString(s)
    case NameTok(name) => ValidName(name) && !Reserved(name)
    case _ => true
  }

  predicate Good(ts: seq<Token>) {
    forall k {:trigger ts[k]} :: 0 <= k < |ts| ==> GoodToken(ts[k])
  }

  lemma {:induction false} QuotedBytes(s: string)
    requires CString(s)
    ensures Quoted(s).Closed? ==> CString(Quoted(s).s)
    decreases |s|
  {
    if s != "" && s[0] != '"' {
      QuotedBytes(s[1..]);
      if |s| > 1 {
        QuotedBytes(s[2..]);
      }
      if |s| > 3 {
        QuotedBytes(s[4..]);
      }
    }
  }

  lemma WordGood(s: string, n: nat)
    requires s != "" && IsNameStart(s[0]) && n == Span(s, IsNameChar)
    ensures n > 0 && GoodToken(WordToken(s[..n]))
  {
    assert s[..n][0] == s[0];
  }

  lemma ToSignedRange(n: nat, half: nat)
    requires half == TWO31 || half == TWO63
    ensures InRange(ToSigned(n, half), half)
  {
  }

  lemma NumberGood(s: string)
    requires s != "" && (IsDigit(s[0]) || IsSign(s[0]))
    ensures LexNumber(s).Lexeme? ==> GoodToken(LexNumber(s).t)
  {
    hide Span, Spelled, ToSigned, Suffix, ExponentAt, Clamp;
    forall n: nat ensures InRange(ToSigned(n, TWO31), TWO31) && InRange(ToSigned(n, TWO63), TWO63) {
      ToSignedRange(n, TWO31);
      ToSignedRange(n, TWO63);
    }
  }

  lemma LexGood(s: string)
    requires s != "" && CString(s)
    ensures Lex(s).Lexeme? ==> GoodToken(Lex(s).t)
  {
    hide LexNumber, Quoted, Span, WordToken;
    if s[0] == '"' {
      QuotedBytes(s[1..]);
    } else if IsNameStart(s[0]) {
      WordGood(s, Span(s, IsNameChar));
    } else if IsDigit(s[0]) || IsSign(s[0]) {
      NumberGood(s);
    }
  }

  lemma {:induction false} ScanGood(s: string)
    requires CString(s)
    ensures Scan(s).Scanned? ==> Good(Scan(s).ts)
    decreases |s|
  {
    hide Lex, Scan, GoodToken;
    ScanNext(s);
    if s != "" {
      LexGood(s);
      if Lex(s).Lexeme? || Lex(s).Blank? {
        ScanGood(s[Lex(s).n..]);
      }
    }
  }

  // ----- The trees built from them

  predicate GoodValue(v: Value) {
    WellFormed(v) && Readable(v) && Complete(v)
  }

  predicate GoodElems(es: seq<Value>) {
    forall k {:trigger es[k]} :: 0 <= k < |es| ==> GoodValue(es[k])
  }

  predicate GoodMembers(ms: seq<Member>) {
    DistinctNames(ms) && forall k {:trigger ms[k]} :: 0 <= k < |ms| ==> MayName(ms[k].name) && CanName(ms[k].name) && GoodValue(ms[k].value)
  }

  predicate GoodParse(r: Parsed<Value>) {
    r.Parsed? ==> GoodValue(r.value) && Good(r.rest)
  }

  lemma GoodRest(ts: seq<Token>, k: nat)
    requires Good(ts) && k <= |ts|
    ensures Good(ts[k..])
  {
  }

  lemma {:induction false} StringsGood(ts: seq<Token>, s: string)
    requires Good(ts) && CString(s)
    ensures GoodParse(Strings(ts, s)) && Strings(ts, s).value.Str?
    decreases |ts|
  {
    if ts != [] && ts[0].StringTok? {
      StringsGood(ts[1..], s + ts[0].s);
    }
  }

  lemma SimpleGood(ts: seq<Token>)
    requires Good(ts)
    ensures GoodParse(ParseSimple(ts)) && (ParseSimple(ts).Parsed? ==> IsScalar(ParseSimple(ts).value))
  {
    if ts != [] && ts[0].StringTok? {
      StringsGood(ts[1..], ts[0].s);
    }
  }

  /** Scalars of one type are the elements of a good array. */
  predicate GoodArray(es: seq<Value>) {
    GoodElems(es) && ArrayReadable(es, 0)
  }

  lemma ArrayGrows(es: seq<Value>, v: Value)
    requires GoodArray(es) && GoodValue(v) && IsScalar(v) && Fits(es, v)
    ensures GoodArray(es + [v]) && GoodValue(Array(es + [v]))
  {
    hide IsScalar;
    assert es == [] ==> (es + [v])[0] == v;
    assert es != [] ==> (es + [v])[0] == es[0];
  }

  lemma {:induction false} SimplesGood(ts: seq<Token>, es: seq<Value>)
    requires Good(ts) && GoodArray(es)
    ensures GoodParse(ParseSimples(ts, es))
    decreases |ts|
  {
    hide ParseSimple, ParseSimples, GoodArray, GoodValue, IsScalar, Fits, Good;
    SimplesNext(ts, es);
    SimpleGood(ts);
    var r := ParseSimple(ts);
    if r.Parsed? && Fits(es, r.value) {
      ArrayGrows(es, r.value);
      if r.rest != [] {
        GoodRest(r.rest, 1);
        SimplesGood(r.rest[1..], es + [r.value]);
      }
    }
  }

  lemma ListGrows(es: seq<Value>, v: Value)
    requires GoodElems(es) && GoodValue(v)
    ensures GoodElems(es + [v]) && GoodValue(List(es + [v]))
  {
  }

  lemma {:induction false} ValuesGood(ts: seq<Token>, es: seq<Value>)
    requires Good(ts) && GoodElems(es)
    ensures GoodParse(ParseValues(ts, es))
    decreases |ts|, 2
  {
    hide ParseValue, ParseValues, GoodElems, GoodValue, Good;
    ValuesNext(ts, es);
    ValueGood(ts);
    var r := ParseValue(ts);
    if r.Parsed? {
      ListGrows(es, r.value);
      if r.rest != [] {
        GoodRest(r.rest, 1);
        ValuesGood(r.rest[1..], es + [r.value]);
      }
    }
  }

  lemma EmptyGood()
    ensures GoodArray([]) && GoodElems([]) && GoodMembers([]) && GoodValue(Array([])) && GoodValue(List([]))
  {
  }

  lemma GroupGood(ms: seq<Member>)
    requires GoodMembers(ms)
    ensures GoodValue(Group(ms))
  {
  }

  lemma {:induction false} ValueGood(ts: seq<Token>)
    requires Good(ts)
    ensures GoodParse(ParseValue(ts))
    decreases |ts|, 1
  {
    hide ParseValue, ParseSimple, ParseSimples, ParseValues, ParseSettings, GoodValue, GoodArray, GoodElems, GoodMembers, Good;
    ValueNext(ts);
    EmptyGood();
    SimpleGood(ts);
    if ts != [] {
      GoodRest(ts, 1);
      if |ts| > 1 {
        GoodRest(ts, 2);
        assert ts[1..][1..] == ts[2..];
      }
      if At(ts, ArrayStart) {
        SimplesGood(ts[1..], []);
      } else if At(ts, ListStart) {
        ValuesGood(ts[1..], []);
      } else if At(ts, GroupStart) {
        SettingsGood(ts[1..], []);
        var r := ParseSettings(ts[1..], []);
        if r.Parsed? && r.rest != [] {
          GroupGood(r.value);
          GoodRest(r.rest, 1);
        }
      }
    }
  }

  lemma MembersGrow(ms: seq<Member>, name: string, v: Value)
    requires GoodMembers(ms) && ValidName(name) && !Reserved(name) && !HasName(ms, name) && GoodValue(v)
    ensures GoodMembers(ms + [Member(Some(name), v)])
  {
    hide GoodValue, Reserved, ValidName;
  }

  lemma TerminatedGood(ts: seq<Token>)
    requires Good(ts)
    ensures Good(Terminated(ts))
  {
  }

  lemma {:induction false} SettingsGood(ts: seq<Token>, ms: seq<Member>)
    requires Good(ts) && GoodMembers(ms)
    ensures var r := ParseSettings(ts, ms); r.Parsed? ==> GoodMembers(r.value) && Good(r.rest)
    decreases |ts|, 0
  {
    hide ParseValue, ParseSettings, GoodValue, GoodMembers, ValidName, Reserved, HasName, Terminated;
    SettingNext(ts, ms);
    if ts != [] && ts[0].NameTok? && !HasName(ms, ts[0].name) && At(ts[1..], Equals) {
      GoodRest(ts, 2);
      ValueGood(ts[2..]);
      var r := ParseValue(ts[2..]);
      if r.Parsed? {
        MembersGrow(ms, ts[0].name, r.value);
        TerminatedGood(r.rest);
        SettingsGood(Terminated(r.rest), ms + [Member(Some(ts[0].name), r.value)]);
      }
    }
  }

  /**
    The tree read from any text is one that can be printed, in any layout and
    under any default format, and read back; under the usual default format it
    comes back as it was.
   */
  lemma ReadIsKept(text: string, st: Style)
    requires CString(text) && Scan(text).Scanned? && ParseConfig(Scan(text).ts).Some?
    ensures var root := ParseConfig(Scan(text).ts).value;
      && WellFormed(root) && root.Group?
      && var again := Scan(Show(root, 0, st));
         again.Scanned? && ParseConfig(again.ts) == Some(AsRead(root, st.default)) && (st.default == Default ==> AsRead(root, st.default) == root)
  {
    hide Scan, ParseSettings, AsRead, Show, Readable, Complete, WellFormed, Good, GoodMembers;
    ScanGood(text);
    EmptyGood();
    SettingsGood(Scan(text).ts, []);
    var root := ParseConfig(Scan(text).ts).value;
    GroupGood(root.members);
    PrintedIsRead(root, st);
    ReadSame(root);
  }
}
