/** The tokens of a printed setting tree, and the tree that the grammar's actions build from them. */
module ConfigTokens {
  import opened Options
  import opened ConfigTree
  import opened ConfigScanner
  import opened ConfigParser

  predicate IsScalar(v: Value) {
    v.Bool? || v.Int? || v.Int64? || v.Str?
  }

  /**
    A tree whose text can be read: every setting has a value, the settings of a group have
    names, no name is a reserved word, and an array holds scalars of one type.
   */
  predicate Readable(v: Value) {
    match v
    case Unset => false
    case Array(es) => ArrayReadable(es, 0)
    case List(es) => forall k {:trigger es[k]} :: 0 <= k < |es| ==> Readable(es[k])
    case Group(ms) => forall k {:trigger ms[k]} :: 0 <= k < |ms| ==> CanName(ms[k].name) && Readable(ms[k].value)
    case _ => true
  }

  predicate CanName(name: Option<string>) {
    name.Some? && !Reserved(name.value)
  }

  predicate ArrayReadable(es: seq<Value>, k: nat) {
    forall j {:trigger es[j]} :: k <= j < |es| ==> IsScalar(es[j]) && SameType(es[0], es[j])
  }

  predicate ListReadable(es: seq<Value>, k: nat) {
    forall j {:trigger es[j]} :: k <= j < |es| ==> Readable(es[j])
  }

  predicate MembersReadable(ms: seq<Member>, k: nat) {
    forall j {:trigger ms[j]} :: k <= j < |ms| ==> CanName(ms[j].name) && Readable(ms[j].value)
  }

  /** What is read back: formats are explicit, and a missing string is an empty one. */
  function AsRead(v: Value, d: Format): Value
    decreases v, 1
  {
    match v
    case Unset => Unset
    case Bool(b) => Bool(b)
    case Int(i, f) => Int(i, Effective(f, d))
    case Int64(i, f) => Int64(i, Effective(f, d))
    case Str(s) => Str(Some(if s.Some? then s.value else ""))
    case Array(_) => Array(ElemsRead(v, d))
    case List(_) => List(ElemsRead(v, d))
    case Group(_) => Group(MembersRead(v, d))
  }

  function ElemsRead(v: Value, d: Format): (r: seq<Value>)
    requires v.Array? || v.List?
    ensures |r| == |v.elems|
    decreases v, 0
  {
    seq(|v.elems|, k requires 0 <= k < |v.elems| => AsRead(v.elems[k], d))
  }

  function MembersRead(v: Value, d: Format): (r: seq<Member>)
    requires v.Group?
    ensures |r| == |v.members| && forall k {:trigger r[k]} :: 0 <= k < |r| ==> r[k].name == v.members[k].name
    decreases v, 0
  {
    seq(|v.members|, k requires 0 <= k < |v.members| => Member(v.members[k].name, AsRead(v.members[k].value, d)))
  }

  /** No string is missing. */
  predicate Complete(v: Value) {
    match v
    case Str(s) => s.Some?
    case Array(es) => forall k {:trigger es[k]} :: 0 <= k < |es| ==> Complete(es[k])
    case List(es) => forall k {:trigger es[k]} :: 0 <= k < |es| ==> Complete(es[k])
    case Group(ms) => forall k {:trigger ms[k]} :: 0 <= k < |ms| ==> Complete(ms[k].value)
    case _ => true
  }

  /** Under the default format, exactly the trees without missing strings are read back as they are. */
  lemma {:induction false} ReadSame(v: Value)
    ensures AsRead(v, Default) == v <==> Complete(v)
    decreases v
  {
    match v
    case Array(es) =>
      forall k | 0 <= k < |es| ensures AsRead(es[k], Default) == es[k] <==> Complete(es[k]) { ReadSame(es[k]); }
      assert ElemsRead(v, Default) == es <==> Complete(v);
    case List(es) =>
      forall k | 0 <= k < |es| ensures AsRead(es[k], Default) == es[k] <==> Complete(es[k]) { ReadSame(es[k]); }
      assert ElemsRead(v, Default) == es <==> Complete(v);
    case Group(ms) =>
      forall k | 0 <= k < |ms| ensures AsRead(ms[k].value, Default) == ms[k].value <==> Complete(ms[k].value) { ReadSame(ms[k].value); }
      assert MembersRead(v, Default) == ms <==> Complete(v);
    case _ =>
  }

  /** What was read is complete, and can be written and read once more. */
  lemma {:induction false} ReadAgain(v: Value, d: Format)
    requires WellFormed(v)
    ensures WellFormed(AsRead(v, d)) && Complete(AsRead(v, d)) && Readable(AsRead(v, d)) == Readable(v)
    decreases v
  {
    match v
    case Array(es) =>
      ElemsAgain(v, d);
    case List(es) =>
      ElemsAgain(v, d);
    case Group(ms) =>
      forall k | 0 <= k < |ms|
        ensures MembersRead(v, d)[k] == Member(ms[k].name, AsRead(ms[k].value, d))
        ensures WellFormed(AsRead(ms[k].value, d)) && Complete(AsRead(ms[k].value, d)) && Readable(AsRead(ms[k].value, d)) == Readable(ms[k].value)
      {
        ReadAgain(ms[k].value, d);
      }
    case _ =>
  }

  lemma {:induction false} ElemsAgain(v: Value, d: Format)
    requires WellFormed(v) && (v.Array? || v.List?)
    ensures WellFormed(AsRead(v, d)) && Complete(AsRead(v, d)) && Readable(AsRead(v, d)) == Readable(v)
    decreases v, 0
  {
    var es := v.elems;
    forall k | 0 <= k < |es|
      ensures ElemsRead(v, d)[k] == AsRead(es[k], d) && IsScalar(AsRead(es[k], d)) == IsScalar(es[k]) && SameType(AsRead(es[0], d), AsRead(es[k], d)) == SameType(es[0], es[k])
      ensures WellFormed(AsRead(es[k], d)) && Complete(AsRead(es[k], d)) && Readable(AsRead(es[k], d)) == Readable(es[k])
    {
      ReadAgain(es[k], d);
    }
  }

  function Tokens(v: Value, d: Format): (ts: seq<Token>)
    ensures ts != []
    decreases v, 1, 0
  {
    match v
    case Unset => [Garbage, Garbage, Garbage]
    case Bool(b) => [BoolTok(b)]
    case Int(i, f) => [if Effective(f, d) == Hex then HexTok(i) else IntTok(i)]
    case Int64(i, f) => [if Effective(f, d) == Hex then Hex64Tok(i) else Int64Tok(i)]
    case Str(s) => [StringTok(if s.Some? then s.value else "")]
    case Array(_) => [ArrayStart] + ElemTokens(v, 0, d) + [ArrayEnd]
    case List(_) => [ListStart] + ElemTokens(v, 0, d) + [ListEnd]
    case Group(_) => [GroupStart] + MemberTokens(v, 0, d) + [GroupEnd]
  }

  function ElemTokens(v: Value, k: nat, d: Format): seq<Token>
    requires (v.Array? || v.List?) && k <= |v.elems|
    decreases v, 0, |v.elems| - k
  {
    if k == |v.elems| then [] else
      Tokens(v.elems[k], d) + (if k + 1 < |v.elems| then [Comma] else []) + ElemTokens(v, k + 1, d)
  }

  function MemberTokens(v: Value, k: nat, d: Format): seq<Token>
    requires v.Group? && k <= |v.members|
    decreases v, 0, |v.members| - k
  {
    if k == |v.members| then [] else
      HeadTokens(v.members[k]) + Tokens(v.members[k].value, d) + [Semicolon] + MemberTokens(v, k + 1, d)
  }

  function HeadTokens(m: Member): seq<Token> {
    if m.name.Some? then [WordToken(m.name.value), Equals] else []
  }

  // ----- Parsing the tokens of a tree

  predicate Follows(rest: seq<Token>) {
    rest != [] && !rest[0].StringTok?
  }

  lemma SimpleTokens(v: Value, d: Format, rest: seq<Token>)
    requires Follows(rest)
    ensures ParseSimple(Tokens(v, d) + rest) == if IsScalar(v) then Parsed(AsRead(v, d), rest) else Error
  {
    var ts := Tokens(v, d) + rest;
    if IsScalar(v) {
      assert ts[1..] == rest;
    }
  }

  /** The tokens of the elements from k, with the closing bracket. */
  function ElemsFrom(v: Value, k: nat, d: Format, close: Token, rest: seq<Token>): seq<Token>
    requires (v.Array? || v.List?) && k <= |v.elems|
  {
    ElemTokens(v, k, d) + [close] + rest
  }

  /** What follows element k. */
  function AfterElem(v: Value, k: nat, d: Format, close: Token, rest: seq<Token>): (r: seq<Token>)
    requires (v.Array? || v.List?) && k < |v.elems|
    ensures r != [] && r[0] == (if k + 1 < |v.elems| then Comma else close)
    ensures r[1..] == if k + 1 < |v.elems| then ElemsFrom(v, k + 1, d, close, rest) else rest
  {
    if k + 1 < |v.elems| then [Comma] + ElemsFrom(v, k + 1, d, close, rest) else [close] + rest
  }

  lemma ElemsNext(v: Value, k: nat, d: Format, close: Token, rest: seq<Token>)
    requires (v.Array? || v.List?) && k < |v.elems|
    ensures ElemsFrom(v, k, d, close, rest) == Tokens(v.elems[k], d) + AfterElem(v, k, d, close, rest)
  {
    hide Tokens, ElemTokens;
    ElemTokensNext(v, k, d);
    var more := k + 1 < |v.elems|;
    Regroup(Tokens(v.elems[k], d), if more then [Comma] else [], ElemTokens(v, k + 1, d), [close], rest);
    assert [] + ([] + [close] + rest) == [close] + rest;
  }

  lemma ElemTokensNext(v: Value, k: nat, d: Format)
    requires (v.Array? || v.List?) && k < |v.elems|
    ensures ElemTokens(v, k, d) == Tokens(v.elems[k], d) + (if k + 1 < |v.elems| then [Comma] else []) + ElemTokens(v, k + 1, d)
    ensures k + 1 == |v.elems| ==> ElemTokens(v, k + 1, d) == []
  {
    hide Tokens;
  }

  lemma Regroup(t: seq<Token>, s: seq<Token>, e: seq<Token>, c: seq<Token>, r: seq<Token>)
    ensures t + s + e + c + r == t + (s + (e + c + r))
  {
    assert t + s + e + c + r == t + (s + (e + c + r));
  }

  lemma ReadNext(v: Value, k: nat, d: Format)
    requires (v.Array? || v.List?) && k < |v.elems|
    ensures ElemsRead(v, d)[..k] + [AsRead(v.elems[k], d)] == ElemsRead(v, d)[..k + 1]
    ensures k + 1 == |v.elems| ==> ElemsRead(v, d)[..k + 1] == ElemsRead(v, d)
    ensures ElemsRead(v, d)[..0] == [] && (0 < k ==> ElemsRead(v, d)[..k] != [] && ElemsRead(v, d)[..k][0] == AsRead(v.elems[0], d))
  {
    hide AsRead;
  }

  lemma SimplesNext(ts: seq<Token>, elems: seq<Value>)
    ensures var r := ParseSimple(ts);
      ParseSimples(ts, elems) ==
      if r.Error? || !Fits(elems, r.value) then Error
      else if At(r.rest, Comma) then ParseSimples(r.rest[1..], elems + [r.value])
      else if At(r.rest, ArrayEnd) then Parsed(Array(elems + [r.value]), r.rest[1..])
      else Error
  {
    hide ParseSimple, Fits;
  }

  lemma ValuesNext(ts: seq<Token>, elems: seq<Value>)
    ensures var r := ParseValue(ts);
      ParseValues(ts, elems) ==
      if r.Error? then Error
      else if At(r.rest, Comma) then ParseValues(r.rest[1..], elems + [r.value])
      else if At(r.rest, ListEnd) then Parsed(List(elems + [r.value]), r.rest[1..])
      else Error
  {
    hide ParseValue;
  }

  lemma SameTypeRead(a: Value, b: Value, d: Format)
    requires IsScalar(a) && IsScalar(b)
    ensures SameType(AsRead(a, d), AsRead(b, d)) == SameType(a, b)
  {
  }

  lemma ArrayReadableFrom(es: seq<Value>, k: nat)
    requires k < |es|
    ensures ArrayReadable(es, k) <==> IsScalar(es[k]) && SameType(es[0], es[k]) && ArrayReadable(es, k + 1)
    ensures k == 0 && IsScalar(es[0]) ==> SameType(es[0], es[0])
    ensures ArrayReadable(es, |es|)
  {
    hide IsScalar;
  }

  lemma ListReadableFrom(es: seq<Value>, k: nat)
    requires k < |es|
    ensures ListReadable(es, k) <==> Readable(es[k]) && ListReadable(es, k + 1)
    ensures ListReadable(es, |es|)
  {
    hide Readable;
  }

  /** When the elements before k are scalars of the first one's type. */
  lemma {:induction false} ArrayTokens(v: Value, k: nat, d: Format, rest: seq<Token>)
    requires v.Array? && k < |v.elems| && (k > 0 ==> IsScalar(v.elems[0]))
    ensures ParseSimples(ElemsFrom(v, k, d, ArrayEnd, rest), ElemsRead(v, d)[..k]) ==
            if ArrayReadable(v.elems, k) then Parsed(Array(ElemsRead(v, d)), rest) else Error
    decreases |v.elems| - k
  {
    hide ParseSimples, ParseSimple, ElemsFrom, AfterElem, AsRead, ElemsRead, ArrayReadable, Tokens, SameType, IsScalar;
    var e, tail := v.elems[k], AfterElem(v, k, d, ArrayEnd, rest);
    ElemsNext(v, k, d, ArrayEnd, rest);
    SimpleTokens(e, d, tail);
    SimplesNext(ElemsFrom(v, k, d, ArrayEnd, rest), ElemsRead(v, d)[..k]);
    ReadNext(v, k, d);
    ArrayReadableFrom(v.elems, k);
    if IsScalar(e) {
      if k > 0 {
        SameTypeRead(v.elems[0], e, d);
      }
      if k + 1 < |v.elems| {
        ArrayTokens(v, k + 1, d, rest);
      }
    }
  }

  lemma {:induction false} ParseTokens(v: Value, d: Format, rest: seq<Token>)
    requires WellFormed(v) && Follows(rest)
    ensures ParseValue(Tokens(v, d) + rest) == if Readable(v) then Parsed(AsRead(v, d), rest) else Error
    decreases v, 1, 0
  {
    hide ParseValue, ParseSimples, ParseValues, ParseSettings, ParseSimple, AsRead, ElemsRead, MembersRead, Tokens, Readable, ArrayReadable, ListReadable, MembersReadable, WellFormed;
    Bracketed(v, d, rest);
    Parts(v, d, rest);
    ValueNext(Tokens(v, d) + rest);
    if v.Array? {
      if v.elems != [] {
        ReadNext(v, 0, d);
        ArrayTokens(v, 0, d, rest);
      }
    } else if v.List? {
      if v.elems != [] {
        ReadNext(v, 0, d);
        ListTokens(v, 0, d, rest);
      }
    } else if v.Group? {
      GroupTokens(v, 0, d, [GroupEnd] + rest);
    } else {
      SimpleTokens(v, d, rest);
    }
  }

  /** How the tokens of a value begin. */
  lemma Bracketed(v: Value, d: Format, rest: seq<Token>)
    ensures var ts := Tokens(v, d) + rest;
      && (v.Array? ==> At(ts, ArrayStart) && ts[1..] == ElemsFrom(v, 0, d, ArrayEnd, rest) && At(ts[1..], ArrayEnd) == (v.elems == []) && (v.elems == [] ==> ts[2..] == rest))
      && (v.List? ==> At(ts, ListStart) && ts[1..] == ElemsFrom(v, 0, d, ListEnd, rest) && At(ts[1..], ListEnd) == (v.elems == []) && (v.elems == [] ==> ts[2..] == rest))
      && (v.Group? ==> At(ts, GroupStart) && ts[1..] == MemberTokens(v, 0, d) + ([GroupEnd] + rest))
      && (!v.Array? && !v.List? && !v.Group? ==> !At(ts, ArrayStart) && !At(ts, ListStart) && !At(ts, GroupStart))
  {
    hide ElemTokens, MemberTokens, ElemsFrom;
    match v
    case Array(_) => ElemsBracketed(v, d, ArrayStart, ArrayEnd, rest);
    case List(_) => ElemsBracketed(v, d, ListStart, ListEnd, rest);
    case Group(_) =>
      assert Tokens(v, d) + rest == [GroupStart] + (MemberTokens(v, 0, d) + ([GroupEnd] + rest));
    case _ =>
  }

  lemma ElemsBracketed(v: Value, d: Format, start: Token, close: Token, rest: seq<Token>)
    requires (v.Array? || v.List?) && (close == ArrayEnd || close == ListEnd)
    ensures var ts := [start] + ElemTokens(v, 0, d) + [close] + rest;
      At(ts, start) && ts[1..] == ElemsFrom(v, 0, d, close, rest) && At(ts[1..], close) == (v.elems == []) && (v.elems == [] ==> ts[2..] == rest)
  {
    hide Tokens, ElemTokens, AfterElem;
    var ts := [start] + ElemTokens(v, 0, d) + [close] + rest;
    assert ts == [start] + ElemsFrom(v, 0, d, close, rest);
    if v.elems == [] {
      NoElems(v, d);
      assert ElemsFrom(v, 0, d, close, rest) == [close] + rest;
      assert ts == [start, close] + rest;
    } else {
      FirstToken(v.elems[0], d);
      ElemsNext(v, 0, d, close, rest);
      StartsWith(Tokens(v.elems[0], d), AfterElem(v, 0, d, close, rest));
    }
  }

  lemma NoElems(v: Value, d: Format)
    requires (v.Array? || v.List?) && v.elems == []
    ensures ElemTokens(v, 0, d) == []
  {
  }

  /** What the readability and the reading of a value come to. */
  lemma Parts(v: Value, d: Format, rest: seq<Token>)
    ensures v.Array? ==> Readable(v) == ArrayReadable(v.elems, 0) && AsRead(v, d) == Array(ElemsRead(v, d)) && (v.elems == [] ==> AsRead(v, d) == Array([]) && ArrayReadable(v.elems, 0))
    ensures v.List? ==> Readable(v) == ListReadable(v.elems, 0) && AsRead(v, d) == List(ElemsRead(v, d)) && (v.elems == [] ==> AsRead(v, d) == List([]) && ListReadable(v.elems, 0))
    ensures v.Group? ==> Readable(v) == MembersReadable(v.members, 0) && AsRead(v, d) == Group(MembersRead(v, d)) && MembersRead(v, d)[..0] == []
    ensures !v.Array? && !v.List? && !v.Group? ==> Readable(v) == IsScalar(v)
    ensures ([GroupEnd] + rest)[1..] == rest && ([GroupEnd] + rest)[0] == GroupEnd
  {
  }

  lemma StartsWith(a: seq<Token>, b: seq<Token>)
    requires a != []
    ensures a + b != [] && (a + b)[0] == a[0]
  {
  }

  lemma FirstToken(v: Value, d: Format)
    ensures Tokens(v, d)[0] != ArrayEnd && Tokens(v, d)[0] != ListEnd && Tokens(v, d)[0] != GroupEnd && !Tokens(v, d)[0].NameTok?
  {
  }

  lemma {:induction false} ListTokens(v: Value, k: nat, d: Format, rest: seq<Token>)
    requires WellFormed(v) && v.List? && k < |v.elems|
    ensures ParseValues(ElemsFrom(v, k, d, ListEnd, rest), ElemsRead(v, d)[..k]) ==
            if ListReadable(v.elems, k) then Parsed(List(ElemsRead(v, d)), rest) else Error
    decreases v, 0, |v.elems| - k
  {
    hide ParseValues, ParseValue, ElemsFrom, AfterElem, AsRead, ElemsRead, Readable, ListReadable, Tokens, WellFormed;
    var tail := AfterElem(v, k, d, ListEnd, rest);
    ElemsNext(v, k, d, ListEnd, rest);
    ElemWellFormed(v, k);
    ParseTokens(v.elems[k], d, tail);
    ValuesNext(ElemsFrom(v, k, d, ListEnd, rest), ElemsRead(v, d)[..k]);
    ReadNext(v, k, d);
    ListReadableFrom(v.elems, k);
    if k + 1 < |v.elems| {
      ListTokens(v, k + 1, d, rest);
    }
  }

  /** Settings that cannot be read leave an error, or stop where neither a name nor the end of the group is. */
  ghost predicate Stuck(r: Parsed<seq<Member>>) {
    r.Error? || (r.rest != [] && !r.rest[0].NameTok? && r.rest[0] != GroupEnd)
  }

  lemma {:induction false} GroupTokens(v: Value, k: nat, d: Format, rest: seq<Token>)
    requires WellFormed(v) && v.Group? && k <= |v.members|
    requires rest == [] || rest[0] == GroupEnd
    ensures var r := ParseSettings(MemberTokens(v, k, d) + rest, MembersRead(v, d)[..k]);
      if MembersReadable(v.members, k) then r == Parsed(MembersRead(v, d), rest) else Stuck(r)
    decreases v, 0, |v.members| - k
  {
    hide ParseSettings, ParseValue, MemberTokens, AsRead, MembersRead, MembersReadable, Readable, Tokens, WellFormed, Reserved, HasName;
    var ts, ms := MemberTokens(v, k, d) + rest, MembersRead(v, d)[..k];
    SettingNext(ts, ms);
    if k == |v.members| {
      NoMembers(v, d, rest);
    } else {
      var m, tail := v.members[k], MemberTokens(v, k + 1, d) + rest;
      NextMember(v, k, d, rest);
      MemberWellFormed(v, k);
      NameIsNew(v, k, d);
      MembersReadableFrom(v.members, k);
      if CanName(m.name) {
        ParseTokens(m.value, d, [Semicolon] + tail);
        if Readable(m.value) {
          GroupTokens(v, k + 1, d, rest);
        }
      }
    }
  }

  lemma NoMembers(v: Value, d: Format, rest: seq<Token>)
    requires v.Group?
    ensures MemberTokens(v, |v.members|, d) + rest == rest && MembersRead(v, d)[..|v.members|] == MembersRead(v, d)
    ensures MembersReadable(v.members, |v.members|)
  {
    hide Readable, Reserved, AsRead;
  }

  lemma NextMember(v: Value, k: nat, d: Format, rest: seq<Token>)
    requires v.Group? && k < |v.members|
    ensures var ts, tail, m := MemberTokens(v, k, d) + rest, MemberTokens(v, k + 1, d) + rest, v.members[k];
      && ts != [] && Terminated([Semicolon] + tail) == tail
      && (CanName(m.name) ==> ts[0] == NameTok(m.name.value) && At(ts[1..], Equals) && ts[2..] == Tokens(m.value, d) + ([Semicolon] + tail))
      && (!CanName(m.name) ==> !ts[0].NameTok? && ts[0] != GroupEnd)
      && MembersRead(v, d)[..k] + [Member(m.name, AsRead(m.value, d))] == MembersRead(v, d)[..k + 1]
  {
    hide Tokens, AsRead, Spells;
    var tail, m := MemberTokens(v, k + 1, d) + rest, v.members[k];
    assert MemberTokens(v, k, d) + rest == HeadTokens(m) + (Tokens(m.value, d) + ([Semicolon] + tail));
    FirstToken(m.value, d);
    assert ([Semicolon] + tail)[1..] == tail;
  }

  lemma NameIsNew(v: Value, k: nat, d: Format)
    requires WellFormed(v) && v.Group? && k < |v.members|
    ensures v.members[k].name.Some? ==> !HasName(MembersRead(v, d)[..k], v.members[k].name.value)
  {
    hide AsRead;
  }

  lemma MembersReadableFrom(ms: seq<Member>, k: nat)
    requires k < |ms|
    ensures MembersReadable(ms, k) <==> CanName(ms[k].name) && Readable(ms[k].value) && MembersReadable(ms, k + 1)
  {
    hide Readable, Reserved;
  }
}
