/** The grammar of configuration texts, and the actions that build the setting tree. */
module ConfigParser {
  import opened Options
  import opened ConfigTree
  import opened ConfigScanner

  datatype Parsed<+T> = Parsed(value: T, rest: seq<Token>) | Error

  // ----- The grammar

  /** A scalar token other than a string, with the type and the format its action sets. */
  function Scalar(t: Token): Option<Value> {
    match t
    case BoolTok(b) => Some(Bool(b))
    case IntTok(i) => Some(Int(i, Default))
    case Int64Tok(i) => Some(Int64(i, Default))
    case HexTok(i) => Some(Int(i, Hex))
    case Hex64Tok(i) => Some(Int64(i, Hex))
    case _ => None
  }

  /** Adjacent strings are one string. */
  function Strings(ts: seq<Token>, s: string): (r: Parsed<Value>)
    ensures r.Parsed? && |r.rest| <= |ts|
  {
    if ts != [] && ts[0].StringTok? then Strings(ts[1..], s + ts[0].s) else Parsed(Str(Some(s)), ts)
  }

  function ParseSimple(ts: seq<Token>): (r: Parsed<Value>)
    ensures r.Parsed? ==> |r.rest| < |ts|
  {
    if ts == [] then Error
    else if ts[0].StringTok? then Strings(ts[1..], ts[0].s)
    else if Scalar(ts[0]).Some? then Parsed(Scalar(ts[0]).value, ts[1..])
    else Error
  }

  predicate SameType(a: Value, b: Value) {
    match a
    case Unset => b.Unset?
    case Bool(_) => b.Bool?
    case Int(_, _) => b.Int?
    case Int64(_, _) => b.Int64?
    case Str(_) => b.Str?
    case Array(_) => b.Array?
    case List(_) => b.List?
    case Group(_) => b.Group?
  }

  /** __config_vector_checktype, for an array. */
  predicate Fits(elems: seq<Value>, v: Value) {
    elems != [] ==> SameType(elems[0], v)
  }

  predicate HasName(ms: seq<Member>, name: string) {
    exists k {:trigger ms[k]} :: 0 <= k < |ms| && ms[k].name == Some(name)
  }

  predicate At(ts: seq<Token>, t: Token) {
    ts != [] && ts[0] == t
  }

  function ParseValue(ts: seq<Token>): (r: Parsed<Value>)
    ensures r.Parsed? ==> |r.rest| < |ts|
    decreases |ts|, 1
  {
    if At(ts, ArrayStart) then
      if At(ts[1..], ArrayEnd) then Parsed(Array([]), ts[2..]) else ParseSimples(ts[1..], [])
    else if At(ts, ListStart) then
      if At(ts[1..], ListEnd) then Parsed(List([]), ts[2..]) else ParseValues(ts[1..], [])
    else if At(ts, GroupStart) then
      var r := ParseSettings(ts[1..], []);
      if r.Parsed? && At(r.rest, GroupEnd) then Parsed(Group(r.value), r.rest[1..]) else Error
    else ParseSimple(ts)
  }

  /** The rest of an array after its first elements. */
  function ParseSimples(ts: seq<Token>, elems: seq<Value>): (r: Parsed<Value>)
    ensures r.Parsed? ==> |r.rest| < |ts|
    decreases |ts|, 0
  {
    var r := ParseSimple(ts);
    if r.Error? || !Fits(elems, r.value) then Error
    else if At(r.rest, Comma) then ParseSimples(r.rest[1..], elems + [r.value])
    else if At(r.rest, ArrayEnd) then Parsed(Array(elems + [r.value]), r.rest[1..])
    else Error
  }

  /** The rest of a list after its first elements. */
  function ParseValues(ts: seq<Token>, elems: seq<Value>): (r: Parsed<Value>)
    ensures r.Parsed? ==> |r.rest| < |ts|
    decreases |ts|, 2
  {
    var r := ParseValue(ts);
    if r.Error? then Error
    else if At(r.rest, Comma) then ParseValues(r.rest[1..], elems + [r.value])
    else if At(r.rest, ListEnd) then Parsed(List(elems + [r.value]), r.rest[1..])
    else Error
  }

  function Terminated(ts: seq<Token>): (r: seq<Token>)
    ensures |r| <= |ts|
  {
    if At(ts, Semicolon) || At(ts, Comma) then ts[1..] else ts
  }

  /** As many settings as there are, after the ones read before. */
  function ParseSettings(ts: seq<Token>, ms: seq<Member>): (r: Parsed<seq<Member>>)
    ensures r.Parsed? ==> |r.rest| <= |ts|
    decreases |ts|, 0
  {
    if ts == [] || !ts[0].NameTok? then Parsed(ms, ts)
    else if HasName(ms, ts[0].name) || !At(ts[1..], Equals) then Error
    else
      var r := ParseValue(ts[2..]);
      if r.Error? then Error else ParseSettings(Terminated(r.rest), ms + [Member(Some(ts[0].name), r.value)])
  }

  function ParseConfig(ts: seq<Token>): Option<Value> {
    var r := ParseSettings(ts, []);
    if r.Parsed? && r.rest == [] then Some(Group(r.value)) else None
  }

  // ----- The context of a parse

  /** A node with a child that has no value yet at its end. */
  predicate Waiting(node: Value) {
    match node
    case Group(ms) => ms != [] && ms[|ms| - 1].value.Unset?
    case List(es) => es != [] && es[|es| - 1].Unset?
    case _ => false
  }

  /** Gives the last child of a node its value. */
  function Filled(node: Value, v: Value): Value
    requires Waiting(node)
  {
    match node
    case Group(ms) => Group(ms[|ms| - 1 := Member(ms[|ms| - 1].name, v)])
    case List(es) => List(es[|es| - 1 := v])
  }

  /** The value goes to the setting that waits for one, or to the end of a list. */
  function Put(node: Value, v: Value): Value
    requires Takes(node)
  {
    if node.List? then List(node.elems + [v]) else Filled(node, v)
  }

  predicate Takes(node: Value) {
    node.List? || (node.Group? && Waiting(node))
  }

  /**
    ctx->parent is the last node of the path, and the nodes before it are its
    ancestors; each of them has the next one as its last child, which is
    without a value until that one is closed.  ctx->setting is the last child
    of ctx->parent.
   */
  class Context {
    var path: seq<Value>
    var rest: seq<Token>

    constructor (ts: seq<Token>)
      ensures path == [Group([])] && rest == ts
    {
      path, rest := [Group([])], ts;
    }

    function Top(): Value
      requires path != []
      reads `path
    {
      path[|path| - 1]
    }

    function Above(): seq<Value>
      requires path != []
      reads `path
    {
      path[..|path| - 1]
    }

    method SetTop(v: Value)
      requires path != []
      modifies `path
      ensures path != [] && Top() == v && Above() == old(Above())
    {
      path := path[|path| - 1 := v];
    }

    /** The action at a setting's name. */
    method AddSetting(name: string) returns (ok: bool)
      requires path != [] && Top().Group?
      modifies `path
      ensures path != [] && Above() == old(Above()) && ok == !HasName(old(Top()).members, name)
      ensures Top() == if ok then Group(old(Top()).members + [Member(Some(name), Unset)]) else old(Top())
    {
      var ms := Top().members;
      ok := true;
      var k := 0;
      while k < |ms|
        invariant k <= |ms| && ok && forall j {:trigger ms[j]} :: 0 <= j < k ==> ms[j].name != Some(name)
      {
        if ms[k].name == Some(name) {
          ok := false;
          return;
        }
        k := k + 1;
      }
      SetTop(Group(ms + [Member(Some(name), Unset)]));
    }

    /** The actions at an opening bracket: a new child of a list, or the setting that waits for its value. */
    method Open(node: Value)
      requires path != [] && Takes(Top())
      modifies `path
      ensures |path| == |old(path)| + 1 && Top() == node && Above()[..|Above()| - 1] == old(Above()) && Waiting(Above()[|Above()| - 1])
      ensures forall v {:trigger Filled(Above()[|Above()| - 1], v)} :: Filled(Above()[|Above()| - 1], v) == Put(old(Top()), v)
    {
      if Top().List? {
        SetTop(List(Top().elems + [Unset]));
      }
      path := path + [node];
    }

    /** The actions at a closing bracket. */
    method Close()
      requires |path| > 1 && Waiting(Above()[|Above()| - 1])
      modifies `path
      ensures |path| == |old(path)| - 1 && Above() == old(Above()[..|Above()| - 1]) && Top() == old(Filled(Above()[|Above()| - 1], Top()))
    {
      var node := Top();
      path := path[..|path| - 1];
      SetTop(Filled(Top(), node));
    }

    /** The actions at a scalar. */
    method PutScalar(v: Value) returns (ok: bool)
      requires path != [] && (Top().Array? || Takes(Top()))
      modifies `path
      ensures path != [] && Above() == old(Above()) && ok == (old(Top()).Array? ==> Fits(old(Top()).elems, v))
      ensures ok ==> Top() == if old(Top()).Array? then Array(old(Top()).elems + [v]) else Put(old(Top()), v)
    {
      ok := true;
      if Top().Array? {
        if |Top().elems| > 0 && !SameType(Top().elems[0], v) {
          ok := false;
          return;
        }
        SetTop(Array(Top().elems + [v]));
      } else {
        SetTop(Put(Top(), v));
      }
    }

    // ----- The rules

    /** simple_value, with the rules for string. */
    method SimpleValue() returns (ok: bool)
      requires path != [] && (Top().Array? || Takes(Top()))
      modifies `path, `rest
      ensures path != [] && Above() == old(Above()) && |rest| <= |old(rest)|
      ensures var r := ParseSimple(old(rest)); ok == (r.Parsed? && (old(Top()).Array? ==> Fits(old(Top()).elems, r.value)))
      ensures var r := ParseSimple(old(rest)); ok ==> rest == r.rest && Top() == if old(Top()).Array? then Array(old(Top()).elems + [r.value]) else Put(old(Top()), r.value)
    {
      if rest == [] {
        return false;
      }
      if rest[0].StringTok? {
        var s := rest[0].s;
        rest := rest[1..];
        while rest != [] && rest[0].StringTok?
          invariant path == old(path) && |rest| <= |old(rest)| && ParseSimple(old(rest)) == Strings(rest, s)
          decreases |rest|
        {
          s, rest := s + rest[0].s, rest[1..];
        }
        ok := PutScalar(Str(Some(s)));
      } else if Scalar(rest[0]).Some? {
        var t := rest[0];
        rest := rest[1..];
        ok := PutScalar(Scalar(t).value);
      } else {
        ok := false;
      }
    }

    /** value, with the rules for array, list and group. */
    method Value() returns (ok: bool)
      requires path != [] && Takes(Top())
      modifies `path, `rest
      ensures |rest| <= |old(rest)| && ok == ParseValue(old(rest)).Parsed?
      ensures ok ==> path != [] && Above() == old(Above()) && rest == ParseValue(old(rest)).rest && Top() == Put(old(Top()), ParseValue(old(rest)).value)
      decreases |rest|, 1
    {
      hide ParseValue, ParseSimples, ParseValues, ParseSettings, ParseSimple, Put, Filled, Waiting;
      ValueNext(rest);
      if At(rest, ArrayStart) {
        Open(Array([]));
        rest := rest[1..];
        ok := ArrayBody();
      } else if At(rest, ListStart) {
        Open(List([]));
        rest := rest[1..];
        ok := ListBody();
      } else if At(rest, GroupStart) {
        Open(Group([]));
        rest := rest[1..];
        ok := Settings();
        ok := ok && At(rest, GroupEnd);
      } else {
        ok := SimpleValue();
        return;
      }
      if ok {
        rest := rest[1..];
        Close();
      }
    }

    /** What is left of an array, up to its closing bracket. */
    method ArrayBody() returns (ok: bool)
      requires path != [] && Top() == Array([])
      modifies `path, `rest
      ensures |rest| <= |old(rest)| && (ok ==> path != [] && Above() == old(Above()))
      ensures ok == (At(old(rest), ArrayEnd) || ParseSimples(old(rest), []).Parsed?)
      ensures ok ==> At(rest, ArrayEnd) && Top().Array?
      ensures ok ==> if At(old(rest), ArrayEnd) then rest == old(rest) && Top().elems == [] else ParseSimples(old(rest), []) == Parsed(Top(), rest[1..])
    {
      if At(rest, ArrayEnd) {
        return true;
      }
      ok := SimpleValue();
      while ok && At(rest, Comma)
        invariant |rest| <= |old(rest)| && (ok ==> path != [] && Above() == old(Above()))
        invariant !ok ==> ParseSimples(old(rest), []).Error?
        invariant ok ==> Top().Array? && ParseSimples(old(rest), []) == AfterSimple(rest, Top().elems)
        decreases |rest|, ok
      {
        rest := rest[1..];
        ok := SimpleValue();
      }
      ok := ok && At(rest, ArrayEnd);
    }

    /** What is left of a list, up to its closing bracket. */
    method ListBody() returns (ok: bool)
      requires path != [] && Top() == List([])
      modifies `path, `rest
      ensures |rest| <= |old(rest)| && (ok ==> path != [] && Above() == old(Above()))
      ensures ok == (At(old(rest), ListEnd) || ParseValues(old(rest), []).Parsed?)
      ensures ok ==> At(rest, ListEnd) && Top().List?
      ensures ok ==> if At(old(rest), ListEnd) then rest == old(rest) && Top().elems == [] else ParseValues(old(rest), []) == Parsed(Top(), rest[1..])
      decreases |rest|, 2
    {
      if At(rest, ListEnd) {
        return true;
      }
      ok := Value();
      while ok && At(rest, Comma)
        invariant |rest| <= |old(rest)| && (ok ==> path != [] && Above() == old(Above()))
        invariant !ok ==> ParseValues(old(rest), []).Error?
        invariant ok ==> |rest| < |old(rest)| && Top().List? && ParseValues(old(rest), []) == AfterValue(rest, Top().elems)
        decreases |rest|, ok
      {
        rest := rest[1..];
        ok := Value();
      }
      ok := ok && At(rest, ListEnd);
    }

    /** setting_list, or nothing. */
    method Settings() returns (ok: bool)
      requires path != [] && Top().Group?
      modifies `path, `rest
      ensures |rest| <= |old(rest)| && (ok ==> path != [] && Above() == old(Above()))
      ensures ok == ParseSettings(old(rest), old(Top()).members).Parsed?
      ensures ok ==> Parsed(Top(), rest) == Parsed(Group(ParseSettings(old(rest), old(Top()).members).value), ParseSettings(old(rest), old(Top()).members).rest)
      decreases |rest|, 0
    {
      hide ParseValue, ParseSettings, HasName;
      while rest != [] && rest[0].NameTok?
        invariant path != [] && Above() == old(Above()) && Top().Group? && |rest| <= |old(rest)|
        invariant ParseSettings(old(rest), old(Top()).members) == ParseSettings(rest, Top().members)
        decreases |rest|
      {
        var name := rest[0].name;
        ghost var ms, after := Top().members, ParseValue(if |rest| > 1 then rest[2..] else []);
        SettingNext(rest, Top().members);
        ok := AddSetting(name);
        if !ok || !At(rest[1..], Equals) {
          return false;
        }
        rest := rest[2..];
        ok := Value();
        if !ok {
          return false;
        }
        PutNew(ms, name, after.value);
        if At(rest, Semicolon) || At(rest, Comma) {
          rest := rest[1..];
        }
      }
      ok := true;
      SettingNext(rest, Top().members);
    }

    /** configuration. */
    method Configuration() returns (root: Option<Value>)
      requires path == [Group([])]
      modifies `path, `rest
      ensures root == ParseConfig(old(rest))
    {
      var ok := Settings();
      root := if ok && rest == [] then Some(Top()) else None;
    }
  }

  lemma PutNew(ms: seq<Member>, name: string, v: Value)
    ensures Takes(Group(ms + [Member(Some(name), Unset)]))
    ensures Put(Group(ms + [Member(Some(name), Unset)]), v) == Group(ms + [Member(Some(name), v)])
  {
    var now := ms + [Member(Some(name), Unset)];
    assert now[|now| - 1 := Member(Some(name), v)] == ms + [Member(Some(name), v)];
  }

  lemma ValueNext(ts: seq<Token>)
    ensures At(ts, ArrayStart) ==> ParseValue(ts) == if At(ts[1..], ArrayEnd) then Parsed(Array([]), ts[2..]) else ParseSimples(ts[1..], [])
    ensures At(ts, ListStart) ==> ParseValue(ts) == if At(ts[1..], ListEnd) then Parsed(List([]), ts[2..]) else ParseValues(ts[1..], [])
    ensures At(ts, GroupStart) ==>
      var r := ParseSettings(ts[1..], []);
      ParseValue(ts) == if r.Parsed? && At(r.rest, GroupEnd) then Parsed(Group(r.value), r.rest[1..]) else Error
    ensures !At(ts, ArrayStart) && !At(ts, ListStart) && !At(ts, GroupStart) ==> ParseValue(ts) == ParseSimple(ts)
  {
    hide ParseSimples, ParseValues, ParseSettings, ParseSimple;
  }

  lemma SettingNext(ts: seq<Token>, ms: seq<Member>)
    ensures ts == [] || !ts[0].NameTok? ==> ParseSettings(ts, ms) == Parsed(ms, ts)
    ensures ts != [] && ts[0].NameTok? ==>
      ParseSettings(ts, ms) ==
      if HasName(ms, ts[0].name) || !At(ts[1..], Equals) || ParseValue(ts[2..]).Error? then Error
      else ParseSettings(Terminated(ParseValue(ts[2..]).rest), ms + [Member(Some(ts[0].name), ParseValue(ts[2..]).value)])
  {
    hide ParseValue;
  }

  function AfterSimple(ts: seq<Token>, elems: seq<Value>): Parsed<Value> {
    if At(ts, Comma) then ParseSimples(ts[1..], elems)
    else if At(ts, ArrayEnd) then Parsed(Array(elems), ts[1..])
    else Error
  }

  function AfterValue(ts: seq<Token>, elems: seq<Value>): Parsed<Value> {
    if At(ts, Comma) then ParseValues(ts[1..], elems)
    else if At(ts, ListEnd) then Parsed(List(elems), ts[1..])
    else Error
  }
}
