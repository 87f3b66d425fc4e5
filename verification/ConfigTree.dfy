/** Setting trees and the text that config_write prints for them. */
module ConfigTree {
  import opened Options

  datatype Format = Default | Hex

  /** A setting's value; a setting of type NONE has not been given one. */
  datatype Value =
    | Unset
    | Bool(b: bool)
    | Int(i: int, format: Format)
    | Int64(i: int, format: Format)
    | Str(s: Option<string>)
    | Array(elems: seq<Value>)
    | List(elems: seq<Value>)
    | Group(members: seq<Member>)

  /** A setting of a group; one that was added without a name has none. */
  datatype Member = Member(name: Option<string>, value: Value)

  // ----- Characters and numbers

  predicate IsDigit(c: char) {
    '0' <= c <= '9'
  }

  predicate IsHexDigit(c: char) {
    IsDigit(c) || 'A' <= c <= 'F' || 'a' <= c <= 'f'
  }

  predicate IsAlpha(c: char) {
    'A' <= c <= 'Z' || 'a' <= c <= 'z'
  }

  predicate IsNameStart(c: char) {
    IsAlpha(c) || c == '*'
  }

  predicate IsNameChar(c: char) {
    IsNameStart(c) || IsDigit(c) || c == '_' || c == '-'
  }

  function DigitChar(d: nat): char
    requires d < 16
  {
    if d < 10 then '0' + d as char else 'A' + (d - 10) as char
  }

  function DigitValue(c: char): (d: nat)
    requires IsHexDigit(c)
    ensures d < 16
  {
    if IsDigit(c) then (c - '0') as nat else if c <= 'F' then (c - 'A') as nat + 10 else (c - 'a') as nat + 10
  }

  function Digits(n: nat, base: nat): string
    requires 2 <= base <= 16
  {
    if n < base then [DigitChar(n)] else Digits(n / base, base) + [DigitChar(n % base)]
  }

  /** The number a text of digits spells, most significant digit first. */
  function Spelled(s: string, base: nat): nat
    requires forall k :: 0 <= k < |s| ==> IsHexDigit(s[k])
  {
    if s == "" then 0 else Spelled(s[..|s| - 1], base) * base + DigitValue(s[|s| - 1])
  }

  lemma {:induction false} DigitsSpell(n: nat, base: nat)
    requires base == 10 || base == 16
    ensures Digits(n, base) != "" && (forall k {:trigger Digits(n, base)[k]} :: 0 <= k < |Digits(n, base)| ==> IsHexDigit(Digits(n, base)[k]) && (base == 10 ==> IsDigit(Digits(n, base)[k])))
    ensures Spelled(Digits(n, base), base) == n
  {
    if n < base {
      assert Digits(n, base)[..0] == "";
    } else {
      DigitsSpell(n / base, base);
      var d := Digits(n, base);
      assert d[..|d| - 1] == Digits(n / base, base);
    }
  }

  function Decimal(i: int): string {
    if i < 0 then "-" + Digits(-i, 10) else Digits(i, 10)
  }

  const TWO31: int := 0x8000_0000
  const TWO63: int := 0x8000_0000_0000_0000

  /** What %X prints of a signed word of twice `half` values. */
  function Unsigned(i: int, half: int): nat
    requires -half <= i < half
  {
    if i < 0 then i + 2 * half else i
  }

  // ----- Trees that the library can hold

  /** __config_validate_name. */
  predicate ValidName(name: string) {
    name != "" && IsNameStart(name[0]) && forall k {:trigger name[k]} :: 0 <= k < |name| ==> IsNameChar(name[k])
  }

  predicate MayName(name: Option<string>) {
    name.Some? ==> ValidName(name.value)
  }

  /** config_setting_add compares with the settings that have a name. */
  predicate DistinctNames(ms: seq<Member>) {
    forall j, k {:trigger ms[j], ms[k]} :: 0 <= j < k < |ms| && ms[j].name.Some? ==> ms[j].name != ms[k].name
  }

  /** A C string of bytes. */
  predicate CString(s: string) {
    forall k {:trigger s[k]} :: 0 <= k < |s| ==> 0 < s[k] as int < 256
  }

  predicate WellFormed(v: Value) {
    match v
    case Unset => true
    case Bool(_) => true
    case Int(i, _) => -TWO31 <= i < TWO31
    case Int64(i, _) => -TWO63 <= i < TWO63
    case Str(s) => s.Some? ==> CString(s.value)
    case Array(elems) => forall k {:trigger elems[k]} :: 0 <= k < |elems| ==> WellFormed(elems[k])
    case List(elems) => forall k {:trigger elems[k]} :: 0 <= k < |elems| ==> WellFormed(elems[k])
    case Group(members) => DistinctNames(members) && forall k {:trigger members[k]} :: 0 <= k < |members| ==> MayName(members[k].name) && WellFormed(members[k].value)
  }

  // ----- The printed text

  /** config_setting_get_format. */
  function Effective(f: Format, default: Format): Format {
    if f == Default then default else f
  }

  function Repeat(c: char, n: nat): (s: string)
    ensures |s| == n && forall k {:trigger s[k]} :: 0 <= k < n ==> s[k] == c
  {
    seq(n, _ => c)
  }

  function Indent(depth: nat, width: nat): string
    requires depth > 1
  {
    if width > 0 then Repeat(' ', (depth - 1) * width) else Repeat('\t', depth - 1)
  }

  function EscapeChar(c: char): string {
    if c == '"' || c == '\\' then ['\\', c]
    else if c == '\n' then "\\n"
    else if c == '\r' then "\\r"
    else if c as int == 12 then "\\f"
    else if c == '\t' then "\\t"
    else if c >= ' ' then [c]
    else ['\\', 'x', DigitChar(c as int / 16), DigitChar(c as int % 16)]
  }

  function Escape(s: string): string {
    if s == "" then "" else EscapeChar(s[0]) + Escape(s[1..])
  }

  /** How numbers and nested groups are laid out. */
  datatype Style = Style(width: nat, default: Format)

  function ShowScalar(v: Value, st: Style): string
    requires WellFormed(v)
  {
    match v
    case Unset => "???"
    case Bool(b) => if b then "true" else "false"
    case Int(i, f) => if Effective(f, st.default) == Hex then "0x" + Digits(Unsigned(i, TWO31), 16) else Decimal(i)
    case Int64(i, f) => (if Effective(f, st.default) == Hex then "0x" + Digits(Unsigned(i, TWO63), 16) else Decimal(i)) + "L"
    case Str(s) => "\"" + (if s.Some? then Escape(s.value) else "") + "\""
    case _ => ""
  }

  function Show(v: Value, depth: nat, st: Style): string
    requires WellFormed(v)
    decreases v, 1, 0
  {
    match v
    case Array(_) => "[ " + ShowElems(v, 0, depth, st) + "]"
    case List(_) => "( " + ShowElems(v, 0, depth, st) + ")"
    case Group(_) => Opening(depth, st) + ShowMembers(v, 0, depth, st) + Closing(depth, st)
    case _ => ShowScalar(v, st)
  }

  function Opening(depth: nat, st: Style): string {
    if depth == 0 then "" else "\n" + (if depth > 1 then Indent(depth, st.width) else "") + "{\n"
  }

  function Closing(depth: nat, st: Style): string {
    if depth == 0 then "" else (if depth > 1 then Indent(depth, st.width) else "") + "}"
  }

  function ShowElems(v: Value, k: nat, depth: nat, st: Style): string
    requires WellFormed(v) && (v.Array? || v.List?) && k <= |v.elems|
    decreases v, 0, |v.elems| - k
  {
    if k == |v.elems| then "" else
      Show(v.elems[k], depth + 1, st) + (if k + 1 < |v.elems| then ", " else " ") + ShowElems(v, k + 1, depth, st)
  }

  function ShowMembers(v: Value, k: nat, depth: nat, st: Style): string
    requires WellFormed(v) && v.Group? && k <= |v.members|
    decreases v, 0, |v.members| - k
  {
    if k == |v.members| then "" else
      ShowMember(v, k, depth + 1, st) + ShowMembers(v, k + 1, depth, st)
  }

  /** __config_write_setting. */
  function ShowMember(v: Value, k: nat, depth: nat, st: Style): string
    requires WellFormed(v) && v.Group? && k < |v.members| && depth > 0
    decreases v, 0, 0
  {
    Heading(v.members[k], depth, st) + Show(v.members[k].value, depth, st) + ";\n"
  }

  function Heading(m: Member, depth: nat, st: Style): string {
    (if depth > 1 then Indent(depth, st.width) else "") + Label(m)
  }

  function Label(m: Member): string {
    if m.name.Some? then m.name.value + (if m.value.Group? then " : " else " = ") else ""
  }

  // ----- Stepping through elements and settings

  lemma EscapeNext(s: string, k: nat, a: string)
    requires k < |s|
    ensures a + EscapeChar(s[k]) + Escape(s[k + 1..]) == a + Escape(s[k..])
  {
    hide EscapeChar;
    assert s[k..][1..] == s[k + 1..];
  }

  lemma EscapeNone(s: string)
    ensures Escape(s[|s|..]) == ""
  {
  }

  lemma ElemWellFormed(v: Value, k: nat)
    requires WellFormed(v) && (v.Array? || v.List?) && k < |v.elems|
    ensures WellFormed(v.elems[k])
  {
  }

  lemma ElemsStep(v: Value, k: nat, depth: nat, st: Style, a: string, b: string)
    requires WellFormed(v) && (v.Array? || v.List?) && k < |v.elems| && WellFormed(v.elems[k])
    requires b == a + Show(v.elems[k], depth + 1, st) + (if k + 1 < |v.elems| then ", " else " ")
    ensures b + ShowElems(v, k + 1, depth, st) == a + ShowElems(v, k, depth, st)
  {
    hide Show, WellFormed;
  }

  lemma ElemsNone(v: Value, depth: nat, st: Style)
    requires WellFormed(v) && (v.Array? || v.List?)
    ensures ShowElems(v, |v.elems|, depth, st) == ""
  {
  }

  lemma MemberWellFormed(v: Value, k: nat)
    requires WellFormed(v) && v.Group? && k < |v.members|
    ensures MayName(v.members[k].name) && WellFormed(v.members[k].value)
    ensures forall depth: nat, st {:trigger ShowMember(v, k, depth, st)} :: depth > 0 ==>
      ShowMember(v, k, depth, st) == Heading(v.members[k], depth, st) + Show(v.members[k].value, depth, st) + ";\n"
  {
  }

  lemma MembersStep(v: Value, k: nat, depth: nat, st: Style, a: string, b: string)
    requires WellFormed(v) && v.Group? && k < |v.members| && b == a + ShowMember(v, k, depth + 1, st)
    ensures b + ShowMembers(v, k + 1, depth, st) == a + ShowMembers(v, k, depth, st)
  {
    hide ShowMember, WellFormed;
  }

  lemma MembersNone(v: Value, depth: nat, st: Style)
    requires WellFormed(v) && v.Group?
    ensures ShowMembers(v, |v.members|, depth, st) == ""
  {
  }

  // ----- The writer

  class Writer {
    const tabWidth: nat
    const defaultFormat: Format
    var stream: string

    constructor (tabWidth: nat, defaultFormat: Format)
      ensures this.tabWidth == tabWidth && this.defaultFormat == defaultFormat && stream == ""
    {
      this.tabWidth, this.defaultFormat, stream := tabWidth, defaultFormat, "";
    }

    function St(): Style {
      Style(tabWidth, defaultFormat)
    }

    /** __config_indent. */
    method WriteIndent(depth: nat)
      requires depth > 1
      modifies this`stream
      ensures stream == old(stream) + Indent(depth, tabWidth)
    {
      if tabWidth > 0 {
        stream := stream + Repeat(' ', (depth - 1) * tabWidth);
      } else {
        var i := 0;
        while i < depth - 1
          invariant i <= depth - 1 && stream == old(stream) + Repeat('\t', i)
        {
          stream := stream + "\t";
          i := i + 1;
        }
      }
    }

    method WriteString(s: string)
      modifies this`stream
      ensures stream == old(stream) + "\"" + Escape(s) + "\""
    {
      hide Escape, EscapeChar;
      stream := stream + "\"";
      var k := 0;
      assert s[0..] == s;
      while k < |s|
        invariant k <= |s| && stream + Escape(s[k..]) == old(stream) + "\"" + Escape(s)
      {
        EscapeNext(s, k, stream);
        stream := stream + EscapeChar(s[k]);
        k := k + 1;
      }
      EscapeNone(s);
      stream := stream + "\"";
    }

    /** __config_write_value. */
    method WriteValue(v: Value, depth: nat)
      requires WellFormed(v)
      modifies this`stream
      ensures stream == old(stream) + Show(v, depth, St())
      decreases v, 1, 0
    {
      hide WellFormed, ShowScalar, ShowElems, ShowMembers, Opening, Closing;
      match v {
        case Array(_) =>
          stream := stream + "[ ";
          WriteElems(v, depth);
          stream := stream + "]";
        case List(_) =>
          stream := stream + "( ";
          WriteElems(v, depth);
          stream := stream + ")";
        case Group(_) => WriteGroup(v, depth);
        case _ => WriteScalar(v);
      }
    }

    method WriteScalar(v: Value)
      requires WellFormed(v) && !v.Array? && !v.List? && !v.Group?
      modifies this`stream
      ensures stream == old(stream) + ShowScalar(v, St())
    {
      hide Escape, Digits, Decimal;
      match v {
        case Unset => stream := stream + "???";
        case Bool(b) => stream := stream + (if b then "true" else "false");
        case Int(i, f) =>
          stream := stream + (if Effective(f, defaultFormat) == Hex then "0x" + Digits(Unsigned(i, TWO31), 16) else Decimal(i));
        case Int64(i, f) =>
          stream := stream + ((if Effective(f, defaultFormat) == Hex then "0x" + Digits(Unsigned(i, TWO63), 16) else Decimal(i)) + "L");
        case Str(s) =>
          if s.Some? {
            WriteString(s.value);
          } else {
            stream := stream + "\"\"";
          }
      }
    }

    method WriteGroup(v: Value, depth: nat)
      requires WellFormed(v) && v.Group?
      modifies this`stream
      ensures stream == old(stream) + (Opening(depth, St()) + ShowMembers(v, 0, depth, St()) + Closing(depth, St()))
      decreases v, 0, 2
    {
      hide WellFormed, ShowMembers, Opening, Closing;
      WriteOpening(depth);
      WriteMembers(v, depth);
      WriteClosing(depth);
    }

    method WriteOpening(depth: nat)
      modifies this`stream
      ensures stream == old(stream) + Opening(depth, St())
    {
      if depth > 0 {
        stream := stream + "\n";
        if depth > 1 {
          WriteIndent(depth);
        }
        stream := stream + "{\n";
      }
    }

    method WriteClosing(depth: nat)
      modifies this`stream
      ensures stream == old(stream) + Closing(depth, St())
    {
      if depth > 1 {
        WriteIndent(depth);
      }
      if depth > 0 {
        stream := stream + "}";
      }
    }

    method WriteMembers(v: Value, depth: nat)
      requires WellFormed(v) && v.Group?
      modifies this`stream
      ensures stream == old(stream) + ShowMembers(v, 0, depth, St())
      decreases v, 0, 1
    {
      hide WellFormed, ShowMembers, ShowMember;
      var k := 0;
      while k < |v.members|
        invariant k <= |v.members| && stream + ShowMembers(v, k, depth, St()) == old(stream) + ShowMembers(v, 0, depth, St())
      {
        ghost var before := stream;
        WriteSetting(v, k, depth + 1);
        MembersStep(v, k, depth, St(), before, stream);
        k := k + 1;
      }
      MembersNone(v, depth, St());
    }

    method WriteElems(v: Value, depth: nat)
      requires WellFormed(v) && (v.Array? || v.List?)
      modifies this`stream
      ensures stream == old(stream) + ShowElems(v, 0, depth, St())
      decreases v, 0, 1
    {
      hide WellFormed, Show, ShowElems;
      var k := 0;
      while k < |v.elems|
        invariant k <= |v.elems| && stream + ShowElems(v, k, depth, St()) == old(stream) + ShowElems(v, 0, depth, St())
      {
        ghost var before := stream;
        ElemWellFormed(v, k);
        WriteValue(v.elems[k], depth + 1);
        if k + 1 < |v.elems| {
          stream := stream + ",";
        }
        stream := stream + " ";
        ElemsStep(v, k, depth, St(), before, stream);
        k := k + 1;
      }
      ElemsNone(v, depth, St());
    }

    /** __config_write_setting, for the k-th setting of a group. */
    method WriteSetting(v: Value, k: nat, depth: nat)
      requires WellFormed(v) && v.Group? && k < |v.members| && depth > 0
      modifies this`stream
      ensures stream == old(stream) + ShowMember(v, k, depth, St())
      decreases v, 0, 0
    {
      hide WellFormed, Show, ShowMember, Indent;
      var m := v.members[k];
      MemberWellFormed(v, k);
      if depth > 1 {
        WriteIndent(depth);
      }
      if m.name.Some? {
        stream := stream + m.name.value;
        stream := stream + (if m.value.Group? then " : " else " = ");
      }
      ghost var headed := stream;
      assert headed == old(stream) + Heading(m, depth, St());
      WriteValue(m.value, depth);
      stream := stream + ";";
      stream := stream + "\n";
      assert stream == headed + Show(m.value, depth, St()) + ";\n";
    }

    /** config_write. */
    method Write(root: Value)
      requires WellFormed(root) && root.Group?
      modifies this`stream
      ensures stream == old(stream) + Show(root, 0, St())
    {
      WriteValue(root, 0);
    }
  }
}
