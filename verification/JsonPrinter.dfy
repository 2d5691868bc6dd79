/** The text `json_object_to_json_string` produces. */
module JsonPrinter {
  import opened JsonValue
  import opened Decimal

  function HexChar(d: nat): char
    requires d < 16
  {
    "0123456789abcdef"[d]
  }

  function EscapeChar(c: char): string {
    if c == 8 as char then "\\b"
    else if c == '\n' then "\\n"
    else if c == '\r' then "\\r"
    else if c == '\t' then "\\t"
    else if c == '"' then "\\\""
    else if c == '\\' then "\\\\"
    else if c == '/' then "\\/"
    else if c < ' ' then "\\u00" + [HexChar(c as int / 16), HexChar(c as int % 16)]
    else [c]
  }

  function Escape(s: string): string {
    if s == "" then "" else EscapeChar(s[0]) + Escape(s[1..])
  }

  function Quoted(s: string): string {
    "\"" + Escape(s) + "\""
  }

  function Separator(first: bool): string {
    if first then " " else ", "
  }

  /** The text of a value; a double stands there with its own text. */
  function Print(v: Json): string
    decreases v, 1
  {
    match v
    case Null => "null"
    case Bool(b) => if b then "true" else "false"
    case Int(n) => PrintInt(n)
    case Double(text) => text
    case Str(s) => Quoted(s)
    case Arr(items) => "[" + PrintItems(items, true) + " ]"
    case Obj(members) => "{" + PrintMembers(members, true) + " }"
  }

  function PrintItems(items: seq<Json>, first: bool): string
    decreases items, 0
  {
    if items == [] then ""
    else Separator(first) + Print(items[0]) + PrintItems(items[1..], false)
  }

  function PrintMembers(members: seq<Member>, first: bool): string
    decreases members, 0
  {
    if members == [] then ""
    else Separator(first) + Quoted(members[0].key) + ": " + Print(members[0].value) + PrintMembers(members[1..], false)
  }

  // ----- doubles

  /** The value with every double written anew: `fmt` gives for the text of a double what `sprintf`
      with `%lf` makes of its value. */
  function Formatted(v: Json, fmt: string -> string): Json
    decreases v, 1
  {
    match v
    case Double(text) => Double(fmt(text))
    case Arr(items) => Arr(FormattedItems(items, fmt))
    case Obj(members) => Obj(FormattedMembers(members, fmt))
    case _ => v
  }

  function FormattedItems(items: seq<Json>, fmt: string -> string): (r: seq<Json>)
    ensures |r| == |items|
    ensures forall i :: 0 <= i < |items| ==> r[i] == Formatted(items[i], fmt)
    decreases items, 0
  {
    if items == [] then [] else [Formatted(items[0], fmt)] + FormattedItems(items[1..], fmt)
  }

  function FormattedMembers(members: seq<Member>, fmt: string -> string): (r: seq<Member>)
    ensures |r| == |members|
    ensures forall i :: 0 <= i < |members| ==> r[i] == Member(members[i].key, Formatted(members[i].value, fmt))
    decreases members, 0
  {
    if members == [] then []
    else [Member(members[0].key, Formatted(members[0].value, fmt))] + FormattedMembers(members[1..], fmt)
  }

  /** Formatting changes nothing but the texts of doubles. */
  lemma {:induction false} FormattedFits(v: Json, fmt: string -> string)
    ensures Height(Formatted(v, fmt)) == Height(v)
    ensures Representable(Formatted(v, fmt)) <==> Representable(v)
    decreases v, 1
  {
    match v
    case Arr(items) => FormattedItemsFit(items, fmt);
    case Obj(members) => FormattedMembersFit(members, fmt);
    case _ =>
  }

  lemma {:induction false} FormattedItemsFit(items: seq<Json>, fmt: string -> string)
    ensures var r := FormattedItems(items, fmt);
      && ItemsHeight(r) == ItemsHeight(items)
      && ((forall x :: x in r ==> Representable(x)) <==> forall x :: x in items ==> Representable(x))
    decreases items, 0
  {
    if items != [] {
      FormattedFits(items[0], fmt);
      FormattedItemsFit(items[1..], fmt);
      var r, rest := FormattedItems(items, fmt), FormattedItems(items[1..], fmt);
      assert r[1..] == rest && items == [items[0]] + items[1..] && r == [r[0]] + rest;
    }
  }

  lemma {:induction false} FormattedMembersFit(members: seq<Member>, fmt: string -> string)
    ensures var r := FormattedMembers(members, fmt);
      && MembersHeight(r) == MembersHeight(members) && (DistinctKeys(r) <==> DistinctKeys(members))
      && ((forall m :: m in r ==> NulFree(m.key) && Representable(m.value)) <==>
          forall m :: m in members ==> NulFree(m.key) && Representable(m.value))
    decreases members, 1
  {
    var r := FormattedMembers(members, fmt);
    forall i | 0 <= i < |members|
      ensures NulFree(r[i].key) && Representable(r[i].value) <==>
        NulFree(members[i].key) && Representable(members[i].value)
    {
      FormattedFits(members[i].value, fmt);
    }
    FormattedMembersHeight(members, fmt);
    hide Representable, Formatted, MembersHeight;
  }

  lemma {:induction false} FormattedMembersHeight(members: seq<Member>, fmt: string -> string)
    ensures MembersHeight(FormattedMembers(members, fmt)) == MembersHeight(members)
    decreases members, 0
  {
    if members != [] {
      FormattedFits(members[0].value, fmt);
      FormattedMembersHeight(members[1..], fmt);
      assert FormattedMembers(members, fmt)[1..] == FormattedMembers(members[1..], fmt);
    }
  }

  lemma {:induction false} FormattedDoubles(v: Json, fmt: string -> string, q: string -> bool, p: string -> bool)
    requires Doubles(v, q) && forall t :: q(t) ==> p(fmt(t))
    ensures Doubles(Formatted(v, fmt), p)
    decreases v
  {
    match v
    case Arr(items) =>
      forall x | x in FormattedItems(items, fmt) ensures Doubles(x, p) {
        var i :| 0 <= i < |items| && x == Formatted(items[i], fmt);
        FormattedDoubles(items[i], fmt, q, p);
      }
    case Obj(members) =>
      forall m | m in FormattedMembers(members, fmt) ensures Doubles(m.value, p) {
        var i :| 0 <= i < |members| && m.value == Formatted(members[i].value, fmt);
        FormattedDoubles(members[i].value, fmt, q, p);
      }
    case _ =>
  }
}
