/** The printer as it is written: text is appended to a buffer, strings in runs of plain characters. */
module JsonWriter {
  import opened JsonValue
  import opened Sequences
  import opened Decimal
  import opened JsonPrinter
  import opened PrintBuf

  /** Characters `json_escape_str` passes over until a run ends. */
  predicate PlainChar(c: char) {
    EscapeChar(c) == [c]
  }

  lemma {:induction false} EscapeAppend(s: string, c: char)
    ensures Escape(s + [c]) == Escape(s) + EscapeChar(c)
  {
    if s == "" {
      assert Escape([c]) == EscapeChar(c) + Escape("");
    } else {
      assert (s + [c])[1..] == s[1..] + [c];
      EscapeAppend(s[1..], c);
    }
  }

  /** The text a run loop has to write: what was flushed, and the plain run since then. */
  predicate Flushed(str: string, start: nat, pos: nat) {
    start <= pos <= |str| && Escape(str[..pos]) == Escape(str[..start]) + str[start..pos]
  }

  lemma {:induction false} FlushedStart(str: string, pos: nat)
    requires pos <= |str|
    ensures Flushed(str, pos, pos)
  {
  }

  lemma {:induction false} FlushedPlain(str: string, start: nat, pos: nat)
    requires Flushed(str, start, pos) && pos < |str| && PlainChar(str[pos])
    ensures Flushed(str, start, pos + 1)
  {
    EscapeAppend(str[..pos], str[pos]);
    assert str[..pos] + [str[pos]] == str[..pos + 1];
    assert str[start..pos] + [str[pos]] == str[start..pos + 1];
  }

  /** The two-character escapes of the `switch`; the other control characters print as \u00XX. */
  function ShortEscape(c: char): string {
    if c == 8 as char then "\\b"
    else if c == '\n' then "\\n"
    else if c == '\r' then "\\r"
    else if c == '\t' then "\\t"
    else if c == '"' then "\\\""
    else if c == '\\' then "\\\\"
    else if c == '/' then "\\/"
    else ""
  }

  lemma EscapeCases(c: char)
    ensures ShortEscape(c) != "" ==> EscapeChar(c) == ShortEscape(c)
    ensures ShortEscape(c) == "" && c < ' ' ==>
      EscapeChar(c) == "\\u00" + [HexChar(c as int / 16), HexChar(c as int % 16)]
    ensures PlainChar(c) <==> ShortEscape(c) == "" && c >= ' '
  {
  }

  /** Write the run that ends before `pos`, if there is one. */
  method Flush(pb: PrintBuf, str: string, start: nat, pos: nat)
    requires pb.Valid() && start <= pos <= |str|
    modifies pb, pb.buf
    ensures pb.Valid() && (pb.buf == old(pb.buf) || fresh(pb.buf))
    ensures pb.Contents() == old(pb.Contents()) + str[start..pos]
  {
    if pos - start > 0 {
      pb.Append(str[start..pos]);
    } else {
      assert pb.Contents() + str[start..pos] == pb.Contents();
    }
  }

  lemma {:induction false} FlushedEscape(before: string, str: string, start: nat, pos: nat)
    requires Flushed(str, start, pos) && pos < |str|
    ensures before + Escape(str[..start]) + str[start..pos] + EscapeChar(str[pos]) == before + Escape(str[..pos + 1])
  {
    Assoc(before, Escape(str[..start]), str[start..pos]);
    EscapeAppend(str[..pos], str[pos]);
    assert str[..pos] + [str[pos]] == str[..pos + 1];
    Assoc(before, Escape(str[..pos]), EscapeChar(str[pos]));
  }

  lemma NothingFlushed(before: string, str: string)
    ensures Flushed(str, 0, 0) && before + Escape(str[..0]) == before
  {
    assert str[..0] == "";
    Nothing(before);
  }

  lemma FlushedAll(before: string, str: string, start: nat)
    requires Flushed(str, start, |str|)
    ensures before + Escape(str[..start]) + str[start..|str|] == before + Escape(str)
  {
    Assoc(before, Escape(str[..start]), str[start..|str|]);
    assert str[..|str|] == str;
  }

  /** The run before a character that needs an escape, and the escape. */
  method FlushEscape(pb: PrintBuf, str: string, start: nat, pos: nat)
    requires pb.Valid() && start <= pos < |str| && !PlainChar(str[pos])
    modifies pb, pb.buf
    ensures pb.Valid() && (pb.buf == old(pb.buf) || fresh(pb.buf))
    ensures pb.Contents() == old(pb.Contents()) + str[start..pos] + EscapeChar(str[pos])
  {
    var c := str[pos];
    EscapeCases(c);
    Flush(pb, str, start, pos);
    if ShortEscape(c) != "" {
      pb.Append(ShortEscape(c));
    } else {
      pb.Append("\\u00" + [HexChar(c as int / 16), HexChar(c as int % 16)]);
    }
  }

  /** `json_escape_str` on a C string: the escape of every character, one after the other. */
  method EscapeStr(pb: PrintBuf, str: string)
    requires pb.Valid() && NulFree(str)
    modifies pb, pb.buf
    ensures pb.Valid() && (pb.buf == old(pb.buf) || fresh(pb.buf))
    ensures pb.Contents() == old(pb.Contents()) + Escape(str)
  {
    hide Escape, EscapeChar, ShortEscape, PlainChar, Flushed;
    var pos, start := 0, 0;
    ghost var before := pb.Contents();
    NothingFlushed(before, str);
    while pos < |str|
      invariant pb.Valid() && (pb.buf == old(pb.buf) || fresh(pb.buf))
      invariant start <= pos <= |str| && Flushed(str, start, pos) && pb.Contents() == before + Escape(str[..start])
    {
      var c := str[pos];
      EscapeCases(c);
      if ShortEscape(c) != "" || c < ' ' {
        FlushedEscape(before, str, start, pos);
        FlushEscape(pb, str, start, pos);
        pos := pos + 1;
        start := pos;
        FlushedStart(str, pos);
      } else {
        FlushedPlain(str, start, pos);
        pos := pos + 1;
      }
    }
    FlushedAll(before, str, start);
    Flush(pb, str, start, pos);
  }

  method WriteQuoted(pb: PrintBuf, s: string, after: string)
    requires pb.Valid() && NulFree(s)
    modifies pb, pb.buf
    ensures pb.Terminated() && (pb.buf == old(pb.buf) || fresh(pb.buf))
    ensures pb.Contents() == old(pb.Contents()) + (Quoted(s) + after)
  {
    QuotedParts(pb.Contents(), s, after);
    pb.Append("\"");
    EscapeStr(pb, s);
    pb.Append("\"" + after);
  }

  /** The `_to_json_string` functions: they append exactly the printed form of the value. What `sprintf` with
      `%lf` makes of a double is given by `fmt`. */
  method Write(pb: PrintBuf, v: Json, fmt: string -> string)
    requires pb.Valid() && Representable(v)
    modifies pb, pb.buf
    ensures pb.Terminated() && (pb.buf == old(pb.buf) || fresh(pb.buf))
    ensures pb.Contents() == old(pb.Contents()) + Print(Formatted(v, fmt))
    decreases v, 1
  {
    match v {
      case Null => pb.Append("null");
      case Bool(b) => pb.Append(if b then "true" else "false");
      case Int(n) => pb.Append(PrintInt(n));
      case Double(text) => pb.Append(fmt(text));
      case Str(s) =>
        Nothing(Quoted(s));
        WriteQuoted(pb, s, "");
      case Arr(items) => WriteItems(pb, items, fmt);
      case Obj(members) => WriteMembers(pb, members, fmt);
    }
  }

  method WriteItem(pb: PrintBuf, x: Json, fmt: string -> string, first: bool)
    requires pb.Valid() && Representable(x)
    modifies pb, pb.buf
    ensures pb.Terminated() && (pb.buf == old(pb.buf) || fresh(pb.buf))
    ensures pb.Contents() == old(pb.Contents()) + (Separator(first) + Print(Formatted(x, fmt)))
    decreases x, 2
  {
    Assoc(pb.Contents(), Separator(first), Print(Formatted(x, fmt)));
    pb.Append(if first then " " else ", ");
    Write(pb, x, fmt);
  }

  method WriteItems(pb: PrintBuf, items: seq<Json>, fmt: string -> string)
    requires pb.Valid() && forall x :: x in items ==> Representable(x)
    modifies pb, pb.buf
    ensures pb.Terminated() && (pb.buf == old(pb.buf) || fresh(pb.buf))
    ensures pb.Contents() == old(pb.Contents()) + ("[" + PrintItems(FormattedItems(items, fmt), true) + " ]")
    decreases items, 0
  {
    hide Print, PrintItems, Separator, Representable, Formatted, FormattedItems;
    ghost var shown := FormattedItems(items, fmt);
    Brackets(pb.Contents(), "[", PrintItems(shown, true), " ]");
    pb.Append("[");
    ghost var before := pb.Contents();
    var i := 0;
    ghost var written := "";
    Nothing(before);
    Nothing(PrintItems(shown, true));
    assert shown[0..] == shown;
    while i < |items|
      invariant 0 <= i <= |items| && pb.Valid() && (pb.buf == old(pb.buf) || fresh(pb.buf))
      invariant pb.Contents() == before + written
      invariant written + PrintItems(shown[i..], i == 0) == PrintItems(shown, true)
    {
      ghost var text := Separator(i == 0) + Print(shown[i]);
      ItemStep(written, shown, i);
      Assoc(before, written, text);
      WriteItem(pb, items[i], fmt, i == 0);
      written := written + text;
      i := i + 1;
    }
    NoItems(i == 0);
    assert shown[i..] == [];
    Nothing(written);
    pb.Append(" ]");
  }

  method WriteMember(pb: PrintBuf, m: Member, fmt: string -> string, first: bool)
    requires pb.Valid() && NulFree(m.key) && Representable(m.value)
    modifies pb, pb.buf
    ensures pb.Terminated() && (pb.buf == old(pb.buf) || fresh(pb.buf))
    ensures pb.Contents() == old(pb.Contents()) + MemberText(Member(m.key, Formatted(m.value, fmt)), first)
    decreases m, 2
  {
    MemberParts(pb.Contents(), Member(m.key, Formatted(m.value, fmt)), first);
    if first {
      pb.Append(" ");
    } else {
      pb.Append(",");
      pb.Append(" ");
    }
    WriteQuoted(pb, m.key, ": ");
    Write(pb, m.value, fmt);
  }

  method WriteMembers(pb: PrintBuf, members: seq<Member>, fmt: string -> string)
    requires pb.Valid() && forall m :: m in members ==> NulFree(m.key) && Representable(m.value)
    modifies pb, pb.buf
    ensures pb.Terminated() && (pb.buf == old(pb.buf) || fresh(pb.buf))
    ensures pb.Contents() == old(pb.Contents()) + ("{" + PrintMembers(FormattedMembers(members, fmt), true) + " }")
    decreases members, 0
  {
    hide Print, PrintMembers, Separator, MemberText, Representable, Formatted, FormattedMembers;
    ghost var shown := FormattedMembers(members, fmt);
    Brackets(pb.Contents(), "{", PrintMembers(shown, true), " }");
    pb.Append("{");
    ghost var before := pb.Contents();
    var i := 0;
    ghost var written := "";
    Nothing(before);
    Nothing(PrintMembers(shown, true));
    assert shown[0..] == shown;
    while i < |members|
      invariant 0 <= i <= |members| && pb.Valid() && (pb.buf == old(pb.buf) || fresh(pb.buf))
      invariant pb.Contents() == before + written
      invariant written + PrintMembers(shown[i..], i == 0) == PrintMembers(shown, true)
    {
      ghost var text := MemberText(shown[i], i == 0);
      MemberStep(written, shown, i);
      Assoc(before, written, text);
      WriteMember(pb, members[i], fmt, i == 0);
      written := written + text;
      i := i + 1;
    }
    NoMembers(i == 0);
    assert shown[i..] == [];
    Nothing(written);
    pb.Append(" }");
  }

  // ----- the text as a C string

  lemma {:induction false} EscapeNulFree(s: string)
    requires NulFree(s)
    ensures NulFree(Escape(s))
  {
    if s != "" {
      EscapeNulFree(s[1..]);
      OneEscapeNulFree(s[0]);
    }
  }

  lemma OneEscapeNulFree(c: char)
    requires c != NUL
    ensures NulFree(EscapeChar(c))
  {
    if ' ' > c {
      HexNotNul(c as int / 16);
      HexNotNul(c as int % 16);
    }
  }

  lemma HexNotNul(d: nat)
    requires d < 16
    ensures HexChar(d) != NUL
  {
    assert "0123456789abcdef" == "01234567" + "89abcdef";
  }

  lemma {:induction false} DigitsNulFree(n: nat)
    ensures NulFree(PrintNat(n))
  {
    if n >= 10 { DigitsNulFree(n / 10); }
  }

  /** The text of a value that can be read back holds no NUL, so a C string carries all of it. */
  lemma {:induction false} PrintNulFree(v: Json)
    requires Representable(v) && Doubles(v, NulFree)
    ensures NulFree(Print(v))
    decreases v, 1
  {
    match v
    case Null =>
    case Bool(_) =>
    case Int(n) => DigitsNulFree(if n < 0 then -(n as int) else n as int);
    case Double(_) =>
    case Str(s) => EscapeNulFree(s);
    case Arr(items) => ItemsNulFree(items, true);
    case Obj(members) => MembersNulFree(members, true);
  }

  lemma {:induction false} ItemsNulFree(items: seq<Json>, first: bool)
    requires forall x :: x in items ==> Representable(x) && Doubles(x, NulFree)
    ensures NulFree(PrintItems(items, first))
    decreases items, 0
  {
    if items != [] {
      PrintNulFree(items[0]);
      ItemsNulFree(items[1..], false);
    }
  }

  lemma {:induction false} MembersNulFree(members: seq<Member>, first: bool)
    requires forall m :: m in members ==> NulFree(m.key) && Representable(m.value) && Doubles(m.value, NulFree)
    ensures NulFree(PrintMembers(members, first))
    decreases members, 0
  {
    if members != [] {
      EscapeNulFree(members[0].key);
      PrintNulFree(members[0].value);
      MembersNulFree(members[1..], false);
    }
  }

  lemma WrittenNulFree(v: Json, fmt: string -> string)
    requires Representable(v) && forall t :: NulFree(fmt(t))
    ensures NulFree(Print(Formatted(v, fmt)))
  {
    FormattedFits(v, fmt);
    AllDoubles(v, t => true);
    FormattedDoubles(v, fmt, t => true, NulFree);
    PrintNulFree(Formatted(v, fmt));
  }

  lemma {:induction false} AllDoubles(v: Json, p: string -> bool)
    requires forall t :: p(t)
    ensures Doubles(v, p)
    decreases v
  {
    match v
    case Arr(items) => forall x | x in items ensures Doubles(x, p) { AllDoubles(x, p); }
    case Obj(members) => forall m | m in members ensures Doubles(m.value, p) { AllDoubles(m.value, p); }
    case _ =>
  }

  /** `json_object_to_json_string`: the buffer of an object is made once and emptied before every use. */
  method ToJsonString(v: Json, fmt: string -> string, cached: PrintBuf?) returns (text: string, pb: PrintBuf?)
    requires Representable(v) && forall t :: NulFree(fmt(t))
    requires cached != null ==> cached.Valid()
    modifies cached, if cached == null then {} else {cached.buf}
    ensures text == Print(Formatted(v, fmt))
    ensures v != Null ==> pb != null && pb.Valid() && (cached != null ==> pb == cached)
  {
    WrittenNulFree(v, fmt);
    if v == Null { return "null", cached; }
    pb := cached;
    if pb == null {
      pb := new PrintBuf();
    } else {
      pb.Reset();
    }
    Nothing(Print(Formatted(v, fmt)));
    Write(pb, v, fmt);
    text := pb.CopyString();
  }

  // ----- concatenation

  lemma QuotedParts(before: string, s: string, after: string)
    ensures before + "\"" + Escape(s) + ("\"" + after) == before + (Quoted(s) + after)
  {
  }

  lemma Brackets(before: string, open: string, body: string, close: string)
    ensures before + open + body + close == before + (open + body + close)
  {
  }

  lemma ItemStep(written: string, items: seq<Json>, i: nat)
    requires i < |items|
    ensures written + PrintItems(items[i..], i == 0)
      == written + (Separator(i == 0) + Print(items[i])) + PrintItems(items[i + 1..], false)
  {
    assert items[i..][1..] == items[i + 1..];
    Assoc(written, Separator(i == 0) + Print(items[i]), PrintItems(items[i + 1..], false));
  }

  function MemberText(m: Member, first: bool): string
  {
    Separator(first) + Quoted(m.key) + ": " + Print(m.value)
  }

  lemma MemberParts(before: string, m: Member, first: bool)
    ensures before + Separator(first) + (Quoted(m.key) + ": ") + Print(m.value) == before + MemberText(m, first)
    ensures before + "," + " " == before + Separator(false)
  {
    var start := Separator(first);
    Assoc(start, Quoted(m.key), ": ");
    Assoc(before, start, Quoted(m.key) + ": ");
    Assoc(before, start + (Quoted(m.key) + ": "), Print(m.value));
    Assoc(before, ",", " ");
  }

  lemma NoItems(first: bool)
    ensures PrintItems([], first) == ""
  {
  }

  lemma NoMembers(first: bool)
    ensures PrintMembers([], first) == ""
  {
  }

  lemma MemberStep(written: string, members: seq<Member>, i: nat)
    requires i < |members|
    ensures written + PrintMembers(members[i..], i == 0)
      == written + MemberText(members[i], i == 0) + PrintMembers(members[i + 1..], false)
  {
    assert members[i..][1..] == members[i + 1..];
    Assoc(written, MemberText(members[i], i == 0), PrintMembers(members[i + 1..], false));
  }
}
