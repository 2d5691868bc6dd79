/**
 * The values of section 2 of RFC 4627 as syntax trees, with their white space: how a tree is written, and what
 * it stands for. Nothing here is taken from the reader or the writer.
 */
module Rfc4627 {
  import opened JsonValue
  import opened Rfc3629

  /** A byte that stands for itself, a two-character escape, and `\u` with four digits. */
  datatype Letter = Plain(c: char) | Escaped(c: char) | Unit(digits: string)

  /** `mark` is `e` or `E` with a sign or none; an absent fraction or exponent has no digits. */
  datatype Tree =
    | Word(word: string)
    | Number(minus: bool, whole: string, fraction: string, mark: string, exponent: string)
    | Quoted(letters: seq<Letter>)
    | Array(blank: string, items: seq<Item>)
    | Object(blank: string, pairs: seq<Pair>)

  datatype Item = Item(before: string, value: Tree, after: string)

  datatype Pair = Pair(before: string, name: seq<Letter>, space: string, item: Item)

  // ----- how a tree is written

  function Spell(ls: seq<Letter>): string {
    if ls == [] then "" else SpellLetter(ls[0]) + Spell(ls[1..])
  }

  function SpellLetter(l: Letter): string {
    match l
    case Plain(c) => [c]
    case Escaped(c) => "\\" + [c]
    case Unit(digits) => "\\u" + digits
  }

  function Quote(ls: seq<Letter>): string {
    "\"" + Spell(ls) + "\""
  }

  function Text(t: Tree): string
    decreases t, 1
  {
    match t
    case Word(w) => w
    case Number(minus, whole, fraction, mark, exponent) =>
      (if minus then "-" else "") + whole + (if fraction == "" then "" else "." + fraction) + mark + exponent
    case Quoted(ls) => Quote(ls)
    case Array(blank, items) => "[" + (if items == [] then blank else ItemsText(items)) + "]"
    case Object(blank, pairs) => "{" + (if pairs == [] then blank else PairsText(pairs)) + "}"
  }

  function ItemText(x: Item): string
    decreases x, 0
  {
    x.before + Text(x.value) + x.after
  }

  function ItemsText(items: seq<Item>): string
    requires items != []
    decreases items, 0
  {
    if |items| == 1 then ItemText(items[0]) else ItemText(items[0]) + "," + ItemsText(items[1..])
  }

  function PairText(p: Pair): string
    decreases p, 0
  {
    p.before + Quote(p.name) + p.space + ":" + ItemText(p.item)
  }

  function PairsText(pairs: seq<Pair>): string
    requires pairs != []
    decreases pairs, 0
  {
    if |pairs| == 1 then PairText(pairs[0]) else PairText(pairs[0]) + "," + PairsText(pairs[1..])
  }

  // ----- which trees are there

  predicate Blank(s: string) {
    forall c :: c in s ==> c in " \t\n\r"
  }

  predicate Digits(s: string) {
    forall i :: 0 <= i < |s| ==> 48 <= s[i] as int <= 57
  }

  predicate IsHexDigit(c: char) {
    48 <= c as int <= 57 || 65 <= c as int <= 70 || 97 <= c as int <= 102
  }

  predicate IsLetter(l: Letter) {
    match l
    case Plain(c) => c as int >= 32 && c != '"' && c != '\\'
    case Escaped(c) => c in "\"\\/bfnrt"
    case Unit(digits) => |digits| == 4 && forall c :: c in digits ==> IsHexDigit(c)
  }

  predicate AreLetters(ls: seq<Letter>) {
    forall l :: l in ls ==> IsLetter(l)
  }

  predicate WellFormed(t: Tree)
    decreases t, 1
  {
    match t
    case Word(w) => w in {"false", "null", "true"}
    case Number(_, whole, fraction, mark, exponent) =>
      && Digits(whole) && Digits(fraction) && Digits(exponent)
      && whole != "" && (whole[0] == '0' ==> whole == "0")
      && (if exponent == "" then mark == "" else mark in {"e", "E", "e+", "E+", "e-", "E-"})
    case Quoted(ls) => AreLetters(ls)
    case Array(blank, items) => Blank(blank) && forall x :: x in items ==> WellFormedItem(x)
    case Object(blank, pairs) =>
      Blank(blank) && forall p :: p in pairs ==> WellFormedPair(p)
  }

  predicate WellFormedItem(x: Item)
    decreases x, 0
  {
    Blank(x.before) && WellFormed(x.value) && Blank(x.after)
  }

  predicate WellFormedPair(p: Pair)
    decreases p, 0
  {
    Blank(p.before) && AreLetters(p.name) && Blank(p.space) && WellFormedItem(p.item)
  }

  // ----- what a tree stands for

  function HexValue(c: char): (v: int)
    ensures 0 <= v < 16
  {
    var n := c as int;
    if 97 <= n <= 102 then n - 87 else if 65 <= n <= 70 then n - 55 else if 48 <= n <= 57 then n - 48 else 0
  }

  function UnitCode(digits: string): (u: int)
    ensures 0 <= u < 65536
  {
    4096 * HexValue(At(digits, 0)) + 256 * HexValue(At(digits, 1)) +
    16 * HexValue(At(digits, 2)) + HexValue(At(digits, 3))
  }

  /** The byte that an escape of two characters stands for. */
  function EscapedByte(c: char): int {
    match c
    case 'b' => 8
    case 't' => 9
    case 'n' => 10
    case 'f' => 12
    case 'r' => 13
    case '/' => 47
    case '\\' => 92
    case _ => 34
  }

  function LetterBytes(l: Letter): string {
    match l
    case Plain(c) => [c]
    case Escaped(c) => [EscapedByte(c) as char]
    case Unit(digits) => Encode(UnitCode(digits))
  }

  /** Two units that stand for one code outside the basic plane. */
  predicate Surrogates(ls: seq<Letter>) {
    |ls| >= 2 && ls[0].Unit? && ls[1].Unit? &&
    0xD800 <= UnitCode(ls[0].digits) < 0xDC00 && 0xDC00 <= UnitCode(ls[1].digits) < 0xE000
  }

  function PairCode(high: int, low: int): int {
    0x10000 + (high - 0xD800) * 1024 + (low - 0xDC00)
  }

  /** The bytes of a string in UTF-8. */
  function Bytes(ls: seq<Letter>): string {
    if ls == [] then ""
    else if Surrogates(ls) then
      Encode(PairCode(UnitCode(ls[0].digits), UnitCode(ls[1].digits))) + Bytes(ls[2..])
    else LetterBytes(ls[0]) + Bytes(ls[1..])
  }

  function Magnitude(s: string): int {
    if s == "" then 0 else 10 * Magnitude(s[..|s| - 1]) + (s[|s| - 1] as int - 48)
  }

  predicate Integral(t: Tree) {
    t.Number? && t.fraction == "" && t.exponent == ""
  }

  function IntegerOf(t: Tree): int
    requires Integral(t)
  {
    if t.minus then -Magnitude(t.whole) else Magnitude(t.whole)
  }

  /** A number with a fraction or an exponent is known by its text. */
  predicate Denotes(t: Tree, v: Json)
    decreases t
  {
    match t
    case Word(w) => v == if w == "null" then Null else Bool(w == "true")
    case Number(_, _, _, _, _) => if Integral(t) then v.Int? && v.n as int == IntegerOf(t) else v == Double(Text(t))
    case Quoted(ls) => v == Str(Bytes(ls))
    case Array(_, items) =>
      v.Arr? && |v.items| == |items| && forall i :: 0 <= i < |items| ==> Denotes(items[i].value, v.items[i])
    case Object(_, pairs) =>
      v.Obj? && |v.members| == |pairs| && forall i :: 0 <= i < |pairs| ==>
        v.members[i].key == Bytes(pairs[i].name) && Denotes(pairs[i].item.value, v.members[i].value)
  }
}
