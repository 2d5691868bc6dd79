/** The values a `json_object` can hold, seen as immutable trees. A `char` stands for one byte. */
module JsonValue {
  datatype Option<+T> = None | Some(value: T)

  const NUL: char := 0 as char

  type int32 = n: int | -0x8000_0000 <= n < 0x8000_0000

  datatype Member = Member(key: string, value: Json)

  /** `Null` is the C null pointer. A double is known by the text it was read from. */
  datatype Json =
    | Null
    | Bool(b: bool)
    | Int(n: int32)
    | Double(text: string)
    | Str(s: string)
    | Arr(items: seq<Json>)
    | Obj(members: seq<Member>)

  // ----- C strings

  predicate NulFree(s: string) {
    NUL !in s
  }

  /** The character at a pointer: every string ends with a NUL that is not part of it. */
  function At(s: string, i: nat): char {
    if i < |s| then s[i] else NUL
  }

  function Front(s: string): char {
    At(s, 0)
  }

  /** What `strdup` sees of a buffer: everything before the first NUL. */
  function CString(buf: string): (s: string)
    ensures NulFree(s)
    ensures NulFree(buf) ==> s == buf
  {
    if buf == "" || buf[0] == NUL then "" else [buf[0]] + CString(buf[1..])
  }

  lemma {:induction false} CStringEnds(buf: string, n: nat)
    requires n <= |buf| && (forall i :: 0 <= i < n ==> buf[i] != NUL) && (n == |buf| || buf[n] == NUL)
    ensures CString(buf) == buf[..n]
    decreases n
  {
    if n > 0 {
      CStringEnds(buf[1..], n - 1);
      assert buf[..n] == [buf[0]] + buf[1..][..n - 1];
    }
  }

  // ----- the insertion-ordered members of an object

  function Keys(ms: seq<Member>): set<string> {
    set m | m in ms :: m.key
  }

  predicate DistinctKeys(ms: seq<Member>) {
    forall i, j :: 0 <= i < j < |ms| ==> ms[i].key != ms[j].key
  }

  function Without(ms: seq<Member>, key: string): (r: seq<Member>)
    ensures forall m :: m in r <==> m in ms && m.key != key
  {
    if ms == [] then []
    else if ms[0].key == key then Without(ms[1..], key)
    else [ms[0]] + Without(ms[1..], key)
  }

  /** `json_object_object_add`: an existing entry of that name is deleted, the new one comes last. */
  function AddMember(ms: seq<Member>, key: string, value: Json): seq<Member> {
    Without(ms, key) + [Member(key, value)]
  }

  lemma WithoutAbsent(ms: seq<Member>, key: string)
    requires forall m :: m in ms ==> m.key != key
    ensures Without(ms, key) == ms
  {
    if ms != [] {
      assert ms[0] in ms;
      WithoutAbsent(ms[1..], key);
    }
  }

  lemma {:induction false} WithoutAt(ms: seq<Member>, i: nat)
    requires DistinctKeys(ms) && i < |ms|
    ensures Without(ms, ms[i].key) == ms[..i] + ms[i + 1..]
  {
    if i == 0 {
      assert forall m :: m in ms[1..] ==> m.key != ms[0].key;
      WithoutAbsent(ms[1..], ms[0].key);
    } else {
      WithoutAt(ms[1..], i - 1);
      assert ms[1..][i - 1] == ms[i] && ms[0].key != ms[i].key;
      assert ms[..i] + ms[i + 1..] == [ms[0]] + (ms[1..][..i - 1] + ms[1..][i..]);
    }
  }

  /** A new key comes last; a key that is there gives up its place, and the others keep their order. */
  lemma AddMemberMeans(ms: seq<Member>, key: string, value: Json)
    requires DistinctKeys(ms)
    ensures forall i :: 0 <= i < |ms| && ms[i].key == key ==>
      AddMember(ms, key, value) == ms[..i] + ms[i + 1..] + [Member(key, value)]
    ensures (forall i :: 0 <= i < |ms| ==> ms[i].key != key) ==> AddMember(ms, key, value) == ms + [Member(key, value)]
  {
    forall i | 0 <= i < |ms| && ms[i].key == key ensures Without(ms, key) == ms[..i] + ms[i + 1..] {
      WithoutAt(ms, i);
    }
    if forall i :: 0 <= i < |ms| ==> ms[i].key != key {
      WithoutAbsent(ms, key);
    }
  }

  lemma {:induction false} WithoutDistinct(ms: seq<Member>, key: string)
    requires DistinctKeys(ms)
    ensures DistinctKeys(Without(ms, key))
  {
    if ms != [] {
      WithoutDistinct(ms[1..], key);
      var rest := Without(ms[1..], key);
      forall j | 0 <= j < |rest| ensures rest[j].key != ms[0].key {
        assert rest[j] in ms[1..];
      }
    }
  }

  lemma AddMemberDistinct(ms: seq<Member>, key: string, value: Json)
    requires DistinctKeys(ms)
    ensures DistinctKeys(AddMember(ms, key, value))
  {
    WithoutDistinct(ms, key);
    var rest := Without(ms, key);
    forall j | 0 <= j < |rest| ensures rest[j].key != key {
      assert rest[j] in rest;
    }
  }

  // ----- which trees the C structures can hold, and how deep they nest

  predicate Representable(v: Json) {
    match v
    case Str(s) => NulFree(s)
    case Arr(items) => forall x :: x in items ==> Representable(x)
    case Obj(members) =>
      DistinctKeys(members) &&
      forall m :: m in members ==> NulFree(m.key) && Representable(m.value)
    case _ => true
  }

  /** Every double in `v` has a text with property `p`. */
  predicate Doubles(v: Json, p: string -> bool) {
    match v
    case Double(text) => p(text)
    case Arr(items) => forall x :: x in items ==> Doubles(x, p)
    case Obj(members) => forall m :: m in members ==> Doubles(m.value, p)
    case _ => true
  }

  function Max(a: nat, b: nat): nat {
    if a < b then b else a
  }

  /** Levels of non-empty nesting. */
  function Height(v: Json): nat
    decreases v, 1
  {
    match v
    case Arr(items) => ItemsHeight(items)
    case Obj(members) => MembersHeight(members)
    case _ => 0
  }

  function ItemsHeight(items: seq<Json>): nat
    decreases items, 0
  {
    if items == [] then 0 else Max(1 + Height(items[0]), ItemsHeight(items[1..]))
  }

  function MembersHeight(members: seq<Member>): nat
    decreases members, 0
  {
    if members == [] then 0 else Max(1 + Height(members[0].value), MembersHeight(members[1..]))
  }

  lemma {:induction false} ItemsHeightAppend(items: seq<Json>, v: Json)
    ensures ItemsHeight(items + [v]) == Max(ItemsHeight(items), 1 + Height(v))
  {
    if items != [] {
      ItemsHeightAppend(items[1..], v);
      assert (items + [v])[1..] == items[1..] + [v];
    }
  }

  lemma {:induction false} MembersHeightAppend(members: seq<Member>, m: Member)
    ensures MembersHeight(members + [m]) == Max(MembersHeight(members), 1 + Height(m.value))
  {
    if members != [] {
      MembersHeightAppend(members[1..], m);
      assert (members + [m])[1..] == members[1..] + [m];
    }
  }

  lemma {:induction false} WithoutHeight(ms: seq<Member>, key: string)
    ensures MembersHeight(Without(ms, key)) <= MembersHeight(ms)
  {
    if ms != [] {
      WithoutHeight(ms[1..], key);
      if ms[0].key != key {
        assert Without(ms, key)[1..] == Without(ms[1..], key);
      }
    }
  }
}
