/** The hash table of a json object: open addressing, and a list threaded through the slots. */
module LinkHash {
  import opened JsonValue
  import Rounding

  datatype Key = Empty | Freed | Live(k: string)

  /** A slot; `next` and `prev` are slot numbers, or NIL for the null pointer. */
  datatype Entry = Entry(key: Key, value: Json, next: int, prev: int)

  const NIL := -1

  const UNUSED := Entry(Empty, Null, NIL, NIL)

  // ----- probing

  /** The slot `d` probes after slot `home`, wrapping at the end of the table. */
  function Probe(home: int, d: int, size: int): int {
    if home + d < size then home + d else home + d - size
  }

  /** How many probes after `home` slot `s` comes. */
  function Distance(home: int, s: int, size: int): int {
    if s >= home then s - home else s - home + size
  }

  function Home(hash: string -> nat, k: string, size: int): int
    requires size > 0
  {
    hash(k) % size
  }

  /** The slots that are probed for a key follow each other, and the first one follows the last. */
  lemma ProbedSlots(hash: string -> nat, k: string, d: int, size: int)
    requires 0 <= d < size
    ensures Probe(Home(hash, k, size), d, size) == (hash(k) + d) % size
  {
    var h := hash(k);
    assert h == size * (h / size) + h % size;
    var r := h % size + d;
    if r < size {
      assert h + d == size * (h / size) + r;
    } else {
      assert h + d == size * (h / size + 1) + (r - size);
    }
    Remainder(h + d, if r < size then h / size else h / size + 1, if r < size then r else r - size, size);
  }

  lemma Remainder(n: int, q: int, r: int, size: int)
    requires 0 <= r < size && n == size * q + r
    ensures n % size == r
  {
    var k := q - n / size;
    assert size * k == size * q - size * (n / size);
    AtLeast(size, k);
  }

  lemma AtLeast(size: int, k: int)
    requires size > 0
    ensures (k > 0 ==> size * k >= size) && (k < 0 ==> size * k <= -size)
  {
  }

  /** No EMPTY slot lies between the home of a key and its slot. */
  ghost predicate Probed(t: seq<Entry>, hash: string -> nat) {
    |t| > 0 &&
    forall s, d :: 0 <= s < |t| && t[s].key.Live? && 0 <= d < Distance(Home(hash, t[s].key.k, |t|), s, |t|) ==>
      t[Probe(Home(hash, t[s].key.k, |t|), d, |t|)].key != Empty
  }

  ghost predicate HasEmpty(t: seq<Entry>) {
    exists s :: 0 <= s < |t| && t[s].key == Empty
  }

  ghost predicate Present(t: seq<Entry>, k: string) {
    exists s :: 0 <= s < |t| && t[s].key == Live(k)
  }

  /** A lookup of `k` leaves its loop at slot `s`. */
  predicate Stops(e: Entry, k: string) {
    e.key == Empty || e.key == Live(k)
  }

  /** A lookup that meets an EMPTY slot has shown that the key is absent. */
  lemma {:induction false} EmptyMeansAbsent(t: seq<Entry>, hash: string -> nat, k: string, d: int)
    requires Probed(t, hash) && 0 <= d < |t| && t[Probe(Home(hash, k, |t|), d, |t|)].key == Empty
    requires forall e :: 0 <= e < d ==> !Stops(t[Probe(Home(hash, k, |t|), e, |t|)], k)
    ensures !Present(t, k)
  {
    var home := Home(hash, k, |t|);
    if s :| 0 <= s < |t| && t[s].key == Live(k) {
      assert Probe(home, Distance(home, s, |t|), |t|) == s && Stops(t[s], k);
    }
  }

  /** Lookups end exactly when the key is there or some slot is EMPTY; otherwise every probe passes on. */
  lemma {:induction false} LookupEnds(t: seq<Entry>, hash: string -> nat, k: string)
    requires |t| > 0
    ensures (exists d :: 0 <= d < |t| && Stops(t[Probe(Home(hash, k, |t|), d, |t|)], k)) <==>
      HasEmpty(t) || Present(t, k)
  {
    var home := Home(hash, k, |t|);
    if HasEmpty(t) || Present(t, k) {
      var s :| 0 <= s < |t| && Stops(t[s], k);
      assert Probe(home, Distance(home, s, |t|), |t|) == s;
    }
    if d :| 0 <= d < |t| && Stops(t[Probe(home, d, |t|)], k) {
      var s := Probe(home, d, |t|);
      assert 0 <= s < |t| && Stops(t[s], k);
    }
  }

  lemma NotEmpty(t: seq<Entry>, hash: string -> nat)
    requires Probed(t, hash)
    ensures |t| > 0
  {
  }

  // ----- the list through the slots

  ghost predicate Distinct(order: seq<int>) {
    forall i, j :: 0 <= i < j < |order| ==> order[i] != order[j]
  }

  /** `order` lists exactly the live slots. */
  ghost predicate Listed(t: seq<Entry>, order: seq<int>) {
    && (forall i :: 0 <= i < |order| ==> 0 <= order[i] < |t| && t[order[i]].key.Live?)
    && (forall s :: 0 <= s < |t| && t[s].key.Live? ==> s in order)
    && Distinct(order)
  }

  function NextOf(order: seq<int>, i: int): int {
    if 0 <= i < |order| - 1 then order[i + 1] else NIL
  }

  function PrevOf(order: seq<int>, i: int): int {
    if 0 < i < |order| then order[i - 1] else NIL
  }

  /** The chain from `head` to `tail` visits `order`, in both directions. */
  ghost predicate Linked(t: seq<Entry>, order: seq<int>, head: int, tail: int) {
    && (forall i :: 0 <= i < |order| ==> 0 <= order[i] < |t|)
    && head == (if order == [] then NIL else order[0])
    && tail == (if order == [] then NIL else order[|order| - 1])
    && forall i :: 0 <= i < |order| ==> t[order[i]].next == NextOf(order, i) && t[order[i]].prev == PrevOf(order, i)
  }

  ghost predicate Consistent(t: seq<Entry>, order: seq<int>, head: int, tail: int, hash: string -> nat) {
    Probed(t, hash) && Listed(t, order) && Linked(t, order, head, tail)
  }

  /** The members in list order. */
  ghost function MembersOf(t: seq<Entry>, order: seq<int>): (ms: seq<Member>)
    requires Listed(t, order)
    ensures |ms| == |order|
    ensures forall i :: 0 <= i < |ms| ==> ms[i] == Member(t[order[i]].key.k, t[order[i]].value)
  {
    seq(|order|, i requires 0 <= i < |order| => Member(t[order[i]].key.k, t[order[i]].value))
  }

  lemma TakeMore(ms: seq<Member>, i: nat)
    requires i < |ms|
    ensures ms[..i] + [ms[i]] == ms[..i + 1]
  {
  }

  lemma Ends(t: seq<Entry>, order: seq<int>, head: int, tail: int)
    requires Linked(t, order, head, tail)
    ensures -1 <= tail < |t| && (order == [] <==> head == NIL) && (head == NIL <==> tail == NIL)
  {
  }

  lemma ListHead(t: seq<Entry>, order: seq<int>, head: int, tail: int)
    requires Listed(t, order) && Linked(t, order, head, tail)
    ensures head == if order == [] then NIL else order[0]
    ensures order != [] ==> order[0] >= 0
    ensures |MembersOf(t, order)| == |order|
  {
  }

  /** Following the list: place `i` is a live slot, and its link leads to the next place or ends. */
  lemma ListEntry(t: seq<Entry>, order: seq<int>, head: int, tail: int, i: nat)
    requires Listed(t, order) && Linked(t, order, head, tail) && i < |order|
    ensures 0 <= order[i] < |t| && t[order[i]].key.Live?
    ensures t[order[i]].next == if i + 1 < |order| then order[i + 1] else NIL
    ensures |MembersOf(t, order)| == |order| && MembersOf(t, order)[i] == Member(t[order[i]].key.k, t[order[i]].value)
    ensures i + 1 < |order| ==> order[i + 1] >= 0
  {
  }

  // ----- insertion

  /** The first slot from `home` on that can be taken. */
  ghost predicate FirstFree(t: seq<Entry>, home: int, n: int) {
    0 <= home < |t| && 0 <= n < |t| && !t[n].key.Live? &&
    forall d :: 0 <= d < Distance(home, n, |t|) ==> t[Probe(home, d, |t|)].key.Live?
  }

  function Inserted(t: seq<Entry>, n: int, k: string, v: Json, tail: int): seq<Entry>
    requires 0 <= n < |t| && -1 <= tail < |t| && n != tail
  {
    var t' := t[n := Entry(Live(k), v, NIL, tail)];
    if tail == NIL then t' else t'[tail := t'[tail].(next := n)]
  }

  lemma {:induction false} InsertProbed(t: seq<Entry>, n: int, k: string, v: Json, tail: int, hash: string -> nat)
    requires Probed(t, hash) && FirstFree(t, Home(hash, k, |t|), n) && -1 <= tail < |t| && n != tail
    ensures Probed(Inserted(t, n, k, v, tail), hash)
  {
    var u := Inserted(t, n, k, v, tail);
    forall s, d | 0 <= s < |u| && u[s].key.Live? && 0 <= d < Distance(Home(hash, u[s].key.k, |u|), s, |u|)
      ensures u[Probe(Home(hash, u[s].key.k, |u|), d, |u|)].key != Empty
    {
      var p := Probe(Home(hash, u[s].key.k, |u|), d, |u|);
      assert 0 <= p < |t|;
      if s != n {
        assert t[s].key == u[s].key;
        assert t[p].key != Empty;
      }
      assert u[p].key == if p == n then Live(k) else t[p].key;
    }
  }

  /** Place `i` of the longer list: the old entries in their order, then the new one. */
  ghost predicate Grown(t: seq<Entry>, u: seq<Entry>, order: seq<int>, n: int, k: string, v: Json, i: nat)
    requires forall j :: 0 <= j < |order| ==> 0 <= order[j] < |t|
  {
    var o := order + [n];
    && i < |o| && |u| == |t| && 0 <= o[i] < |t|
    && u[o[i]].key == (if i == |order| then Live(k) else t[order[i]].key)
    && u[o[i]].value == (if i == |order| then v else t[order[i]].value)
    && u[o[i]].next == NextOf(o, i) && u[o[i]].prev == PrevOf(o, i)
  }

  lemma OldPlace(t: seq<Entry>, order: seq<int>, head: int, tail: int, n: int, i: nat)
    requires Listed(t, order) && Linked(t, order, head, tail) && 0 <= n < |t| && !t[n].key.Live? && i < |order|
    ensures 0 <= order[i] < |t| && order[i] != n && (order[i] == tail <==> i == |order| - 1)
    ensures t[order[i]].next == NextOf(order, i) && t[order[i]].prev == PrevOf(order, i)
  {
    assert tail == order[|order| - 1];
  }

  lemma {:induction false} InsertedAt(t: seq<Entry>, order: seq<int>, head: int, tail: int, n: int, k: string,
        v: Json, i: nat)
    requires Listed(t, order) && Linked(t, order, head, tail) && 0 <= n < |t| && !t[n].key.Live? && i <= |order|
    ensures n !in order && n != tail
    ensures (forall j :: 0 <= j < |order| ==> 0 <= order[j] < |t|) &&
      Grown(t, Inserted(t, n, k, v, tail), order, n, k, v, i)
  {
    assert n !in order;
    if i < |order| {
      OldPlace(t, order, head, tail, n, i);
      KeptAt(t, order, tail, n, k, v, i);
    } else {
      NewAt(t, order, tail, n, k, v);
    }
    hide Inserted, Grown;
  }

  lemma KeptAt(t: seq<Entry>, order: seq<int>, tail: int, n: int, k: string, v: Json, i: nat)
    requires 0 <= n < |t| && -1 <= tail < |t| && n != tail && forall j :: 0 <= j < |order| ==> 0 <= order[j] < |t|
    requires i < |order| && order[i] != n && (order[i] == tail <==> i == |order| - 1)
    requires t[order[i]].next == NextOf(order, i) && t[order[i]].prev == PrevOf(order, i)
    ensures Grown(t, Inserted(t, n, k, v, tail), order, n, k, v, i)
  {
    var o := order + [n];
    assert o[i] == order[i] && (i > 0 ==> o[i - 1] == order[i - 1]);
  }

  lemma NewAt(t: seq<Entry>, order: seq<int>, tail: int, n: int, k: string, v: Json)
    requires 0 <= n < |t| && -1 <= tail < |t| && n != tail && forall j :: 0 <= j < |order| ==> 0 <= order[j] < |t|
    requires tail == if order == [] then NIL else order[|order| - 1]
    ensures Grown(t, Inserted(t, n, k, v, tail), order, n, k, v, |order|)
  {
    var o := order + [n];
    assert o[|order|] == n && (order != [] ==> o[|order| - 1] == tail);
  }

  lemma {:induction false} InsertListed(t: seq<Entry>, order: seq<int>, n: int, k: string, v: Json, tail: int)
    requires Listed(t, order) && 0 <= n < |t| && !t[n].key.Live? && -1 <= tail < |t| && n != tail
    ensures Listed(Inserted(t, n, k, v, tail), order + [n])
  {
    var u, o := Inserted(t, n, k, v, tail), order + [n];
    forall s | 0 <= s < |u| ensures u[s].key == if s == n then Live(k) else t[s].key {
    }
    forall s | 0 <= s < |u| && u[s].key.Live? ensures s in o {
      assert s != n ==> s in order;
    }
  }

  lemma {:induction false} GrownLinked(t: seq<Entry>, u: seq<Entry>, order: seq<int>, head: int, tail: int,
        n: int, k: string, v: Json)
    requires Linked(t, order, head, tail) && 0 <= n < |t| && |u| == |t|
    requires forall i: nat :: i <= |order| ==> Grown(t, u, order, n, k, v, i)
    ensures Linked(u, order + [n], if order == [] then n else head, n)
  {
    var o := order + [n];
    forall i | 0 <= i < |o| ensures 0 <= o[i] < |u| && u[o[i]].next == NextOf(o, i) && u[o[i]].prev == PrevOf(o, i) {
      assert Grown(t, u, order, n, k, v, i);
    }
  }

  lemma {:induction false} GrownMembers(t: seq<Entry>, u: seq<Entry>, order: seq<int>, n: int, k: string, v: Json)
    requires Listed(t, order) && Listed(u, order + [n])
    requires forall i: nat :: i <= |order| ==> Grown(t, u, order, n, k, v, i)
    ensures MembersOf(u, order + [n]) == MembersOf(t, order) + [Member(k, v)]
  {
    forall i: nat | i <= |order|
      ensures MembersOf(u, order + [n])[i] == (MembersOf(t, order) + [Member(k, v)])[i]
    {
      assert Grown(t, u, order, n, k, v, i);
    }
  }

  lemma {:induction false} InsertConsistent(t: seq<Entry>, order: seq<int>, head: int, tail: int, hash: string -> nat,
      n: int, k: string, v: Json)
    requires Consistent(t, order, head, tail, hash) && FirstFree(t, Home(hash, k, |t|), n)
    ensures n !in order && n != tail
    ensures var u := Inserted(t, n, k, v, tail);
      && Consistent(u, order + [n], if order == [] then n else head, n, hash)
      && MembersOf(u, order + [n]) == MembersOf(t, order) + [Member(k, v)]
  {
    InsertedAt(t, order, head, tail, n, k, v, 0);
    var u := Inserted(t, n, k, v, tail);
    InsertProbed(t, n, k, v, tail, hash);
    InsertListed(t, order, n, k, v, tail);
    forall i: nat | i <= |order| ensures Grown(t, u, order, n, k, v, i) {
      InsertedAt(t, order, head, tail, n, k, v, i);
    }
    GrownLinked(t, u, order, head, tail, n, k, v);
    GrownMembers(t, u, order, n, k, v);
  }

  // ----- deletion

  ghost function Cut(order: seq<int>, i: nat): seq<int>
    requires i < |order|
  {
    order[..i] + order[i + 1..]
  }

  /** The table after the entry at place `i` of the list was unlinked and its slot marked. */
  ghost function Deleted(t: seq<Entry>, order: seq<int>, i: nat): seq<Entry>
    requires i < |order| && forall j :: 0 <= j < |order| ==> 0 <= order[j] < |t|
  {
    var n := order[i];
    var a := t[n := Entry(Freed, Null, NIL, NIL)];
    var b := if i > 0 then a[order[i - 1] := a[order[i - 1]].(next := NextOf(order, i))] else a;
    if i + 1 < |order| then b[order[i + 1] := b[order[i + 1]].(prev := PrevOf(order, i))] else b
  }

  /** The entry that was at another place `q` of the list keeps all but its link to the deleted one. */
  lemma {:induction false} DeletedEntry(t: seq<Entry>, order: seq<int>, i: nat, q: nat)
    requires Listed(t, order) && i < |order| && q < |order| && q != i
    ensures var e := t[order[q]];
      Deleted(t, order, i)[order[q]] == Entry(e.key, e.value,
        if q + 1 == i then NextOf(order, i) else e.next, if q == i + 1 then PrevOf(order, i) else e.prev)
  {
    assert order[q] != order[i];
    assert i > 0 ==> (order[q] == order[i - 1] <==> q == i - 1);
    assert i + 1 < |order| ==> (order[q] == order[i + 1] <==> q == i + 1);
  }

  /** Places after the cut, seen before it. */
  lemma {:induction false} CutPlace(order: seq<int>, i: nat, j: nat) returns (q: nat)
    requires i < |order| && j < |order| - 1
    ensures q < |order| && q != i && q == (if j < i then j else j + 1)
    ensures Cut(order, i)[j] == order[q]
    ensures NextOf(Cut(order, i), j) == if q + 1 == i then NextOf(order, i) else NextOf(order, q)
    ensures PrevOf(Cut(order, i), j) == if q == i + 1 then PrevOf(order, i) else PrevOf(order, q)
  {
    q := if j < i then j else j + 1;
  }

  /** Place `j` of the list `o` in `u`: the entry it had in `t`, with the links of its new neighbours. */
  ghost predicate Relinked(t: seq<Entry>, u: seq<Entry>, o: seq<int>, j: nat) {
    && j < |o| && |u| == |t| && 0 <= o[j] < |t|
    && u[o[j]].key == t[o[j]].key && u[o[j]].value == t[o[j]].value
    && u[o[j]].next == NextOf(o, j) && u[o[j]].prev == PrevOf(o, j)
  }

  lemma {:induction false} DeletedAt(t: seq<Entry>, order: seq<int>, head: int, tail: int, i: nat, j: nat)
    requires Listed(t, order) && Linked(t, order, head, tail) && i < |order| && j < |order| - 1
    ensures Relinked(t, Deleted(t, order, i), Cut(order, i), j)
  {
    var q := CutPlace(order, i, j);
    DeletedEntry(t, order, i, q);
    DeletedElsewhere(t, order, i, order[q]);
  }

  lemma {:induction false} DeletedElsewhere(t: seq<Entry>, order: seq<int>, i: nat, s: int)
    requires Listed(t, order) && i < |order| && 0 <= s < |t|
    ensures |Deleted(t, order, i)| == |t|
    ensures Deleted(t, order, i)[s].key == if s == order[i] then Freed else t[s].key
  {
  }

  lemma {:induction false} DeleteProbed(t: seq<Entry>, order: seq<int>, i: nat, hash: string -> nat)
    requires Probed(t, hash) && Listed(t, order) && i < |order|
    ensures Probed(Deleted(t, order, i), hash)
  {
    var u := Deleted(t, order, i);
    forall s | 0 <= s < |t| ensures |u| == |t| && u[s].key == if s == order[i] then Freed else t[s].key {
      DeletedElsewhere(t, order, i, s);
    }
    assert |u| == |t|;
    forall s, d | 0 <= s < |u| && u[s].key.Live? && 0 <= d < Distance(Home(hash, u[s].key.k, |u|), s, |u|)
      ensures u[Probe(Home(hash, u[s].key.k, |u|), d, |u|)].key != Empty
    {
      var p := Probe(Home(hash, u[s].key.k, |u|), d, |u|);
      assert t[s].key == u[s].key;
      assert 0 <= p < |t| && t[p].key != Empty;
    }
  }

  lemma {:induction false} CutListed(t: seq<Entry>, u: seq<Entry>, order: seq<int>, i: nat)
    requires Listed(t, order) && i < |order| && |u| == |t|
    requires forall s :: 0 <= s < |t| ==> u[s].key == if s == order[i] then Freed else t[s].key
    ensures Listed(u, Cut(order, i))
  {
    var o := Cut(order, i);
    assert forall j :: 0 <= j < |o| ==> o[j] == order[if j < i then j else j + 1];
    forall s | 0 <= s < |u| && u[s].key.Live? ensures s in o {
      var j :| 0 <= j < |order| && order[j] == s;
      assert o[if j < i then j else j - 1] == s;
    }
  }

  lemma {:induction false} CutEnds(order: seq<int>, i: nat)
    requires i < |order|
    ensures var o := Cut(order, i);
      && (if o == [] then NIL else o[0]) == (if i == 0 then NextOf(order, 0) else order[0])
      && (if o == [] then NIL else o[|o| - 1]) == (if i == |order| - 1 then PrevOf(order, i) else order[|order| - 1])
  {
    if |order| > 1 {
      var first := CutPlace(order, i, 0);
      var last := CutPlace(order, i, |order| - 2);
    }
  }

  lemma {:induction false} CutLinked(t: seq<Entry>, u: seq<Entry>, order: seq<int>, head: int, tail: int,
        i: nat, o: seq<int>)
    requires Linked(t, order, head, tail) && i < |order| && o == Cut(order, i)
    requires forall j: nat :: j < |o| ==> Relinked(t, u, o, j)
    ensures Linked(u, o, if i == 0 then NextOf(order, 0) else head, if i == |order| - 1 then PrevOf(order, i) else tail)
  {
    forall j | 0 <= j < |o|
      ensures 0 <= o[j] < |u| && u[o[j]].next == NextOf(o, j) && u[o[j]].prev == PrevOf(o, j)
    {
      assert Relinked(t, u, o, j);
    }
    CutEnds(order, i);
  }

  lemma {:induction false} CutMembers(t: seq<Entry>, u: seq<Entry>, order: seq<int>, i: nat, o: seq<int>)
    requires Listed(t, order) && i < |order| && o == Cut(order, i) && Listed(u, o)
    requires forall j: nat :: j < |o| ==> Relinked(t, u, o, j)
    ensures MembersOf(u, o) == MembersOf(t, order)[..i] + MembersOf(t, order)[i + 1..]
  {
    var ms := MembersOf(t, order);
    forall j: nat | j < |o| ensures MembersOf(u, o)[j] == (ms[..i] + ms[i + 1..])[j] {
      assert Relinked(t, u, o, j);
      var q := CutPlace(order, i, j);
    }
  }

  lemma {:induction false} DeleteConsistent(t: seq<Entry>, order: seq<int>, head: int, tail: int,
        hash: string -> nat, i: nat)
    requires Consistent(t, order, head, tail, hash) && i < |order|
    ensures var u, o := Deleted(t, order, i), Cut(order, i);
      && Consistent(u, o, if i == 0 then NextOf(order, 0) else head,
        if i == |order| - 1 then PrevOf(order, i) else tail, hash)
      && MembersOf(u, o) == MembersOf(t, order)[..i] + MembersOf(t, order)[i + 1..]
  {
    var u, o := Deleted(t, order, i), Cut(order, i);
    DeleteProbed(t, order, i, hash);
    forall s | 0 <= s < |t| ensures |u| == |t| && u[s].key == if s == order[i] then Freed else t[s].key {
      DeletedElsewhere(t, order, i, s);
    }
    CutListed(t, u, order, i);
    forall j: nat | j < |o| ensures Relinked(t, u, o, j) {
      DeletedAt(t, order, head, tail, i, j);
    }
    CutLinked(t, u, order, head, tail, i, o);
    CutMembers(t, u, order, i, o);
  }

  // ----- counting slots

  function Range(n: nat): (s: set<int>)
    ensures |s| == n && forall i :: i in s <==> 0 <= i < n
  {
    if n == 0 then {} else Range(n - 1) + {n - 1}
  }

  lemma {:induction false} DistinctCount(order: seq<int>)
    requires Distinct(order)
    ensures |set s | s in order| == |order|
  {
    if order == [] {
      assert (set s | s in order) == {};
    } else {
      var rest := order[1..];
      DistinctCount(rest);
      assert (set s | s in order) == {order[0]} + set s | s in rest;
      assert order[0] !in rest;
    }
  }

  /** Fewer members than slots: some slot is not live. */
  lemma {:induction false} SpareSlot(t: seq<Entry>, order: seq<int>) returns (s: int)
    requires Listed(t, order) && |order| < |t|
    ensures 0 <= s < |t| && !t[s].key.Live?
  {
    DistinctCount(order);
    var live := set s | s in order;
    if forall s :: 0 <= s < |t| ==> s in live {
      assert Range(|t|) <= live;
      SubsetCount(Range(|t|), live);
    }
    s :| 0 <= s < |t| && s !in live;
  }

  lemma {:induction false} SubsetCount(a: set<int>, b: set<int>)
    requires a <= b
    ensures |a| <= |b|
  {
    assert b == a + (b - a);
  }

  ghost predicate NoFreed(t: seq<Entry>) {
    forall s :: 0 <= s < |t| ==> t[s].key != Freed
  }

  // ----- the table

  /** `t->count > t->size * 0.66`, in whole numbers. */
  predicate Overloaded(count: int, size: int) {
    100 * count > 66 * size
  }

  /** The lookup loop: walk on from `home`, wrapping around, until it stops at probe `d`. */
  method Walk(table: array<Entry>, home: int, k: string) returns (n: int, ghost d: int)
    requires 0 <= home < table.Length
    requires exists d :: 0 <= d < table.Length && Stops(table[Probe(home, d, table.Length)], k)
    ensures 0 <= d < table.Length && n == Probe(home, d, table.Length) && Stops(table[n], k)
    ensures forall e :: 0 <= e < d ==> !Stops(table[Probe(home, e, table.Length)], k)
  {
    ghost var last :| 0 <= last < table.Length && Stops(table[Probe(home, last, table.Length)], k);
    n, d := home, 0;
    while !Stops(table[n], k)
      invariant 0 <= d <= last && n == Probe(home, d, table.Length)
      invariant forall e :: 0 <= e < d ==> !Stops(table[Probe(home, e, table.Length)], k)
      decreases last - d
    {
      n := if n + 1 == table.Length then 0 else n + 1;
      d := d + 1;
    }
  }

  /** The insertion loop: the first slot that is EMPTY or FREED. */
  method WalkToFree(table: array<Entry>, home: int) returns (n: int)
    requires 0 <= home < table.Length && exists s :: 0 <= s < table.Length && !table[s].key.Live?
    ensures FirstFree(table[..], home, n)
  {
    ghost var spare :| 0 <= spare < table.Length && !table[spare].key.Live?;
    ghost var d := 0;
    n := home;
    while table[n].key.Live?
      invariant 0 <= d <= Distance(home, spare, table.Length) && n == Probe(home, d, table.Length)
      invariant forall e :: 0 <= e < d ==> table[Probe(home, e, table.Length)].key.Live?
      decreases table.Length - d
    {
      assert Probe(home, Distance(home, spare, table.Length), table.Length) == spare;
      n := if n + 1 == table.Length then 0 else n + 1;
      d := d + 1;
    }
    assert d == Distance(home, n, table.Length);
  }

  class LhTable {
    const hash: string -> nat
    var table: array<Entry>
    var count: int
    var head: int
    var tail: int
    ghost var order: seq<int>

    ghost predicate Valid()
      reads this, table
    {
      Consistent(table[..], order, head, tail, hash) && count == |order|
    }

    ghost function Contents(): seq<Member>
      reads this, table
      requires Valid()
    {
      MembersOf(table[..], order)
    }

    /** `lh_table_new`: all slots EMPTY. */
    constructor (size: nat, hash: string -> nat)
      requires size > 0
      ensures Valid() && fresh(table) && table.Length == size && this.hash == hash
      ensures Contents() == [] && NoFreed(table[..]) && HasEmpty(table[..]) && (size >= 3 ==> AddOnly(table[..], count))
    {
      this.hash := hash;
      table := new Entry[size](_ => UNUSED);
      count, head, tail := 0, NIL, NIL;
      order := [];
      new;
      assert table[..][0].key == Empty;
    }

    /** `lh_table_lookup_entry`: the slot of the key, or NIL. Without the key and without an EMPTY slot it
        would not return. */
    method LookupEntry(k: string) returns (s: int)
      requires Valid() && (HasEmpty(table[..]) || Present(table[..], k))
      ensures s == NIL || (0 <= s < table.Length && table[s].key == Live(k))
      ensures s == NIL <==> !Present(table[..], k)
    {
      LookupEnds(table[..], hash, k);
      ghost var d;
      s, d := Walk(table, hash(k) % table.Length, k);
      if table[s].key == Empty {
        EmptyMeansAbsent(table[..], hash, k, d);
        s := NIL;
      } else {
        assert table[..][s].key == Live(k);
      }
    }

    /** `lh_table_lookup`: the value of the key. */
    method Lookup(k: string) returns (r: Option<Json>)
      requires Valid() && (HasEmpty(table[..]) || Present(table[..], k))
      ensures r.Some? ==> Member(k, r.value) in Contents()
      ensures r.None? <==> k !in Keys(Contents())
    {
      ghost var t := table[..];
      PresentIsMember(t, order, k);
      var s := LookupEntry(k);
      if s == NIL {
        r := None;
      } else {
        ghost var i :| 0 <= i < |order| && order[i] == s;
        assert Contents()[i] == Member(k, t[s].value);
        r := Some(table[s].value);
      }
    }

    /** The part of `lh_table_insert` after the load test: take the first free slot, append to the list. */
    method Place(k: string, v: Json)
      requires Valid() && count < table.Length
      modifies this`count, this`head, this`tail, this`order, table
      ensures Valid() && count == old(count) + 1
      ensures |order| == |old(order)| + 1
      ensures FirstFree(old(table[..]), Home(hash, k, table.Length), order[|order| - 1])
      ensures forall s :: 0 <= s < table.Length ==>
        table[s].key == if s == order[|order| - 1] then Live(k) else old(table[s].key)
      ensures Contents() == old(Contents()) + [Member(k, v)]
    {
      hide Probed, Listed, Linked, FirstFree;
      ghost var t := table[..];
      Ends(t, order, head, tail);
      ghost var spare := SpareSlot(t, order);
      assert !table[spare].key.Live?;
      var n := WalkToFree(table, hash(k) % table.Length);
      InsertConsistent(t, order, head, tail, hash, n, k, v);
      ghost var u := Inserted(t, n, k, v, tail);
      table[n] := Entry(Live(k), v, NIL, tail);
      count := count + 1;
      if head == NIL {
        head := n;
      } else {
        table[tail] := table[tail].(next := n);
      }
      assert table[..] == u;
      tail := n;
      order := order + [n];
    }

    /** `lh_table_insert`: double an overloaded table first. The key is not looked for. */
    method Insert(k: string, v: Json)
      requires Valid()
      modifies this, table
      ensures Valid() && count == old(count) + 1 && 100 * (count - 1) <= 66 * table.Length
      ensures Contents() == old(Contents()) + [Member(k, v)]
      ensures if Overloaded(old(count), old(table.Length))
        then fresh(table) && table.Length == 2 * old(table.Length)
        else table == old(table)
      ensures Overloaded(old(count), old(table.Length)) || old(NoFreed(table[..])) ==> NoFreed(table[..])
      ensures !Overloaded(old(count), old(table.Length)) ==>
        |order| > 0 && FirstFree(old(table[..]), Home(hash, k, table.Length), order[|order| - 1]) &&
        forall s :: 0 <= s < table.Length ==>
          table[s].key == if s == order[|order| - 1] then Live(k) else old(table[s].key)
      decreases if Overloaded(count, table.Length) then 2 else 0
    {
      hide Probed, Listed, Linked, MembersOf;
      if Overloaded(count, table.Length) {
        BoundedCount(table[..], order);
        Resize(table.Length * 2);
      }
      assert table.Length > 0 by { NotEmpty(table[..], hash); }
      Place(k, v);
    }

    /** The loop of `lh_table_resize`: insert the entries of another table, in list order. */
    method TakeAll(t: array<Entry>, first: int, last: int, ghost list: seq<int>)
      requires Valid() && t != table && Contents() == [] && NoFreed(table[..])
      requires Listed(t[..], list) && Linked(t[..], list, first, last) && 100 * |list| <= 66 * table.Length
      modifies this, table
      ensures Valid() && table == old(table) && count == |list| && NoFreed(table[..])
      ensures Contents() == MembersOf(t[..], list)
      decreases 1, 0
    {
      hide Probed, Listed, Linked, MembersOf;
      ghost var seen := t[..];
      ghost var ms := MembersOf(seen, list);
      var ent := first;
      ghost var i := 0;
      ListHead(seen, list, first, last);
      while ent != NIL
        invariant 0 <= i <= |list| && ent == (if i < |list| then list[i] else NIL) && (ent == NIL <==> i == |list|)
        invariant Valid() && table == old(table) && count == i && NoFreed(table[..])
        invariant t[..] == seen && Contents() == ms[..i]
        decreases |list| - i
      {
        ListEntry(seen, list, first, last, i);
        var e := t[ent];
        assert e == seen[ent];
        TakeMore(ms, i);
        Insert(e.key.k, e.value);
        ent := e.next;
        i := i + 1;
      }
      assert ms[..i] == ms;
    }

    /** `lh_table_resize`: insert every entry, in list order, into a new table and take it over. */
    method Resize(newSize: int)
      requires Valid() && newSize > 0 && 100 * count <= 66 * newSize
      modifies this
      ensures Valid() && Contents() == old(Contents()) && count == old(count)
      ensures fresh(table) && table.Length == newSize && NoFreed(table[..])
      decreases 1, 1
    {
      hide Probed, Listed, Linked;
      var newT := new LhTable(newSize, hash);
      newT.TakeAll(table, head, tail, order);
      table, head, tail := newT.table, newT.head, newT.tail;
      order := newT.order;
    }

    /** `lh_table_delete_entry`: mark the slot FREED and unlink it. */
    method DeleteEntry(s: int, ghost i: nat)
      requires Valid() && i < |order| && order[i] == s
      modifies this`count, this`head, this`tail, this`order, table
      ensures Valid() && count == old(count) - 1
      ensures Contents() == old(Contents())[..i] + old(Contents())[i + 1..]
      ensures forall p :: 0 <= p < table.Length ==> table[p].key == if p == s then Freed else old(table[p].key)
    {
      hide Probed, Listed, Linked, Deleted;
      ghost var t := table[..];
      DeleteConsistent(t, order, head, tail, hash, i);
      DeletedKeys(t, order, i);
      head, tail := Unlink(table, s, head, tail, order, i);
      assert forall p :: 0 <= p < table.Length ==> table[p] == table[..][p];
      count := count - 1;
      order := Cut(order, i);
    }

    /** `lh_table_delete`: -1 when the key is not there; else the entry that the lookup finds goes, which
        is the only one when the keys are distinct. */
    method Delete(k: string) returns (rc: int, ghost s: int)
      requires Valid() && (HasEmpty(table[..]) || Present(table[..], k))
      modifies this`count, this`head, this`tail, this`order, table
      ensures Valid() && rc == (if old(Present(table[..], k)) then 0 else -1)
      ensures rc == 0 ==> OneLess(old(Contents()), Contents(), k)
      ensures old(DistinctKeys(Contents())) ==> Contents() == Without(old(Contents()), k)
      ensures rc == -1 ==>
        s == NIL && table[..] == old(table[..]) && count == old(count) && Contents() == old(Contents())
      ensures rc == 0 ==> 0 <= s < table.Length && old(table[s].key) == Live(k) && count == old(count) - 1
      ensures rc == 0 ==> forall p :: 0 <= p < table.Length ==>
        table[p].key == if p == s then Freed else old(table[p].key)
    {
      hide Probed, Linked;
      PresentIsMember(table[..], order, k);
      var n := LookupEntry(k);
      s := n;
      if n == NIL {
        WithoutAbsent(Contents(), k);
        return -1, NIL;
      }
      assert table[..][n].key == Live(k);
      ghost var i :| 0 <= i < |order| && order[i] == n;
      ghost var before := Contents();
      assert before[i].key == k;
      if DistinctKeys(before) { WithoutAt(before, i); }
      DeleteEntry(n, i);
      RemovedAt(before, i);
      rc := 0;
    }

    /**
     * `json_object_object_add`: the member list changes as `AddMember` says. On a table that is only
     * added to, deleting and inserting never leaves a FREED slot and always leaves an EMPTY one.
     */
    method ObjectAdd(k: string, v: Json)
      requires Valid() && DistinctKeys(Contents()) && (HasEmpty(table[..]) || Present(table[..], k))
      modifies this, table
      ensures Valid() && Contents() == AddMember(old(Contents()), k, v) && DistinctKeys(Contents())
      ensures table == old(table) || fresh(table)
      ensures old(AddOnly(table[..], count)) ==> AddOnly(table[..], count) && HasEmpty(table[..])
    {
      hide Probed, Listed, Linked;
      ghost var t := table[..];
      AddMemberDistinct(Contents(), k, v);
      WithoutDistinct(Contents(), k);
      var rc;
      ghost var s;
      rc, s := Delete(k);
      ghost var u := table[..];
      ghost var full := Overloaded(count, table.Length);
      Insert(k, v);
      if AddOnly(t, old(count)) {
        if !full && rc == 0 {
          ReusesSlot(t, u, hash, k, s, order[|order| - 1]);
        }
        AddOnlyHasEmpty(table[..], order);
      }
    }
  }

  /** One member with key `k` has gone, and the others are as they were. */
  ghost predicate OneLess(ms: seq<Member>, rest: seq<Member>, k: string) {
    exists i :: 0 <= i < |ms| && RemovedFrom(ms, rest, i) && ms[i].key == k
  }

  predicate RemovedFrom(ms: seq<Member>, rest: seq<Member>, i: int)
    requires 0 <= i < |ms|
  {
    rest == ms[..i] + ms[i + 1..]
  }

  lemma RemovedAt(ms: seq<Member>, i: nat)
    requires i < |ms|
    ensures OneLess(ms, ms[..i] + ms[i + 1..], ms[i].key)
  {
    assert RemovedFrom(ms, ms[..i] + ms[i + 1..], i);
  }

  lemma {:induction false} DeletedKeys(t: seq<Entry>, order: seq<int>, i: nat)
    requires Listed(t, order) && i < |order|
    ensures |Deleted(t, order, i)| == |t|
    ensures forall p :: 0 <= p < |t| ==> Deleted(t, order, i)[p].key == if p == order[i] then Freed else t[p].key
  {
    forall p | 0 <= p < |t|
      ensures |Deleted(t, order, i)| == |t| && Deleted(t, order, i)[p].key == if p == order[i] then Freed else t[p].key
    {
      DeletedElsewhere(t, order, i, p);
    }
  }

  /** Take slot `n` out of the list: it is alone, the head, the tail, or in between. */
  method Unlink(table: array<Entry>, n: int, head: int, tail: int, ghost order: seq<int>, ghost i: nat)
    returns (head': int, tail': int)
    requires Listed(table[..], order) && Linked(table[..], order, head, tail) && i < |order| && order[i] == n
    modifies table
    ensures table[..] == Deleted(old(table[..]), order, i)
    ensures head' == if i == 0 then NextOf(order, 0) else head
    ensures tail' == if i == |order| - 1 then PrevOf(order, i) else tail
  {
    var e := table[n];
    assert e == table[..][order[i]];
    assert table[..][order[0]] == table[order[0]];
    head', tail' := head, tail;
    table[n] := Entry(Freed, Null, NIL, NIL);
    if tail == n && head == n {
      head', tail' := NIL, NIL;
    } else if head == n {
      table[e.next] := table[e.next].(prev := NIL);
      head' := e.next;
    } else if tail == n {
      table[e.prev] := table[e.prev].(next := NIL);
      tail' := e.prev;
    } else {
      table[e.prev] := table[e.prev].(next := e.next);
      table[e.next] := table[e.next].(prev := e.prev);
    }
  }

  // ----- the members of an object

  /** What holds between two calls of `json_object_object_add` on a table used for nothing else. */
  ghost predicate AddOnly(t: seq<Entry>, count: int) {
    NoFreed(t) && |t| >= 3 && 100 * (count - 1) <= 66 * |t|
  }

  /** A table that was only added to always has an EMPTY slot, so no lookup is stranded. */
  lemma {:induction false} AddOnlyHasEmpty(t: seq<Entry>, order: seq<int>)
    requires Listed(t, order) && AddOnly(t, |order|)
    ensures HasEmpty(t)
  {
    var s := SpareSlot(t, order);
    assert t[s].key == Empty;
  }

  /** The only FREED slot is the one a replaced key was in: the new entry takes exactly that slot. */
  lemma {:induction false} ReusesSlot(t: seq<Entry>, u: seq<Entry>, hash: string -> nat, k: string, s: int, n: int)
    requires Probed(t, hash) && NoFreed(t) && 0 <= s < |t| && t[s].key == Live(k) && |u| == |t|
    requires forall p :: 0 <= p < |t| ==> u[p].key == if p == s then Freed else t[p].key
    requires FirstFree(u, Home(hash, k, |t|), n)
    ensures n == s
  {
    var home := Home(hash, k, |t|);
    assert Probe(home, Distance(home, n, |t|), |t|) == n;
    assert Probe(home, Distance(home, s, |t|), |t|) == s;
    if Distance(home, n, |t|) < Distance(home, s, |t|) {
      assert t[Probe(home, Distance(home, n, |t|), |t|)].key != Empty;
    }
  }

  lemma {:induction false} BoundedCount(t: seq<Entry>, order: seq<int>)
    requires Listed(t, order)
    ensures |order| <= |t|
  {
    DistinctCount(order);
    SubsetCount((set s | s in order), Range(|t|));
  }

  lemma {:induction false} PresentIsMember(t: seq<Entry>, order: seq<int>, k: string)
    requires Listed(t, order)
    ensures Present(t, k) <==> k in Keys(MembersOf(t, order))
  {
    var ms := MembersOf(t, order);
    if Present(t, k) {
      var s :| 0 <= s < |t| && t[s].key == Live(k);
      var i :| 0 <= i < |order| && order[i] == s;
      assert ms[i] in ms;
    }
    if k in Keys(ms) {
      var m :| m in ms && m.key == k;
      var i :| 0 <= i < |ms| && ms[i] == m;
      assert t[order[i]].key == Live(k);
    }
  }

  /** When keys have come and gone until every slot is FREED, the table is consistent and empty, and no
      lookup of any key would end. */
  lemma AllFreedStrands(t: seq<Entry>, hash: string -> nat, k: string)
    requires t != [] && forall s :: 0 <= s < |t| ==> t[s].key == Freed
    ensures Consistent(t, [], NIL, NIL, hash)
    ensures forall d :: 0 <= d < |t| ==> !Stops(t[Probe(Home(hash, k, |t|), d, |t|)], k)
  {
    if exists d :: 0 <= d < |t| && Stops(t[Probe(Home(hash, k, |t|), d, |t|)], k) {
      LookupEnds(t, hash, k);
    }
  }

  /** A table on which keys have come and gone, one for each slot: every slot is FREED, the table is empty,
      and no lookup on it would end. */
  method StrandedTable(keys: seq<string>, hash: string -> nat) returns (t: LhTable)
    requires keys != [] && forall i :: 0 <= i < |keys| ==> Home(hash, keys[i], |keys|) == i
    ensures fresh(t) && fresh(t.table) && t.Valid() && t.Contents() == [] && t.table.Length == |keys|
    ensures forall k, d :: 0 <= d < |keys| ==> !Stops(t.table[Probe(Home(hash, k, |keys|), d, |keys|)], k)
  {
    t := new LhTable(|keys|, hash);
    var i := 0;
    while i < |keys|
      invariant 0 <= i <= |keys| && t.hash == hash && fresh(t) && fresh(t.table) && t.table.Length == |keys|
      invariant t.Valid() && t.Contents() == [] && t.count == 0
      invariant forall s :: 0 <= s < |keys| ==> t.table[s].key == if s < i then Freed else Empty
    {
      ComeAndGo(t, keys[i], i);
      i := i + 1;
    }
    forall k ensures forall d :: 0 <= d < |keys| ==> !Stops(t.table[Probe(Home(hash, k, |keys|), d, |keys|)], k) {
      AllFreedStrands(t.table[..], hash, k);
    }
  }

  /** Insert a key into its home slot and delete it again: the slot is FREED, and nothing else has changed. */
  method ComeAndGo(t: LhTable, k: string, home: int)
    requires t.Valid() && t.Contents() == [] && t.count == 0
    requires 0 <= home < t.table.Length && Home(t.hash, k, t.table.Length) == home && !t.table[home].key.Live?
    modifies t, t.table
    ensures t.Valid() && t.Contents() == [] && t.count == 0 && t.table == old(t.table)
    ensures forall s :: 0 <= s < t.table.Length ==> t.table[s].key == if s == home then Freed else old(t.table[s].key)
  {
    ghost var before := t.table[..];
    NoneLive(before, t.order);
    hide Probed, Listed, Linked;
    t.Insert(k, Null);
    assert t.order[|t.order| - 1] == home by { HomeIsFree(before, home, t.order[|t.order| - 1]); }
    assert t.table[..][home].key == Live(k);
    var rc;
    ghost var s;
    rc, s := t.Delete(k);
  }

  lemma NoneLive(t: seq<Entry>, order: seq<int>)
    requires Listed(t, order) && MembersOf(t, order) == []
    ensures forall s :: 0 <= s < |t| ==> !t[s].key.Live?
  {
  }

  lemma HomeIsFree(t: seq<Entry>, home: int, n: int)
    requires 0 <= home < |t| && !t[home].key.Live? && FirstFree(t, home, n)
    ensures n == home
  {
    assert Probe(home, 0, |t|) == home;
  }

  // ----- the load test in floating point

  /** The double nearest to 0.66 is this number of 2^53rd parts. */
  const LOAD_PARTS: nat := 5944751508129055

  lemma IntProducts(size: int)
    requires 0 <= size < 0x8000_0000
    ensures size * LOAD_PARTS < Rounding.TWO_53 * Rounding.Pow2(31)
  {
    Rounding.Pow31();
  }

  /** `size * 0.66` as a double, in 2^53rd parts: the exact product is rounded to 53 significant bits. */
  function LoadLimit(size: int): nat
    requires 0 <= size < 0x8000_0000
  {
    IntProducts(size);
    Rounding.Rounded(size * LOAD_PARTS, 31)
  }

  /** For every size an `int` can hold, comparing a count with the double `size * 0.66` gives what comparing
      whole numbers gives. */
  lemma LoadTestExact(count: int, size: int)
    requires 0 <= size < 0x8000_0000
    ensures count * Rounding.TWO_53 > LoadLimit(size) <==> Overloaded(count, size)
  {
    var exact: nat := size * LOAD_PARTS;
    IntProducts(size);
    Rounding.RoundedNear(exact, 31);
    hide Rounding.Rounded;
    assert 100 * exact == 66 * (size * Rounding.TWO_53) + 28 * size;
    if !Overloaded(count, size) {
      assert count * Rounding.TWO_53 <= exact;
      assert count <= exact / Rounding.TWO_53;
    }
  }
}
