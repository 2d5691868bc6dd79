/** The parser keeps the reference counts right at every step, and hands over exactly one tree. */
module ParserOwnership {
  import opened JsonValue
  import opened Tokener
  import opened Ownership
  import opened TokenerValues

  // ----- which tree a reference stands for

  predicate Rep(h: Heap, p: Ptr, v: Json)
    decreases v
  {
    match v
    case Null => p == NULLPTR
    case Arr(items) =>
      p != NULLPTR && p in h && h[p].node.ArrNode? && |h[p].node.items| == |items| &&
      forall i :: 0 <= i < |items| ==> Rep(h, h[p].node.items[i], items[i])
    case Obj(members) =>
      p != NULLPTR && p in h && h[p].node.ObjNode? && |h[p].node.fields| == |members| &&
      forall i :: 0 <= i < |members| ==>
        h[p].node.fields[i].key == members[i].key && Rep(h, h[p].node.fields[i].value, members[i].value)
    case _ => p != NULLPTR && p in h && h[p].node == Scalar(v)
  }

  predicate KidsInside(h: Heap) {
    forall q, k :: q in h && k in Kids(h[q].node) && k != NULLPTR ==> k in h
  }

  /** A tree is the same in every heap that kept its nodes, whatever came or went beside it. */
  lemma {:induction false} RepAgree(h: Heap, g: Heap, p: Ptr, v: Json)
    requires Rep(h, p, v) && (p == NULLPTR || p in g) && KidsInside(g)
    requires forall q :: q in h && q in g ==> g[q].node == h[q].node
    ensures Rep(g, p, v)
    decreases v
  {
    match v
    case Arr(items) =>
      var n := h[p].node;
      forall i | 0 <= i < |items| ensures Rep(g, n.items[i], items[i]) {
        assert n.items[i] in Kids(g[p].node);
        RepAgree(h, g, n.items[i], items[i]);
      }
    case Obj(members) =>
      var n := h[p].node;
      forall i | 0 <= i < |members| ensures Rep(g, n.fields[i].value, members[i].value) {
        assert Kids(g[p].node)[i] == n.fields[i].value;
        RepAgree(h, g, n.fields[i].value, members[i].value);
      }
    case _ =>
  }

  predicate NobodysKid(h: Heap, q: Ptr) {
    forall r :: r in h ==> q !in Kids(h[r].node)
  }

  /** Changing a node nobody refers to changes no other tree. */
  lemma {:induction false} RepFrame(h: Heap, q: Ptr, n: Node, p: Ptr, v: Json)
    requires q in h && NobodysKid(h, q) && p != q && Rep(h, p, v)
    ensures Rep(SetNode(h, q, n), p, v)
    decreases v
  {
    match v
    case Arr(items) =>
      var m := h[p].node;
      forall i | 0 <= i < |items| ensures Rep(SetNode(h, q, n), m.items[i], items[i]) {
        assert m.items[i] in Kids(h[p].node);
        RepFrame(h, q, n, m.items[i], items[i]);
      }
    case Obj(members) =>
      var m := h[p].node;
      forall i | 0 <= i < |members| ensures Rep(SetNode(h, q, n), m.fields[i].value, members[i].value) {
        assert Kids(h[p].node)[i] == m.fields[i].value;
        RepFrame(h, q, n, m.fields[i].value, members[i].value);
      }
    case _ =>
  }

  // ----- the invariant

  predicate Ones(h: Heap) {
    forall p :: p in h ==> h[p].refs == 1
  }

  /** Children are younger than their parents, so no cycle can form. */
  predicate Ascending(h: Heap) {
    forall q, k :: q in h && k in Kids(h[q].node) ==> k == NULLPTR || q < k
  }

  /** Levels hold ever younger objects, and the value on its way down is the youngest. */
  predicate StackAscends(m: Mem, quiet: bool) {
    && (forall i, j :: 0 <= i < j < |m.below| ==> m.below[i] < m.below[j])
    && (forall i :: 0 <= i < |m.below| ==> m.level == NULLPTR || m.below[i] < m.level)
    && (!quiet ==> m.level != NULLPTR && (m.obj == NULLPTR || m.level < m.obj))
  }

  predicate HeapOk(m: Mem, quiet: bool) {
    Conserved(m.heap, m.next, Handles(m, quiet)) && Ones(m.heap) && Ascending(m.heap) && 0 < m.next
  }

  /** Every handle stands for the value the tokener has at that place. */
  predicate Trees(t: Tok, m: Mem) {
    && |m.below| == |t.below|
    && (forall i :: 0 <= i < |m.below| ==> Rep(m.heap, m.below[i], t.below[i].current))
    && Rep(m.heap, m.level, t.top.current)
    && (!Quiet(t) ==> Rep(m.heap, m.obj, t.obj))
  }

  /** `m` is the memory behind the tokener `t`. */
  predicate Owned(t: Tok, m: Mem) {
    HeapOk(m, Quiet(t)) && StackAscends(m, Quiet(t)) && Trees(t, m)
  }

  /** With every count 1, a handle is the only reference to its object. */
  lemma {:induction false} HandleIsOnly(h: Heap, next: Ptr, roots: multiset<Ptr>, p: Ptr)
    requires Conserved(h, next, roots) && Ones(h) && p in roots && p != NULLPTR
    ensures p in h && roots[p] == 1 && NobodysKid(h, p)
  {
    forall r | r in h ensures p !in Kids(h[r].node) {
      if p in Kids(h[r].node) {
        InDegreeChild(h, p, r, next);
      }
    }
  }

  // ----- making an object

  lemma {:induction false} NewConserves(h: Heap, next: Ptr, roots: multiset<Ptr>, n: Node)
    requires Conserved(h, next, roots + multiset{NULLPTR}) && 0 < next && Kids(n) == []
    ensures Conserved(h[next := Cell(1, n)], next + 1, roots + multiset{next})
  {
    var g := h[next := Cell(1, n)];
    assert next !in h;
    forall p | p in g ensures 0 < g[p].refs == (roots + multiset{next})[p] + InDegree(g, p, next + 1) {
      InDegreeSame(g, h, p, next);
      if p == next {
        if InDegree(h, p, next) > 0 {
          var q := InDegreeParent(h, p, next);
          assert false;
        }
        assert next !in roots + multiset{NULLPTR};
      } else {
        assert h[p].refs == (roots + multiset{NULLPTR})[p] + InDegree(h, p, next);
      }
    }
    forall p | p in roots + multiset{next} && p != NULLPTR ensures p in g {
      assert p == next || p in roots + multiset{NULLPTR};
    }
  }

  lemma {:induction false} NewHeapOk(m: Mem, v: Json)
    requires HeapOk(m, true) && m.level == NULLPTR && v != Null
    ensures HeapOk(New(m, v), true)
  {
    assert Handles(m, true) == multiset(m.below) + multiset{NULLPTR};
    NewConserves(m.heap, m.next, multiset(m.below), NodeOf(v));
    assert Handles(New(m, v), true) == multiset(m.below) + multiset{m.next};
  }

  lemma {:induction false} NewTrees(t: Tok, m: Mem, u: Tok, v: Json)
    requires HeapOk(m, true) && StackAscends(m, true) && Trees(t, m) && Leaf(v) && v != Null
    requires Quiet(u) && u.below == t.below && u.top.current == v
    ensures Trees(u, New(m, v)) && StackAscends(New(m, v), true)
  {
    var m' := New(m, v);
    assert KidsInside(m'.heap);
    forall i | 0 <= i < |m.below| ensures Rep(m'.heap, m.below[i], t.below[i].current) && m.below[i] < m.next {
      assert m.below[i] in Handles(m, true);
      RepAgree(m.heap, m'.heap, m.below[i], t.below[i].current);
    }
  }

  lemma {:induction false} MakeOwned(t: Tok, m: Mem, u: Tok, v: Json)
    requires Owned(t, m) && Quiet(t) && t.top.current == Null && Leaf(v)
    requires Quiet(u) && u.below == t.below && u.top.current == v
    ensures Owned(u, New(m, v))
  {
    if v != Null {
      NewHeapOk(m, v);
      NewTrees(t, m, u, v);
    }
  }

  // ----- moving between levels

  function Pushed(m: Mem): Mem {
    m.(below := m.below + [m.level], level := NULLPTR)
  }

  lemma {:induction false} PushHeapOk(m: Mem)
    requires HeapOk(m, true)
    ensures HeapOk(Pushed(m), true)
  {
    assert multiset(Pushed(m).below) == multiset(m.below) + multiset{m.level};
    HandlesModuloNull(m.heap, m.next, Handles(m, true), Handles(Pushed(m), true));
  }

  lemma {:induction false} PushTrees(t: Tok, m: Mem, u: Tok)
    requires Trees(t, m) && |u.below| == |t.below| + 1 && u.below[..|t.below|] == t.below
    requires u.below[|t.below|].current == t.top.current && u.top.current == Null && Quiet(u)
    ensures Trees(u, Pushed(m))
  {
    forall i | 0 <= i < |t.below| ensures u.below[i] == t.below[i] {
      assert u.below[..|t.below|][i] == t.below[i];
    }
  }

  lemma {:induction false} PushAscends(m: Mem)
    requires StackAscends(m, true) && m.level != NULLPTR
    ensures StackAscends(Pushed(m), true)
  {
  }

  lemma {:induction false} PushOwned(t: Tok, m: Mem, u: Tok)
    requires Owned(t, m) && Quiet(t) && t.top.current != Null
    requires Quiet(u) && |u.below| == |t.below| + 1 && u.below[..|t.below|] == t.below
    requires u.below[|t.below|].current == t.top.current && u.top.current == Null
    ensures Owned(u, Pushed(m))
  {
    PushHeapOk(m);
    PushTrees(t, m, u);
    PushAscends(m);
  }

  /** The null pointer owns nothing. */
  lemma {:induction false} HandlesModuloNull(h: Heap, next: Ptr, a: multiset<Ptr>, b: multiset<Ptr>)
    requires Conserved(h, next, a) && a[NULLPTR := 0] == b[NULLPTR := 0]
    ensures Conserved(h, next, b)
  {
    forall p | p in b && p != NULLPTR ensures p in a {
      assert p in b[NULLPTR := 0];
    }
    forall p | p in h ensures a[p] == b[p] {
      assert a[NULLPTR := 0][p] == b[NULLPTR := 0][p];
    }
  }

  lemma {:induction false} GetPut(h: Heap, p: Ptr)
    requires forall q :: q in h ==> 0 < h[q].refs
    ensures Put(Get(h, p), p) == h
  {
  }

  /** The memory after a level was taken off: the heap is the same, its reference has moved to `obj`. */
  function Popped(m: Mem): Mem
    requires m.below != []
  {
    m.(obj := m.level, level := m.below[|m.below| - 1], below := m.below[..|m.below| - 1])
  }

  lemma {:induction false} PopHandles(m: Mem)
    requires m.below != []
    ensures Handles(Popped(m), false) == Handles(m, true)
  {
    var n := |m.below| - 1;
    assert m.below == m.below[..n] + [m.below[n]];
  }

  lemma {:induction false} PopTrees(t: Tok, m: Mem, u: Tok)
    requires Trees(t, m) && t.below != []
    requires u.below == t.below[..|t.below| - 1] && u.top.current == t.below[|t.below| - 1].current
    requires u.obj == t.top.current
    ensures Trees(u, Popped(m))
  {
  }

  lemma {:induction false} PopAscends(m: Mem)
    requires StackAscends(m, true) && m.below != [] && m.below[|m.below| - 1] != NULLPTR
    ensures StackAscends(Popped(m), false)
  {
  }

  lemma {:induction false} PopOwned(t: Tok, m: Mem, u: Tok)
    requires Owned(t, m) && Quiet(t) && t.below != []
    requires u.below == t.below[..|t.below| - 1] && u.top.current == t.below[|t.below| - 1].current
    requires u.obj == t.top.current && !Quiet(u) && u.top.current != Null
    ensures Owned(u, ApplyTo(m, Pop, None))
  {
    hide Put, Get, Conserved, Ascending;
    GetPut(m.heap, m.level);
    assert ApplyTo(m, Pop, None) == Popped(m);
    PopHandles(m);
    PopTrees(t, m, u);
    assert Rep(m.heap, m.below[|m.below| - 1], u.top.current);
    PopAscends(m);
    hide ApplyTo, Popped, Handles, StackAscends, Trees, Rep;
  }

  // ----- adding to a container

  /** A node that gains some references and loses others settles accounts with the handles. */
  lemma {:induction false} SetNodeConserves(h: Heap, next: Ptr, roots: multiset<Ptr>, p: Ptr, n: Node,
      gained: multiset<Ptr>, lost: multiset<Ptr>)
    requires p in h && Conserved(h, next, roots + gained)
    requires multiset(Kids(n)) + lost == multiset(Kids(h[p].node)) + gained
    ensures Conserved(SetNode(h, p, n), next, roots + lost)
  {
    var g := SetNode(h, p, n);
    var held: multiset<Ptr> := multiset(Kids(h[p].node));
    forall q | q in g ensures 0 < g[q].refs == (roots + lost)[q] + InDegree(g, q, next) {
      InDegreeUpdate(h, p, g[p], q, next);
      assert (multiset(Kids(n)) + lost)[q] == (held + gained)[q];
    }
    forall q | q in held + gained && q != NULLPTR ensures q in h {
      assert q in Kids(h[p].node) || q in roots + gained;
    }
    forall q | q in roots + lost && q != NULLPTR ensures q in g {
      assert q in roots + gained || q in multiset(Kids(n)) + lost;
    }
    forall q, k | q in g && k in Kids(g[q].node) && k != NULLPTR ensures k in g {
      assert q == p ==> k in multiset(Kids(n)) + lost;
    }
  }

  /** The container on the top level and the value to be added are only held by the tokener. */
  lemma {:induction false} AddHandles(m: Mem)
    requires HeapOk(m, false) && StackAscends(m, false)
    ensures m.level in m.heap && NobodysKid(m.heap, m.level)
    ensures m.obj != m.level && m.level !in m.below
    ensures Handles(m, false) == multiset(m.below) + multiset{m.level} + multiset{m.obj}
  {
    HandleIsOnly(m.heap, m.next, Handles(m, false), m.level);
  }

  /** All other trees survive a change to the container's node. */
  lemma {:induction false} AddTrees(t: Tok, m: Mem, n: Node)
    requires Trees(t, m) && !Quiet(t) && m.level in m.heap && NobodysKid(m.heap, m.level)
    requires m.obj != m.level && m.level !in m.below
    ensures var g := SetNode(m.heap, m.level, n);
      && Rep(g, m.obj, t.obj)
      && forall i :: 0 <= i < |m.below| ==> Rep(g, m.below[i], t.below[i].current)
  {
    RepFrame(m.heap, m.level, n, m.obj, t.obj);
    forall i | 0 <= i < |m.below| ensures Rep(SetNode(m.heap, m.level, n), m.below[i], t.below[i].current) {
      RepFrame(m.heap, m.level, n, m.below[i], t.below[i].current);
    }
  }

  lemma {:induction false} AddedItemRep(h: Heap, p: Ptr, items: seq<Json>, q: Ptr, v: Json)
    requires Rep(h, p, Arr(items)) && NobodysKid(h, p) && q != p && Rep(h, q, v)
    ensures Rep(SetNode(h, p, ArrNode(h[p].node.items + [q])), p, Arr(items + [v]))
  {
    var old_ := h[p].node.items;
    var n := ArrNode(old_ + [q]);
    RepFrame(h, p, n, q, v);
    forall i | 0 <= i < |items| ensures Rep(SetNode(h, p, n), old_[i], items[i]) {
      assert old_[i] in Kids(h[p].node);
      RepFrame(h, p, n, old_[i], items[i]);
    }
  }

  /** The heap part of adding: the value's reference now belongs to the container. */
  lemma {:induction false} AddHeapOk(m: Mem, n: Node, lost: multiset<Ptr>)
    requires HeapOk(m, false) && StackAscends(m, false) && m.level in m.heap
    requires multiset(Kids(n)) + lost == multiset(Kids(m.heap[m.level].node)) + multiset{m.obj}
    ensures var g := SetNode(m.heap, m.level, n);
      && Conserved(g, m.next, multiset(m.below) + multiset{m.level} + lost)
      && Ones(g) && Ascending(g)
  {
    var roots := multiset(m.below) + multiset{m.level};
    SetNodeConserves(m.heap, m.next, roots, m.level, n, multiset{m.obj}, lost);
    forall k | k in Kids(n) ensures k == NULLPTR || m.level < k {
      assert k in multiset(Kids(n)) + lost;
      assert k in Kids(m.heap[m.level].node) || k == m.obj;
    }
  }

  /** Together: the trees and the order after the container's node was replaced. */
  lemma {:induction false} AddedTrees(t: Tok, m: Mem, u: Tok, n: Node)
    requires Trees(t, m) && StackAscends(m, false) && m.level in m.heap && Quiet(u) && u.below == t.below
    requires Rep(SetNode(m.heap, m.level, n), m.level, u.top.current)
    requires forall i :: 0 <= i < |m.below| ==> Rep(SetNode(m.heap, m.level, n), m.below[i], t.below[i].current)
    ensures var m' := m.(heap := SetNode(m.heap, m.level, n)); Trees(u, m') && StackAscends(m', true)
    ensures Handles(m.(heap := SetNode(m.heap, m.level, n)), true) == multiset(m.below) + multiset{m.level}
  {
  }

  function WithItem(items: seq<Ptr>, p: Ptr): Node {
    ArrNode(items + [p])
  }

  lemma {:induction false} AddItemReady(t: Tok, m: Mem, u: Tok, items: seq<Ptr>)
    requires HeapOk(m, false) && StackAscends(m, false) && Trees(t, m) && !Quiet(t) && t.top.current.Arr?
    requires Quiet(u) && u.below == t.below && u.top.current == Arr(t.top.current.items + [t.obj])
    requires m.level in m.heap && m.heap[m.level].node == ArrNode(items)
    ensures Owned(u, m.(heap := SetNode(m.heap, m.level, WithItem(items, m.obj))))
  {
    var n := WithItem(items, m.obj);
    AddHandles(m);
    AddTrees(t, m, n);
    AddedItemRep(m.heap, m.level, t.top.current.items, m.obj, t.obj);
    assert multiset(Kids(n)) + multiset{} == multiset(items) + multiset{m.obj};
    AddHeapOk(m, n, multiset{});
    AddedTrees(t, m, u, n);
    assert multiset(m.below) + multiset{m.level} + multiset{} == multiset(m.below) + multiset{m.level};
  }

  lemma {:induction false} AddItemOwned(t: Tok, m: Mem, u: Tok)
    requires Owned(t, m) && !Quiet(t) && t.top.current.Arr?
    requires Quiet(u) && u.below == t.below && u.top.current == Arr(t.top.current.items + [t.obj])
    ensures Owned(u, ApplyTo(m, AddItem, None))
  {
    AddItemReady(t, m, u, m.heap[m.level].node.items);
  }

  predicate FieldsRep(h: Heap, fields: seq<Field>, members: seq<Member>) {
    |fields| == |members| && forall i :: 0 <= i < |fields| ==>
      fields[i].key == members[i].key && Rep(h, fields[i].value, members[i].value)
  }

  lemma {:induction false} ConsRep(h: Heap, f: Field, m: Member, fs: seq<Field>, ms: seq<Member>)
    requires FieldsRep(h, fs, ms) && f.key == m.key && Rep(h, f.value, m.value)
    ensures FieldsRep(h, [f] + fs, [m] + ms)
  {
  }

  lemma {:induction false} WithoutRep(h: Heap, fields: seq<Field>, members: seq<Member>, key: string)
    requires FieldsRep(h, fields, members)
    ensures FieldsRep(h, FieldsWithout(fields, key), Without(members, key))
  {
    if fields != [] {
      var f, m := fields[0], members[0];
      var fs, ms := FieldsWithout(fields[1..], key), Without(members[1..], key);
      assert FieldsRep(h, fields[1..], members[1..]);
      WithoutRep(h, fields[1..], members[1..], key);
      assert Rep(h, f.value, m.value);
      ConsRep(h, f, m, fs, ms);
    }
  }

  /** Every reference of the old fields is either kept or given up. */
  lemma {:induction false} FieldsSplit(fields: seq<Field>, key: string)
    ensures multiset(Values(FieldsWithout(fields, key))) + multiset(ValuesOf(fields, key)) == multiset(Values(fields))
  {
    if fields == [] {
      assert Values(fields) == [];
    } else {
      var f, others := fields[0], fields[1..];
      FieldsSplit(others, key);
      assert Values(fields) == [f.value] + Values(others);
      if f.key != key {
        assert Values(FieldsWithout(fields, key)) == [f.value] + Values(FieldsWithout(others, key));
      }
    }
  }

  lemma {:induction false} FieldKids(fields: seq<Field>, key: string, q: Ptr)
    ensures multiset(Kids(ObjNode(FieldsWithout(fields, key) + [Field(key, q)]))) + multiset(ValuesOf(fields, key))
      == multiset(Kids(ObjNode(fields))) + multiset{q}
  {
    FieldsSplit(fields, key);
    var kept := FieldsWithout(fields, key);
    var values: seq<Ptr> := Values(kept);
    assert Values(kept + [Field(key, q)]) == values + [q];
    assert multiset(values + [q]) == multiset(values) + multiset{q};
  }

  lemma {:induction false} AddedFieldRep(h: Heap, p: Ptr, members: seq<Member>, key: string, q: Ptr, v: Json)
    requires Rep(h, p, Obj(members)) && NobodysKid(h, p) && q != p && Rep(h, q, v)
    ensures var n := ObjNode(FieldsWithout(h[p].node.fields, key) + [Field(key, q)]);
      Rep(SetNode(h, p, n), p, Obj(AddMember(members, key, v)))
  {
    var fields := h[p].node.fields;
    var n := ObjNode(FieldsWithout(fields, key) + [Field(key, q)]);
    var g := SetNode(h, p, n);
    RepFrame(h, p, n, q, v);
    forall i | 0 <= i < |fields| ensures Rep(g, fields[i].value, members[i].value) {
      assert Kids(h[p].node)[i] == fields[i].value;
      RepFrame(h, p, n, fields[i].value, members[i].value);
    }
    WithoutRep(g, fields, members, key);
  }

  lemma {:induction false} PutOnes(h: Heap, p: Ptr)
    requires Ones(h)
    ensures Ones(Put(h, p))
    decreases |h|, 0
  {
    if p in h {
      assert (h - {p}).Keys == h.Keys - {p};
      PutAllOnes(h - {p}, Kids(h[p].node));
    }
  }

  lemma {:induction false} PutAllOnes(h: Heap, ps: seq<Ptr>)
    requires Ones(h)
    ensures Ones(PutAll(h, ps))
    decreases |h|, 1 + |ps|
  {
    if ps != [] {
      PutOnes(h, ps[0]);
      PutAllOnes(Put(h, ps[0]), ps[1..]);
    }
  }

  /** All is well but for the references `ps`, which nobody holds any more. */
  predicate OwnedBut(t: Tok, m: Mem, ps: seq<Ptr>) {
    && Quiet(t) && Trees(t, m) && StackAscends(m, true) && 0 < m.next
    && Conserved(m.heap, m.next, Handles(m, true) + multiset(ps)) && Ones(m.heap) && Ascending(m.heap)
  }

  /** Giving up references that no tree of the tokener uses leaves all its trees alone. */
  lemma {:induction false} DropKeepsOwned(t: Tok, m: Mem, ps: seq<Ptr>)
    requires OwnedBut(t, m, ps)
    ensures Owned(t, m.(heap := PutAll(m.heap, ps)))
  {
    var g := PutAll(m.heap, ps);
    PutAllConserves(m.heap, m.next, Handles(m, true), ps);
    PutAllOnes(m.heap, ps);
    assert m.level in Handles(m, true);
    RepAgree(m.heap, g, m.level, t.top.current);
    forall i | 0 <= i < |m.below| ensures Rep(g, m.below[i], t.below[i].current) {
      assert m.below[i] in Handles(m, true);
      RepAgree(m.heap, g, m.below[i], t.below[i].current);
    }
  }

  function WithField(fields: seq<Field>, key: string, p: Ptr): Node {
    ObjNode(FieldsWithout(fields, key) + [Field(key, p)])
  }

  /** The object with its new field; the references its old field of that name held are left over. */
  lemma {:induction false} AddFieldReady(t: Tok, m: Mem, u: Tok, key: string, fields: seq<Field>)
    requires HeapOk(m, false) && StackAscends(m, false) && Trees(t, m) && !Quiet(t) && t.top.current.Obj?
    requires Quiet(u) && u.below == t.below && u.top.current == Obj(AddMember(t.top.current.members, key, t.obj))
    requires m.level in m.heap && m.heap[m.level].node == ObjNode(fields)
    ensures OwnedBut(u, m.(heap := SetNode(m.heap, m.level, WithField(fields, key, m.obj))), ValuesOf(fields, key))
  {
    var n := WithField(fields, key, m.obj);
    AddHandles(m);
    AddTrees(t, m, n);
    AddedFieldRep(m.heap, m.level, t.top.current.members, key, m.obj, t.obj);
    FieldKids(fields, key, m.obj);
    AddHeapOk(m, n, multiset(ValuesOf(fields, key)));
    AddedTrees(t, m, u, n);
  }

  lemma AddFieldResult(m: Mem, key: string, fields: seq<Field>)
    requires m.level in m.heap && m.heap[m.level].node == ObjNode(fields)
    ensures ApplyTo(m, AddField, Some(key))
      == m.(heap := PutAll(SetNode(m.heap, m.level, WithField(fields, key, m.obj)), ValuesOf(fields, key)))
  {
  }

  lemma {:induction false} AddFieldOwned(t: Tok, m: Mem, u: Tok, key: string)
    requires Owned(t, m) && !Quiet(t) && t.top.current.Obj?
    requires Quiet(u) && u.below == t.below && u.top.current == Obj(AddMember(t.top.current.members, key, t.obj))
    ensures Owned(u, ApplyTo(m, AddField, Some(key)))
  {
    var fields := m.heap[m.level].node.fields;
    AddFieldReady(t, m, u, key, fields);
    AddFieldResult(m, key, fields);
    DropKeepsOwned(u, m.(heap := SetNode(m.heap, m.level, WithField(fields, key, m.obj))), ValuesOf(fields, key));
  }

  // ----- one execution of the switch

  /** In which situations the switch has which effect. */
  predicate EffectFits(t: Tok, e: Effect, u: Tok) {
    match e
    case Keep => Quiet(t)
    case Make(_) => Quiet(t) && Quiet(u) && t.top.current == Null
    case Push => Quiet(t) && Quiet(u) && t.top.current != Null
    case Pop => Quiet(t) && !Quiet(u) && t.below != [] && u.top.current != Null
    case AddItem => !Quiet(t) && Quiet(u) && t.top.current.Arr?
    case AddField => !Quiet(t) && Quiet(u) && t.top.current.Obj? && t.top.field.Some?
  }

  predicate EffectOk(t: Tok, r: Result) {
    && EffectFits(t, r.effect, Apply(r.tok, r.effect))
    && (r.effect.Keep? && !r.move.Out? ==> Quiet(r.tok))
    && (r.effect.AddField? ==> r.tok.top.field == t.top.field)
  }

  /** Everything the memory needs to know of one execution of the switch. */
  predicate Performs(t: Tok, r: Result) {
    ControlOnly(t, r) && EffectOk(t, r)
  }

  predicate InContainer(s: State) {
    OfArray(s) || BeforeKey(s) || AfterKey(s) || s == ObjectField
  }

  lemma {:induction false} ContainerEffectOk(t: Tok, c: char)
    requires Inv(t) && InContainer(t.top.state)
    ensures EffectOk(t, Dispatch(t, c))
  {
    hide InStart, InNull, InBoolean, InNumber, InString, InStringEscape, InEscapeUnicode, InComment, AddMember;
    StepKeepsInv(t, c);
  }

  lemma {:induction false} ScalarEffectOk(t: Tok, c: char)
    requires Inv(t) && !InContainer(t.top.state)
    ensures EffectOk(t, Dispatch(t, c))
  {
    hide InArray, InKey, InValue, InObjectSep, MatchesWord, Numeric, Lower, Rank;
    StepKeepsInv(t, c);
  }

  lemma {:induction false} SwitchPerforms(t: Tok, c: char)
    requires Inv(t)
    ensures Performs(t, Dispatch(t, c))
  {
    if InContainer(t.top.state) { ContainerEffectOk(t, c); } else { ScalarEffectOk(t, c); }
    DispatchControl(t, c);
  }

  lemma {:induction false} KeepOwned(t: Tok, m: Mem, u: Tok)
    requires Owned(t, m) && Quiet(t) && Quiet(u) && u.below == t.below && u.top.current == t.top.current
    ensures Owned(u, m)
  {
  }

  lemma {:induction false} EffectOwned(t: Tok, m: Mem, r: Result)
    requires Owned(t, m) && Performs(t, r) && !r.move.Out?
    ensures Owned(Apply(r.tok, r.effect), ApplyTo(m, r.effect, r.tok.top.field))
  {
    var u := Apply(r.tok, r.effect);
    match r.effect
    case Keep => KeepOwned(t, m, u);
    case Make(v) => MakeOwned(t, m, u, v);
    case Push => PushOwned(t, m, u);
    case Pop => PopOwned(t, m, u);
    case AddItem => AddItemOwned(t, m, u);
    case AddField => AddFieldOwned(t, m, u, t.top.field.value);
  }

  /** The counts are right and the trees are the tokener's after every execution of the switch. */
  lemma {:induction false} StepOwned(t: Tok, m: Mem, c: char)
    requires Inv(t) && Owned(t, m) && !Dispatch(t, c).move.Out?
    ensures Owned(Step(t, c), StepOf(t, m, c))
  {
    SwitchPerforms(t, c);
    EffectOwned(t, m, Dispatch(t, c));
  }

  // ----- whole texts

  lemma {:induction false} SettleOwned(t: Tok, m: Mem, c: char)
    requires Inv(t) && Owned(t, m)
    ensures HeapOk(SettleOf(t, m, c), true)
    ensures Settle(t, c).1.Advance? || Settle(t, c).1 == Out(Success) ==> Owned(Settle(t, c).0, SettleOf(t, m, c))
    decreases Rank(t)
  {
    StepKeepsInv(t, c);
    SwitchPerforms(t, c);
    if !Dispatch(t, c).move.Out? {
      StepOwned(t, m, c);
    }
    if Dispatch(t, c).move.Redo? {
      SettleOwned(Step(t, c), StepOf(t, m, c), c);
    }
  }

  /** At the end of every call, and whatever it reports, the counts equal the references of the levels and nodes. */
  lemma {:induction false} RunOwned(t: Tok, m: Mem, text: string)
    requires Inv(t) && Owned(t, m) && Quiet(t)
    ensures HeapOk(RunOf(t, m, text), true)
    ensures var o := Run(t, text); o.err == Success || o.err == Continue ==> Owned(o.tok, RunOf(t, m, text))
    decreases |text|
  {
    if text != "" {
      SettleOwned(t, m, text[0]);
      if Settle(t, text[0]).1.Advance? && text[0] != NUL {
        RunOwned(Settle(t, text[0]).0, SettleOf(t, m, text[0]), text[1..]);
      }
    }
  }

  // ----- json_tokener_parse

  function Reversed(ps: seq<Ptr>): (r: seq<Ptr>)
    ensures multiset(r) == multiset(ps)
  {
    if ps == [] then []
    else
      assert ps == [ps[0]] + ps[1..];
      Reversed(ps[1..]) + [ps[0]]
  }

  /** Take the result if there is one, then free the tokener: its levels are reset from the top down. */
  function Finished(m: Mem, err: Error): (Heap, Ptr) {
    if err == Success then (PutAll(Get(m.heap, m.level), [m.level] + Reversed(m.below)), m.level)
    else (PutAll(m.heap, [m.level] + Reversed(m.below)), NULLPTR)
  }

  /** The heap and the pointer `json_tokener_parse` leaves its caller with, from an empty heap. */
  function ParseOf(text: string): (Heap, Ptr) {
    Finished(RunOf(NEW, EMPTY_MEM, text + [NUL]), Parse(text).err)
  }

  /** `p` is held by a chain of references that starts at `root`. */
  predicate Reaches(h: Heap, root: Ptr, p: Ptr)
    decreases p
  {
    p == root || exists q :: q < p && q in h && p in Kids(h[q].node) && Reaches(h, root, q)
  }

  lemma {:induction false} NothingUnreachable(h: Heap, next: Ptr, root: Ptr, p: Ptr)
    requires Conserved(h, next, multiset{root}) && Ascending(h) && p in h
    ensures Reaches(h, root, p) && root != NULLPTR
    decreases p
  {
    if p != root {
      var q := InDegreeParent(h, p, next);
      NothingUnreachable(h, next, root, q);
    }
  }

  lemma {:induction false} SuccessOk(m: Mem, v: Json)
    requires HeapOk(m, true) && Rep(m.heap, m.level, v)
    ensures var (h, r) := Finished(m, Success);
      Conserved(h, m.next, multiset{r}) && Ones(h) && Ascending(h) && Rep(h, r, v)
  {
    hide Rep, Ones, Put;
    var rest := Reversed(m.below);
    var all := [m.level] + rest;
    GetPut(m.heap, m.level);
    assert all[0] == m.level && all[1..] == rest;
    assert Finished(m, Success) == (PutAll(m.heap, rest), m.level);
    assert multiset{m.level} + multiset(rest) == Handles(m, true);
    PutAllConserves(m.heap, m.next, multiset{m.level}, rest);
    PutAllOnes(m.heap, rest);
    assert m.level in multiset{m.level};
    RepAgree(m.heap, PutAll(m.heap, rest), m.level, v);
  }

  lemma {:induction false} FailureOk(m: Mem, err: Error)
    requires HeapOk(m, true) && err != Success
    ensures var (h, r) := Finished(m, err);
      Conserved(h, m.next, multiset{r}) && Ascending(h) && r == NULLPTR
  {
    var all := [m.level] + Reversed(m.below);
    assert multiset{} + multiset(all) == Handles(m, true);
    PutAllConserves(m.heap, m.next, multiset{}, all);
    HandlesModuloNull(PutAll(m.heap, all), m.next, multiset{}, multiset{NULLPTR});
  }

  /**
   * Ownership. For every text: if `json_tokener_parse` succeeds, the heap holds exactly the objects
   * of the parsed value, each with one owner: the caller owns the root, and every other object is
   * owned by the container it is in. If it fails, every object made on the way has been freed.
   */
  lemma {:induction false} ParseOwnership(text: string)
    ensures var (h, r) := ParseOf(text);
      && (Parse(text).err == Success ==>
            && Rep(h, r, Value(Parse(text)))
            && forall p :: p in h ==> h[p].refs == 1 && Reaches(h, r, p))
      && (Parse(text).err != Success ==> h == map[] && r == NULLPTR)
  {
    var m := RunOf(NEW, EMPTY_MEM, text + [NUL]);
    RunOwned(NEW, EMPTY_MEM, text + [NUL]);
    var err := Parse(text).err;
    if err == Success {
      SuccessOk(m, Parse(text).tok.top.current);
    } else {
      FailureOk(m, err);
    }
    var (h, r) := ParseOf(text);
    forall p | p in h ensures Reaches(h, r, p) && r != NULLPTR {
      NothingUnreachable(h, m.next, r, p);
    }
  }
}
