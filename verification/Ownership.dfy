/** Reference counts: who owns every `json_object`, at every step of the parser and at its end. */
module Ownership {
  import opened JsonValue
  import opened Tokener

  // ----- the heap of json objects

  /** An address; 0 is the null pointer. */
  type Ptr = nat

  const NULLPTR: Ptr := 0

  datatype Field = Field(key: string, value: Ptr)

  datatype Node = Scalar(v: Json) | ArrNode(items: seq<Ptr>) | ObjNode(fields: seq<Field>)

  datatype Cell = Cell(refs: nat, node: Node)

  type Heap = map<Ptr, Cell>

  function Values(fields: seq<Field>): (vs: seq<Ptr>)
    ensures |vs| == |fields| && forall i :: 0 <= i < |vs| ==> vs[i] == fields[i].value
  {
    seq(|fields|, i requires 0 <= i < |fields| => fields[i].value)
  }

  /** The references a node holds. */
  function Kids(n: Node): seq<Ptr> {
    match n
    case Scalar(_) => []
    case ArrNode(items) => items
    case ObjNode(fields) => Values(fields)
  }

  function Mult(n: Node, p: Ptr): nat {
    multiset(Kids(n))[p]
  }

  /** How many references to `p` the nodes below address `n` hold. */
  function InDegree(h: Heap, p: Ptr, n: Ptr): nat {
    if n == 0 then 0
    else InDegree(h, p, n - 1) + if n - 1 in h then Mult(h[n - 1].node, p) else 0
  }

  lemma {:induction false} InDegreeSame(h: Heap, g: Heap, p: Ptr, n: Ptr)
    requires forall q :: q < n ==> (q in h <==> q in g) && (q in h ==> h[q].node == g[q].node)
    ensures InDegree(h, p, n) == InDegree(g, p, n)
  {
    if n > 0 {
      InDegreeSame(h, g, p, n - 1);
    }
  }

  lemma {:induction false} InDegreeRemove(h: Heap, q: Ptr, p: Ptr, n: Ptr)
    requires q in h && q < n
    ensures InDegree(h - {q}, p, n) + Mult(h[q].node, p) == InDegree(h, p, n)
    decreases n
  {
    if q < n - 1 {
      InDegreeRemove(h, q, p, n - 1);
    } else {
      InDegreeSame(h - {q}, h, p, n - 1);
    }
  }

  lemma {:induction false} InDegreeUpdate(h: Heap, q: Ptr, c: Cell, p: Ptr, n: Ptr)
    requires q in h && q < n
    ensures InDegree(h[q := c], p, n) + Mult(h[q].node, p) == InDegree(h, p, n) + Mult(c.node, p)
    decreases n
  {
    if q < n - 1 {
      InDegreeUpdate(h, q, c, p, n - 1);
    } else {
      InDegreeSame(h[q := c], h, p, n - 1);
    }
  }

  lemma {:induction false} InDegreeParent(h: Heap, p: Ptr, n: Ptr) returns (q: Ptr)
    requires InDegree(h, p, n) > 0
    ensures q < n && q in h && p in Kids(h[q].node)
  {
    if n - 1 in h && Mult(h[n - 1].node, p) > 0 {
      q := n - 1;
    } else {
      q := InDegreeParent(h, p, n - 1);
    }
  }

  lemma {:induction false} InDegreeChild(h: Heap, p: Ptr, q: Ptr, n: Ptr)
    requires q in h && q < n && p in Kids(h[q].node)
    ensures InDegree(h, p, n) > 0
    decreases n
  {
    if q < n - 1 {
      InDegreeChild(h, p, q, n - 1);
    }
  }

  // ----- conservation

  /** No reference leads outside the heap. */
  predicate Closed(h: Heap, roots: multiset<Ptr>) {
    && (forall p :: p in roots && p != NULLPTR ==> p in h)
    && (forall q, p :: q in h && p in Kids(h[q].node) && p != NULLPTR ==> p in h)
  }

  /** Every count is the number of references held by `roots` and by the nodes. */
  predicate Conserved(h: Heap, next: Ptr, roots: multiset<Ptr>) {
    && (forall p :: p in h ==> 0 < p < next)
    && Closed(h, roots)
    && (forall p :: p in h ==> 0 < h[p].refs == roots[p] + InDegree(h, p, next))
  }

  // ----- json_object_get and json_object_put

  function Get(h: Heap, p: Ptr): Heap {
    if p in h then h[p := h[p].(refs := h[p].refs + 1)] else h
  }

  /** Dropping the last reference deletes the object, which drops every reference it holds. */
  function Put(h: Heap, p: Ptr): (g: Heap)
    ensures |g| <= |h| && g.Keys <= h.Keys
    ensures forall q :: q in g ==> g[q].node == h[q].node
    decreases |h|, 0
  {
    if p !in h then h
    else if h[p].refs > 1 then h[p := h[p].(refs := h[p].refs - 1)]
    else
      var rest := h - {p};
      assert rest.Keys == h.Keys - {p};
      PutAll(rest, Kids(h[p].node))
  }

  function PutAll(h: Heap, ps: seq<Ptr>): (g: Heap)
    ensures |g| <= |h| && g.Keys <= h.Keys
    ensures forall q :: q in g ==> g[q].node == h[q].node
    decreases |h|, 1 + |ps|
  {
    if ps == [] then h else PutAll(Put(h, ps[0]), ps[1..])
  }

  lemma {:induction false} GetConserves(h: Heap, next: Ptr, roots: multiset<Ptr>, p: Ptr)
    requires Conserved(h, next, roots) && (p == NULLPTR || p in h)
    ensures Conserved(Get(h, p), next, roots + multiset{p})
  {
    forall q | q in h ensures InDegree(Get(h, p), q, next) == InDegree(h, q, next) {
      InDegreeSame(Get(h, p), h, q, next);
    }
  }

  lemma {:induction false} DecrementConserves(h: Heap, next: Ptr, roots: multiset<Ptr>, p: Ptr)
    requires Conserved(h, next, roots + multiset{p}) && p in h && h[p].refs > 1
    ensures Conserved(h[p := h[p].(refs := h[p].refs - 1)], next, roots)
  {
    var g := h[p := h[p].(refs := h[p].refs - 1)];
    forall q | q in h ensures InDegree(g, q, next) == InDegree(h, q, next) {
      InDegreeSame(g, h, q, next);
    }
    forall q | q in roots && q != NULLPTR ensures q in g {
      assert q in roots + multiset{p};
    }
  }

  /** The last reference to `p` was dropped: what `p` referred to is now owed by nobody but the deletion. */
  lemma {:induction false} RemoveConserves(h: Heap, next: Ptr, roots: multiset<Ptr>, p: Ptr)
    requires Conserved(h, next, roots + multiset{p}) && p in h && h[p].refs == 1
    ensures Conserved(h - {p}, next, roots + multiset(Kids(h[p].node)))
  {
    var g, kids := h - {p}, multiset(Kids(h[p].node));
    assert h[p].refs == (roots + multiset{p})[p] + InDegree(h, p, next);
    assert roots[p] == 0 && InDegree(h, p, next) == 0;
    forall q, k | q in h && k in Kids(h[q].node) ensures k != p {
      if k == p {
        InDegreeChild(h, p, q, next);
      }
    }
    forall q | q in g ensures 0 < g[q].refs == (roots + kids)[q] + InDegree(g, q, next) {
      InDegreeRemove(h, p, q, next);
      assert h[q].refs == (roots + multiset{p})[q] + InDegree(h, q, next);
    }
    forall q | q in roots + kids && q != NULLPTR ensures q in g {
      if q in roots {
        assert q in roots + multiset{p} && q != p;
      } else {
        assert q in kids && q in Kids(h[p].node);
      }
    }
  }

  lemma {:induction false} PutConserves(h: Heap, next: Ptr, roots: multiset<Ptr>, p: Ptr)
    requires Conserved(h, next, roots + multiset{p})
    ensures Conserved(Put(h, p), next, roots)
    decreases |h|, 0
  {
    if p !in h {
      assert p in roots + multiset{p};
      assert p == NULLPTR;
      forall q | q in roots && q != NULLPTR ensures q in h {
        assert q in roots + multiset{p};
      }
    } else if h[p].refs > 1 {
      DecrementConserves(h, next, roots, p);
    } else {
      RemoveConserves(h, next, roots, p);
      assert (h - {p}).Keys == h.Keys - {p};
      PutAllConserves(h - {p}, next, roots, Kids(h[p].node));
    }
  }

  /** Dropping references keeps every count equal to the references that are left. */
  lemma {:induction false} PutAllConserves(h: Heap, next: Ptr, roots: multiset<Ptr>, ps: seq<Ptr>)
    requires Conserved(h, next, roots + multiset(ps))
    ensures Conserved(PutAll(h, ps), next, roots)
    decreases |h|, 1 + |ps|
  {
    if ps == [] {
      assert roots + multiset(ps) == roots;
    } else {
      assert ps == [ps[0]] + ps[1..];
      assert roots + multiset(ps) == roots + multiset(ps[1..]) + multiset{ps[0]};
      PutConserves(h, next, roots + multiset(ps[1..]), ps[0]);
      PutAllConserves(Put(h, ps[0]), next, roots, ps[1..]);
    }
  }

  // ----- what a tokener holds

  /** The references of a tokener: one per level, and the local `obj`. `level` holds the top. */
  datatype Mem = Mem(heap: Heap, next: Ptr, below: seq<Ptr>, level: Ptr, obj: Ptr)

  const EMPTY_MEM := Mem(map[], 1, [], NULLPTR, NULLPTR)

  /** The references owned outside the heap; `obj` owns its object only until it is added. */
  function Handles(m: Mem, quiet: bool): multiset<Ptr> {
    multiset(m.below) + multiset{m.level} + if quiet then multiset{} else multiset{m.obj}
  }

  // ----- the effects of the switch on the heap

  function NodeOf(v: Json): Node {
    match v
    case Arr(_) => ArrNode([])
    case Obj(_) => ObjNode([])
    case _ => Scalar(v)
  }

  function New(m: Mem, v: Json): Mem {
    if v == Null then m.(level := NULLPTR)
    else m.(heap := m.heap[m.next := Cell(1, NodeOf(v))], next := m.next + 1, level := m.next)
  }

  function SetNode(h: Heap, p: Ptr, n: Node): Heap
    requires p in h
  {
    h[p := h[p].(node := n)]
  }

  function FieldsWithout(fields: seq<Field>, key: string): seq<Field> {
    if fields == [] then []
    else if fields[0].key == key then FieldsWithout(fields[1..], key)
    else [fields[0]] + FieldsWithout(fields[1..], key)
  }

  /** The references held by the fields of that name. */
  function ValuesOf(fields: seq<Field>, key: string): seq<Ptr> {
    if fields == [] then []
    else if fields[0].key == key then [fields[0].value] + ValuesOf(fields[1..], key)
    else ValuesOf(fields[1..], key)
  }

  /** `json_object_object_add`: the old entry of that name goes, and with it its reference. */
  function AddTo(h: Heap, p: Ptr, key: Option<string>, v: Ptr): Heap {
    if p !in h then h
    else match h[p].node
      case ArrNode(items) => if key.None? then SetNode(h, p, ArrNode(items + [v])) else h
      case ObjNode(fields) =>
        if key.None? then h
        else PutAll(SetNode(h, p, ObjNode(FieldsWithout(fields, key.value) + [Field(key.value, v)])),
                    ValuesOf(fields, key.value))
      case _ => h
  }

  function ApplyTo(m: Mem, e: Effect, field: Option<string>): Mem {
    match e
    case Keep => m
    case Make(v) => New(m, v)
    case Push => m.(below := m.below + [m.level], level := NULLPTR)
    case Pop =>
      if m.below == [] then m
      else
        // obj = json_object_get(current); json_tokener_reset_level puts current
        var h := Put(Get(m.heap, m.level), m.level);
        m.(heap := h, obj := m.level, level := m.below[|m.below| - 1], below := m.below[..|m.below| - 1])
    case AddItem => m.(heap := AddTo(m.heap, m.level, None, m.obj))
    case AddField => m.(heap := AddTo(m.heap, m.level, field, m.obj))
  }

  function StepOf(t: Tok, m: Mem, c: char): Mem {
    var r := Dispatch(t, c);
    ApplyTo(m, r.effect, r.tok.top.field)
  }

  function SettleOf(t: Tok, m: Mem, c: char): Mem
    requires Inv(t)
    decreases Rank(t)
  {
    StepKeepsInv(t, c);
    if Dispatch(t, c).move.Redo? then SettleOf(Step(t, c), StepOf(t, m, c), c) else StepOf(t, m, c)
  }

  function RunOf(t: Tok, m: Mem, text: string): Mem
    requires Inv(t)
    decreases |text|
  {
    if text == "" then m
    else
      var m' := SettleOf(t, m, text[0]);
      if Settle(t, text[0]).1.Advance? && text[0] != NUL then RunOf(Settle(t, text[0]).0, m', text[1..]) else m'
  }
}
