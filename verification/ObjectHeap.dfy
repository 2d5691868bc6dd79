/** `json_object_get` and `json_object_put` on counts that change in place. */
module ObjectHeap {
  import opened Ownership

  /** Counts of live objects are positive. */
  predicate Positive(h: Heap) {
    forall p :: p in h ==> h[p].refs > 0
  }

  lemma {:induction false} PutPositive(h: Heap, p: Ptr)
    requires Positive(h)
    ensures Positive(Put(h, p))
    decreases |h|, 0
  {
    if p in h && h[p].refs <= 1 {
      var rest := h - {p};
      assert rest.Keys == h.Keys - {p};
      PutAllPositive(rest, Kids(h[p].node));
    }
  }

  lemma {:induction false} PutAllPositive(h: Heap, ps: seq<Ptr>)
    requires Positive(h)
    ensures Positive(PutAll(h, ps))
    decreases |h|, 1 + |ps|
  {
    if ps != [] {
      PutPositive(h, ps[0]);
      PutAllPositive(Put(h, ps[0]), ps[1..]);
    }
  }

  class ObjectHeap {
    var heap: Heap

    method JsonObjectGet(p: Ptr) returns (r: Ptr)
      modifies this
      ensures r == p && heap == Get(old(heap), p)
    {
      if p in heap { heap := heap[p := heap[p].(refs := heap[p].refs + 1)]; }
      r := p;
    }

    /** The last reference deletes the object: every reference it holds is put in its turn. */
    method JsonObjectPut(p: Ptr)
      requires Positive(heap)
      modifies this
      ensures heap == Put(old(heap), p) && Positive(heap)
      decreases |heap|, 0
    {
      PutPositive(heap, p);
      if p in heap {
        var refs := heap[p].refs - 1;
        if refs > 0 {
          heap := heap[p := heap[p].(refs := refs)];
        } else {
          var kids := Kids(heap[p].node);
          assert (heap - {p}).Keys == heap.Keys - {p};
          heap := heap - {p};
          PutEach(kids);
        }
      }
    }

    /** The loop of the delete functions for arrays and objects. */
    method PutEach(kids: seq<Ptr>)
      requires Positive(heap)
      modifies this
      ensures heap == PutAll(old(heap), kids) && Positive(heap)
      decreases |heap|, 1
    {
      hide Put, Positive;
      var i := 0;
      assert kids[0..] == kids;
      while i < |kids|
        invariant i <= |kids| && Positive(heap) && |heap| <= |old(heap)|
        invariant PutAll(heap, kids[i..]) == PutAll(old(heap), kids)
      {
        assert kids[i..][1..] == kids[i + 1..];
        JsonObjectPut(kids[i]);
        i := i + 1;
      }
    }
  }
}
