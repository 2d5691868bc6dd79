/** The growing pointer array under a json array. */
module ArrayList {
  /** A pointer; 0 is null. */
  type Ptr = nat

  const DEFAULT_SIZE := 32

  /** The size after making room for index `max`: it can come out equal to `max`. */
  function GrownSize(size: nat, max: nat): nat {
    if max < size then size else if size * 2 > max then size * 2 else max
  }

  /** After making room, the index is inside the array exactly when it is less than twice the old size; an array
      that is too small comes to twice its size, or to the index itself when that is more. */
  lemma RoomExactly(size: nat, idx: nat)
    requires size > 0
    ensures idx < GrownSize(size, idx) <==> idx < 2 * size
    ensures size <= idx <= 2 * size ==> GrownSize(size, idx) == 2 * size
    ensures 2 * size < idx ==> GrownSize(size, idx) == idx
  {
  }

  function Nulls(n: nat): (s: seq<Ptr>)
    ensures |s| == n && forall i :: 0 <= i < n ==> s[i] == 0
  {
    seq(n, _ => 0)
  }

  /** What putting a pointer at an index makes of the list: a gap is filled with null pointers. */
  function PutAt(ps: seq<Ptr>, idx: nat, data: Ptr): seq<Ptr> {
    if idx < |ps| then ps[idx := data] else ps + Nulls(idx - |ps|) + [data]
  }

  class ArrayList {
    var arr: array<Ptr>
    var length: nat
    /** The pointers that the free function has been called on. */
    ghost var freed: seq<Ptr>

    /** Everything behind the length is null. */
    ghost predicate Valid()
      reads this, arr
    {
      arr.Length > 0 && length <= arr.Length && forall i :: length <= i < arr.Length ==> arr[i] == 0
    }

    ghost function Contents(): seq<Ptr>
      reads this, arr
      requires Valid()
    {
      arr[..length]
    }

    constructor ()
      ensures Valid() && Contents() == [] && freed == [] && fresh(arr) && arr.Length == DEFAULT_SIZE
    {
      arr := new Ptr[DEFAULT_SIZE](_ => 0);
      length := 0;
      freed := [];
    }

    method GetIdx(i: nat) returns (p: Ptr)
      requires Valid()
      ensures p == if i < length then Contents()[i] else 0
    {
      if i >= length { return 0; }
      p := arr[i];
    }

    /** `array_list_expand_internal` */
    method Expand(max: nat)
      requires Valid()
      modifies this`arr
      ensures Valid() && Contents() == old(Contents())
      ensures arr.Length == GrownSize(old(arr.Length), max) && (arr == old(arr) || fresh(arr))
    {
      if max < arr.Length { return; }
      var newSize := if arr.Length * 2 > max then arr.Length * 2 else max;
      var t := new Ptr[newSize];
      forall i | 0 <= i < newSize {
        t[i] := if i < arr.Length then arr[i] else 0;
      }
      assert t[..length] == arr[..length];
      arr := t;
    }

    /** `array_list_put_idx`: an overwritten pointer is freed. */
    method PutIdx(idx: nat, data: Ptr)
      requires Valid() && idx < 2 * arr.Length
      modifies this, arr
      ensures Valid() && Contents() == PutAt(old(Contents()), idx, data)
      ensures freed == old(freed) +
        if idx < old(length) && old(Contents())[idx] != 0 then [old(Contents())[idx]] else []
      ensures arr == old(arr) || fresh(arr)
    {
      ghost var before := Contents();
      RoomExactly(arr.Length, idx);
      Expand(idx);
      assert idx < length ==> arr[idx] == before[idx];
      if arr[idx] != 0 { freed := freed + [arr[idx]]; }
      arr[idx] := data;
      if length <= idx { length := idx + 1; }
      assert Contents() == PutAt(before, idx, data);
    }

    /** `array_list_add` is always inside the array: it appends, and frees nothing. */
    method Add(data: Ptr)
      requires Valid()
      modifies this, arr
      ensures Valid() && Contents() == old(Contents()) + [data] && freed == old(freed)
      ensures arr == old(arr) || fresh(arr)
    {
      assert Contents() + Nulls(0) + [data] == Contents() + [data];
      PutIdx(length, data);
    }
  }
}
