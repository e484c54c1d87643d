/** Growing byte vectors: a buffer whose capacity doubles from 64, appended to at
    either end. */
module Vectors {
  import opened Words

  const INITIAL_CAPACITY := 64

  /** Doubled until it is enough. */
  function Doubled(cap: nat, needed: nat): (r: nat)
    requires cap > 0
    ensures r >= needed && r >= cap
    decreases needed - cap
  {
    if cap >= needed then cap else Doubled(cap * 2, needed)
  }

  /** The capacity after making room. */
  function NextCapacity(cap: nat, needed: nat): (r: nat)
    ensures r >= needed && r >= cap
  {
    if needed == 0 || cap >= needed then cap else Doubled(if cap > 0 then cap else INITIAL_CAPACITY, needed)
  }

  /** Nothing, or 64 doubled k times. */
  ghost predicate CapacityOk(cap: nat) { cap == 0 || exists k: nat :: cap == INITIAL_CAPACITY * Pow2(k) }

  lemma {:induction false} DoubledOk(cap: nat, needed: nat, k: nat)
    requires cap == INITIAL_CAPACITY * Pow2(k)
    ensures exists k': nat :: Doubled(cap, needed) == INITIAL_CAPACITY * Pow2(k')
    decreases needed - cap
  {
    if cap < needed {
      assert cap * 2 == INITIAL_CAPACITY * Pow2(k + 1);
      DoubledOk(cap * 2, needed, k + 1);
    }
  }

  /** The growth rule keeps capacities of that form, and never takes more than
      twice what is needed once it starts growing. */
  lemma NextCapacityOk(cap: nat, needed: nat)
    requires CapacityOk(cap)
    ensures CapacityOk(NextCapacity(cap, needed))
    ensures NextCapacity(cap, needed) <= if cap >= needed || needed <= INITIAL_CAPACITY then MaxNat(cap, INITIAL_CAPACITY) else 2 * needed
  {
    if needed > 0 && cap < needed {
      if cap > 0 {
        var k: nat :| cap == INITIAL_CAPACITY * Pow2(k);
        DoubledOk(cap, needed, k);
      } else {
        assert INITIAL_CAPACITY == INITIAL_CAPACITY * Pow2(0);
        DoubledOk(INITIAL_CAPACITY, needed, 0);
      }
      DoubledTight(if cap > 0 then cap else INITIAL_CAPACITY, needed);
    }
  }

  function MaxNat(a: nat, b: nat): nat { if a < b then b else a }

  lemma {:induction false} DoubledTight(cap: nat, needed: nat)
    requires cap > 0
    ensures Doubled(cap, needed) < 2 * needed || Doubled(cap, needed) == cap
    decreases needed - cap
  {
    if cap < needed { DoubledTight(cap * 2, needed); }
  }

  class Vector {
    var data: array<byte>
    var size: nat

    ghost predicate Valid()
      reads this
    {
      size <= data.Length && CapacityOk(data.Length)
    }

    ghost function Contents(): seq<byte>
      reads this, data
      requires Valid()
    {
      data[..size]
    }

    constructor ()
      ensures Valid() && fresh(data) && Contents() == [] && data.Length == 0
    {
      data := new byte[0];
      size := 0;
    }

    /** vector_resize */
    method Resize(needed: nat)
      requires Valid()
      modifies this`data
      ensures Valid() && Contents() == old(Contents()) && size == old(size)
      ensures data.Length == NextCapacity(old(data.Length), needed)
      ensures data == old(data) || fresh(data)
      ensures old(data.Length) >= needed ==> data == old(data)
    {
      NextCapacityOk(data.Length, needed);
      if needed == 0 || data.Length >= needed { return; }
      var cap := if data.Length > 0 then data.Length else INITIAL_CAPACITY;
      ghost var first := cap;
      while cap < needed
        invariant 0 < cap && Doubled(cap, needed) == Doubled(first, needed)
        decreases needed - cap
      {
        cap := cap * 2;
      }
      var grown := new byte[cap];
      forall i | 0 <= i < size { grown[i] := data[i]; }
      data := grown;
    }

    /** vector_push */
    method Push(bytes: seq<byte>)
      requires Valid() && |bytes| > 0
      modifies this, data
      ensures Valid() && Contents() == old(Contents()) + bytes
      ensures data.Length == NextCapacity(old(data.Length), old(size) + |bytes|)
      ensures data == old(data) || fresh(data)
    {
      ghost var before := Contents();
      Resize(size + |bytes|);
      assert data[..size] == before;
      forall i | 0 <= i < |bytes| { data[size + i] := bytes[i]; }
      assert data[..size] == before;
      size := size + |bytes|;
    }

    /** vector_fpush: everything moves up, the new bytes come first. */
    method Fpush(bytes: seq<byte>)
      requires Valid() && |bytes| > 0
      modifies this, data
      ensures Valid() && Contents() == bytes + old(Contents())
      ensures data.Length == NextCapacity(old(data.Length), old(size) + |bytes|)
      ensures data == old(data) || fresh(data)
    {
      ghost var before := Contents();
      Resize(size + |bytes|);
      assert data[..size] == before;
      var n := |bytes|;
      forall i | 0 <= i < size { data[n + i] := data[i]; }
      assert forall i :: 0 <= i < size ==> data[n + i] == before[i];
      forall i | 0 <= i < n { data[i] := bytes[i]; }
      size := size + n;
    }
  }

  /** push_vector: a vector that never held anything adds nothing. */
  method PushVector(dest: Vector, src: Vector)
    requires dest.Valid() && src.Valid() && dest != src && dest.data != src.data
    requires src.size > 0 || src.data.Length == 0
    modifies dest, dest.data
    ensures dest.Valid() && dest.Contents() == old(dest.Contents()) + old(src.Contents())
  {
    if src.data.Length == 0 {
      assert dest.Contents() + src.Contents() == dest.Contents();
      return;
    }
    dest.Push(src.data[..src.size]);
  }

  /** fpush_vector */
  method FpushVector(dest: Vector, src: Vector)
    requires dest.Valid() && src.Valid() && dest != src && dest.data != src.data && src.size > 0
    modifies dest, dest.data
    ensures dest.Valid() && dest.Contents() == old(src.Contents()) + old(dest.Contents())
  {
    dest.Fpush(src.data[..src.size]);
  }
}
