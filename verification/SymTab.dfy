/** The symbol table: variables in the order they were put, found again through
    an open-addressing table of their indices that may be completely full. */
module SymTab {
  import opened Words
  import opened Bits
  import opened Vectors

  type Text = seq<byte>

  datatype Variable = Variable(name: Text, typ: u64, value: u64, scope: u64)

  const VARIABLE_SIZE := 32

  function Mix(name: Text, h: bv64): bv64
    decreases |name|
  {
    if name == [] then h else Mix(name[1..], (h ^ (name[0] as bv64)) * 1099511628211)
  }

  /** hash_key */
  function HashKey(name: Text, scope: u64): nat {
    Mix(name, 1469598103934665603 ^ (scope as bv64 * 0x9E3779B97F4A7C15)) as nat
  }

  /** Slots of the table for a capacity in bytes: one for every variable that fits. */
  function Slots(capacity: nat): nat { capacity / VARIABLE_SIZE }

  /** Where the search for a key starts. */
  function Home(name: Text, scope: u64, n: nat): nat
    requires n > 0
  {
    BitAnd(HashKey(name, scope), n - 1)
  }

  /** The slot e places behind i, round the end. */
  function Step(i: nat, e: nat, n: nat): (s: nat)
    requires n > 0
    ensures s < n
  {
    (i + e) % n
  }

  // -------------------------------------------------------------- powers of two

  /** A table capacity of the vector's form has a power of two of slots, so the
      mask is a remainder and every slot is reached. */
  lemma SlotsPower(capacity: nat) returns (k: nat)
    requires CapacityOk(capacity) && capacity > 0
    ensures Slots(capacity) == Pow2(k) && Slots(capacity) >= 2
    ensures forall x: nat :: BitAnd(x, Slots(capacity) - 1) == x % Slots(capacity)
  {
    var j: nat :| capacity == INITIAL_CAPACITY * Pow2(j);
    k := j + 1;
    assert capacity == VARIABLE_SIZE * (2 * Pow2(j));
    assert Slots(capacity) == 2 * Pow2(j) == Pow2(k);
    forall x: nat ensures BitAnd(x, Slots(capacity) - 1) == x % Slots(capacity) { AndLow(x, k); }
  }

  lemma StepNext(i: nat, e: nat, n: nat)
    requires n > 0
    ensures (Step(i, e, n) + 1) % n == Step(i, e + 1, n)
  {
    var s := (i + e) % n;
    var q := (i + e) / n;
    assert i + e == q * n + s;
    if s + 1 < n {
      ModUnique(i + e + 1, n, q, s + 1);
      ModUnique(s + 1, n, 0, s + 1);
    } else {
      assert i + e + 1 == (q + 1) * n;
      ModUnique(i + e + 1, n, q + 1, 0);
      ModUnique(n, n, 1, 0);
    }
  }

  /** Every slot is some number of steps away. */
  lemma StepReaches(i: nat, s: nat, n: nat) returns (e: nat)
    requires n > 0 && i < n && s < n
    ensures e < n && Step(i, e, n) == s
  {
    if s >= i {
      e := s - i;
      ModUnique(s, n, 0, s);
    } else {
      e := n - i + s;
      ModUnique(n + s, n, 1, s);
    }
  }

  // ------------------------------------------------------------------ the table

  predicate IsKey(v: Variable, name: Text, scope: u64) { v.name == name && v.scope == scope }

  /** The reference: a scan from the front. */
  function Scan(vars: seq<Variable>, name: Text, scope: u64): (r: Option<nat>)
    ensures r.Some? ==> r.value < |vars| && IsKey(vars[r.value], name, scope)
    ensures r.Some? ==> forall k :: 0 <= k < r.value ==> !IsKey(vars[k], name, scope)
    ensures r.None? ==> forall k :: 0 <= k < |vars| ==> !IsKey(vars[k], name, scope)
  {
    if vars == [] then None
    else
      match Scan(vars[..|vars| - 1], name, scope)
      case Some(i) => Some(i)
      case None => if IsKey(vars[|vars| - 1], name, scope) then Some(|vars| - 1) else None
  }

  function HomeOf(v: Variable, n: nat): nat
    requires n > 0
  {
    Home(v.name, v.scope, n)
  }

  /** Index id is e steps from home, behind smaller indices only. */
  ghost predicate OnPath(m: seq<nat>, home: nat, id: nat, e: nat)
    requires |m| > 0
  {
    && e < |m| && m[Step(home, e, |m|)] == id + 1
    && forall f :: 0 <= f < e ==> 0 < m[Step(home, f, |m|)] <= id
  }

  ghost predicate Reachable(m: seq<nat>, v: Variable, id: nat)
    requires |m| > 0
  {
    exists e: nat :: OnPath(m, HomeOf(v, |m|), id, e)
  }

  /** The table holds the first k variables, each once and within reach. */
  ghost predicate Holds(m: seq<nat>, vars: seq<Variable>, k: nat) {
    && 0 < |m| && k <= |vars| && k <= |m|
    && (forall s :: 0 <= s < |m| ==> m[s] <= k)
    && (forall s, t :: 0 <= s < t < |m| && m[s] == m[t] ==> m[s] == 0)
    && (forall id: nat :: id < k ==> Reachable(m, vars[id], id))
  }

  /** More slots than values: one is empty. */
  lemma {:induction false} FreeSlot(m: seq<nat>, k: nat) returns (s: nat)
    requires k < |m| && (forall s :: 0 <= s < |m| ==> m[s] <= k)
    requires forall s, t :: 0 <= s < t < |m| && m[s] == m[t] ==> m[s] == 0
    ensures s < |m| && m[s] == 0
    decreases k
  {
    if k == 0 {
      s := 0;
    } else if i :| 0 <= i < |m| && m[i] == k {
      var rest := m[..i] + m[i + 1..];
      forall a, b | 0 <= a < b < |rest| && rest[a] == rest[b] ensures rest[a] == 0 {
        assert rest[a] == m[if a < i then a else a + 1] && rest[b] == m[if b < i then b else b + 1];
      }
      forall a | 0 <= a < |rest| ensures rest[a] <= k - 1 { assert rest[a] == m[if a < i then a else a + 1]; }
      var t := FreeSlot(rest, k - 1);
      s := if t < i then t else t + 1;
    } else {
      s := FreeSlot(m, k - 1);
    }
  }

  lemma RoomLeft(m: seq<nat>, vars: seq<Variable>, k: nat) returns (s: nat)
    requires Holds(m, vars, k) && k < |m|
    ensures s < |m| && m[s] == 0
  {
    s := FreeSlot(m, k);
  }

  /** The next variable put in the first empty slot from its home. */
  lemma Inserted(m: seq<nat>, vars: seq<Variable>, k: nat, e: nat)
    requires Holds(m, vars, k) && k < |vars| && e < |m|
    requires var home := HomeOf(vars[k], |m|);
             m[Step(home, e, |m|)] == 0 && forall f :: 0 <= f < e ==> m[Step(home, f, |m|)] != 0
    requires k < |m|
    ensures Holds(m[Step(HomeOf(vars[k], |m|), e, |m|) := k + 1], vars, k + 1)
  {
    hide Home, Step;
    var n, home := |m|, HomeOf(vars[k], |m|);
    var at := Step(home, e, n);
    var m' := m[at := k + 1];
    forall f | 0 <= f < e ensures 0 < m'[Step(home, f, n)] <= k { assert m[Step(home, f, n)] != 0; }
    assert OnPath(m', home, k, e);
    forall s, t | 0 <= s < t < n && m'[s] == m'[t] ensures m'[s] == 0 {
      if s != at && t != at { assert m[s] == m[t]; }
    }
    forall s | 0 <= s < n ensures m'[s] <= k + 1 { if s != at { assert m[s] <= k; } }
    forall id: nat | id < k + 1 ensures Reachable(m', vars[id], id) {
      if id < k {
        assert Reachable(m, vars[id], id);
        var h := HomeOf(vars[id], n);
        var e': nat :| OnPath(m, h, id, e');
        forall f | 0 <= f < e' ensures 0 < m'[Step(h, f, n)] <= id { assert 0 < m[Step(h, f, n)] <= id; }
        assert OnPath(m', h, id, e');
      }
    }
  }

  lemma HoldsMore(m: seq<nat>, vars: seq<Variable>, k: nat, v: Variable)
    requires Holds(m, vars, k)
    ensures Holds(m, vars + [v], k)
  {
    hide Reachable;
    forall id: nat | id < k ensures Reachable(m, (vars + [v])[id], id) { assert Reachable(m, vars[id], id); }
  }

  lemma EmptyHolds(m: seq<nat>, vars: seq<Variable>)
    requires |m| > 0 && forall s :: 0 <= s < |m| ==> m[s] == 0
    ensures Holds(m, vars, 0)
  {}

  /** A search that has come e steps without a match. */
  ghost predicate Missed(m: seq<nat>, vars: seq<Variable>, name: Text, scope: u64, e: nat)
    requires |m| > 0
  {
    forall f :: 0 <= f < e ==>
      var v := m[Step(Home(name, scope, |m|), f, |m|)];
      0 < v <= |vars| && !IsKey(vars[v - 1], name, scope)
  }

  /** Every variable of this key is still ahead. */
  lemma StillAhead(m: seq<nat>, vars: seq<Variable>, name: Text, scope: u64, e: nat, id: nat) returns (at: nat)
    requires Holds(m, vars, |vars|) && Missed(m, vars, name, scope, e) && id < |vars| && IsKey(vars[id], name, scope)
    ensures e <= at && OnPath(m, Home(name, scope, |m|), id, at)
  {
    hide Home, Step;
    assert Reachable(m, vars[id], id);
    at :| OnPath(m, HomeOf(vars[id], |m|), id, at);
    assert m[Step(Home(name, scope, |m|), at, |m|)] == id + 1;
  }

  /** The first match is the lowest index. */
  lemma FirstMatch(m: seq<nat>, vars: seq<Variable>, name: Text, scope: u64, e: nat)
    requires Holds(m, vars, |vars|) && Missed(m, vars, name, scope, e) && e < |m|
    requires var v := m[Step(Home(name, scope, |m|), e, |m|)]; 0 < v <= |vars| && IsKey(vars[v - 1], name, scope)
    ensures Scan(vars, name, scope) == Some(m[Step(Home(name, scope, |m|), e, |m|)] - 1)
  {
    hide Home, Step, Holds, Scan;
    var id := m[Step(Home(name, scope, |m|), e, |m|)] - 1;
    var r := Scan(vars, name, scope);
    assert IsKey(vars[id], name, scope);
    var low := r.value;
    var at := StillAhead(m, vars, name, scope, e, low);
    assert m[Step(Home(name, scope, |m|), at, |m|)] == low + 1;
  }

  /** An empty slot, or a whole round, means there is none. */
  lemma NoMatch(m: seq<nat>, vars: seq<Variable>, name: Text, scope: u64, e: nat)
    requires Holds(m, vars, |vars|) && Missed(m, vars, name, scope, e)
    requires e == |m| || (e < |m| && m[Step(Home(name, scope, |m|), e, |m|)] == 0)
    ensures Scan(vars, name, scope) == None
  {
    hide Home, Step;
    var r := Scan(vars, name, scope);
    if r.Some? {
      var at := StillAhead(m, vars, name, scope, e, r.value);
    }
  }

  class Table {
    var vars: seq<Variable>
    /** Of the vector of variables, in bytes. */
    var capacity: nat
    /** vars_map: index + 1 of a variable, or 0. */
    var map_: array<nat>

    ghost predicate Valid()
      reads this, map_
    {
      && CapacityOk(capacity) && |vars| * VARIABLE_SIZE <= capacity && map_.Length == Slots(capacity)
      && (capacity > 0 ==> Holds(map_[..], vars, |vars|))
    }

    constructor ()
      ensures Valid() && vars == [] && capacity == 0 && fresh(map_)
    {
      vars, capacity, map_ := [], 0, new nat[0];
    }

    /** varInsert: the probing stops because a slot is free, even when this is the
        last one. */
    method Insert(id: nat)
      requires CapacityOk(capacity) && capacity > 0 && map_.Length == Slots(capacity)
      requires id < |vars| && id < map_.Length && Holds(map_[..], vars, id)
      modifies map_
      ensures Holds(map_[..], vars, id + 1)
    {
      hide Step, HashKey, BitAnd, Holds, CapacityOk, Slots;
      HomeLess(vars[id].name, vars[id].scope, capacity);
      var mask := Slots(capacity) - 1;
      ghost var m, n, home := map_[..], map_.Length, HomeOf(vars[id], map_.Length);
      ghost var free := RoomLeft(m, vars, id);
      ghost var last := StepReaches(home, free, n);
      var i: nat := BitAnd(HashKey(vars[id].name, vars[id].scope), mask);
      ghost var e: nat := 0;
      StepZero(home, n);
      while map_[i] != 0
        invariant map_[..] == m && i < n && i == Step(home, e, n) && e <= last
        invariant forall f :: 0 <= f < e ==> m[Step(home, f, n)] != 0
        decreases last - e
      {
        ProbeNext(capacity, home, e);
        i := BitAnd(i + 1, mask);
        e := e + 1;
      }
      Inserted(m, vars, id, e);
      map_[i] := id + 1;
      assert map_[..] == m[i := id + 1];
    }

    /** putVar */
    method Put(v: Variable)
      requires Valid()
      modifies this, map_
      ensures Valid() && vars == old(vars) + [v]
      ensures capacity == NextCapacity(old(capacity), (|old(vars)| + 1) * VARIABLE_SIZE)
      ensures map_ == old(map_) || fresh(map_)
    {
      hide Home, Step, Holds, CapacityOk;
      var cap := capacity;
      vars := vars + [v];
      NextCapacityOk(capacity, |vars| * VARIABLE_SIZE);
      capacity := NextCapacity(capacity, |vars| * VARIABLE_SIZE);
      ghost var k := SlotsPower(capacity);
      FitsSlots(|vars|, capacity);
      if capacity != cap {
        map_ := new nat[Slots(capacity)](i => 0);
        EmptyHolds(map_[..], vars);
        for i := 0 to |vars|
          invariant vars == old(vars) + [v] && fresh(map_)
          invariant capacity == NextCapacity(old(capacity), (|old(vars)| + 1) * VARIABLE_SIZE)
          invariant map_.Length == Slots(capacity) && Holds(map_[..], vars, i)
        {
          Insert(i);
        }
      } else {
        HoldsMore(map_[..], old(vars), |old(vars)|, v);
        Insert(|vars| - 1);
      }
    }

    /** varFind: what a scan of the variables would find. */
    method Find(name: Text, scope: u64) returns (r: Option<nat>)
      requires Valid()
      ensures r == Scan(vars, name, scope)
    {
      hide Step, Holds, Missed, HashKey, BitAnd, Scan;
      if capacity == 0 {
        NoVariables(vars, name, scope);
        return None;
      }
      var ncap := Slots(capacity);
      ghost var k := SlotsPower(capacity);
      HomeLess(name, scope, capacity);
      ghost var home := Home(name, scope, ncap);
      var i: nat := BitAnd(HashKey(name, scope), ncap - 1);
      StepZero(home, ncap);
      NothingMissed(map_[..], vars, name, scope);
      for e := 0 to ncap
        invariant i < ncap && i == Step(home, e, ncap)
        invariant Missed(map_[..], vars, name, scope, e)
      {
        var slot := map_[i];
        if slot == 0 {
          NoMatch(map_[..], vars, name, scope, e);
          return None;
        }
        SlotBound(map_[..], vars, i);
        var v := vars[slot - 1];
        if v.scope == scope && v.name == name {
          FirstMatch(map_[..], vars, name, scope, e);
          return Some(slot - 1);
        }
        MissedOne(map_[..], vars, name, scope, e);
        ProbeNext(capacity, home, e);
        i := BitAnd(i + 1, ncap - 1);
      }
      NoMatch(map_[..], vars, name, scope, ncap);
      r := None;
    }
  }

  lemma HomeLess(name: Text, scope: u64, capacity: nat)
    requires CapacityOk(capacity) && capacity > 0
    ensures Slots(capacity) > 0 && Home(name, scope, Slots(capacity)) < Slots(capacity)
  {
    hide HashKey, BitAnd;
    var k := SlotsPower(capacity);
    assert BitAnd(HashKey(name, scope), Slots(capacity) - 1) == HashKey(name, scope) % Slots(capacity);
  }

  /** One step of a probe, by the mask. */
  lemma ProbeNext(capacity: nat, home: nat, e: nat)
    requires CapacityOk(capacity) && capacity > 0
    ensures Slots(capacity) > 0
    ensures BitAnd(Step(home, e, Slots(capacity)) + 1, Slots(capacity) - 1) == Step(home, e + 1, Slots(capacity))
  {
    hide BitAnd, Step;
    var k := SlotsPower(capacity);
    var s := Step(home, e, Slots(capacity)) + 1;
    assert BitAnd(s, Slots(capacity) - 1) == s % Slots(capacity);
    StepNext(home, e, Slots(capacity));
  }

  lemma StepZero(i: nat, n: nat)
    requires i < n
    ensures Step(i, 0, n) == i
  {
    ModUnique(i, n, 0, i);
  }

  lemma FitsSlots(count: nat, capacity: nat)
    requires count * VARIABLE_SIZE <= capacity
    ensures count <= Slots(capacity)
  {}

  lemma NoVariables(vars: seq<Variable>, name: Text, scope: u64)
    ensures vars == [] ==> Scan(vars, name, scope) == None
  {}

  lemma NothingMissed(m: seq<nat>, vars: seq<Variable>, name: Text, scope: u64)
    requires |m| > 0
    ensures Missed(m, vars, name, scope, 0)
  {}

  lemma SlotBound(m: seq<nat>, vars: seq<Variable>, i: nat)
    requires Holds(m, vars, |vars|) && i < |m|
    ensures m[i] <= |vars|
  {}

  lemma MissedOne(m: seq<nat>, vars: seq<Variable>, name: Text, scope: u64, e: nat)
    requires |m| > 0 && Missed(m, vars, name, scope, e)
    requires var v := m[Step(Home(name, scope, |m|), e, |m|)]; 0 < v <= |vars| && !IsKey(vars[v - 1], name, scope)
    ensures Missed(m, vars, name, scope, e + 1)
  {
    hide Home, Step;
  }
}
