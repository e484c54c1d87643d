/** Scopes of the parser, and their replay: later passes only count the blocks
    they enter and never leave one. */
module Scopes {
  import opened Words
  import opened SymTab

  /** Every scope but the root has a parent with a smaller number. */
  predicate TreeOk(parents: seq<u64>) {
    |parents| > 0 && forall i :: 1 <= i < |parents| ==> parents[i] < i
  }

  /** varLookup: the scope itself, then its ancestors. */
  function Lookup(vars: seq<Variable>, parents: seq<u64>, name: Text, scope: nat): (r: Option<nat>)
    requires TreeOk(parents) && scope < |parents| < TWO64
    ensures r.Some? ==> r.value < |vars| && vars[r.value].name == name
    decreases scope
  {
    match Scan(vars, name, scope)
    case Some(id) => Some(id)
    case None => if scope == 0 then None else Lookup(vars, parents, name, parents[scope])
  }

  /** a is d or an ancestor of d. */
  predicate Encloses(parents: seq<u64>, a: nat, d: nat)
    requires TreeOk(parents) && d < |parents|
    decreases d
  {
    a == d || (d > 0 && Encloses(parents, a, parents[d]))
  }

  lemma {:induction false} EnclosesLess(parents: seq<u64>, a: nat, d: nat)
    requires TreeOk(parents) && d < |parents| && Encloses(parents, a, d)
    ensures a <= d
    decreases d
  {
    if a != d { EnclosesLess(parents, a, parents[d]); }
  }

  lemma {:induction false} EnclosesTrans(parents: seq<u64>, a: nat, b: nat, c: nat)
    requires TreeOk(parents) && b < |parents| && c < |parents| && Encloses(parents, a, b) && Encloses(parents, b, c)
    ensures Encloses(parents, a, c)
    decreases c
  {
    if b != c { EnclosesTrans(parents, a, b, parents[c]); }
  }

  /** The scopes around one scope are a chain. */
  lemma {:induction false} EnclosesChain(parents: seq<u64>, a: nat, b: nat, c: nat)
    requires TreeOk(parents) && c < |parents| && Encloses(parents, a, c) && Encloses(parents, b, c) && a <= b
    ensures b < |parents| && Encloses(parents, a, b)
    decreases c
  {
    EnclosesLess(parents, b, c);
    if b != c {
      EnclosesChain(parents, a, b, parents[c]);
    }
  }

  lemma {:induction false} EnclosesGrows(parents: seq<u64>, more: seq<u64>, a: nat, d: nat)
    requires TreeOk(parents) && TreeOk(parents + more) && d < |parents|
    ensures Encloses(parents + more, a, d) <==> Encloses(parents, a, d)
    decreases d
  {
    if d > 0 && a != d { EnclosesGrows(parents, more, a, parents[d]); }
  }

  /** What a lookup finds: the binding in the nearest enclosing scope that has
      one. */
  lemma {:induction false} LookupNearest(vars: seq<Variable>, parents: seq<u64>, name: Text, scope: nat)
    requires TreeOk(parents) && scope < |parents| < TWO64
    ensures var r := Lookup(vars, parents, name, scope);
            r.Some? ==>
              && Encloses(parents, vars[r.value].scope, scope)
              && Scan(vars, name, vars[r.value].scope) == r
              && forall t: u64 :: Encloses(parents, t, scope) && t > vars[r.value].scope ==> Scan(vars, name, t) == None
    ensures Lookup(vars, parents, name, scope).None? ==>
              forall t: u64 :: Encloses(parents, t, scope) ==> Scan(vars, name, t) == None
    decreases scope
  {
    hide Scan;
    if Scan(vars, name, scope).None? && scope > 0 {
      LookupNearest(vars, parents, name, parents[scope]);
    }
    forall t: u64 | Encloses(parents, t, scope) ensures t <= scope { EnclosesLess(parents, t, scope); }
  }

  /** A variable that is put later does not hide one that is found. */
  lemma {:induction false} ScanGrows(vars: seq<Variable>, more: seq<Variable>, name: Text, scope: u64)
    requires Scan(vars, name, scope).Some?
    ensures Scan(vars + more, name, scope) == Scan(vars, name, scope)
    decreases |more|
  {
    if more == [] {
      assert vars + more == vars;
    } else {
      assert (vars + more)[..|vars + more| - 1] == vars + more[..|more| - 1];
      ScanGrows(vars, more[..|more| - 1], name, scope);
    }
  }

  // ---------------------------------------------------------------- the parser

  datatype State = State(vars: seq<Variable>, parents: seq<u64>, scope: nat)

  /** What matters of a program text: a block begins, a block ends, a name is
      used. */
  datatype Event = Open | Close | Use(name: Text)

  predicate StateOk(s: State) { TreeOk(s.parents) && s.scope < |s.parents| < TWO64 }

  /** scope_enter, scope_leave, and an identifier: declared where it is first used
      when no enclosing scope has it. In scope 0, where the parser is for member
      names, nothing is declared. */
  function Next(s: State, e: Event): State
    requires StateOk(s)
  {
    match e
    case Open => s.(parents := s.parents + [s.scope], scope := |s.parents|)
    case Close => if s.scope > 0 then s.(scope := s.parents[s.scope]) else s
    case Use(name) =>
      if s.scope == 0 || Lookup(s.vars, s.parents, name, s.scope).Some? then s
      else s.(vars := s.vars + [Variable(name, 0, 0, s.scope)])
  }

  /** Room for the scopes that are still to be opened. */
  predicate Fits(s: State, es: seq<Event>) { StateOk(s) && |s.parents| + |es| < TWO64 }

  function Run(s: State, es: seq<Event>): (r: State)
    requires Fits(s, es)
    ensures StateOk(r) && |r.parents| <= |s.parents| + |es|
    decreases |es|
  {
    if es == [] then s else Next(Run(s, es[..|es| - 1]), es[|es| - 1])
  }

  function Opens(es: seq<Event>): nat {
    if es == [] then 0 else Opens(es[..|es| - 1]) + if es[|es| - 1].Open? then 1 else 0
  }

  /** The current scope encloses the newest one, and no name was ever declared
      below a declaration of it that came first. */
  ghost predicate Invariant(s: State) {
    && StateOk(s)
    && Encloses(s.parents, s.scope, |s.parents| - 1)
    && (forall i :: 0 <= i < |s.vars| ==> s.vars[i].scope < |s.parents|)
    && (forall i, j :: 0 <= i < j < |s.vars| && s.vars[i].name == s.vars[j].name ==>
          !Encloses(s.parents, s.vars[i].scope, s.vars[j].scope))
  }

  lemma OpenKeeps(s: State)
    requires Invariant(s) && |s.parents| + 1 < TWO64
    ensures Invariant(Next(s, Open))
  {
    var t := Next(s, Open);
    forall i, j | 0 <= i < j < |t.vars| && t.vars[i].name == t.vars[j].name
      ensures !Encloses(t.parents, t.vars[i].scope, t.vars[j].scope)
    {
      EnclosesGrows(s.parents, [s.scope], s.vars[i].scope, s.vars[j].scope);
    }
  }

  lemma CloseKeeps(s: State)
    requires Invariant(s)
    ensures Invariant(Next(s, Close))
  {
    var t := Next(s, Close);
    if s.scope > 0 {
      assert Encloses(s.parents, t.scope, s.scope);
      EnclosesTrans(s.parents, t.scope, s.scope, |s.parents| - 1);
    }
  }

  lemma UseKeeps(s: State, name: Text)
    requires Invariant(s)
    ensures Invariant(Next(s, Use(name)))
  {
    hide Scan;
    var t := Next(s, Use(name));
    LookupNearest(s.vars, s.parents, name, s.scope);
    forall i, j | 0 <= i < j < |t.vars| && t.vars[i].name == t.vars[j].name
      ensures !Encloses(t.parents, t.vars[i].scope, t.vars[j].scope)
    {
      if j == |s.vars| { assert IsKey(s.vars[i], name, s.vars[i].scope); }
    }
  }

  lemma {:induction false} RunKeeps(s: State, es: seq<Event>)
    requires Invariant(s) && Fits(s, es)
    ensures Invariant(Run(s, es))
    ensures |Run(s, es).parents| == |s.parents| + Opens(es)
    ensures s.vars <= Run(s, es).vars && s.parents <= Run(s, es).parents
    decreases |es|
  {
    hide Invariant, Lookup;
    if es != [] {
      var most, e := es[..|es| - 1], es[|es| - 1];
      RunKeeps(s, most);
      var t := Run(s, most);
      match e
      case Open => OpenKeeps(t);
      case Close => CloseKeeps(t);
      case Use(name) => UseKeeps(t, name);
    }
  }

  lemma {:induction false} RunConcat(s: State, a: seq<Event>, b: seq<Event>)
    requires Fits(s, a + b)
    ensures Fits(s, a) && Fits(Run(s, a), b) && Run(s, a + b) == Run(Run(s, a), b)
    decreases |b|
  {
    if b == [] {
      assert a + b == a;
    } else {
      assert (a + b)[..|a + b| - 1] == a + b[..|b| - 1];
      RunConcat(s, a, b[..|b| - 1]);
    }
  }

  // ---------------------------------------------------------------- the replay

  /** The parser between `before` and `after`, at a use of a name in a scope where
      names are declared. */
  ghost predicate AtUse(s0: State, before: seq<Event>, name: Text, after: seq<Event>) {
    && Invariant(s0) && s0.scope == |s0.parents| - 1 && Fits(s0, before + [Use(name)] + after)
    && Fits(s0, before) && Run(s0, before).scope != 0
  }

  /** The scope a later pass looks in: the number of blocks it has entered. */
  function Counter(s0: State, before: seq<Event>): nat { s0.scope + Opens(before) }

  lemma Final(s0: State, before: seq<Event>, name: Text, after: seq<Event>) returns (s: State, u: State, f: State)
    requires AtUse(s0, before, name, after)
    ensures Fits(s0, before) && s == Run(s0, before) && u == Next(s, Use(name))
    ensures Fits(s0, before + [Use(name)] + after) && f == Run(s0, before + [Use(name)] + after)
    ensures Invariant(s) && Invariant(u) && Invariant(f) && Counter(s0, before) == |s.parents| - 1
    ensures u.parents == s.parents && u.scope == s.scope && u.vars <= f.vars && u.parents <= f.parents
    ensures Lookup(u.vars, u.parents, name, u.scope).Some?
  {
    hide Invariant, Lookup, Run;
    RunConcat(s0, before + [Use(name)], after);
    RunConcat(s0, before, [Use(name)]);
    s := Run(s0, before);
    RunOne(s, Use(name));
    u := Next(s, Use(name));
    RunKeeps(s0, before);
    UseKeeps(s, name);
    f := Run(s0, before + [Use(name)] + after);
    RunKeeps(u, after);
    UseFinds(s, name);
  }

  lemma RunOne(s: State, e: Event)
    requires Fits(s, [e])
    ensures Run(s, [e]) == Next(s, e)
  {
    assert [e][..0] == [];
  }

  lemma UseFinds(s: State, name: Text)
    requires StateOk(s) && s.scope != 0
    ensures var u := Next(s, Use(name)); Lookup(u.vars, u.parents, name, u.scope).Some?
  {
    hide Scan;
    var u := Next(s, Use(name));
    if |u.vars| > |s.vars| {
      assert IsKey(u.vars[|s.vars|], name, s.scope);
    }
  }

  /** t hides a from c: a scope between them, below a. */
  predicate Below(parents: seq<u64>, t: nat, a: nat, c: nat)
    requires TreeOk(parents) && c < |parents|
  {
    t < |parents| && t != a && Encloses(parents, t, c) && Encloses(parents, a, t)
  }

  /** An earlier variable of this name hides the binding. */
  ghost predicate Hidden(f: State, name: Text, binding: nat, c: nat)
    requires StateOk(f) && c < |f.parents| && binding < |f.vars|
  {
    exists id :: 0 <= id < binding && f.vars[id].name == name && Below(f.parents, f.vars[id].scope, f.vars[binding].scope, c)
  }

  /** Replaying by a counter. The counter scope is enclosed by the parser's scope,
      so the lookup succeeds; it finds the parser's binding exactly when no earlier
      variable of the name lies in a scope below that binding, in which the counter
      still is. */
  lemma ReplaySound(s0: State, before: seq<Event>, name: Text, after: seq<Event>)
    requires AtUse(s0, before, name, after)
    ensures Fits(s0, before) && Fits(s0, before + [Use(name)] + after)
    ensures var s, f, c := Run(s0, before), Run(s0, before + [Use(name)] + after), Counter(s0, before);
            var u := Next(s, Use(name));
            var parsed := Lookup(u.vars, u.parents, name, s.scope);
            && c < |f.parents| && Encloses(f.parents, s.scope, c)
            && parsed.Some? && parsed.value < |f.vars|
            && Lookup(f.vars, f.parents, name, c).Some?
            && (Lookup(f.vars, f.parents, name, c) == parsed <==> !Hidden(f, name, parsed.value, c))
  {
    hide Invariant, Lookup, Run, Scan;
    var s, u, f := Final(s0, before, name, after);
    var c := Counter(s0, before);
    InvariantParts(s);
    InvariantParts(f);
    GrowsParents(u, f, s.scope, c);
    var parsed := Lookup(u.vars, u.parents, name, u.scope);
    var b := parsed.value;
    LookupNearest(u.vars, u.parents, name, u.scope);
    LookupNearest(f.vars, f.parents, name, c);
    var a := u.vars[b].scope;
    assert f.vars[b] == u.vars[b];
    GrowsParents(u, f, a, u.scope);
    EnclosesTrans(f.parents, a, s.scope, c);
    var more := f.vars[|u.vars|..];
    assert f.vars == u.vars + more;
    ScanGrows(u.vars, more, name, a);
    var found := Lookup(f.vars, f.parents, name, c);
    assert found.Some?;
    var t := f.vars[found.value].scope;
    NearestBelow(f, name, c, a, found.value);
    if t != a {
      ShadowFirst(f, found.value, b);
      assert Below(f.parents, t, a, c);
    }
    if Hidden(f, name, b, c) {
      var id :| 0 <= id < b && f.vars[id].name == name && Below(f.parents, f.vars[id].scope, a, c);
      ShadowFound(f, name, c, a, id, found.value);
    }
  }

  lemma InvariantParts(s: State)
    requires Invariant(s)
    ensures StateOk(s) && Encloses(s.parents, s.scope, |s.parents| - 1)
  {}

  lemma GrowsParents(u: State, f: State, a: nat, d: nat)
    requires StateOk(u) && StateOk(f) && u.parents <= f.parents && d < |u.parents|
    ensures Encloses(f.parents, a, d) <==> Encloses(u.parents, a, d)
  {
    var more := f.parents[|u.parents|..];
    assert f.parents == u.parents + more;
    EnclosesGrows(u.parents, more, a, d);
  }

  /** The nearest binding is at a or below it. */
  lemma NearestBelow(f: State, name: Text, c: nat, a: u64, id: nat)
    requires StateOk(f) && c < |f.parents| && id < |f.vars|
    requires Encloses(f.parents, f.vars[id].scope, c) && Encloses(f.parents, a, c) && Scan(f.vars, name, a).Some?
    requires forall t: u64 :: Encloses(f.parents, t, c) && t > f.vars[id].scope ==> Scan(f.vars, name, t) == None
    ensures f.vars[id].scope < |f.parents| && a <= f.vars[id].scope && Encloses(f.parents, a, f.vars[id].scope)
  {
    hide Scan;
    EnclosesChain(f.parents, a, f.vars[id].scope, c);
  }

  /** Of two variables of one name, one below the other, the lower came first. */
  lemma ShadowFirst(f: State, low: nat, high: nat)
    requires Invariant(f) && low < |f.vars| && high < |f.vars| && low != high
    requires f.vars[low].name == f.vars[high].name
    requires f.vars[low].scope < |f.parents| && Encloses(f.parents, f.vars[high].scope, f.vars[low].scope)
    ensures low < high
  {}

  /** A variable below a is found instead. */
  lemma ShadowFound(f: State, name: Text, c: nat, a: u64, id: nat, found: nat)
    requires StateOk(f) && c < |f.parents| && id < |f.vars| && found < |f.vars|
    requires f.vars[id].name == name && Below(f.parents, f.vars[id].scope, a, c)
    requires Encloses(f.parents, f.vars[found].scope, c)
    requires forall t: u64 :: Encloses(f.parents, t, c) && t > f.vars[found].scope ==> Scan(f.vars, name, t) == None
    ensures f.vars[found].scope != a
  {
    hide Scan;
    var t := f.vars[id].scope;
    EnclosesLess(f.parents, a, t);
    assert IsKey(f.vars[id], name, t);
  }

  /** The failing case exists: a name first used in a block that has ended, then
      outside it. The later pass binds the second use to the first variable. */
  lemma ReplayDiffers(name: Text)
    ensures var s0 := State([], [0, 0], 1);
            var before := [Open, Use(name), Close];
            && AtUse(s0, before, name, [])
            && var f := Run(s0, before + [Use(name)] + []);
            && Run(s0, before).scope < |f.parents| && Counter(s0, before) < |f.parents|
            && Lookup(f.vars, f.parents, name, Run(s0, before).scope) == Some(1)
            && Lookup(f.vars, f.parents, name, Counter(s0, before)) == Some(0)
  {
    var s0 := State([], [0, 0], 1);
    var s1 := State([], [0, 0, 1], 2);
    var s2 := State([Variable(name, 0, 0, 2)], [0, 0, 1], 2);
    var s3 := s2.(scope := 1);
    var s4 := s3.(vars := [Variable(name, 0, 0, 2), Variable(name, 0, 0, 1)]);
    assert Encloses(s0.parents, 1, 1);
    TwoVariables(name);
    assert Next(s0, Open) == s1;
    assert Next(s1, Use(name)) == s2 by { assert Lookup([], s1.parents, name, 2).None?; }
    assert Next(s2, Close) == s3;
    assert Next(s3, Use(name)) == s4;
    var before := [Open, Use(name), Close];
    RunOne(s0, Open);
    RunConcat(s0, [Open], [Use(name)]);
    RunOne(s1, Use(name));
    assert [Open] + [Use(name)] == [Open, Use(name)];
    RunConcat(s0, [Open, Use(name)], [Close]);
    RunOne(s2, Close);
    assert [Open, Use(name)] + [Close] == before;
    RunConcat(s0, before, [Use(name)]);
    RunOne(s3, Use(name));
    assert before + [Use(name)] + [] == before + [Use(name)];
    OneOpen(name);
  }

  lemma OneOpen(name: Text)
    ensures Opens([Open, Use(name), Close]) == 1
  {
    assert [Open, Use(name), Close][..2] == [Open, Use(name)];
    assert [Open, Use(name)][..1] == [Open];
    assert [Open][..0] == [];
    assert Opens([Open]) == 1;
    assert Opens([Open, Use(name)]) == 1;
  }

  lemma TwoVariables(name: Text)
    ensures var v2, v1 := Variable(name, 0, 0, 2), Variable(name, 0, 0, 1);
            && Lookup([v2], [0, 0, 1], name, 1) == None
            && Lookup([v2, v1], [0, 0, 1], name, 1) == Some(1)
            && Lookup([v2, v1], [0, 0, 1], name, 2) == Some(0)
  {
    var v2, v1 := Variable(name, 0, 0, 2), Variable(name, 0, 0, 1);
    hide Scan;
    assert !IsKey(v2, name, 1) && !IsKey(v2, name, 0) && IsKey(v1, name, 1) && IsKey(v2, name, 2);
    assert [v2][0] == v2 && [v2, v1][0] == v2 && [v2, v1][1] == v1;
  }

  // ------------------------------------------------------------------ in place

  /** The scopes of the compiler state. */
  class ScopeState {
    const table: Table
    var parents: seq<u64>
    var scope: nat

    constructor (table: Table)
      ensures this.table == table && parents == [] && scope == 0
    {
      this.table, parents, scope := table, [], 0;
    }

    ghost predicate Valid()
      reads this, table, table.map_
    {
      table.Valid() && (parents != [] ==> TreeOk(parents) && scope < |parents| < TWO64)
    }

    ghost function View(): State
      reads this, table
    {
      State(table.vars, parents, scope)
    }

    /** scope_enter; the first call makes the root. */
    method Enter() returns (id: nat)
      requires Valid() && |parents| + 2 < TWO64
      modifies this
      ensures Valid() && id == scope && parents != []
      ensures old(parents) != [] ==> View() == Next(old(View()), Open)
      ensures old(parents) == [] ==> |parents| == 2 && parents[1] == 0 && scope == 1
    {
      if |parents| == 0 {
        parents := [TWO64 - 1];
        scope := 0;
      }
      id := |parents|;
      parents := parents + [scope];
      scope := id;
    }

    /** scope_leave: never out of the root. */
    method Leave()
      requires Valid() && parents != [] && 0 < scope
      modifies this
      ensures Valid() && View() == Next(old(View()), Close)
    {
      scope := parents[scope];
    }

    /** varLookup: parents have smaller numbers, so the climb ends. */
    method Find(name: Text, from: nat) returns (r: Option<nat>)
      requires Valid() && parents != [] && from < |parents|
      ensures r == Lookup(table.vars, parents, name, from)
    {
      hide Scan;
      var at: nat := from;
      while true
        invariant at < |parents| && Lookup(table.vars, parents, name, from) == Lookup(table.vars, parents, name, at)
        decreases at
      {
        r := table.Find(name, at);
        if r.Some? || at == 0 { return; }
        at := parents[at];
      }
    }

    /** An identifier, used: declared in the current scope when it is new, unless
        that is scope 0. */
    method UseName(name: Text)
      requires Valid() && parents != []
      modifies table, table.map_
      ensures Valid() && View() == Next(old(View()), Use(name))
    {
      if scope == 0 { return; }
      var r := Find(name, scope);
      if r.None? {
        table.Put(Variable(name, 0, 0, scope));
      }
    }
  }
}
