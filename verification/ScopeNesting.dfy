/** Properly nested blocks: where the parser is, and what it sees, before, in and
    behind a block. */
module ScopeNesting {
  import opened Words
  import opened SymTab
  import opened Scopes

  /** Blocks that are open after these events, minus those they close from
      before. */
  function Depth(es: seq<Event>): int {
    if es == [] then 0
    else Depth(es[..|es| - 1]) + Change(es[|es| - 1])
  }

  function Change(e: Event): int { match e case Open => 1 case Close => -1 case Use(_) => 0 }

  /** No block from before is closed. */
  predicate Inside(es: seq<Event>) { forall k :: 0 <= k <= |es| ==> Depth(es[..k]) >= 0 }

  predicate Balanced(es: seq<Event>) { Inside(es) && Depth(es) == 0 }

  lemma InsideMost(es: seq<Event>)
    requires Inside(es) && es != []
    ensures Inside(es[..|es| - 1]) && Depth(es) >= 0
  {
    hide Depth;
    var most := es[..|es| - 1];
    assert es[..|es|] == es;
    forall k | 0 <= k <= |most| ensures Depth(most[..k]) >= 0 { assert most[..k] == es[..k]; }
  }

  /** The k-th scope around a scope; scope 0 is around itself. */
  function Around(parents: seq<u64>, scope: nat, k: nat): (a: nat)
    requires TreeOk(parents) && scope < |parents|
    ensures a <= scope
    decreases k
  {
    if k == 0 || scope == 0 then scope else Around(parents, parents[scope], k - 1)
  }

  lemma {:induction false} AroundGrows(parents: seq<u64>, p: u64, scope: nat, k: nat)
    requires TreeOk(parents) && TreeOk(parents + [p]) && scope < |parents|
    ensures Around(parents + [p], scope, k) == Around(parents, scope, k)
    decreases k
  {
    if k > 0 && scope > 0 { AroundGrows(parents, p, parents[scope], k - 1); }
  }

  lemma AroundNext(s: State, e: Event, d: nat)
    requires StateOk(s) && |s.parents| + 1 < TWO64 && (e.Close? ==> d > 0)
    ensures var t := Next(s, e);
            StateOk(t) && Around(t.parents, t.scope, d + Change(e)) == Around(s.parents, s.scope, d)
  {
    hide Lookup;
    if e.Open? { AroundGrows(s.parents, s.scope, s.scope, d); }
  }

  /** Inside a block the parser is as many scopes below it as blocks are open. */
  lemma {:induction false} RunAround(s: State, es: seq<Event>)
    requires Fits(s, es) && Inside(es)
    ensures Depth(es) >= 0 && Around(Run(s, es).parents, Run(s, es).scope, Depth(es)) == s.scope
    decreases |es|
  {
    hide Next, Inside, Around;
    if es == [] {
      AroundZero(s);
    } else {
      var most := es[..|es| - 1];
      InsideMost(es);
      RunAround(s, most);
      AroundNext(Run(s, most), es[|es| - 1], Depth(most));
    }
  }

  lemma AroundZero(s: State)
    requires StateOk(s)
    ensures Around(s.parents, s.scope, 0) == s.scope
  {}

  lemma Bracketed(es: seq<Event>)
    requires Balanced(es)
    ensures Balanced([Open] + es + [Close]) && Inside([Open] + es)
  {
    hide Depth;
    var all := [Open] + es + [Close];
    forall k | 0 <= k <= |all| ensures Depth(all[..k]) >= 0 && (k == |all| ==> Depth(all[..k]) == 0) {
      if k == 0 {
        DepthEmpty();
      } else if k <= |es| + 1 {
        assert all[..k] == [Open] + es[..k - 1];
        DepthOpen(es[..k - 1]);
      } else {
        assert all[..k] == ([Open] + es) + [Close];
        DepthOpen(es);
        DepthStep([Open] + es, Close);
      }
    }
    assert all[..|all|] == all;
    forall k | 0 <= k <= |es| + 1 ensures Depth(([Open] + es)[..k]) >= 0 { assert ([Open] + es)[..k] == all[..k]; }
  }

  lemma DepthEmpty()
    ensures Depth([]) == 0
  {}

  lemma DepthStep(es: seq<Event>, e: Event)
    ensures Depth(es + [e]) == Depth(es) + Change(e)
  {
    assert (es + [e])[..|es|] == es;
  }

  lemma {:induction false} DepthOpen(es: seq<Event>)
    ensures Depth([Open] + es) == Depth(es) + 1
    decreases |es|
  {
    hide Depth;
    if es == [] {
      assert [Open] + es == [] + [Open];
      DepthStep([], Open);
      DepthEmpty();
    } else {
      var most, e := es[..|es| - 1], es[|es| - 1];
      assert es == most + [e] && [Open] + es == ([Open] + most) + [e];
      DepthOpen(most);
      DepthStep(most, e);
      DepthStep([Open] + most, e);
    }
  }

  /** Nested blocks bring the parser back to the scope it was in, whatever they
      hold. */
  lemma BalancedBack(s: State, es: seq<Event>)
    requires Balanced(es) && Fits(s, [Open] + es + [Close])
    ensures Run(s, es).scope == s.scope
    ensures Run(s, [Open] + es + [Close]).scope == s.scope
  {
    hide Depth, Inside, Run, Around;
    Bracketed(es);
    RunAround(s, es);
    RunAround(s, [Open] + es + [Close]);
    AroundZero(Run(s, es));
    AroundZero(Run(s, [Open] + es + [Close]));
  }

  // ------------------------------------------------------------- what is visible

  /** Every variable is of a scope that exists. */
  predicate VarsInside(s: State) { forall i :: 0 <= i < |s.vars| ==> s.vars[i].scope < |s.parents| }

  /** Variables of later scopes do not matter to a scope. */
  lemma ScanLater(vars: seq<Variable>, more: seq<Variable>, name: Text, scope: u64)
    requires forall i :: 0 <= i < |more| ==> more[i].scope > scope
    ensures Scan(vars + more, name, scope) == Scan(vars, name, scope)
  {
    hide Scan;
    var a, b := Scan(vars, name, scope), Scan(vars + more, name, scope);
    assert forall k :: 0 <= k < |vars| ==> (vars + more)[k] == vars[k];
    if a.Some? {
      assert IsKey((vars + more)[a.value], name, scope);
    }
    assert forall k :: |vars| <= k < |vars + more| ==> (vars + more)[k].scope > scope;
  }

  /** What a scope sees stays the same while only later scopes get variables. */
  lemma {:induction false} LookupLater(s: State, t: State, name: Text, scope: nat)
    requires StateOk(s) && StateOk(t) && scope < |s.parents| && s.parents <= t.parents && s.vars <= t.vars
    requires forall i :: |s.vars| <= i < |t.vars| ==> t.vars[i].scope >= |s.parents|
    ensures Lookup(t.vars, t.parents, name, scope) == Lookup(s.vars, s.parents, name, scope)
    decreases scope
  {
    hide Scan;
    var more := t.vars[|s.vars|..];
    assert t.vars == s.vars + more;
    ScanLater(s.vars, more, name, scope);
    if scope > 0 { LookupLater(s, t, name, s.parents[scope]); }
  }

  /** At the beginning of a block every name is what it was in front of it. */
  lemma OpenSees(s: State, name: Text)
    requires StateOk(s) && VarsInside(s) && |s.parents| + 1 < TWO64
    ensures var t := Next(s, Open);
            StateOk(t) && Lookup(t.vars, t.parents, name, t.scope) == Lookup(s.vars, s.parents, name, s.scope)
  {
    hide Scan;
    var t := Next(s, Open);
    var r := Scan(t.vars, name, t.scope);
    LookupLater(s, t, name, s.scope);
  }

  /** What happens inside a block adds variables of its own and of inner scopes
      only. */
  lemma {:induction false} BlockAdds(s: State, n: nat, es: seq<Event>)
    requires Fits(s, es) && Inside(es) && n <= s.scope
    ensures var t := Run(s, es);
            && s.vars <= t.vars && s.parents <= t.parents && n <= t.scope
            && forall i :: |s.vars| <= i < |t.vars| ==> t.vars[i].scope >= n
    decreases |es|
  {
    hide Inside, Lookup, Depth;
    RunAround(s, es);
    if es != [] {
      InsideMost(es);
      BlockAdds(s, n, es[..|es| - 1]);
    }
  }

  /** A block's declarations end with it: behind a block every name is what it was
      in front of it, in the scope the parser is in. */
  lemma BlockForgets(s: State, es: seq<Event>, name: Text)
    requires Balanced(es) && Fits(s, [Open] + es + [Close])
    ensures var t := Run(s, [Open] + es + [Close]);
            Lookup(t.vars, t.parents, name, t.scope) == Lookup(s.vars, s.parents, name, s.scope)
  {
    hide Inside, Depth, Lookup;
    var t := Run(s, [Open] + es + [Close]);
    BalancedBack(s, es);
    RunConcat(s, [Open] + es, [Close]);
    RunConcat(s, [Open], es);
    RunOne(s, Open);
    var u, v := Run(s, [Open]), Run(s, [Open] + es);
    assert u.scope == |s.parents|;
    BlockAdds(u, |s.parents|, es);
    RunOne(v, Close);
    assert t.vars == v.vars && t.parents == v.parents;
    LookupLater(s, t, name, s.scope);
  }

  /** A name used for the first time belongs to the block it is used in. */
  lemma UseDeclares(s: State, name: Text)
    requires StateOk(s) && s.scope != 0 && Lookup(s.vars, s.parents, name, s.scope).None?
    ensures var t := Next(s, Use(name));
            && Lookup(t.vars, t.parents, name, s.scope) == Some(|s.vars|) && |t.vars| == |s.vars| + 1
            && t.vars[|s.vars|].scope == s.scope && t.vars[|s.vars|].name == name && s.vars < t.vars
  {
    hide Scan;
    var t := Next(s, Use(name));
    var r := Scan(t.vars, name, s.scope);
    assert IsKey(t.vars[|s.vars|], name, s.scope);
    assert forall k :: 0 <= k < |s.vars| ==> t.vars[k] == s.vars[k];
    assert r.Some?;
  }
}
