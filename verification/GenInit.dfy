/** A whole module: the enclosing function, from its prologue over its statements
    and definitions to its end. */
module GenInit {
  import opened Words
  import opened Isa
  import opened IsaRoundTrip
  import opened Machine
  import opened Source
  import opened Select
  import opened Layout
  import opened NodeStream
  import opened Patch
  import opened GenState
  import opened GenStmt
  import opened GenFunc
  import opened GenModule
  import opened GenFinish
  import opened GenSurvive

  /** n nodes of the enclosing function. `arity` gives, for a definition at a node,
      how many arguments its type has. */
  function ParseItems(E: Env, ns: seq<Node>, i: nat, sc: nat, n: nat, arity: nat -> nat): (r: Option<(seq<Item>, nat, nat)>)
    decreases |ns| - i
  {
    if n == 0 then Some(([], i, sc))
    else if i >= |ns| then None
    else if TokenAt(ns, i) in {NBlock, TComma} then
      match Payload(ns, i + 1)
      case Some(m) => ParseItems(E, ns, i + 2, if TokenAt(ns, i) == NBlock then sc + 1 else sc, n - 1 + m, arity)
      case None => None
    else
      match ParseItem(E, ns, i, sc, arity)
      case Some((x, i1, sc1)) => Prefixed(x, ParseItems(E, ns, i1, sc1, n - 1, arity))
      case None => None
  }

  /** A definition, or a statement. */
  function ParseItem(E: Env, ns: seq<Node>, i: nat, sc: nat, arity: nat -> nat): (r: Option<(Item, nat, nat)>)
    requires i < |ns|
    ensures r.Some? ==> i < r.value.1
  {
    if TokenAt(ns, i) == TAt then
      if arity(i) > 6 then None
      else match ParseAt(E, ns, i + 1, sc, arity(i))
        case Some((f, i1, sc1)) => Some((Define(f), i1, sc1))
        case None => None
    else
      match ParseStmt(E, ns, i, sc)
      case Some(Parsed(st, i1, sc1)) => Some((Own(st), i1, sc1))
      case None => None
  }

  function Prefixed(x: Item, rest: Option<(seq<Item>, nat, nat)>): Option<(seq<Item>, nat, nat)> {
    match rest case Some((xs, i, sc)) => Some(([x] + xs, i, sc)) case None => None
  }

  /** What the generator can do. */
  ghost predicate ItemOk(x: Item) {
    match x
    case Own(st) => Feasible(st)
    case Define(f) => NeedS(f.body) <= 5 && AllWf(FuncCode(f))
  }

  ghost predicate AllOk(xs: seq<Item>) { forall k :: 0 <= k < |xs| ==> ItemOk(xs[k]) }

  lemma OkParts(x: Item, xs: seq<Item>)
    ensures AllOk([x] + xs) <==> ItemOk(x) && AllOk(xs)
  {
    hide ItemOk;
    if AllOk([x] + xs) {
      assert ItemOk(([x] + xs)[0]);
      forall k | 0 <= k < |xs| ensures ItemOk(xs[k]) { assert ItemOk(([x] + xs)[k + 1]); }
    }
  }

  lemma {:induction false} AfterOne(p: Placement, xs: seq<Item>, x: Item)
    ensures After(p, xs + [x]) == Next(After(p, xs), x)
    decreases |xs|
  {
    hide Next;
    if xs == [] {
      assert ([x])[1..] == [];
      assert xs + [x] == [x];
      assert After(p, [x]) == After(Next(p, x), []);
    } else {
      assert (xs + [x])[0] == xs[0] && (xs + [x])[1..] == xs[1..] + [x];
      AfterOne(Next(p, xs[0]), xs[1..], x);
    }
  }

  /** What is still to do when `left` nodes follow. */
  ghost predicate ItemsLeft(b: Buffer, all: Option<(seq<Item>, nat, nat)>, done: seq<Item>, left: nat, arity: nat -> nat)
    reads b
  {
    var rest := ParseItems(b.env, b.nodes, b.it, b.scope, left, arity);
    && AtRest(b) && Shows(b, After(Begin(), done)) && After(Begin(), done).used <= 5
    && (all.Some? <==> rest.Some?)
    && (all.Some? ==>
      && all.value == (done + rest.value.0, rest.value.1, rest.value.2)
      && (AllOk(all.value.0) <==> AllOk(rest.value.0)))
  }

  /** One item done. */
  ghost predicate DidItem(b: Buffer, p: Placement, x: Item, i: nat, sc: nat)
    reads b
  {
    AtRest(b) && Shows(b, Next(p, x)) && b.it == i && b.scope == sc
  }

  lemma ItemStep(b: Buffer, all: Option<(seq<Item>, nat, nat)>, done: seq<Item>, left: nat, arity: nat -> nat, x: Item,
                 rest: Option<(seq<Item>, nat, nat)>)
    requires DidItem(b, After(Begin(), done), x, b.it, b.scope) && ItemOk(x) && left > 0 && After(Begin(), done).used <= 5
    requires rest == Prefixed(x, ParseItems(b.env, b.nodes, b.it, b.scope, left - 1, arity))
    requires all.Some? <==> rest.Some?
    requires all.Some? ==>
               && all.value == (done + rest.value.0, rest.value.1, rest.value.2)
               && (AllOk(all.value.0) <==> AllOk(rest.value.0))
    ensures ItemsLeft(b, all, done + [x], left - 1, arity)
  {
    hide ParseItems, AllOk, After, Begin, EncodeAll, FuncCode, StmtCode, RetOffs, NeedS, AllWf, Picked;
    AfterOne(Begin(), done, x);
    var more := ParseItems(b.env, b.nodes, b.it, b.scope, left - 1, arity);
    if more.Some? {
      OkParts(x, more.value.0);
      assert done + ([x] + more.value.0) == done + [x] + more.value.0;
    }
  }

  /** The statement's code behind what was there. */
  lemma StatementDone(b: Buffer, p: Placement, before: seq<byte>, code: seq<Instr>, f0: FnState, q: Parsed)
    requires p.data == before + EncodeAll(code) && b.before == before && b.Valid()
    requires Stated(b, code, f0, p.rets, |p.data|, q) && b.reallocs == p.starts && f0 == FnState({}, Picked(0, p.used), 0)
    ensures DidItem(b, p, Own(q.st), q.it, q.sc)
  {
    hide EncodeAll, StmtCode, RetOffs, NeedS, Picked;
    EncodeAllConcat(code, StmtCode(q.st, None));
    assert before + (EncodeAll(code) + EncodeAll(StmtCode(q.st, None))) == p.data + EncodeAll(StmtCode(q.st, None));
    PickedFacts(0, p.used, NeedS(q.st));
  }

  /** One statement or definition. */
  method GenItem(b: Buffer, arity: nat -> nat, ghost p: Placement) returns (ok: bool)
    requires AtRest(b) && Shows(b, p) && p.data != [] && b.it < |b.nodes| && TokenAt(b.nodes, b.it) !in {NBlock, TComma}
    modifies b
    ensures var x := ParseItem(b.env, b.nodes, old(b.it), old(b.scope), arity);
            && (ok <==> x.Some? && ItemOk(x.value.0))
            && (ok ==> DidItem(b, p, x.value.0, x.value.1, x.value.2))
  {
    hide EncodeAll, FuncCode, StmtCode, RetOffs, NeedS, AllWf, Picked, ParseStmt, ParseAt, Feasible, Stated;
    ghost var code, before, f0, i, sc := b.code, b.before, b.fn, b.it, b.scope;
    if TokenAt(b.nodes, b.it) == TAt {
      var args := arity(b.it);
      if args > 6 { return false; }
      b.it := b.it + 1;
      ok := GenAt(b, args);
    } else {
      var more;
      ok, more := CodegenNode(b);
      if ok {
        StatementDone(b, p, before, code, f0, ParseStmt(b.env, b.nodes, i, sc).value);
      }
    }
  }

  lemma ParseStep(E: Env, ns: seq<Node>, i: nat, sc: nat, n: nat, arity: nat -> nat)
    ensures ParseItems(E, ns, i, sc, 0, arity) == Some(([], i, sc))
    ensures n > 0 && i >= |ns| ==> ParseItems(E, ns, i, sc, n, arity) == None
    ensures n > 0 && i < |ns| && TokenAt(ns, i) in {NBlock, TComma} ==>
              ParseItems(E, ns, i, sc, n, arity) ==
              match Payload(ns, i + 1)
              case Some(m) => ParseItems(E, ns, i + 2, if TokenAt(ns, i) == NBlock then sc + 1 else sc, n - 1 + m, arity)
              case None => None
    ensures n > 0 && i < |ns| && TokenAt(ns, i) !in {NBlock, TComma} ==>
              ParseItems(E, ns, i, sc, n, arity) ==
              match ParseItem(E, ns, i, sc, arity)
              case Some((x, i1, sc1)) => Prefixed(x, ParseItems(E, ns, i1, sc1, n - 1, arity))
              case None => None
  {
    hide ParseItem;
  }

  lemma RunData(done: seq<Item>)
    ensures After(Begin(), done).data != [] && Recorded(After(Begin(), done))
  {
    hide After, Begin, Placed;
    HistoryFacts(done);
  }

  /** An item that fails, fails the whole. */
  lemma ItemFails(all: Option<(seq<Item>, nat, nat)>, rest: Option<(seq<Item>, nat, nat)>, x: Option<(Item, nat, nat)>,
                  more: Option<(seq<Item>, nat, nat)>)
    requires (all.Some? <==> rest.Some?) && (all.Some? ==> (AllOk(all.value.0) <==> AllOk(rest.value.0)))
    requires rest == match x case Some((y, _, _)) => Prefixed(y, more) case None => None
    requires !(x.Some? && ItemOk(x.value.0))
    ensures !(all.Some? && AllOk(all.value.0))
  {
    hide ItemOk, AllOk;
    if x.Some? && more.Some? { OkParts(x.value.0, more.value.0); }
  }

  /** Every item, block members and all. */
  method GenItems(b: Buffer, arity: nat -> nat, ghost all: Option<(seq<Item>, nat, nat)>) returns (ok: bool)
    requires AtRest(b) && Shows(b, Begin()) && all == ParseItems(b.env, b.nodes, b.it, b.scope, 1, arity)
    modifies b
    ensures ok <==> all.Some? && AllOk(all.value.0)
    ensures ok ==>
              && AtRest(b) && Shows(b, After(Begin(), all.value.0)) && After(Begin(), all.value.0).used <= 5
              && b.it == all.value.1 && b.scope == all.value.2
  {
    hide ParseItems, ParseItem, AllOk, ItemOk, After, Begin, EncodeAll, Next, Picked, Payload;
    ghost var done: seq<Item> := [];
    var count, j: nat := 1, 0;
    StartLeft(b, all, arity);
    while j < count
      invariant j <= count && b.it <= |b.nodes| && ItemsLeft(b, all, done, count - j, arity)
      decreases |b.nodes| - b.it
    {
      ParseStep(b.env, b.nodes, b.it, b.scope, count - j, arity);
      ghost var rest := ParseItems(b.env, b.nodes, b.it, b.scope, count - j, arity);
      if b.it >= |b.nodes| { return false; }
      if TokenAt(b.nodes, b.it) in {NBlock, TComma} {
        var more;
        ok, more := CodegenNode(b);
        if !ok { return; }
        count := count + more;
      } else {
        ghost var x, p := ParseItem(b.env, b.nodes, b.it, b.scope, arity), After(Begin(), done);
        RunData(done);
        ok := GenItem(b, arity, p);
        if !ok {
          ItemFails(all, rest, x, if x.Some? then ParseItems(b.env, b.nodes, x.value.1, x.value.2, count - j - 1, arity) else None);
          return;
        }
        ItemStep(b, all, done, count - j, arity, x.value.0, rest);
        done := done + [x.value.0];
      }
      j := j + 1;
    }
    ok := true;
    ParseStep(b.env, b.nodes, b.it, b.scope, 0, arity);
    NoneLeft(b, all, done, arity);
  }

  lemma StartLeft(b: Buffer, all: Option<(seq<Item>, nat, nat)>, arity: nat -> nat)
    requires AtRest(b) && Shows(b, Begin()) && all == ParseItems(b.env, b.nodes, b.it, b.scope, 1, arity)
    ensures ItemsLeft(b, all, [], 1, arity) && b.it <= |b.nodes|
  {
    hide ParseItems, AllOk, EncodeAll, Prologue;
    assert After(Begin(), []) == Begin();
    if all.Some? { assert [] + all.value.0 == all.value.0; }
  }

  lemma NoneLeft(b: Buffer, all: Option<(seq<Item>, nat, nat)>, done: seq<Item>, arity: nat -> nat)
    requires ItemsLeft(b, all, done, 0, arity)
    requires ParseItems(b.env, b.nodes, b.it, b.scope, 0, arity) == Some(([], b.it, b.scope))
    ensures all.Some? && AllOk(all.value.0) && all.value == (done, b.it, b.scope)
  {
    hide ParseItems, ItemOk, After, Begin;
    assert done + [] == done;
  }

  /** codegen_func for the enclosing function: succeeds exactly when its stream
      parses, every item can be generated and its own branches reach; the buffer
      then holds the finished module and the table the starts of its functions. */
  method CodegenInit(b: Buffer, arity: nat -> nat) returns (ok: bool)
    requires b.Valid() && b.data == [] && b.before == [] && b.code == [] && b.rets == [] && b.reallocs == []
    requires b.fn == FnState({}, {}, 0) && b.it <= |b.nodes|
    modifies b
    ensures var all := ParseItems(b.env, b.nodes, old(b.it), old(b.scope), 1, arity);
            && (ok <==> all.Some? && AllOk(all.value.0) && Completes(all.value.0))
            && (ok ==>
              var p := After(Begin(), all.value.0);
              b.data == Completed(p).value && b.reallocs == p.starts && b.it == all.value.1 && b.scope == all.value.2)
  {
    hide ParseItems, AllOk, After, EncodeAll, Prologue, Picked, Recorded, Completed;
    ghost var all := ParseItems(b.env, b.nodes, b.it, b.scope, 1, arity);
    b.reallocs := b.reallocs + [0];
    var subAt, slotsAt := EmitPrologue(b);
    PickedFacts(0, 0, 0);
    assert [] + EncodeAll(Prologue(5)) == EncodeAll(Prologue(5));
    ok := GenItems(b, arity, all);
    if !ok { return; }
    RunData(all.value.0);
    ok := Finish(b, After(Begin(), all.value.0));
  }
}
