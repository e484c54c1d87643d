/** The resolver as it works: one cursor into the old stream, one growing new
    stream, the scope counter and the types known so far, all updated in place. */
module ResolverPass {
  import opened Words
  import opened NodeStream
  import opened Resolver
  import opened ResolverMeaning

  /** The tree at i, rewritten, and the index behind it. */
  ghost function One<V, T>(O: Oracle<V, T>, ns: seq<Node>, i: nat, sc: nat, ts: T): (r: Option<(Outcome<V, T>, nat)>)
    ensures r.Some? ==> i < r.value.1 <= |ns|
  {
    match TreeAt(ns, i)
    case None => None
    case Some((t, j)) => match Rewrite(O, t, sc, ts) case Some(o) => Some((o, j)) case None => None
  }

  /** n trees from i, behind a node with this token. */
  ghost function Many<V, T>(O: Oracle<V, T>, ns: seq<Node>, at: nat, token: Token, n: nat, i: nat, sc: nat, ts: T)
    : (r: Option<(Outcomes<V, T>, nat)>)
    requires at <= |ns|
    ensures r.Some? ==> at <= r.value.1 <= |ns|
  {
    match TreesAt(ns, at, n)
    case None => None
    case Some((trees, j)) => match RewriteAll(O, token, trees, n, i, sc, ts) case Some(o) => Some((o, j)) case None => None
  }

  ghost function Front<V, T>(h: Outcome<V, T>, rest: Option<(Outcomes<V, T>, nat)>): Option<(Outcomes<V, T>, nat)> {
    match rest
    case Some((o, j)) => Some((Outcomes(Cons(h.tree, o.trees), [h.v] + o.vs, o.sc, o.ts), j))
    case None => None
  }

  lemma ManyStep<V, T>(O: Oracle<V, T>, ns: seq<Node>, at: nat, token: Token, n: nat, i: nat, sc: nat, ts: T)
    requires at <= |ns|
    ensures n == 0 ==> Many(O, ns, at, token, n, i, sc, ts) == Some((Outcomes(Nil, [], sc, ts), at))
    ensures n > 0 ==>
              var h := One(O, ns, at, sc + Between(token, i), ts);
              Many(O, ns, at, token, n, i, sc, ts)
              == if h.None? then None else Front(h.value.0, Many(O, ns, h.value.1, token, n - 1, i + 1, h.value.0.sc, h.value.0.ts))
  {
    hide Rewrite, TreeAt, RewriteAll;
    if n == 0 {
      NothingRewritten(O, token, Nil, 0, i, sc, ts);
    } else if TreesAt(ns, at, n).Some? {
      RewriteStep(O, token, TreesAt(ns, at, n).value.0, n, i, sc, ts);
    }
  }

  lemma AddressShape<V, T>(O: Oracle<V, T>, ns: seq<Node>, i: nat, sc: nat, ts: T)
    requires TokenAt(ns, i) == NAddress
    ensures One(O, ns, i, sc, ts).None?
  {}

  /** A node that is no leaf and no dot: its trees, then the node itself. */
  lemma OneShape<V, T>(O: Oracle<V, T>, ns: seq<Node>, i: nat, sc: nat, ts: T)
    requires Known(ns, i) && TokenAt(ns, i) !in {TDot, NAddress} && !LeafToken(TokenAt(ns, i))
    ensures Behind(ns, i) <= |ns|
    ensures var token, payload := TokenAt(ns, i), PayloadOf(ns, i);
            var m := Many(O, ns, Behind(ns, i), token, Arity(token, payload).value, 0, EnterScope(token, sc), ts);
            One(O, ns, i, sc, ts) == NodeDone(O, Tree(token, payload, Nil), m)
  {
    hide TreesAt, RewriteAll, Arity, HeadNodes, HasPayload, PayloadOf;
    HeadAt(ns, i);
  }

  ghost function NodeDone<V, T>(O: Oracle<V, T>, t: Tree, m: Option<(Outcomes<V, T>, nat)>): Option<(Outcome<V, T>, nat)> {
    match m
    case None => None
    case Some((o, j)) => match Finished(O, t, o) case Some(r) => Some((r, j)) case None => None
  }

  lemma LeafShape<V, T>(O: Oracle<V, T>, ns: seq<Node>, i: nat, sc: nat, ts: T)
    requires Known(ns, i) && LeafToken(TokenAt(ns, i))
    ensures Behind(ns, i) <= |ns|
    ensures One(O, ns, i, sc, ts) ==
            match O.leaf(ts, sc, TokenAt(ns, i), PayloadOf(ns, i))
            case Some(v) => Some((Outcome(Tree(TokenAt(ns, i), PayloadOf(ns, i), Nil), v, sc, ts), Behind(ns, i)))
            case None => None
  {
    HeadAt(ns, i);
    var b := Behind(ns, i);
    assert TreesAt(ns, b, 0) == Some((Nil, b));
    assert TreeAt(ns, i) == Some((Tree(TokenAt(ns, i), PayloadOf(ns, i), Nil), b));
  }

  lemma UnknownShape<V, T>(O: Oracle<V, T>, ns: seq<Node>, i: nat, sc: nat, ts: T)
    requires !Known(ns, i)
    ensures One(O, ns, i, sc, ts).None?
  {
    hide Known;
  }

  /** A dot: the tree on its left, then a name that is not resolved. */
  lemma DotShape<V, T>(O: Oracle<V, T>, ns: seq<Node>, i: nat, sc: nat, ts: T)
    requires Known(ns, i) && TokenAt(ns, i) == TDot
    ensures One(O, ns, i, sc, ts) == DotDone(O, ns, One(O, ns, i + 1, sc, ts))
  {
    hide Rewrite, Finished, RewriteAll;
    var l := TreeAt(ns, i + 1);
    DotTrees(ns, i);
    if l.Some? {
      var (t, j) := l.value;
      DotRewrite(O, t, PayloadOf(ns, j), sc, ts);
    }
  }

  ghost function DotDone<V, T>(O: Oracle<V, T>, ns: seq<Node>, l: Option<(Outcome<V, T>, nat)>): Option<(Outcome<V, T>, nat)> {
    match l
    case None => None
    case Some((o, j)) =>
      if TokenAt(ns, j) != NVariable || Payload(ns, j + 1).None? then None
      else
        match Folded(Tree(TDot, None, Nil), Nil, O.fold(o.ts, TDot, Payload(ns, j + 1), [o.v]))
        case Some((t', v)) => Some((Outcome(t', v, o.sc, o.ts), j + 2))
        case None => None
  }

  /** The stream of a dot. */
  lemma DotTrees(ns: seq<Node>, i: nat)
    requires Known(ns, i) && TokenAt(ns, i) == TDot
    ensures i + 1 <= |ns|
    ensures TreeAt(ns, i) ==
            match TreeAt(ns, i + 1)
            case None => None
            case Some((l, j)) =>
              if TokenAt(ns, j) != NVariable || Payload(ns, j + 1).None? then None
              else Some((Tree(TDot, None, Cons(l, Cons(Tree(NVariable, PayloadOf(ns, j), Nil), Nil))), j + 2))
  {
    var l := TreeAt(ns, i + 1);
    if l.Some? {
      var j := l.value.1;
      NameTree(ns, j);
      PairTrees(ns, i + 1);
      if TreeAt(ns, j).Some? { PairKids(l.value.0, TreeAt(ns, j).value.0); }
    } else {
      FirstMissing(ns, i + 1);
    }
  }

  lemma PairKids(a: Tree, b: Tree)
    ensures var ts := Trees.Cons(a, Cons(b, Nil)); Count(ts) == 2 && At(ts, 1) == b
  {
    assert Count(Trees.Cons(b, Nil)) == 1;
  }

  lemma FirstMissing(ns: seq<Node>, i: nat)
    requires i <= |ns| && TreeAt(ns, i).None?
    ensures TreesAt(ns, i, 2).None?
  {}

  lemma PairTrees(ns: seq<Node>, i: nat)
    requires i <= |ns| && TreeAt(ns, i).Some?
    ensures var (a, j) := TreeAt(ns, i).value;
            TreesAt(ns, i, 2) == match TreeAt(ns, j) case Some((b, k)) => Some((Cons(a, Cons(b, Nil)), k)) case None => None
  {
    hide TreeAt;
    var (a, j) := TreeAt(ns, i).value;
    assert TreesAt(ns, j, 1) == match TreeAt(ns, j) case Some((b, k)) => Some((Cons(b, Nil), k)) case None => None;
  }

  lemma NameTree(ns: seq<Node>, j: nat)
    ensures TokenAt(ns, j) == NVariable ==>
              TreeAt(ns, j) == match Payload(ns, j + 1)
                               case Some(p) => Some((Tree(NVariable, Some(p), Nil), j + 2))
                               case None => None
    ensures TreeAt(ns, j).Some? ==> TreeAt(ns, j).value.0.token == TokenAt(ns, j)
    ensures TokenAt(ns, j) == NVariable ==> PayloadOf(ns, j) == Payload(ns, j + 1)
  {}

  lemma DotRewrite<V, T>(O: Oracle<V, T>, l: Tree, member: Option<u64>, sc: nat, ts: T)
    ensures var t := Tree(TDot, None, Cons(l, Cons(Tree(NVariable, member, Nil), Nil)));
            Rewrite(O, t, sc, ts) ==
            match Rewrite(O, l, sc, ts)
            case None => None
            case Some(o) =>
              match Folded(Tree(TDot, None, Nil), Nil, O.fold(o.ts, TDot, member, [o.v]))
              case Some((t', v)) => Some(Outcome(t', v, o.sc, o.ts))
              case None => None
  {
    var name := Tree(NVariable, member, Nil);
    var kids := Trees.Cons(l, Cons(name, Nil));
    var t := Tree(TDot, None, kids);
    assert Count(kids) == 2 && At(kids, 1) == name by { assert Count(kids.tail) == 1; }
    RewriteStep(O, TDot, kids, 1, 0, sc, ts);
    if Rewrite(O, l, sc, ts).Some? {
      var o := Rewrite(O, l, sc, ts).value;
      NothingRewritten(O, TDot, kids.tail, 0, 1, o.sc, o.ts);
      assert [o.v] + [] == [o.v];
    }
  }

  class Pass<V, T> {
    const nodes: seq<Node>
    const O: Oracle<V, T>
    var it: nat
    /** The new stream. */
    var out: seq<Node>
    var scope: nat
    var types: T

    constructor (nodes: seq<Node>, O: Oracle<V, T>, types: T)
      ensures this.nodes == nodes && this.O == O && it == 0 && out == [] && scope == 0 && this.types == types
    {
      this.nodes, this.O, it, out, scope, this.types := nodes, O, 0, [], 0, types;
    }

    /** The state after a tree that was rewritten: its stream appended, the cursor
        behind it. */
    ghost predicate Did(out0: seq<Node>, o: Outcome<V, T>, j: nat)
      reads this
    {
      out == out0 + Flat(o.tree) && it == j && scope == o.sc && types == o.ts
    }

    ghost predicate DidAll(out0: seq<Node>, o: Outcomes<V, T>, j: nat)
      reads this
    {
      out == out0 + FlatAll(o.trees) && it == j && scope == o.sc && types == o.ts
    }

    /** inferTypes: one tree is consumed and one emitted, exactly when no node of
        it yields an error. */
    method Infer() returns (ok: bool, v: Option<V>)
      requires it <= |nodes|
      modifies this`it, this`out, this`scope, this`types
      ensures var r := One(O, nodes, old(it), old(scope), old(types));
              (ok <==> r.Some?) && (ok ==> v == Some(r.value.0.v) && Did(old(out), r.value.0, r.value.1))
      decreases |nodes| - it, 1
    {
      hide One, Many, NodeDone, DotDone, Known, HeadNodes, Arity;
      var start := it;
      if !Known(nodes, it) {
        UnknownShape(O, nodes, it, scope, types);
        return false, None;
      }
      KnownInside(nodes, it);
      var token, payload := TokenAt(nodes, it), PayloadOf(nodes, it);
      HeadAt(nodes, it);
      if LeafToken(token) {
        LeafShape(O, nodes, it, scope, types);
        v := O.leaf(types, scope, token, payload);
        ok := v.Some?;
        it := Behind(nodes, it);
        out := out + nodes[start..it];
        NoKids(token, payload);
      } else if token == NAddress {
        AddressShape(O, nodes, it, scope, types);
        ok, v := false, None;
      } else if token == TDot {
        ok, v := InferDot();
      } else if token == TCall {
        ok, v := InferCall();
      } else if token == TOsb {
        ok, v := InferIndex();
      } else {
        ok, v := InferWhole();
      }
    }

    /** The trees behind a node, one after another. */
    method Kids(token: Token, n: nat) returns (ok: bool, vs: seq<V>)
      requires it <= |nodes|
      modifies this`it, this`out, this`scope, this`types
      ensures var r := Many(O, nodes, old(it), token, n, 0, old(scope), old(types));
              (ok <==> r.Some?) && (ok ==> vs == r.value.0.vs && DidAll(old(out), r.value.0, r.value.1))
      ensures ok ==> it <= |nodes|
      decreases |nodes| - it, 2
    {
      hide One, Many, Flat, Going;
      ghost var all := Many(O, nodes, it, token, n, 0, scope, types);
      vs := [];
      GoingStart(all, out);
      for i := 0 to n
        invariant old(it) <= it <= |nodes|
        invariant Going(all, Many(O, nodes, it, token, n - i, i, scope, types), vs, old(out), out)
      {
        ManyStep(O, nodes, it, token, n - i, i, scope, types);
        if token == TAt && i == 1 { scope := scope + 1; }
        ghost var one, out1 := One(O, nodes, it, scope, types), out;
        var v;
        ok, v := Infer();
        if !ok {
          Stopped(all, one, vs, old(out), out1);
          return;
        }
        GoingStep(all, one.value.0, Many(O, nodes, it, token, n - i - 1, i + 1, scope, types), vs, old(out), out1);
        vs := vs + [v.value];
      }
      ManyStep(O, nodes, it, token, 0, n, scope, types);
      ok := true;
      GoingEnd(all, Outcomes(Nil, [], scope, types), it, vs, old(out), out);
    }

    /** A node that stays: block, comma, array, assignment, function or return. */
    method InferWhole() returns (ok: bool, v: Option<V>)
      requires Known(nodes, it) && !LeafToken(TokenAt(nodes, it)) && !Folding(TokenAt(nodes, it))
      requires TokenAt(nodes, it) != NAddress
      modifies this`it, this`out, this`scope, this`types
      ensures var r := One(O, nodes, old(it), old(scope), old(types));
              (ok <==> r.Some?) && (ok ==> v == Some(r.value.0.v) && Did(old(out), r.value.0, r.value.1))
      decreases |nodes| - it, 0
    {
      hide One, Many, Known, HeadNodes, Arity, FlatAll;
      var start, token, payload := it, TokenAt(nodes, it), PayloadOf(nodes, it);
      OneShape(O, nodes, it, scope, types);
      HeadAt(nodes, it);
      KnownInside(nodes, it);
      it := Behind(nodes, it);
      out := out + nodes[start..it];
      if token == NBlock { scope := scope + 1; }
      var vs;
      v := None;
      ok, vs := Kids(token, Arity(token, payload).value);
      if !ok { return; }
      var r := O.whole(types, token, payload, vs);
      if r.None? { return false, None; }
      v := Some(r.value.0);
      types := r.value.1;
    }

    /** T_OSB: an index that folds replaces the nodes already written. */
    method InferIndex() returns (ok: bool, v: Option<V>)
      requires Known(nodes, it) && TokenAt(nodes, it) == TOsb
      modifies this`it, this`out, this`scope, this`types
      ensures var r := One(O, nodes, old(it), old(scope), old(types));
              (ok <==> r.Some?) && (ok ==> v == Some(r.value.0.v) && Did(old(out), r.value.0, r.value.1))
      decreases |nodes| - it, 0
    {
      hide One, Many, Known, FlatAll, Flat, NodeDone, Arity;
      OneShape(O, nodes, it, scope, types);
      KnownInside(nodes, it);
      HeadAt(nodes, it);
      var mark := |out|;
      out := out + [Tok(TOsb)];
      it := it + 1;
      var vs;
      v := None;
      ghost var many := Many(O, nodes, it, TOsb, 2, 0, scope, types);
      ok, vs := Kids(TOsb, 2);
      IndexDone(O, many);
      if !ok { return; }
      var f := O.fold(types, TOsb, None, vs);
      match f
      case Fail => ok := false;
      case Callee(_, _) => ok := false;
      case Keep(w) => v := Some(w);
      case Number(w, x) =>
        NumberStream(w);
        out := out[..mark] + [Tok(TNumber), Raw(w)];
        v := Some(x);
      case Address(p, x) =>
        NumberStream(p);
        out := out[..mark] + [Tok(NAddress), Raw(p)];
        v := Some(x);
    }

    /** T_CALL: both sides are resolved apart; a call that folds to a number drops
        them, one with a known callee keeps its arguments. */
    method InferCall() returns (ok: bool, v: Option<V>)
      requires Known(nodes, it) && TokenAt(nodes, it) == TCall
      modifies this`it, this`out, this`scope, this`types
      ensures var r := One(O, nodes, old(it), old(scope), old(types));
              (ok <==> r.Some?) && (ok ==> v == Some(r.value.0.v) && Did(old(out), r.value.0, r.value.1))
      decreases |nodes| - it, 0
    {
      hide One, Many, Known, FlatAll, Flat, Arity, HeadNodes, Front;
      CallShape(O, nodes, it, scope, types);
      var saved := out;
      it := it + 1;
      v := None;
      var vs, right;
      ok, vs, right := Sides();
      if !ok { return; }
      out := saved;
      var f := O.fold(types, TCall, None, vs);
      match f
      case Fail => ok := false;
      case Keep(_) => ok := false;
      case Address(_, _) => ok := false;
      case Number(w, x) =>
        NumberStream(w);
        out := out + [Tok(TNumber), Raw(w)];
        v := Some(x);
      case Callee(w, x) =>
        out := out + [Tok(TCall), Tok(TNumber), Raw(w)] + right;
        v := Some(x);
        CallStream(w, Many(O, nodes, old(it) + 1, TCall, 2, 0, old(scope), old(types)).value.0.trees.tail);
    }

    /** The callee and the arguments, each into a stream of its own. */
    method Sides() returns (ok: bool, vs: seq<V>, right: seq<Node>)
      requires it <= |nodes|
      modifies this`it, this`out, this`scope, this`types
      ensures var r := Many(O, nodes, old(it), TCall, 2, 0, old(scope), old(types));
              && (ok <==> r.Some?)
              && (ok ==> vs == r.value.0.vs && it == r.value.1 && scope == r.value.0.sc && types == r.value.0.ts
                         && r.value.0.trees.Cons? && right == FlatAll(r.value.0.trees.tail))
      decreases |nodes| - it, 2
    {
      hide One, Many, Flat;
      ManyStep(O, nodes, it, TCall, 2, 0, scope, types);
      var a, b;
      vs, right := [], [];
      out := [];
      ok, a := Infer();
      if !ok { return; }
      ManyStep(O, nodes, it, TCall, 1, 1, scope, types);
      out := [];
      ok, b := Infer();
      if !ok { return; }
      ManyStep(O, nodes, it, TCall, 0, 2, scope, types);
      vs, right := [a.value, b.value], out;
    }

    /** T_DOT: the left side is resolved for its value only. */
    method InferDot() returns (ok: bool, v: Option<V>)
      requires Known(nodes, it) && TokenAt(nodes, it) == TDot
      modifies this`it, this`out, this`scope, this`types
      ensures var r := One(O, nodes, old(it), old(scope), old(types));
              (ok <==> r.Some?) && (ok ==> v == Some(r.value.0.v) && Did(old(out), r.value.0, r.value.1))
      decreases |nodes| - it, 0
    {
      hide One, Many, Known, FlatAll, Flat, DotDone, Payload, HeadNodes, Arity, PayloadOf, TokenAt;
      DotShape(O, nodes, it, scope, types);
      DotAnswer(O, nodes, One(O, nodes, it + 1, scope, types));
      KnownInside(nodes, it);
      HeadAt(nodes, it);
      var saved := out;
      it := it + 1;
      out := [];
      ok, v := Infer();
      out := saved;
      if !ok { return; }
      var left := v.value;
      v := None;
      if TokenAt(nodes, it) != NVariable { return false, None; }
      var member := Payload(nodes, it + 1);
      if member.None? { return false, None; }
      it := it + 2;
      var f := O.fold(types, TDot, member, [left]);
      match f
      case Fail => ok := false;
      case Keep(_) => ok := false;
      case Callee(_, _) => ok := false;
      case Number(w, x) =>
        NumberStream(w);
        out := out + [Tok(TNumber), Raw(w)];
        v := Some(x);
      case Address(p, x) =>
        NumberStream(p);
        out := out + [Tok(NAddress), Raw(p)];
        v := Some(x);
    }
  }

  /** An index once its operands are done, by what the callback answers. */
  lemma IndexDone<V, T>(O: Oracle<V, T>, m: Option<(Outcomes<V, T>, nat)>)
    ensures m.None? ==> NodeDone(O, Tree(TOsb, None, Nil), m).None?
    ensures m.Some? ==>
              var (o, j) := m.value;
              && Flat(Tree(TOsb, None, o.trees)) == [Tok(TOsb)] + FlatAll(o.trees)
              && NodeDone(O, Tree(TOsb, None, Nil), m) ==
                 match O.fold(o.ts, TOsb, None, o.vs)
                 case Fail => None
                 case Callee(_, _) => None
                 case Keep(v) => Some((Outcome(Tree(TOsb, None, o.trees), v, o.sc, o.ts), j))
                 case Number(w, v) => Some((Outcome(NumberLeaf(w), v, o.sc, o.ts), j))
                 case Address(p, v) => Some((Outcome(AddressLeaf(p), v, o.sc, o.ts), j))
  {
    hide FlatAll, NumberLeaf, AddressLeaf;
  }

  /** A dot, likewise. */
  lemma DotAnswer<V, T>(O: Oracle<V, T>, ns: seq<Node>, l: Option<(Outcome<V, T>, nat)>)
    ensures l.None? ==> DotDone(O, ns, l).None?
    ensures l.Some? && (TokenAt(ns, l.value.1) != NVariable || Payload(ns, l.value.1 + 1).None?) ==> DotDone(O, ns, l).None?
    ensures l.Some? && TokenAt(ns, l.value.1) == NVariable && Payload(ns, l.value.1 + 1).Some? ==>
              var (o, j) := l.value;
              DotDone(O, ns, l) ==
              match O.fold(o.ts, TDot, Payload(ns, j + 1), [o.v])
              case Fail => None
              case Callee(_, _) => None
              case Keep(_) => None
              case Number(w, v) => Some((Outcome(NumberLeaf(w), v, o.sc, o.ts), j + 2))
              case Address(p, v) => Some((Outcome(AddressLeaf(p), v, o.sc, o.ts), j + 2))
  {
    hide NumberLeaf, AddressLeaf, TokenAt, Payload;
  }

  /** Some trees are done; all of them come to what is written and what is left. */
  ghost predicate Going<V, T>(all: Option<(Outcomes<V, T>, nat)>, rest: Option<(Outcomes<V, T>, nat)>, vs: seq<V>,
                              out0: seq<Node>, out: seq<Node>) {
    && (all.Some? <==> rest.Some?)
    && (all.Some? ==>
      && all.value.1 == rest.value.1 && all.value.0.sc == rest.value.0.sc && all.value.0.ts == rest.value.0.ts
      && all.value.0.vs == vs + rest.value.0.vs
      && out0 + FlatAll(all.value.0.trees) == out + FlatAll(rest.value.0.trees))
  }

  lemma GoingStart<V, T>(all: Option<(Outcomes<V, T>, nat)>, out: seq<Node>)
    ensures Going(all, all, [], out, out)
  {}

  lemma Stopped<V, T>(all: Option<(Outcomes<V, T>, nat)>, one: Option<(Outcome<V, T>, nat)>, vs: seq<V>, out0: seq<Node>,
                      out: seq<Node>)
    requires one.None? && Going(all, None, vs, out0, out)
    ensures all.None?
  {}

  lemma GoingStep<V, T>(all: Option<(Outcomes<V, T>, nat)>, h: Outcome<V, T>, rest: Option<(Outcomes<V, T>, nat)>, vs: seq<V>,
                        out0: seq<Node>, out: seq<Node>)
    requires Going(all, Front(h, rest), vs, out0, out)
    ensures Going(all, rest, vs + [h.v], out0, out + Flat(h.tree))
  {
    hide Flat;
    if rest.Some? {
      var o := rest.value.0;
      assert vs + ([h.v] + o.vs) == vs + [h.v] + o.vs;
      assert out + (Flat(h.tree) + FlatAll(o.trees)) == out + Flat(h.tree) + FlatAll(o.trees);
    }
  }

  lemma GoingEnd<V, T>(all: Option<(Outcomes<V, T>, nat)>, o: Outcomes<V, T>, j: nat, vs: seq<V>, out0: seq<Node>, out: seq<Node>)
    requires o.vs == [] && o.trees == Nil && Going(all, Some((o, j)), vs, out0, out)
    ensures all.Some? && all.value.0.vs == vs && out == out0 + FlatAll(all.value.0.trees)
    ensures all.value.1 == j && all.value.0.sc == o.sc && all.value.0.ts == o.ts
  {}

  lemma CallShape<V, T>(O: Oracle<V, T>, ns: seq<Node>, i: nat, sc: nat, ts: T)
    requires Known(ns, i) && TokenAt(ns, i) == TCall
    ensures i + 1 <= |ns|
    ensures One(O, ns, i, sc, ts) == CallDone(O, Many(O, ns, i + 1, TCall, 2, 0, sc, ts))
  {
    hide One, Many, Known, Folded;
    OneShape(O, ns, i, sc, ts);
    KnownInside(ns, i);
  }

  ghost function CallDone<V, T>(O: Oracle<V, T>, m: Option<(Outcomes<V, T>, nat)>): Option<(Outcome<V, T>, nat)> {
    match m
    case None => None
    case Some((o, j)) =>
      match Folded(Tree(TCall, None, Nil), o.trees, O.fold(o.ts, TCall, None, o.vs))
      case Some((t', v)) => Some((Outcome(t', v, o.sc, o.ts), j))
      case None => None
  }

  lemma KnownInside(ns: seq<Node>, i: nat)
    requires Known(ns, i)
    ensures i < |ns| && i < Behind(ns, i) <= |ns|
    ensures TokenAt(ns, i) in {TOsb, TCall, TDot} ==> Behind(ns, i) == i + 1 && PayloadOf(ns, i) == None
    ensures Arity(TokenAt(ns, i), PayloadOf(ns, i)).Some?
    ensures TokenAt(ns, i) in {TOsb, TCall} ==> Arity(TokenAt(ns, i), PayloadOf(ns, i)) == Some(2)
  {}

  lemma NoKids(token: Token, payload: Option<u64>)
    ensures Flat(Tree(token, payload, Nil)) == HeadNodes(token, payload)
  {}

  lemma NumberStream(w: u64)
    ensures Flat(NumberLeaf(w)) == [Tok(TNumber), Raw(w)] && Flat(AddressLeaf(w)) == [Tok(NAddress), Raw(w)]
  {}

  lemma CallStream(w: u64, args: Trees)
    ensures Flat(Tree(TCall, None, Cons(NumberLeaf(w), args))) == [Tok(TCall), Tok(TNumber), Raw(w)] + FlatAll(args)
  {
    hide Flat;
    NumberStream(w);
    CallFlat(w, args);
  }

  lemma CallFlat(w: u64, args: Trees)
    ensures Flat(Tree(TCall, None, Cons(NumberLeaf(w), args))) == [Tok(TCall)] + (Flat(NumberLeaf(w)) + FlatAll(args))
  {}

  /** Wherever a tree lies: it is rewritten without an error exactly when the rules
      give it an outcome, and then to that. */
  lemma OneMeans<V(!new), T(!new)>(O: Oracle<V, T>, ns: seq<Node>, i: nat, sc: nat, ts: T, o: Outcome<V, T>, j: nat)
    ensures One(O, ns, i, sc, ts) == Some((o, j))
       <==> TreeAt(ns, i).Some? && TreeAt(ns, i).value.1 == j && Becomes(O, TreeAt(ns, i).value.0, sc, ts, o)
  {
    hide Rewrite, TreeAt, Becomes;
    if TreeAt(ns, i).Some? {
      TreeAtFlat(ns, i);
      BecomesIff(O, TreeAt(ns, i).value.0, sc, ts, o);
    }
  }

  /** What one tree in the old stream became in the new one: exactly one tree, as
      a reader of the new stream finds it, and the one the rules say. */
  ghost predicate Resolves<V(!new), T(!new)>(O: Oracle<V, T>, sc: nat, ts: T, nodes: seq<Node>, used: nat, t: Tree, out: seq<Node>,
                                             o: Outcome<V, T>) {
    && TreeAt(nodes, 0) == Some((t, used)) && used <= |nodes| && nodes[..used] == Flat(t) && Proper(t)
    && TreeAt(out, 0) == Some((o.tree, |out|)) && out == Flat(o.tree) && Proper(o.tree)
    && Resolved(o.tree) && Refines(t, o.tree) && Becomes(O, t, sc, ts, o)
  }

  lemma OneResolves<V(!new), T(!new)>(O: Oracle<V, T>, nodes: seq<Node>, sc: nat, ts: T) returns (t: Tree)
    requires One(O, nodes, 0, sc, ts).Some?
    ensures var (o, used) := One(O, nodes, 0, sc, ts).value;
            Resolves(O, sc, ts, nodes, used, t, Flat(o.tree), o) && o.sc == sc + Opened(t)
  {
    hide Rewrite, TreeAt, Flat, Resolved, Refines, Proper, Opened, Becomes;
    t := TreeAt(nodes, 0).value.0;
    TreeAtFlat(nodes, 0);
    var (o, used) := One(O, nodes, 0, sc, ts).value;
    assert nodes[0..used] == nodes[..used];
    RewriteResolved(O, t, sc, ts);
    RewriteRefines(O, t, sc, ts);
    RewriteScope(O, t, sc, ts);
    BecomesIff(O, t, sc, ts, o);
    ReadBack(o.tree);
  }

  lemma OneExists<V(!new), T(!new)>(O: Oracle<V, T>, nodes: seq<Node>, sc: nat, ts: T)
    ensures One(O, nodes, 0, sc, ts).Some?
       <==> TreeAt(nodes, 0).Some? && exists o :: Becomes(O, TreeAt(nodes, 0).value.0, sc, ts, o)
  {
    hide One, TreeAt, Becomes;
    if One(O, nodes, 0, sc, ts).Some? {
      OneMeans(O, nodes, 0, sc, ts, One(O, nodes, 0, sc, ts).value.0, One(O, nodes, 0, sc, ts).value.1);
    } else if TreeAt(nodes, 0).Some? {
      forall o ensures !Becomes(O, TreeAt(nodes, 0).value.0, sc, ts, o) {
        OneMeans(O, nodes, 0, sc, ts, o, TreeAt(nodes, 0).value.1);
      }
    }
  }

  lemma ReadBack(t: Tree)
    requires Proper(t)
    ensures TreeAt(Flat(t), 0) == Some((t, |Flat(t)|))
  {
    hide TreeAt, Flat, Proper;
    FlatTreeAt([], t, []);
    assert [] + Flat(t) + [] == Flat(t);
  }

  /** resolve: a pass without an error reads exactly one tree and writes exactly
      one, which reads back as what the rules make of it: without member accesses,
      with known callees, every folded node with the payload its callback gave. It
      has an error exactly when no tree is there or the rules give it nothing. */
  method Resolve<V(!new), T(!new)>(nodes: seq<Node>, O: Oracle<V, T>, types: T)
    returns (ok: bool, out: seq<Node>, ghost used: nat, ghost t: Tree)
    ensures ok <==> TreeAt(nodes, 0).Some? && exists o :: Becomes(O, TreeAt(nodes, 0).value.0, 0, types, o)
    ensures ok <==> One(O, nodes, 0, 0, types).Some?
    ensures ok ==> Resolves(O, 0, types, nodes, used, t, out, One(O, nodes, 0, 0, types).value.0)
  {
    hide One, Resolves, Becomes;
    var p := new Pass<V, T>(nodes, O, types);
    var v;
    ok, v := p.Infer();
    out := p.out;
    used, t := 0, NumberLeaf(0);
    OneExists(O, nodes, 0, types);
    if ok {
      ghost var r := One(O, nodes, 0, 0, types).value;
      t := OneResolves(O, nodes, 0, types);
      used := r.1;
      assert [] + Flat(r.0.tree) == Flat(r.0.tree);
    }
  }
}
