/** What the resolver's pass makes of a tree, as rules: one for every kind of node,
    without reference to the functions that compute it. */
module ResolverMeaning {
  import opened Words
  import opened NodeStream
  import opened Resolver

  /** A node that is nothing but this number. */
  predicate IsNumber(t: Tree, w: u64) { t.token == TNumber && t.payload == Some(w) && t.kids.Nil? }

  predicate IsAddress(t: Tree, p: u64) { t.token == NAddress && t.payload == Some(p) && t.kids.Nil? }

  /** What the callback's answer turns a member access, an index or a call into.
      kids are the trees behind it, already rewritten. */
  ghost predicate FoldedTo<V>(t: Tree, kids: Trees, answer: Fold<V>, t': Tree, v: V) {
    match answer
    case Fail => false
    case Number(w, x) => IsNumber(t', w) && v == x
    case Address(p, x) => t.token != TCall && IsAddress(t', p) && v == x
    case Callee(w, x) =>
      && t.token == TCall && t'.token == TCall && t'.payload == t.payload && v == x
      && kids.Cons? && t'.kids.Cons? && IsNumber(t'.kids.head, w) && t'.kids.tail == kids.tail
    case Keep(x) => t.token == TOsb && t'.token == TOsb && t'.payload == t.payload && t'.kids == kids && v == x
  }

  /** The tree t, met in scope sc with these types, becomes o.tree; o.v is its
      value, o.sc and o.ts are the scope and the types behind it. */
  ghost predicate Becomes<V(!new), T(!new)>(O: Oracle<V, T>, t: Tree, sc: nat, ts: T, o: Outcome<V, T>)
    decreases t, 1
  {
    match t.token
    case TNumber => t.payload.Some? && IsItself(O, t, sc, ts, o)
    case TString => t.payload.Some? && IsItself(O, t, sc, ts, o)
    case TMString => t.payload.Some? && IsItself(O, t, sc, ts, o)
    case NVariable => t.payload.Some? && IsItself(O, t, sc, ts, o)
    case TThis => IsItself(O, t, sc, ts, o)
    case NBlock => t.payload == Some(Count(t.kids)) && exists os :: InRow(O, t.kids, sc + 1, ts, os) && Stays(O, t, os, o)
    case TComma => t.payload == Some(Count(t.kids)) && exists os :: InRow(O, t.kids, sc, ts, os) && Stays(O, t, os, o)
    case NArray =>
      t.payload.Some? && Count(t.kids) == 1 && exists os :: InRow(O, t.kids, sc, ts, os) && Stays(O, t, os, o)
    case TReturn => Count(t.kids) == 1 && exists os :: InRow(O, t.kids, sc, ts, os) && Stays(O, t, os, o)
    case TEq => Count(t.kids) == 2 && exists os :: InRow(O, t.kids, sc, ts, os) && Stays(O, t, os, o)
    case TAt => Count(t.kids) == 3 && exists os :: Function(O, t.kids, sc, ts, os) && Stays(O, t, os, o)
    case TOsb => Count(t.kids) == 2 && exists os :: InRow(O, t.kids, sc, ts, os) && Folds(O, t, os, o)
    case TCall => Count(t.kids) == 2 && exists os :: InRow(O, t.kids, sc, ts, os) && Folds(O, t, os, o)
    case TDot =>
      t.kids.Cons? && t.kids.tail.Cons? && t.kids.tail.head.token == NVariable && t.kids.tail.tail.Nil? && exists l ::
        && Becomes(O, t.kids.head, sc, ts, l) && o.sc == l.sc && o.ts == l.ts
        && FoldedTo(t, Nil, O.fold(l.ts, TDot, t.kids.tail.head.payload, [l.v]), o.tree, o.v)
    case _ => false
  }

  /** A leaf stays, with the value its own callback gives it. */
  ghost predicate IsItself<V, T>(O: Oracle<V, T>, t: Tree, sc: nat, ts: T, o: Outcome<V, T>) {
    t.kids.Nil? && o.tree == t && O.leaf(ts, sc, t.token, t.payload) == Some(o.v) && o.sc == sc && o.ts == ts
  }

  /** Trees one after another: each is met in the scope and with the types that the
      one in front of it leaves. */
  ghost predicate InRow<V(!new), T(!new)>(O: Oracle<V, T>, trees: Trees, sc: nat, ts: T, os: Outcomes<V, T>)
    decreases trees, 0
  {
    match trees
    case Nil => os == Outcomes(Nil, [], sc, ts)
    case Cons(h, t) =>
      exists o, rest :: Becomes(O, h, sc, ts, o) && InRow(O, t, o.sc, o.ts, rest) && os == InFront(o, rest)
  }

  /** The name of a function is outside its scope, all else inside. */
  ghost predicate Function<V(!new), T(!new)>(O: Oracle<V, T>, trees: Trees, sc: nat, ts: T, os: Outcomes<V, T>)
    decreases trees, 0
  {
    trees.Cons? &&
    exists o, rest :: Becomes(O, trees.head, sc, ts, o) && InRow(O, trees.tail, o.sc + 1, o.ts, rest) && os == InFront(o, rest)
  }

  function InFront<V, T>(o: Outcome<V, T>, rest: Outcomes<V, T>): Outcomes<V, T> {
    Outcomes(Cons(o.tree, rest.trees), [o.v] + rest.vs, rest.sc, rest.ts)
  }

  /** The node is kept over its rewritten trees; its callback gives the value and
      may learn types. */
  ghost predicate Stays<V, T>(O: Oracle<V, T>, t: Tree, os: Outcomes<V, T>, o: Outcome<V, T>) {
    && O.whole(os.ts, t.token, t.payload, os.vs) == Some((o.v, o.ts)) && o.sc == os.sc
    && o.tree.token == t.token && o.tree.payload == t.payload && o.tree.kids == os.trees
  }

  /** The callback decides, from the values of both operands. */
  ghost predicate Folds<V, T>(O: Oracle<V, T>, t: Tree, os: Outcomes<V, T>, o: Outcome<V, T>) {
    o.sc == os.sc && o.ts == os.ts && FoldedTo(t, os.trees, O.fold(os.ts, t.token, None, os.vs), o.tree, o.v)
  }

  // -------------------------------------------------- the pass follows the rules

  lemma FoldedIff<V>(t: Tree, kids: Trees, answer: Fold<V>, t': Tree, v: V)
    ensures FoldedTo(t, kids, answer, t', v) <==> Folded(t, kids, answer) == Some((t', v))
  {}

  lemma FinishedIff<V, T>(O: Oracle<V, T>, t: Tree, os: Outcomes<V, T>, o: Outcome<V, T>)
    ensures t.token in {TOsb, TCall} ==> (Folds(O, t, os, o) <==> Finished(O, t, os) == Some(o))
    ensures !Folding(t.token) ==> (Stays(O, t, os, o) <==> Finished(O, t, os) == Some(o))
  {
    hide Folded, FoldedTo;
    var answer := O.fold(os.ts, t.token, MemberOf(t), os.vs);
    FoldedIff(t, os.trees, answer, o.tree, o.v);
  }

  /** RewriteAll, seen as the first tree and the others. */
  lemma AllSplit<V, T>(O: Oracle<V, T>, token: Token, trees: Trees, i: nat, sc: nat, ts: T, os: Outcomes<V, T>)
    requires trees.Cons?
    ensures var h := Rewrite(O, trees.head, sc + Between(token, i), ts);
            RewriteAll(O, token, trees, Count(trees), i, sc, ts) == Some(os) <==>
              h.Some? && var rest := RewriteAll(O, token, trees.tail, Count(trees.tail), i + 1, h.value.sc, h.value.ts);
              rest.Some? && os == InFront(h.value, rest.value)
  {
    hide Rewrite, RewriteAll;
    RewriteStep(O, token, trees, Count(trees), i, sc, ts);
  }

  /** Where no scope begins between the trees. */
  lemma {:induction false} RowIff<V(!new), T(!new)>(O: Oracle<V, T>, token: Token, trees: Trees, i: nat, sc: nat, ts: T,
                                                    os: Outcomes<V, T>)
    requires AllProper(trees) && (token != TAt || i > 1)
    ensures InRow(O, trees, sc, ts, os) <==> RewriteAll(O, token, trees, Count(trees), i, sc, ts) == Some(os)
    decreases trees, 0
  {
    hide Rewrite, Becomes, RewriteAll, Proper, InFront, Count;
    match trees
    case Nil =>
      NothingRewritten(O, token, trees, Count(trees), i, sc, ts);
    case Cons(h, t) =>
      AllSplit(O, token, trees, i, sc, ts, os);
      if InRow(O, trees, sc, ts, os) {
        var o, rest :| Becomes(O, h, sc, ts, o) && InRow(O, t, o.sc, o.ts, rest) && os == InFront(o, rest);
        BecomesIff(O, h, sc, ts, o);
        RowIff(O, token, t, i + 1, o.sc, o.ts, rest);
      }
      if RewriteAll(O, token, trees, Count(trees), i, sc, ts) == Some(os) {
        var o := Rewrite(O, h, sc, ts).value;
        BecomesIff(O, h, sc, ts, o);
        var rest := RewriteAll(O, token, t, Count(t), i + 1, o.sc, o.ts).value;
        RowIff(O, token, t, i + 1, o.sc, o.ts, rest);
        assert Becomes(O, h, sc, ts, o) && InRow(O, t, o.sc, o.ts, rest) && os == InFront(o, rest);
      }
  }

  lemma {:induction false} FunctionIff<V(!new), T(!new)>(O: Oracle<V, T>, trees: Trees, sc: nat, ts: T, os: Outcomes<V, T>)
    requires AllProper(trees) && Count(trees) == 3
    ensures Function(O, trees, sc, ts, os) <==> RewriteAll(O, TAt, trees, 3, 0, sc, ts) == Some(os)
    decreases trees, 0
  {
    hide Rewrite, Becomes, RewriteAll, Proper, InFront, InRow;
    var h, t := trees.head, trees.tail;
    AllSplit(O, TAt, trees, 0, sc, ts, os);
    if Function(O, trees, sc, ts, os) {
      var o, rest :| Becomes(O, h, sc, ts, o) && InRow(O, t, o.sc + 1, o.ts, rest) && os == InFront(o, rest);
      BecomesIff(O, h, sc, ts, o);
      BodyIff(O, t, o.sc, o.ts, rest);
    }
    if RewriteAll(O, TAt, trees, 3, 0, sc, ts) == Some(os) {
      var o := Rewrite(O, h, sc, ts).value;
      BecomesIff(O, h, sc, ts, o);
      var rest := RewriteAll(O, TAt, t, Count(t), 1, o.sc, o.ts).value;
      BodyIff(O, t, o.sc, o.ts, rest);
      assert Becomes(O, h, sc, ts, o) && InRow(O, t, o.sc + 1, o.ts, rest) && os == InFront(o, rest);
    }
  }

  /** What is behind the name of a function. */
  lemma {:induction false} BodyIff<V(!new), T(!new)>(O: Oracle<V, T>, trees: Trees, sc: nat, ts: T, os: Outcomes<V, T>)
    requires AllProper(trees) && trees.Cons?
    ensures InRow(O, trees, sc + 1, ts, os) <==> RewriteAll(O, TAt, trees, Count(trees), 1, sc, ts) == Some(os)
    decreases trees, 0
  {
    hide Rewrite, Becomes, RewriteAll, Proper, InFront, Count;
    var h, t := trees.head, trees.tail;
    AllSplit(O, TAt, trees, 1, sc, ts, os);
    if InRow(O, trees, sc + 1, ts, os) {
      var o, rest :| Becomes(O, h, sc + 1, ts, o) && InRow(O, t, o.sc, o.ts, rest) && os == InFront(o, rest);
      BecomesIff(O, h, sc + 1, ts, o);
      RowIff(O, TAt, t, 2, o.sc, o.ts, rest);
    }
    if RewriteAll(O, TAt, trees, Count(trees), 1, sc, ts) == Some(os) {
      var o := Rewrite(O, h, sc + 1, ts).value;
      BecomesIff(O, h, sc + 1, ts, o);
      var rest := RewriteAll(O, TAt, t, Count(t), 2, o.sc, o.ts).value;
      RowIff(O, TAt, t, 2, o.sc, o.ts, rest);
      assert Becomes(O, h, sc + 1, ts, o) && InRow(O, t, o.sc, o.ts, rest) && os == InFront(o, rest);
    }
  }

  /** The node itself, once RewriteAll is known for its trees. */
  lemma NodeIff<V(!new), T(!new)>(O: Oracle<V, T>, t: Tree, sc: nat, ts: T, o: Outcome<V, T>)
    requires Proper(t) && !LeafToken(t.token) && t.token !in {NAddress, TDot}
    ensures Rewrite(O, t, sc, ts) == Some(o) <==>
              exists os :: RewriteAll(O, t.token, t.kids, Count(t.kids), 0, EnterScope(t.token, sc), ts) == Some(os)
                           && Finished(O, t, os) == Some(o)
  {
    hide Finished, RewriteAll, AllProper;
    var all := RewriteAll(O, t.token, t.kids, Count(t.kids), 0, EnterScope(t.token, sc), ts);
    if Rewrite(O, t, sc, ts) == Some(o) {
      assert all == Some(all.value) && Finished(O, t, all.value) == Some(o);
    }
  }

  /** The rules say exactly what the pass computes. */
  lemma {:induction false} BecomesIff<V(!new), T(!new)>(O: Oracle<V, T>, t: Tree, sc: nat, ts: T, o: Outcome<V, T>)
    requires Proper(t)
    ensures Becomes(O, t, sc, ts, o) <==> Rewrite(O, t, sc, ts) == Some(o)
    decreases t, 1
  {
    hide InRow, RewriteAll, Function, Stays, Folds, AllProper, Count;
    if LeafToken(t.token) || t.token == NAddress {
      LeafKids(t);
    } else if t.token == TDot {
      DotIff(O, t, sc, ts, o);
    } else {
      NodeIff(O, t, sc, ts, o);
      ProperKids(t);
      forall os: Outcomes<V, T>
        ensures RewriteAll(O, t.token, t.kids, Count(t.kids), 0, EnterScope(t.token, sc), ts) == Some(os)
           <==> if t.token == TAt then Function(O, t.kids, sc, ts, os) else InRow(O, t.kids, EnterScope(t.token, sc), ts, os)
        ensures t.token in {TOsb, TCall} ==> (Folds(O, t, os, o) <==> Finished(O, t, os) == Some(o))
        ensures !Folding(t.token) ==> (Stays(O, t, os, o) <==> Finished(O, t, os) == Some(o))
      {
        FinishedIff(O, t, os, o);
        if t.token == TAt { FunctionIff(O, t.kids, sc, ts, os); } else {
          RowIff(O, t.token, t.kids, 0, EnterScope(t.token, sc), ts, os);
        }
      }
    }
  }

  lemma ProperKids(t: Tree)
    requires Proper(t)
    ensures AllProper(t.kids) && (t.token == TAt ==> Count(t.kids) == 3)
    ensures t.token in {TDot, TOsb, TCall, TEq} ==> Count(t.kids) == 2
    ensures t.token in {NArray, TReturn} ==> Count(t.kids) == 1
    ensures t.token in {NBlock, TComma} ==> t.payload == Some(Count(t.kids))
    ensures t.token == NArray ==> t.payload.Some?
    ensures t.token !in {TAdd, TSub, TMul, TEqEq, TLess, TLessEq, TAddEq, TIf, TWhile, TOther}
  {}

  lemma LeafKids(t: Tree)
    requires Proper(t) && (LeafToken(t.token) || t.token == NAddress)
    ensures t.kids.Nil? && (t.token != TThis ==> t.payload.Some?)
  {
    assert Count(t.kids) == 0;
  }

  lemma DotKids(t: Tree)
    requires Proper(t) && t.token == TDot
    ensures t.kids.Cons? && t.kids.tail.Cons? && t.kids.tail.head.token == NVariable && t.kids.tail.tail.Nil?
    ensures MemberOf(t) == t.kids.tail.head.payload
  {
    TwoTrees(t.kids);
  }

  /** A dot, seen from its left side. */
  lemma DotRewritten<V, T>(O: Oracle<V, T>, t: Tree, sc: nat, ts: T)
    requires t.token == TDot && t.kids.Cons? && Count(t.kids) == 2
    ensures Rewrite(O, t, sc, ts) ==
            match Rewrite(O, t.kids.head, sc, ts)
            case None => None
            case Some(l) =>
              match Folded(t, Nil, O.fold(l.ts, TDot, MemberOf(t), [l.v]))
              case Some((t', v)) => Some(Outcome(t', v, l.sc, l.ts))
              case None => None
  {
    hide MemberOf;
    RewriteStep(O, TDot, t.kids, 1, 0, sc, ts);
    if Rewrite(O, t.kids.head, sc, ts).Some? {
      var l := Rewrite(O, t.kids.head, sc, ts).value;
      NothingRewritten(O, TDot, t.kids.tail, 0, 1, l.sc, l.ts);
      assert [l.v] + [] == [l.v];
      DotFolds(t, Cons(l.tree, Nil), O.fold(l.ts, TDot, MemberOf(t), [l.v]));
    }
  }

  lemma DotFolds<V>(t: Tree, kids: Trees, answer: Fold<V>)
    requires t.token == TDot
    ensures Folded(t, kids, answer) == Folded(t, Nil, answer)
  {}

  lemma {:induction false} DotIff<V(!new), T(!new)>(O: Oracle<V, T>, t: Tree, sc: nat, ts: T, o: Outcome<V, T>)
    requires Proper(t) && t.token == TDot
    ensures Becomes(O, t, sc, ts, o) <==> Rewrite(O, t, sc, ts) == Some(o)
    decreases t, 0
  {
    hide Rewrite, Folded, FoldedTo, AllProper, MemberOf;
    ProperKids(t);
    DotKids(t);
    var left := t.kids.head;
    ProperHead(t);
    DotRewritten(O, t, sc, ts);
    if Becomes(O, t, sc, ts, o) {
      var l :| Becomes(O, left, sc, ts, l) && o.sc == l.sc && o.ts == l.ts
               && FoldedTo(t, Nil, O.fold(l.ts, TDot, MemberOf(t), [l.v]), o.tree, o.v);
      BecomesIff(O, left, sc, ts, l);
      FoldedIff(t, Nil, O.fold(l.ts, TDot, MemberOf(t), [l.v]), o.tree, o.v);
    }
    if Rewrite(O, t, sc, ts) == Some(o) {
      var l := Rewrite(O, left, sc, ts).value;
      BecomesIff(O, left, sc, ts, l);
      FoldedIff(t, Nil, O.fold(l.ts, TDot, MemberOf(t), [l.v]), o.tree, o.v);
      assert Becomes(O, left, sc, ts, l);
    }
  }

  lemma ProperHead(t: Tree)
    requires Proper(t) && t.kids.Cons?
    ensures Proper(t.kids.head) && t.kids.head < t
  {}
}
