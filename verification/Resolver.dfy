/** The resolver: one pass that reads a prefix stream of nodes and writes another,
    folding what compile-time values decide. Values, types and the callbacks
    behind them are uninterpreted. */
module Resolver {
  import opened Words
  import opened NodeStream

  // --------------------------------------------------------------------- trees

  /** A node with its payload and the trees behind it. The member name of a dot
      is its second tree. */
  datatype Tree = Tree(token: Token, payload: Option<u64>, kids: Trees)

  datatype Trees = Nil | Cons(head: Tree, tail: Trees)

  function Count(ts: Trees): nat {
    match ts case Nil => 0 case Cons(_, t) => 1 + Count(t)
  }

  predicate HasPayload(t: Token) { t in {TNumber, TString, TMString, NVariable, NAddress, NArray, NBlock, TComma} }

  predicate LeafToken(t: Token) { t in {TNumber, TString, TMString, NVariable, TThis} }

  /** How many trees follow a node; None for nodes that no stream holds. An
      address is never in the resolver's input, only in its output. */
  function Arity(t: Token, payload: Option<u64>): Option<nat> {
    if LeafToken(t) || t == NAddress then Some(0)
    else if t in {NBlock, TComma} then match payload case Some(n) => Some(n) case None => None
    else if t in {NArray, TReturn} then Some(1)
    else if t in {TEq, TOsb, TCall, TDot} then Some(2)
    else if t == TAt then Some(3)
    else None
  }

  function HeadNodes(token: Token, payload: Option<u64>): seq<Node> {
    [Tok(token)] + match payload case Some(p) => [Raw(p)] case None => []
  }

  /** The stream of a tree. */
  function Flat(t: Tree): seq<Node> { HeadNodes(t.token, t.payload) + FlatAll(t.kids) }

  function FlatAll(ts: Trees): seq<Node> {
    match ts case Nil => [] case Cons(h, t) => Flat(h) + FlatAll(t)
  }

  function At(ts: Trees, i: nat): Tree
    requires i < Count(ts)
  {
    if i == 0 then ts.head else At(ts.tail, i - 1)
  }

  predicate DotOk(t: Tree) { t.token == TDot ==> Count(t.kids) == 2 && At(t.kids, 1).token == NVariable }

  /** A tree with a well-formed stream. */
  predicate Proper(t: Tree) {
    && t.payload.Some? == HasPayload(t.token) && Arity(t.token, t.payload) == Some(Count(t.kids)) && DotOk(t)
    && AllProper(t.kids)
  }

  predicate AllProper(ts: Trees) {
    match ts case Nil => true case Cons(h, t) => Proper(h) && AllProper(t)
  }

  /** Payload of the node at i, for nodes that have one. */
  function PayloadOf(ns: seq<Node>, i: nat): Option<u64> {
    if HasPayload(TokenAt(ns, i)) then Payload(ns, i + 1) else None
  }

  /** The node at i is a known one, with its payload. */
  predicate Known(ns: seq<Node>, i: nat) {
    && i < |ns| && ns[i].Tok? && (HasPayload(TokenAt(ns, i)) ==> PayloadOf(ns, i).Some?)
    && Arity(TokenAt(ns, i), PayloadOf(ns, i)).Some?
  }

  /** Where the trees behind the node at i start. */
  function Behind(ns: seq<Node>, i: nat): nat { if HasPayload(TokenAt(ns, i)) then i + 2 else i + 1 }

  /** The tree that starts at i and the index behind it; None where the stream
      is malformed. */
  function TreeAt(ns: seq<Node>, i: nat): (r: Option<(Tree, nat)>)
    ensures r.Some? ==> i < r.value.1 <= |ns|
    decreases |ns| - i, 0, 0
  {
    if !Known(ns, i) then None
    else
      match TreesAt(ns, Behind(ns, i), Arity(TokenAt(ns, i), PayloadOf(ns, i)).value)
      case None => None
      case Some((ts, j)) =>
        var t := Tree(TokenAt(ns, i), PayloadOf(ns, i), ts);
        if DotOk(t) then Some((t, j)) else None
  }

  /** n trees in a row. */
  function TreesAt(ns: seq<Node>, i: nat, n: nat): (r: Option<(Trees, nat)>)
    requires i <= |ns|
    ensures r.Some? ==> i <= r.value.1 <= |ns| && Count(r.value.0) == n
    decreases |ns| - i, 1, n
  {
    if n == 0 then Some((Nil, i))
    else
      match TreeAt(ns, i)
      case None => None
      case Some((h, j)) =>
        match TreesAt(ns, j, n - 1)
        case Some((t, k)) => Some((Cons(h, t), k))
        case None => None
  }

  // ------------------------------------------------ the stream is the tree's own

  lemma HeadAt(ns: seq<Node>, i: nat)
    requires Known(ns, i)
    ensures Behind(ns, i) <= |ns| && ns[i..Behind(ns, i)] == HeadNodes(TokenAt(ns, i), PayloadOf(ns, i))
    ensures PayloadOf(ns, i).Some? == HasPayload(TokenAt(ns, i))
  {}

  lemma Joined(ns: seq<Node>, i: nat, j: nat, k: nat)
    requires i <= j <= k <= |ns|
    ensures ns[i..k] == ns[i..j] + ns[j..k]
  {}

  /** What was read is the stream of the tree. */
  lemma {:induction false} TreeAtFlat(ns: seq<Node>, i: nat)
    requires TreeAt(ns, i).Some?
    ensures var (t, j) := TreeAt(ns, i).value; ns[i..j] == Flat(t) && Proper(t)
    decreases |ns| - i, 0, 0
  {
    hide HeadNodes, DotOk, Arity, HasPayload, PayloadOf, TreesAt;
    HeadAt(ns, i);
    var n := Arity(TokenAt(ns, i), PayloadOf(ns, i)).value;
    TreesAtFlat(ns, Behind(ns, i), n);
    Joined(ns, i, Behind(ns, i), TreeAt(ns, i).value.1);
  }

  lemma {:induction false} TreesAtFlat(ns: seq<Node>, i: nat, n: nat)
    requires i <= |ns| && TreesAt(ns, i, n).Some?
    ensures var (ts, j) := TreesAt(ns, i, n).value; ns[i..j] == FlatAll(ts) && AllProper(ts)
    decreases |ns| - i, 1, n
  {
    hide Flat, Proper, TreeAt;
    if n > 0 {
      TreeAtFlat(ns, i);
      var j := TreeAt(ns, i).value.1;
      TreesAtFlat(ns, j, n - 1);
      Joined(ns, i, j, TreesAt(ns, j, n - 1).value.1);
    }
  }

  /** And the stream of a proper tree, wherever it lies, is read as that tree. */
  lemma {:induction false} FlatTreeAt(pre: seq<Node>, t: Tree, post: seq<Node>)
    requires Proper(t)
    ensures TreeAt(pre + Flat(t) + post, |pre|) == Some((t, |pre| + |Flat(t)|))
    decreases t, 1
  {
    hide DotOk, Arity, HasPayload, FlatAll, TreesAt, AllProper, HeadNodes, PayloadOf, Known;
    var ns, head := pre + Flat(t) + post, HeadNodes(t.token, t.payload);
    HeadRead(pre, t, FlatAll(t.kids) + post);
    assert ns == pre + head + (FlatAll(t.kids) + post);
    assert ns == (pre + head) + FlatAll(t.kids) + post;
    FlatTreesAt(pre + head, t.kids, post);
  }

  lemma HeadRead(pre: seq<Node>, t: Tree, post: seq<Node>)
    requires Proper(t)
    ensures var ns, i := pre + HeadNodes(t.token, t.payload) + post, |pre|;
            && TokenAt(ns, i) == t.token && PayloadOf(ns, i) == t.payload && Known(ns, i)
            && Behind(ns, i) == i + |HeadNodes(t.token, t.payload)|
  {
    hide AllProper, DotOk;
    var ns, i := pre + HeadNodes(t.token, t.payload) + post, |pre|;
    assert ns[i] == Tok(t.token);
    if t.payload.Some? { assert ns[i + 1] == Raw(t.payload.value); }
  }

  lemma {:induction false} FlatTreesAt(pre: seq<Node>, ts: Trees, post: seq<Node>)
    requires AllProper(ts)
    ensures |pre| <= |pre + FlatAll(ts) + post|
    ensures TreesAt(pre + FlatAll(ts) + post, |pre|, Count(ts)) == Some((ts, |pre| + |FlatAll(ts)|))
    decreases ts, 0
  {
    hide Flat, Proper, TreeAt;
    match ts
    case Nil =>
    case Cons(h, t) =>
      var ns := pre + FlatAll(ts) + post;
      assert ns == pre + Flat(h) + (FlatAll(t) + post);
      FlatTreeAt(pre, h, FlatAll(t) + post);
      assert ns == (pre + Flat(h)) + FlatAll(t) + post;
      FlatTreesAt(pre + Flat(h), t, post);
  }

  // ----------------------------------------------------------------- rewriting

  /** What a compile-time value decides about a member access, index or call. */
  datatype Fold<V> =
    | Fail
    | Keep(v: V)
    | Number(w: u64, v: V)
    | Address(p: u64, v: V)
    | Callee(w: u64, v: V)

  /** The uninterpreted part. T is what the passes know of types so far. leaf gives
      the value of a leaf in a scope; whole that of a node that stays, from the
      values of its trees; fold what becomes of the others. */
  datatype Oracle<!V, !T> = Oracle(
    leaf: (T, nat, Token, Option<u64>) -> Option<V>,
    whole: (T, Token, Option<u64>, seq<V>) -> Option<(V, T)>,
    fold: (T, Token, Option<u64>, seq<V>) -> Fold<V>)

  /** A rewritten tree, its value, the scope counter and the types after it. */
  datatype Outcome<V, T> = Outcome(tree: Tree, v: V, sc: nat, ts: T)

  datatype Outcomes<V, T> = Outcomes(trees: Trees, vs: seq<V>, sc: nat, ts: T)

  function NumberLeaf(w: u64): Tree { Tree(TNumber, Some(w), Nil) }

  function AddressLeaf(p: u64): Tree { Tree(NAddress, Some(p), Nil) }

  /** The tree after folding; None for results the token does not take. */
  function Folded<V>(t: Tree, kids: Trees, f: Fold<V>): Option<(Tree, V)>
  {
    match f
    case Fail => None
    case Keep(v) => if t.token == TOsb then Some((t.(kids := kids), v)) else None
    case Number(w, v) => Some((NumberLeaf(w), v))
    case Address(p, v) => if t.token != TCall then Some((AddressLeaf(p), v)) else None
    case Callee(w, v) =>
      if t.token == TCall && kids.Cons? then Some((t.(kids := Cons(NumberLeaf(w), kids.tail)), v)) else None
  }

  /** The trees behind a node that are looked at: the member name of a dot is
      not. */
  function Looked(token: Token, n: nat): nat { if token == TDot && n > 0 then 1 else n }

  function MemberOf(t: Tree): Option<u64> {
    if t.token == TDot && Count(t.kids) == 2 then At(t.kids, 1).payload else None
  }

  predicate Folding(t: Token) { t in {TDot, TOsb, TCall} }

  /** One tree rewritten; None when some node on the way yields an error. */
  function Rewrite<V, T>(O: Oracle<V, T>, t: Tree, sc: nat, ts: T): (r: Option<Outcome<V, T>>)
    decreases t, 1
  {
    if LeafToken(t.token) then
      match O.leaf(ts, sc, t.token, t.payload)
      case Some(v) => Some(Outcome(t, v, sc, ts))
      case None => None
    else if t.token == NAddress then None
    else
      match RewriteAll(O, t.token, t.kids, Looked(t.token, Count(t.kids)), 0, EnterScope(t.token, sc), ts)
      case None => None
      case Some(o) => Finished(O, t, o)
  }

  /** A block opens its scope before its trees. */
  function EnterScope(t: Token, sc: nat): nat { if t == NBlock then sc + 1 else sc }

  /** A function opens one behind its name. */
  function Between(t: Token, i: nat): nat { if t == TAt && i == 1 then 1 else 0 }

  /** The node itself, once its trees are done. */
  function Finished<V, T>(O: Oracle<V, T>, t: Tree, o: Outcomes<V, T>): Option<Outcome<V, T>> {
    if Folding(t.token) then
      match Folded(t, o.trees, O.fold(o.ts, t.token, MemberOf(t), o.vs))
      case Some((t', v)) => Some(Outcome(t', v, o.sc, o.ts))
      case None => None
    else
      match O.whole(o.ts, t.token, t.payload, o.vs)
      case Some((v, ts2)) => Some(Outcome(t.(kids := o.trees), v, o.sc, ts2))
      case None => None
  }

  /** The first n trees; i is the number of the first behind its node. */
  function RewriteAll<V, T>(O: Oracle<V, T>, token: Token, trees: Trees, n: nat, i: nat, sc: nat, ts: T)
    : (r: Option<Outcomes<V, T>>)
    ensures r.Some? && n <= Count(trees) ==> Count(r.value.trees) == n
    decreases trees, 0
  {
    if n == 0 || trees.Nil? then Some(Outcomes(Nil, [], sc, ts))
    else
      match Rewrite(O, trees.head, sc + Between(token, i), ts)
      case None => None
      case Some(Outcome(h', v, sc1, ts1)) =>
        match RewriteAll(O, token, trees.tail, n - 1, i + 1, sc1, ts1)
        case Some(Outcomes(rest', vs, sc2, ts2)) => Some(Outcomes(Cons(h', rest'), [v] + vs, sc2, ts2))
        case None => None
  }

  // ------------------------------------------------------------ what comes out

  /** What the code generator asks for: no member access is left, and every call
      is of a number. */
  predicate Resolved(t: Tree) {
    && t.token != TDot && (t.token == TCall ==> Count(t.kids) == 2 && At(t.kids, 0).token == TNumber)
    && AllResolved(t.kids)
  }

  predicate AllResolved(ts: Trees) {
    match ts case Nil => true case Cons(h, t) => Resolved(h) && AllResolved(t)
  }

  /** RewriteAll, one tree at a time. */
  lemma RewriteStep<V, T>(O: Oracle<V, T>, token: Token, trees: Trees, n: nat, i: nat, sc: nat, ts: T)
    requires n > 0 && trees.Cons?
    ensures var h := Rewrite(O, trees.head, sc + Between(token, i), ts);
            RewriteAll(O, token, trees, n, i, sc, ts)
            == if h.None? then None else Prepended(h.value, RewriteAll(O, token, trees.tail, n - 1, i + 1, h.value.sc, h.value.ts))
  {
    hide Rewrite;
  }

  function Prepended<V, T>(h: Outcome<V, T>, rest: Option<Outcomes<V, T>>): Option<Outcomes<V, T>> {
    match rest
    case Some(Outcomes(trees, vs, sc, ts)) => Some(Outcomes(Cons(h.tree, trees), [h.v] + vs, sc, ts))
    case None => None
  }

  /** No member access is left, every call is of a number, and the tree has a
      well-formed stream. */
  lemma {:induction false} RewriteResolved<V, T>(O: Oracle<V, T>, t: Tree, sc: nat, ts: T)
    requires Proper(t) && Rewrite(O, t, sc, ts).Some?
    ensures Resolved(Rewrite(O, t, sc, ts).value.tree) && Proper(Rewrite(O, t, sc, ts).value.tree)
    decreases t, 1
  {
    if !LeafToken(t.token) {
      var n := Looked(t.token, Count(t.kids));
      RewriteAllResolved(O, t.token, t.kids, n, 0, EnterScope(t.token, sc), ts);
      var o := RewriteAll(O, t.token, t.kids, n, 0, EnterScope(t.token, sc), ts).value;
      FinishedResolved(O, t, o);
    }
  }

  lemma FinishedResolved<V, T>(O: Oracle<V, T>, t: Tree, o: Outcomes<V, T>)
    requires Proper(t) && !LeafToken(t.token) && AllResolved(o.trees) && AllProper(o.trees)
    requires Count(o.trees) == Looked(t.token, Count(t.kids)) && Finished(O, t, o).Some?
    ensures Resolved(Finished(O, t, o).value.tree) && Proper(Finished(O, t, o).value.tree)
  {
    LeavesResolved();
    if t.token == TCall {
      var rest := o.trees.tail;
      assert AllResolved(rest) && AllProper(rest) && Count(Cons(NumberLeaf(0), rest)) == Count(o.trees);
      forall w: u64 ensures Resolved(t.(kids := Cons(NumberLeaf(w), rest))) && Proper(t.(kids := Cons(NumberLeaf(w), rest))) {
        assert Resolved(NumberLeaf(w)) && Proper(NumberLeaf(w));
      }
    }
  }

  lemma LeavesResolved()
    ensures forall w: u64 :: Resolved(NumberLeaf(w)) && Resolved(AddressLeaf(w)) && Proper(NumberLeaf(w)) && Proper(AddressLeaf(w))
  {
    forall w: u64 ensures Resolved(NumberLeaf(w)) && Resolved(AddressLeaf(w)) && Proper(NumberLeaf(w)) && Proper(AddressLeaf(w)) {
      assert Count(NumberLeaf(w).kids) == 0;
    }
  }

  lemma {:induction false} RewriteAllResolved<V, T>(O: Oracle<V, T>, token: Token, trees: Trees, n: nat, i: nat, sc: nat, ts: T)
    requires AllProper(trees) && RewriteAll(O, token, trees, n, i, sc, ts).Some?
    ensures AllResolved(RewriteAll(O, token, trees, n, i, sc, ts).value.trees)
    ensures AllProper(RewriteAll(O, token, trees, n, i, sc, ts).value.trees)
    decreases trees, 0
  {
    hide Rewrite, Proper, Resolved, RewriteAll;
    if n > 0 && trees.Cons? {
      RewriteStep(O, token, trees, n, i, sc, ts);
      RewriteResolved(O, trees.head, sc + Between(token, i), ts);
      var o := Rewrite(O, trees.head, sc + Between(token, i), ts).value;
      RewriteAllResolved(O, token, trees.tail, n - 1, i + 1, o.sc, o.ts);
    } else {
      NothingRewritten(O, token, trees, n, i, sc, ts);
    }
  }

  lemma NothingRewritten<V, T>(O: Oracle<V, T>, token: Token, trees: Trees, n: nat, i: nat, sc: nat, ts: T)
    requires n == 0 || trees.Nil?
    ensures RewriteAll(O, token, trees, n, i, sc, ts) == Some(Outcomes(Nil, [], sc, ts))
  {}

  /** A node with its payload and no tree behind it. */
  predicate IsLeaf(t: Tree, token: Token) { t.token == token && t.payload.Some? && t.kids == Nil }

  /** The output differs from the input only where a value was folded in: every
      dot and some indexes became a number or an address, a node with its payload;
      every call became such a number, or its callee did. */
  predicate Refines(t: Tree, t': Tree)
    decreases t
  {
    || (t'.token == t.token && t.token !in {TDot, TCall} && t'.payload == t.payload && AllRefine(t.kids, t'.kids))
    || (Folding(t.token) && (IsLeaf(t', TNumber) || (t.token != TCall && IsLeaf(t', NAddress))))
    || (t.token == TCall && t'.token == TCall && t'.payload == t.payload && t.kids.Cons? && t'.kids.Cons?
        && IsLeaf(t'.kids.head, TNumber) && AllRefine(t.kids.tail, t'.kids.tail))
  }

  predicate AllRefine(ts: Trees, ts': Trees)
    decreases ts
  {
    match (ts, ts')
    case (Nil, Nil) => true
    case (Cons(h, t), Cons(h', t')) => Refines(h, h') && AllRefine(t, t')
    case _ => false
  }

  lemma {:induction false} RewriteRefines<V, T>(O: Oracle<V, T>, t: Tree, sc: nat, ts: T)
    requires Proper(t) && Rewrite(O, t, sc, ts).Some?
    ensures Refines(t, Rewrite(O, t, sc, ts).value.tree)
    decreases t, 1
  {
    if LeafToken(t.token) {
      LeafRefines(t);
    } else {
      var n := Looked(t.token, Count(t.kids));
      if t.token != TDot { RewriteAllRefines(O, t.token, t.kids, n, 0, EnterScope(t.token, sc), ts); }
      var o := RewriteAll(O, t.token, t.kids, n, 0, EnterScope(t.token, sc), ts).value;
      FinishedRefines(O, t, o);
    }
  }

  lemma LeafRefines(t: Tree)
    requires Proper(t) && LeafToken(t.token)
    ensures Refines(t, t)
  {
    assert Count(t.kids) == 0;
  }

  lemma FinishedRefines<V, T>(O: Oracle<V, T>, t: Tree, o: Outcomes<V, T>)
    requires Proper(t) && !LeafToken(t.token) && (t.token != TDot ==> AllRefine(t.kids, o.trees))
    requires Finished(O, t, o).Some?
    ensures Refines(t, Finished(O, t, o).value.tree)
  {
    hide AllProper;
  }

  lemma {:induction false} RewriteAllRefines<V, T>(O: Oracle<V, T>, token: Token, trees: Trees, n: nat, i: nat, sc: nat, ts: T)
    requires AllProper(trees) && n == Count(trees) && RewriteAll(O, token, trees, n, i, sc, ts).Some?
    ensures AllRefine(trees, RewriteAll(O, token, trees, n, i, sc, ts).value.trees)
    decreases trees, 0
  {
    hide Rewrite, Proper, Refines, RewriteAll;
    if n > 0 && trees.Cons? {
      RewriteStep(O, token, trees, n, i, sc, ts);
      RewriteRefines(O, trees.head, sc + Between(token, i), ts);
      var o := Rewrite(O, trees.head, sc + Between(token, i), ts).value;
      RewriteAllRefines(O, token, trees.tail, n - 1, i + 1, o.sc, o.ts);
    } else {
      NothingRewritten(O, token, trees, n, i, sc, ts);
    }
  }

  // -------------------------------------------------------------------- scopes

  /** Scopes that a pass over this tree enters. */
  function Opened(t: Tree): nat {
    (if t.token == NBlock || t.token == TAt then 1 else 0) + OpenedAll(t.kids)
  }

  function OpenedAll(ts: Trees): nat {
    match ts case Nil => 0 case Cons(h, t) => Opened(h) + OpenedAll(t)
  }

  /** The counter is ahead by the scopes of the tree. */
  lemma {:induction false} RewriteScope<V, T>(O: Oracle<V, T>, t: Tree, sc: nat, ts: T)
    requires Proper(t) && Rewrite(O, t, sc, ts).Some?
    ensures Rewrite(O, t, sc, ts).value.sc == sc + Opened(t)
    decreases t, 1
  {
    if !LeafToken(t.token) {
      var n := Looked(t.token, Count(t.kids));
      RewriteAllScope(O, t.token, t.kids, n, 0, EnterScope(t.token, sc), ts);
      if t.token == TDot { DotOpens(t); }
    }
  }

  lemma DotOpens(t: Tree)
    requires Proper(t) && t.token == TDot
    ensures OpenedAll(t.kids) == Opened(t.kids.head)
  {
    TwoTrees(t.kids);
    var name := t.kids.tail.head;
    assert AllProper(t.kids.tail) && Proper(name);
    assert name.token == NVariable && Count(name.kids) == 0;
    assert Opened(name) == OpenedAll(name.kids) == 0;
    assert OpenedAll(t.kids.tail) == 0;
  }

  lemma TwoTrees(ts: Trees)
    requires Count(ts) == 2
    ensures ts.Cons? && ts.tail.Cons? && ts.tail.tail == Nil && At(ts, 0) == ts.head && At(ts, 1) == ts.tail.head
  {
    assert Count(ts) == 1 + Count(ts.tail);
    assert Count(ts.tail) == 1 + Count(ts.tail.tail);
  }

  lemma {:induction false} RewriteAllScope<V, T>(O: Oracle<V, T>, token: Token, trees: Trees, n: nat, i: nat, sc: nat, ts: T)
    requires AllProper(trees) && RewriteAll(O, token, trees, n, i, sc, ts).Some?
    requires n == Count(trees) || (token == TDot && n == 1 && trees.Cons?)
    ensures RewriteAll(O, token, trees, n, i, sc, ts).value.sc
         == sc + (if n == Count(trees) then OpenedAll(trees) else Opened(trees.head))
            + if token == TAt && i <= 1 && i + n > 1 then 1 else 0
    decreases trees, 0
  {
    hide Rewrite, Proper, Opened, RewriteAll;
    if n > 0 && trees.Cons? {
      RewriteStep(O, token, trees, n, i, sc, ts);
      RewriteScope(O, trees.head, sc + Between(token, i), ts);
      var o := Rewrite(O, trees.head, sc + Between(token, i), ts).value;
      if n == Count(trees) {
        RewriteAllScope(O, token, trees.tail, n - 1, i + 1, o.sc, o.ts);
      } else {
        NothingRewritten(O, token, trees.tail, 0, i + 1, o.sc, o.ts);
      }
    } else {
      NothingRewritten(O, token, trees, n, i, sc, ts);
    }
  }

  /** No block or function stands where folding could drop it. */
  predicate FoldsPlain(t: Tree) { (Folding(t.token) ==> OpenedAll(t.kids) == 0) && AllFoldPlain(t.kids) }

  predicate AllFoldPlain(ts: Trees) {
    match ts case Nil => true case Cons(h, t) => FoldsPlain(h) && AllFoldPlain(t)
  }

  /** Then the next pass enters exactly as many scopes as this one did. */
  lemma {:induction false} RefinedScopes(t: Tree, t': Tree)
    requires Refines(t, t') && FoldsPlain(t)
    ensures Opened(t') == Opened(t)
    decreases t, 1
  {
    if t'.token == t.token && t'.payload == t.payload && AllRefine(t.kids, t'.kids) {
      AllRefinedScopes(t.kids, t'.kids);
    } else if t'.kids.Cons? {
      AllRefinedScopes(t.kids.tail, t'.kids.tail);
      NumberOpens(t'.kids.head, t, t');
    }
  }

  lemma NumberOpens(h: Tree, t: Tree, t': Tree)
    requires t'.kids.Cons? && h == t'.kids.head && t.kids.Cons? && OpenedAll(t.kids) == 0 && t.token == TCall && t'.token == TCall
    requires OpenedAll(t'.kids.tail) == OpenedAll(t.kids.tail) && h.kids == Nil && h.token == TNumber
    ensures Opened(t') == Opened(t)
  {
    assert OpenedAll(t.kids) == Opened(t.kids.head) + OpenedAll(t.kids.tail);
    assert OpenedAll(t'.kids) == Opened(h) + OpenedAll(t'.kids.tail);
    assert Opened(h) == OpenedAll(h.kids);
  }

  lemma {:induction false} AllRefinedScopes(ts: Trees, ts': Trees)
    requires AllRefine(ts, ts') && AllFoldPlain(ts)
    ensures OpenedAll(ts') == OpenedAll(ts)
    decreases ts, 0
  {
    hide Refines, FoldsPlain, Opened;
    match (ts, ts')
    case (Nil, Nil) =>
    case (Cons(h, t), Cons(h', t')) =>
      RefinedScopes(h, h');
      AllRefinedScopes(t, t');
  }
}
