/** The language of the node stream as a grammar: which nodes spell an expression.
    The reader of NodeStream accepts exactly these. */
module Spelling {
  import opened Words
  import opened Source
  import opened NodeStream

  /** The constructors that are written as one token and two operands. */
  function Prefix(e: Expr): (r: Option<(Token, Expr, Expr)>)
    ensures r.Some? ==> r.value.1 < e && r.value.2 < e
  {
    match e
    case Index(base, index) => Some((TOsb, base, index))
    case Assign(target, value) => Some((TEq, target, value))
    case AddAssign(target, value) => Some((TAddEq, target, value))
    case Bin(Add, left, right) => Some((TAdd, left, right))
    case Bin(Sub, left, right) => Some((TSub, left, right))
    case Bin(Mul, left, right) => Some((TMul, left, right))
    case Bin(EqEq, left, right) => Some((TEqEq, left, right))
    case Bin(Less, left, right) => Some((TLess, left, right))
    case Bin(LessEq, left, right) => Some((TLessEq, left, right))
    case _ => None
  }

  /** These nodes, met in scope sc, are the expression e. A string is its offset in
      the data block; a cell its address, a name that stands for it there, or the
      object itself. */
  ghost predicate Spells(E: Env, sc: nat, ns: seq<Node>, e: Expr)
    decreases e
  {
    match e
    case Num(n) => ns == [Tok(TNumber), Raw(n)]
    case Str(p) => exists d: u64 :: E.data(d) == p && (ns == [Tok(TString), Raw(d)] || ns == [Tok(TMString), Raw(d)])
    case Cell(a) =>
      || ns == [Tok(NAddress), Raw(a)]
      || (exists name: u64 :: E.lookup(name, sc) == Some(a) && ns == [Tok(NVariable), Raw(name)])
      || (E.self(sc) == Some(a) && ns == [Tok(TThis)])
    case Arr(p, elems) =>
      exists d: u64, q, count: u64 ::
        E.data(d) == p && count == Len(elems) && SpellsAll(E, sc, q, elems)
        && ns == [Tok(NArray), Raw(d), Tok(TComma), Raw(count)] + q
    case Call(callee, args) =>
      Len(args) <= 6 && exists p, q ::
        Spells(E, sc, p, callee) && SpellsAll(E, sc, q, args) && ns == [Tok(TCall)] + p + [Tok(TComma), Raw(Len(args))] + q
    case _ =>
      Prefix(e).Some? && exists p, q ::
        Spells(E, sc, p, Prefix(e).value.1) && Spells(E, sc, q, Prefix(e).value.2) && ns == [Tok(Prefix(e).value.0)] + p + q
  }

  /** Expressions one after another. */
  ghost predicate SpellsAll(E: Env, sc: nat, ns: seq<Node>, es: Exprs)
    decreases es
  {
    match es
    case Nil => ns == []
    case Cons(h, t) => exists p, q :: Spells(E, sc, p, h) && SpellsAll(E, sc, q, t) && ns == p + q
  }

  // ------------------------------------------------------- what is spelled is read

  lemma LeafRead(E: Env, sc: nat, pre: seq<Node>, mid: seq<Node>, post: seq<Node>, e: Expr)
    requires Spells(E, sc, mid, e) && IsLeaf(e)
    ensures ParseExpr(E, pre + mid + post, |pre|, sc) == Some((e, |pre| + |mid|))
  {
    hide ParseExpr;
    var ns, i := pre + mid + post, |pre|;
    assert ns[i] == mid[0];
    assert |mid| == 2 ==> ns[i + 1] == mid[1];
    assert |mid| in {1, 2};
    ParseCases(E, ns, i, sc);
  }

  lemma PairRead(E: Env, sc: nat, pre: seq<Node>, p: seq<Node>, q: seq<Node>, post: seq<Node>, e: Expr)
    requires Prefix(e).Some?
    requires var (t, a, b) := Prefix(e).value;
             && ParseExpr(E, pre + [Tok(t)] + p + (q + post), |pre| + 1, sc) == Some((a, |pre| + 1 + |p|))
             && ParseExpr(E, pre + [Tok(t)] + p + q + post, |pre| + 1 + |p|, sc) == Some((b, |pre| + 1 + |p| + |q|))
    ensures ParseExpr(E, pre + ([Tok(Prefix(e).value.0)] + p + q) + post, |pre|, sc) == Some((e, |pre| + 1 + |p| + |q|))
  {
    hide ParseExpr;
    var (t, a, b) := Prefix(e).value;
    var ns, i := pre + ([Tok(t)] + p + q) + post, |pre|;
    assert ns == pre + [Tok(t)] + p + (q + post) == pre + [Tok(t)] + p + q + post;
    assert ns[i] == Tok(t);
    ParseCases(E, ns, i, sc);
  }

  lemma Around(pre: seq<Node>, p: seq<Node>, q: seq<Node>, post: seq<Node>)
    ensures pre + (p + q) + post == pre + p + (q + post) == (pre + p) + q + post
  {}

  lemma ListCases(E: Env, ns: seq<Node>, i: nat, sc: nat, n: nat)
    requires i <= |ns|
    ensures n == 0 ==> ParseList(E, ns, i, sc, n) == Some((Nil, i))
    ensures n > 0 && ParseExpr(E, ns, i, sc).Some? ==>
              var (h, i1) := ParseExpr(E, ns, i, sc).value;
              ParseList(E, ns, i, sc, n) == match ParseList(E, ns, i1, sc, n - 1)
                                            case Some((t, i2)) => Some((Cons(h, t), i2))
                                            case None => None
    ensures n > 0 && ParseExpr(E, ns, i, sc).None? ==> ParseList(E, ns, i, sc, n).None?
  {
    hide ParseExpr;
  }

  lemma ArrayCase(E: Env, ns: seq<Node>, i: nat, sc: nat)
    requires TokenAt(ns, i) == NArray && i < |ns|
    ensures ParseExpr(E, ns, i, sc) ==
            match (Payload(ns, i + 1), Payload(ns, i + 3))
            case (Some(d), Some(count)) =>
              if TokenAt(ns, i + 2) != TComma then None
              else
                (match ParseList(E, ns, i + 4, sc, count)
                 case Some((es, j)) => Some((Arr(E.data(d), es), j))
                 case None => None)
            case _ => None
  {
    hide ParseList;
  }

  lemma CallCase(E: Env, ns: seq<Node>, i: nat, sc: nat)
    requires TokenAt(ns, i) == TCall && i < |ns|
    ensures ParseExpr(E, ns, i, sc) ==
            match ParseExpr(E, ns, i + 1, sc)
            case None => None
            case Some((c, k)) =>
              (match Payload(ns, k + 1)
               case Some(count) =>
                 if TokenAt(ns, k) != TComma || count > 6 then None
                 else
                   (match ParseList(E, ns, k + 2, sc, count)
                    case Some((es, j)) => Some((Call(c, es), j))
                    case None => None)
               case None => None)
  {
    hide ParseList;
  }

  lemma {:induction false} ReadSpelled(E: Env, sc: nat, pre: seq<Node>, mid: seq<Node>, post: seq<Node>, e: Expr)
    requires Spells(E, sc, mid, e)
    ensures ParseExpr(E, pre + mid + post, |pre|, sc) == Some((e, |pre| + |mid|))
    decreases e
  {
    hide ParseExpr, ParseList, Spells, SpellsAll;
    if IsLeaf(e) {
      LeafRead(E, sc, pre, mid, post, e);
    } else if e.Arr? {
      ReadArray(E, sc, pre, mid, post, e);
    } else if e.Call? {
      ReadCall(E, sc, pre, mid, post, e);
    } else {
      var p, q := PairParts(E, sc, mid, e);
      var (t, a, b) := Prefix(e).value;
      ReadSpelled(E, sc, pre + [Tok(t)], p, q + post, a);
      ReadSpelled(E, sc, pre + [Tok(t)] + p, q, post, b);
      PairRead(E, sc, pre, p, q, post, e);
    }
  }

  lemma PairParts(E: Env, sc: nat, mid: seq<Node>, e: Expr) returns (p: seq<Node>, q: seq<Node>)
    requires Spells(E, sc, mid, e) && !IsLeaf(e) && !e.Arr? && !e.Call?
    ensures Prefix(e).Some?
    ensures Spells(E, sc, p, Prefix(e).value.1) && Spells(E, sc, q, Prefix(e).value.2) && mid == [Tok(Prefix(e).value.0)] + p + q
  {
    p, q :| Spells(E, sc, p, Prefix(e).value.1) && Spells(E, sc, q, Prefix(e).value.2) && mid == [Tok(Prefix(e).value.0)] + p + q;
  }

  lemma {:induction false} ReadArray(E: Env, sc: nat, pre: seq<Node>, mid: seq<Node>, post: seq<Node>, e: Expr)
    requires Spells(E, sc, mid, e) && e.Arr?
    ensures ParseExpr(E, pre + mid + post, |pre|, sc) == Some((e, |pre| + |mid|))
    decreases e, 0
  {
    hide ParseExpr, ParseList, SpellsAll;
    var d: u64, q, count: u64 :|
      E.data(d) == e.data && count == Len(e.elems) && SpellsAll(E, sc, q, e.elems)
      && mid == [Tok(NArray), Raw(d), Tok(TComma), Raw(count)] + q;
    var ns, i, head := pre + mid + post, |pre|, [Tok(NArray), Raw(d), Tok(TComma), Raw(count)];
    assert ns == (pre + head) + q + post;
    assert ns[i] == mid[0] && ns[i + 1] == mid[1] && ns[i + 2] == mid[2] && ns[i + 3] == mid[3];
    ReadSpelledAll(E, sc, pre + head, q, post, e.elems);
    ArrayCase(E, ns, i, sc);
  }

  lemma {:induction false} ReadCall(E: Env, sc: nat, pre: seq<Node>, mid: seq<Node>, post: seq<Node>, e: Expr)
    requires Spells(E, sc, mid, e) && e.Call?
    ensures ParseExpr(E, pre + mid + post, |pre|, sc) == Some((e, |pre| + |mid|))
    decreases e, 0
  {
    hide ParseExpr, ParseList, SpellsAll, Spells;
    var p, q := CallParts(E, sc, mid, e);
    var head, comma := [Tok(TCall)], [Tok(TComma), Raw(Len(e.args))];
    ReadSpelled(E, sc, pre + head, p, comma + q + post, e.callee);
    ReadSpelledAll(E, sc, pre + head + p + comma, q, post, e.args);
    CallRead(E, sc, pre, p, q, post, e);
  }

  lemma CallParts(E: Env, sc: nat, mid: seq<Node>, e: Expr) returns (p: seq<Node>, q: seq<Node>)
    requires Spells(E, sc, mid, e) && e.Call?
    ensures Len(e.args) <= 6 && Spells(E, sc, p, e.callee) && SpellsAll(E, sc, q, e.args)
    ensures mid == [Tok(TCall)] + p + [Tok(TComma), Raw(Len(e.args))] + q
  {
    hide SpellsAll;
    p, q :| Spells(E, sc, p, e.callee) && SpellsAll(E, sc, q, e.args)
            && mid == [Tok(TCall)] + p + [Tok(TComma), Raw(Len(e.args))] + q;
  }

  lemma CallRead(E: Env, sc: nat, pre: seq<Node>, p: seq<Node>, q: seq<Node>, post: seq<Node>, e: Expr)
    requires e.Call? && Len(e.args) <= 6
    requires var head, comma := [Tok(TCall)], [Tok(TComma), Raw(Len(e.args))];
             var k := |pre| + 1 + |p|;
             && ParseExpr(E, pre + head + p + (comma + q + post), |pre| + 1, sc) == Some((e.callee, k))
             && k + 2 <= |pre + head + p + comma + q + post|
             && ParseList(E, pre + head + p + comma + q + post, k + 2, sc, Len(e.args)) == Some((e.args, k + 2 + |q|))
    ensures ParseExpr(E, pre + ([Tok(TCall)] + p + [Tok(TComma), Raw(Len(e.args))] + q) + post, |pre|, sc)
         == Some((e, |pre| + 3 + |p| + |q|))
  {
    hide ParseExpr, ParseList, Len;
    var head, comma := [Tok(TCall)], [Tok(TComma), Raw(Len(e.args))];
    var ns, i, k := pre + (head + p + comma + q) + post, |pre|, |pre| + 1 + |p|;
    assert ns == pre + head + p + (comma + q + post) == pre + head + p + comma + q + post;
    assert ns[i] == head[0] && ns[k] == comma[0] && ns[k + 1] == comma[1];
    CallCase(E, ns, i, sc);
  }

  lemma {:induction false} ReadSpelledAll(E: Env, sc: nat, pre: seq<Node>, mid: seq<Node>, post: seq<Node>, es: Exprs)
    requires SpellsAll(E, sc, mid, es)
    ensures |pre| <= |pre + mid + post|
    ensures ParseList(E, pre + mid + post, |pre|, sc, Len(es)) == Some((es, |pre| + |mid|))
    decreases es
  {
    hide ParseExpr, ParseList, Spells;
    var ns := pre + mid + post;
    ListCases(E, ns, |pre|, sc, Len(es));
    match es
    case Nil =>
    case Cons(h, t) =>
      var p, q :| Spells(E, sc, p, h) && SpellsAll(E, sc, q, t) && mid == p + q;
      assert ns == pre + p + (q + post) && ns == (pre + p) + q + post;
      ReadSpelled(E, sc, pre, p, q + post, h);
      ReadSpelledAll(E, sc, pre + p, q, post, t);
  }

  // ------------------------------------------------------- what is read is spelled

  lemma {:induction false} SpelledRead(E: Env, ns: seq<Node>, i: nat, sc: nat)
    requires ParseExpr(E, ns, i, sc).Some?
    ensures var (e, j) := ParseExpr(E, ns, i, sc).value; Spells(E, sc, ns[i..j], e)
    decreases |ns| - i, 1, 0
  {
    hide ParseExpr, ParseList, Spells, SpellsAll;
    ParseCases(E, ns, i, sc);
    if LeafSize(ns, i) > 0 {
      LeafSpelled(E, ns, i, sc);
    } else if TokenAt(ns, i) == NArray {
      SpelledArray(E, ns, i, sc);
    } else if TokenAt(ns, i) == TCall {
      SpelledCall(E, ns, i, sc);
    } else {
      PairCase(E, ns, i, sc);
      SpelledRead(E, ns, i + 1, sc);
      var k := ParseExpr(E, ns, i + 1, sc).value.1;
      SpelledRead(E, ns, k, sc);
      var (e, j) := ParseExpr(E, ns, i, sc).value;
      Cut(ns, i, k, j);
      PairSpelled(E, sc, ns[i..j], ns[i + 1..k], ns[k..j], e);
    }
  }

  lemma Cut(ns: seq<Node>, i: nat, k: nat, j: nat)
    requires i < k <= j <= |ns|
    ensures ns[i..j] == [ns[i]] + ns[i + 1..k] + ns[k..j]
  {}

  lemma {:induction false} SpelledArray(E: Env, ns: seq<Node>, i: nat, sc: nat)
    requires ParseExpr(E, ns, i, sc).Some? && TokenAt(ns, i) == NArray
    ensures var (e, j) := ParseExpr(E, ns, i, sc).value; Spells(E, sc, ns[i..j], e)
    decreases |ns| - i, 0
  {
    hide ParseExpr, ParseList, Spells, SpellsAll;
    ArrayCase(E, ns, i, sc);
    var d, count := Payload(ns, i + 1).value, Payload(ns, i + 3).value;
    SpelledList(E, ns, i + 4, sc, count);
    var (es, j) := ParseList(E, ns, i + 4, sc, count).value;
    assert ns[i..j] == [ns[i], ns[i + 1], ns[i + 2], ns[i + 3]] + ns[i + 4..j];
    ArraySpelled(E, sc, ns[i..j], d, count, ns[i + 4..j], es);
  }

  lemma {:induction false} SpelledCall(E: Env, ns: seq<Node>, i: nat, sc: nat)
    requires ParseExpr(E, ns, i, sc).Some? && TokenAt(ns, i) == TCall
    ensures var (e, j) := ParseExpr(E, ns, i, sc).value; Spells(E, sc, ns[i..j], e)
    decreases |ns| - i, 0
  {
    hide ParseExpr, ParseList, Spells, SpellsAll;
    CallCase(E, ns, i, sc);
    SpelledRead(E, ns, i + 1, sc);
    var (c, k) := ParseExpr(E, ns, i + 1, sc).value;
    var count := Payload(ns, k + 1).value;
    SpelledList(E, ns, k + 2, sc, count);
    var (es, j) := ParseList(E, ns, k + 2, sc, count).value;
    CutCall(ns, i, k, j);
    CallSpelled(E, sc, ns[i..j], ns[i + 1..k], ns[k + 2..j], c, es);
  }

  lemma CutCall(ns: seq<Node>, i: nat, k: nat, j: nat)
    requires i < k && k + 2 <= j <= |ns|
    ensures ns[i..j] == [ns[i]] + ns[i + 1..k] + [ns[k], ns[k + 1]] + ns[k + 2..j]
  {}

  lemma {:induction false} SpelledList(E: Env, ns: seq<Node>, i: nat, sc: nat, n: nat)
    requires i <= |ns| && ParseList(E, ns, i, sc, n).Some?
    ensures var (es, j) := ParseList(E, ns, i, sc, n).value; Len(es) == n && SpellsAll(E, sc, ns[i..j], es)
    decreases |ns| - i, 1, n + 1
  {
    hide ParseExpr, ParseList, Spells;
    ListCases(E, ns, i, sc, n);
    if n > 0 {
      SpelledRead(E, ns, i, sc);
      var (h, k) := ParseExpr(E, ns, i, sc).value;
      SpelledList(E, ns, k, sc, n - 1);
      var (t, j) := ParseList(E, ns, k, sc, n - 1).value;
      assert ns[i..j] == ns[i..k] + ns[k..j];
    }
  }

  lemma LeafSpelled(E: Env, ns: seq<Node>, i: nat, sc: nat)
    requires ParseExpr(E, ns, i, sc).Some? && LeafSize(ns, i) > 0
    ensures var (e, j) := ParseExpr(E, ns, i, sc).value; Spells(E, sc, ns[i..j], e)
  {
    hide ParseExpr;
    ParseCases(E, ns, i, sc);
    var (e, j) := ParseExpr(E, ns, i, sc).value;
    if LeafSize(ns, i) == 2 {
      assert ns[i..j] == [ns[i], ns[i + 1]];
    } else {
      assert ns[i..j] == [ns[i]];
    }
  }

  lemma PairCase(E: Env, ns: seq<Node>, i: nat, sc: nat)
    requires ParseExpr(E, ns, i, sc).Some? && LeafSize(ns, i) == 0 && TokenAt(ns, i) !in {NArray, TCall}
    ensures i < |ns| && ns[i] == Tok(TokenAt(ns, i)) && IsPair(TokenAt(ns, i)) && ParseExpr(E, ns, i + 1, sc).Some?
    ensures var (a, k) := ParseExpr(E, ns, i + 1, sc).value;
            && ParseExpr(E, ns, k, sc).Some?
            && var (b, j) := ParseExpr(E, ns, k, sc).value;
            ParseExpr(E, ns, i, sc).value == (PairExpr(TokenAt(ns, i), a, b), j)
    ensures var e := ParseExpr(E, ns, i, sc).value.0;
            Prefix(e).Some? && Prefix(e).value.0 == TokenAt(ns, i)
            && Prefix(e).value.1 == ParseExpr(E, ns, i + 1, sc).value.0
            && Prefix(e).value.2 == ParseExpr(E, ns, ParseExpr(E, ns, i + 1, sc).value.1, sc).value.0
  {
    hide ParseExpr;
    ParseCases(E, ns, i, sc);
  }

  lemma ArraySpelled(E: Env, sc: nat, mid: seq<Node>, d: u64, count: u64, q: seq<Node>, es: Exprs)
    requires Len(es) == count && SpellsAll(E, sc, q, es) && mid == [Tok(NArray), Raw(d), Tok(TComma), Raw(count)] + q
    ensures Spells(E, sc, mid, Arr(E.data(d), es))
  {
    hide SpellsAll;
  }

  lemma CallSpelled(E: Env, sc: nat, mid: seq<Node>, p: seq<Node>, q: seq<Node>, c: Expr, es: Exprs)
    requires Len(es) <= 6 && Spells(E, sc, p, c) && SpellsAll(E, sc, q, es)
    requires mid == [Tok(TCall)] + p + [Tok(TComma), Raw(Len(es))] + q
    ensures Spells(E, sc, mid, Call(c, es))
  {
    hide SpellsAll;
  }

  lemma PairSpelled(E: Env, sc: nat, mid: seq<Node>, p: seq<Node>, q: seq<Node>, e: Expr)
    requires Prefix(e).Some? && Spells(E, sc, p, Prefix(e).value.1) && Spells(E, sc, q, Prefix(e).value.2)
    requires mid == [Tok(Prefix(e).value.0)] + p + q
    ensures Spells(E, sc, mid, e)
  {}

  /** The reader is the grammar: at i it finds e, up to j, exactly when the nodes
      between spell e. */
  lemma ReadIff(E: Env, ns: seq<Node>, i: nat, sc: nat, e: Expr, j: nat)
    ensures ParseExpr(E, ns, i, sc) == Some((e, j)) <==> i <= j <= |ns| && Spells(E, sc, ns[i..j], e)
  {
    hide ParseExpr, Spells;
    if ParseExpr(E, ns, i, sc) == Some((e, j)) { SpelledRead(E, ns, i, sc); }
    if i <= j <= |ns| && Spells(E, sc, ns[i..j], e) {
      assert ns == ns[..i] + ns[i..j] + ns[j..];
      ReadSpelled(E, sc, ns[..i], ns[i..j], ns[j..], e);
    }
  }
}
