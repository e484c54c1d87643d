/** The grammar of a whole module: statements and definitions, blocks included. */
module SpellingModule {
  import opened Words
  import opened Source
  import opened NodeStream
  import opened GenFunc
  import opened GenModule
  import opened GenInit
  import opened Spelling
  import opened SpellingStmt
  import opened SpellingFunc

  /** A name that has a cell; an address is none. */
  ghost predicate SpellsName(E: Env, sc: nat, ns: seq<Node>) {
    ns != [] && ns[0] != Tok(NAddress) && exists a: u64 :: Spells(E, sc, ns, Cell(a))
  }

  /** Behind T_AT: the name, an empty argument list when there are no parameters, and
      the function, in a scope of its own. */
  ghost predicate SpellsAt(E: Env, sc: nat, ns: seq<Node>, f: Func, sc1: nat) {
    exists p, q :: SpellsName(E, sc, p) && SpellsFunc(E, sc + 1, q, f, sc1) && ns == p + NoArguments(f) + q
  }

  function NoArguments(f: Func): seq<Node> { if f.params == [] then [Tok(TComma), Raw(0)] else [] }

  /** A definition or a statement, whose nodes start at `at`. */
  ghost predicate SpellsItem(E: Env, arity: nat -> nat, at: nat, sc: nat, ns: seq<Node>, x: Item, sc1: nat) {
    match x
    case Define(f) => |f.params| == arity(at) <= 6 && exists q :: ns == [Tok(TAt)] + q && SpellsAt(E, sc, q, f, sc1)
    case Own(st) => SpellsOne(E, sc, ns, st, sc1)
  }

  /** n items or blocks of items, one after another. */
  ghost predicate SpellsItems(E: Env, arity: nat -> nat, at: nat, sc: nat, ns: seq<Node>, n: nat, xs: seq<Item>, sc1: nat)
    decreases |ns|, 1
  {
    if n == 0 then ns == [] && xs == [] && sc1 == sc
    else
      exists p, q, a, b, mid: nat ::
        && p != [] && ns == p + q && ItemsUnit(E, arity, at, sc, p, a, mid)
        && SpellsItems(E, arity, at + |p|, mid, q, n - 1, b, sc1) && xs == a + b
  }

  ghost predicate ItemsUnit(E: Env, arity: nat -> nat, at: nat, sc: nat, ns: seq<Node>, xs: seq<Item>, sc1: nat)
    decreases |ns|, 0
  {
    || (|xs| == 1 && SpellsItem(E, arity, at, sc, ns, xs[0], sc1))
    || (exists q, m: u64 :: ns == [Tok(NBlock), Raw(m)] + q && SpellsItems(E, arity, at + 2, sc + 1, q, m, xs, sc1))
    || (exists q, m: u64 :: ns == [Tok(TComma), Raw(m)] + q && SpellsItems(E, arity, at + 2, sc, q, m, xs, sc1))
  }

  // ------------------------------------------------------------------ definitions

  lemma NameCase(E: Env, ns: seq<Node>, i: nat, sc: nat)
    ensures TokenAt(ns, i) in {NVariable, TThis} && LeafSize(ns, i) > 0 && LeafAt(E, ns, i, sc).Some?
       <==> TokenAt(ns, i) != NAddress && ParseExpr(E, ns, i, sc).Some? && ParseExpr(E, ns, i, sc).value.0.Cell?
    ensures ParseExpr(E, ns, i, sc).Some? && ParseExpr(E, ns, i, sc).value.0.Cell? ==>
              i < |ns| && ns[i].Tok? && LeafSize(ns, i) > 0 && ParseExpr(E, ns, i, sc).value.1 == i + LeafSize(ns, i)
  {
    hide ParseExpr;
    ParseCases(E, ns, i, sc);
    if ParseExpr(E, ns, i, sc).Some? { CellParse(E, ns, i, sc); }
  }

  lemma AtCases(E: Env, ns: seq<Node>, i: nat, sc: nat, argCount: nat)
    requires i <= |ns|
    ensures ParseAt(E, ns, i, sc, argCount) ==
            if TokenAt(ns, i) == NAddress || ParseExpr(E, ns, i, sc).None? || !ParseExpr(E, ns, i, sc).value.0.Cell? then None
            else
              var k := ParseExpr(E, ns, i, sc).value.1;
              if argCount > 0 then ParseFunc(E, ns, k, sc + 1, argCount)
              else if TokenAt(ns, k) == TComma && Payload(ns, k + 1) == Some(0) then ParseFunc(E, ns, k + 2, sc + 1, 0)
              else None
  {
    hide ParseExpr, ParseFunc, LeafAt, LeafSize;
    NameCase(E, ns, i, sc);
  }

  lemma ReadAt(E: Env, sc: nat, pre: seq<Node>, mid: seq<Node>, post: seq<Node>, f: Func, sc1: nat)
    requires SpellsAt(E, sc, mid, f, sc1)
    ensures |pre| <= |pre + mid + post|
    ensures ParseAt(E, pre + mid + post, |pre|, sc, |f.params|) == Some((f, |pre| + |mid|, sc1))
  {
    hide ParseExpr, ParseFunc, SpellsFunc, Spells, ParseAt;
    var comma := NoArguments(f);
    var p, q :| SpellsName(E, sc, p) && SpellsFunc(E, sc + 1, q, f, sc1) && mid == p + comma + q;
    var a: u64 :| Spells(E, sc, p, Cell(a));
    var ns, i := pre + mid + post, |pre|;
    assert ns == pre + p + (comma + q + post) == (pre + p + comma) + q + post;
    ReadSpelled(E, sc, pre, p, comma + q + post, Cell(a));
    ReadFunc(E, sc + 1, pre + p + comma, q, post, f, sc1);
    AtCases(E, ns, i, sc, |f.params|);
    assert ns[i] == p[0];
    if f.params == [] { assert ns[i + |p|] == comma[0] && ns[i + |p| + 1] == comma[1]; }
  }

  lemma AtSpelled(E: Env, ns: seq<Node>, i: nat, sc: nat, argCount: nat)
    requires i <= |ns| && ParseAt(E, ns, i, sc, argCount).Some?
    ensures var (f, j, sc1) := ParseAt(E, ns, i, sc, argCount).value;
            |f.params| == argCount && i <= j <= |ns| && SpellsAt(E, sc, ns[i..j], f, sc1)
  {
    hide ParseExpr, ParseFunc, SpellsFunc, Spells, ParseAt;
    AtCases(E, ns, i, sc, argCount);
    NameCase(E, ns, i, sc);
    SpelledRead(E, ns, i, sc);
    var (e, k) := ParseExpr(E, ns, i, sc).value;
    var k' := if argCount > 0 then k else k + 2;
    FuncSpelled(E, ns, k', sc + 1, argCount);
    var (f, j, sc1) := ParseAt(E, ns, i, sc, argCount).value;
    NameSpelled(E, sc, ns, i, k, e);
    AtWhole(E, sc, ns, i, k, j, f, sc1);
  }

  lemma NameSpelled(E: Env, sc: nat, ns: seq<Node>, i: nat, k: nat, e: Expr)
    requires i < k <= |ns| && TokenAt(ns, i) != NAddress && ns[i].Tok? && e.Cell? && Spells(E, sc, ns[i..k], e)
    ensures SpellsName(E, sc, ns[i..k])
  {
    hide Spells;
    assert ns[i..k][0] == ns[i];
    assert e == Cell(e.addr);
  }

  lemma AtWhole(E: Env, sc: nat, ns: seq<Node>, i: nat, k: nat, j: nat, f: Func, sc1: nat)
    requires i < k <= |ns| && SpellsName(E, sc, ns[i..k])
    requires f.params == [] ==> TokenAt(ns, k) == TComma && Payload(ns, k + 1) == Some(0)
    requires var k' := if f.params == [] then k + 2 else k; k' <= j <= |ns| && SpellsFunc(E, sc + 1, ns[k'..j], f, sc1)
    ensures SpellsAt(E, sc, ns[i..j], f, sc1)
  {
    hide SpellsName, SpellsFunc;
    if f.params == [] {
      assert ns[i..j] == ns[i..k] + NoArguments(f) + ns[k + 2..j];
    } else {
      assert ns[i..j] == ns[i..k] + NoArguments(f) + ns[k..j];
    }
  }

  /** The reader of a definition is its grammar. */
  lemma ReadAtIff(E: Env, ns: seq<Node>, i: nat, sc: nat, argCount: nat, f: Func, j: nat, sc1: nat)
    requires i <= |ns|
    ensures ParseAt(E, ns, i, sc, argCount) == Some((f, j, sc1))
       <==> |f.params| == argCount && i <= j <= |ns| && SpellsAt(E, sc, ns[i..j], f, sc1)
  {
    hide ParseAt, SpellsAt;
    if ParseAt(E, ns, i, sc, argCount) == Some((f, j, sc1)) { AtSpelled(E, ns, i, sc, argCount); }
    if |f.params| == argCount && i <= j <= |ns| && SpellsAt(E, sc, ns[i..j], f, sc1) {
      assert ns == ns[..i] + ns[i..j] + ns[j..];
      ReadAt(E, sc, ns[..i], ns[i..j], ns[j..], f, sc1);
    }
  }

  // ------------------------------------------------------------------------ items

  lemma ReadItem(E: Env, arity: nat -> nat, sc: nat, pre: seq<Node>, mid: seq<Node>, post: seq<Node>, x: Item, sc1: nat)
    requires SpellsItem(E, arity, |pre|, sc, mid, x, sc1)
    ensures |pre| < |pre + mid + post| && TokenAt(pre + mid + post, |pre|) !in {NBlock, TComma}
    ensures ParseItem(E, pre + mid + post, |pre|, sc, arity) == Some((x, |pre| + |mid|, sc1))
  {
    hide ParseStmt, ParseAt, SpellsAt, SpellsOne;
    var ns, i := pre + mid + post, |pre|;
    match x
    case Define(f) =>
      var q :| mid == [Tok(TAt)] + q && SpellsAt(E, sc, q, f, sc1);
      assert ns == (pre + [Tok(TAt)]) + q + post && ns[i] == mid[0];
      ReadAt(E, sc, pre + [Tok(TAt)], q, post, f, sc1);
    case Own(st) =>
      ReadOne(E, sc, pre, mid, post, st, sc1);
      NoAt(E, ns, i, sc);
  }

  /** No statement starts with T_AT. */
  lemma NoAt(E: Env, ns: seq<Node>, i: nat, sc: nat)
    requires i < |ns|
    ensures TokenAt(ns, i) == TAt ==> ParseStmt(E, ns, i, sc).None?
  {
    hide ParseExpr;
    ParseCases(E, ns, i, sc);
  }

  lemma ItemSpelled(E: Env, ns: seq<Node>, i: nat, sc: nat, arity: nat -> nat)
    requires i < |ns| && ParseItem(E, ns, i, sc, arity).Some?
    ensures var (x, j, sc1) := ParseItem(E, ns, i, sc, arity).value;
            i < j <= |ns| && SpellsItem(E, arity, i, sc, ns[i..j], x, sc1)
  {
    hide ParseStmt, ParseAt, SpellsAt, SpellsOne;
    if TokenAt(ns, i) == TAt {
      AtSpelled(E, ns, i + 1, sc, arity(i));
      var j := ParseItem(E, ns, i, sc, arity).value.1;
      assert ns[i..j] == [Tok(TAt)] + ns[i + 1..j];
    } else {
      OneSpelled(E, ns, i, sc);
    }
  }

  // -------------------------------------------------------------- rows of items

  /** n items and then m. */
  function ThenItems(E: Env, ns: seq<Node>, p: Option<(seq<Item>, nat, nat)>, m: nat, arity: nat -> nat)
    : Option<(seq<Item>, nat, nat)>
  {
    match p
    case None => None
    case Some((a, i1, sc1)) =>
      match ParseItems(E, ns, i1, sc1, m, arity)
      case None => None
      case Some((b, i2, sc2)) => Some((a + b, i2, sc2))
  }

  lemma {:induction false} ItemsAppend(E: Env, ns: seq<Node>, i: nat, sc: nat, n: nat, m: nat, arity: nat -> nat)
    ensures ParseItems(E, ns, i, sc, n + m, arity) == ThenItems(E, ns, ParseItems(E, ns, i, sc, n, arity), m, arity)
    decreases |ns| - i
  {
    hide ParseItems, ParseItem, Payload;
    ParseStep(E, ns, i, sc, n, arity);
    ParseStep(E, ns, i, sc, n + m, arity);
    if n == 0 {
      NothingFirst(ParseItems(E, ns, i, sc, m, arity));
    } else if i < |ns| {
      if TokenAt(ns, i) in {NBlock, TComma} {
        if Payload(ns, i + 1).Some? {
          var sc' := if TokenAt(ns, i) == NBlock then sc + 1 else sc;
          ItemsAppend(E, ns, i + 2, sc', n - 1 + Payload(ns, i + 1).value, m, arity);
        }
      } else if ParseItem(E, ns, i, sc, arity).Some? {
        var (x, k, sc') := ParseItem(E, ns, i, sc, arity).value;
        ItemsAppend(E, ns, k, sc', n - 1, m, arity);
        var first := ParseItems(E, ns, k, sc', n - 1, arity);
        if first.Some? {
          FirstOf(x, first.value.0, ParseItems(E, ns, first.value.1, first.value.2, m, arity));
        }
      }
    }
  }

  lemma NothingFirst(rest: Option<(seq<Item>, nat, nat)>)
    ensures rest.Some? ==> [] + rest.value.0 == rest.value.0
  {}

  lemma FirstOf(x: Item, a: seq<Item>, rest: Option<(seq<Item>, nat, nat)>)
    ensures rest.Some? ==> [x] + (a + rest.value.0) == [x] + a + rest.value.0
  {}

  lemma ItemsNone(E: Env, arity: nat -> nat, at: nat, sc: nat, ns: seq<Node>, xs: seq<Item>, sc1: nat)
    ensures SpellsItems(E, arity, at, sc, ns, 0, xs, sc1) <==> ns == [] && xs == [] && sc1 == sc
  {}

  lemma ItemsParts(E: Env, arity: nat -> nat, at: nat, sc: nat, ns: seq<Node>, n: nat, xs: seq<Item>, sc1: nat)
    returns (p: seq<Node>, q: seq<Node>, a: seq<Item>, b: seq<Item>, mid: nat)
    requires n > 0 && SpellsItems(E, arity, at, sc, ns, n, xs, sc1)
    ensures p != [] && ns == p + q && ItemsUnit(E, arity, at, sc, p, a, mid)
    ensures SpellsItems(E, arity, at + |p|, mid, q, n - 1, b, sc1) && xs == a + b
  {
    hide ItemsUnit;
    p, q, a, b, mid :|
      && p != [] && ns == p + q && ItemsUnit(E, arity, at, sc, p, a, mid)
      && SpellsItems(E, arity, at + |p|, mid, q, n - 1, b, sc1) && xs == a + b;
  }

  lemma ItemsMore(E: Env, arity: nat -> nat, at: nat, sc: nat, p: seq<Node>, q: seq<Node>, n: nat, a: seq<Item>, b: seq<Item>,
                  mid: nat, sc1: nat)
    requires p != [] && ItemsUnit(E, arity, at, sc, p, a, mid) && SpellsItems(E, arity, at + |p|, mid, q, n, b, sc1)
    ensures SpellsItems(E, arity, at, sc, p + q, n + 1, a + b, sc1)
  {
    hide ItemsUnit;
    var ns := p + q;
    assert ns == p + q && ItemsUnit(E, arity, at, sc, p, a, mid);
  }

  lemma ItemsBlock(E: Env, arity: nat -> nat, at: nat, sc: nat, ns: seq<Node>, xs: seq<Item>, sc1: nat)
    returns (q: seq<Node>, m: u64, sc': nat, t: Token)
    requires ItemsUnit(E, arity, at, sc, ns, xs, sc1) && !(|xs| == 1 && SpellsItem(E, arity, at, sc, ns, xs[0], sc1))
    ensures t in {NBlock, TComma} && ns == [Tok(t), Raw(m)] + q && SpellsItems(E, arity, at + 2, sc', q, m, xs, sc1)
    ensures sc' == if t == NBlock then sc + 1 else sc
  {
    hide SpellsItems, SpellsItem;
    if q', m': u64 :| ns == [Tok(NBlock), Raw(m')] + q' && SpellsItems(E, arity, at + 2, sc + 1, q', m', xs, sc1) {
      q, m, sc', t := q', m', sc + 1, NBlock;
    } else {
      t, sc' := TComma, sc;
      q, m :| ns == [Tok(TComma), Raw(m)] + q && SpellsItems(E, arity, at + 2, sc, q, m, xs, sc1);
    }
  }

  lemma {:induction false} ReadItems(E: Env, arity: nat -> nat, sc: nat, pre: seq<Node>, mid: seq<Node>, post: seq<Node>, n: nat,
                                     xs: seq<Item>, sc1: nat)
    requires SpellsItems(E, arity, |pre|, sc, mid, n, xs, sc1)
    ensures ParseItems(E, pre + mid + post, |pre|, sc, n, arity) == Some((xs, |pre| + |mid|, sc1))
    decreases |mid|, 1
  {
    hide SpellsItems, ItemsUnit, ParseItems;
    var ns := pre + mid + post;
    ParseStep(E, ns, |pre|, sc, n, arity);
    ItemsNone(E, arity, |pre|, sc, mid, xs, sc1);
    if n > 0 {
      var p, q, a, b, k := ItemsParts(E, arity, |pre|, sc, mid, n, xs, sc1);
      Around(pre, p, q, post);
      ReadItemsUnit(E, arity, sc, pre, p, q + post, a, k, n - 1);
      ReadItems(E, arity, k, pre + p, q, post, n - 1, b, sc1);
    }
  }

  lemma {:induction false} ReadItemsUnit(E: Env, arity: nat -> nat, sc: nat, pre: seq<Node>, mid: seq<Node>, post: seq<Node>,
                                         xs: seq<Item>, sc1: nat, more: nat)
    requires ItemsUnit(E, arity, |pre|, sc, mid, xs, sc1)
    ensures ParseItems(E, pre + mid + post, |pre|, sc, 1 + more, arity)
         == ThenItems(E, pre + mid + post, Some((xs, |pre| + |mid|, sc1)), more, arity)
    decreases |mid|, 0
  {
    hide SpellsItems, ItemsUnit, SpellsItem, ParseItems, ParseItem;
    var ns, i := pre + mid + post, |pre|;
    ParseStep(E, ns, i, sc, 1 + more, arity);
    if |xs| == 1 && SpellsItem(E, arity, i, sc, mid, xs[0], sc1) {
      ReadItem(E, arity, sc, pre, mid, post, xs[0], sc1);
      assert [xs[0]] == xs;
    } else {
      var q, m, sc', t := ItemsBlock(E, arity, i, sc, mid, xs, sc1);
      var head := [Tok(t), Raw(m)];
      assert ns == (pre + head) + q + post;
      assert ns[i] == head[0] && ns[i + 1] == head[1];
      ReadItems(E, arity, sc', pre + head, q, post, m, xs, sc1);
      ItemsAppend(E, ns, i + 2, sc', m, more, arity);
    }
  }

  lemma {:induction false} ItemsSpelled(E: Env, ns: seq<Node>, i: nat, sc: nat, n: nat, arity: nat -> nat)
    requires i <= |ns| && ParseItems(E, ns, i, sc, n, arity).Some?
    ensures var (xs, j, sc1) := ParseItems(E, ns, i, sc, n, arity).value;
            i <= j <= |ns| && SpellsItems(E, arity, i, sc, ns[i..j], n, xs, sc1)
    decreases |ns| - i
  {
    hide ParseItems, ParseItem, SpellsItems, ItemsUnit, SpellsItem;
    ParseStep(E, ns, i, sc, n, arity);
    var (xs, j, sc1) := ParseItems(E, ns, i, sc, n, arity).value;
    if n == 0 {
      ItemsNone(E, arity, i, sc, ns[i..i], [], sc);
    } else if TokenAt(ns, i) in {NBlock, TComma} {
      var m, sc' := Payload(ns, i + 1).value, if TokenAt(ns, i) == NBlock then sc + 1 else sc;
      ItemsAppend(E, ns, i + 2, sc', m, n - 1, arity);
      var (a, k, mid) := ParseItems(E, ns, i + 2, sc', m, arity).value;
      ItemsSpelled(E, ns, i + 2, sc', m, arity);
      ItemsSpelled(E, ns, k, mid, n - 1, arity);
      ItemsBlockSpelled(E, arity, sc, ns, i, k, m, a, mid);
      Halved(ns, i, k, j);
      ItemsMore(E, arity, i, sc, ns[i..k], ns[k..j], n - 1, a, ParseItems(E, ns, k, mid, n - 1, arity).value.0, mid, sc1);
    } else {
      ItemSpelled(E, ns, i, sc, arity);
      var (x, k, mid) := ParseItem(E, ns, i, sc, arity).value;
      ItemsSpelled(E, ns, k, mid, n - 1, arity);
      ItemsSingle(E, arity, i, sc, ns[i..k], x, mid);
      Halved(ns, i, k, j);
      ItemsMore(E, arity, i, sc, ns[i..k], ns[k..j], n - 1, [x], ParseItems(E, ns, k, mid, n - 1, arity).value.0, mid, sc1);
    }
  }

  lemma ItemsSingle(E: Env, arity: nat -> nat, at: nat, sc: nat, ns: seq<Node>, x: Item, sc1: nat)
    requires SpellsItem(E, arity, at, sc, ns, x, sc1)
    ensures ItemsUnit(E, arity, at, sc, ns, [x], sc1)
  {
    hide SpellsItem, SpellsItems;
  }

  lemma ItemsBlockSpelled(E: Env, arity: nat -> nat, sc: nat, ns: seq<Node>, i: nat, k: nat, m: u64, xs: seq<Item>, sc1: nat)
    requires i + 2 <= k <= |ns| && TokenAt(ns, i) in {NBlock, TComma} && Payload(ns, i + 1) == Some(m)
    requires SpellsItems(E, arity, i + 2, if TokenAt(ns, i) == NBlock then sc + 1 else sc, ns[i + 2..k], m, xs, sc1)
    ensures ItemsUnit(E, arity, i, sc, ns[i..k], xs, sc1)
  {
    hide SpellsItem, SpellsItems;
    var t := TokenAt(ns, i);
    assert ns[i..k] == [Tok(t), Raw(m)] + ns[i + 2..k];
  }

  /** The reader of a module is its grammar. */
  lemma ReadItemsIff(E: Env, ns: seq<Node>, i: nat, sc: nat, n: nat, arity: nat -> nat, xs: seq<Item>, j: nat, sc1: nat)
    requires i <= |ns|
    ensures ParseItems(E, ns, i, sc, n, arity) == Some((xs, j, sc1))
       <==> i <= j <= |ns| && SpellsItems(E, arity, i, sc, ns[i..j], n, xs, sc1)
  {
    hide ParseItems, SpellsItems;
    if ParseItems(E, ns, i, sc, n, arity) == Some((xs, j, sc1)) { ItemsSpelled(E, ns, i, sc, n, arity); }
    if i <= j <= |ns| && SpellsItems(E, arity, i, sc, ns[i..j], n, xs, sc1) {
      assert ns == ns[..i] + ns[i..j] + ns[j..];
      ReadItems(E, arity, sc, ns[..i], ns[i..j], ns[j..], n, xs, sc1);
    }
  }
}
