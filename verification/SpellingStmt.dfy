/** The grammar of statements, in which a block is a statement like any other. The
    reader, which only counts the work that is left, accepts exactly these. */
module SpellingStmt {
  import opened Words
  import opened Source
  import opened NodeStream
  import opened Spelling

  /** The statements of a, then those of b. */
  function Append(a: Stmt, b: Stmt): Stmt {
    match a
    case Skip => b
    case Seq(first, rest) => Seq(first, Append(rest, b))
    case _ => Seq(a, b)
  }

  /** n statements or blocks, one after another: st, and the scope counter sc1
      behind them. */
  ghost predicate SpellsRow(E: Env, sc: nat, ns: seq<Node>, n: nat, st: Stmt, sc1: nat)
    decreases |ns|, 2
  {
    if n == 0 then ns == [] && st == Skip && sc1 == sc
    else
      exists p, q, a, b, mid: nat ::
        p != [] && ns == p + q && SpellsUnit(E, sc, p, a, mid) && SpellsRow(E, mid, q, n - 1, b, sc1) && st == Append(a, b)
  }

  /** One statement, or a block of m, which opens a scope, or m in a row, which do
      not. */
  ghost predicate SpellsUnit(E: Env, sc: nat, ns: seq<Node>, st: Stmt, sc1: nat)
    decreases |ns|, 1
  {
    || (st.Seq? && st.rest == Skip && SpellsOne(E, sc, ns, st.first, sc1))
    || (exists q, m: u64 :: ns == [Tok(NBlock), Raw(m)] + q && SpellsRow(E, sc + 1, q, m, st, sc1))
    || (exists q, m: u64 :: ns == [Tok(TComma), Raw(m)] + q && SpellsRow(E, sc, q, m, st, sc1))
  }

  ghost predicate SpellsOne(E: Env, sc: nat, ns: seq<Node>, s: Stmt, sc1: nat)
    decreases |ns|, 0
  {
    match s
    case If(c, body) => exists p, q :: ns == [Tok(TIf)] + p + q && Spells(E, sc, p, c) && SpellsUnit(E, sc, q, body, sc1)
    case While(c, body) => exists p, q :: ns == [Tok(TWhile)] + p + q && Spells(E, sc, p, c) && SpellsUnit(E, sc, q, body, sc1)
    case Return(e) => sc1 == sc && exists p :: ns == [Tok(TReturn)] + p && Spells(E, sc, p, e)
    case ExprS(e) => sc1 == sc && Spells(E, sc, ns, e)
    case Skip => false
    case Seq(_, _) => false
  }

  // ------------------------------------------------------------- counting the work

  lemma WorkCases(E: Env, ns: seq<Node>, i: nat, sc: nat, n: nat)
    ensures n == 0 ==> ParseStmts(E, ns, i, sc, n) == Some(Parsed(Skip, i, sc))
    ensures n > 0 && i >= |ns| ==> ParseStmts(E, ns, i, sc, n).None?
    ensures n > 0 && i < |ns| && TokenAt(ns, i) in {NBlock, TComma} ==>
              ParseStmts(E, ns, i, sc, n) ==
              match Payload(ns, i + 1)
              case Some(m) => ParseStmts(E, ns, i + 2, if TokenAt(ns, i) == NBlock then sc + 1 else sc, m + (n - 1))
              case None => None
    ensures n > 0 && i < |ns| && TokenAt(ns, i) !in {NBlock, TComma} ==>
              ParseStmts(E, ns, i, sc, n) ==
              match ParseStmt(E, ns, i, sc)
              case None => None
              case Some(Parsed(a, i1, sc1)) =>
                (match ParseStmts(E, ns, i1, sc1, n - 1)
                 case None => None
                 case Some(Parsed(b, i2, sc2)) => Some(Parsed(Seq(a, b), i2, sc2)))
  {
    hide ParseStmt;
  }

  /** n statements and then m. */
  function Then(E: Env, ns: seq<Node>, p: Option<Parsed>, m: nat): Option<Parsed> {
    match p
    case None => None
    case Some(Parsed(a, i1, sc1)) =>
      match ParseStmts(E, ns, i1, sc1, m)
      case None => None
      case Some(Parsed(b, i2, sc2)) => Some(Parsed(Append(a, b), i2, sc2))
  }

  lemma {:induction false} WorkAppends(E: Env, ns: seq<Node>, i: nat, sc: nat, n: nat, m: nat)
    ensures ParseStmts(E, ns, i, sc, n + m) == Then(E, ns, ParseStmts(E, ns, i, sc, n), m)
    decreases |ns| - i
  {
    hide ParseStmts, ParseStmt, Payload;
    WorkCases(E, ns, i, sc, n);
    WorkCases(E, ns, i, sc, n + m);
    if n > 0 && i < |ns| {
      if TokenAt(ns, i) in {NBlock, TComma} {
        if Payload(ns, i + 1).Some? {
          WorkAppends(E, ns, i + 2, if TokenAt(ns, i) == NBlock then sc + 1 else sc, Payload(ns, i + 1).value + (n - 1), m);
        }
      } else if ParseStmt(E, ns, i, sc).Some? {
        var a := ParseStmt(E, ns, i, sc).value;
        WorkAppends(E, ns, a.it, a.sc, n - 1, m);
      }
    }
  }

  predicate IsRow(st: Stmt) { st.Skip? || (st.Seq? && IsRow(st.rest)) }

  lemma {:induction false} RowEnd(a: Stmt)
    requires IsRow(a)
    ensures Append(a, Skip) == a
  {
    if a.Seq? { RowEnd(a.rest); }
  }

  lemma {:induction false} RowAppend(a: Stmt, b: Stmt)
    requires IsRow(a) && IsRow(b)
    ensures IsRow(Append(a, b))
  {
    if a.Seq? { RowAppend(a.rest, b); }
  }

  lemma RowParts(E: Env, sc: nat, ns: seq<Node>, n: nat, st: Stmt, sc1: nat)
    returns (p: seq<Node>, q: seq<Node>, a: Stmt, b: Stmt, mid: nat)
    requires n > 0 && SpellsRow(E, sc, ns, n, st, sc1)
    ensures p != [] && ns == p + q && SpellsUnit(E, sc, p, a, mid) && SpellsRow(E, mid, q, n - 1, b, sc1) && st == Append(a, b)
  {
    hide SpellsUnit;
    p, q, a, b, mid :|
      p != [] && ns == p + q && SpellsUnit(E, sc, p, a, mid) && SpellsRow(E, mid, q, n - 1, b, sc1) && st == Append(a, b);
  }

  lemma RowNone(E: Env, sc: nat, ns: seq<Node>, st: Stmt, sc1: nat)
    ensures SpellsRow(E, sc, ns, 0, st, sc1) <==> ns == [] && st == Skip && sc1 == sc
  {}

  lemma RowMore(E: Env, sc: nat, p: seq<Node>, q: seq<Node>, n: nat, a: Stmt, b: Stmt, mid: nat, sc1: nat)
    requires p != [] && SpellsUnit(E, sc, p, a, mid) && SpellsRow(E, mid, q, n, b, sc1)
    ensures SpellsRow(E, sc, p + q, n + 1, Append(a, b), sc1)
  {
    hide SpellsUnit;
    var ns := p + q;
    assert ns == p + q && SpellsUnit(E, sc, p, a, mid);
  }

  lemma {:induction false} RowsAre(E: Env, sc: nat, ns: seq<Node>, n: nat, st: Stmt, sc1: nat)
    requires SpellsRow(E, sc, ns, n, st, sc1)
    ensures IsRow(st)
    decreases |ns|, 2
  {
    hide SpellsRow, SpellsUnit, Append;
    RowNone(E, sc, ns, st, sc1);
    if n > 0 {
      var p, q, a, b, mid := RowParts(E, sc, ns, n, st, sc1);
      UnitsAre(E, sc, p, a, mid);
      RowsAre(E, mid, q, n - 1, b, sc1);
      RowAppend(a, b);
    }
  }

  lemma {:induction false} UnitsAre(E: Env, sc: nat, ns: seq<Node>, st: Stmt, sc1: nat)
    requires SpellsUnit(E, sc, ns, st, sc1)
    ensures IsRow(st) && ns != []
    decreases |ns|, 1
  {
    hide SpellsRow, SpellsOne;
    if !(st.Seq? && st.rest == Skip && SpellsOne(E, sc, ns, st.first, sc1)) {
      var q, m, sc', t := BlockParts(E, sc, ns, st, sc1);
      RowsAre(E, sc', q, m, st, sc1);
    } else {
      OneSome(E, sc, ns, st.first, sc1);
    }
  }

  lemma BlockParts(E: Env, sc: nat, ns: seq<Node>, st: Stmt, sc1: nat)
    returns (q: seq<Node>, m: u64, sc': nat, t: Token)
    requires SpellsUnit(E, sc, ns, st, sc1) && !(st.Seq? && st.rest == Skip && SpellsOne(E, sc, ns, st.first, sc1))
    ensures t in {NBlock, TComma} && ns == [Tok(t), Raw(m)] + q && SpellsRow(E, sc', q, m, st, sc1)
    ensures sc' == if t == NBlock then sc + 1 else sc
  {
    hide SpellsRow, SpellsOne;
    if q', m': u64 :| ns == [Tok(NBlock), Raw(m')] + q' && SpellsRow(E, sc + 1, q', m', st, sc1) {
      q, m, sc', t := q', m', sc + 1, NBlock;
    } else {
      t, sc' := TComma, sc;
      q, m :| ns == [Tok(TComma), Raw(m)] + q && SpellsRow(E, sc, q, m, st, sc1);
    }
  }

  lemma OneSome(E: Env, sc: nat, ns: seq<Node>, s: Stmt, sc1: nat)
    requires SpellsOne(E, sc, ns, s, sc1)
    ensures ns != []
  {
    hide Spells, SpellsUnit;
    if s.ExprS? {
      ReadSpelled(E, sc, [], ns, [], s.e);
      assert [] + ns + [] == ns;
    }
  }

  // ------------------------------------------------------- what is spelled is read

  lemma {:induction false} ReadRow(E: Env, sc: nat, pre: seq<Node>, mid: seq<Node>, post: seq<Node>, n: nat, st: Stmt, sc1: nat)
    requires SpellsRow(E, sc, mid, n, st, sc1)
    ensures ParseStmts(E, pre + mid + post, |pre|, sc, n) == Some(Parsed(st, |pre| + |mid|, sc1))
    decreases |mid|, 3
  {
    hide SpellsRow, SpellsUnit, ParseStmts, Append;
    var ns := pre + mid + post;
    WorkCases(E, ns, |pre|, sc, n);
    RowNone(E, sc, mid, st, sc1);
    if n > 0 {
      var p, q, a, b, k := RowParts(E, sc, mid, n, st, sc1);
      Around(pre, p, q, post);
      ReadUnit(E, sc, pre, p, q + post, a, k, n - 1);
      ReadRow(E, k, pre + p, q, post, n - 1, b, sc1);
    }
  }

  lemma {:induction false} ReadUnit(E: Env, sc: nat, pre: seq<Node>, mid: seq<Node>, post: seq<Node>, st: Stmt, sc1: nat, more: nat)
    requires SpellsUnit(E, sc, mid, st, sc1)
    ensures ParseStmts(E, pre + mid + post, |pre|, sc, 1 + more)
         == Then(E, pre + mid + post, Some(Parsed(st, |pre| + |mid|, sc1)), more)
    decreases |mid|, 2
  {
    hide SpellsRow, SpellsUnit, SpellsOne, ParseStmts, ParseStmt, Append;
    var ns, i := pre + mid + post, |pre|;
    WorkCases(E, ns, i, sc, 1 + more);
    if st.Seq? && st.rest == Skip && SpellsOne(E, sc, mid, st.first, sc1) {
      ReadOne(E, sc, pre, mid, post, st.first, sc1);
      OneInFront(st);
    } else {
      var q, m, sc', t := BlockParts(E, sc, mid, st, sc1);
      var head := [Tok(t), Raw(m)];
      assert ns == (pre + head) + q + post;
      assert ns[i] == head[0] && ns[i + 1] == head[1];
      ReadRow(E, sc', pre + head, q, post, m, st, sc1);
      WorkAppends(E, ns, i + 2, sc', m, more);
    }
  }

  lemma OneInFront(st: Stmt)
    requires st.Seq? && st.rest == Skip
    ensures forall b :: Append(st, b) == Seq(st.first, b)
  {}

  lemma {:induction false} ReadOne(E: Env, sc: nat, pre: seq<Node>, mid: seq<Node>, post: seq<Node>, s: Stmt, sc1: nat)
    requires SpellsOne(E, sc, mid, s, sc1)
    ensures |pre| < |pre + mid + post| && TokenAt(pre + mid + post, |pre|) !in {NBlock, TComma}
    ensures ParseStmt(E, pre + mid + post, |pre|, sc) == Some(Parsed(s, |pre| + |mid|, sc1))
    decreases |mid|, 1
  {
    hide SpellsUnit, Spells, ParseStmts, ParseExpr, ParseStmt, Append;
    OneSome(E, sc, mid, s, sc1);
    var ns, i := pre + mid + post, |pre|;
    match s
    case ExprS(e) =>
      ReadSpelled(E, sc, pre, mid, post, e);
      ExprCase(E, ns, i, sc);
    case Return(e) =>
      var p :| mid == [Tok(TReturn)] + p && Spells(E, sc, p, e);
      assert ns == (pre + [Tok(TReturn)]) + p + post && ns[i] == mid[0];
      ReadSpelled(E, sc, pre + [Tok(TReturn)], p, post, e);
      TestCase(E, ns, i, sc);
    case If(c, body) =>
      var p, q :| mid == [Tok(TIf)] + p + q && Spells(E, sc, p, c) && SpellsUnit(E, sc, q, body, sc1);
      assert ns[i] == mid[0];
      ReadTest(E, sc, pre, TIf, p, q, post, c, body, sc1);
    case While(c, body) =>
      var p, q :| mid == [Tok(TWhile)] + p + q && Spells(E, sc, p, c) && SpellsUnit(E, sc, q, body, sc1);
      assert ns[i] == mid[0];
      ReadTest(E, sc, pre, TWhile, p, q, post, c, body, sc1);
  }

  lemma ExprCase(E: Env, ns: seq<Node>, i: nat, sc: nat)
    requires ParseExpr(E, ns, i, sc).Some?
    ensures i < |ns| && TokenAt(ns, i) !in {NBlock, TComma, TIf, TWhile, TReturn}
    ensures var (e, j) := ParseExpr(E, ns, i, sc).value; ParseStmt(E, ns, i, sc) == Some(Parsed(ExprS(e), j, sc))
  {
    hide ParseExpr;
    ParseCases(E, ns, i, sc);
  }

  lemma TestCase(E: Env, ns: seq<Node>, i: nat, sc: nat)
    requires i < |ns|
    ensures TokenAt(ns, i) == TReturn ==>
              ParseStmt(E, ns, i, sc) == match ParseExpr(E, ns, i + 1, sc)
                                         case Some((e, j)) => Some(Parsed(Return(e), j, sc))
                                         case None => None
    ensures TokenAt(ns, i) == TIf ==>
              ParseStmt(E, ns, i, sc) == match Tested(E, ns, i, sc)
                                         case Some((c, p)) => Some(Parsed(If(c, p.st), p.it, p.sc))
                                         case None => None
    ensures TokenAt(ns, i) == TWhile ==>
              ParseStmt(E, ns, i, sc) == match Tested(E, ns, i, sc)
                                         case Some((c, p)) => Some(Parsed(While(c, p.st), p.it, p.sc))
                                         case None => None
    ensures TokenAt(ns, i) !in {TIf, TWhile, TReturn} ==>
              ParseStmt(E, ns, i, sc) == match ParseExpr(E, ns, i, sc)
                                         case Some((e, j)) => Some(Parsed(ExprS(e), j, sc))
                                         case None => None
  {
    hide ParseExpr, ParseStmts;
  }

  /** The condition behind a token and the one statement behind that. */
  function Tested(E: Env, ns: seq<Node>, i: nat, sc: nat): Option<(Expr, Parsed)> {
    match ParseExpr(E, ns, i + 1, sc)
    case None => None
    case Some((c, k)) => match ParseStmts(E, ns, k, sc, 1) case Some(p) => Some((c, p)) case None => None
  }

  lemma {:induction false} ReadTest(E: Env, sc: nat, pre: seq<Node>, t: Token, p: seq<Node>, q: seq<Node>, post: seq<Node>,
                                    c: Expr, body: Stmt, sc1: nat)
    requires t in {TIf, TWhile} && Spells(E, sc, p, c) && SpellsUnit(E, sc, q, body, sc1)
    ensures var ns := pre + ([Tok(t)] + p + q) + post;
            && |pre| < |ns| && ns[|pre|] == Tok(t)
            && ParseStmt(E, ns, |pre|, sc)
               == Some(Parsed(if t == TIf then If(c, body) else While(c, body), |pre| + 1 + |p| + |q|, sc1))
    decreases |q|, 3
  {
    hide SpellsUnit, Spells, ParseStmts, ParseExpr, ParseStmt, Append;
    var ns, i, head := pre + ([Tok(t)] + p + q) + post, |pre|, [Tok(t)];
    assert ns == (pre + head) + p + (q + post) == (pre + head + p) + q + post;
    assert ns[i] == head[0];
    ReadSpelled(E, sc, pre + head, p, q + post, c);
    ReadUnit(E, sc, pre + head + p, q, post, body, sc1, 0);
    WorkCases(E, ns, i + 1 + |p| + |q|, sc1, 0);
    UnitsAre(E, sc, q, body, sc1);
    RowEnd(body);
    TestCase(E, ns, i, sc);
  }

  // ------------------------------------------------------- what is read is spelled

  lemma {:induction false} RowSpelled(E: Env, ns: seq<Node>, i: nat, sc: nat, n: nat)
    requires i <= |ns| && ParseStmts(E, ns, i, sc, n).Some?
    ensures var p := ParseStmts(E, ns, i, sc, n).value; i <= p.it <= |ns| && SpellsRow(E, sc, ns[i..p.it], n, p.st, p.sc)
    decreases |ns| - i, 2
  {
    hide ParseStmts, ParseStmt, SpellsRow, SpellsUnit, SpellsOne, Append;
    WorkCases(E, ns, i, sc, n);
    var all := ParseStmts(E, ns, i, sc, n).value;
    if n == 0 {
      RowNone(E, sc, ns[i..i], Skip, sc);
    } else if TokenAt(ns, i) in {NBlock, TComma} {
      var m, sc' := Payload(ns, i + 1).value, if TokenAt(ns, i) == NBlock then sc + 1 else sc;
      WorkAppends(E, ns, i + 2, sc', m, n - 1);
      var a := ParseStmts(E, ns, i + 2, sc', m).value;
      RowSpelled(E, ns, i + 2, sc', m);
      RowSpelled(E, ns, a.it, a.sc, n - 1);
      BlockSpelled(E, sc, ns, i, a.it, m, a.st, a.sc);
      Halved(ns, i, a.it, all.it);
      RowMore(E, sc, ns[i..a.it], ns[a.it..all.it], n - 1, a.st, ParseStmts(E, ns, a.it, a.sc, n - 1).value.st, a.sc, all.sc);
    } else {
      OneSpelled(E, ns, i, sc);
      var a := ParseStmt(E, ns, i, sc).value;
      RowSpelled(E, ns, a.it, a.sc, n - 1);
      var b := ParseStmts(E, ns, a.it, a.sc, n - 1).value;
      Halved(ns, i, a.it, all.it);
      RowWith(E, sc, ns[i..a.it], ns[a.it..all.it], n - 1, a.st, b.st, a.sc, all.sc);
    }
  }

  lemma Halved(ns: seq<Node>, i: nat, k: nat, j: nat)
    requires i < k <= j <= |ns|
    ensures ns[i..j] == ns[i..k] + ns[k..j] && ns[i..k] != []
  {}

  lemma SingleUnit(E: Env, sc: nat, ns: seq<Node>, s: Stmt, sc1: nat)
    requires SpellsOne(E, sc, ns, s, sc1)
    ensures SpellsUnit(E, sc, ns, Seq(s, Skip), sc1)
  {
    hide SpellsOne, SpellsRow;
  }

  /** A statement in front of a row. */
  lemma RowWith(E: Env, sc: nat, p: seq<Node>, q: seq<Node>, n: nat, s: Stmt, rest: Stmt, mid: nat, sc1: nat)
    requires SpellsOne(E, sc, p, s, mid) && SpellsRow(E, mid, q, n, rest, sc1)
    ensures SpellsRow(E, sc, p + q, n + 1, Seq(s, rest), sc1)
  {
    hide SpellsRow, SpellsUnit, SpellsOne, Append;
    SingleUnit(E, sc, p, s, mid);
    OneSome(E, sc, p, s, mid);
    OneInFront(Seq(s, Skip));
    RowMore(E, sc, p, q, n, Seq(s, Skip), rest, mid, sc1);
  }

  lemma BlockSpelled(E: Env, sc: nat, ns: seq<Node>, i: nat, k: nat, m: u64, st: Stmt, sc1: nat)
    requires i + 2 <= k <= |ns| && TokenAt(ns, i) in {NBlock, TComma} && Payload(ns, i + 1) == Some(m)
    requires SpellsRow(E, if TokenAt(ns, i) == NBlock then sc + 1 else sc, ns[i + 2..k], m, st, sc1)
    ensures SpellsUnit(E, sc, ns[i..k], st, sc1)
  {
    hide SpellsOne, SpellsRow;
    var t := TokenAt(ns, i);
    assert ns[i..k] == [Tok(t), Raw(m)] + ns[i + 2..k];
  }

  lemma RowOfOne(E: Env, sc: nat, ns: seq<Node>, st: Stmt, sc1: nat)
    requires SpellsRow(E, sc, ns, 1, st, sc1)
    ensures SpellsUnit(E, sc, ns, st, sc1)
  {
    hide SpellsUnit, SpellsRow, Append;
    var p, q, a, b, mid := RowParts(E, sc, ns, 1, st, sc1);
    RowNone(E, mid, q, b, sc1);
    UnitsAre(E, sc, p, a, mid);
    RowEnd(a);
    assert p + [] == p;
  }

  lemma TestSpelled(E: Env, sc: nat, p: seq<Node>, q: seq<Node>, c: Expr, body: Stmt, sc1: nat)
    requires Spells(E, sc, p, c) && SpellsUnit(E, sc, q, body, sc1)
    ensures SpellsOne(E, sc, [Tok(TIf)] + p + q, If(c, body), sc1)
    ensures SpellsOne(E, sc, [Tok(TWhile)] + p + q, While(c, body), sc1)
  {
    hide Spells, SpellsUnit;
    var ns, ms := [Tok(TIf)] + p + q, [Tok(TWhile)] + p + q;
    assert ns == [Tok(TIf)] + p + q && ms == [Tok(TWhile)] + p + q;
  }

  lemma ReturnSpelled(E: Env, sc: nat, p: seq<Node>, e: Expr)
    requires Spells(E, sc, p, e)
    ensures SpellsOne(E, sc, [Tok(TReturn)] + p, Return(e), sc)
  {
    hide Spells;
    var ns := [Tok(TReturn)] + p;
    assert ns == [Tok(TReturn)] + p;
  }

  lemma {:induction false} OneSpelled(E: Env, ns: seq<Node>, i: nat, sc: nat)
    requires i < |ns| && ParseStmt(E, ns, i, sc).Some?
    ensures var p := ParseStmt(E, ns, i, sc).value; i < p.it <= |ns| && SpellsOne(E, sc, ns[i..p.it], p.st, p.sc)
    decreases |ns| - i, 1
  {
    hide ParseStmts, ParseStmt, ParseExpr, SpellsRow, SpellsUnit, Spells;
    TestCase(E, ns, i, sc);
    var t := TokenAt(ns, i);
    if t in {TIf, TWhile} {
      var k := ParseExpr(E, ns, i + 1, sc).value.1;
      SpelledRead(E, ns, i + 1, sc);
      RowSpelled(E, ns, k, sc, 1);
      var p := ParseStmts(E, ns, k, sc, 1).value;
      RowOfOne(E, sc, ns[k..p.it], p.st, p.sc);
      Cut(ns, i, k, p.it);
      hide SpellsOne;
      TestSpelled(E, sc, ns[i + 1..k], ns[k..p.it], ParseExpr(E, ns, i + 1, sc).value.0, p.st, p.sc);
    } else if t == TReturn {
      SpelledRead(E, ns, i + 1, sc);
      var j := ParseExpr(E, ns, i + 1, sc).value.1;
      assert ns[i..j] == [Tok(TReturn)] + ns[i + 1..j];
      ReturnSpelled(E, sc, ns[i + 1..j], ParseExpr(E, ns, i + 1, sc).value.0);
    } else {
      SpelledRead(E, ns, i, sc);
    }
  }

  /** The counting reader is the grammar, in which a block is one statement: at i it
      finds n statements up to j, with the scope counter at sc1, exactly when the
      nodes between spell them. */
  lemma ReadRowIff(E: Env, ns: seq<Node>, i: nat, sc: nat, n: nat, st: Stmt, j: nat, sc1: nat)
    requires i <= |ns|
    ensures ParseStmts(E, ns, i, sc, n) == Some(Parsed(st, j, sc1)) <==> i <= j <= |ns| && SpellsRow(E, sc, ns[i..j], n, st, sc1)
  {
    hide ParseStmts, SpellsRow;
    if ParseStmts(E, ns, i, sc, n) == Some(Parsed(st, j, sc1)) { RowSpelled(E, ns, i, sc, n); }
    if i <= j <= |ns| && SpellsRow(E, sc, ns[i..j], n, st, sc1) {
      assert ns == ns[..i] + ns[i..j] + ns[j..];
      ReadRow(E, sc, ns[..i], ns[i..j], ns[j..], n, st, sc1);
    }
  }
}
