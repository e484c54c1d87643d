/** The grammar of function definitions, and what a function that is spelled in the
    stream does once the machine runs it. */
module SpellingFunc {
  import opened Words
  import opened Isa
  import opened IsaRoundTrip
  import opened Machine
  import opened Source
  import opened Select
  import opened Layout
  import opened NodeStream
  import opened StmtProof
  import opened FuncProof
  import opened FuncTheorem
  import opened GenFunc
  import opened GenTheorem
  import opened Spelling
  import opened SpellingStmt

  /** Cells one after another. */
  ghost predicate SpellsCells(E: Env, sc: nat, ns: seq<Node>, ps: seq<u64>)
    decreases |ps|
  {
    if ps == [] then ns == []
    else exists p, q :: Spells(E, sc, p, Cell(ps[0])) && SpellsCells(E, sc, q, ps[1..]) && ns == p + q
  }

  /** The parameters, counted, then one statement or block. Without parameters
      there is no count. */
  ghost predicate SpellsFunc(E: Env, sc: nat, ns: seq<Node>, f: Func, sc1: nat) {
    if f.params == [] then SpellsUnit(E, sc, ns, f.body, sc1)
    else
      && |f.params| < TWO64
      && (|| (exists p, q ::
                && SpellsCells(E, sc + 1, p, f.params) && SpellsUnit(E, sc + 1, q, f.body, sc1)
                && ns == [Tok(NBlock), Raw(|f.params|)] + p + q)
          || (exists p, q ::
                && SpellsCells(E, sc, p, f.params) && SpellsUnit(E, sc, q, f.body, sc1)
                && ns == [Tok(TComma), Raw(|f.params|)] + p + q))
  }

  // ------------------------------------------------------------------- parameters

  /** A cell is read the way any expression is. */
  lemma CellCase(E: Env, ns: seq<Node>, i: nat, sc: nat)
    ensures CellAt(ns, i) && LeafAt(E, ns, i, sc).Some? <==> ParseExpr(E, ns, i, sc).Some? && ParseExpr(E, ns, i, sc).value.0.Cell?
    ensures CellAt(ns, i) && LeafAt(E, ns, i, sc).Some? ==>
              ParseExpr(E, ns, i, sc) == Some((Cell(CellAddr(LeafAt(E, ns, i, sc).value)), i + LeafSize(ns, i)))
  {
    hide ParseExpr;
    ParseCases(E, ns, i, sc);
    if ParseExpr(E, ns, i, sc).Some? {
      CellParse(E, ns, i, sc);
    }
  }

  lemma ParamCases(E: Env, ns: seq<Node>, i: nat, sc: nat, n: nat)
    requires i <= |ns|
    ensures n == 0 ==> ParseParams(E, ns, i, sc, n) == Some(([], i))
    ensures n > 0 ==>
              var h := ParseExpr(E, ns, i, sc);
              ParseParams(E, ns, i, sc, n) ==
              if h.None? || !h.value.0.Cell? then None
              else match ParseParams(E, ns, h.value.1, sc, n - 1)
                   case Some((ps, j)) => Some(([h.value.0.addr] + ps, j))
                   case None => None
  {
    hide ParseExpr, CellAt, LeafAt, LeafSize;
    CellCase(E, ns, i, sc);
  }

  lemma {:induction false} ReadCells(E: Env, sc: nat, pre: seq<Node>, mid: seq<Node>, post: seq<Node>, ps: seq<u64>)
    requires SpellsCells(E, sc, mid, ps)
    ensures |pre| <= |pre + mid + post|
    ensures ParseParams(E, pre + mid + post, |pre|, sc, |ps|) == Some((ps, |pre| + |mid|))
    decreases |ps|
  {
    hide ParseParams, ParseExpr, Spells;
    var ns := pre + mid + post;
    ParamCases(E, ns, |pre|, sc, |ps|);
    if ps != [] {
      var p, q :| Spells(E, sc, p, Cell(ps[0])) && SpellsCells(E, sc, q, ps[1..]) && mid == p + q;
      assert ns == pre + p + (q + post) == (pre + p) + q + post;
      ReadSpelled(E, sc, pre, p, q + post, Cell(ps[0]));
      ReadCells(E, sc, pre + p, q, post, ps[1..]);
      assert [ps[0]] + ps[1..] == ps;
    }
  }

  lemma {:induction false} CellsSpelled(E: Env, ns: seq<Node>, i: nat, sc: nat, n: nat)
    requires i <= |ns| && ParseParams(E, ns, i, sc, n).Some?
    ensures var (ps, j) := ParseParams(E, ns, i, sc, n).value; |ps| == n && SpellsCells(E, sc, ns[i..j], ps)
    decreases n
  {
    hide ParseParams, ParseExpr, Spells;
    ParamCases(E, ns, i, sc, n);
    if n > 0 {
      SpelledRead(E, ns, i, sc);
      var (e, k) := ParseExpr(E, ns, i, sc).value;
      CellsSpelled(E, ns, k, sc, n - 1);
      var (ps, j) := ParseParams(E, ns, i, sc, n).value;
      assert ps[1..] == ParseParams(E, ns, k, sc, n - 1).value.0;
      assert ns[i..j] == ns[i..k] + ns[k..j];
    }
  }

  // -------------------------------------------------------------------- functions

  lemma UnitRead(E: Env, sc: nat, pre: seq<Node>, mid: seq<Node>, post: seq<Node>, st: Stmt, sc1: nat)
    requires SpellsUnit(E, sc, mid, st, sc1)
    ensures ParseStmts(E, pre + mid + post, |pre|, sc, 1) == Some(Parsed(st, |pre| + |mid|, sc1))
  {
    hide SpellsUnit, ParseStmts, Append;
    ReadUnit(E, sc, pre, mid, post, st, sc1, 0);
    WorkCases(E, pre + mid + post, |pre| + |mid|, sc1, 0);
    UnitsAre(E, sc, mid, st, sc1);
    RowEnd(st);
  }

  lemma FuncCases(E: Env, ns: seq<Node>, i: nat, sc: nat, argCount: nat)
    requires i <= |ns|
    ensures argCount == 0 ==> ParseFunc(E, ns, i, sc, argCount) == Bodied([], ParseStmts(E, ns, i, sc, 1))
    ensures argCount > 0 ==>
              ParseFunc(E, ns, i, sc, argCount) ==
              if TokenAt(ns, i) !in {NBlock, TComma} || Payload(ns, i + 1) != Some(argCount) then None
              else
                var sc' := if TokenAt(ns, i) == NBlock then sc + 1 else sc;
                match ParseParams(E, ns, i + 2, sc', argCount)
                case None => None
                case Some((ps, k)) => Bodied(ps, ParseStmts(E, ns, k, sc', 1))
  {
    hide ParseParams, ParseStmts;
  }

  function Bodied(ps: seq<u64>, p: Option<Parsed>): Option<(Func, nat, nat)> {
    match p
    case Some(Parsed(st, j, sc1)) => Some((Func(ps, st), j, sc1))
    case None => None
  }

  lemma ReadFunc(E: Env, sc: nat, pre: seq<Node>, mid: seq<Node>, post: seq<Node>, f: Func, sc1: nat)
    requires SpellsFunc(E, sc, mid, f, sc1)
    ensures |pre| <= |pre + mid + post|
    ensures ParseFunc(E, pre + mid + post, |pre|, sc, |f.params|) == Some((f, |pre| + |mid|, sc1))
  {
    hide SpellsUnit, SpellsCells, ParseFunc, ParseStmts, ParseParams;
    var ns, i := pre + mid + post, |pre|;
    FuncCases(E, ns, i, sc, |f.params|);
    if f.params == [] {
      UnitRead(E, sc, pre, mid, post, f.body, sc1);
    } else {
      var t, sc', p, q := FuncParts(E, sc, mid, f, sc1);
      var head := [Tok(t), Raw(|f.params|)];
      assert ns == (pre + head) + p + (q + post) == (pre + head + p) + q + post;
      assert ns[i] == head[0] && ns[i + 1] == head[1];
      ReadCells(E, sc', pre + head, p, q + post, f.params);
      UnitRead(E, sc', pre + head + p, q, post, f.body, sc1);
    }
  }

  lemma FuncParts(E: Env, sc: nat, ns: seq<Node>, f: Func, sc1: nat) returns (t: Token, sc': nat, p: seq<Node>, q: seq<Node>)
    requires SpellsFunc(E, sc, ns, f, sc1) && f.params != []
    ensures |f.params| < TWO64 && t in {NBlock, TComma} && sc' == (if t == NBlock then sc + 1 else sc)
    ensures ns == [Tok(t), Raw(|f.params|)] + p + q && SpellsCells(E, sc', p, f.params) && SpellsUnit(E, sc', q, f.body, sc1)
  {
    hide SpellsUnit, SpellsCells;
    if a, b :| SpellsCells(E, sc + 1, a, f.params) && SpellsUnit(E, sc + 1, b, f.body, sc1)
               && ns == [Tok(NBlock), Raw(|f.params|)] + a + b {
      t, sc', p, q := NBlock, sc + 1, a, b;
    } else {
      t, sc' := TComma, sc;
      p, q :| SpellsCells(E, sc, p, f.params) && SpellsUnit(E, sc, q, f.body, sc1)
              && ns == [Tok(TComma), Raw(|f.params|)] + p + q;
    }
  }

  lemma FuncWhole(E: Env, sc: nat, ns: seq<Node>, i: nat, k: nat, j: nat, f: Func, sc1: nat)
    requires f.params != [] && i + 2 <= k <= j <= |ns|
    requires TokenAt(ns, i) in {NBlock, TComma} && Payload(ns, i + 1) == Some(|f.params|)
    requires var sc' := if TokenAt(ns, i) == NBlock then sc + 1 else sc;
             SpellsCells(E, sc', ns[i + 2..k], f.params) && SpellsUnit(E, sc', ns[k..j], f.body, sc1)
    ensures SpellsFunc(E, sc, ns[i..j], f, sc1)
  {
    hide SpellsUnit, SpellsCells;
    assert ns[i..j] == [Tok(TokenAt(ns, i)), Raw(|f.params|)] + ns[i + 2..k] + ns[k..j];
  }

  lemma FuncSpelled(E: Env, ns: seq<Node>, i: nat, sc: nat, argCount: nat)
    requires i <= |ns| && ParseFunc(E, ns, i, sc, argCount).Some?
    ensures var (f, j, sc1) := ParseFunc(E, ns, i, sc, argCount).value;
            |f.params| == argCount && i <= j <= |ns| && SpellsFunc(E, sc, ns[i..j], f, sc1)
  {
    hide SpellsUnit, SpellsCells, SpellsRow, ParseFunc, ParseStmts, ParseParams;
    FuncCases(E, ns, i, sc, argCount);
    var (f, j, sc1) := ParseFunc(E, ns, i, sc, argCount).value;
    if argCount == 0 {
      RowSpelled(E, ns, i, sc, 1);
      RowOfOne(E, sc, ns[i..j], f.body, sc1);
    } else {
      var t := TokenAt(ns, i);
      var sc' := if t == NBlock then sc + 1 else sc;
      CellsSpelled(E, ns, i + 2, sc', argCount);
      var k := ParseParams(E, ns, i + 2, sc', argCount).value.1;
      RowSpelled(E, ns, k, sc', 1);
      RowOfOne(E, sc', ns[k..j], f.body, sc1);
      FuncWhole(E, sc, ns, i, k, j, f, sc1);
    }
  }

  /** The reader of a function definition is its grammar. */
  lemma ReadFuncIff(E: Env, ns: seq<Node>, i: nat, sc: nat, argCount: nat, f: Func, j: nat, sc1: nat)
    requires i <= |ns|
    ensures ParseFunc(E, ns, i, sc, argCount) == Some((f, j, sc1))
       <==> |f.params| == argCount && i <= j <= |ns| && SpellsFunc(E, sc, ns[i..j], f, sc1)
  {
    hide ParseFunc, SpellsFunc;
    if ParseFunc(E, ns, i, sc, argCount) == Some((f, j, sc1)) { FuncSpelled(E, ns, i, sc, argCount); }
    if |f.params| == argCount && i <= j <= |ns| && SpellsFunc(E, sc, ns[i..j], f, sc1) {
      assert ns == ns[..i] + ns[i..j] + ns[j..];
      ReadFunc(E, sc, ns[..i], ns[i..j], ns[j..], f, sc1);
    }
  }

  /** From the nodes to the machine: where the stream spells the function f, the
      reader finds f, and its code at the front of the buffer runs as f means. */
  lemma SpelledFunctionRuns(W: World, E: Env, ns: seq<Node>, i: nat, sc: nat, f: Func, j: nat, sc1: nat, rest: seq<byte>,
                            s0: State, fuel: nat)
    returns (steps: nat, c: Cfg)
    requires i <= j <= |ns| && SpellsFunc(E, sc, ns[i..j], f, sc1) && |f.params| <= 6
    requires NeedS(f.body) <= 5 && AllWf(FuncCode(f)) && ArraysFitS(f.body) && !TailIf(f.body)
    requires Entry(W, s0, SlotsS(f.body)) && ExecFunc(W, f, ArgVals(s0, |f.params|), s0.mem, fuel) != Stuck
    ensures ParseFunc(E, ns, i, sc, |f.params|) == Some((f, j, sc1))
    ensures Steps(W, EncodeAll(FuncCode(f)) + rest, At(0, s0), steps) == Some(c)
    ensures match ExecFunc(W, f, ArgVals(s0, |f.params|), s0.mem, fuel)
            case Finished(v, m) => ReturnsWith(s0, c, v, m)
            case OutOfFuel => steps >= fuel && c.At?
            case _ => false
  {
    hide ParseFunc, FuncCode, EncodeAll, ExecFunc, Steps, AllWf, Entry, SpellsFunc, NeedS, ArraysFitS, TailIf, SlotsS;
    ReadFuncIff(E, ns, i, sc, |f.params|, f, j, sc1);
    steps, c := GeneratedFunctionRuns(W, E, ns, i, sc, |f.params|, rest, s0, fuel);
  }
}
