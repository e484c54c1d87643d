/** Every tree the generator can be given has a stream: a printer, and the reader as
    its inverse. */
module Printer {
  import opened Words
  import opened Source
  import opened Select
  import opened Layout
  import opened NodeStream
  import opened GenFunc
  import opened Spelling
  import opened SpellingStmt
  import opened SpellingFunc

  /** The nodes of an expression. place gives the offset in the data block of a
      string or of an array's slots. */
  function Print(place: u64 -> u64, e: Expr): seq<Node>
    decreases e
  {
    match e
    case Num(n) => [Tok(TNumber), Raw(n)]
    case Str(p) => [Tok(TString), Raw(place(p))]
    case Cell(a) => [Tok(NAddress), Raw(a)]
    case Arr(p, elems) => [Tok(NArray), Raw(place(p)), Tok(TComma), Raw(Len(elems) % TWO64)] + PrintAll(place, elems)
    case Index(base, index) => [Tok(TOsb)] + Print(place, base) + Print(place, index)
    case Assign(target, value) => [Tok(TEq)] + Print(place, target) + Print(place, value)
    case AddAssign(target, value) => [Tok(TAddEq)] + Print(place, target) + Print(place, value)
    case Bin(Add, left, right) => [Tok(TAdd)] + Print(place, left) + Print(place, right)
    case Bin(Sub, left, right) => [Tok(TSub)] + Print(place, left) + Print(place, right)
    case Bin(Mul, left, right) => [Tok(TMul)] + Print(place, left) + Print(place, right)
    case Bin(EqEq, left, right) => [Tok(TEqEq)] + Print(place, left) + Print(place, right)
    case Bin(Less, left, right) => [Tok(TLess)] + Print(place, left) + Print(place, right)
    case Bin(LessEq, left, right) => [Tok(TLessEq)] + Print(place, left) + Print(place, right)
    case Call(callee, args) =>
      [Tok(TCall)] + Print(place, callee) + [Tok(TComma), Raw(Len(args) % TWO64)] + PrintAll(place, args)
  }

  function PrintAll(place: u64 -> u64, es: Exprs): seq<Node>
    decreases es
  {
    match es case Nil => [] case Cons(h, t) => Print(place, h) + PrintAll(place, t)
  }

  /** Calls have at most six arguments, and the slots of an array can be counted. */
  predicate Printable(e: Expr) {
    match e
    case Num(_) => true
    case Str(_) => true
    case Cell(_) => true
    case Arr(_, elems) => Len(elems) < TWO64 && AllPrintable(elems)
    case Index(base, index) => Printable(base) && Printable(index)
    case Assign(target, value) => Printable(target) && Printable(value)
    case AddAssign(target, value) => Printable(target) && Printable(value)
    case Bin(_, left, right) => Printable(left) && Printable(right)
    case Call(callee, args) => Len(args) <= 6 && Printable(callee) && AllPrintable(args)
  }

  predicate AllPrintable(es: Exprs) {
    match es case Nil => true case Cons(h, t) => Printable(h) && AllPrintable(t)
  }

  /** place undoes the data block's base. */
  ghost predicate Places(E: Env, place: u64 -> u64) { forall p: u64 :: E.data(place(p)) == p }

  lemma {:induction false} PrintSpells(E: Env, place: u64 -> u64, sc: nat, e: Expr)
    requires Places(E, place) && Printable(e)
    ensures Spells(E, sc, Print(place, e), e)
    decreases e
  {
    hide Spells, SpellsAll, PrintAll;
    if IsLeaf(e) {
      LeafPrinted(E, place, sc, e);
    } else if e.Arr? {
      PrintAllSpells(E, place, sc, e.elems);
      DataAt(E, place, e.data);
      ArraySpelled(E, sc, Print(place, e), place(e.data), Len(e.elems), PrintAll(place, e.elems), e.elems);
    } else if e.Call? {
      PrintSpells(E, place, sc, e.callee);
      PrintAllSpells(E, place, sc, e.args);
      CallSpelled(E, sc, Print(place, e), Print(place, e.callee), PrintAll(place, e.args), e.callee, e.args);
    } else {
      var (t, a, b) := Prefix(e).value;
      PrintSpells(E, place, sc, a);
      PrintSpells(E, place, sc, b);
      PairSpelled(E, sc, Print(place, e), Print(place, a), Print(place, b), e);
    }
  }

  lemma DataAt(E: Env, place: u64 -> u64, p: u64)
    requires Places(E, place)
    ensures E.data(place(p)) == p
  {}

  lemma LeafPrinted(E: Env, place: u64 -> u64, sc: nat, e: Expr)
    requires Places(E, place) && IsLeaf(e)
    ensures Spells(E, sc, Print(place, e), e)
  {
    if e.Str? { DataAt(E, place, e.ptr); }
  }

  lemma {:induction false} PrintAllSpells(E: Env, place: u64 -> u64, sc: nat, es: Exprs)
    requires Places(E, place) && AllPrintable(es)
    ensures SpellsAll(E, sc, PrintAll(place, es), es)
    decreases es
  {
    hide Spells, Print, Printable;
    match es
    case Nil =>
    case Cons(h, t) =>
      PrintSpells(E, place, sc, h);
      PrintAllSpells(E, place, sc, t);
  }

  /** The reader undoes the printer, wherever the nodes lie. */
  lemma PrintRead(E: Env, place: u64 -> u64, pre: seq<Node>, e: Expr, post: seq<Node>, sc: nat)
    requires Places(E, place) && Printable(e)
    ensures ParseExpr(E, pre + Print(place, e) + post, |pre|, sc) == Some((e, |pre| + |Print(place, e)|))
  {
    hide ParseExpr, Print, Spells;
    PrintSpells(E, place, sc, e);
    ReadSpelled(E, sc, pre, Print(place, e), post, e);
  }

  // ------------------------------------------------------------------- statements

  function Count(st: Stmt): nat { if st.Seq? then 1 + Count(st.rest) else 0 }

  /** Bodies are printed as blocks, whatever they hold. */
  function PrintRow(place: u64 -> u64, st: Stmt): seq<Node>
    decreases st, 0
  {
    match st
    case Skip => []
    case Seq(first, rest) => PrintOne(place, first) + PrintRow(place, rest)
    case _ => []
  }

  function PrintOne(place: u64 -> u64, s: Stmt): seq<Node>
    decreases s, 1
  {
    match s
    case If(c, body) => [Tok(TIf)] + Print(place, c) + PrintBlock(place, body)
    case While(c, body) => [Tok(TWhile)] + Print(place, c) + PrintBlock(place, body)
    case Return(e) => [Tok(TReturn)] + Print(place, e)
    case ExprS(e) => Print(place, e)
    case Skip => []
    case Seq(_, _) => []
  }

  /** A row between its braces. */
  function PrintBlock(place: u64 -> u64, st: Stmt): seq<Node>
    decreases st, 2
  {
    [Tok(NBlock), Raw(Count(st) % TWO64)] + PrintRow(place, st)
  }

  /** Rows of statements with printable expressions, short enough to be counted. */
  predicate RowPrintable(st: Stmt)
    decreases st, 0
  {
    st.Skip? || (st.Seq? && Count(st) < TWO64 && OnePrintable(st.first) && RowPrintable(st.rest))
  }

  predicate OnePrintable(s: Stmt)
    decreases s, 1
  {
    match s
    case If(c, body) => Printable(c) && RowPrintable(body)
    case While(c, body) => Printable(c) && RowPrintable(body)
    case Return(e) => Printable(e)
    case ExprS(e) => Printable(e)
    case Skip => false
    case Seq(_, _) => false
  }

  /** How many blocks are printed, each of which opens a scope. */
  function Blocks(st: Stmt): nat {
    match st
    case Seq(a, b) => Blocks(a) + Blocks(b)
    case If(_, body) => 1 + Blocks(body)
    case While(_, body) => 1 + Blocks(body)
    case Skip => 0
    case ExprS(_) => 0
    case Return(_) => 0
  }

  lemma {:induction false} RowPrinted(E: Env, place: u64 -> u64, sc: nat, st: Stmt)
    requires Places(E, place) && RowPrintable(st)
    ensures SpellsRow(E, sc, PrintRow(place, st), Count(st), st, sc + Blocks(st))
    decreases st, 0
  {
    hide SpellsRow, SpellsUnit, SpellsOne, PrintOne, OnePrintable, Print, Printable;
    if st.Seq? {
      var p := PrintOne(place, st.first);
      OnePrinted(E, place, sc, st.first);
      RowPrinted(E, place, sc + Blocks(st.first), st.rest);
      RowWith(E, sc, p, PrintRow(place, st.rest), Count(st.rest), st.first, st.rest, sc + Blocks(st.first), sc + Blocks(st));
    } else {
      RowNone(E, sc, [], Skip, sc);
    }
  }

  lemma {:induction false} OnePrinted(E: Env, place: u64 -> u64, sc: nat, s: Stmt)
    requires Places(E, place) && OnePrintable(s)
    ensures SpellsOne(E, sc, PrintOne(place, s), s, sc + Blocks(s))
    decreases s, 1
  {
    hide SpellsUnit, Spells, Print, PrintBlock, Printable, RowPrintable;
    match s
    case ExprS(e) => PrintSpells(E, place, sc, e);
    case Return(e) =>
      PrintSpells(E, place, sc, e);
      ReturnSpelled(E, sc, Print(place, e), e);
    case If(c, body) =>
      PrintSpells(E, place, sc, c);
      BlockPrinted(E, place, sc, body);
      TestSpelled(E, sc, Print(place, c), PrintBlock(place, body), c, body, sc + 1 + Blocks(body));
    case While(c, body) =>
      PrintSpells(E, place, sc, c);
      BlockPrinted(E, place, sc, body);
      TestSpelled(E, sc, Print(place, c), PrintBlock(place, body), c, body, sc + 1 + Blocks(body));
  }

  lemma {:induction false} BlockPrinted(E: Env, place: u64 -> u64, sc: nat, body: Stmt)
    requires Places(E, place) && RowPrintable(body)
    ensures SpellsUnit(E, sc, PrintBlock(place, body), body, sc + 1 + Blocks(body))
    decreases body, 2
  {
    hide SpellsRow, SpellsOne, PrintRow;
    RowPrinted(E, place, sc + 1, body);
    var q, m: u64 := PrintRow(place, body), Count(body) % TWO64;
    assert PrintBlock(place, body) == [Tok(NBlock), Raw(m)] + q;
  }

  /** The reader undoes the printer of statements, and its scope counter is ahead by
      the blocks. */
  lemma PrintRowRead(E: Env, place: u64 -> u64, pre: seq<Node>, st: Stmt, post: seq<Node>, sc: nat)
    requires Places(E, place) && RowPrintable(st)
    ensures ParseStmts(E, pre + PrintRow(place, st) + post, |pre|, sc, Count(st))
         == Some(Parsed(st, |pre| + |PrintRow(place, st)|, sc + Blocks(st)))
  {
    hide ParseStmts, PrintRow, SpellsRow;
    RowPrinted(E, place, sc, st);
    ReadRow(E, sc, pre, PrintRow(place, st), post, Count(st), st, sc + Blocks(st));
  }

  // -------------------------------------------------------------------- functions

  function PrintCells(ps: seq<u64>): seq<Node> {
    if ps == [] then [] else [Tok(NAddress), Raw(ps[0])] + PrintCells(ps[1..])
  }

  function PrintFunc(place: u64 -> u64, f: Func): seq<Node> {
    (if f.params == [] then [] else [Tok(TComma), Raw(|f.params| % TWO64)] + PrintCells(f.params)) + PrintBlock(place, f.body)
  }

  lemma {:induction false} CellsPrinted(E: Env, sc: nat, ps: seq<u64>)
    ensures SpellsCells(E, sc, PrintCells(ps), ps)
    decreases |ps|
  {
    if ps != [] {
      CellsPrinted(E, sc, ps[1..]);
      assert Spells(E, sc, [Tok(NAddress), Raw(ps[0])], Cell(ps[0]));
    }
  }

  lemma FuncPrinted(E: Env, place: u64 -> u64, sc: nat, f: Func)
    requires Places(E, place) && RowPrintable(f.body) && |f.params| < TWO64
    ensures SpellsFunc(E, sc, PrintFunc(place, f), f, sc + 1 + Blocks(f.body))
  {
    hide SpellsUnit, SpellsCells, PrintCells, PrintBlock;
    BlockPrinted(E, place, sc, f.body);
    CellsPrinted(E, sc, f.params);
    if f.params == [] { assert PrintFunc(place, f) == PrintBlock(place, f.body); }
  }

  /** The reader undoes the printer of functions. */
  lemma PrintFuncRead(E: Env, place: u64 -> u64, pre: seq<Node>, f: Func, post: seq<Node>, sc: nat)
    requires Places(E, place) && RowPrintable(f.body) && |f.params| < TWO64
    ensures |pre| <= |pre + PrintFunc(place, f) + post|
    ensures ParseFunc(E, pre + PrintFunc(place, f) + post, |pre|, sc, |f.params|)
         == Some((f, |pre| + |PrintFunc(place, f)|, sc + 1 + Blocks(f.body)))
  {
    hide ParseFunc, PrintFunc, SpellsFunc, Blocks;
    FuncPrinted(E, place, sc, f);
    ReadFunc(E, sc, pre, PrintFunc(place, f), post, f, sc + 1 + Blocks(f.body));
  }
}
