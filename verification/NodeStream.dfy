/** The prefix node stream the generator reads, and the trees it stands for. */
module NodeStream {
  import opened Words
  import opened Isa
  import opened Machine
  import opened Source
  import opened Select
  import opened Layout

  datatype Token =
    | TNumber | TString | TMString | NVariable | NAddress | TThis | NArray | TComma | NBlock
    | TOsb | TEq | TAddEq | TAdd | TSub | TMul | TEqEq | TLess | TLessEq
    | TCall | TIf | TWhile | TReturn | TAt | TDot | TOther

  /** One 8-byte node: a token, or the payload that follows one. */
  datatype Node = Tok(token: Token) | Raw(value: u64)

  /** What the surrounding state resolves: variable names in a scope to the
      address of their value, `$` likewise, and data offsets to pointers. */
  datatype Env = Env(lookup: (u64, nat) -> Option<u64>, self: nat -> Option<u64>, data: u64 -> u64)

  function TokenAt(ns: seq<Node>, i: nat): Token {
    if i < |ns| && ns[i].Tok? then ns[i].token else TOther
  }

  function Payload(ns: seq<Node>, i: nat): Option<u64> {
    if i < |ns| && ns[i].Raw? then Some(ns[i].value) else None
  }

  /** Nodes of the leaf at i, or 0 when a compound expression starts there. */
  function LeafSize(ns: seq<Node>, i: nat): nat {
    match TokenAt(ns, i)
    case TNumber => if i + 2 <= |ns| then 2 else 0
    case TString => if i + 2 <= |ns| then 2 else 0
    case TMString => if i + 2 <= |ns| then 2 else 0
    case NVariable => if i + 2 <= |ns| then 2 else 0
    case NAddress => if i + 2 <= |ns| then 2 else 0
    case TThis => 1
    case _ => 0
  }

  /** The number at i, when it folds into an instruction. */
  function SmallImmAt(ns: seq<Node>, i: nat): Option<nat> {
    match (TokenAt(ns, i), Payload(ns, i + 1))
    case (TNumber, Some(v)) => if v <= INT32_MAX then Some(v) else None
    case _ => None
  }

  function BinOpOf(t: Token): Option<BinOp> {
    match t
    case TAdd => Some(Add)
    case TSub => Some(Sub)
    case TMul => Some(Mul)
    case TEqEq => Some(EqEq)
    case TLess => Some(Less)
    case TLessEq => Some(LessEq)
    case _ => None
  }

  function LeafAt(E: Env, ns: seq<Node>, i: nat, sc: nat): (r: Option<Expr>)
    ensures r.Some? ==> IsLeaf(r.value) && LeafSize(ns, i) > 0 && i + LeafSize(ns, i) <= |ns|
  {
    match TokenAt(ns, i)
    case TNumber => (match Payload(ns, i + 1) case Some(v) => Some(Num(v)) case None => None)
    case TString => (match Payload(ns, i + 1) case Some(v) => Some(Str(E.data(v))) case None => None)
    case TMString => (match Payload(ns, i + 1) case Some(v) => Some(Str(E.data(v))) case None => None)
    case NAddress => (match Payload(ns, i + 1) case Some(v) => Some(Cell(v)) case None => None)
    case NVariable =>
      (match Payload(ns, i + 1)
       case Some(name) => (match E.lookup(name, sc) case Some(a) => Some(Cell(a)) case None => None)
       case None => None)
    case TThis => (match E.self(sc) case Some(a) => Some(Cell(a)) case None => None)
    case _ => None
  }

  /** The expression tree at i and the index behind it; None is one of the
      generator's errors. */
  function ParseExpr(E: Env, ns: seq<Node>, i: nat, sc: nat): (r: Option<(Expr, nat)>)
    ensures r.Some? ==> i < r.value.1 <= |ns|
    decreases |ns| - i, 1, 0
  {
    if i >= |ns| then None
    else if LeafSize(ns, i) > 0 then
      match LeafAt(E, ns, i, sc)
      case Some(e) => Some((e, i + LeafSize(ns, i)))
      case None => None
    else if TokenAt(ns, i) == NArray then
      match (Payload(ns, i + 1), Payload(ns, i + 3))
      case (Some(d), Some(count)) =>
        if TokenAt(ns, i + 2) != TComma then None
        else
          (match ParseList(E, ns, i + 4, sc, count)
           case Some((es, i')) => Some((Arr(E.data(d), es), i'))
           case None => None)
      case _ => None
    else if TokenAt(ns, i) == TCall then
      match ParseExpr(E, ns, i + 1, sc)
      case None => None
      case Some((c, i1)) =>
        (match ParseArgs(E, ns, i1, sc)
         case Some((es, i')) => Some((Call(c, es), i'))
         case None => None)
    else if IsPair(TokenAt(ns, i)) then
      match ParsePair(E, ns, i + 1, sc)
      case Some((a, b, i')) => Some((PairExpr(TokenAt(ns, i), a, b), i'))
      case None => None
    else None
  }

  /** Tokens that two expressions follow. */
  predicate IsPair(t: Token) { t in {TOsb, TEq, TAddEq} || BinOpOf(t).Some? }

  function PairExpr(t: Token, a: Expr, b: Expr): Expr
    requires IsPair(t)
  {
    if t == TOsb then Index(a, b)
    else if t == TEq then Assign(a, b)
    else if t == TAddEq then AddAssign(a, b)
    else Bin(BinOpOf(t).value, a, b)
  }

  /** Two expressions one after the other. */
  function ParsePair(E: Env, ns: seq<Node>, i: nat, sc: nat): (r: Option<(Expr, Expr, nat)>)
    requires i <= |ns|
    ensures r.Some? ==> i < r.value.2 <= |ns|
    decreases |ns| - i, 2, 0
  {
    match ParseExpr(E, ns, i, sc)
    case None => None
    case Some((a, i1)) =>
      match ParseExpr(E, ns, i1, sc)
      case None => None
      case Some((b, i2)) => Some((a, b, i2))
  }

  /** An argument list: a comma node with a count of at most six. */
  function ParseArgs(E: Env, ns: seq<Node>, i: nat, sc: nat): (r: Option<(Exprs, nat)>)
    requires i <= |ns|
    ensures r.Some? ==> i < r.value.1 <= |ns| && Len(r.value.0) <= 6
    decreases |ns| - i, 2, 0
  {
    match Payload(ns, i + 1)
    case Some(count) =>
      if TokenAt(ns, i) == TComma && count <= 6 then ParseList(E, ns, i + 2, sc, count) else None
    case None => None
  }

  function ParseList(E: Env, ns: seq<Node>, i: nat, sc: nat, n: nat): (r: Option<(Exprs, nat)>)
    requires i <= |ns|
    ensures r.Some? ==> i <= r.value.1 <= |ns| && Len(r.value.0) == n
    decreases |ns| - i, 2, n
  {
    if n == 0 then Some((Nil, i))
    else
      match ParseExpr(E, ns, i, sc)
      case None => None
      case Some((h, i1)) =>
        match ParseList(E, ns, i1, sc, n - 1)
        case Some((t, i2)) => Some((Cons(h, t), i2))
        case None => None
  }

  // -------------------------------------------------------------- statements

  /** What n statements leave: their tree, the index behind them, and the scope
      counter, which each block increments. */
  datatype Parsed = Parsed(st: Stmt, it: nat, sc: nat)

  /** n statements in a row. A block or comma node is not a tree of its own here:
      it adds its members to the work that is left. */
  function ParseStmts(E: Env, ns: seq<Node>, i: nat, sc: nat, n: nat): (r: Option<Parsed>)
    ensures r.Some? ==> i <= r.value.it && (n > 0 ==> i < r.value.it)
    decreases |ns| - i, 1
  {
    if n == 0 then Some(Parsed(Skip, i, sc))
    else if i >= |ns| then None
    else if TokenAt(ns, i) == NBlock || TokenAt(ns, i) == TComma then
      match Payload(ns, i + 1)
      case Some(m) =>
        ParseStmts(E, ns, i + 2, if TokenAt(ns, i) == NBlock then sc + 1 else sc, n - 1 + m)
      case None => None
    else
      match ParseStmt(E, ns, i, sc)
      case None => None
      case Some(Parsed(a, i1, sc1)) =>
        match ParseStmts(E, ns, i1, sc1, n - 1)
        case Some(Parsed(b, i2, sc2)) => Some(Parsed(Seq(a, b), i2, sc2))
        case None => None
  }

  function ParseStmt(E: Env, ns: seq<Node>, i: nat, sc: nat): (r: Option<Parsed>)
    requires i < |ns|
    ensures r.Some? ==> i < r.value.it
    decreases |ns| - i, 0
  {
    match TokenAt(ns, i)
    case TIf =>
      (match ParseTest(E, ns, i + 1, sc)
       case Some((c, p)) => Some(Parsed(If(c, p.st), p.it, p.sc))
       case None => None)
    case TWhile =>
      (match ParseTest(E, ns, i + 1, sc)
       case Some((c, p)) => Some(Parsed(While(c, p.st), p.it, p.sc))
       case None => None)
    case TReturn =>
      (match ParseExpr(E, ns, i + 1, sc)
       case Some((e, i1)) => Some(Parsed(Return(e), i1, sc))
       case None => None)
    case _ =>
      match ParseExpr(E, ns, i, sc)
      case Some((e, i1)) => Some(Parsed(ExprS(e), i1, sc))
      case None => None
  }

  /** A condition and the statement it guards. */
  function ParseTest(E: Env, ns: seq<Node>, i: nat, sc: nat): (r: Option<(Expr, Parsed)>)
    requires i <= |ns|
    ensures r.Some? ==> i < r.value.1.it
    decreases |ns| - i, 2
  {
    match ParseExpr(E, ns, i, sc)
    case None => None
    case Some((c, i1)) =>
      match ParseStmts(E, ns, i1, sc, 1)
      case Some(p) => Some((c, p))
      case None => None
  }

  // ----------------------------------------------------------- what it yields

  /** A parsed tree starts with a leaf token exactly when it is a leaf, and a
      parsed call has at most six arguments. */
  lemma LeafParse(E: Env, ns: seq<Node>, i: nat, sc: nat)
    requires ParseExpr(E, ns, i, sc).Some?
    ensures var (e, i') := ParseExpr(E, ns, i, sc).value;
            (IsLeaf(e) <==> LeafSize(ns, i) > 0) && (IsLeaf(e) ==> i' == i + LeafSize(ns, i))
            && (SmallImm(e) <==> SmallImmAt(ns, i).Some?)
            && (SmallImm(e) ==> SmallImmAt(ns, i).value == e.n)
  {}

  /** The cases of ParseExpr. */
  lemma ParseCases(E: Env, ns: seq<Node>, i: nat, sc: nat)
    ensures i >= |ns| ==> ParseExpr(E, ns, i, sc).None?
    ensures LeafSize(ns, i) > 0 ==> i < |ns| && ParseExpr(E, ns, i, sc) == LeafTree(E, ns, i, sc)
    ensures i < |ns| && IsPair(TokenAt(ns, i)) ==> ParseExpr(E, ns, i, sc) == PairTree(E, ns, i, sc)
    ensures NoTree(ns, i) ==> ParseExpr(E, ns, i, sc).None?
  {}

  /** No expression starts with this token. */
  predicate NoTree(ns: seq<Node>, i: nat) {
    LeafSize(ns, i) == 0 && TokenAt(ns, i) !in {NArray, TCall} && !IsPair(TokenAt(ns, i))
  }

  /** A leaf whose address is known: N_VARIABLE, N_ADDRESS or T_THIS. */
  predicate CellAt(ns: seq<Node>, i: nat) {
    TokenAt(ns, i) in {NVariable, NAddress, TThis} && LeafSize(ns, i) > 0
  }

  lemma CellParse(E: Env, ns: seq<Node>, i: nat, sc: nat)
    requires ParseExpr(E, ns, i, sc).Some?
    ensures ParseExpr(E, ns, i, sc).value.0.Cell? <==> CellAt(ns, i)
  {}

  function LeafTree(E: Env, ns: seq<Node>, i: nat, sc: nat): Option<(Expr, nat)> {
    match LeafAt(E, ns, i, sc)
    case Some(e) => Some((e, i + LeafSize(ns, i)))
    case None => None
  }

  function PairTree(E: Env, ns: seq<Node>, i: nat, sc: nat): Option<(Expr, nat)>
    requires i < |ns| && IsPair(TokenAt(ns, i))
  {
    match ParsePair(E, ns, i + 1, sc)
    case Some((a, b, i')) => Some((PairExpr(TokenAt(ns, i), a, b), i'))
    case None => None
  }

  lemma SmallParse(E: Env, ns: seq<Node>, i: nat, sc: nat)
    requires SmallImmAt(ns, i).Some?
    ensures ParseExpr(E, ns, i, sc) == Some((Num(SmallImmAt(ns, i).value), i + 2))
  {}

  lemma ParsedCallsFit(E: Env, ns: seq<Node>, i: nat, sc: nat)
    requires ParseExpr(E, ns, i, sc).Some?
    ensures CallsFit(ParseExpr(E, ns, i, sc).value.0)
    decreases |ns| - i, 0
  {
    if LeafSize(ns, i) == 0 {
      if TokenAt(ns, i) == NArray {
        ParsedListFits(E, ns, i + 4, sc, Payload(ns, i + 3).value);
      } else if TokenAt(ns, i) == TCall {
        ParsedCallsFit(E, ns, i + 1, sc);
        var i1 := ParseExpr(E, ns, i + 1, sc).value.1;
        ParsedListFits(E, ns, i1 + 2, sc, Payload(ns, i1 + 1).value);
      } else {
        ParsedCallsFit(E, ns, i + 1, sc);
        ParsedCallsFit(E, ns, ParseExpr(E, ns, i + 1, sc).value.1, sc);
      }
    }
  }

  lemma ParsedListFits(E: Env, ns: seq<Node>, i: nat, sc: nat, n: nat)
    requires i <= |ns| && ParseList(E, ns, i, sc, n).Some?
    ensures CallsFitAll(ParseList(E, ns, i, sc, n).value.0)
    decreases |ns| - i, 1, n
  {
    if n > 0 {
      ParsedCallsFit(E, ns, i, sc);
      ParsedListFits(E, ns, ParseExpr(E, ns, i, sc).value.1, sc, n - 1);
    }
  }
}
