/** The trees the code generator accepts, with names already resolved to cell
    addresses, and what they mean. Evaluation order is the generator's own. */
module Source {
  import opened Words
  import opened Isa
  import opened Machine

  datatype BinOp = Add | Sub | Mul | EqEq | Less | LessEq

  /** Num is T_NUMBER; Str a string literal, a pointer into the data block; Cell
      is N_VARIABLE, N_ADDRESS or T_THIS, a memory cell of known address; Arr is
      N_ARRAY, with the address of its slots. */
  datatype Expr =
    | Num(n: u64)
    | Str(ptr: u64)
    | Cell(addr: u64)
    | Arr(data: u64, elems: Exprs)
    | Index(base: Expr, index: Expr)
    | Assign(target: Expr, value: Expr)
    | AddAssign(target: Expr, value: Expr)
    | Bin(op: BinOp, left: Expr, right: Expr)
    | Call(callee: Expr, args: Exprs)

  datatype Exprs = Nil | Cons(head: Expr, tail: Exprs)

  /** Blocks and comma lists are Seq chains ending in Skip. */
  datatype Stmt =
    | Skip
    | Seq(first: Stmt, rest: Stmt)
    | ExprS(e: Expr)
    | If(cond: Expr, body: Stmt)
    | While(cond: Expr, body: Stmt)
    | Return(e: Expr)

  /** A function: the cells its arguments are stored to, and its body. */
  datatype Func = Func(params: seq<u64>, body: Stmt)

  function Len(es: Exprs): nat {
    match es case Nil => 0 case Cons(_, t) => 1 + Len(t)
  }

  predicate IsLeaf(e: Expr) { e.Num? || e.Str? || e.Cell? }

  predicate IsCompare(op: BinOp) { op.EqEq? || op.Less? || op.LessEq? }

  // ---------------------------------------------------------------- meaning

  datatype Val = Val(v: u64, mem: Mem)

  function Apply(op: BinOp, a: u64, b: u64): u64 {
    match op
    case Add => Add64(a, b)
    case Sub => Sub64(a, b)
    case Mul => Mul64(a, b)
    case EqEq => if a == b then 1 else 0
    case Less => if Signed64(a) < Signed64(b) then 1 else 0
    case LessEq => if Signed64(a) <= Signed64(b) then 1 else 0
  }

  /** Reading program data; touching the stack region has no meaning. */
  function Fetch(W: World, m: Mem, a: u64): Option<u64> {
    if DataOk(W, a) then Some(Load64(m, a)) else None
  }

  /** The value of e (or its address, for lvalues when `addr`), and the memory
      after it; None when evaluation reaches undefined behaviour. */
  function Eval(W: World, e: Expr, addr: bool, m: Mem): Option<Val>
    decreases e
  {
    match e
    case Num(n) => Some(Val(n, m))
    case Str(p) => Some(Val(p, m))
    case Cell(a) =>
      if addr then Some(Val(a, m))
      else (match Fetch(W, m, a) case Some(v) => Some(Val(v, m)) case None => None)
    case Arr(data, elems) =>
      (match EvalElems(W, elems, data, 0, m)
       case Some(m') => Some(Val(data, m'))
       case None => None)
    case Index(base, index) =>
      (match Eval(W, base, false, m)
       case None => None
       case Some(Val(b, m1)) =>
         match Eval(W, index, false, m1)
         case None => None
         case Some(Val(i, m2)) =>
           var a := Scaled(b, i);
           if addr then Some(Val(a, m2))
           else match Fetch(W, m2, a) case Some(v) => Some(Val(v, m2)) case None => None)
    case Assign(target, value) =>
      (match Eval(W, target, true, m)
       case None => None
       case Some(Val(a, m1)) =>
         match Eval(W, value, false, m1)
         case None => None
         case Some(Val(v, m2)) => if DataOk(W, a) then Some(Val(v, Store64(m2, a, v))) else None)
    case AddAssign(target, value) =>
      (match Eval(W, target, true, m)
       case None => None
       case Some(Val(a, m1)) =>
         match Eval(W, value, false, m1)
         case None => None
         case Some(Val(v, m2)) =>
           match Fetch(W, m2, a)
           case None => None
           case Some(old_) => Some(Val(Add64(old_, v), Store64(m2, a, Add64(old_, v)))))
    case Bin(op, left, right) =>
      (match Eval(W, left, false, m)
       case None => None
       case Some(Val(a, m1)) =>
         match Eval(W, right, false, m1)
         case None => None
         case Some(Val(b, m2)) => Some(Val(Apply(op, a, b), m2)))
    case Call(callee, args) =>
      // complex callee, complex arguments in order, then the leaves
      var c: Option<Val> := if IsLeaf(callee) then Some(Val(0, m)) else Eval(W, callee, false, m);
      if c.None? then None
      else
        var m2 := EvalComplex(W, args, c.value.mem);
        if m2.None? then None
        else
          var f := if IsLeaf(callee) then LeafVal(W, callee, m2.value) else Some(c.value.v);
          var vs := CallArgs(W, args, c.value.mem, m2.value);
          if f.None? || vs.None? || |vs.value| < W.arity(f.value) then None
          else
            var given := vs.value[..W.arity(f.value)];
            Some(Val(W.result(f.value, given, m2.value), W.effect(f.value, given, m2.value)))
  }

  /** Array elements are evaluated and stored one after another, 8 bytes apart. */
  function EvalElems(W: World, es: Exprs, data: u64, i: nat, m: Mem): Option<Mem>
    decreases es
  {
    match es
    case Nil => Some(m)
    case Cons(h, t) =>
      match Eval(W, h, false, m)
      case None => None
      case Some(Val(v, m1)) =>
        var a := Add64(data, 8 * i);
        if DataOk(W, a) then EvalElems(W, t, data, i + 1, Store64(m1, a, v)) else None
  }

  function LeafVal(W: World, e: Expr, m: Mem): Option<u64>
    requires IsLeaf(e)
  {
    match e
    case Num(n) => Some(n)
    case Str(p) => Some(p)
    case Cell(a) => Fetch(W, m, a)
  }

  /** The memory after the complex arguments ran, in order. */
  function EvalComplex(W: World, es: Exprs, m: Mem): Option<Mem>
    decreases es
  {
    match es
    case Nil => Some(m)
    case Cons(h, t) =>
      if IsLeaf(h) then EvalComplex(W, t, m)
      else match Eval(W, h, false, m)
        case None => None
        case Some(Val(_, m1)) => EvalComplex(W, t, m1)
  }

  /** The argument values: complex ones from their turn (m runs along them),
      leaves from the memory mf left by all of them. */
  function CallArgs(W: World, es: Exprs, m: Mem, mf: Mem): (r: Option<seq<u64>>)
    ensures r.Some? ==> |r.value| == Len(es)
    decreases es
  {
    match es
    case Nil => Some([])
    case Cons(h, t) =>
      if IsLeaf(h) then
        match (LeafVal(W, h, mf), CallArgs(W, t, m, mf))
        case (Some(v), Some(vs)) => Some([v] + vs)
        case _ => None
      else
        match Eval(W, h, false, m)
        case None => None
        case Some(Val(v, m1)) =>
          match CallArgs(W, t, m1, mf)
          case Some(vs) => Some([v] + vs)
          case None => None
  }

  // -------------------------------------------------------------- statements

  /** How a statement ends. acc is the value RAX holds, which a function that
      falls off its end returns. */
  datatype Outcome =
    | Normal(acc: u64, mem: Mem)
    | Finished(v: u64, mem: Mem)
    | Stuck
    | OutOfFuel

  /** A condition: is it true, the memory after it, and what it leaves in RAX. */
  datatype Test = Test(holds: bool, acc: u64, mem: Mem)

  /** A comparison is tested on its flags; RAX keeps the operand it was computed
      in, the right one when that is complex. */
  function EvalCond(W: World, c: Expr, m: Mem): Option<Test> {
    if c.Bin? && IsCompare(c.op) then
      match Eval(W, c.left, false, m)
      case None => None
      case Some(Val(a, m1)) =>
        match Eval(W, c.right, false, m1)
        case None => None
        case Some(Val(b, m2)) =>
          Some(Test(Apply(c.op, a, b) == 1, if IsLeaf(c.right) then a else b, m2))
    else
      match Eval(W, c, false, m)
      case None => None
      case Some(Val(v, m1)) => Some(Test(v != 0, v, m1))
  }

  /** Big-step meaning of a statement; fuel bounds the number of times any loop
      goes round. */
  function Exec(W: World, st: Stmt, acc: u64, m: Mem, fuel: nat): Outcome
    decreases fuel, st
  {
    match st
    case Skip => Normal(acc, m)
    case Seq(a, b) =>
      (match Exec(W, a, acc, m, fuel)
       case Normal(acc1, m1) => Exec(W, b, acc1, m1, fuel)
       case other => other)
    case ExprS(e) =>
      (match Eval(W, e, true, m)
       case Some(Val(v, m1)) => Normal(v, m1)
       case None => Stuck)
    case If(c, body) =>
      (match EvalCond(W, c, m)
       case None => Stuck
       case Some(Test(t, acc1, m1)) =>
         if t then Exec(W, body, acc1, m1, fuel) else Normal(acc1, m1))
    case While(c, body) =>
      if fuel == 0 then OutOfFuel
      else
        (match EvalCond(W, c, m)
         case None => Stuck
         case Some(Test(t, acc1, m1)) =>
           if !t then Normal(acc1, m1)
           else match Exec(W, body, acc1, m1, fuel - 1)
             case Normal(acc2, m2) => Exec(W, st, acc2, m2, fuel - 1)
             case other => other)
    case Return(e) =>
      match Eval(W, e, false, m)
      case Some(Val(v, m1)) => Finished(v, m1)
      case None => Stuck
  }

  /** The arguments are stored to their cells in order. */
  function StoreParams(W: World, params: seq<u64>, vals: seq<u64>, m: Mem): Option<Mem>
    requires |params| <= |vals|
    decreases |params|
  {
    if params == [] then Some(m)
    else if !DataOk(W, params[0]) then None
    else StoreParams(W, params[1..], vals[1..], Store64(m, params[0], vals[0]))
  }

  /** A whole call of f: Finished with what RAX holds, on `return` as on
      falling off the end; RAX starts at zero, or at the last parameter's
      address. */
  function ExecFunc(W: World, f: Func, vals: seq<u64>, m: Mem, fuel: nat): Outcome
    requires |f.params| <= |vals|
  {
    match StoreParams(W, f.params, vals, m)
    case None => Stuck
    case Some(m1) =>
      var acc := if f.params == [] then 0 else f.params[|f.params| - 1];
      match Exec(W, f.body, acc, m1, fuel)
      case Normal(acc1, m2) => Finished(acc1, m2)
      case other => other
  }
}
