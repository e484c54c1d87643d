/** From the node stream to the running machine: what the generator's success
    alone guarantees, and what a block means. */
module GenTheorem {
  import opened Words
  import opened Isa
  import opened IsaRoundTrip
  import opened Machine
  import opened Source
  import opened Select
  import opened ExprBasics
  import opened Layout
  import opened NodeStream
  import opened StmtProof
  import opened FuncProof
  import opened FuncTheorem
  import opened Patch
  import opened GenStmt
  import opened GenFunc

  // -------------------------------------------------------------------- blocks

  /** The members of a block are counted into the work that surrounds it. That is
      the same as doing them as a unit: n + m statements in a row are n statements
      and then m, in what they consume, in the scopes they open and in what they
      mean. */
  lemma {:induction false} WorkSplits(E: Env, ns: seq<Node>, i: nat, sc: nat, n: nat, m: nat)
    ensures var p := ParseStmts(E, ns, i, sc, n);
            var all := ParseStmts(E, ns, i, sc, n + m);
            && (all.Some? <==> p.Some? && ParseStmts(E, ns, p.value.it, p.value.sc, m).Some?)
            && (all.Some? ==>
              var q := ParseStmts(E, ns, p.value.it, p.value.sc, m).value;
              && all.value.it == q.it && all.value.sc == q.sc
              && SameMeaning(all.value.st, Seq(p.value.st, q.st)))
    decreases |ns| - i
  {
    hide ParseStmts, ParseStmt, Payload;
    WorkParse(E, ns, i, sc, n);
    WorkParse(E, ns, i, sc, n + m);
    if n == 0 {
      var q := ParseStmts(E, ns, i, sc, m);
      if q.Some? { SkipFirst(q.value.st); }
    } else if i < |ns| {
      if TokenAt(ns, i) in {NBlock, TComma} {
        if Payload(ns, i + 1).Some? {
          WorkSplits(E, ns, i + 2, if TokenAt(ns, i) == NBlock then sc + 1 else sc, n - 1 + Payload(ns, i + 1).value, m);
        }
      } else if ParseStmt(E, ns, i, sc).Some? {
        var a := ParseStmt(E, ns, i, sc).value;
        WorkSplits(E, ns, a.it, a.sc, n - 1, m);
        var p, all := ParseStmts(E, ns, a.it, a.sc, n - 1), ParseStmts(E, ns, a.it, a.sc, n - 1 + m);
        if all.Some? {
          SeqFirst(a.st, all.value.st, p.value.st, ParseStmts(E, ns, p.value.it, p.value.sc, m).value.st);
        }
      }
    }
  }

  /** The same outcome from every state, in every world. */
  ghost predicate SameMeaning(a: Stmt, b: Stmt) {
    forall W: World, acc: u64, m: Mem, fuel: nat :: Exec(W, a, acc, m, fuel) == Exec(W, b, acc, m, fuel)
  }

  lemma SkipFirst(q: Stmt)
    ensures SameMeaning(q, Seq(Skip, q))
  {
    forall W: World, acc: u64, m: Mem, fuel: nat
      ensures Exec(W, q, acc, m, fuel) == Exec(W, Seq(Skip, q), acc, m, fuel)
    {
      SeqExec(W, Seq(Skip, q), acc, m, fuel);
      assert Exec(W, Skip, acc, m, fuel) == Normal(acc, m);
    }
  }

  lemma SeqFirst(a: Stmt, all: Stmt, p: Stmt, q: Stmt)
    requires SameMeaning(all, Seq(p, q))
    ensures SameMeaning(Seq(a, all), Seq(Seq(a, p), q))
  {
    hide Exec;
    forall W: World, acc: u64, m: Mem, fuel: nat
      ensures Exec(W, Seq(a, all), acc, m, fuel) == Exec(W, Seq(Seq(a, p), q), acc, m, fuel)
    {
      SeqExec(W, Seq(a, all), acc, m, fuel);
      SeqExec(W, Seq(Seq(a, p), q), acc, m, fuel);
      SeqExec(W, Seq(a, p), acc, m, fuel);
      match Exec(W, a, acc, m, fuel)
      case Normal(acc1, m1) =>
        assert Exec(W, all, acc1, m1, fuel) == Exec(W, Seq(p, q), acc1, m1, fuel);
        SeqExec(W, Seq(p, q), acc1, m1, fuel);
      case _ =>
    }
  }

  // ------------------------------------------------------- what parsing ensures

  /** Every call of a parsed statement has at most six arguments. */
  lemma {:induction false} ParsedStmtFits(E: Env, ns: seq<Node>, i: nat, sc: nat, n: nat)
    requires ParseStmts(E, ns, i, sc, n).Some?
    ensures CallsFitS(ParseStmts(E, ns, i, sc, n).value.st)
    decreases |ns| - i, 1
  {
    hide ParseExpr, CallsFit, Payload;
    if n > 0 {
      if TokenAt(ns, i) == NBlock || TokenAt(ns, i) == TComma {
        ParsedStmtFits(E, ns, i + 2, if TokenAt(ns, i) == NBlock then sc + 1 else sc, n - 1 + Payload(ns, i + 1).value);
      } else {
        ParsedOneFits(E, ns, i, sc);
        var a := ParseStmt(E, ns, i, sc).value;
        ParsedStmtFits(E, ns, a.it, a.sc, n - 1);
      }
    }
  }

  lemma ParsedOneFits(E: Env, ns: seq<Node>, i: nat, sc: nat)
    requires i < |ns| && ParseStmt(E, ns, i, sc).Some?
    ensures CallsFitS(ParseStmt(E, ns, i, sc).value.st)
    decreases |ns| - i, 0
  {
    hide ParseExpr, CallsFit, ParseStmts;
    var t := TokenAt(ns, i);
    if t == TIf || t == TWhile {
      ParsedCallsFit(E, ns, i + 1, sc);
      ParsedStmtFits(E, ns, ParseExpr(E, ns, i + 1, sc).value.1, sc, 1);
    } else if t == TReturn {
      ParsedCallsFit(E, ns, i + 1, sc);
    } else {
      ParsedCallsFit(E, ns, i, sc);
    }
  }

  lemma ParsedFuncFits(E: Env, ns: seq<Node>, i: nat, sc: nat, argCount: nat)
    requires i <= |ns| && ParseFunc(E, ns, i, sc, argCount).Some?
    ensures var f := ParseFunc(E, ns, i, sc, argCount).value.0; CallsFitS(f.body) && |f.params| == argCount
  {
    hide ParseStmts, CallsFitS;
    if argCount == 0 {
      ParsedStmtFits(E, ns, i, sc, 1);
    } else {
      var sc1 := if TokenAt(ns, i) == NBlock then sc + 1 else sc;
      ParsedStmtFits(E, ns, ParseParams(E, ns, i + 2, sc1, argCount).value.1, sc1, 1);
    }
  }

  /** The generator's success is all it takes. For the function in the stream,
      what CodegenFunc puts at the front of the buffer when it succeeds runs as the
      function means, provided no array literal is so long that its offsets leave
      32 bits and the body does not end in a `return` inside an `if`. */
  lemma GeneratedFunctionRuns(W: World, E: Env, ns: seq<Node>, i: nat, sc: nat, argCount: nat, rest: seq<byte>, s0: State, fuel: nat)
    returns (steps: nat, c: Cfg)
    requires i <= |ns| && argCount <= 6 && ParseFunc(E, ns, i, sc, argCount).Some?
    requires var f := ParseFunc(E, ns, i, sc, argCount).value.0;
             && NeedS(f.body) <= 5 && AllWf(FuncCode(f))
             && ArraysFitS(f.body) && !TailIf(f.body)
             && Entry(W, s0, SlotsS(f.body)) && ExecFunc(W, f, ArgVals(s0, |f.params|), s0.mem, fuel) != Stuck
    ensures var f := ParseFunc(E, ns, i, sc, argCount).value.0;
            && Steps(W, EncodeAll(FuncCode(f)) + rest, At(0, s0), steps) == Some(c)
            && match ExecFunc(W, f, ArgVals(s0, |f.params|), s0.mem, fuel)
               case Finished(v, m) => ReturnsWith(s0, c, v, m)
               case OutOfFuel => steps >= fuel && c.At?
               case _ => false
  {
    hide ParseFunc, FuncCode, EncodeAll, ExecFunc, Steps, AllWf, Entry;
    var f := ParseFunc(E, ns, i, sc, argCount).value.0;
    ParsedFuncFits(E, ns, i, sc, argCount);
    AtFront(FuncCode(f), rest);
    steps, c := FunctionCorrect(W, EncodeAll(FuncCode(f)) + rest, 0, f, s0, fuel);
  }

  lemma AtFront(code: seq<Instr>, rest: seq<byte>)
    ensures CodeAt(EncodeAll(code) + rest, 0, code)
  {
    hide EncodeAll;
    SizeIs(code);
  }
}
