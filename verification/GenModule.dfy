/** Many functions in one buffer. Each finished function is rotated to the front,
    so the latest comes first and the code of the enclosing function last; the
    table of starts follows. What finishing the enclosing function does to them
    is in GenFinish. */
module GenModule {
  import opened Words
  import opened Isa
  import opened IsaRoundTrip
  import opened Machine
  import opened Source
  import opened Select
  import opened Layout
  import opened Patch
  import opened NodeStream
  import opened FuncProof
  import opened GenState
  import GenExpr
  import opened GenStmt
  import opened GenFunc

  /** Every start, moved by n bytes. */
  function Shifted(starts: seq<nat>, n: nat): (r: seq<nat>)
    ensures |r| == |starts|
    ensures forall i :: 0 <= i < |starts| ==> r[i] == starts[i] + n
  {
    seq(|starts|, i requires 0 <= i < |starts| => starts[i] + n)
  }

  /** What the enclosing function consists of: statements of its own, and
      definitions between them. */
  datatype Item = Own(st: Stmt) | Define(f: Func)

  /** The buffer while the enclosing function is generated: the starts of the
      functions, the enclosing one first; the fields of its own `return` branches,
      where they were when they were emitted; and how many saved registers its
      statements have picked. */
  datatype Placement = Placement(data: seq<byte>, starts: seq<nat>, rets: seq<nat>, used: nat)

  /** A function's start is new, and the code that was there has moved. */
  function Moved(data: seq<byte>, starts: seq<nat>, n: nat): seq<nat> {
    (if data == [] then starts else Shifted(starts, n)) + [0]
  }

  /** The effect of each. A definition moves everything, but not what is
      remembered about the enclosing function's branches. */
  function Next(p: Placement, s: Item): Placement {
    match s
    case Own(st) =>
      Placement(p.data + EncodeAll(StmtCode(st, None)), p.starts, p.rets + RetOffs(st, |p.data|), MaxInt(p.used, NeedS(st)))
    case Define(f) =>
      var bytes := EncodeAll(FuncCode(f));
      p.(data := bytes + p.data, starts := Moved(p.data, p.starts, |bytes|))
  }

  /** What the buffer holds. */
  ghost predicate Shows(b: Buffer, p: Placement)
    reads b
  {
    b.data == p.data && b.reallocs == p.starts && b.rets == p.rets && b.fn.csUsed == Picked(0, p.used)
  }

  /** bufmove_dynamic: the stretch at `start` comes to the front. */
  method MoveToFront(b: Buffer, start: nat, length: nat)
    requires start + length <= |b.data|
    modifies b`data
    ensures b.data == old(b.data)[start..start + length] + old(b.data)[..start] + old(b.data)[start + length..]
  {
    if length == 0 || start == 0 {
      assert b.data == b.data[start..start + length] + b.data[..start] + b.data[start + length..];
      return;
    }
    var temp := b.data[start..start + length];
    b.data := temp + b.data[..start] + b.data[start + length..];
  }

  /** Every start but the last entry's moves with its code. */
  method ShiftStarts(b: Buffer, n: nat)
    requires |b.reallocs| > 0
    modifies b`reallocs
    ensures b.reallocs == Shifted(old(b.reallocs)[..|old(b.reallocs)| - 1], n) + [old(b.reallocs)[|old(b.reallocs)| - 1]]
  {
    ghost var starts := b.reallocs;
    for j := 0 to |b.reallocs| - 1
      invariant |b.reallocs| == |starts|
      invariant forall i :: 0 <= i < j ==> b.reallocs[i] == starts[i] + n
      invariant forall i :: j <= i < |starts| ==> b.reallocs[i] == starts[i]
    {
      b.reallocs := b.reallocs[j := b.reallocs[j] + n];
    }
  }

  /** codegen_func. The function's code is new and in front of everything else,
      and every earlier start has moved with what it points to. */
  method CodegenFunc(b: Buffer, argCount: nat) returns (ok: bool)
    requires b.Valid() && b.it <= |b.nodes| && argCount <= 6
    modifies b
    ensures var p := ParseFunc(b.env, b.nodes, old(b.it), old(b.scope), argCount);
            && (ok <==> p.Some? && NeedS(p.value.0.body) <= 5 && AllWf(FuncCode(p.value.0)))
            && (ok ==>
              var bytes := EncodeAll(FuncCode(p.value.0));
              && b.data == bytes + old(b.data) && b.reallocs == Moved(old(b.data), old(b.reallocs), |bytes|)
              && b.before == bytes + old(b.before) && b.code == old(b.code) && b.Valid()
              && b.it == p.value.1 <= |b.nodes| && b.scope == p.value.2
              && b.fn == old(b.fn) && b.rets == old(b.rets))
  {
    hide EncodeAll, FuncCode, NeedS, AllWf, ParseFunc;
    var outer, outerRets, save := b.fn, b.rets, |b.data|;
    ghost var before0, code0, data0, starts0 := b.before, b.code, b.data, b.reallocs;
    b.fn, b.rets := FnState({}, {}, 0), [];
    b.before, b.code := b.data, [];
    b.reallocs := b.reallocs + [0];
    assert b.Valid() by { NothingEncoded(); }
    ok := EmitFunc(b, argCount);
    if !ok { return; }
    b.fn, b.rets := outer, outerRets;
    ghost var bytes := EncodeAll(b.code);
    assert b.data == data0 + bytes;
    b.before, b.code := bytes + before0, code0;
    assert bytes + before0 + EncodeAll(code0) == bytes + data0;
    if save == 0 {
      assert b.data == bytes + data0;
      return;
    }
    var n := |b.data| - save;
    MoveToFront(b, save, n);
    assert (data0 + bytes)[save..save + n] == bytes && (data0 + bytes)[..save] == data0 && (data0 + bytes)[save + n..] == [];
    assert b.data == bytes + data0;
    ShiftStarts(b, n);
    assert (starts0 + [0])[..|starts0|] == starts0;
  }

  lemma NothingEncoded()
    ensures EncodeAll([]) == []
  {}

  /** A definition in the stream: the variable that will hold the function, for
      one without arguments an empty argument list, and the function. */
  function ParseAt(E: Env, ns: seq<Node>, i: nat, sc: nat, argCount: nat): (r: Option<(Func, nat, nat)>)
    requires i <= |ns|
    ensures r.Some? ==> i < r.value.1
  {
    if TokenAt(ns, i) !in {NVariable, TThis} || LeafSize(ns, i) == 0 || LeafAt(E, ns, i, sc).None? then None
    else
      var i1 := i + LeafSize(ns, i);
      if argCount > 0 then ParseFunc(E, ns, i1, sc + 1, argCount)
      else if TokenAt(ns, i1) == TComma && Payload(ns, i1 + 1) == Some(0) then ParseFunc(E, ns, i1 + 2, sc + 1, 0)
      else None
  }

  /** T_AT: the code of the name is generated and thrown away again. */
  method GenAt(b: Buffer, argCount: nat) returns (ok: bool)
    requires AtRest(b) && argCount <= 6
    modifies b
    ensures var p := ParseAt(b.env, b.nodes, old(b.it), old(b.scope), argCount);
            && (ok <==> p.Some? && NeedS(p.value.0.body) <= 5 && AllWf(FuncCode(p.value.0)))
            && (ok ==>
              var bytes := EncodeAll(FuncCode(p.value.0));
              && b.data == bytes + old(b.data) && b.reallocs == Moved(old(b.data), old(b.reallocs), |bytes|)
              && b.before == bytes + old(b.before) && b.code == old(b.code) && b.Valid()
              && b.it == p.value.1 <= |b.nodes| && b.scope == p.value.2
              && b.fn == old(b.fn) && b.rets == old(b.rets))
  {
    hide EncodeAll, FuncCode, NeedS, AllWf, ParseFunc, LeafAt, LeafSize;
    ok := GenName(b);
    if !ok { return; }
    if argCount == 0 {
      if TokenAt(b.nodes, b.it) != TComma || Payload(b.nodes, b.it + 1) != Some(0) { return false; }
      b.it := b.it + 2;
    }
    ok := CodegenFunc(b, argCount);
  }

  /** The name of a definition: its code is dropped, a scope begins. */
  method GenName(b: Buffer) returns (ok: bool)
    requires AtRest(b)
    modifies b`data, b`code, b`it, b`scope
    ensures var i := old(b.it);
            && (ok <==> TokenAt(b.nodes, i) in {NVariable, TThis} && LeafSize(b.nodes, i) > 0
                        && LeafAt(b.env, b.nodes, i, old(b.scope)).Some?)
            && (ok ==> b.Valid() && b.data == old(b.data) && b.code == old(b.code) && b.scope == old(b.scope) + 1
                       && b.it == i + LeafSize(b.nodes, i) <= |b.nodes|)
  {
    hide EncodeAll, LeafAt, LeafCode, LeafSize;
    var i, size := b.it, |b.data|;
    ghost var code0 := b.code;
    var t := TokenAt(b.nodes, i);
    if (t != NVariable && t != TThis) || LeafSize(b.nodes, i) == 0 { return false; }
    ok := b.GenLeaf(RAX, false, i);
    if !ok { return; }
    GenExpr.LeafInside(b.nodes, i);
    b.it := i + LeafSize(b.nodes, i);
    b.scope := b.scope + 1;
    LeafBytes(b.before, code0, LeafCode(LeafAt(b.env, b.nodes, i, old(b.scope)).value, RAX, false));
    b.data := b.data[..size];
    b.code := code0;
  }

  lemma LeafBytes(before: seq<byte>, c: seq<Instr>, more: seq<Instr>)
    ensures var all := before + EncodeAll(c + more);
            |before + EncodeAll(c)| <= |all| && all[..|before + EncodeAll(c)|] == before + EncodeAll(c)
  {
    hide EncodeAll;
    EncodeAllConcat(c, more);
    assert before + (EncodeAll(c) + EncodeAll(more)) == before + EncodeAll(c) + EncodeAll(more);
  }

  // ---------------------------------------------------------------- histories

  function After(p: Placement, steps: seq<Item>): Placement
    decreases |steps|
  {
    if steps == [] then p else After(Next(p, steps[0]), steps[1..])
  }

  /** The functions defined, in order. */
  function Defined(steps: seq<Item>): seq<Func> {
    if steps == [] then []
    else (match steps[0] case Own(_) => [] case Define(f) => [f]) + Defined(steps[1..])
  }

  /** The code of the enclosing function's own statements. */
  function Init(steps: seq<Item>): seq<byte> {
    if steps == [] then []
    else (match steps[0] case Own(st) => EncodeAll(StmtCode(st, None)) case Define(_) => []) + Init(steps[1..])
  }

  /** The functions' bytes, the latest first. */
  function Texts(fs: seq<Func>): seq<byte> {
    if fs == [] then [] else EncodeAll(FuncCode(fs[|fs| - 1])) + Texts(fs[..|fs| - 1])
  }

  /** Function i starts behind all that were defined later. */
  function StartOf(fs: seq<Func>, i: nat): nat
    requires i < |fs|
  {
    |Texts(fs[i + 1..])|
  }

  ghost predicate Placed(p: Placement, fs: seq<Func>, init: seq<byte>) {
    && p.data == Texts(fs) + init
    && |p.starts| == 1 + |fs|
    && p.starts[0] == |Texts(fs)|
    && forall i :: 0 <= i < |fs| ==> p.starts[i + 1] == StartOf(fs, i)
  }

  lemma DefineKeeps(p: Placement, f: Func, fs: seq<Func>, init: seq<byte>)
    requires Placed(p, fs, init) && init != []
    ensures Placed(Next(p, Define(f)), fs + [f], init)
  {
    hide EncodeAll, FuncCode;
    var next, all := Next(p, Define(f)), fs + [f];
    assert all[..|fs|] == fs;
    forall i | 0 <= i < |all|
      ensures next.starts[i + 1] == StartOf(all, i)
    {
      if i < |fs| {
        var later := fs[i + 1..];
        assert all[i + 1..] == later + [f] && (later + [f])[..|later|] == later;
        assert StartOf(all, i) == StartOf(fs, i) + |EncodeAll(FuncCode(f))|;
        assert next.starts[i + 1] == p.starts[i + 1] + |EncodeAll(FuncCode(f))|;
      } else {
        assert all[i + 1..] == [] && StartOf(all, i) == 0;
      }
    }
  }

  lemma OwnKeeps(p: Placement, st: Stmt, fs: seq<Func>, init: seq<byte>)
    requires Placed(p, fs, init)
    ensures Placed(Next(p, Own(st)), fs, init + EncodeAll(StmtCode(st, None)))
  {
    hide StartOf, Texts, EncodeAll, StmtCode, RetOffs;
    assert Texts(fs) + init + EncodeAll(StmtCode(st, None)) == Texts(fs) + (init + EncodeAll(StmtCode(st, None)));
  }

  lemma Assoc<T>(a: seq<T>, b: seq<T>, c: seq<T>)
    ensures a + b + c == a + (b + c) && a + [] == a && [] + a == a
  {}

  /** After any history, until the enclosing function is finished: latest function
      first, the enclosing function's code last, every start right. */
  lemma {:induction false} HistoryPlaced(p: Placement, steps: seq<Item>, fs: seq<Func>, init: seq<byte>)
    requires Placed(p, fs, init) && init != []
    ensures Placed(After(p, steps), fs + Defined(steps), init + Init(steps))
    decreases |steps|
  {
    hide EncodeAll, FuncCode, StmtCode, Placed, Next;
    Assoc(fs, [], []);
    Assoc(init, [], []);
    if steps != [] {
      var s, rest := steps[0], steps[1..];
      Assoc(Defined(rest), [], []);
      Assoc(Init(rest), [], []);
      match s
      case Own(st) =>
        var bytes := EncodeAll(StmtCode(st, None));
        OwnKeeps(p, st, fs, init);
        HistoryPlaced(Next(p, s), rest, fs, init + bytes);
        Assoc(init, bytes, Init(rest));
      case Define(f) =>
        DefineKeeps(p, f, fs, init);
        HistoryPlaced(Next(p, s), rest, fs + [f], init);
        Assoc(fs, [f], Defined(rest));
    }
  }

  lemma {:induction false} TextsSplit(fs: seq<Func>, i: nat)
    requires i < |fs|
    ensures Texts(fs) == Texts(fs[i + 1..]) + EncodeAll(FuncCode(fs[i])) + Texts(fs[..i])
    decreases |fs|
  {
    hide EncodeAll, FuncCode;
    var last := |fs| - 1;
    if i == last {
      assert fs[i + 1..] == [];
      assert [] + EncodeAll(FuncCode(fs[i])) == EncodeAll(FuncCode(fs[i]));
    } else {
      TextsSplit(fs[..last], i);
      var later := fs[i + 1..];
      assert later[|later| - 1] == fs[last] && later[..|later| - 1] == fs[..last][i + 1..];
      assert fs[..last][..i] == fs[..i];
    }
  }

  /** Until the enclosing function is finished, each function's bytes are at its start. */
  lemma FunctionAt(p: Placement, fs: seq<Func>, init: seq<byte>, i: nat)
    requires Placed(p, fs, init) && i < |fs|
    ensures CodeAt(p.data, p.starts[i + 1], FuncCode(fs[i]))
  {
    hide EncodeAll, FuncCode;
    TextsSplit(fs, i);
    var pre, text := Texts(fs[i + 1..]), EncodeAll(FuncCode(fs[i]));
    assert p.data == pre + text + (Texts(fs[..i]) + init);
    assert p.data[|pre|..|pre| + |text|] == text;
    assert p.starts[i + 1] == StartOf(fs, i);
    SizeIs(FuncCode(fs[i]));
  }
}
