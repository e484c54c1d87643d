/** The code generator as it works: one object with a growing byte buffer, a
    cursor into the node stream, the reserved registers and the push count, all
    updated in place. Every method is proved against the functions of Select and
    Layout; `code` is the list of instructions the bytes encode. */
module GenState {
  import opened Words
  import opened Bits
  import opened Isa
  import opened IsaRoundTrip
  import opened Machine
  import opened Source
  import opened Select
  import opened ExprBasics
  import opened NodeStream

  /** Registers reserved by pick, callee-saved registers used by the function,
      and pushes outstanding. */
  datatype FnState = FnState(busy: set<Reg>, csUsed: set<Reg>, depth: nat)

  /** r is one of n registers of the saved pool, from the k-th. */
  ghost predicate InSaved(r: Reg, k: nat, n: nat) { exists i :: k <= i < k + n && i < 5 && r == Saved(i) }

  ghost predicate InScratch(r: Reg, j: nat) { exists i :: 0 <= i < j && i < 7 && r == Scratch(i) }

  /** The first k of the saved pool and the first j of the scratch pool. */
  ghost function Reserved(k: nat, j: nat): set<Reg> {
    (set r: Reg | InSaved(r, 0, k)) + (set r: Reg | InScratch(r, j))
  }

  /** n registers of the saved pool, from the k-th. */
  ghost function Picked(k: nat, n: nat): set<Reg> {
    set r: Reg | InSaved(r, k, n)
  }

  lemma PoolsApart()
    ensures forall i, j :: 0 <= i < 5 && 0 <= j < 7 ==> Saved(i) != Scratch(j)
    ensures forall i, j :: 0 <= i < j < 7 ==> Scratch(i) != Scratch(j)
    ensures forall i, j :: 0 <= i < j < 5 ==> Saved(i) != Saved(j)
  {}

  lemma ReserveSaved(k: nat, j: nat)
    requires k < 5 && j <= 7
    ensures Saved(k) !in Reserved(k, j)
    ensures Reserved(k, j) + {Saved(k)} == Reserved(k + 1, j)
    ensures Reserved(k + 1, j) - {Saved(k)} == Reserved(k, j)
  {
    PoolsApart();
  }

  lemma ReserveScratch(k: nat, j: nat)
    requires k <= 5 && j < 7
    ensures Scratch(j) !in Reserved(k, j)
    ensures Reserved(k, j) + {Scratch(j)} == Reserved(k, j + 1)
    ensures Reserved(k, j + 1) - {Scratch(j)} == Reserved(k, j)
  {
    PoolsApart();
  }

  lemma PickedFacts(k: nat, n: nat, n': nat)
    ensures Picked(k, 0) == {}
    ensures Picked(k, n) + Picked(k, n') == Picked(k, MaxInt(n, n'))
    ensures k < 5 ==> {Saved(k)} + Picked(k + 1, n) == Picked(k, n + 1)
  {}

  /** Clearing the lowest bit leaves nothing exactly for powers of two. */
  lemma {:induction false} PowerTest(n: nat)
    ensures n > 0 && BitAnd(n, n - 1) == 0 <==> IsPow2(n)
  {
    if n > 1 {
      var m := n / 2;
      PowerTest(m);
      if n % 2 == 0 {
        assert (n - 1) / 2 == m - 1 && (n - 1) % 2 == 1;
      } else {
        assert (n - 1) / 2 == m && (n - 1) % 2 == 0;
        AndSelf(m);
      }
    }
  }

  lemma {:induction false} AndSelf(n: nat)
    ensures BitAnd(n, n) == n
  {
    if n > 0 { AndSelf(n / 2); }
  }

  class Buffer {
    /** buf->data[0 .. size] */
    var data: seq<byte>
    var fn: FnState
    var it: nat
    var scope: nat
    /** Offsets of the rel32 fields of `return` branches. */
    var rets: seq<nat>
    /** Where each function starts, in the order of definition. */
    var reallocs: seq<nat>
    const nodes: seq<Node>
    const env: Env

    /** What was in the buffer before this function, and the instructions since. */
    ghost var before: seq<byte>
    ghost var code: seq<Instr>

    constructor (nodes: seq<Node>, env: Env, data: seq<byte>)
      ensures Valid() && this.nodes == nodes && this.env == env
      ensures this.data == data && before == data && code == [] && it == 0 && scope == 0 && rets == [] && reallocs == []
      ensures fn == FnState({}, {}, 0)
    {
      this.nodes, this.env, this.data := nodes, env, data;
      fn, it, scope, rets, reallocs := FnState({}, {}, 0), 0, 0, [], [];
      before, code := data, [];
    }

    ghost predicate Valid()
      reads this
    {
      data == before + EncodeAll(code)
    }

    /** The state after an expression: its code appended, the cursor behind it,
        every register and push as before, n more saved registers used. */
    ghost predicate Produced(c0: seq<Instr>, f0: FnState, added: seq<Instr>, i': nat, k: nat, n: nat)
      reads this
    {
      code == c0 + added && it == i' && fn == f0.(csUsed := f0.csUsed + Picked(k, n))
    }

    method Emit(i: Instr)
      requires Valid()
      modifies this`data, this`code
      ensures Valid() && code == old(code) + [i]
      ensures data == old(data) + Encode(i)
    {
      hide Encode;
      EncodeAllConcat(code, [i]);
      EncodeAllOne(i);
      data := data + Encode(i);
      code := code + [i];
    }

    method EmitMov(dst: Reg, src: Reg)
      requires Valid()
      modifies this`data, this`code
      ensures Valid() && code == old(code) + Mov(dst, src)
    {
      if dst != src { Emit(MovRR(dst, src)); }
    }

    method EmitPush(r: Reg)
      requires Valid()
      modifies this`data, this`code, this`fn
      ensures Valid() && code == old(code) + [Push(r)]
      ensures fn == old(fn).(depth := old(fn).depth + 1)
    {
      Emit(Push(r));
      fn := fn.(depth := fn.depth + 1);
    }

    method EmitPop(r: Reg)
      requires Valid() && fn.depth > 0
      modifies this`data, this`code, this`fn
      ensures Valid() && code == old(code) + [Pop(r)]
      ensures fn == old(fn).(depth := old(fn).depth - 1)
    {
      Emit(Pop(r));
      fn := fn.(depth := fn.depth - 1);
    }

    // ------------------------------------------------------------- registers

    /** The first register of the pool that is neither reserved nor to avoid. */
    method RegPick(pool: seq<Reg>, avoid: Reg) returns (r: Option<Reg>, ghost at: nat)
      modifies this`fn
      ensures r.None? ==> fn == old(fn) && forall n :: 0 <= n < |pool| ==> pool[n] == avoid || pool[n] in fn.busy
      ensures r.Some? ==> at < |pool| && r.value == pool[at] && pool[at] != avoid && pool[at] !in old(fn.busy)
      ensures r.Some? ==> forall n :: 0 <= n < at ==> pool[n] == avoid || pool[n] in old(fn.busy)
      ensures r.Some? ==> fn == old(fn).(busy := old(fn.busy) + {r.value})
    {
      at := 0;
      for i := 0 to |pool|
        invariant fn == old(fn)
        invariant forall n :: 0 <= n < i ==> pool[n] == avoid || pool[n] in fn.busy
      {
        if pool[i] != avoid && pool[i] !in fn.busy {
          fn := fn.(busy := fn.busy + {pool[i]});
          at := i;
          return Some(pool[i]), at;
        }
      }
      r := None;
    }

    /** The saved pool is a stack: the k-th register, unless five are taken. */
    method PickSaved(avoid: Reg, ghost k: nat, ghost j: nat) returns (r: Option<Reg>)
      requires fn.busy == Reserved(k, j) && j <= k <= 5 && Volatile(avoid)
      modifies this`fn
      ensures r.Some? <==> k < 5
      ensures r.Some? ==> r.value == Saved(k) && fn.depth == old(fn.depth)
      ensures r.Some? ==> fn.busy == Reserved(k + 1, j) && fn.csUsed == old(fn.csUsed) + {Saved(k)}
    {
      ghost var at;
      SavedFacts();
      PoolsApart();
      if k < 5 { ReserveSaved(k, j); }
      r, at := RegPick(SAVED, avoid);
      assert forall i :: 0 <= i < 5 ==> SAVED[i] == Saved(i);
      if k < 5 {
        assert SAVED[k] !in old(fn.busy);
        assert forall i :: 0 <= i < k ==> SAVED[i] in old(fn.busy);
      } else {
        assert forall i :: 0 <= i < 5 ==> SAVED[i] in old(fn.busy);
      }
      if r.Some? {
        fn := fn.(csUsed := fn.csUsed + {r.value});
      }
    }

    /** So is the scratch pool, which five reserved registers never exhaust. */
    method PickScratch(avoid: Reg, ghost k: nat, ghost j: nat) returns (r: Option<Reg>)
      requires fn.busy == Reserved(k, j) && j <= k <= 5 && avoid != Scratch(j)
      modifies this`fn
      ensures r == Some(Scratch(j)) && fn == old(fn).(busy := Reserved(k, j + 1))
    {
      ghost var at;
      PoolsApart();
      ReserveScratch(k, j);
      r, at := RegPick(SCRATCH, avoid);
      assert forall i :: 0 <= i < 7 ==> SCRATCH[i] == Scratch(i);
      assert SCRATCH[j] !in old(fn.busy);
      assert forall i :: 0 <= i < j ==> SCRATCH[i] in old(fn.busy);
    }

    method RegFree(r: Reg)
      modifies this`fn
      ensures fn == old(fn).(busy := old(fn.busy) - {r})
    {
      fn := fn.(busy := fn.busy - {r});
    }

    // ----------------------------------------------------------------- pieces

    /** The number of doublings from one to n. */
    method ShiftCount(n: nat) returns (sh: nat)
      requires IsPow2(n)
      ensures sh == Log2(n)
    {
      sh := 0;
      Pow2Grows(0, Log2(n));
      while Pow2(sh) != n
        invariant sh <= Log2(n)
        decreases Log2(n) - sh
      {
        sh := sh + 1;
      }
      Pow2Grows(sh, Log2(n));
    }

    method GenAluImm(op: BinOp, dst: Reg, imm: nat)
      requires Valid()
      modifies this`data, this`code
      ensures Valid() && code == old(code) + AluImmCode(op, dst, imm)
    {
      hide Log2, Pow2;
      match op
      case Add => if imm != 0 { Emit(AluImm(AddOp, dst, imm)); }
      case Sub => if imm != 0 { Emit(AluImm(SubOp, dst, imm)); }
      case Mul =>
        if imm != 1 {
          PowerTest(imm);
          if imm > 0 && BitAnd(imm, imm - 1) == 0 {
            var sh := ShiftCount(imm);
            Emit(ShlImm(dst, sh));
          } else {
            Emit(ImulImm(dst, imm));
          }
        }
      case _ => Emit(AluImm(CmpOp, dst, imm));
    }

    /** The leaf whose nodes start at `at`, which may be behind the cursor. */
    method GenLeaf(reg: Reg, addr: bool, at: nat) returns (ok: bool)
      requires Valid() && LeafSize(nodes, at) > 0
      modifies this`data, this`code
      ensures Valid()
      ensures ok <==> LeafAt(env, nodes, at, scope).Some?
      ensures ok ==> code == old(code) + LeafCode(LeafAt(env, nodes, at, scope).value, reg, addr)
    {
      var e := LeafAt(env, nodes, at, scope);
      if e.None? { return false; }
      ok := true;
      match e.value
      case Num(n) => Emit(MovConst(reg, n));
      case Str(p) => Emit(MovImm64(reg, p));
      case Cell(a) =>
        if !addr && reg == RAX {
          Emit(LoadRaxAbs(a));
        } else {
          Emit(MovImm64(reg, a));
          if !addr { Emit(Load(reg, reg, 0)); }
        }
    }

    method EmitCall(ghost d: nat)
      requires Valid() && fn.depth == d
      modifies this`data, this`code
      ensures Valid() && code == old(code) + CallCode(d)
    {
      var align := fn.depth % 2 == 1;
      if align { Emit(AluImm(SubOp, RSP, 8)); }
      Emit(Xor32(RAX, RAX));
      Emit(CallReg(R11));
      if align { Emit(AluImm(AddOp, RSP, 8)); }
    }
  }

  lemma {:induction false} Pow2Grows(a: nat, b: nat)
    ensures a < b ==> Pow2(a) < Pow2(b)
    decreases b
  {
    if a < b {
      Pow2Grows(a, b - 1);
    }
  }
}
