/** What the end of the enclosing function leaves of the functions defined in it:
    exactly which keep their bytes, what a call of those does, and what becomes of
    the others. */
module GenSurvive {
  import opened Words
  import opened Isa
  import opened IsaRoundTrip
  import opened Machine
  import opened Source
  import opened Select
  import opened Layout
  import opened Patch
  import opened Returns
  import opened FuncProof
  import opened FuncTheorem
  import opened GenFunc
  import opened GenModule
  import opened GenFinish

  // ------------------------------------------------------------------ histories

  /** The enclosing function with its prologue. */
  function Begin(): Placement { Placement(EncodeAll(Prologue(5)), [0], [], 0) }

  lemma BeginFacts()
    ensures |Begin().data| == PROLOGUE_SIZE && Recorded(Begin()) && Placed(Begin(), [], Begin().data)
  {
    hide EncodeAll, Size, Prologue;
    PrologueBytes(5);
    assert [] + Begin().data == Begin().data;
  }

  lemma PrologueBytes(n: nat)
    ensures |EncodeAll(Prologue(n))| == PROLOGUE_SIZE
  {
    hide Size, Prologue, EncodeAll;
    PrologueSize(n);
    SizeOne(Xor32(RAX, RAX));
    XorSize();
    SizeIs(Prologue(n));
  }

  lemma XorSize()
    ensures |Encode(Xor32(RAX, RAX))| == 2
  {}

  lemma NextRecorded(p: Placement, s: Item)
    requires Recorded(p)
    ensures Recorded(Next(p, s))
  {
    hide EncodeAll, FuncCode, StmtCode, StmtSize, RetOffs, Spaced, Size;
    var next := Next(p, s);
    match s
    case Own(st) =>
      EncodedSize(st, None);
      RetsSpaced(st, |p.data|);
      SpacedJoin(p.rets, RetOffs(st, |p.data|), PROLOGUE_SIZE, |p.data|, |next.data|);
    case Define(f) =>
      SpacedWider(p.rets, PROLOGUE_SIZE, |p.data|, PROLOGUE_SIZE, |next.data|);
  }

  lemma {:induction false} AfterRecorded(p: Placement, steps: seq<Item>)
    requires Recorded(p)
    ensures Recorded(After(p, steps))
    decreases |steps|
  {
    hide Next, Recorded;
    if steps != [] {
      NextRecorded(p, steps[0]);
      AfterRecorded(Next(p, steps[0]), steps[1..]);
    }
  }

  /** Every history of an enclosing function is well placed and can be finished. */
  lemma HistoryFacts(steps: seq<Item>)
    ensures var p := After(Begin(), steps);
            Recorded(p) && Placed(p, Defined(steps), Begin().data + Init(steps))
  {
    hide Recorded, Placed, After, EncodeAll, Prologue, Init;
    BeginFacts();
    AfterRecorded(Begin(), steps);
    assert Begin().data != [];
    HistoryPlaced(Begin(), steps, [], Begin().data);
    assert [] + Defined(steps) == Defined(steps);
  }

  // ------------------------------------------------------------------ the patches

  /** The field at p holds position y. */
  predicate Holds(p: nat, y: nat) { p <= y < p + 4 }

  /** A patched field holds its distance, everything else is as before. */
  lemma {:induction false} PatchedAt(bytes: seq<byte>, offs: seq<nat>, lo: int, target: int, y: nat)
    requires Spaced(offs, lo, |bytes|) && y < |bytes|
    ensures (forall n :: 0 <= n < |offs| ==> !Holds(offs[n], y)) ==> PatchAll(bytes, offs, target)[y] == bytes[y]
    ensures forall n :: 0 <= n < |offs| && Holds(offs[n], y) ==>
              PatchAll(bytes, offs, target)[y] == Imm32(target - (offs[n] + 4))[y - offs[n]]
    decreases |offs|
  {
    hide Imm32;
    if offs != [] {
      var last, rest := offs[|offs| - 1], offs[..|offs| - 1];
      var once := Patched(bytes, last, target);
      PatchedAt(once, rest, lo, target, y);
      assert once[y] == if Holds(last, y) then Imm32(target - (last + 4))[y - last] else bytes[y];
      if Holds(last, y) {
        forall n | 0 <= n < |rest| ensures !Holds(rest[n], y) { assert offs[n] + JMP_SIZE <= last; }
      }
    }
  }

  // ------------------------------------------------------- the function in front

  /** The function's code once saves that the enclosing function has no use for
      are gone. */
  function FrontCode(f: Func, n: nat): seq<Instr> { FuncSaving(f, MinNat(n, NeedS(f.body))) }

  function MinNat(a: nat, b: nat): nat { if a < b then a else b }

  lemma FrontWhole(f: Func, n: nat)
    ensures var rest := ParamCode(f.params, 0) + BodyCode(f.body) + Epilogue(NeedS(f.body));
            && FuncCode(f) == Prologue(NeedS(f.body)) + rest
            && FrontCode(f, n) == Prologue(MinNat(n, NeedS(f.body))) + rest
    ensures NeedS(f.body) <= n ==> FrontCode(f, n) == FuncCode(f)
  {
    hide Prologue, ParamCode, BodyCode, Epilogue;
  }

  lemma NopCode(a: seq<Instr>, i: Instr, tail: seq<Instr>, rest: seq<byte>)
    requires |Encode(i)| == 4
    ensures var d := EncodeAll(a + [i] + tail) + rest;
            Size(a) + 4 <= |d| && NopAt(d, Size(a)) == EncodeAll(a + [Nop4] + tail) + rest
  {
    hide Encode, EncodeAll;
    CodeBytes([], a, i, tail);
    CodeBytes([], a, Nop4, tail);
    SizeIs(a);
    NopBytes();
    var ea, et := EncodeAll(a), EncodeAll(tail);
    assert [] + EncodeAll(a + [i] + tail) == EncodeAll(a + [i] + tail);
    assert [] + EncodeAll(a + [Nop4] + tail) == EncodeAll(a + [Nop4] + tail);
    assert [] + ea == ea;
    NopMiddle(ea, Encode(i), et + rest);
    assert ea + Encode(i) + et + rest == ea + Encode(i) + (et + rest);
    assert ea + Encode(Nop4) + et + rest == ea + Encode(Nop4) + (et + rest);
  }

  lemma NopMiddle(a: seq<byte>, i: seq<byte>, post: seq<byte>)
    requires |i| == 4
    ensures NopAt(a + i + post, |a|) == a + [0x0F, 0x1F, 0x40, 0x00] + post
  {
    assert (a + i + post)[..|a|] == a && (a + i + post)[|a| + 4..] == post;
  }

  /** The front function while k saves have been looked at. */
  function HalfFront(m: nat, n: nat, k: nat, tail: seq<Instr>): seq<Instr>
    requires k <= 5
  {
    FrameHead(m) + SlotsTo(MinNat(n, m), k) + SaveSlots(m, k) + tail
  }

  lemma SlotKept(m: nat, n: nat, k: nat)
    requires k < 5
    ensures SaveSlot(MinNat(n, m), k) == if SlotUsed(n, k) then SaveSlot(m, k) else Nop4
    ensures !SlotUsed(n, k) ==> |Encode(SaveSlot(m, k))| == 4
  {
    FourBytes(m, k);
  }

  lemma HalfStep(m: nat, n: nat, k: nat, tail: seq<Instr>)
    requires k < 5
    ensures var a, more := FrameHead(m) + SlotsTo(MinNat(n, m), k), SaveSlots(m, k + 1) + tail;
            && HalfFront(m, n, k, tail) == a + [SaveSlot(m, k)] + more
            && HalfFront(m, n, k + 1, tail) == a + [SaveSlot(MinNat(n, m), k)] + more
            && Size(a) == SLOTS_AT + k * 4
  {
    hide SaveSlot, FrameHead, Size;
    HeadSize(m);
    SlotsSize(MinNat(n, m), k);
    SizeConcat(FrameHead(m), SlotsTo(MinNat(n, m), k));
  }

  lemma {:induction false} FrontDropping(m: nat, n: nat, k: nat, tail: seq<Instr>, rest: seq<byte>)
    requires k <= 5 && |EncodeAll(HalfFront(m, n, 0, tail)) + rest| >= PROLOGUE_SIZE
    ensures DropTo(EncodeAll(HalfFront(m, n, 0, tail)) + rest, n, k) == EncodeAll(HalfFront(m, n, k, tail)) + rest
  {
    hide EncodeAll, HalfFront, SaveSlot, SlotUsed, NopAt, Encode, Size, SaveSlots, FrameHead;
    if k > 0 {
      FrontDropping(m, n, k - 1, tail, rest);
      HalfStep(m, n, k - 1, tail);
      SlotKept(m, n, k - 1);
      if !SlotUsed(n, k - 1) {
        var a, more := FrameHead(m) + SlotsTo(MinNat(n, m), k - 1), SaveSlots(m, k) + tail;
        NopCode(a, SaveSlot(m, k - 1), more, rest);
      }
    }
  }

  /** The no-ops of the enclosing function, written over the front function. */
  lemma FrontDropped(f: Func, n: nat, rest: seq<byte>)
    ensures |EncodeAll(FuncCode(f)) + rest| >= PROLOGUE_SIZE
    ensures Dropped(EncodeAll(FuncCode(f)) + rest, n) == EncodeAll(FrontCode(f, n)) + rest
  {
    hide EncodeAll, Prologue, ParamCode, BodyCode, Epilogue, NopAt, Encode, Size, DropTo, SaveSlots, SlotsTo, FrameSub;
    var m := NeedS(f.body);
    var after := ParamCode(f.params, 0) + BodyCode(f.body) + Epilogue(m);
    var tail := [Xor32(RAX, RAX)] + after;
    FrontWhole(f, n);
    EncodeAllConcat(Prologue(m), after);
    PrologueBytes(m);
    FrontShape(m, n, after);
    FrontDropping(m, n, 5, tail, rest);
    if n == 0 {
      HeadSize(m);
      FourBytes(m, 0);
      FrameFacts(0);
      NopCode([Push(RBP), MovRR(RBP, RSP)], FrameSub(m), SaveSlots(0, 0) + tail, rest);
    }
  }

  lemma FrontShape(m: nat, n: nat, after: seq<Instr>)
    ensures var tail := [Xor32(RAX, RAX)] + after;
            && HalfFront(m, n, 0, tail) == Prologue(m) + after
            && HalfFront(m, n, 5, tail) == [Push(RBP), MovRR(RBP, RSP)] + [FrameSub(m)] + (SaveSlots(MinNat(n, m), 0) + tail)
            && Prologue(MinNat(n, m)) + after
               == [Push(RBP), MovRR(RBP, RSP)] + [FrameSub(MinNat(n, m))] + (SaveSlots(MinNat(n, m), 0) + tail)
            && (n != 0 ==> FrameSub(MinNat(n, m)) == FrameSub(m))
  {
    hide SaveSlots, Prologue, SlotsTo, HalfFront, SaveSlot;
    var low := MinNat(n, m);
    PrologueShape(m, after);
    PrologueShape(low, after);
    HalfEnds(m, n, [Xor32(RAX, RAX)] + after);
    if n != 0 { FrameFacts(m); FrameFacts(low); }
  }

  lemma HalfEnds(m: nat, n: nat, tail: seq<Instr>)
    ensures HalfFront(m, n, 0, tail) == [Push(RBP), MovRR(RBP, RSP)] + [FrameSub(m)] + (SaveSlots(m, 0) + tail)
    ensures HalfFront(m, n, 5, tail) == [Push(RBP), MovRR(RBP, RSP)] + [FrameSub(m)] + (SaveSlots(MinNat(n, m), 0) + tail)
  {
    hide SaveSlots, SaveSlot, SlotsTo, FrameSub;
    var low, head := MinNat(n, m), [Push(RBP), MovRR(RBP, RSP)];
    GenFunc.SlotsAll(low, 5);
    NoSlots();
    NoneYet(low);
    assert SlotsTo(low, 5) + [] == SlotsTo(low, 5);
    assert FrameHead(m) == head + [FrameSub(m)];
    hide FrameHead;
    HalfGroups(head, [FrameSub(m)], SaveSlots(m, 0), tail);
    HalfGroups(head, [FrameSub(m)], SaveSlots(low, 0), tail);
    assert head + [FrameSub(m)] + SlotsTo(low, 5) + [] + tail == head + [FrameSub(m)] + (SlotsTo(low, 5) + []) + tail;
  }

  lemma NoneYet(n: nat)
    ensures SlotsTo(n, 0) == []
  {}

  lemma HalfGroups<T>(a: seq<T>, b: seq<T>, c: seq<T>, tail: seq<T>)
    ensures a + b + [] + c + tail == a + b + (c + tail) && a + b + c + tail == a + b + (c + tail)
  {}

  lemma PrologueWf(n: nat)
    ensures AllWf(Prologue(n))
  {
    assert SaveSlots(n, 5) == [];
    assert SaveSlots(n, 0) == [SaveSlot(n, 0), SaveSlot(n, 1), SaveSlot(n, 2), SaveSlot(n, 3), SaveSlot(n, 4)];
  }

  /** Different needs make different prologues. */
  lemma PrologueTells(a: nat, b: nat)
    requires a < b <= 5
    ensures EncodeAll(Prologue(a)) != EncodeAll(Prologue(b))
  {
    hide EncodeAll, Encode;
    PrologueWf(a);
    PrologueWf(b);
    if EncodeAll(Prologue(a)) == EncodeAll(Prologue(b)) {
      EncodeAllInjective(Prologue(a), Prologue(b));
      var k := if a == 4 then 0 else a + 1;
      SlotOf(a, k);
      SlotOf(b, k);
    }
  }

  lemma SlotOf(n: nat, k: nat)
    requires k < 5
    ensures |Prologue(n)| > 3 + k && Prologue(n)[3 + k] == SaveSlot(n, k)
  {
    assert SaveSlots(n, 5) == [];
    assert SaveSlots(n, 0) == [SaveSlot(n, 0), SaveSlot(n, 1), SaveSlot(n, 2), SaveSlot(n, 3), SaveSlot(n, 4)];
  }

  // ------------------------------------------------------------ which are intact

  /** What the no-ops leave of function i. */
  function Left(fs: seq<Func>, i: nat, n: nat): seq<Instr>
    requires i < |fs|
  {
    if i == |fs| - 1 then FrontCode(fs[i], n) else FuncCode(fs[i])
  }

  lemma LastStart(fs: seq<Func>, i: nat)
    requires i < |fs|
    ensures i == |fs| - 1 ==> StartOf(fs, i) == 0
    ensures i < |fs| - 1 ==> StartOf(fs, i) >= |EncodeAll(FuncCode(fs[|fs| - 1]))|
  {
    hide EncodeAll, FuncCode;
    if i == |fs| - 1 {
      assert fs[i + 1..] == [];
    } else {
      assert fs[i + 1..][|fs[i + 1..]| - 1] == fs[|fs| - 1];
    }
  }

  /** Function i in the buffer behind the no-ops. */
  lemma NoppedAt(p: Placement, fs: seq<Func>, init: seq<byte>, i: nat)
    requires Placed(p, fs, init) && i < |fs| && |p.data| >= PROLOGUE_SIZE
    ensures var text, d := EncodeAll(Left(fs, i, p.used)), Dropped(p.data, p.used);
            && |text| == |EncodeAll(FuncCode(fs[i]))| && p.starts[i + 1] + |text| + |init| <= |d|
            && d[p.starts[i + 1]..p.starts[i + 1] + |text|] == text
  {
    hide EncodeAll, FuncCode, FrontCode, Dropped, Texts, StartOf, Size;
    var last := |fs| - 1;
    var front, rest, n := fs[last], Texts(fs[..last]) + init, p.used;
    FrontOf(p, fs, init);
    FrontDropped(front, n, rest);
    LastStart(fs, i);
    FunctionAt(p, fs, init, i);
    FunctionEnds(fs, i);
    SizeIs(FuncCode(fs[i]));
    if i < last {
      BehindFront(p.data, Dropped(p.data, n), EncodeAll(FuncCode(front)), EncodeAll(FrontCode(front, n)), rest, p.starts[i + 1],
                  |EncodeAll(FuncCode(fs[i]))|);
    }
  }

  lemma FrontOf(p: Placement, fs: seq<Func>, init: seq<byte>)
    requires Placed(p, fs, init) && fs != []
    ensures p.data == EncodeAll(FuncCode(fs[|fs| - 1])) + (Texts(fs[..|fs| - 1]) + init)
  {
    hide EncodeAll, FuncCode, StartOf;
  }

  /** What is behind the front function is the same before and after. */
  lemma BehindFront(d: seq<byte>, d': seq<byte>, whole: seq<byte>, left: seq<byte>, rest: seq<byte>, start: nat, n: nat)
    requires d == whole + rest && d' == left + rest && |d| == |d'| && |whole| <= start && start + n <= |d|
    ensures d'[start..start + n] == d[start..start + n]
  {}

  /** No patched field lies on the function's bytes, or only where it puts the
      bytes that are there anyway. */
  ghost predicate Spared(text: seq<byte>, start: nat, rets: seq<nat>, target: int) {
    forall n, y :: 0 <= n < |rets| && 0 <= y < |text| && Holds(rets[n], start + y) ==>
      text[y] == Imm32(target - (rets[n] + 4))[start + y - rets[n]]
  }

  /** Function i is defined last only if the enclosing function picked as many
      saved registers, and no field of a `return` of the enclosing function lies on
      it with other bytes. */
  ghost predicate Unharmed(p: Placement, fs: seq<Func>, i: nat)
    requires |p.data| >= PROLOGUE_SIZE && i < |fs|
  {
    && (i == |fs| - 1 ==> NeedS(fs[i].body) <= p.used)
    && Spared(EncodeAll(FuncCode(fs[i])), StartOf(fs, i), Trimmed(p).1, |Trimmed(p).0|)
  }

  /** Function i at its start in the finished buffer: as the no-ops leave it,
      where no field lies. */
  lemma FinishedAt(p: Placement, fs: seq<Func>, init: seq<byte>, i: nat, y: nat)
    requires Placed(p, fs, init) && Recorded(p) && |init| >= PROLOGUE_SIZE && Completed(p).Some?
    requires i < |fs| && y < |EncodeAll(FuncCode(fs[i]))|
    ensures var (d, rets) := Trimmed(p);
            var left, bytes, at := EncodeAll(Left(fs, i, p.used)), Completed(p).value, p.starts[i + 1] + y;
            && |left| == |EncodeAll(FuncCode(fs[i]))| && at < |d| <= |bytes|
            && p.starts[i + 1] + |left| <= |d|
            && ((forall n :: 0 <= n < |rets| ==> !Holds(rets[n], at)) ==> bytes[at] == left[y])
            && (forall n :: 0 <= n < |rets| && Holds(rets[n], at) ==>
                  bytes[at] == Imm32(|d| - (rets[n] + 4))[at - rets[n]])
  {
    hide EncodeAll, FuncCode, Left, Imm32, PatchAll, Trimmed, Dropped, Texts, StartOf, Holds, Epilogue;
    TrimmedFacts(p);
    var (d, rets) := Trimmed(p);
    NoppedAt(p, fs, init, i);
    var start, left, all := p.starts[i + 1], EncodeAll(Left(fs, i, p.used)), Dropped(p.data, p.used);
    PatchedAt(d, rets, PROLOGUE_SIZE, |d|, start + y);
    assert d[start + y] == all[start + y] == all[start..start + |left|][y];
  }

  lemma LeftByte(p: Placement, fs: seq<Func>, init: seq<byte>, i: nat, y: nat)
    requires Placed(p, fs, init) && Recorded(p) && |init| >= PROLOGUE_SIZE && Completed(p).Some?
    requires i < |fs| && y < |EncodeAll(FuncCode(fs[i]))|
    requires Spared(EncodeAll(Left(fs, i, p.used)), StartOf(fs, i), Trimmed(p).1, |Trimmed(p).0|)
    ensures var bytes, start, left := Completed(p).value, p.starts[i + 1], EncodeAll(Left(fs, i, p.used));
            |left| == |EncodeAll(FuncCode(fs[i]))| && start + |left| <= |bytes| && bytes[start + y] == left[y]
  {
    hide EncodeAll, FuncCode, Imm32, PatchAll, Trimmed, Dropped, Texts, StartOf, Completed, FrontCode, NeedS, Spaced, Size, Left;
    var (d, rets) := Trimmed(p);
    var at := p.starts[i + 1] + y;
    FinishedAt(p, fs, init, i, y);
    if n :| 0 <= n < |rets| && Holds(rets[n], at) {
      assert Completed(p).value[at] == Imm32(|d| - (rets[n] + 4))[at - rets[n]];
    }
  }

  /** Where no field lies, a function's code is what the no-ops leave of it. */
  lemma LeftStays(p: Placement, fs: seq<Func>, init: seq<byte>, i: nat)
    requires Placed(p, fs, init) && Recorded(p) && |init| >= PROLOGUE_SIZE && Completed(p).Some?
    requires i < |fs| && Spared(EncodeAll(Left(fs, i, p.used)), StartOf(fs, i), Trimmed(p).1, |Trimmed(p).0|)
    ensures CodeAt(Completed(p).value, p.starts[i + 1], Left(fs, i, p.used))
  {
    hide EncodeAll, FuncCode, Spared, Texts, StartOf, Completed, Spaced, Size, Left, Trimmed;
    var start, bytes, left := p.starts[i + 1], Completed(p).value, EncodeAll(Left(fs, i, p.used));
    SizeIs(Left(fs, i, p.used));
    NotEmpty(fs[i]);
    LeftByte(p, fs, init, i, 0);
    forall y | 0 <= y < |left| ensures bytes[start + y] == left[y] {
      LeftByte(p, fs, init, i, y);
    }
    assert bytes[start..start + |left|] == left;
  }

  lemma UnharmedStays(p: Placement, fs: seq<Func>, init: seq<byte>, i: nat)
    requires Placed(p, fs, init) && Recorded(p) && |init| >= PROLOGUE_SIZE && Completed(p).Some?
    requires i < |fs| && Unharmed(p, fs, i)
    ensures CodeAt(Completed(p).value, p.starts[i + 1], FuncCode(fs[i]))
  {
    hide EncodeAll, FuncCode, FrontCode, Spared, Texts, StartOf, Completed, Recorded, CodeAt, Trimmed;
    FrontWhole(fs[i], p.used);
    assert Left(fs, i, p.used) == FuncCode(fs[i]);
    LeftStays(p, fs, init, i);
  }

  lemma SpareWhenIntact(p: Placement, fs: seq<Func>, init: seq<byte>, i: nat)
    requires Placed(p, fs, init) && Recorded(p) && |init| >= PROLOGUE_SIZE && Completed(p).Some?
    requires i < |fs| && CodeAt(Completed(p).value, p.starts[i + 1], FuncCode(fs[i]))
    ensures Spared(EncodeAll(FuncCode(fs[i])), p.starts[i + 1], Trimmed(p).1, |Trimmed(p).0|)
  {
    hide EncodeAll, FuncCode, Imm32, PatchAll, Trimmed, Dropped, Texts, StartOf, Completed, FrontCode, NeedS, Spaced, Size;
    var (d, rets) := Trimmed(p);
    var start, bytes, text := p.starts[i + 1], Completed(p).value, EncodeAll(FuncCode(fs[i]));
    SizeIs(FuncCode(fs[i]));
    forall n, y | 0 <= n < |rets| && 0 <= y < |text| && Holds(rets[n], start + y)
      ensures text[y] == Imm32(|d| - (rets[n] + 4))[start + y - rets[n]]
    {
      FinishedAt(p, fs, init, i, y);
      assert bytes[start..start + |text|][y] == text[y];
    }
  }

  /** Which functions keep their bytes: exactly the unharmed ones. */
  lemma SurvivesIff(p: Placement, fs: seq<Func>, init: seq<byte>, i: nat)
    requires Placed(p, fs, init) && Recorded(p) && |init| >= PROLOGUE_SIZE && Completed(p).Some?
    requires i < |fs| && NeedS(fs[i].body) <= 5
    ensures CodeAt(Completed(p).value, p.starts[i + 1], FuncCode(fs[i])) <==> Unharmed(p, fs, i)
  {
    hide EncodeAll, FuncCode, Spared, Trimmed, Dropped, Texts, StartOf, Completed, CodeAt, NeedS;
    if Unharmed(p, fs, i) {
      UnharmedStays(p, fs, init, i);
    }
    if CodeAt(Completed(p).value, p.starts[i + 1], FuncCode(fs[i])) {
      SpareWhenIntact(p, fs, init, i);
      if i == |fs| - 1 { FrontIntact(p, fs, init); }
    }
  }

  lemma NotEmpty(f: Func)
    ensures |EncodeAll(FuncCode(f))| >= PROLOGUE_SIZE
    ensures EncodeAll(FuncCode(f))[..PROLOGUE_SIZE] == EncodeAll(Prologue(NeedS(f.body)))
    ensures forall n :: |EncodeAll(FrontCode(f, n))| >= PROLOGUE_SIZE
                        && EncodeAll(FrontCode(f, n))[..PROLOGUE_SIZE] == EncodeAll(Prologue(MinNat(n, NeedS(f.body))))
  {
    hide EncodeAll, Prologue, ParamCode, BodyCode, Epilogue;
    var m := NeedS(f.body);
    var after := ParamCode(f.params, 0) + BodyCode(f.body) + Epilogue(m);
    FrontWhole(f, 0);
    PrologueBytes(m);
    EncodeAllConcat(Prologue(m), after);
    forall n: nat
      ensures |EncodeAll(FrontCode(f, n))| >= PROLOGUE_SIZE
              && EncodeAll(FrontCode(f, n))[..PROLOGUE_SIZE] == EncodeAll(Prologue(MinNat(n, m)))
    {
      FrontWhole(f, n);
      PrologueBytes(MinNat(n, m));
      EncodeAllConcat(Prologue(MinNat(n, m)), after);
    }
  }

  /** The front function's prologue lies in front of every field, so it tells
      whether saves are gone. */
  lemma FrontIntact(p: Placement, fs: seq<Func>, init: seq<byte>)
    requires Placed(p, fs, init) && Recorded(p) && |init| >= PROLOGUE_SIZE && Completed(p).Some? && fs != []
    requires var last := |fs| - 1;
             NeedS(fs[last].body) <= 5 && CodeAt(Completed(p).value, p.starts[last + 1], FuncCode(fs[last]))
    ensures NeedS(fs[|fs| - 1].body) <= p.used
  {
    hide EncodeAll, FuncCode, Imm32, PatchAll, Trimmed, Dropped, Completed, FrontCode, Prologue;
    var i, f := |fs| - 1, fs[|fs| - 1];
    var m, bytes := NeedS(f.body), Completed(p).value;
    var (d, rets) := Trimmed(p);
    var text, left := EncodeAll(FuncCode(f)), EncodeAll(FrontCode(f, p.used));
    LastStart(fs, i);
    SizeIs(FuncCode(f));
    NotEmpty(f);
    TrimmedFacts(p);
    forall y | 0 <= y < PROLOGUE_SIZE ensures left[y] == text[y] {
      FinishedAt(p, fs, init, i, y);
      assert forall n :: 0 <= n < |rets| ==> !Holds(rets[n], y);
      assert bytes[0..0 + |text|][y] == text[y];
    }
    assert left[..PROLOGUE_SIZE] == text[..PROLOGUE_SIZE];
    if p.used < m { PrologueTells(p.used, m); }
  }

  // ------------------------------------------------------------------ the theorem

  /** The buffer of an enclosing function with these statements and definitions. */
  ghost predicate Completes(steps: seq<Item>) {
    Recorded(After(Begin(), steps)) && Completed(After(Begin(), steps)).Some?
  }

  /** A call of a function that the end of the enclosing function leaves unharmed,
      at the start the table gives, in the finished buffer, runs as its source
      means. */
  lemma DefinedFunctionCorrect(W: World, steps: seq<Item>, i: nat, s0: State, fuel: nat)
    returns (n: nat, c: Cfg)
    requires Completes(steps) && i < |Defined(steps)|
    requires Unharmed(After(Begin(), steps), Defined(steps), i)
    requires var f := Defined(steps)[i];
             && AllWf(FuncCode(f)) && FitsF(f) && !TailIf(f.body) && Entry(W, s0, SlotsS(f.body))
             && ExecFunc(W, f, ArgVals(s0, |f.params|), s0.mem, fuel) != Stuck
    ensures var p := After(Begin(), steps);
            |p.starts| == 1 + |Defined(steps)| && Steps(W, Completed(p).value, At(p.starts[i + 1], s0), n) == Some(c)
    ensures var f := Defined(steps)[i];
            match ExecFunc(W, f, ArgVals(s0, |f.params|), s0.mem, fuel)
            case Finished(v, m) => ReturnsWith(s0, c, v, m)
            case OutOfFuel => n >= fuel && c.At?
            case _ => false
  {
    hide EncodeAll, FuncCode, Steps, AllWf, ExecFunc, CodeAt, After, Begin, Completed, Unharmed, Init, Texts, StartOf, Recorded;
    var p, fs := After(Begin(), steps), Defined(steps);
    HistoryFacts(steps);
    BeginFacts();
    UnharmedStays(p, fs, Begin().data + Init(steps), i);
    n, c := FunctionCorrect(W, Completed(p).value, p.starts[i + 1], fs[i], s0, fuel);
  }

  // --------------------------------------------------------- returns at the end

  predicate HasReturn(st: Stmt) {
    match st
    case Skip => false
    case Seq(a, b) => HasReturn(a) || HasReturn(b)
    case ExprS(_) => false
    case If(_, b) => HasReturn(b)
    case While(_, b) => HasReturn(b)
    case Return(_) => true
  }

  /** The enclosing function defines nothing behind a `return` of its own. */
  predicate ReturnsLast(steps: seq<Item>) {
    steps == [] || ((steps[0].Own? && HasReturn(steps[0].st) ==> Defined(steps[1..]) == []) && ReturnsLast(steps[1..]))
  }

  lemma {:induction false} NoReturns(st: Stmt, base: nat)
    ensures RetOffs(st, base) == [] <==> !HasReturn(st)
  {
    hide StmtSize, Size, Code, CondCode;
    match st
    case Skip =>
    case ExprS(_) =>
    case Return(_) =>
    case Seq(a, b) => NoReturns(a, base); NoReturns(b, base + StmtSize(a));
    case If(c, b) => NoReturns(b, base + Size(CondCode(c)) + JCC_SIZE);
    case While(c, b) => NoReturns(b, base + Size(CondCode(c)) + JCC_SIZE);
  }

  /** Every recorded field lies in the enclosing function's code. */
  ghost predicate Behind(p: Placement) {
    |p.starts| > 0 && p.starts[0] <= |p.data| && p.data != [] && forall n :: 0 <= n < |p.rets| ==> p.rets[n] >= p.starts[0]
  }

  lemma BehindNext(p: Placement, s: Item)
    requires Behind(p) && (s.Define? ==> p.rets == [])
    ensures Behind(Next(p, s))
  {
    hide EncodeAll, FuncCode, StmtCode, StmtSize, RetOffs, NeedS;
    if s.Own? {
      RetsSpaced(s.st, |p.data|);
      var more := RetOffs(s.st, |p.data|);
      forall n | 0 <= n < |p.rets + more| ensures (p.rets + more)[n] >= p.starts[0] {
        if n >= |p.rets| { assert (p.rets + more)[n] == more[n - |p.rets|]; }
      }
    }
  }

  lemma {:induction false} BehindAfter(p: Placement, steps: seq<Item>)
    requires Behind(p) && ReturnsLast(steps) && (p.rets != [] ==> Defined(steps) == [])
    ensures Behind(After(p, steps))
    decreases |steps|
  {
    hide EncodeAll, FuncCode, StmtCode, RetOffs, NeedS, Behind, HasReturn;
    if steps != [] {
      if steps[0].Own? { NoReturns(steps[0].st, |p.data|); }
      BehindNext(p, steps[0]);
      BehindAfter(Next(p, steps[0]), steps[1..]);
    }
  }

  /** Then only the function defined last is at risk: everything keeps its bytes
      exactly when the enclosing function picked as many saved registers as that
      one. */
  lemma ReturnsLastSurvive(steps: seq<Item>, i: nat)
    requires Completes(steps) && ReturnsLast(steps) && i < |Defined(steps)| && NeedS(Defined(steps)[i].body) <= 5
    ensures var p, fs := After(Begin(), steps), Defined(steps);
            && |p.starts| == 1 + |fs|
            && (CodeAt(Completed(p).value, p.starts[i + 1], FuncCode(fs[i]))
                <==> (i == |fs| - 1 ==> NeedS(fs[i].body) <= p.used))
  {
    hide EncodeAll, FuncCode, CodeAt, After, Completed, Init, Recorded, Prologue, Trimmed, NeedS, Texts, Imm32;
    var p, fs := After(Begin(), steps), Defined(steps);
    var init := Begin().data + Init(steps);
    HistoryFacts(steps);
    BeginFacts();
    BehindAfter(Begin(), steps);
    TrimmedFacts(p);
    FunctionEnds(fs, i);
    SizeIs(FuncCode(fs[i]));
    var (d, rets) := Trimmed(p);
    assert Spared(EncodeAll(FuncCode(fs[i])), p.starts[i + 1], rets, |d|) by {
      forall n | 0 <= n < |rets| ensures rets[n] >= p.starts[0] { assert rets[n] == p.rets[n]; }
    }
    SurvivesIff(p, fs, init, i);
  }

  lemma FunctionEnds(fs: seq<Func>, i: nat)
    requires i < |fs|
    ensures StartOf(fs, i) + |EncodeAll(FuncCode(fs[i]))| <= |Texts(fs)|
  {
    hide EncodeAll, FuncCode;
    TextsSplit(fs, i);
  }
}
