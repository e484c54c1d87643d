/** The end of the enclosing function. Its patches go to the offsets that were
    remembered when they were taken, although every definition since has moved
    the code: they hit the function defined last, and whatever lies where a
    `return` of the enclosing function once was. */
module GenFinish {
  import opened Words
  import opened Isa
  import opened IsaRoundTrip
  import opened Machine
  import opened Source
  import opened Select
  import opened Layout
  import opened NodeStream
  import opened Patch
  import opened Returns
  import opened FuncProof
  import opened FuncTheorem
  import opened GenState
  import opened GenStmt
  import opened GenFunc
  import opened GenModule

  // ------------------------------------------------------------ what it writes

  const SUB_AT := 4
  const SLOTS_AT := 8
  const PROLOGUE_SIZE := 30

  /** emit_nop4 */
  function NopAt(d: seq<byte>, at: nat): (r: seq<byte>)
    requires at + 4 <= |d|
    ensures |r| == |d|
  {
    d[..at] + [0x0F, 0x1F, 0x40, 0x00] + d[at + 4..]
  }

  /** The first k saves looked at: one whose register was not picked is
      overwritten. */
  function DropTo(d: seq<byte>, n: nat, k: nat): (r: seq<byte>)
    requires k <= 5 && |d| >= PROLOGUE_SIZE
    ensures |r| == |d|
  {
    if k == 0 then d
    else
      var before := DropTo(d, n, k - 1);
      if SlotUsed(n, k - 1) then before else NopAt(before, SLOTS_AT + (k - 1) * 4)
  }

  function Dropped(d: seq<byte>, n: nat): (r: seq<byte>)
    requires |d| >= PROLOGUE_SIZE
    ensures |r| == |d|
  {
    if n == 0 then NopAt(DropTo(d, n, 5), SUB_AT) else DropTo(d, n, 5)
  }

  /** The branch of the last `return` ends the buffer. */
  predicate Cuts(d: seq<byte>, rets: seq<nat>) {
    |rets| > 0 && rets[|rets| - 1] + 4 == |d| && |d| >= 5 && d[|d| - 5] == 0xE9
  }


  /** Offsets inside the buffer, a whole branch apart, behind a prologue. */
  ghost predicate Recorded(p: Placement) {
    |p.data| >= PROLOGUE_SIZE && Spaced(p.rets, PROLOGUE_SIZE, |p.data|)
  }

  /** The bytes the branches are patched in, and the branches. */
  function Trimmed(p: Placement): (seq<byte>, seq<nat>)
    requires |p.data| >= PROLOGUE_SIZE
  {
    var d := Dropped(p.data, p.used);
    var cut := Cuts(d, p.rets);
    (if cut then d[..|d| - 5] else d, if cut then p.rets[..|p.rets| - 1] else p.rets)
  }

  lemma TrimmedFacts(p: Placement)
    requires Recorded(p)
    ensures var (d, rets) := Trimmed(p);
            && |p.data| - 5 <= |d| <= |p.data| && d == Dropped(p.data, p.used)[..|d|]
            && Spaced(rets, PROLOGUE_SIZE, |d|) && rets <= p.rets
            && (|d| < |p.data| ==> p.rets != [] && p.rets[|p.rets| - 1] + 4 == |p.data|)
  {
    hide Dropped;
  }

  /** The whole buffer when everything is done; None when a branch cannot reach
      the epilogue. */
  ghost function Completed(p: Placement): Option<seq<byte>>
    requires Recorded(p)
  {
    TrimmedFacts(p);
    var (d, rets) := Trimmed(p);
    if Reach(rets, |d|) then Some(PatchAll(d, rets, |d|) + EncodeAll(Epilogue(p.used))) else None
  }

  /** The no-ops, as they are written: at offsets taken before anything moved. */
  method WriteNops(b: Buffer, ghost n: nat)
    requires |b.data| >= PROLOGUE_SIZE && n <= 5 && b.fn.csUsed == Picked(0, n)
    modifies b`data
    ensures b.data == Dropped(old(b.data), n)
  {
    hide Picked;
    var used := 0;
    for k := 0 to 5
      invariant 0 <= used <= k && b.data == DropTo(old(b.data), n, k)
      invariant used == 0 <==> forall i: nat :: i < k ==> !SlotUsed(n, i)
    {
      UsedSlots(n, k);
      if SAVE_ORDER[k] in b.fn.csUsed {
        used := used + 1;
      } else {
        var at := SLOTS_AT + k * 4;
        b.data := b.data[..at] + [0x0F, 0x1F, 0x40, 0x00] + b.data[at + 4..];
      }
    }
    assert used == 0 <==> n == 0 by {
      if n > 0 { assert SlotUsed(n, 1); }
    }
    if used == 0 {
      b.data := b.data[..SUB_AT] + [0x0F, 0x1F, 0x40, 0x00] + b.data[SUB_AT + 4..];
    }
  }

  /** The end of codegen_func for the enclosing function, at the front of whose
      buffer other functions may lie by now. */
  method Finish(b: Buffer, ghost p: Placement) returns (ok: bool)
    requires Shows(b, p) && Recorded(p) && p.used <= 5
    modifies b`data, b`code, b`before, b`rets
    ensures ok <==> Completed(p).Some?
    ensures ok ==> b.Valid() && b.data == Completed(p).value
  {
    hide Dropped, PatchAll, EncodeAll, Epilogue, Reach, Picked;
    TrimmedFacts(p);
    WriteNops(b, p.used);
    var n := |b.rets|;
    if n > 0 && b.rets[n - 1] + 4 == |b.data| && |b.data| >= 5 && b.data[b.rets[n - 1] - 1] == 0xE9 {
      b.data := b.data[..|b.data| - 5];
      b.rets := b.rets[..n - 1];
    }
    assert (b.data, b.rets) == Trimmed(p);
    ok := PatchReturns(b);
    if !ok { return; }
    b.before, b.code := b.data, [];
    NothingEncoded();
    assert b.before + [] == b.before;
    EmitEpilogue(b, p.used);
    assert [] + Epilogue(p.used) == Epilogue(p.used);
  }
}
