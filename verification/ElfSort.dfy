/** Symbols are sorted so that every local one precedes every other; relocations
    that name a symbol by its index follow it. */
module ElfSort {
  import opened Words
  import opened ElfNames
  import opened ElfModel

  /** Indices from i on of symbols that are, or are not, local. */
  function Select(syms: seq<Symbol>, i: nat, local: bool): (r: seq<nat>)
    requires i <= |syms|
    ensures forall n :: 0 <= n < |r| ==> i <= r[n] < |syms| && IsLocal(syms[r[n]]) == local
    ensures forall n, m :: 0 <= n < m < |r| ==> r[n] < r[m]
    decreases |syms| - i
  {
    if i == |syms| then []
    else if IsLocal(syms[i]) == local then [i] + Select(syms, i + 1, local)
    else Select(syms, i + 1, local)
  }

  /** The old index of each symbol of the sorted table. */
  function Order(syms: seq<Symbol>): seq<nat> {
    if |syms| <= 1 then seq(|syms|, i => i) else [0] + Select(syms, 1, true) + Select(syms, 1, false)
  }

  lemma {:induction false} SelectCounts(syms: seq<Symbol>, i: nat)
    requires i <= |syms|
    ensures |Select(syms, i, true)| + |Select(syms, i, false)| == |syms| - i
    decreases |syms| - i
  {
    if i < |syms| { SelectCounts(syms, i + 1); }
  }

  /** Every index is selected once. */
  lemma {:induction false} SelectHas(syms: seq<Symbol>, i: nat, k: nat)
    requires i <= k < |syms|
    ensures k in Select(syms, i, IsLocal(syms[k]))
    decreases |syms| - i
  {
    if k > i { SelectHas(syms, i + 1, k); }
  }

  ghost predicate Permutation(order: seq<nat>) {
    && (forall n :: 0 <= n < |order| ==> order[n] < |order|)
    && (forall n, m :: 0 <= n < m < |order| ==> order[n] != order[m])
    && (forall k :: 0 <= k < |order| ==> k in order)
  }

  /** The sort is a permutation that fixes index 0. */
  lemma OrderPermutes(syms: seq<Symbol>)
    ensures |Order(syms)| == |syms| && Permutation(Order(syms))
    ensures |syms| > 0 ==> Order(syms)[0] == 0
  {
    var order := Order(syms);
    if |syms| <= 1 {
      forall k | 0 <= k < |order| ensures k in order { assert order[k] == k; }
    } else {
      SelectCounts(syms, 1);
      forall k | 0 <= k < |order| ensures k in order {
        if k == 0 { assert order[0] == 0; } else { SelectHas(syms, 1, k); }
      }
    }
  }

  /** Locals come first, and symbols that are alike keep their order. */
  lemma OrderStable(syms: seq<Symbol>, p: nat, q: nat)
    requires 0 < p < q < |syms|
    ensures |Order(syms)| == |syms| && Order(syms)[p] < |syms| && Order(syms)[q] < |syms|
    ensures var a, b := syms[Order(syms)[p]], syms[Order(syms)[q]];
            if IsLocal(a) == IsLocal(b) then Order(syms)[p] < Order(syms)[q] else IsLocal(a)
  {
    SelectCounts(syms, 1);
  }

  /** Where the symbol with old index k is now. */
  function Place(order: seq<nat>, k: nat): (p: nat)
    requires k in order
    ensures p < |order| && order[p] == k
  {
    if order[0] == k then 0 else 1 + Place(order[1..], k)
  }

  function Sorted(syms: seq<Symbol>): (r: seq<Symbol>)
    ensures |r| == |syms|
  {
    OrderPermutes(syms);
    seq(|syms|, i requires 0 <= i < |syms| => syms[Order(syms)[i]])
  }

  /** A relocation after the sort of the table it refers to. */
  function Moved(r: Reloc, syms: seq<Symbol>, dynamic: bool): Reloc {
    if r.dynamic == dynamic && r.sym < |syms| && |syms| < TWO32 then
      OrderPermutes(syms);
      r.(sym := Place(Order(syms), r.sym))
    else r
  }

  function AllMoved(rs: seq<Reloc>, syms: seq<Symbol>, dynamic: bool): (r: seq<Reloc>)
    ensures |r| == |rs|
    ensures forall i :: 0 <= i < |rs| ==> r[i] == Moved(rs[i], syms, dynamic)
  {
    seq(|rs|, i requires 0 <= i < |rs| => Moved(rs[i], syms, dynamic))
  }

  /** A moved relocation denotes the symbol it denoted before. */
  lemma MovedDenotes(r: Reloc, syms: seq<Symbol>, dynamic: bool)
    requires r.dynamic == dynamic && r.sym < |syms| < TWO32
    ensures Moved(r, syms, dynamic).sym < |syms|
    ensures Sorted(syms)[Moved(r, syms, dynamic).sym] == syms[r.sym]
    ensures Moved(r, syms, dynamic).(sym := r.sym) == r
  {
    OrderPermutes(syms);
  }

  /** Number of the first symbol that is not local, or the table's length. */
  function FirstGlobal(syms: seq<Symbol>): (n: nat)
    ensures n <= |syms|
    ensures forall i :: 0 <= i < n ==> IsLocal(syms[i])
    ensures n < |syms| ==> !IsLocal(syms[n])
  {
    if syms == [] || !IsLocal(syms[0]) then 0 else 1 + FirstGlobal(syms[1..])
  }

  /** After the sort everything from the first non-local symbol on is non-local:
      sh_info is what gABI chapter 4 asks for. */
  lemma SortedSplit(syms: seq<Symbol>, i: nat)
    requires |syms| > 0 && IsLocal(syms[0]) && FirstGlobal(Sorted(syms)) <= i < |syms|
    ensures !IsLocal(Sorted(syms)[i])
  {
    OrderPermutes(syms);
    var f := FirstGlobal(Sorted(syms));
    if 0 < f < i { OrderStable(syms, f, i); }
  }

  // --------------------------------------------------------------- sorted again

  /** i, i + 1, ... */
  function Run(i: nat, n: nat): (r: seq<nat>)
    ensures |r| == n && forall k :: 0 <= k < n ==> r[k] == i + k
  {
    seq(n, k => i + k)
  }

  lemma {:induction false} SelectRun(syms: seq<Symbol>, i: nat, mid: nat)
    requires i <= mid <= |syms|
    requires forall k :: i <= k < mid ==> IsLocal(syms[k])
    requires forall k :: mid <= k < |syms| ==> !IsLocal(syms[k])
    ensures Select(syms, i, true) == Run(i, mid - i) && Select(syms, i, false) == Run(mid, |syms| - mid)
    decreases |syms| - i
  {
    if i < mid {
      SelectRun(syms, i + 1, mid);
    } else if i < |syms| {
      SelectGlobals(syms, i);
    }
  }

  lemma {:induction false} SelectGlobals(syms: seq<Symbol>, i: nat)
    requires i <= |syms|
    requires forall k :: i <= k < |syms| ==> !IsLocal(syms[k])
    ensures Select(syms, i, true) == [] && Select(syms, i, false) == Run(i, |syms| - i)
    decreases |syms| - i
  {
    if i < |syms| { SelectGlobals(syms, i + 1); }
  }

  /** The sorted table is a run of locals and a run of others. */
  lemma SortedRuns(syms: seq<Symbol>) returns (mid: nat)
    requires |syms| > 1
    ensures 1 <= mid <= |syms|
    ensures forall k :: 1 <= k < mid ==> IsLocal(Sorted(syms)[k])
    ensures forall k :: mid <= k < |syms| ==> !IsLocal(Sorted(syms)[k])
  {
    OrderPermutes(syms);
    SelectCounts(syms, 1);
    var locals, others := Select(syms, 1, true), Select(syms, 1, false);
    mid := 1 + |locals|;
    forall k | 1 <= k < mid ensures IsLocal(Sorted(syms)[k]) { assert Order(syms)[k] == locals[k - 1]; }
    forall k | mid <= k < |syms| ensures !IsLocal(Sorted(syms)[k]) { assert Order(syms)[k] == others[k - mid]; }
  }

  /** Sorting a sorted table changes nothing. */
  lemma SortedAgain(syms: seq<Symbol>)
    ensures Order(Sorted(syms)) == Run(0, |syms|)
    ensures Sorted(Sorted(syms)) == Sorted(syms)
  {
    hide IsLocal;
    var t := Sorted(syms);
    if |syms| > 1 {
      var mid := SortedRuns(syms);
      SelectRun(t, 1, mid);
      assert Order(t) == Run(0, |syms|) by { hide Sorted; }
    }
  }

  lemma {:induction false} PlaceInRun(i: nat, n: nat, k: nat)
    requires i <= k < i + n
    ensures k in Run(i, n) && Place(Run(i, n), k) == k - i
    decreases n
  {
    assert Run(i, n)[k - i] == k;
    if k > i {
      assert Run(i, n)[1..] == Run(i + 1, n - 1);
      PlaceInRun(i + 1, n - 1, k);
    }
  }

  lemma MovedAgain(rs: seq<Reloc>, syms: seq<Symbol>, dynamic: bool)
    ensures AllMoved(AllMoved(rs, syms, dynamic), Sorted(syms), dynamic) == AllMoved(rs, syms, dynamic)
  {
    var once := AllMoved(rs, syms, dynamic);
    SortedAgain(syms);
    forall i | 0 <= i < |once| ensures Moved(once[i], Sorted(syms), dynamic) == once[i] {
      if once[i].dynamic == dynamic && once[i].sym < |syms| < TWO32 {
        PlaceInRun(0, |syms|, once[i].sym);
      }
    }
  }

  // ---------------------------------------------------------------- in place

  function SymbolsOf(b: Binary, dynamic: bool): seq<Symbol>
    reads b
  {
    if dynamic then b.dynsymbols else b.symbols
  }

  /** The indices of the symbols that are, or are not, local, appended at pos. */
  method FillWith(order: array<nat>, start: nat, syms: seq<Symbol>, local: bool) returns (pos: nat)
    requires |syms| > 1 && start + |Select(syms, 1, local)| <= order.Length
    modifies order
    ensures pos == start + |Select(syms, 1, local)|
    ensures order[..pos] == old(order[..start]) + Select(syms, 1, local)
  {
    hide IsLocal;
    pos := start;
    for i := 1 to |syms|
      invariant pos + |Select(syms, i, local)| == start + |Select(syms, 1, local)|
      invariant order[..pos] + Select(syms, i, local) == old(order[..start]) + Select(syms, 1, local)
    {
      if IsLocal(syms[i]) == local {
        order[pos] := i;
        pos := pos + 1;
        assert order[..pos] == order[..pos - 1] + [i];
      }
    }
  }

  /** The locals, then the others. */
  method FillOrder(syms: seq<Symbol>) returns (order: array<nat>)
    requires |syms| > 1
    ensures fresh(order) && order[..] == Order(syms)
  {
    hide IsLocal, Select;
    order := new nat[|syms|];
    SelectCounts(syms, 1);
    order[0] := 0;
    var pos := FillWith(order, 1, syms, true);
    pos := FillWith(order, pos, syms, false);
    assert order[..] == order[..pos];
  }

  /** The sorted table, and where each symbol went. */
  method ApplyOrder(syms: seq<Symbol>, order: array<nat>) returns (tmp: seq<Symbol>, remap: array<nat>)
    requires |syms| > 1 && order[..] == Order(syms)
    ensures tmp == Sorted(syms) && fresh(remap) && remap.Length == |syms|
    ensures forall k :: 0 <= k < |syms| ==> k in Order(syms) && remap[k] == Place(Order(syms), k)
  {
    hide Order;
    var n := |syms|;
    OrderPermutes(syms);
    tmp := syms;
    remap := new nat[n];
    for i := 0 to n
      invariant |tmp| == n && order[..] == Order(syms)
      invariant forall k :: 0 <= k < i ==> tmp[k] == syms[Order(syms)[k]] && remap[Order(syms)[k]] == k
    {
      assert order[i] == Order(syms)[i];
      tmp := tmp[i := syms[order[i]]];
      remap[order[i]] := i;
    }
    assert tmp == Sorted(syms);
    forall k | 0 <= k < n ensures k in Order(syms) && remap[k] == Place(Order(syms), k) {
      assert Order(syms)[Place(Order(syms), k)] == k;
    }
  }

  /** Every relocation that indexes this table is fixed up. */
  method FixRelocs(b: Binary, syms: seq<Symbol>, remap: array<nat>, dynamic: bool)
    requires 1 < |syms| < TWO32 && remap.Length == |syms|
    requires forall k :: 0 <= k < |syms| ==> k in Order(syms) && remap[k] == Place(Order(syms), k)
    modifies b`relocs
    ensures b.relocs == AllMoved(old(b.relocs), syms, dynamic)
  {
    hide Order;
    OrderPermutes(syms);
    ghost var relocs := b.relocs;
    for i := 0 to |b.relocs|
      invariant |b.relocs| == |relocs|
      invariant forall k :: 0 <= k < i ==> b.relocs[k] == Moved(relocs[k], syms, dynamic)
      invariant forall k :: i <= k < |relocs| ==> b.relocs[k] == relocs[k]
    {
      var r := b.relocs[i];
      if r.dynamic == dynamic && r.sym < |syms| {
        b.relocs := b.relocs[i := r.(sym := remap[r.sym])];
      }
    }
  }

  /** lielf__sort_symbols_local_first */
  method SortSymbols(b: Binary, dynamic: bool)
    requires |SymbolsOf(b, dynamic)| < TWO32
    modifies b`symbols, b`dynsymbols, b`relocs
    ensures SymbolsOf(b, dynamic) == Sorted(old(SymbolsOf(b, dynamic)))
    ensures SymbolsOf(b, !dynamic) == old(SymbolsOf(b, !dynamic))
    ensures b.relocs == AllMoved(old(b.relocs), old(SymbolsOf(b, dynamic)), dynamic)
  {
    var syms := SymbolsOf(b, dynamic);
    if |syms| <= 1 {
      SmallTable(b.relocs, syms, dynamic);
      return;
    }
    var order := FillOrder(syms);
    var tmp, remap := ApplyOrder(syms, order);
    if dynamic { b.dynsymbols := tmp; } else { b.symbols := tmp; }
    FixRelocs(b, syms, remap, dynamic);
  }

  lemma SmallTable(rs: seq<Reloc>, syms: seq<Symbol>, dynamic: bool)
    requires |syms| <= 1
    ensures Sorted(syms) == syms && AllMoved(rs, syms, dynamic) == rs
  {
    OrderPermutes(syms);
    assert Sorted(syms) == syms;
    forall i | 0 <= i < |rs| ensures AllMoved(rs, syms, dynamic)[i] == rs[i] {}
  }
}
