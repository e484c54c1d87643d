/** Tables a build makes for the first time: those a running program needs are
    allocated, and so get an address and a place in the new segment; the others are
    not. */
module ElfDynamic {
  import opened Words
  import opened ElfNames
  import opened ElfModel
  import opened ElfSort
  import opened ElfTables
  import opened ElfLayout
  import opened ElfBuild
  import opened ElfRegular
  import opened ElfIdempotent
  import opened ElfAgain
  import opened ElfKept
  import opened ElfMapped

  // ------------------------------------------------------------- symbols and names

  /** A table of this name, made new, keeps what the later steps do not touch. */
  lemma MadeNew(ss: seq<Section>, blank: Section, t: Section, tt: seq<Section>)
    requires !Has(ss, blank.name) && t.name == blank.name && AllQuiet(Put(ss, blank, t), tt)
    ensures var i := |ss|;
            && i < |tt| && tt[i].name == blank.name && tt[i].flags == t.flags && (t.dirty ==> tt[i].dirty)
            && Find(tt, blank.name) == i
  {
    hide Find, Put;
    PutIndex(ss, blank, t);
    var mid, i := Put(ss, blank, t), |ss|;
    assert Quiet(mid[i], tt[i]);
    forall k | 0 <= k < i ensures tt[k].name != blank.name { assert Quiet(mid[k], tt[k]) && mid[k] == ss[k]; }
    FindUnique(tt, blank.name, i);
  }

  /** The steps of the table rebuild, and that nothing moves between them. */
  lemma Steps(im: Image)
    ensures var syms, dynsyms := Sorted(im.symbols), Sorted(im.dynsymbols);
            var a1 := WithSymTab(im.sections, syms, false);
            var a2 := WithStrTab(a1, syms, false);
            var a3 := WithSymTab(a2, dynsyms, true);
            && AllQuiet(a1, FinalSections(im)) && AllQuiet(a2, FinalSections(im)) && AllQuiet(a3, FinalSections(im))
            && AllQuiet(SymbolSections(im), FinalSections(im))
  {
    hide Sorted, WithSymTab, WithStrTab, RelasRebuilt, WithShStrTab, Linked, FinalRelocs, AllQuiet;
    var syms, dynsyms, rs := Sorted(im.symbols), Sorted(im.dynsymbols), FinalRelocs(im);
    var a1 := WithSymTab(im.sections, syms, false);
    StrQuiet(a1, syms, false);
    var a2 := WithStrTab(a1, syms, false);
    SymQuiet(a2, dynsyms, true);
    var a3 := WithSymTab(a2, dynsyms, true);
    StrQuiet(a3, dynsyms, true);
    var b := SymbolSections(im);
    RelasQuiet(b, rs);
    var c := RelasRebuilt(b, rs);
    NamesQuiet(c);
    LinksQuiet(WithShStrTab(c));
    QuietTrans(c, WithShStrTab(c), FinalSections(im));
    QuietTrans(b, c, FinalSections(im));
    QuietTrans(a3, b, FinalSections(im));
    QuietTrans(a2, a3, FinalSections(im));
    QuietTrans(a1, a2, FinalSections(im));
  }

  lemma SymMade(ss: seq<Section>, syms: seq<Symbol>, dynamic: bool, tt: seq<Section>)
    requires |syms| > 1 && !Has(ss, SymSectionName(dynamic)) && AllQuiet(WithSymTab(ss, syms, dynamic), tt)
    ensures var name := SymSectionName(dynamic);
            Has(tt, name) && tt[Find(tt, name)].dirty && Alloc(tt[Find(tt, name)].flags) == dynamic
  {
    hide Find, SymBytes, AllQuiet;
    var blank := NewTable(SymSectionName(dynamic), SymType(dynamic), dynamic, 8);
    EnsuredName(ss, blank);
    MadeNew(ss, blank, SymTabOf(blank, syms, dynamic), tt);
  }

  lemma StrMade(ss: seq<Section>, syms: seq<Symbol>, dynamic: bool, tt: seq<Section>)
    requires |syms| > 1 && !Has(ss, StrSectionName(dynamic)) && AllQuiet(WithStrTab(ss, syms, dynamic), tt)
    ensures var name := StrSectionName(dynamic);
            Has(tt, name) && tt[Find(tt, name)].dirty && Alloc(tt[Find(tt, name)].flags) == dynamic
  {
    hide Find, StrBytes, AllQuiet;
    var blank := NewTable(StrSectionName(dynamic), SHT_STRTAB, dynamic, 1);
    EnsuredName(ss, blank);
    MadeNew(ss, blank, StrTabOf(blank, syms, dynamic), tt);
  }

  /** Names that were missing stay missing until their own step. */
  lemma StillMissing(ss: seq<Section>, blank: Section, t: Section, name: Name)
    requires t.name == blank.name && name != blank.name && !Has(ss, name)
    ensures !Has(Put(ss, blank, t), name)
  {
    hide Find, Put;
    PutOther(ss, blank, t, name);
  }

  lemma SymKeepsMissing(ss: seq<Section>, syms: seq<Symbol>, dynamic: bool, name: Name)
    requires name != SymSectionName(dynamic) && !Has(ss, name)
    ensures !Has(WithSymTab(ss, syms, dynamic), name)
  {
    hide Find, Put, WithSymTab, SymAt;
    var blank, t := SymStep(ss, syms, dynamic);
    if |syms| > 1 || Has(ss, SymSectionName(dynamic)) { StillMissing(ss, blank, t, name); }
  }

  lemma StrKeepsMissing(ss: seq<Section>, syms: seq<Symbol>, dynamic: bool, name: Name)
    requires name != StrSectionName(dynamic) && !Has(ss, name)
    ensures !Has(WithStrTab(ss, syms, dynamic), name)
  {
    hide Find, Put, WithStrTab, StrAt;
    var blank, t := StrStep(ss, syms, dynamic);
    if |syms| > 1 || Has(ss, StrSectionName(dynamic)) { StillMissing(ss, blank, t, name); }
  }

  /** A table of symbols and its names, made by a build: allocated exactly when they
      are the dynamic ones. */
  lemma NewTables(im: Image, dynamic: bool)
    requires |SymsOf(im, dynamic)| > 1
    requires !Has(im.sections, SymSectionName(dynamic)) && !Has(im.sections, StrSectionName(dynamic))
    ensures var ss, sym, str := FinalSections(im), SymSectionName(dynamic), StrSectionName(dynamic);
            && Has(ss, sym) && ss[Find(ss, sym)].dirty && Alloc(ss[Find(ss, sym)].flags) == dynamic
            && Has(ss, str) && ss[Find(ss, str)].dirty && Alloc(ss[Find(ss, str)].flags) == dynamic
  {
    hide Find, Sorted, WithSymTab, WithStrTab, FinalSections, AllQuiet;
    RoleNames();
    var syms, dynsyms := Sorted(im.symbols), Sorted(im.dynsymbols);
    var a1 := WithSymTab(im.sections, syms, false);
    var a2 := WithStrTab(a1, syms, false);
    var a3 := WithSymTab(a2, dynsyms, true);
    Steps(im);
    SortedCounts(im);
    if dynamic {
      SymKeepsMissing(im.sections, syms, false, DYNSYM);
      SymKeepsMissing(im.sections, syms, false, DYNSTR);
      StrKeepsMissing(a1, syms, false, DYNSYM);
      StrKeepsMissing(a1, syms, false, DYNSTR);
      SymMade(a2, dynsyms, true, FinalSections(im));
      SymKeepsMissing(a2, dynsyms, true, DYNSTR);
      StrMade(a3, dynsyms, true, FinalSections(im));
    } else {
      SymMade(im.sections, syms, false, FinalSections(im));
      SymKeepsMissing(im.sections, syms, false, STRTAB);
      StrMade(a1, syms, false, FinalSections(im));
    }
  }

  lemma SortedCounts(im: Image)
    ensures |Sorted(im.symbols)| == |im.symbols| && |Sorted(im.dynsymbols)| == |im.dynsymbols|
  {
    hide Order;
  }

  // ------------------------------------------------------------------ relocations

  predicate RelaFlags(s: Section) { s.kind == RelaKind ==> Alloc(s.flags) == s.relaDynamic && s.dirty }

  predicate NewRelaFlags(ss: seq<Section>, n: nat) { n <= |ss| && forall i :: n <= i < |ss| ==> RelaFlags(ss[i]) }

  lemma PutRelaFlags(ss: seq<Section>, n: nat, blank: Section, t: Section)
    requires NewRelaFlags(ss, n) && t.name == blank.name && (t.kind != RelaKind || RelaFlags(t))
    ensures NewRelaFlags(Put(ss, blank, t), n)
  {
    hide Find, Put, RelaFlags;
    PutIndex(ss, blank, t);
    var r := Put(ss, blank, t);
    forall i | n <= i < |r| ensures RelaFlags(r[i]) { if i == Find(ss, blank.name) { OtherKind(t); } }
  }

  lemma OtherKind(t: Section)
    ensures t.kind != RelaKind ==> RelaFlags(t)
  {}

  lemma SymRelaFlags(ss: seq<Section>, n: nat, syms: seq<Symbol>, dynamic: bool)
    requires NewRelaFlags(ss, n)
    ensures NewRelaFlags(WithSymTab(ss, syms, dynamic), n)
  {
    hide Find, SymBytes;
    if |syms| > 1 {
      var blank := NewTable(SymSectionName(dynamic), SymType(dynamic), dynamic, 8);
      EnsuredName(ss, blank);
      var all := Ensured(ss, blank);
      PutRelaFlags(ss, n, blank, SymTabOf(all[Find(all, blank.name)], syms, dynamic));
    }
  }

  lemma StrRelaFlags(ss: seq<Section>, n: nat, syms: seq<Symbol>, dynamic: bool)
    requires NewRelaFlags(ss, n)
    ensures NewRelaFlags(WithStrTab(ss, syms, dynamic), n)
  {
    hide Find, StrBytes;
    if |syms| > 1 {
      var blank := NewTable(StrSectionName(dynamic), SHT_STRTAB, dynamic, 1);
      EnsuredName(ss, blank);
      var all := Ensured(ss, blank);
      PutRelaFlags(ss, n, blank, StrTabOf(all[Find(all, blank.name)], syms, dynamic));
    }
  }

  lemma {:induction false} AppendRelaFlags(ss: seq<Section>, n: nat, rs: seq<Reloc>)
    requires NewRelaFlags(ss, n)
    ensures NewRelaFlags(WithRelas(ss, rs), n)
    decreases |rs|
  {
    hide HasRela, RelaFlags;
    if rs != [] {
      AppendRelaFlags(ss, n, rs[..|rs| - 1]);
      NewRelaOne(rs[|rs| - 1]);
    }
  }

  lemma NewRelaOne(r: Reloc)
    ensures RelaFlags(NewRela(r.target, r.dynamic))
  {}

  lemma RestRelaFlags(ss: seq<Section>, n: nat, rs: seq<Reloc>)
    requires NewRelaFlags(ss, n)
    ensures NewRelaFlags(Linked(WithShStrTab(RelasRebuilt(ss, rs))), n)
  {
    hide Find, RelaBytes, WithRelas, StrTab;
    var a := Refilled(ss, rs);
    AppendRelaFlags(a, n, rs);
    var c := RelasRebuilt(ss, rs);
    var blank := NewTable(SHSTRTAB, SHT_STRTAB, false, 1);
    EnsuredName(c, blank);
    var all := Ensured(c, blank);
    var s := all[Find(all, SHSTRTAB)];
    PutRelaFlags(c, n, blank, Updated(s.(kind := ShStrTabKind, typ := SHT_STRTAB, entsize := 0), StrTab(SecNames(all))));
    LinkedRelaFlags(WithShStrTab(c), n);
  }

  lemma LinkedRelaFlags(ss: seq<Section>, n: nat)
    requires NewRelaFlags(ss, n)
    ensures NewRelaFlags(Linked(ss), n)
  {
    hide LinkedIn, RelaFlags;
    forall i | n <= i < |ss| ensures RelaFlags(Linked(ss)[i]) {
      assert RelaFlags(ss[i]);
      LinkRelaFlags(ss[i], ss);
    }
  }

  lemma LinkRelaFlags(s: Section, ss: seq<Section>)
    requires RelaFlags(s)
    ensures RelaFlags(LinkedIn(s, ss))
  {
    hide IndexOf;
  }

  /** So are the relocation sections a build makes. */
  lemma NewRelas(im: Image, i: nat)
    requires |im.sections| <= i < |FinalSections(im)| && FinalSections(im)[i].kind == RelaKind
    ensures FinalSections(im)[i].dirty && Alloc(FinalSections(im)[i].flags) == FinalSections(im)[i].relaDynamic
  {
    hide Sorted, WithSymTab, WithStrTab, RelasRebuilt, WithShStrTab, Linked, FinalRelocs;
    var n, syms, dynsyms := |im.sections|, Sorted(im.symbols), Sorted(im.dynsymbols);
    SymRelaFlags(im.sections, n, syms, false);
    var a1 := WithSymTab(im.sections, syms, false);
    StrRelaFlags(a1, n, syms, false);
    var a2 := WithStrTab(a1, syms, false);
    SymRelaFlags(a2, n, dynsyms, true);
    StrRelaFlags(WithSymTab(a2, dynsyms, true), n, dynsyms, true);
    RestRelaFlags(SymbolSections(im), n, FinalRelocs(im));
    assert RelaFlags(FinalSections(im)[i]);
  }

  // ------------------------------------------------------------------- in the file

  /** In an executable, then, the dynamic symbols and their names get a place in the
      new segment. */
  lemma DynamicMapped(im: Image)
    requires im.sections != [] && |im.dynsymbols| > 1 && !Has(im.sections, DYNSYM) && !Has(im.sections, DYNSTR)
    ensures var ss := FinalSections(im);
            IsNew(TablesDone(im), Find(ss, DYNSYM)) && IsNew(TablesDone(im), Find(ss, DYNSTR))
  {
    hide Find, FinalSections, FinalRelocs, Sorted, Alloc;
    NewTables(im, true);
    FirstBuild(im);
    DynTypes(im);
    NotAtZero(im, DYNSYM);
    NotAtZero(im, DYNSTR);
  }

  lemma NotAtZero(im: Image, name: Name)
    requires im.sections != [] && !Has(im.sections, name)
    ensures Has(FinalSections(im), name) ==> Find(FinalSections(im), name) > 0
  {
    hide Find, FinalSections;
    TablesQuiet(im);
    assert Quiet(im.sections[0], FinalSections(im)[0]);
  }

  lemma DynTypes(im: Image)
    requires |im.dynsymbols| > 1 && Done(FinalSections(im), Sorted(im.symbols), Sorted(im.dynsymbols), FinalRelocs(im))
    ensures var ss := FinalSections(im);
            && Has(ss, DYNSYM) && ss[Find(ss, DYNSYM)].typ == SHT_DYNSYM && Has(ss, DYNSTR) && ss[Find(ss, DYNSTR)].typ == SHT_STRTAB
  {
    hide Find, FinalSections, FinalRelocs, Order, RelasFilled, ShDone, LinkFact, SymBytes, StrTab;
    SortedCounts(im);
  }
}
