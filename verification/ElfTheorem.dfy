/** The main theorems about built files: loading gives the model back, and
    building again changes nothing. */
module ElfTheorem {
  import opened Words
  import opened ElfStruct
  import opened ElfNames
  import opened ElfModel
  import opened ElfSort
  import opened ElfTables
  import opened ElfLayout
  import opened ElfSafety
  import opened ElfFile
  import opened ElfLoad
  import opened ElfBuild
  import opened ElfRegular
  import opened ElfChain
  import opened ElfReadBack
  import opened ElfHeaders
  import opened ElfRoundTrip

  // -------------------------------------------------- what regeneration leaves

  /** Nothing is renamed or removed, and sections without a special role keep
      everything. */
  predicate Grown(ss: seq<Section>, tt: seq<Section>) {
    |ss| <= |tt| && forall i :: 0 <= i < |ss| ==>
      tt[i].name == ss[i].name && (ss[i].kind == Normal && RoleType(ss[i].name).None? ==> tt[i] == ss[i])
  }

  lemma GrownTrans(a: seq<Section>, b: seq<Section>, c: seq<Section>)
    requires Grown(a, b) && Grown(b, c)
    ensures Grown(a, c)
  {
    hide RoleType;
  }

  lemma GrownHas(ss: seq<Section>, tt: seq<Section>, name: Name)
    requires Grown(ss, tt) && Has(ss, name)
    ensures Has(tt, name)
  {
    hide Find, RoleType;
    var i := Find(ss, name);
    assert tt[i].name == name;
  }

  lemma GrownPut(ss: seq<Section>, blank: Section, t: Section)
    requires t.name == blank.name && RoleType(blank.name).Some?
    ensures Grown(ss, Put(ss, blank, t))
  {
    hide Find, Put, RoleType;
    PutIndex(ss, blank, t);
  }

  lemma GrownTable(ss: seq<Section>, syms: seq<Symbol>, dynamic: bool)
    requires Regular(ss) && |syms| < TWO32 && |StrBytes(syms)| < TWO32
    ensures Grown(ss, WithStrTab(WithSymTab(ss, syms, dynamic), syms, dynamic))
  {
    hide Find, Regular, SymBytes, StrBytes, SectionOk, Put, WithSymTab, WithStrTab, Grown, SymFact, StrFact;
    var mid := WithSymTab(ss, syms, dynamic);
    if |syms| > 1 || Has(ss, SymSectionName(dynamic)) {
      var blank, t := SymTabIsPut(ss, syms, dynamic);
      GrownPut(ss, blank, t);
      PutRegular(ss, blank, t);
    } else {
      NoSymTab(ss, syms, dynamic);
      GrownSame(ss);
    }
    if |syms| > 1 || Has(mid, StrSectionName(dynamic)) {
      var blank, t := StrTabIsPut(mid, syms, dynamic);
      GrownPut(mid, blank, t);
    } else {
      NoStrTab(mid, syms, dynamic);
      GrownSame(mid);
    }
    GrownTrans(ss, mid, WithStrTab(mid, syms, dynamic));
  }

  lemma GrownSame(ss: seq<Section>)
    ensures Grown(ss, ss)
  {}

  lemma GrownRelas(ss: seq<Section>, rs: seq<Reloc>)
    requires Regular(ss) && |rs| < TWO32 && TargetsOk(rs)
    ensures Grown(ss, RelasRebuilt(ss, rs))
  {
    hide Find, Regular, RelaOf, WithRelas, RoleType, NameOk;
    RefillRegular(ss, rs);
    var a := Refilled(ss, rs);
    AppendRelas(a, rs);
    var b := WithRelas(a, rs);
    RefillRegular(b, rs);
  }

  lemma GrownFinal(im: Image)
    requires Regular(im.sections) && Small(im) && TargetsOk(im.relocs)
    ensures Grown(im.sections, FinalSections(im))
  {
    hide Find, Regular, Sorted, WithSymTab, WithStrTab, RelasRebuilt, WithShStrTab, Linked, StrBytes, StrTab, NameOk, Grown,
         FinalRelocs, SymFact, StrFact, RelaFact;
    var syms, dynsyms, rs := Sorted(im.symbols), Sorted(im.dynsymbols), FinalRelocs(im);
    FinalTargets(im);
    TableStep(im.sections, syms, false, dynsyms);
    GrownTable(im.sections, syms, false);
    var a := WithStrTab(WithSymTab(im.sections, syms, false), syms, false);
    TableStep(a, dynsyms, true, syms);
    GrownTable(a, dynsyms, true);
    var b := SymbolSections(im);
    GrownTrans(im.sections, a, b);
    RelasStep(b, rs, syms, dynsyms);
    GrownRelas(b, rs);
    var c := RelasRebuilt(b, rs);
    GrownTrans(im.sections, b, c);
    LinkedNames(WithShStrTab(c));
    var blank, t := ShStrTabIsPut(c);
    GrownPut(c, blank, t);
    GrownTrans(im.sections, c, WithShStrTab(c));
    GrownLinked(WithShStrTab(c));
    GrownTrans(im.sections, WithShStrTab(c), FinalSections(im));
  }

  lemma GrownLinked(ss: seq<Section>)
    ensures Grown(ss, Linked(ss))
  {
    hide LinkedIn, RoleType;
    forall i | 0 <= i < |ss|
      ensures Linked(ss)[i].name == ss[i].name && (ss[i].kind == Normal ==> Linked(ss)[i] == ss[i])
    {
      LinkAlike(ss[i], ss);
    }
  }

  // ------------------------------------------------------------ the round trip

  /** Regular sections, relocation targets that exist, the null symbols in place,
      and nothing larger than its fields. */
  ghost predicate Orderly(im: Image) {
    && |im.ehdr.ident| == 16 && im.ehdr.ident[..6] == [0x7F, 0x45, 0x4C, 0x46, 2, 1]
    && Regular(im.sections) && Small(im) && TargetsOk(im.relocs) && |FinalSections(im)| < 0x1_0000
    && TableOkIn(im.symbols) && TableOkIn(im.dynsymbols)
    && (forall i :: 0 <= i < |im.relocs| ==> im.relocs[i].target == [] || Has(im.sections, im.relocs[i].target))
    && (forall i :: 0 <= i < |im.relocs| && im.relocs[i].dynamic ==> |im.dynsymbols| > 1 || Has(im.sections, DYNSYM))
    && Roomy(TablesDone(im))
  }

  /** An image that can come back, an executable as well: what keeps its place was
      apart before, and the program headers can be counted. */
  ghost predicate Loadable(im: Image) {
    Orderly(im) && KeptDisjoint(TablesDone(im)) && |SegmentsOut(TablesDone(im))| < 0x1_0000
  }

  /** A relocatable image, which has no program headers. */
  ghost predicate Returns(im: Image) { im.ehdr.etype == ET_REL && im.segments == [] && Orderly(im) }

  lemma ReturnsLoadable(im: Image)
    requires Returns(im)
    ensures Loadable(im)
    ensures Built(im).segments == [] && |SegmentsOut(TablesDone(im))| == 0
  {
    hide Orderly, KeptDisjoint, SegmentsOut, TablesDone;
    RelPlain(im);
  }

  /** Index 0 is the null symbol, and names are C strings. */
  predicate TableOkIn(syms: seq<Symbol>) {
    0 < |syms| && NamesOk(Names(syms)) && (if |syms| == 1 then syms[0] == NULL_SYMBOL else syms[0].name == [])
  }

  lemma SortedTableOk(syms: seq<Symbol>)
    requires TableOkIn(syms) && |syms| < TWO32 && |StrBytes(Sorted(syms))| < TWO32
    ensures SymsOk(Sorted(syms))
  {
    hide Order, StrBytes, StrTab, NameOk;
    if |syms| > 1 {
      SortedNames(syms);
    } else {
      SmallTable([], syms, false);
    }
  }

  lemma FinalLinkable(im: Image)
    requires Orderly(im)
    ensures Linkable(FinalSections(im), Sorted(im.symbols), Sorted(im.dynsymbols), FinalRelocs(im))
  {
    hide Regular, Small, TargetsOk, FinalSections, FinalRelocs, Facts, Sorted, SymsOk, TableOkIn, Roomy, Find, TablesDone, StrBytes;
    FinalFacts(im);
    GrownFinal(im);
    FinalTargets(im);
    SmallCounts(im);
    SortedTableOk(im.symbols);
    SortedTableOk(im.dynsymbols);
    var ss, rs := FinalSections(im), FinalRelocs(im);
    forall i | 0 <= i < |rs| ensures rs[i].target == [] || Has(ss, rs[i].target) {
      if rs[i].target != [] { GrownHas(im.sections, ss, rs[i].target); }
    }
    DynTable(im);
    if Has(im.sections, DYNSYM) { GrownHas(im.sections, ss, DYNSYM); }
  }

  lemma DynTable(im: Image)
    requires Facts(FinalSections(im), Sorted(im.symbols), Sorted(im.dynsymbols), FinalRelocs(im))
    ensures |im.dynsymbols| > 1 ==> Has(FinalSections(im), DYNSYM)
  {
    hide Find, FinalSections, FinalRelocs, Regular, SymBytes, RelaFact, LinkFact, ShFact, StrFact;
  }

  lemma RelPlain(im: Image)
    requires im.ehdr.etype == ET_REL && im.segments == []
    ensures IsRel(TablesDone(im)) && KeptDisjoint(TablesDone(im))
    ensures SegmentsOut(TablesDone(im)) == [] && Built(im).segments == [] && Built(im).ehdr.phnum == 0
    ensures TablesDone(im).ehdr == im.ehdr && Built(im).ehdr.ident == im.ehdr.ident
  {
    hide FinalSections, FinalRelocs, Sorted, MetaPart, AnyFresh, FreshSegment;
  }

  /** The file header apart from where and how many the tables are. */
  predicate SameButTables(e: Ehdr, f: Ehdr) {
    f.(phoff := e.phoff, phnum := e.phnum, shoff := e.shoff, shnum := e.shnum, shstrndx := e.shstrndx) == e
  }

  lemma BuiltHeader(im: Image)
    ensures TablesDone(im).ehdr == im.ehdr && Built(im).ehdr.ident == im.ehdr.ident && SameButTables(im.ehdr, Built(im).ehdr)
    ensures Built(im).segments == SegmentsOut(TablesDone(im)) && Built(im).ehdr.phnum == |Built(im).segments| % 0x1_0000
  {
    hide FinalSections, FinalRelocs, Sorted, MetaPart, SegmentsOut;
  }

  lemma RegularBytes(ss: seq<Section>)
    requires Regular(ss)
    ensures BytesOk(ss)
  {
    hide RoleOk, IsRela, NameOk;
    forall i | 1 <= i < |ss| && Carries(ss[i]) ensures |ss[i].data| == ss[i].size && ss[i].typ != SHT_NULL {
      assert SectionOk(ss[i]);
    }
  }

  lemma BuiltReadable(im: Image)
    requires Loadable(im)
    ensures Readable(Built(im), Total(TablesDone(im)))
    ensures Linkable(Built(im).sections, Built(im).symbols, Built(im).dynsymbols, Built(im).relocs)
    ensures Built(im).symbols == Sorted(im.symbols) && Built(im).dynsymbols == Sorted(im.dynsymbols)
    ensures Built(im).relocs == FinalRelocs(im)
    ensures |Built(im).sections| == |FinalSections(im)|
    ensures forall i :: 0 <= i < |FinalSections(im)| ==> SameButPlace(FinalSections(im)[i], Built(im).sections[i])
  {
    hide FinalSections, FinalRelocs, Sorted, Facts, Regular, Roomy, Small, MetaPart, Find, SymsOk, BytesOk, Total, KeptDisjoint,
         SameButPlace, ShOff, SegmentsOut, PhOff, TableOkIn, StrTab;
    var t := TablesDone(im);
    var ss := FinalSections(im);
    FinalLinkable(im);
    BuiltHeader(im);
    FactsRegular(ss, t.symbols, t.dynsymbols, t.relocs);
    RegularBytes(ss);
    LayoutDisjoint(t);
    AllPlaced(t);
    FactsPlaced(ss, Built(im).sections, t.symbols, t.dynsymbols, t.relocs);
    FactsRegular(Built(im).sections, t.symbols, t.dynsymbols, t.relocs);
    SmallNames(im);
    ReadableParts(im, ss);
    PlacedLinkable(ss, Built(im).sections, t.symbols, t.dynsymbols, t.relocs);
  }

  /** Every section of the layout is the section, placed; section 0 is not. */
  lemma AllPlaced(t: Image)
    requires Roomy(t) && Regular(t.sections)
    ensures |LaidOut(t).sections| == |t.sections| && LaidOut(t).sections[0] == t.sections[0]
    ensures forall i :: 0 <= i < |t.sections| ==> SameButPlace(t.sections[i], LaidOut(t).sections[i])
  {
    hide Roomy, Regular, MetaPart, SameButPlace, SettingOf, Aligned, EhdrOut, SegmentsOut;
    FirstSection(t.sections);
    NotLaid(t);
    OthersKept(t, 0);
    forall i | 0 <= i < |t.sections| ensures SameButPlace(t.sections[i], LaidOut(t).sections[i]) {
      if Laid(t, i) { LaidFacts(t, i); } else {
        OthersKept(t, i);
        SamePlace(t.sections[i]);
      }
    }
  }

  lemma NotLaid(t: Image)
    ensures !Laid(t, 0)
  {}

  lemma SmallNames(im: Image)
    requires Small(im)
    ensures |StrTab(SecNames(FinalSections(im)))| < TWO32
  {
    hide StrTab, StrBytes, FinalSections, Sorted;
  }

  lemma ReadableParts(im: Image, ss: seq<Section>)
    requires ss == FinalSections(im) && |ss| < 0x1_0000 && |im.ehdr.ident| == 16
    requires im.ehdr.ident[..6] == [0x7F, 0x45, 0x4C, 0x46, 2, 1]
    requires Disjoint(Built(im), Total(TablesDone(im))) && Built(im).ehdr.ident == im.ehdr.ident
    requires |Built(im).sections| == |ss| && forall i :: 0 <= i < |ss| ==> SameButPlace(ss[i], Built(im).sections[i])
    requires Facts(Built(im).sections, Sorted(im.symbols), Sorted(im.dynsymbols), FinalRelocs(im))
    requires |StrTab(SecNames(ss))| < TWO32
    ensures Readable(Built(im), Total(TablesDone(im)))
  {
    hide FinalSections, FinalRelocs, Sorted, Regular, MetaPart, Find, Total, SameButPlace, ShOff, SegmentsOut, PhOff, StrTab,
         Disjoint, RelaFact, SymFact, StrFact, LinkFact;
    forall i | 0 <= i < |ss| ensures Built(im).sections[i].name == ss[i].name { PlacedAlike(ss[i], Built(im).sections[i]); }
    FindsSame(ss, Built(im).sections);
    assert SecNames(Built(im).sections) == SecNames(ss);
  }

  lemma PlacedLinkable(ss: seq<Section>, tt: seq<Section>, syms: seq<Symbol>, dynsyms: seq<Symbol>, rs: seq<Reloc>)
    requires Linkable(ss, syms, dynsyms, rs) && Facts(tt, syms, dynsyms, rs) && |tt| == |ss|
    requires forall i :: 0 <= i < |ss| ==> SameButPlace(ss[i], tt[i])
    ensures Linkable(tt, syms, dynsyms, rs)
  {
    hide Facts, SymsOk, SameButPlace, Find;
    forall i | 0 <= i < |ss| ensures tt[i].name == ss[i].name { PlacedAlike(ss[i], tt[i]); }
    FindsSame(ss, tt);
  }

  /** Loading what was built: the file header, every program header, every section
      header with its bytes, both symbol tables in their sorted order, and the
      relocations, group after group. */
  lemma LoadBuild(im: Image)
    requires Loadable(im)
    ensures Loaded(BuiltFile(im)).Some?
    ensures var back := Loaded(BuiltFile(im)).value;
            && back.ehdr == Built(im).ehdr && SameButTables(im.ehdr, back.ehdr) && back.segments == Built(im).segments
            && back.ehdr.phnum == |back.segments| && back.ehdr.shnum == |back.sections|
            && back.base == (if im.ehdr.etype == ET_EXEC then 0x400000 else 0)
            && back.symbols == Sorted(im.symbols) && back.dynsymbols == Sorted(im.dynsymbols)
            && back.relocs == GroupedTo(Built(im).sections, FinalRelocs(im), |Built(im).sections|)
            && |back.sections| == |Built(im).sections|
            && forall i :: 0 <= i < |back.sections| ==> SameBytes(BareAt(Built(im).sections, i), back.sections[i])
  {
    hide Built, FileOf, Readable, Linkable, Loaded, Sorted, FinalRelocs, BareAt, FinalSections, Loadable, TablesDone, SameButTables,
         Total, SameBytes, GroupedTo;
    BuiltReadable(im);
    BuiltCounts(im);
    LoadsBack(Built(im), Total(TablesDone(im)));
  }

  lemma BuiltCounts(im: Image)
    requires Loadable(im)
    ensures |im.ehdr.ident| == 16 && Built(im).ehdr.ident == im.ehdr.ident && SameButTables(im.ehdr, Built(im).ehdr)
    ensures Built(im).ehdr.phnum == |Built(im).segments| && Built(im).ehdr.shnum == |Built(im).sections|
    ensures Built(im).ehdr.etype == im.ehdr.etype
  {
    hide Built, Readable, Linkable, FinalRelocs, FinalSections, Orderly, Sorted;
    BuiltReadable(im);
    BuiltHeader(im);
    LoadableIdent(im);
    InRange(Built(im), Total(TablesDone(im)));
  }

  lemma LoadableIdent(im: Image)
    requires Loadable(im)
    ensures |im.ehdr.ident| == 16
  {
    hide Regular, Small, TargetsOk, Roomy, FinalSections, TableOkIn, KeptDisjoint, SegmentsOut;
  }

  /** An ordinary section comes back with its name, type, flags, size and bytes,
      at the index it had. */
  lemma OrdinarySectionBack(im: Image, i: nat)
    requires Loadable(im) && 1 <= i < |im.sections|
    requires im.sections[i].kind == Normal && RoleType(im.sections[i].name).None?
    ensures Loaded(BuiltFile(im)).Some?
    ensures var back := Loaded(BuiltFile(im)).value;
            && i < |back.sections|
            && var s, t := im.sections[i], back.sections[i];
            t.name == s.name && t.typ == s.typ && t.flags == s.flags && t.size == s.size && t.data == s.data
            && t.addralign == s.addralign && t.entsize == s.entsize && t.link == s.link && t.info == s.info
  {
    hide Loaded, BuiltFile, Built, Regular, Small, TargetsOk, Roomy, FinalSections, TableOkIn, SameButPlace, SameBytes, Sorted,
         FinalRelocs, RoleType, Linkable, Readable, TablesDone;
    LoadBuild(im);
    BuiltReadable(im);
    GrownFinal(im);
    OrdinaryFields(im.sections[i], Built(im).sections[i], Loaded(BuiltFile(im)).value.sections[i]);
  }

  lemma OrdinaryFields(s: Section, placed: Section, t: Section)
    requires SameButPlace(s, placed) && SameBytes(Bare(placed), t)
    ensures t.name == s.name && t.typ == s.typ && t.flags == s.flags && t.size == s.size && t.data == s.data
    ensures t.addralign == s.addralign && t.entsize == s.entsize && t.link == s.link && t.info == s.info
  {}

  // ------------------------------------------------- grouping loses no relocation

  /** Among the first n sections one takes this relocation. */
  predicate Taken(ss: seq<Section>, r: Reloc, n: nat)
    requires n <= |ss|
  {
    exists i :: 0 <= i < n && ss[i].kind == RelaKind && Matches(r, ss[i])
  }

  /** No two of the first n sections do. */
  predicate TakenOnce(ss: seq<Section>, r: Reloc) {
    forall i, j :: 0 <= i < j < |ss| && ss[i].kind == RelaKind && ss[j].kind == RelaKind && Matches(r, ss[i]) ==> !Matches(r, ss[j])
  }

  lemma TakenStep(ss: seq<Section>, r: Reloc, n: nat)
    requires 0 < n <= |ss| && TakenOnce(ss, r)
    ensures var here := ss[n - 1].kind == RelaKind && Matches(r, ss[n - 1]);
            && (Taken(ss, r, n) <==> Taken(ss, r, n - 1) || here) && !(Taken(ss, r, n - 1) && here)
  {
    hide Matches;
    if Taken(ss, r, n - 1) {
      var i :| 0 <= i < n - 1 && ss[i].kind == RelaKind && Matches(r, ss[i]);
      assert Taken(ss, r, n);
    }
  }

  lemma GroupedSplit(ss: seq<Section>, rs: seq<Reloc>, n: nat)
    requires 0 < n <= |ss|
    ensures multiset(GroupedTo(ss, rs, n))
         == multiset(GroupedTo(ss, rs, n - 1)) + if ss[n - 1].kind == RelaKind then multiset(Group(rs, ss[n - 1])) else multiset{}
  {
    hide Group;
  }

  lemma GroupGrows(rs: seq<Reloc>, r: Reloc, s: Section)
    ensures multiset(Group(rs + [r], s)) == multiset(Group(rs, s)) + if Matches(r, s) then multiset{r} else multiset{}
  {
    hide Matches;
    assert (rs + [r])[..|rs|] == rs;
  }

  /** One more relocation adds itself, once, if some section takes it. */
  lemma {:induction false} GroupedGrows(ss: seq<Section>, rs: seq<Reloc>, r: Reloc, n: nat)
    requires n <= |ss| && TakenOnce(ss, r)
    ensures multiset(GroupedTo(ss, rs + [r], n)) == multiset(GroupedTo(ss, rs, n)) + if Taken(ss, r, n) then multiset{r} else multiset{}
  {
    hide Matches, GroupedTo, Taken, TakenOnce, Group;
    if n == 0 {
      NothingGrouped(ss, rs, r);
    } else {
      GroupedGrows(ss, rs, r, n - 1);
      TakenStep(ss, r, n);
      GroupedSplit(ss, rs, n);
      GroupedSplit(ss, rs + [r], n);
      GroupGrows(rs, r, ss[n - 1]);
    }
  }

  lemma NothingGrouped(ss: seq<Section>, rs: seq<Reloc>, r: Reloc)
    ensures GroupedTo(ss, rs, 0) == [] && GroupedTo(ss, rs + [r], 0) == [] && !Taken(ss, r, 0)
  {}

  lemma {:induction false} GroupedNone(ss: seq<Section>, n: nat)
    requires n <= |ss|
    ensures GroupedTo(ss, [], n) == []
  {
    if n > 0 { GroupedNone(ss, n - 1); }
  }

  /** The groups together are the relocations, in another order. */
  lemma {:induction false} GroupedPermutes(ss: seq<Section>, rs: seq<Reloc>)
    requires forall i :: 0 <= i < |rs| ==> TakenOnce(ss, rs[i]) && Taken(ss, rs[i], |ss|)
    ensures multiset(GroupedTo(ss, rs, |ss|)) == multiset(rs)
    decreases |rs|
  {
    hide Taken, TakenOnce, GroupedTo;
    if rs == [] {
      GroupedNone(ss, |ss|);
    } else {
      var most, r := rs[..|rs| - 1], rs[|rs| - 1];
      GroupedPermutes(ss, most);
      GroupedGrows(ss, most, r, |ss|);
      assert rs == most + [r];
    }
  }

  /** The relocations of a built file are those of the model, each once. */
  lemma RelocsKept(im: Image)
    requires Loadable(im)
    ensures multiset(GroupedTo(Built(im).sections, FinalRelocs(im), |Built(im).sections|)) == multiset(FinalRelocs(im))
  {
    hide Built, FinalRelocs, Readable, Sorted, FinalSections, Loadable, SameButPlace;
    BuiltReadable(im);
    var ss, rs := Built(im).sections, FinalRelocs(im);
    LinkableOnce(ss, Built(im).symbols, Built(im).dynsymbols, rs);
    GroupedPermutes(ss, rs);
  }

  lemma LinkableOnce(ss: seq<Section>, syms: seq<Symbol>, dynsyms: seq<Symbol>, rs: seq<Reloc>)
    requires Linkable(ss, syms, dynsyms, rs)
    ensures forall i :: 0 <= i < |rs| ==> TakenOnce(ss, rs[i]) && Taken(ss, rs[i], |ss|)
  {
    hide Find, SymsOk, SymFact, StrFact, ShFact, LinkFact, SectionOk, RoleOk, RelaBytes;
    forall k | 0 <= k < |rs| ensures TakenOnce(ss, rs[k]) && Taken(ss, rs[k], |ss|) {
      forall i, j | 0 <= i < j < |ss| && ss[i].kind == RelaKind && ss[j].kind == RelaKind && Matches(rs[k], ss[i])
        ensures !Matches(rs[k], ss[j])
      {
        assert IsRela(ss, i) && IsRela(ss, j);
      }
      assert HasRela(ss, rs[k].target, rs[k].dynamic);
    }
  }
}
