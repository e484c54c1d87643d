/** Building an executable a second time: what the first build placed stays where it
    is, as long as its bytes are what the tables regenerate. */
module ElfStays {
  import opened Words
  import opened ElfNames
  import opened ElfModel
  import opened ElfSort
  import opened ElfTables
  import opened ElfLayout
  import opened ElfSafety
  import opened ElfBuild
  import opened ElfRegular
  import opened ElfIdempotent
  import opened ElfAgain

  /** A section that regeneration recognises: bytes of the recorded size; without
      bytes only when nothing regenerates it; and no relocation section under the
      name of another table. */
  predicate Steady(s: Section) {
    if s.data == [] then s.kind != RelaKind && RoleType(s.name).None?
    else s.size == |s.data| && (s.kind == RelaKind ==> RoleType(s.name).None?)
  }

  // ------------------------------------------------ one section through the tables

  lemma SymLeaves(ss: seq<Section>, tt: seq<Section>, syms: seq<Symbol>, dynamic: bool, i: nat)
    requires SymDone(ss, syms, dynamic) && AllLoose(ss, tt) && i < |ss| == |tt| && tt[i] == ss[i] && Steady(ss[i])
    ensures |WithSymTab(tt, syms, dynamic)| == |ss| && WithSymTab(tt, syms, dynamic)[i] == ss[i]
  {
    hide Find, SymBytes, Loose, RoleType;
    var name := SymSectionName(dynamic);
    LooseNames(ss, tt);
    RoleOfTables(dynamic);
    if Has(ss, name) && Find(ss, name) == i { SymExact(ss[i], syms, dynamic); }
  }

  lemma RoleOfTables(dynamic: bool)
    ensures RoleType(SymSectionName(dynamic)).Some? && RoleType(StrSectionName(dynamic)).Some? && RoleType(SHSTRTAB).Some?
  {
    RoleNames();
  }

  lemma SymExact(s: Section, syms: seq<Symbol>, dynamic: bool)
    requires SymAt(s, syms, dynamic) && Steady(s) && RoleType(s.name).Some?
    ensures (if |syms| <= 1 then Updated(s, Zeros(SYM_SIZE)) else SymTabOf(s, syms, dynamic)) == s
  {
    hide SymBytes, RoleType;
  }

  lemma StrLeaves(ss: seq<Section>, tt: seq<Section>, syms: seq<Symbol>, dynamic: bool, i: nat)
    requires StrDone(ss, syms, dynamic) && AllLoose(ss, tt) && i < |ss| == |tt| && tt[i] == ss[i] && Steady(ss[i])
    ensures |WithStrTab(tt, syms, dynamic)| == |ss| && WithStrTab(tt, syms, dynamic)[i] == ss[i]
  {
    hide Find, StrTab, Loose, RoleType;
    var name := StrSectionName(dynamic);
    LooseNames(ss, tt);
    RoleOfTables(dynamic);
    if Has(ss, name) && Find(ss, name) == i { StrExact(ss[i], syms, dynamic); }
  }

  lemma StrExact(s: Section, syms: seq<Symbol>, dynamic: bool)
    requires StrAt(s, syms, dynamic) && Steady(s) && RoleType(s.name).Some?
    ensures (if |syms| <= 1 then Updated(s, [0]) else StrTabOf(s, syms, dynamic)) == s
  {
    hide StrTab, RoleType;
  }

  lemma FillLeaves(ss: seq<Section>, tt: seq<Section>, rs: seq<Reloc>, i: nat)
    requires RelasFilled(ss, rs) && i < |ss| == |tt| && tt[i] == ss[i] && Steady(ss[i])
    ensures |Refilled(tt, rs)| == |ss| && Refilled(tt, rs)[i] == ss[i]
  {
    hide RelaBytes, RoleType;
    assert RelaAt(ss[i], rs);
  }

  lemma RelasLeave(ss: seq<Section>, tt: seq<Section>, rs: seq<Reloc>, i: nat)
    requires RelasFilled(ss, rs) && RelasThere(ss, rs) && AllLoose(ss, tt) && i < |ss| == |tt| && tt[i] == ss[i] && Steady(ss[i])
    ensures |RelasRebuilt(tt, rs)| == |ss| && RelasRebuilt(tt, rs)[i] == ss[i]
  {
    hide Refilled, WithRelas, HasRela, RelaAt, SameButFlags, Loose, Steady;
    FillAgain(ss, tt, rs);
    var a := Refilled(tt, rs);
    SameRelas(ss, a, rs);
    WithRelasAgain(a, rs);
    FillLeaves(ss, tt, rs, i);
    FillLeaves(ss, a, rs, i);
  }

  lemma NamesLeave(ss: seq<Section>, tt: seq<Section>, i: nat)
    requires ShDone(ss) && AllSame(ss, tt) && i < |ss| == |tt| && tt[i] == ss[i] && Steady(ss[i])
    ensures |WithShStrTab(tt)| == |ss| && WithShStrTab(tt)[i] == ss[i]
  {
    hide Find, StrTab, SameButFlags, Loose, RoleType;
    SameLoose(ss, tt);
    LooseNames(ss, tt);
    RoleOfTables(false);
  }

  lemma LinksLeave(ss: seq<Section>, tt: seq<Section>, i: nat)
    requires LinkFact(ss) && AllSame(ss, tt) && i < |ss| == |tt| && tt[i] == ss[i]
    ensures |Linked(tt)| == |ss| && Linked(tt)[i] == ss[i]
  {
    hide Find, IndexOf, SameButFlags, Loose;
    SameLoose(ss, tt);
    LooseNames(ss, tt);
    forall name ensures IndexOf(tt, name) == IndexOf(ss, name) { SameIndex(ss, tt, name); }
    LinkExact(ss[i], ss, tt);
  }

  lemma LinkExact(s: Section, ss: seq<Section>, tt: seq<Section>)
    requires s == LinkedIn(s, ss) && forall name :: IndexOf(tt, name) == IndexOf(ss, name)
    ensures LinkedIn(s, tt) == s
  {
    hide IndexOf;
  }

  lemma SymbolsLeave(ss: seq<Section>, syms: seq<Symbol>, dynsyms: seq<Symbol>, i: nat)
    requires SymbolsDone(ss, syms, dynsyms) && i < |ss| && Steady(ss[i])
    ensures |SymbolsRedone(ss, syms, dynsyms)| == |ss| && SymbolsRedone(ss, syms, dynsyms)[i] == ss[i]
  {
    hide WithSymTab, WithStrTab, AllLoose, SymDone, StrDone, Steady;
    LooseSelf(ss);
    SymAgain(ss, ss, syms, false);
    SymLeaves(ss, ss, syms, false, i);
    var a1 := WithSymTab(ss, syms, false);
    StrAgain(ss, a1, syms, false);
    StrLeaves(ss, a1, syms, false, i);
    var a2 := WithStrTab(a1, syms, false);
    SymAgain(ss, a2, dynsyms, true);
    SymLeaves(ss, a2, dynsyms, true, i);
    var a3 := WithSymTab(a2, dynsyms, true);
    StrLeaves(ss, a3, dynsyms, true, i);
  }

  /** Regenerating finished tables leaves such a section alone, its bookkeeping
      included. */
  lemma TablesLeave(ss: seq<Section>, syms: seq<Symbol>, dynsyms: seq<Symbol>, rs: seq<Reloc>, i: nat)
    requires Done(ss, syms, dynsyms, rs) && RelasThere(ss, rs) && i < |ss| && Steady(ss[i])
    ensures var tt := Linked(WithShStrTab(RelasRebuilt(SymbolsRedone(ss, syms, dynsyms), rs)));
            |tt| == |ss| && tt[i] == ss[i]
  {
    hide SymbolsRedone, RelasRebuilt, WithShStrTab, Linked, AllSame, AllLoose, SymbolsDone, RelasFilled, RelasThere, ShDone, LinkFact,
         Steady;
    SymbolsAgain(ss, syms, dynsyms);
    SymbolsLeave(ss, syms, dynsyms, i);
    var b := SymbolsRedone(ss, syms, dynsyms);
    RelasAgain(ss, b, rs);
    RelasLeave(ss, b, rs, i);
    var c := RelasRebuilt(b, rs);
    NamesAgain(ss, c);
    NamesLeave(ss, c, i);
    LinksLeave(ss, WithShStrTab(c), i);
  }

  // --------------------------------------------------------------- the second build

  /** Placing changes places only. */
  lemma {:induction false} PlacedOnly(ss: seq<Section>, n: nat, which: Class, L: Setting, start: u64)
    requires n <= |ss|
    ensures AllCore(ss, PlacedTo(ss, n, which, L, start).ss)
    ensures forall i :: n <= i < |ss| ==> PlacedTo(ss, n, which, L, start).ss[i] == ss[i]
  {
    hide ClassOf, AlignUp, End;
    if n > 0 { PlacedOnly(ss, n - 1, which, L, start); }
  }

  lemma LaidOnly(t: Image)
    ensures AllCore(t.sections, LaidOut(t).sections)
  {
    hide PlacedTo, AllCore, SettingOf, FreshStart, MetaStart, EhdrOut, SegmentsOut;
    var n := |t.sections|;
    PlacedOnly(t.sections, n, Fresh, SettingOf(t), FreshStart(t));
    CoreLength(t.sections, FreshPart(t).ss);
    PlacedOnly(FreshPart(t).ss, n, Meta, SettingOf(t), MetaStart(t));
    AllCoreTrans(t.sections, FreshPart(t).ss, MetaPart(t).ss);
  }

  /** What the second build starts from. */
  lemma LeftDone(im: Image)
    requires NoneOrphaned(im)
    ensures var left := AfterBuild(im);
            && Done(left.sections, Sorted(im.symbols), Sorted(im.dynsymbols), FinalRelocs(im))
            && RelasThere(left.sections, FinalRelocs(im)) && |left.sections| == |Built(im).sections|
  {
    hide FinalSections, FinalRelocs, Sorted, Settled, AllCore, AllSame, Done, RelasThere, NoneOrphaned, LaidOut;
    FirstBuild(im);
    LaidOnly(TablesDone(im));
    SettledSame(Built(im).sections);
    CoreOfFlags(FinalSections(im), Built(im).sections, AfterBuild(im).sections);
    DoneCore(FinalSections(im), AfterBuild(im).sections, Sorted(im.symbols), Sorted(im.dynsymbols), FinalRelocs(im));
  }

  /** The tables of the second build leave section i as the first one did. */
  lemma TablesStay(im: Image, i: nat)
    requires NoneOrphaned(im) && i < |Built(im).sections| && Steady(Built(im).sections[i])
    ensures var left, t := AfterBuild(im), TablesDone(AfterBuild(im));
            |t.sections| == |left.sections| == |Built(im).sections| && t.sections[i] == left.sections[i]
  {
    hide Sorted, LaidOut, Settled, SymbolsRedone, RelasRebuilt, WithShStrTab, Linked, Done, RelasThere, NoneOrphaned, FinalRelocs,
         FinalSections, RoleType;
    LeftDone(im);
    FinalAgain(im);
    var left, out := AfterBuild(im), Built(im);
    assert left.sections[i] == SettledSection(out.sections[i]);
    TablesLeave(left.sections, out.symbols, out.dynsymbols, out.relocs, i);
  }

  /** Allocated sections count as placed from then on. */
  lemma StaysFixed(im: Image, i: nat)
    requires NoneOrphaned(im) && 1 <= i < |Built(im).sections| && Steady(Built(im).sections[i])
    requires im.ehdr.etype != ET_REL && Built(im).segments != []
    requires Built(im).sections[i].typ != SHT_NULL && Alloc(Built(im).sections[i].flags)
    ensures Keeps(TablesDone(AfterBuild(im)), i)
  {
    hide NoneOrphaned, Steady, LaidOut, Settled, FinalSections, FinalRelocs, Sorted, Alloc;
    TablesStay(im, i);
    SecondHeader(im);
    assert AfterBuild(im).sections[i] == SettledSection(Built(im).sections[i]);
  }

  lemma SecondHeader(im: Image)
    ensures TablesDone(AfterBuild(im)).ehdr.etype == im.ehdr.etype && TablesDone(AfterBuild(im)).segments == Built(im).segments
  {
    hide FinalSections, FinalRelocs, Sorted, Settled, MetaPart, SegmentsOut, PhOff, ShOff, Find;
  }

  /** Building an executable twice: an allocated section is in the second file where
      it is in the first, in the file and in memory, with the same bytes. */
  lemma StaysPut(im: Image, i: nat)
    requires NoneOrphaned(im) && 1 <= i < |Built(im).sections| && Steady(Built(im).sections[i])
    requires im.ehdr.etype != ET_REL && Built(im).segments != [] && Roomy(TablesDone(AfterBuild(im)))
    requires Built(im).sections[i].typ != SHT_NULL && Alloc(Built(im).sections[i].flags)
    ensures |Built(AfterBuild(im)).sections| == |Built(im).sections|
    ensures var s, t := Built(im).sections[i], Built(AfterBuild(im)).sections[i];
            t.name == s.name && t.offset == s.offset && t.addr == s.addr && t.size == s.size && t.data == s.data
  {
    hide NoneOrphaned, Steady, LaidOut, Settled, TablesDone, Roomy, Alloc, Keeps;
    StaysFixed(im, i);
    TablesStay(im, i);
    UntouchedStays(TablesDone(AfterBuild(im)), i);
    assert AfterBuild(im).sections[i] == SettledSection(Built(im).sections[i]);
  }

  /** And when that goes for every allocated section, the second build needs no
      segment of its own. */
  lemma NoNewSegment(im: Image)
    requires NoneOrphaned(im) && im.ehdr.etype != ET_REL && Built(im).segments != []
    requires forall i :: 1 <= i < |Built(im).sections| && Alloc(Built(im).sections[i].flags) ==> Steady(Built(im).sections[i])
    ensures Built(AfterBuild(im)).segments == Built(im).segments
  {
    hide NoneOrphaned, Steady, Settled, FinalSections, FinalRelocs, Sorted, Alloc, MetaPart, FreshSegment, EhdrOut;
    var t := TablesDone(AfterBuild(im));
    SecondHeader(im);
    SecondLength(im);
    forall i | 0 <= i < |t.sections| ensures ClassOf(t.sections, i, SettingOf(t)) != Fresh { NotNew(im, i); }
  }

  lemma SecondLength(im: Image)
    requires NoneOrphaned(im)
    ensures |TablesDone(AfterBuild(im)).sections| == |Built(im).sections|
  {
    hide Sorted, LaidOut, Settled, SymbolsRedone, RelasRebuilt, WithShStrTab, Linked, Done, RelasThere, NoneOrphaned, FinalRelocs,
         FinalSections;
    LeftDone(im);
    FinalAgain(im);
    var left, out := AfterBuild(im), Built(im);
    TablesAgain(left.sections, out.symbols, out.dynsymbols, out.relocs);
    SameLength(left.sections, FinalSections(left));
  }

  lemma NotNew(im: Image, i: nat)
    requires NoneOrphaned(im) && im.ehdr.etype != ET_REL && Built(im).segments != []
    requires forall i :: 1 <= i < |Built(im).sections| && Alloc(Built(im).sections[i].flags) ==> Steady(Built(im).sections[i])
    requires i < |TablesDone(AfterBuild(im)).sections|
    ensures var t := TablesDone(AfterBuild(im)); ClassOf(t.sections, i, SettingOf(t)) != Fresh
  {
    hide NoneOrphaned, Steady, Settled, LaidOut, TablesDone, SettingOf, Alloc;
    SecondLength(im);
    var t, s := TablesDone(AfterBuild(im)), Built(im).sections[i];
    if i >= 1 && Alloc(s.flags) {
      TablesStay(im, i);
      assert AfterBuild(im).sections[i] == SettledSection(s);
      if s.typ != SHT_NULL { StaysFixed(im, i); }
    } else if i >= 1 {
      FlagsStay(im, i);
    }
  }

  /** A section that is not allocated is not afterwards. */
  lemma FlagsStay(im: Image, i: nat)
    requires NoneOrphaned(im) && i < |Built(im).sections|
    ensures |TablesDone(AfterBuild(im)).sections| == |Built(im).sections|
    ensures TablesDone(AfterBuild(im)).sections[i].flags == Built(im).sections[i].flags
  {
    hide Sorted, LaidOut, Settled, SymbolsRedone, RelasRebuilt, WithShStrTab, Linked, Done, RelasThere, NoneOrphaned, FinalRelocs,
         FinalSections;
    LeftDone(im);
    FinalAgain(im);
    SecondLength(im);
    var left, out := AfterBuild(im), Built(im);
    TablesAgain(left.sections, out.symbols, out.dynsymbols, out.relocs);
    FlagsAlike(left.sections[i], FinalSections(left)[i]);
    assert left.sections[i] == SettledSection(out.sections[i]);
  }
}
