/** Building a relocatable file a second time: the same bytes, unless a
    relocation section carries the name of the table of section names. */
module ElfAgain {
  import opened Words
  import opened ElfNames
  import opened ElfModel
  import opened ElfSort
  import opened ElfTables
  import opened ElfLayout
  import opened ElfFile
  import opened ElfBuild
  import opened ElfRegular
  import opened ElfStruct
  import opened ElfReadBack
  import opened ElfHeaders
  import opened ElfIdempotent

  // ------------------------------------------------------ relocation sections

  /** The relocations a section takes. */
  function Key(s: Section): Option<(bool, Name)> { if s.kind == RelaKind then Some((s.relaDynamic, s.relaTarget)) else None }

  function Wants(r: Reloc): (bool, Name) { (r.dynamic, r.target) }

  ghost predicate Taken(ss: seq<Section>, key: (bool, Name)) { exists i :: 0 <= i < |ss| && Key(ss[i]) == Some(key) }

  lemma TakenIs(ss: seq<Section>, r: Reloc)
    ensures HasRela(ss, r.target, r.dynamic) <==> Taken(ss, Wants(r))
  {
    if HasRela(ss, r.target, r.dynamic) {
      var i :| 0 <= i < |ss| && ss[i].kind == RelaKind && ss[i].relaDynamic == r.dynamic && ss[i].relaTarget == r.target;
      assert Key(ss[i]) == Some(Wants(r));
    }
    if Taken(ss, Wants(r)) {
      var i :| 0 <= i < |ss| && Key(ss[i]) == Some(Wants(r));
      assert ss[i].kind == RelaKind;
    }
  }

  /** Other names stay where they are. */
  ghost predicate KeepsOthers(ss: seq<Section>, r: seq<Section>, name: Name) {
    forall n :: n != name ==> (Has(r, n) <==> Has(ss, n)) && (Has(ss, n) ==> Find(r, n) == Find(ss, n))
  }

  lemma PutKeepsOthers(ss: seq<Section>, blank: Section, t: Section)
    requires t.name == blank.name
    ensures KeepsOthers(ss, Put(ss, blank, t), blank.name)
  {
    hide Find, Put;
    forall n | n != blank.name
      ensures (Has(Put(ss, blank, t), n) <==> Has(ss, n)) && (Has(ss, n) ==> Find(Put(ss, blank, t), n) == Find(ss, n))
    {
      PutOther(ss, blank, t, n);
    }
  }

  /** A table that is written is no relocation section any more; one that is only
      emptied is what it was. */
  lemma SymKeys(ss: seq<Section>, syms: seq<Symbol>, dynamic: bool)
    ensures var r, name := WithSymTab(ss, syms, dynamic), SymSectionName(dynamic);
            && |ss| <= |r| && KeepsOthers(ss, r, name)
            && forall k :: 0 <= k < |r| ==>
                 Key(r[k]) == if k >= |ss| || (|syms| > 1 && k == Find(ss, name)) then None else Key(ss[k])
  {
    hide Find, SymBytes;
    var name := SymSectionName(dynamic);
    var blank, t := SymStep(ss, syms, dynamic);
    if |syms| > 1 || Has(ss, name) {
      PutKeepsOthers(ss, blank, t);
      PutIndex(ss, blank, t);
      if |syms| <= 1 { assert t == Updated(ss[Find(ss, name)], Zeros(SYM_SIZE)) by { hide Put; EmptiedSym(ss, syms, dynamic); } }
    }
  }

  lemma EmptiedSym(ss: seq<Section>, syms: seq<Symbol>, dynamic: bool)
    requires |syms| <= 1 && Has(ss, SymSectionName(dynamic))
    ensures var i := Find(ss, SymSectionName(dynamic)); WithSymTab(ss, syms, dynamic)[i] == Updated(ss[i], Zeros(SYM_SIZE))
  {}

  lemma StrKeys(ss: seq<Section>, syms: seq<Symbol>, dynamic: bool)
    ensures var r, name := WithStrTab(ss, syms, dynamic), StrSectionName(dynamic);
            && |ss| <= |r| && KeepsOthers(ss, r, name)
            && forall k :: 0 <= k < |r| ==>
                 Key(r[k]) == if k >= |ss| || (|syms| > 1 && k == Find(ss, name)) then None else Key(ss[k])
  {
    hide Find, StrTab;
    var name := StrSectionName(dynamic);
    var blank, t := StrStep(ss, syms, dynamic);
    if |syms| > 1 || Has(ss, name) {
      PutKeepsOthers(ss, blank, t);
      PutIndex(ss, blank, t);
      if |syms| <= 1 { assert t == Updated(ss[Find(ss, name)], [0]) by { hide Put; EmptiedStr(ss, syms, dynamic); } }
    }
  }

  lemma EmptiedStr(ss: seq<Section>, syms: seq<Symbol>, dynamic: bool)
    requires |syms| <= 1 && Has(ss, StrSectionName(dynamic))
    ensures var i := Find(ss, StrSectionName(dynamic)); WithStrTab(ss, syms, dynamic)[i] == Updated(ss[i], [0])
  {}

  /** Section k becomes a table of symbols or of their names. */
  predicate Rewritten(im: Image, k: nat) {
    || (|im.symbols| > 1 && (k == Find(im.sections, SYMTAB) || k == Find(im.sections, STRTAB)))
    || (|im.dynsymbols| > 1 && (k == Find(im.sections, DYNSYM) || k == Find(im.sections, DYNSTR)))
  }

  lemma SymbolKeys(im: Image)
    ensures var b := SymbolSections(im);
            && |im.sections| <= |b|
            && (forall k :: 0 <= k < |b| ==>
                  Key(b[k]) == if k >= |im.sections| || Rewritten(im, k) then None else Key(im.sections[k]))
            && (Has(b, SHSTRTAB) <==> Has(im.sections, SHSTRTAB))
            && (Has(b, SHSTRTAB) ==> Find(b, SHSTRTAB) == Find(im.sections, SHSTRTAB))
  {
    hide Sorted, WithSymTab, WithStrTab, Find, Key;
    RoleNames();
    var syms, dynsyms := Sorted(im.symbols), Sorted(im.dynsymbols);
    SymKeys(im.sections, syms, false);
    var a1 := WithSymTab(im.sections, syms, false);
    StrKeys(a1, syms, false);
    var a2 := WithStrTab(a1, syms, false);
    SymKeys(a2, dynsyms, true);
    var a3 := WithSymTab(a2, dynsyms, true);
    StrKeys(a3, dynsyms, true);
  }

  lemma FilledKeys(ss: seq<Section>, rs: seq<Reloc>)
    ensures forall k :: 0 <= k < |ss| ==> Key(Refilled(ss, rs)[k]) == Key(ss[k])
  {
    hide RelaOf;
    forall k | 0 <= k < |ss| ensures Key(Refilled(ss, rs)[k]) == Key(ss[k]) {
      if ss[k].kind == RelaKind { RelaFills(ss[k], rs); }
    }
  }

  /** A section that is added takes what no other took. */
  lemma {:induction false} AddedKeys(ss: seq<Section>, rs: seq<Reloc>)
    ensures var tt := WithRelas(ss, rs);
            && |ss| <= |tt| && (forall k :: 0 <= k < |ss| ==> tt[k] == ss[k])
            && forall k :: |ss| <= k < |tt| ==> Key(tt[k]).Some? && !Taken(ss, Key(tt[k]).value)
    decreases |rs|
  {
    hide Key, NewRela;
    if rs != [] {
      var most, r := rs[..|rs| - 1], rs[|rs| - 1];
      AddedKeys(ss, most);
      var tt := WithRelas(ss, most);
      NewKey(r);
      if !HasRela(tt, r.target, r.dynamic) && HasRela(ss, r.target, r.dynamic) { HasRelaGrows(ss, tt, r.target, r.dynamic); }
      TakenIs(ss, r);
    }
  }

  lemma NewKey(r: Reloc)
    ensures Key(NewRela(r.target, r.dynamic)) == Some(Wants(r))
  {}

  /** The first section called .shstrtab takes relocation r, and no other does that
      is still a relocation section when relocations are grouped. */
  ghost predicate Orphaned(im: Image, r: Reloc) {
    var ss, j := im.sections, Find(im.sections, SHSTRTAB);
    && j < |ss| && Key(ss[j]) == Some(Wants(r)) && !Rewritten(im, j)
    && forall k: nat :: k < |ss| && k != j && Key(ss[k]) == Some(Wants(r)) ==> Rewritten(im, k)
  }

  ghost predicate NoneOrphaned(im: Image) { forall i :: 0 <= i < |im.relocs| ==> !Orphaned(im, im.relocs[i]) }

  /** The sections before links are resolved. */
  function NamedSections(im: Image): seq<Section> { WithShStrTab(RelasRebuilt(SymbolSections(im), FinalRelocs(im))) }

  lemma RelaKeys(b: seq<Section>, rs: seq<Reloc>)
    ensures var c := RelasRebuilt(b, rs);
            && |b| <= |c| && (forall k :: 0 <= k < |b| ==> Key(c[k]) == Key(b[k]))
            && (forall k :: |b| <= k < |c| ==> Key(c[k]).Some? && !Taken(b, Key(c[k]).value))
            && (forall i :: 0 <= i < |rs| ==> Taken(c, Wants(rs[i])))
            && (Has(c, SHSTRTAB) <==> Has(b, SHSTRTAB)) && (Has(b, SHSTRTAB) ==> Find(c, SHSTRTAB) == Find(b, SHSTRTAB))
  {
    hide Find, Refilled, WithRelas, Key, HasRela, RoleType;
    var a := Refilled(b, rs);
    var m := WithRelas(a, rs);
    var c := Refilled(m, rs);
    FilledKeys(b, rs);
    AddedKeys(a, rs);
    Appended(a, rs);
    FilledKeys(m, rs);
    SameNamesFind(b, a, rs);
    SameNamesFind(m, c, rs);
    assert RoleType(SHSTRTAB).Some? by { RoleSh(); }
    TakenSame(b, a);
    TakenSame(m, c);
    forall i | 0 <= i < |rs| ensures Taken(c, Wants(rs[i])) { TakenIs(m, rs[i]); }
  }

  lemma RoleSh()
    ensures RoleType(SHSTRTAB).Some?
  {
    RoleNames();
  }

  lemma TakenSame(ss: seq<Section>, tt: seq<Section>)
    requires |ss| == |tt| && forall k :: 0 <= k < |ss| ==> Key(tt[k]) == Key(ss[k])
    ensures forall key :: Taken(tt, key) <==> Taken(ss, key)
  {
    hide Key;
    forall key ensures Taken(tt, key) <==> Taken(ss, key) {
      if Taken(tt, key) { var k :| 0 <= k < |tt| && Key(tt[k]) == Some(key); assert Key(ss[k]) == Some(key); }
      if Taken(ss, key) { var k :| 0 <= k < |ss| && Key(ss[k]) == Some(key); assert Key(tt[k]) == Some(key); }
    }
  }

  lemma NameKeys(c: seq<Section>)
    ensures var d := WithShStrTab(c);
            && |c| <= |d| && forall k :: 0 <= k < |d| ==> Key(d[k]) == if k >= |c| || k == Find(c, SHSTRTAB) then None else Key(c[k])
  {
    hide Find, Key, WithShStrTab, Put;
    var blank, t := NameStep(c);
    PutIndex(c, blank, t);
    NotRela(t);
  }

  lemma OneThereIff(im: Image, i: nat)
    requires i < |im.relocs|
    ensures Taken(NamedSections(im), Wants(im.relocs[i])) <==> !Orphaned(im, im.relocs[i])
  {
    hide Find, Key, WithShStrTab, SymbolSections, Rewritten, FinalRelocs, RelasRebuilt;
    FinalTargets(im);
    var key, rs, ss := Wants(im.relocs[i]), FinalRelocs(im), im.sections;
    var b := SymbolSections(im);
    var c := RelasRebuilt(b, rs);
    var d, j := NamedSections(im), Find(c, SHSTRTAB);
    SymbolKeys(im);
    RelaKeys(b, rs);
    NameKeys(c);
    assert Wants(rs[i]) == key && Taken(c, key);
    if Orphaned(im, im.relocs[i]) {
      assert Key(b[j]) == Some(key) && Taken(b, key);
      forall k | 0 <= k < |d| ensures Key(d[k]) != Some(key) {}
    } else {
      var k :| 0 <= k < |c| && Key(c[k]) == Some(key);
      if k == j {
        assert k < |b| && Key(ss[j]) == Some(key) && !Rewritten(im, j);
        var k' :| 0 <= k' < |ss| && k' != j && Key(ss[k']) == Some(key) && !Rewritten(im, k');
        assert Key(d[k']) == Some(key);
      } else {
        assert Key(d[k]) == Some(key);
      }
    }
  }

  lemma NotRela(t: Section)
    requires t.kind == ShStrTabKind
    ensures Key(t) == None
  {}

  lemma SameNamesFind(m: seq<Section>, c: seq<Section>, rs: seq<Reloc>)
    requires c == Refilled(m, rs)
    ensures |c| == |m| && forall name :: Find(c, name) == Find(m, name)
  {
    hide Find, RelaOf;
    FillFacts(m, rs, [], false);
    FindsSame(m, c);
  }

  // ---------------------------------------------------- what the first build leaves

  lemma FirstBuild(im: Image)
    ensures Done(FinalSections(im), Sorted(im.symbols), Sorted(im.dynsymbols), FinalRelocs(im))
    ensures RelasThere(FinalSections(im), FinalRelocs(im)) <==> NoneOrphaned(im)
  {
    hide Sorted, SymbolSections, RelasRebuilt, WithShStrTab, Linked, SymbolsDone, RelasFilled, ShDone, RelasThere, FinalRelocs,
         NoneOrphaned;
    var syms, dynsyms, rs := Sorted(im.symbols), Sorted(im.dynsymbols), FinalRelocs(im);
    AfterSymbols(im);
    AfterRelas(SymbolSections(im), rs, syms, dynsyms);
    AfterNames(RelasRebuilt(SymbolSections(im), rs), rs, syms, dynsyms);
    AfterLinks(NamedSections(im), rs, syms, dynsyms);
    AllThereIff(im);
  }

  lemma LinkKeys(ss: seq<Section>)
    ensures forall k :: 0 <= k < |ss| ==> Key(Linked(ss)[k]) == Key(ss[k])
  {
    hide LinkedIn;
    forall k | 0 <= k < |ss| ensures Key(Linked(ss)[k]) == Key(ss[k]) { LinkOnly(ss[k], ss); }
  }

  lemma AllThereIff(im: Image)
    ensures RelasThere(FinalSections(im), FinalRelocs(im)) <==> NoneOrphaned(im)
  {
    hide Key, WithShStrTab, SymbolSections, FinalRelocs, RelasRebuilt, Linked, Orphaned, HasRela;
    var d, t, rs := NamedSections(im), FinalSections(im), FinalRelocs(im);
    FinalTargets(im);
    LinkKeys(d);
    TakenSame(d, t);
    forall i | 0 <= i < |rs|
      ensures HasRela(t, rs[i].target, rs[i].dynamic) <==> !Orphaned(im, im.relocs[i])
    {
      TakenIs(t, rs[i]);
      OneThereIff(im, i);
    }
  }

  /** Places and bookkeeping do not matter to finished tables. */
  lemma DoneCore(ss: seq<Section>, tt: seq<Section>, syms: seq<Symbol>, dynsyms: seq<Symbol>, rs: seq<Reloc>)
    requires Done(ss, syms, dynsyms, rs) && AllCore(ss, tt)
    ensures Done(tt, syms, dynsyms, rs) && (RelasThere(tt, rs) <==> RelasThere(ss, rs))
  {
    hide Find, StrTab, SymBytes, StrBytes, LinkedIn, RelaBytes, HasRela, SameCore;
    forall i | 0 <= i < |ss|
      ensures tt[i].name == ss[i].name && Key(tt[i]) == Key(ss[i]) && RelaAt(tt[i], rs)
      ensures SymAlike(ss[i], tt[i])
    {
      CoreAlike(ss[i], tt[i]);
      GroupAlike(rs, ss[i], tt[i]);
      assert RelaAt(ss[i], rs);
    }
    FindsSame(ss, tt);
    assert SecNames(tt) == SecNames(ss);
    CoreLinks(ss, tt);
    TakenSame(ss, tt);
    forall i | 0 <= i < |rs|
      ensures HasRela(tt, rs[i].target, rs[i].dynamic) <==> HasRela(ss, rs[i].target, rs[i].dynamic)
    {
      TakenIs(ss, rs[i]);
      TakenIs(tt, rs[i]);
    }
  }

  /** Fields that table facts are about. */
  predicate SymAlike(s: Section, t: Section) {
    && t.typ == s.typ && t.entsize == s.entsize && t.kind == s.kind && t.info == s.info && t.data == s.data && t.size == s.size
    && t.relaTarget == s.relaTarget && t.relaDynamic == s.relaDynamic
  }

  lemma CoreAlike(s: Section, t: Section)
    requires SameCore(s, t)
    ensures SymAlike(s, t) && t.name == s.name && Key(t) == Key(s)
  {}

  lemma CoreLinks(ss: seq<Section>, tt: seq<Section>)
    requires LinkFact(ss) && AllCore(ss, tt)
    ensures LinkFact(tt)
  {
    hide Find, IndexOf, SameCore, LinkedIn;
    forall i | 0 <= i < |ss| ensures tt[i].name == ss[i].name { CoreAlike(ss[i], tt[i]); }
    FindsSame(ss, tt);
    forall name ensures IndexOf(tt, name) == IndexOf(ss, name) { SameIndex(ss, tt, name); }
    forall i | 0 <= i < |tt| ensures tt[i] == LinkedIn(tt[i], tt) { CoreLink(ss[i], tt[i], ss, tt); }
  }

  lemma CoreLink(s: Section, t: Section, ss: seq<Section>, tt: seq<Section>)
    requires SameCore(s, t) && s == LinkedIn(s, ss) && forall name :: IndexOf(tt, name) == IndexOf(ss, name)
    ensures t == LinkedIn(t, tt)
  {
    hide IndexOf;
  }

  // ------------------------------------------------------------------ the theorem

  /** Relocations that were moved once stay where they are. */
  lemma RelocsAgain(im: Image)
    ensures AllMoved(AllMoved(FinalRelocs(im), Sorted(im.symbols), false), Sorted(im.dynsymbols), true) == FinalRelocs(im)
  {
    hide Sorted, Order;
    var once := AllMoved(im.relocs, im.symbols, false);
    var rs := FinalRelocs(im);
    MovedAgain(im.relocs, im.symbols, false);
    MovedAgain(once, im.dynsymbols, true);
    var first := AllMoved(rs, Sorted(im.symbols), false);
    forall i | 0 <= i < |rs| ensures first[i] == rs[i] {
      assert AllMoved(once, Sorted(im.symbols), false)[i] == once[i];
    }
    assert first == rs;
  }

  /** The regenerated parts of what a build leaves behind. */
  lemma FinalAgain(im: Image)
    ensures var out, left := Built(im), AfterBuild(im);
            && Sorted(left.symbols) == out.symbols && Sorted(left.dynsymbols) == out.dynsymbols
            && out.symbols == Sorted(im.symbols) && out.dynsymbols == Sorted(im.dynsymbols) && out.relocs == FinalRelocs(im)
            && FinalRelocs(left) == out.relocs
            && FinalSections(left) == Linked(WithShStrTab(RelasRebuilt(SymbolsRedone(left.sections, out.symbols, out.dynsymbols), out.relocs)))
  {
    hide Sorted, AllMoved, WithSymTab, WithStrTab, RelasRebuilt, WithShStrTab, Linked, Settled, MetaPart, SegmentsOut, EhdrOut;
    SortedAgain(im.symbols);
    SortedAgain(im.dynsymbols);
    RelocsAgain(im);
  }

  lemma SettledSame(ss: seq<Section>)
    ensures AllSame(ss, Settled(ss))
  {}

  lemma RelPlain(im: Image)
    requires im.ehdr.etype == ET_REL && im.segments == []
    ensures var t := TablesDone(im);
            && IsRel(t) && t.segments == [] && Built(im) == LaidOut(t) && t.sections == FinalSections(im)
            && Built(im).segments == [] && |LaidOut(t).sections| == |t.sections| && Built(im).ehdr.ident == im.ehdr.ident
            && AllCore(FinalSections(im), Built(im).sections)
    ensures var t, t2 := TablesDone(im), TablesDone(AfterBuild(im));
            && t2.ehdr == LaidOut(t).ehdr && t2.base == t.base && t2.segments == [] && t2.sections == FinalSections(AfterBuild(im))
  {
    hide FinalSections, FinalRelocs, Sorted, AnyFresh, FreshSegment, MetaPart, Settled, AllCore, EhdrOut;
    LaidCore(TablesDone(im));
    EhdrIdent(TablesDone(im));
    CoreLength(FinalSections(im), MetaPart(TablesDone(im)).ss);
  }

  lemma EhdrIdent(t: Image)
    ensures EhdrOut(t).ident == t.ehdr.ident
  {
    hide PhOff, ShOff, SegmentsOut, Find;
  }

  lemma CoreLength(ss: seq<Section>, tt: seq<Section>)
    requires AllCore(ss, tt)
    ensures |tt| == |ss|
  {}

  /** What the second build starts from. */
  lemma SecondStart(im: Image)
    requires im.ehdr.etype == ET_REL && im.segments == []
    ensures var left := AfterBuild(im);
            && Done(left.sections, Sorted(im.symbols), Sorted(im.dynsymbols), FinalRelocs(im))
            && (RelasThere(left.sections, FinalRelocs(im)) <==> NoneOrphaned(im))
            && AllSame(Built(im).sections, left.sections) && |left.sections| == |Built(im).sections|
  {
    hide FinalSections, FinalRelocs, Sorted, Settled, AllCore, AllSame, Done, RelasThere, NoneOrphaned, Built;
    RelPlain(im);
    FirstBuild(im);
    SettledSame(Built(im).sections);
    CoreOfFlags(FinalSections(im), Built(im).sections, AfterBuild(im).sections);
    DoneCore(FinalSections(im), AfterBuild(im).sections, Sorted(im.symbols), Sorted(im.dynsymbols), FinalRelocs(im));
  }

  /** Building a relocatable file twice: the second file is the first, byte for
      byte, unless a relocation is orphaned. */
  lemma BuildAgain(im: Image)
    requires im.ehdr.etype == ET_REL && im.segments == [] && |im.ehdr.ident| == 16 && NoneOrphaned(im)
    ensures |AfterBuild(im).ehdr.ident| == 16 && BuiltFile(AfterBuild(im)) == BuiltFile(im)
  {
    hide Sorted, FinalSections, FinalRelocs, MetaPart, AllSame, Settled, FileOf, Total, AllCore, SymbolsRedone, RelasRebuilt,
         WithShStrTab, Linked, Done, RelasThere, NoneOrphaned;
    var out, left := Built(im), AfterBuild(im);
    RelPlain(im);
    SecondStart(im);
    FinalAgain(im);
    TablesAgain(left.sections, out.symbols, out.dynsymbols, out.relocs);
    AllSameTrans(out.sections, left.sections, FinalSections(left));
    var t, t2 := TablesDone(im), TablesDone(left);
    LayoutAgain(t, t2);
    SameFile(out, Built(left), Total(t));
  }

  /** And it adds no section exactly when none is. */
  lemma BuildAgainIff(im: Image)
    requires im.ehdr.etype == ET_REL && im.segments == [] && |im.ehdr.ident| == 16
    ensures |Built(AfterBuild(im)).sections| == |Built(im).sections| <==> NoneOrphaned(im)
  {
    hide Sorted, FinalSections, FinalRelocs, MetaPart, AllSame, Settled, AllCore, SymbolsRedone, RelasRebuilt,
         WithShStrTab, Linked, Done, RelasThere, NoneOrphaned;
    var out, left := Built(im), AfterBuild(im);
    RelPlain(im);
    SecondStart(im);
    FinalAgain(im);
    RelPlain(left);
    if NoneOrphaned(im) {
      TablesAgain(left.sections, out.symbols, out.dynsymbols, out.relocs);
      SameLength(left.sections, FinalSections(left));
    } else {
      TablesGrow(left.sections, out.symbols, out.dynsymbols, out.relocs);
    }
  }

  /** Where nothing overlaps in either file and the sections can be counted, the
      files themselves are the same exactly when no relocation is orphaned. */
  lemma SameFileIff(im: Image)
    requires im.ehdr.etype == ET_REL && im.segments == [] && |im.ehdr.ident| == 16
    requires |Built(im).sections| < 0x1_0000 && |Built(AfterBuild(im)).sections| < 0x1_0000
    requires Disjoint(Built(im), Total(TablesDone(im))) && Disjoint(Built(AfterBuild(im)), Total(TablesDone(AfterBuild(im))))
    ensures |AfterBuild(im).ehdr.ident| == 16
    ensures BuiltFile(AfterBuild(im)) == BuiltFile(im) <==> NoneOrphaned(im)
  {
    hide Sorted, FinalSections, FinalRelocs, MetaPart, Settled, FileOf, Total, NoneOrphaned, Disjoint, EhdrBytes, SegmentsOut;
    RelPlain(im);
    RelPlain(AfterBuild(im));
    if NoneOrphaned(im) {
      BuildAgain(im);
    } else {
      BuildAgainIff(im);
      EhdrInFile(Built(im), Total(TablesDone(im)));
      EhdrInFile(Built(AfterBuild(im)), Total(TablesDone(AfterBuild(im))));
      CountInHeader(Built(im).ehdr, Built(AfterBuild(im)).ehdr);
      CountIs(TablesDone(im));
      CountIs(TablesDone(AfterBuild(im)));
    }
  }

  lemma CountIs(t: Image)
    ensures LaidOut(t).ehdr.shnum == |t.sections| % 0x1_0000
  {
    hide PhOff, ShOff, SegmentsOut, MetaPart, Find;
  }

  lemma CountInHeader(a: Ehdr, b: Ehdr)
    requires |a.ident| == 16 && |b.ident| == 16
    ensures EhdrBytes(a) == EhdrBytes(b) ==> a.shnum == b.shnum
  {
    hide Pack, Unpack;
    if EhdrBytes(a) == EhdrBytes(b) {
      assert EhdrBytes(a)[16..] == Pack(EHDR_FIELDS, EhdrValues(a)) && EhdrBytes(b)[16..] == Pack(EHDR_FIELDS, EhdrValues(b));
      EhdrFits(a);
      EhdrFits(b);
      UnpackPack(EHDR_FIELDS, EhdrValues(a));
      UnpackPack(EHDR_FIELDS, EhdrValues(b));
      assert EhdrValues(a)[11] == a.shnum && EhdrValues(b)[11] == b.shnum;
    }
  }

  /** A file whose table of section names is a relocation section. */
  function Misnamed(ehdr: Ehdr): Image {
    Image(ehdr, [NewSection([], SHT_NULL, 0, 0), NewSection(SHSTRTAB, SHT_RELA, 0, 8).(kind := RelaKind)], [],
          [Symbol([], 0, 0, 0, 0, 0)], [Symbol([], 0, 0, 0, 0, 0)], [Reloc([], 0, 0, 0, 0, false)], 0)
  }

  /** A failing input: the first build turns that section into the table of names,
      the second has to make a new one for the relocation. */
  lemma MisnamedGrows(ehdr: Ehdr)
    requires ehdr.etype == ET_REL && |ehdr.ident| == 16
    ensures var im := Misnamed(ehdr); |Built(AfterBuild(im)).sections| != |Built(im).sections|
  {
    var im := Misnamed(ehdr);
    RoleNames();
    assert im.sections[0].name == [] && im.sections[1].name == SHSTRTAB;
    FindUnique(im.sections, SHSTRTAB, 1);
    hide Built, AfterBuild, Find;
    assert Orphaned(im, im.relocs[0]);
    BuildAgainIff(im);
  }
}
