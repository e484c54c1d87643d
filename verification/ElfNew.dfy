/** A relocatable file as lielf_new makes it meets every condition of the round
    trip, which is therefore not about nothing. */
module ElfNew {
  import opened Words
  import opened ElfNames
  import opened ElfModel
  import opened ElfSort
  import opened ElfTables
  import opened ElfLayout
  import opened ElfSafety
  import opened ElfLoad
  import opened ElfBuild
  import opened ElfRegular
  import opened ElfReadBack
  import opened ElfHeaders
  import opened ElfRoundTrip
  import opened ElfTheorem
  import ElfIdempotent

  const MAGIC: seq<byte> := [0x7F, 0x45, 0x4C, 0x46, 2, 1, 1, 0, 0, 0, 0, 0, 0, 0, 0, 0]

  /** lielf_new: the null section and the null symbols. */
  function NewImage(etype: u16, machine: u16): Image {
    Image(Ehdr(MAGIC, etype, machine, 1, 0, 0, 0, 0, EHDR_SIZE, PHDR_SIZE, 0, SHDR_SIZE, 0, 0), [NULL_SECTION], [],
          [NULL_SYMBOL], [NULL_SYMBOL], [], if etype == ET_EXEC then DEFAULT_BASE_EXEC else 0)
  }

  lemma NewRegular()
    ensures Regular([NULL_SECTION])
    ensures !Has([NULL_SECTION], SYMTAB) && !Has([NULL_SECTION], STRTAB) && !Has([NULL_SECTION], DYNSYM)
            && !Has([NULL_SECTION], DYNSTR) && !Has([NULL_SECTION], SHSTRTAB)
  {
    hide Find;
    RoleNames();
    var ss := [NULL_SECTION];
    assert forall name :: name != [] ==> !Has(ss, name);
    assert RoleOk(ss, 0);
  }

  /** Its tables: only the section names are new. */
  lemma NewSections(machine: u16) returns (sh: Section)
    ensures FinalSections(NewImage(ET_REL, machine)) == [NULL_SECTION, sh]
    ensures sh.name == SHSTRTAB && sh.size == |sh.data| == |StrTab(SecNames([NULL_SECTION, sh]))| && sh.addralign == 1
  {
    hide Find, StrTab;
    var im, ss := NewImage(ET_REL, machine), [NULL_SECTION];
    NewRegular();
    SmallTable([], [NULL_SYMBOL], false);
    SmallTable([], [NULL_SYMBOL], true);
    assert Sorted(im.symbols) == [NULL_SYMBOL];
    NoSymTab(ss, [NULL_SYMBOL], false);
    NoStrTab(ss, [NULL_SYMBOL], false);
    NoSymTab(ss, [NULL_SYMBOL], true);
    NoStrTab(ss, [NULL_SYMBOL], true);
    assert SymbolSections(im) == ss;
    NoRelocs(im);
    sh := NewNames();
  }

  lemma NoRelocs(im: Image)
    requires im.relocs == []
    ensures FinalRelocs(im) == [] && RelasRebuilt([NULL_SECTION], []) == [NULL_SECTION]
  {
    assert Refilled([NULL_SECTION], []) == [NULL_SECTION];
  }

  lemma NewNames() returns (sh: Section)
    ensures Linked(WithShStrTab([NULL_SECTION])) == [NULL_SECTION, sh]
    ensures sh.name == SHSTRTAB && sh.size == |sh.data| == |StrTab(SecNames([NULL_SECTION, sh]))| && sh.addralign == 1
  {
    hide Find, StrTab;
    NewRegular();
    var blank := NewTable(SHSTRTAB, SHT_STRTAB, false, 1);
    var ss := [NULL_SECTION];
    FindAppended(ss, blank, SHSTRTAB);
    var all := ss + [blank];
    assert Ensured(ss, blank) == all;
    var bytes := StrTab(SecNames(all));
    sh := Updated(blank.(kind := ShStrTabKind, typ := SHT_STRTAB, entsize := 0), bytes);
    var tt := [NULL_SECTION, sh];
    assert WithShStrTab(ss) == tt;
    assert SecNames(all) == SecNames(tt);
    NamesSize(SecNames(all));
    assert Linked(tt) == tt;
  }

  lemma NamesSize(ns: seq<Name>)
    requires |ns| == 2 && |ns[0]| == 0 && |ns[1]| == 9
    ensures |StrTab(ns)| == 12
  {
    assert ns[..2] == ns;
    OffsetsAgree(ns, 2);
    assert NameOff(ns, 2) == NameOff(ns, 1) + 10;
    assert NameOff(ns, 1) == NameOff(ns, 0) + 1;
  }

  lemma NewRoomy(machine: u16)
    ensures var im := NewImage(ET_REL, machine);
            Roomy(TablesDone(im)) && |StrTab(SecNames(FinalSections(im)))| < TWO32 && |FinalSections(im)| == 2
  {
    hide Find, StrTab, FinalSections;
    var im := NewImage(ET_REL, machine);
    var sh := NewSections(machine);
    var ss := [NULL_SECTION, sh];
    assert |SecNames(ss)[0]| == 0 && |SecNames(ss)[1]| == 9;
    NamesSize(SecNames(ss));
    var t := TablesDone(im);
    assert t.sections == ss;
    NoneFixed(t);
    assert Budget(ss, 1) == 1;
    assert Budget(ss, 2) == Budget(ss, 1) + FileSize(sh) + 2;
    OneAligned();
  }

  lemma NoneFixed(t: Image)
    requires t.ehdr.etype == ET_REL && t.segments == []
    ensures FixedEnd(t) == EHDR_SIZE && HeadEnd(t) == EHDR_SIZE
    ensures forall i: nat :: !Keeps(t, i)
  {
    ElfIdempotent.FixedNone(t.sections, |t.sections|, SettingOf(t), EHDR_SIZE);
  }

  /** A new relocatable file comes back. */
  lemma NewReturns(machine: u16)
    ensures Returns(NewImage(ET_REL, machine))
  {
    hide Find, StrTab, FinalSections, Roomy, Regular, TablesDone;
    NewRegular();
    NewRoomy(machine);
    SmallTable([], [NULL_SYMBOL], false);
    var im := NewImage(ET_REL, machine);
    assert Sorted(im.symbols) == [NULL_SYMBOL];
    NoStrings();
    assert MAGIC[..6] == [0x7F, 0x45, 0x4C, 0x46, 2, 1];
  }

  lemma NoStrings()
    ensures |StrBytes([NULL_SYMBOL])| == 1
  {
    assert Names(Named([NULL_SYMBOL])) == [];
  }

  // --------------------------------------------------------------- and by adding

  /** Nothing outgrows its field, and the layout has room. */
  ghost predicate HasRoom(im: Image) { Small(im) && |FinalSections(im)| < 0x1_0000 && Roomy(TablesDone(im)) }

  /** A section that a program adds for itself. */
  ghost predicate Ordinary(s: Section) {
    SectionOk(s) && s.kind == Normal && RoleType(s.name).None? && s.typ !in {SHT_SYMTAB, SHT_DYNSYM, SHT_RELA}
  }

  /** Adding an ordinary section keeps what the round trip needs. */
  lemma AddSectionReturns(im: Image, s: Section)
    requires Returns(im) && Ordinary(s) && HasRoom(im.(sections := im.sections + [s]))
    ensures Returns(im.(sections := im.sections + [s]))
  {
    hide Find, RoleType, Small, Roomy, FinalSections, TablesDone, TableOkIn, SectionOk, NameOk;
    var tt := im.sections + [s];
    AddRegular(im.sections, s);
    forall i | 0 <= i < |im.relocs| && im.relocs[i].target != [] ensures Has(tt, im.relocs[i].target) {
      FindAppended(im.sections, s, im.relocs[i].target);
    }
    FindAppended(im.sections, s, DYNSYM);
  }

  lemma AddRegular(ss: seq<Section>, s: Section)
    requires Regular(ss) && Ordinary(s)
    ensures Regular(ss + [s])
  {
    hide Find, SectionOk, RoleType;
    var tt := ss + [s];
    FindAppended(ss, s, SYMTAB);
    FindAppended(ss, s, DYNSYM);
    forall i | 0 <= i < |tt| ensures RoleOk(tt, i) {
      FindAppended(ss, s, tt[i].name);
      if i < |ss| { assert RoleOk(ss, i); }
    }
    forall i: nat, j: nat | i < j && IsRela(tt, i) && IsRela(tt, j)
      ensures tt[i].relaTarget != tt[j].relaTarget || tt[i].relaDynamic != tt[j].relaDynamic
    {
      assert IsRela(ss, i) && IsRela(ss, j);
    }
  }

  /** So does adding a symbol. */
  lemma AddSymbolReturns(im: Image, sym: Symbol)
    requires Returns(im) && NameOk(sym.name) && HasRoom(im.(symbols := im.symbols + [sym]))
    ensures Returns(im.(symbols := im.symbols + [sym]))
  {
    hide Find, Regular, Small, Roomy, FinalSections, TablesDone, NameOk;
    AddName(im.symbols, sym);
  }

  lemma AddName(syms: seq<Symbol>, sym: Symbol)
    requires TableOkIn(syms) && NameOk(sym.name)
    ensures TableOkIn(syms + [sym])
  {
    hide NameOk;
    var all := syms + [sym];
    forall i | 0 <= i < |all| ensures NameOk(Names(all)[i]) {
      if i < |syms| { assert Names(all)[i] == Names(syms)[i]; }
    }
  }

  /** And adding a relocation of a section that exists. */
  lemma AddRelocReturns(im: Image, r: Reloc)
    requires Returns(im) && !r.dynamic && NameOk(r.target) && Has(im.sections, r.target)
    requires HasRoom(im.(relocs := im.relocs + [r]))
    ensures Returns(im.(relocs := im.relocs + [r]))
  {
    hide Find, Regular, Small, Roomy, FinalSections, TablesDone, NameOk, TableOkIn;
    var all := im.relocs + [r];
    forall i | 0 <= i < |all|
      ensures NameOk(all[i].target) && (all[i].target == [] || Has(im.sections, all[i].target))
      ensures all[i].dynamic ==> |im.dynsymbols| > 1 || Has(im.sections, DYNSYM)
    {
      if i < |im.relocs| { assert all[i] == im.relocs[i]; }
    }
  }
}
