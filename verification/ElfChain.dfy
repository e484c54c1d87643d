/** Following a built relocation to its symbol: entry, symbol-table row, name. */
module ElfChain {
  import opened Words
  import opened ElfStruct
  import opened ElfNames
  import opened ElfModel
  import opened ElfSort
  import opened ElfTables
  import opened ElfBuild
  import opened ElfRegular

  lemma {:induction false} GroupHas(rs: seq<Reloc>, s: Section, i: nat) returns (j: nat)
    requires i < |rs| && Matches(rs[i], s)
    ensures j < |Group(rs, s)| && Group(rs, s)[j] == rs[i]
    decreases |rs|
  {
    hide Matches;
    var last := |rs| - 1;
    if i == last {
      j := |Group(rs[..last], s)|;
    } else {
      j := GroupHas(rs[..last], s, i);
    }
  }

  /** Relocations of one group keep their order: the group is stable. */
  lemma {:induction false} GroupStable(rs: seq<Reloc>, s: Section, j: nat, j': nat) returns (i: nat, i': nat)
    requires j < j' < |Group(rs, s)|
    ensures i < i' < |rs| && rs[i] == Group(rs, s)[j] && rs[i'] == Group(rs, s)[j']
    decreases |rs|
  {
    hide Matches;
    var last := |rs| - 1;
    var most := Group(rs[..last], s);
    if j' < |most| {
      i, i' := GroupStable(rs[..last], s, j, j');
    } else {
      i := GroupMember(rs[..last], s, j);
      i' := last;
    }
  }

  lemma {:induction false} GroupMember(rs: seq<Reloc>, s: Section, j: nat) returns (i: nat)
    requires j < |Group(rs, s)|
    ensures i < |rs| && rs[i] == Group(rs, s)[j] && Matches(rs[i], s)
    decreases |rs|
  {
    hide Matches;
    var last := |rs| - 1;
    if j < |Group(rs[..last], s)| {
      i := GroupMember(rs[..last], s, j);
    } else {
      i := last;
    }
  }

  /** A relocation of either kind, after both sorts. */
  lemma FinalReloc(im: Image, i: nat)
    requires i < |im.relocs| && |im.symbols| < TWO32 && |im.dynsymbols| < TWO32
    ensures |FinalRelocs(im)| == |im.relocs|
    ensures var r := im.relocs[i];
            FinalRelocs(im)[i] == Moved(r, SymsOf(im, r.dynamic), r.dynamic)
  {
    hide Order, Place;
  }

  /** Fields of a table row and the name it points to. */
  ghost predicate RowSays(table: Section, strings: Section, row: nat, s: Symbol) {
    && SYM_SIZE * (row + 1) <= |table.data| && Width(SYM_FIELDS) == SYM_SIZE
    && |Row(table.data, SYM_SIZE, row)| == SYM_SIZE
    && var v := Unpack(SYM_FIELDS, Row(table.data, SYM_SIZE, row));
    && v[1] == s.info && v[2] == s.other && v[3] == s.shndx && v[4] == s.value && v[5] == s.size
    && CString(strings.data, v[0]) == s.name
  }

  /** The fields of an entry of a relocation section. */
  ghost predicate EntrySays(s: Section, entry: nat, r: Reloc, sym: nat) {
    && RELA_SIZE * (entry + 1) <= |s.data| && Width(RELA_FIELDS) == RELA_SIZE
    && |Row(s.data, RELA_SIZE, entry)| == RELA_SIZE
    && Unpack(RELA_FIELDS, Row(s.data, RELA_SIZE, entry)) == [r.offset, sym * TWO32 + r.typ, r.addend]
  }

  lemma RowFacts(ss: seq<Section>, syms: seq<Symbol>, dynamic: bool, row: nat)
    requires SymFact(ss, syms, dynamic) && StrFact(ss, syms, dynamic) && |syms| > 1
    requires row < |syms| < TWO32 && NamesOk(Names(Named(syms))) && |StrBytes(syms)| < TWO32
    requires row == 0 ==> syms[0].name == []
    ensures Has(ss, SymSectionName(dynamic)) && Has(ss, StrSectionName(dynamic))
    ensures RowSays(ss[Find(ss, SymSectionName(dynamic))], ss[Find(ss, StrSectionName(dynamic))], row, syms[row])
  {
    hide Find, CString, StrTab, Pack, Unpack, SymBytes;
    SymRowBack(syms, row);
    NamesAgree(syms, row);
    SmallMod(SymNameOff(syms, row));
  }

  lemma SmallMod(x: nat)
    ensures x < TWO32 ==> x % TWO32 == x
  {}

  /** gABI chapter 4, end to end: for every relocation there is a relocation
      section for its target, linked to the right symbol table, with an entry that
      has its place, type and addend and a symbol index whose row holds the fields,
      and whose name offset leads to the name, of the symbol that the relocation
      denoted before the build. */
  lemma RelocFollowed(im: Image, i: nat) returns (section: nat, entry: nat, row: nat)
    requires Regular(im.sections) && Small(im) && TargetsOk(im.relocs)
    requires i < |im.relocs|
    requires var syms := SymsOf(im, im.relocs[i].dynamic);
             && 1 < |syms| && im.relocs[i].sym < |syms| && syms[0].name == [] && NamesOk(Names(syms))
    requires |FinalSections(im)| < TWO32
    ensures var r, ss := im.relocs[i], FinalSections(im);
            var dynamic := r.dynamic;
            && section < |ss| && ss[section].typ == SHT_RELA && ss[section].relaTarget == r.target
            && Has(ss, SymSectionName(dynamic)) && ss[section].link == Find(ss, SymSectionName(dynamic))
            && EntrySays(ss[section], entry, r, row)
            && var table := ss[ss[section].link];
            && table.typ == SymType(dynamic) && table.link < |ss|
            && RowSays(table, ss[table.link], row, SymsOf(im, dynamic)[r.sym])
            && table.info == FirstGlobal(Sorted(SymsOf(im, dynamic)))
  {
    hide Find, SymBytes, StrBytes, Regular, Sorted, RelaBytes, StrTab, SectionOk, RowSays, EntrySays, Unpack, CString, FinalSections,
         FinalRelocs, Order, Moved, SymFact, StrFact, RelaFact, ShFact, LinkFact, Small, TargetsOk;
    FinalFacts(im);
    var r, ss, rs := im.relocs[i], FinalSections(im), FinalRelocs(im);
    var dynamic := r.dynamic;
    var before := SymsOf(im, dynamic);
    SmallCounts(im);
    FinalReloc(im, i);
    MovedDenotes(r, before, dynamic);
    row := rs[i].sym;
    section, entry := SectionOfReloc(ss, rs, i);
    EntrySame(ss[section], entry, rs[i], r, row);
    SortedNames(before);
    FactOf(ss, im, dynamic);
    RowFacts(ss, Sorted(before), dynamic, row);
    LinksRight(ss, section, dynamic);
    InfoOf(ss, Sorted(before), dynamic);
  }

  lemma EntrySame(s: Section, entry: nat, a: Reloc, b: Reloc, sym: nat)
    requires EntrySays(s, entry, a, sym) && b.(sym := a.sym) == a
    ensures EntrySays(s, entry, b, sym)
  {
    hide Unpack;
  }

  lemma SmallCounts(im: Image)
    requires Small(im)
    ensures |im.symbols| < TWO32 && |im.dynsymbols| < TWO32
    ensures |StrBytes(Sorted(im.symbols))| < TWO32 && |StrBytes(Sorted(im.dynsymbols))| < TWO32
  {}

  lemma FactOf(ss: seq<Section>, im: Image, dynamic: bool)
    requires Facts(ss, Sorted(im.symbols), Sorted(im.dynsymbols), FinalRelocs(im))
    ensures SymFact(ss, Sorted(SymsOf(im, dynamic)), dynamic) && StrFact(ss, Sorted(SymsOf(im, dynamic)), dynamic)
    ensures Regular(ss) && LinkFact(ss)
  {
    hide SymFact, StrFact, Regular, LinkFact, RelaFact, ShFact, Sorted, FinalRelocs;
  }

  lemma InfoOf(ss: seq<Section>, syms: seq<Symbol>, dynamic: bool)
    requires SymFact(ss, syms, dynamic) && 1 < |syms| < TWO32
    ensures Has(ss, SymSectionName(dynamic)) && ss[Find(ss, SymSectionName(dynamic))].info == FirstGlobal(syms)
  {
    hide Find, SymBytes;
    SmallMod(FirstGlobal(syms));
  }

  lemma SectionOfReloc(ss: seq<Section>, rs: seq<Reloc>, i: nat) returns (section: nat, entry: nat)
    requires RelaFact(ss, rs) && i < |rs|
    ensures section < |ss| && ss[section].kind == RelaKind
    ensures ss[section].relaDynamic == rs[i].dynamic && ss[section].relaTarget == rs[i].target
    ensures EntrySays(ss[section], entry, rs[i], rs[i].sym)
  {
    hide RelaBytes, EntrySays;
    assert HasRela(ss, rs[i].target, rs[i].dynamic);
    section :| 0 <= section < |ss| && ss[section].kind == RelaKind && ss[section].relaDynamic == rs[i].dynamic
               && ss[section].relaTarget == rs[i].target;
    entry := EntryOf(ss[section], rs, i);
  }

  lemma EntryOf(s: Section, rs: seq<Reloc>, i: nat) returns (entry: nat)
    requires i < |rs| && Matches(rs[i], s) && s.data == RelaBytes(rs, s)
    ensures EntrySays(s, entry, rs[i], rs[i].sym)
  {
    hide Unpack, RelaRow, Group;
    entry := GroupHas(rs, s, i);
    RelaRowBack(Group(rs, s), entry);
    RelaWidth();
  }

  lemma SortedNames(syms: seq<Symbol>)
    requires NamesOk(Names(syms)) && |syms| > 1 && syms[0].name == []
    ensures NamesOk(Names(Named(Sorted(syms)))) && Sorted(syms)[0].name == []
  {
    hide Order;
    OrderPermutes(syms);
    var t := Sorted(syms);
    forall i | 0 <= i < |t| - 1 ensures NameOk(Names(Named(t))[i]) {
      assert Names(Named(t))[i] == t[i + 1].name == Names(syms)[Order(syms)[i + 1]];
    }
  }

  /** The links of a relocation section and of the symbol table behind it. */
  lemma LinksRight(ss: seq<Section>, section: nat, dynamic: bool)
    requires Regular(ss) && LinkFact(ss) && |ss| < TWO32
    requires section < |ss| && ss[section].kind == RelaKind && ss[section].relaDynamic == dynamic
    requires Has(ss, SymSectionName(dynamic)) && Has(ss, StrSectionName(dynamic))
    ensures var t := Find(ss, SymSectionName(dynamic));
            && ss[section].typ == SHT_RELA && ss[section].link == t
            && ss[t].typ == SymType(dynamic) && ss[t].link == Find(ss, StrSectionName(dynamic))
  {
    hide Find, LinkedIn, SectionOk, Regular, LinkFact;
    var t := Find(ss, SymSectionName(dynamic));
    RoleNotRela(ss, SymSectionName(dynamic));
    TypedKind(ss, t);
    TypedKind(ss, section);
    LinkedAt(ss, t);
    LinkedAt(ss, section);
  }

  lemma TypedKind(ss: seq<Section>, i: nat)
    requires Regular(ss) && i < |ss|
    ensures ss[i].kind == RelaKind <==> ss[i].typ == SHT_RELA
    ensures ss[i].kind == SymTabKind <==> ss[i].typ == SHT_SYMTAB
    ensures ss[i].kind == DynSymKind <==> ss[i].typ == SHT_DYNSYM
  {
    hide Find, RoleOk, IsRela;
    if i > 0 { assert SectionOk(ss[i]); }
  }

  lemma LinkedAt(ss: seq<Section>, i: nat)
    requires LinkFact(ss) && i < |ss|
    ensures ss[i].kind == SymTabKind ==> ss[i].link == IndexOf(ss, STRTAB) % TWO32
    ensures ss[i].kind == DynSymKind ==> ss[i].link == IndexOf(ss, DYNSTR) % TWO32
    ensures ss[i].kind == RelaKind ==> ss[i].link == IndexOf(ss, SymSectionName(ss[i].relaDynamic)) % TWO32
    ensures ss[i].kind == RelaKind ==> ss[i].info == if ss[i].relaTarget == [] then 0 else IndexOf(ss, ss[i].relaTarget) % TWO32
  {
    hide IndexOf, LinkedIn;
    LinkOf(ss[i], ss);
  }

  lemma LinkOf(s: Section, ss: seq<Section>)
    requires s == LinkedIn(s, ss)
    ensures s.kind == SymTabKind ==> s.link == IndexOf(ss, STRTAB) % TWO32
    ensures s.kind == DynSymKind ==> s.link == IndexOf(ss, DYNSTR) % TWO32
    ensures s.kind == RelaKind ==> s.link == IndexOf(ss, SymSectionName(s.relaDynamic)) % TWO32
    ensures s.kind == RelaKind ==> s.info == if s.relaTarget == [] then 0 else IndexOf(ss, s.relaTarget) % TWO32
  {
    hide IndexOf;
  }
}
