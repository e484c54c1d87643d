/** Loading a built relocatable file gives the model back. */
module ElfRoundTrip {
  import opened Words
  import opened ElfStruct
  import opened ElfNames
  import opened ElfModel
  import opened ElfSort
  import opened ElfTables
  import opened ElfLayout
  import opened ElfSafety
  import opened ElfFile
  import opened ElfLoad
  import opened ElfBuild
  import opened ElfRegular
  import opened ElfChain
  import opened ElfReadBack
  import opened ElfHeaders

  // ------------------------------------------------------------ classification

  /** The same section but for what classification sets. */
  predicate SameBytes(s: Section, t: Section) {
    t.(kind := s.kind, relaTarget := s.relaTarget, relaDynamic := s.relaDynamic) == s
  }

  predicate IsTable(typ: u32) { typ in {SHT_SYMTAB, SHT_DYNSYM, SHT_RELA} }

  /** Symbol tables link to no table. */
  predicate LinksSafe(ss: seq<Section>) {
    forall i :: 0 <= i < |ss| && ss[i].typ in {SHT_SYMTAB, SHT_DYNSYM} ==> ss[i].link < |ss| && !IsTable(ss[ss[i].link].typ)
  }

  /** The kind says what the type says, once section i has been looked at. */
  predicate KindSays(s: Section, seen: bool) {
    && (s.kind == SymTabKind ==> s.typ == SHT_SYMTAB) && (s.kind == DynSymKind ==> s.typ == SHT_DYNSYM)
    && (s.kind == RelaKind ==> s.typ == SHT_RELA)
    && (seen && s.typ == SHT_SYMTAB ==> s.kind == SymTabKind) && (seen && s.typ == SHT_DYNSYM ==> s.kind == DynSymKind)
    && (seen && s.typ == SHT_RELA ==> s.kind == RelaKind)
  }

  /** A relocation section knows its target and its table by its links. */
  predicate RelaSays(ss: seq<Section>, s: Section) {
    && (s.info < |ss| ==> s.relaTarget == ss[s.info].name)
    && (s.link < |ss| ==> s.relaDynamic == (ss[s.link].typ == SHT_DYNSYM))
  }

  ghost predicate Recognised(ss: seq<Section>, tt: seq<Section>, n: nat) {
    && |tt| == |ss| && n <= |ss|
    && (forall i :: 0 <= i < |ss| ==> SameBytes(ss[i], tt[i]) && KindSays(tt[i], i < n))
    && (forall i :: 0 <= i < n && ss[i].typ == SHT_RELA ==> RelaSays(ss, tt[i]))
  }

  lemma SameFields(s: Section, t: Section)
    requires SameBytes(s, t)
    ensures t.name == s.name && t.typ == s.typ && t.link == s.link && t.info == s.info && t.data == s.data && t.size == s.size
            && t.entsize == s.entsize
  {}

  lemma RecogniseStep(ss: seq<Section>, tt: seq<Section>, n: nat)
    requires n < |ss| && Recognised(ss, tt, n) && LinksSafe(ss)
    ensures Recognised(ss, Classified(tt, n), n + 1)
  {
    hide SameBytes, KindSays, Classified, RelaSays, LinksSafe;
    var r := Classified(tt, n);
    assert |tt| == |ss|;
    SameFields(ss[n], tt[n]);
    if tt[n].link < |ss| { SameFields(ss[tt[n].link], tt[tt[n].link]); }
    if tt[n].info < |ss| { SameFields(ss[tt[n].info], tt[tt[n].info]); }
    SafeAt(ss, n);
    forall i | 0 <= i < |ss|
      ensures SameBytes(ss[i], r[i]) && KindSays(r[i], i < n + 1)
      ensures i < n + 1 && ss[i].typ == SHT_RELA ==> RelaSays(ss, r[i])
    {
      SameFields(ss[i], tt[i]);
      ClassifiedOne(tt, n, i);
      SameAfter(ss[i], tt[i], r[i]);
      if i == n && ss[n].typ == SHT_RELA { RelaHere(ss, tt, n); }
    }
  }

  lemma SafeAt(ss: seq<Section>, n: nat)
    requires LinksSafe(ss) && n < |ss|
    ensures ss[n].typ in {SHT_SYMTAB, SHT_DYNSYM} ==> ss[n].link < |ss| && !IsTable(ss[ss[n].link].typ)
  {}

  lemma ClassifiedOne(tt: seq<Section>, n: nat, i: nat)
    requires n < |tt| && i < |tt| && KindSays(tt[i], i < n)
    requires tt[n].typ in {SHT_SYMTAB, SHT_DYNSYM} ==> tt[n].link < |tt| && !IsTable(tt[tt[n].link].typ)
    ensures var r := Classified(tt, n);
            && tt[i].(kind := r[i].kind, relaTarget := r[i].relaTarget, relaDynamic := r[i].relaDynamic) == r[i]
            && KindSays(r[i], i < n + 1)
            && (tt[i].typ == SHT_RELA && i < n ==> r[i] == tt[i])
  {}

  lemma RelaHere(ss: seq<Section>, tt: seq<Section>, n: nat)
    requires n < |tt| == |ss| && tt[n].typ == SHT_RELA
    requires tt[n].info < |ss| ==> tt[tt[n].info].name == ss[tt[n].info].name
    requires tt[n].link < |ss| ==> tt[tt[n].link].typ == ss[tt[n].link].typ
    ensures RelaSays(ss, Classified(tt, n)[n])
  {}

  lemma SameAfter(s: Section, t: Section, r: Section)
    requires SameBytes(s, t) && t.(kind := r.kind, relaTarget := r.relaTarget, relaDynamic := r.relaDynamic) == r
    ensures SameBytes(s, r)
  {}

  lemma {:induction false} RecogniseTo(ss: seq<Section>, tt: seq<Section>, n: nat)
    requires n <= |ss| && Recognised(ss, tt, 0) && LinksSafe(ss)
    ensures Recognised(ss, ClassifiedTo(tt, n), n)
  {
    hide Recognised, Classified, LinksSafe;
    assert |tt| == |ss| by { RecognisedSize(ss, tt); }
    if n > 0 {
      RecogniseTo(ss, tt, n - 1);
      RecogniseStep(ss, ClassifiedTo(tt, n - 1), n - 1);
    }
  }

  lemma RecognisedSize(ss: seq<Section>, tt: seq<Section>)
    requires Recognised(ss, tt, 0)
    ensures |tt| == |ss|
  {}

  lemma BareRecognised(ss: seq<Section>, at: nat)
    requires forall i :: 0 <= i < |ss| ==> ss[i].kind == Normal
    ensures Recognised(ss, WithKind(ss, at, ShStrTabKind), 0) && Recognised(ss, ss, 0)
  {}

  // ------------------------------------------------------------ reading tables

  lemma SymFits(s: Symbol, nameOff: nat)
    ensures Fits(SYM_FIELDS, SymValues(s, nameOff))
  {
    Pow256Values();
    hide Pow256;
    var w := SYM_FIELDS;
    assert w[0] == 4 && w[1] == 1 && w[2] == 1 && w[3] == 2 && w[4] == 8 && w[5] == 8;
  }

  /** A table of symbols read back with its strings. */
  lemma SymsBack(syms: seq<Symbol>)
    requires |syms| > 0 && syms[0].name == [] && NamesOk(Names(Named(syms))) && |StrBytes(syms)| < TWO32
    ensures ReadSyms(SymBytes(syms), StrBytes(syms), |syms|) == syms
  {
    hide SymBytes, StrBytes, Unpack, CString, Row, SymValues;
    var table, strings := SymBytes(syms), StrBytes(syms);
    forall i | 0 <= i < |syms|
      ensures SYM_SIZE * (i + 1) <= |table| && ReadSym(table, strings, i) == syms[i]
    {
      SymRowBack(syms, i);
      NamesAgree(syms, i);
      SymFromRow(syms[i], SymNameOff(syms, i), strings);
      SmallMod(SymNameOff(syms, i));
    }
  }

  lemma SymFromRow(s: Symbol, nameOff: nat, strings: seq<byte>)
    requires nameOff < |strings| < TWO32 && CString(strings, nameOff) == s.name
    ensures Fits(SYM_FIELDS, SymValues(s, nameOff)) && ToSym(SymValues(s, nameOff), strings) == s
  {
    SymFits(s, nameOff);
    SmallMod(nameOff);
  }

  /** The entry of a table of zeros is the null symbol. */
  lemma ZerosRead(strings: seq<byte>)
    requires strings == [] || strings == [0]
    ensures ReadSyms(Zeros(SYM_SIZE), strings, 1) == [NULL_SYMBOL]
  {
    hide Unpack;
    SymWidth();
    var row := Row(Zeros(SYM_SIZE), SYM_SIZE, 0);
    assert row == Zeros(SYM_SIZE);
    UnpackZeros(SYM_FIELDS, row);
    var v := Unpack(SYM_FIELDS, row);
    assert v[0] == 0 && v[1] == 0 && v[2] == 0 && v[3] == 0 && v[4] == 0 && v[5] == 0;
    assert ReadSym(Zeros(SYM_SIZE), strings, 0) == NULL_SYMBOL;
  }

  lemma RelaFits(r: Reloc)
    ensures Fits(RELA_FIELDS, RelaValues(r))
  {
    Pow256Values();
    hide Pow256;
    assert RELA_FIELDS[0] == 8 && RELA_FIELDS[1] == 8 && RELA_FIELDS[2] == 8;
  }

  lemma SplitInfo(sym: u32, typ: u32)
    ensures (sym * TWO32 + typ) / TWO32 == sym && (sym * TWO32 + typ) % TWO32 == typ
  {}

  /** The entries of a relocation section read back as its group. */
  lemma RelasBack(g: seq<Reloc>, s: Section)
    requires forall i :: 0 <= i < |g| ==> Matches(g[i], s)
    ensures RELA_SIZE * |g| == |Rows(RelaRows(g))|
    ensures ReadRelas(Rows(RelaRows(g)), s, |g|) == g
  {
    hide Rows, RelaRows, Unpack, Row;
    RowsSize(RelaRows(g), RELA_SIZE);
    var table := Rows(RelaRows(g));
    forall i | 0 <= i < |g|
      ensures RELA_SIZE * (i + 1) <= |table| && ReadRela(table, s, i) == g[i]
    {
      RelaRowBack(g, i);
      RelaFits(g[i]);
      SplitInfo(g[i].sym, g[i].typ);
    }
  }

  // ------------------------------------------------------- the loaded sections

  /** What is known of a built list of sections and its relocations. */
  ghost predicate Linkable(ss: seq<Section>, syms: seq<Symbol>, dynsyms: seq<Symbol>, rs: seq<Reloc>) {
    && Facts(ss, syms, dynsyms, rs) && |ss| < TWO32
    && (forall i :: 0 <= i < |rs| ==> rs[i].target == [] || Has(ss, rs[i].target))
    && (forall i :: 0 <= i < |rs| && rs[i].dynamic ==> Has(ss, DYNSYM))
    && SymsOk(syms) && SymsOk(dynsyms)
  }

  /** A table of symbols starts with the null symbol; with no other, it is only
      that. */
  predicate SymsOk(syms: seq<Symbol>) {
    && 0 < |syms| < TWO32 && NamesOk(Names(Named(syms))) && |StrBytes(syms)| < TWO32
    && (if |syms| == 1 then syms[0] == NULL_SYMBOL else syms[0].name == [])
  }

  /** Sections as a loader leaves them. */
  ghost predicate LoadedAs(ss: seq<Section>, cs: seq<Section>) {
    |cs| == |ss| && exists bare: seq<Section> :: |bare| == |ss| && (forall i :: 0 <= i < |ss| ==> bare[i] == BareAt(ss, i)) && Recognised(bare, cs, |ss|)
  }

  /** The parts of a loaded section that tables are read from. */
  ghost predicate CellOf(ss: seq<Section>, cs: seq<Section>, i: nat)
    requires |cs| == |ss|
  {
    i < |ss| ==>
      && cs[i].data == ss[i].data && KindSays(cs[i], true) && cs[i].typ == ss[i].typ
      && (i > 0 ==> cs[i].link == ss[i].link && cs[i].entsize == ss[i].entsize && cs[i].size == ss[i].size)
  }

  lemma LoadedCell(ss: seq<Section>, cs: seq<Section>, i: nat)
    requires Regular(ss) && LoadedAs(ss, cs)
    ensures CellOf(ss, cs, i)
  {
    hide Find, RoleOk, SectionOk, IsRela;
    var bare: seq<Section> :| |bare| == |ss| && (forall i :: 0 <= i < |ss| ==> bare[i] == BareAt(ss, i)) && Recognised(bare, cs, |ss|);
    if i < |ss| {
      SameFields(bare[i], cs[i]);
      assert KindSays(cs[i], true);
    }
  }

  /** A relocation section with entries finds its target and its table again. */
  lemma LoadedRela(ss: seq<Section>, cs: seq<Section>, i: nat)
    requires Regular(ss) && LinkFact(ss) && |ss| < TWO32 && LoadedAs(ss, cs)
    requires i < |ss| && ss[i].kind == RelaKind
    requires ss[i].relaTarget == [] || Has(ss, ss[i].relaTarget)
    requires ss[i].relaDynamic ==> Has(ss, DYNSYM)
    ensures cs[i].relaTarget == ss[i].relaTarget && cs[i].relaDynamic == ss[i].relaDynamic
  {
    hide Find, RoleOk, SectionOk, IsRela, LinkFact, Regular, LoadedAs;
    TypedKind(ss, i);
    FirstSection(ss);
    LinkedAt(ss, i);
    RelaSaysBack(ss, cs, i);
    var name := SymSectionName(ss[i].relaDynamic);
    if Has(ss, name) { RoleNotRela(ss, name); }
  }

  lemma RelaSaysBack(ss: seq<Section>, cs: seq<Section>, i: nat)
    requires LoadedAs(ss, cs) && 0 < i < |ss| && ss[i].typ == SHT_RELA && ss[0].name == [] && ss[0].typ == SHT_NULL
    ensures |cs| == |ss|
    ensures ss[i].info < |ss| ==> cs[i].relaTarget == ss[ss[i].info].name
    ensures ss[i].link < |ss| ==> cs[i].relaDynamic == (ss[ss[i].link].typ == SHT_DYNSYM)
  {
    var bare: seq<Section> :| |bare| == |ss| && (forall i :: 0 <= i < |ss| ==> bare[i] == BareAt(ss, i)) && Recognised(bare, cs, |ss|);
    hide KindSays;
    SameFields(bare[i], cs[i]);
    assert RelaSays(bare, cs[i]);
  }

  lemma FirstSection(ss: seq<Section>)
    requires Regular(ss)
    ensures |ss| > 0 && ss[0].name == [] && ss[0].typ == SHT_NULL && ss[0].kind == Normal && ss[0].data == []
  {}

  lemma BareLinksSafe(ss: seq<Section>, bare: seq<Section>)
    requires Regular(ss) && LinkFact(ss) && |ss| < TWO32
    requires |bare| == |ss| && forall i :: 0 <= i < |ss| ==> bare[i] == BareAt(ss, i)
    ensures LinksSafe(bare)
  {
    hide Find, RoleOk, SectionOk, IsRela, LinkFact, Regular;
    FirstSection(ss);
    forall i | 0 <= i < |bare| && bare[i].typ in {SHT_SYMTAB, SHT_DYNSYM}
      ensures bare[i].link < |bare| && !IsTable(bare[bare[i].link].typ)
    {
      TypedKind(ss, i);
      LinkedAt(ss, i);
      if Has(ss, STRTAB) { RoleNotRela(ss, STRTAB); }
      if Has(ss, DYNSTR) { RoleNotRela(ss, DYNSTR); }
    }
  }

  // -------------------------------------------------------------------- parsing

  /** What the table of one kind contributes. */
  function SymsRead(ss: seq<Section>, syms: seq<Symbol>, dynamic: bool): seq<Symbol> {
    if |syms| > 1 then syms
    else if Has(ss, SymSectionName(dynamic)) && ss[Find(ss, SymSectionName(dynamic))].entsize != 0 then [NULL_SYMBOL]
    else []
  }

  /** The relocations of all relocation sections among the first n. */
  function GroupedTo(ss: seq<Section>, rs: seq<Reloc>, n: nat): seq<Reloc>
    requires n <= |ss|
  {
    if n == 0 then []
    else GroupedTo(ss, rs, n - 1) + if ss[n - 1].kind == RelaKind then Group(rs, ss[n - 1]) else []
  }

  /** The strings a table of symbols links to. */
  lemma StringsBack(ss: seq<Section>, cs: seq<Section>, syms: seq<Symbol>, dynamic: bool, i: nat)
    requires Regular(ss) && LinkFact(ss) && |ss| < TWO32 && LoadedAs(ss, cs) && StrFact(ss, syms, dynamic)
    requires i < |ss| && ss[i].typ == SymType(dynamic)
    ensures if |syms| > 1 then StringsOf(cs, cs[i]) == StrBytes(syms) else StringsOf(cs, cs[i]) in {[], [0]}
  {
    hide Find, RoleOk, SectionOk, IsRela, LinkFact, Regular, LoadedAs, StrBytes, KindSays;
    TypedKind(ss, i);
    FirstSection(ss);
    LinkedAt(ss, i);
    LoadedCell(ss, cs, i);
    LoadedSize(ss, cs);
    LoadedCell(ss, cs, IndexOf(ss, StrSectionName(dynamic)));
  }

  lemma LoadedSize(ss: seq<Section>, cs: seq<Section>)
    requires LoadedAs(ss, cs)
    ensures |cs| == |ss|
  {}

  lemma SymSectionHere(ss: seq<Section>, i: nat, dynamic: bool)
    requires Regular(ss) && i < |ss| && ss[i].typ == SymType(dynamic)
    ensures i == Find(ss, SymSectionName(dynamic)) && i > 0
    ensures ss[i].size == |ss[i].data| && ss[i].entsize in {0, SYM_SIZE}
  {
    hide Find;
    assert RoleOk(ss, i);
    assert i > 0 && SectionOk(ss[i]);
  }

  lemma SymParse(ss: seq<Section>, cs: seq<Section>, syms: seq<Symbol>, dynamic: bool, i: nat, t: Tables)
    requires Regular(ss) && LinkFact(ss) && |ss| < TWO32 && LoadedAs(ss, cs)
    requires SymFact(ss, syms, dynamic) && StrFact(ss, syms, dynamic) && SymsOk(syms)
    requires i < |ss| && ss[i].typ == SymType(dynamic)
    ensures |cs| == |ss|
    ensures ParsedSection(cs, i, t) ==
            Some(if dynamic then t.(dynsymbols := t.dynsymbols + SymsRead(ss, syms, true))
                 else t.(symbols := t.symbols + SymsRead(ss, syms, false)))
  {
    hide Find, RoleOk, SectionOk, IsRela, LinkFact, Regular, LoadedAs, StrBytes, SymBytes, ReadSym, StringsOf;
    LoadedSize(ss, cs);
    LoadedCell(ss, cs, i);
    SymSectionHere(ss, i, dynamic);
    StringsBack(ss, cs, syms, dynamic, i);
    if |syms| > 1 {
      SymsBack(syms);
      RowCount(|syms|);
    } else {
      ZerosRead(StringsOf(cs, cs[i]));
      assert ReadSyms(Zeros(SYM_SIZE), StringsOf(cs, cs[i]), 0) == [];
    }
  }

  lemma RowCount(n: nat)
    ensures SYM_SIZE * n / SYM_SIZE == n && RELA_SIZE * n / RELA_SIZE == n
  {}

  lemma RelaParse(ss: seq<Section>, cs: seq<Section>, rs: seq<Reloc>, i: nat, t: Tables)
    requires Regular(ss) && LinkFact(ss) && |ss| < TWO32 && LoadedAs(ss, cs) && RelaFact(ss, rs)
    requires forall k :: 0 <= k < |rs| ==> rs[k].target == [] || Has(ss, rs[k].target)
    requires forall k :: 0 <= k < |rs| && rs[k].dynamic ==> Has(ss, DYNSYM)
    requires i < |ss| && ss[i].kind == RelaKind
    ensures |cs| == |ss| && ParsedSection(cs, i, t) == Some(t.(relocs := t.relocs + Group(rs, ss[i])))
  {
    hide Find, RoleOk, SectionOk, IsRela, LinkFact, Regular, LoadedAs, ReadRela, Rows, RelaRows, Group;
    var g := Group(rs, ss[i]);
    LoadedSize(ss, cs);
    LoadedCell(ss, cs, i);
    TypedKind(ss, i);
    RelaSize(ss, i);
    if |g| > 0 {
      var k := GroupMember(rs, ss[i], 0);
      LoadedRela(ss, cs, i);
      forall j | 0 <= j < |g| ensures Matches(g[j], cs[i]) { var m := GroupMember(rs, ss[i], j); }
    }
    FilledParse(cs, g, i, t);
  }

  lemma FilledParse(cs: seq<Section>, g: seq<Reloc>, i: nat, t: Tables)
    requires i < |cs| && cs[i].kind == RelaKind && cs[i].data == Rows(RelaRows(g))
    requires cs[i].entsize == RELA_SIZE && cs[i].size == |cs[i].data|
    requires forall j :: 0 <= j < |g| ==> Matches(g[j], cs[i])
    ensures ParsedSection(cs, i, t) == Some(t.(relocs := t.relocs + g))
  {
    hide ReadRela, Rows, RelaRows, Matches;
    RelasBack(g, cs[i]);
    RowCount(|g|);
    if g == [] { assert t.relocs + g == t.relocs; }
  }

  lemma RelaSize(ss: seq<Section>, i: nat)
    requires Regular(ss) && i < |ss| && ss[i].kind == RelaKind
    ensures i > 0 && ss[i].size == |ss[i].data|
  {
    hide RoleOk, Find;
    assert i > 0 && SectionOk(ss[i]);
  }

  /** What the first n sections give. */
  function Expected(ss: seq<Section>, syms: seq<Symbol>, dynsyms: seq<Symbol>, rs: seq<Reloc>, n: nat): Tables
    requires n <= |ss|
  {
    Tables(if Find(ss, SYMTAB) < n then SymsRead(ss, syms, false) else [],
           if Find(ss, DYNSYM) < n then SymsRead(ss, dynsyms, true) else [],
           GroupedTo(ss, rs, n))
  }

  lemma {:induction false} ParsePrefix(ss: seq<Section>, cs: seq<Section>, syms: seq<Symbol>, dynsyms: seq<Symbol>, rs: seq<Reloc>,
                                       n: nat)
    requires Linkable(ss, syms, dynsyms, rs) && LoadedAs(ss, cs) && n <= |ss|
    ensures |cs| == |ss| && ParsedTo(cs, n) == Some(Expected(ss, syms, dynsyms, rs, n))
  {
    hide Find, RoleOk, SectionOk, IsRela, LinkFact, Regular, LoadedAs, ParsedSection, SymFact, StrFact, RelaFact, ShFact, SymsOk,
         SymsRead, Group;
    LoadedSize(ss, cs);
    if n > 0 {
      ParsePrefix(ss, cs, syms, dynsyms, rs, n - 1);
      var t, i := Expected(ss, syms, dynsyms, rs, n - 1), n - 1;
      TypedKind(ss, i);
      RolesHere(ss, i);
      if ss[i].typ == SHT_SYMTAB {
        SymParse(ss, cs, syms, false, i, t);
      } else if ss[i].typ == SHT_DYNSYM {
        SymParse(ss, cs, dynsyms, true, i, t);
      } else if ss[i].typ == SHT_RELA {
        RelaParse(ss, cs, rs, i, t);
      } else {
        LoadedCell(ss, cs, i);
        OtherParse(cs, i, t);
      }
      if ss[i].typ != SHT_RELA { assert GroupedTo(ss, rs, n) == GroupedTo(ss, rs, n - 1); }
      assert [] + SymsRead(ss, syms, false) == SymsRead(ss, syms, false);
      assert [] + SymsRead(ss, dynsyms, true) == SymsRead(ss, dynsyms, true);
    }
  }

  lemma OtherParse(cs: seq<Section>, i: nat, t: Tables)
    requires i < |cs| && KindSays(cs[i], true) && !IsTable(cs[i].typ)
    ensures ParsedSection(cs, i, t) == Some(t)
  {}

  /** A section has the type of a table of symbols exactly when it is that table. */
  lemma RolesHere(ss: seq<Section>, i: nat)
    requires Regular(ss) && i < |ss|
    ensures ss[i].typ == SHT_SYMTAB <==> i == Find(ss, SYMTAB)
    ensures ss[i].typ == SHT_DYNSYM <==> i == Find(ss, DYNSYM)
  {
    hide Find;
    RoleNames();
    assert RoleOk(ss, i);
  }

  // ------------------------------------------------------------ the round trip

  /** Facts about the sections survive being placed. */
  lemma FactsPlaced(ss: seq<Section>, tt: seq<Section>, syms: seq<Symbol>, dynsyms: seq<Symbol>, rs: seq<Reloc>)
    requires Facts(ss, syms, dynsyms, rs) && |tt| == |ss| && tt[0] == ss[0]
    requires forall i :: 0 <= i < |ss| ==> SameButPlace(ss[i], tt[i])
    ensures Facts(tt, syms, dynsyms, rs)
  {
    hide SameButPlace, Find, SectionOk, RoleOk, IsRela, LinkedIn, RelaBytes, SymBytes, StrBytes, StrTab, HasRela;
    forall i | 0 <= i < |ss|
      ensures Alike(ss[i], tt[i]) && tt[i].data == ss[i].data && tt[i].entsize == ss[i].entsize && tt[i].info == ss[i].info
    {
      PlacedAlike(ss[i], tt[i]);
    }
    AlikeRegular(ss, tt);
    FindsSame(ss, tt);
    assert SecNames(tt) == SecNames(ss);
    PlacedLinks(ss, tt);
    PlacedRelas(ss, tt, rs);
  }

  lemma PlacedAlike(s: Section, t: Section)
    requires SameButPlace(s, t)
    ensures Alike(s, t) && t.data == s.data && t.entsize == s.entsize && t.info == s.info && t.link == s.link && t.kind == s.kind
  {}

  lemma PlacedLinks(ss: seq<Section>, tt: seq<Section>)
    requires LinkFact(ss) && |tt| == |ss| && forall i :: 0 <= i < |ss| ==> SameButPlace(ss[i], tt[i])
    ensures LinkFact(tt)
  {
    hide SameButPlace, Find, LinkedIn;
    forall i | 0 <= i < |ss| ensures tt[i].name == ss[i].name { PlacedAlike(ss[i], tt[i]); }
    FindsSame(ss, tt);
    assert forall name :: IndexOf(tt, name) == IndexOf(ss, name);
    hide IndexOf;
    forall i | 0 <= i < |tt| ensures tt[i] == LinkedIn(tt[i], tt) { PlacedLink(ss[i], tt[i], ss, tt); }
  }

  lemma PlacedLink(s: Section, t: Section, ss: seq<Section>, tt: seq<Section>)
    requires SameButPlace(s, t) && s == LinkedIn(s, ss) && forall name :: IndexOf(tt, name) == IndexOf(ss, name)
    ensures t == LinkedIn(t, tt)
  {
    hide IndexOf;
  }

  lemma PlacedRelas(ss: seq<Section>, tt: seq<Section>, rs: seq<Reloc>)
    requires RelaFact(ss, rs) && |tt| == |ss| && forall i :: 0 <= i < |ss| ==> SameButPlace(ss[i], tt[i])
    ensures RelaFact(tt, rs)
  {
    hide SameButPlace, Group, Rows;
    forall i | 0 <= i < |tt| && tt[i].kind == RelaKind
      ensures tt[i].data == RelaBytes(rs, tt[i]) && tt[i].entsize == RELA_SIZE
    {
      PlacedAlike(ss[i], tt[i]);
      GroupAlike(rs, ss[i], tt[i]);
    }
    forall i | 0 <= i < |rs| ensures HasRela(tt, rs[i].target, rs[i].dynamic) {
      assert HasRela(ss, rs[i].target, rs[i].dynamic);
      var k :| 0 <= k < |ss| && ss[k].kind == RelaKind && ss[k].relaDynamic == rs[i].dynamic && ss[k].relaTarget == rs[i].target;
      PlacedAlike(ss[k], tt[k]);
      assert tt[k].kind == RelaKind;
    }
  }

  /** A readable file of such sections loads, with everything it was built from. */
  lemma LoadsBack(im: Image, total: nat)
    requires Readable(im, total) && Linkable(im.sections, im.symbols, im.dynsymbols, im.relocs)
    requires im.ehdr.phnum == |im.segments|
    ensures Loaded(FileOf(im, total)).Some?
    ensures var back := Loaded(FileOf(im, total)).value;
            && back.ehdr == im.ehdr && back.segments == im.segments
            && back.base == (if im.ehdr.etype == ET_EXEC then 0x400000 else 0)
            && back.symbols == im.symbols && back.dynsymbols == im.dynsymbols
            && back.relocs == GroupedTo(im.sections, im.relocs, |im.sections|)
            && |back.sections| == |im.sections|
            && forall i :: 0 <= i < |im.sections| ==> SameBytes(BareAt(im.sections, i), back.sections[i])
  {
    hide FileOf, Readable, Facts, Regular, LoadedAs, BareAt, LoadedSections, ReadEhdr, HasSections, SymsOk, Group, ClassifiedTo, Find,
         Recognised, SectionOk, RelaFact, LinkFact, SymFact, StrFact, ShFact, RoleOk, ParsedTo, SymsRead, SameBytes, SegmentsOf,
         Disjoint;
    ReadableIdent2(im, total);
    var file, ss := FileOf(im, total), im.sections;
    EhdrBack(im, total);
    SegmentsBack(im, total);
    SectionsBack(im, total);
    InRange(im, total);
    var bare := LoadedSections(file, im.ehdr);
    FactsRegular(ss, im.symbols, im.dynsymbols, im.relocs);
    var cs := SectionsOf(file, im.ehdr);
    BareLinksSafe(ss, bare);
    Recognise(ss, bare, im.ehdr.shstrndx, cs);
    ParsePrefix(ss, cs, im.symbols, im.dynsymbols, im.relocs, |ss|);
    SymsAllRead(ss, im.symbols, false);
    SymsAllRead(ss, im.dynsymbols, true);
    LoadedParts(ss, bare, cs);
  }

  lemma ReadableIdent2(im: Image, total: nat)
    requires Readable(im, total)
    ensures Disjoint(im, total) && |im.ehdr.ident| == 16 && im.ehdr.ident[..6] == [0x7F, 0x45, 0x4C, 0x46, 2, 1]
  {
    hide Disjoint, Regular, ShFact, Find, StrTab;
    ReadableIdent(im, total);
  }

  lemma FactsRegular(ss: seq<Section>, syms: seq<Symbol>, dynsyms: seq<Symbol>, rs: seq<Reloc>)
    requires Facts(ss, syms, dynsyms, rs)
    ensures Regular(ss) && LinkFact(ss) && SymFact(ss, syms, false) && SymFact(ss, dynsyms, true)
  {
    hide Regular, LinkFact, RelaFact, SymFact, StrFact, ShFact;
  }

  lemma Recognise(ss: seq<Section>, bare: seq<Section>, at: nat, cs: seq<Section>)
    requires |bare| == |ss| && (forall i :: 0 <= i < |ss| ==> bare[i] == BareAt(ss, i)) && LinksSafe(bare)
    requires cs == ClassifiedTo(if at != 0 then WithKind(bare, at, ShStrTabKind) else bare, |bare|)
    ensures Recognised(bare, cs, |ss|) && LoadedAs(ss, cs)
  {
    hide LinksSafe, Recognised, ClassifiedTo;
    forall i | 0 <= i < |bare| ensures bare[i].kind == Normal {}
    BareRecognised(bare, at);
    RecogniseTo(bare, if at != 0 then WithKind(bare, at, ShStrTabKind) else bare, |bare|);
    RecognisedLength(bare, cs, |ss|);
  }

  lemma RecognisedLength(ss: seq<Section>, tt: seq<Section>, n: nat)
    requires Recognised(ss, tt, n)
    ensures |tt| == |ss| && forall i :: 0 <= i < |ss| ==> SameBytes(ss[i], tt[i])
  {
    hide SameBytes;
  }

  lemma LoadedParts(ss: seq<Section>, bare: seq<Section>, cs: seq<Section>)
    requires |bare| == |ss| && (forall i :: 0 <= i < |ss| ==> bare[i] == BareAt(ss, i)) && Recognised(bare, cs, |ss|)
    ensures |cs| == |ss| && forall i :: 0 <= i < |ss| ==> SameBytes(BareAt(ss, i), cs[i])
  {
    hide Recognised, SameBytes, BareAt;
    RecognisedLength(bare, cs, |ss|);
  }

  lemma SymsAllRead(ss: seq<Section>, syms: seq<Symbol>, dynamic: bool)
    requires SymFact(ss, syms, dynamic) && SymsOk(syms)
    ensures OrNull(if Find(ss, SymSectionName(dynamic)) < |ss| then SymsRead(ss, syms, dynamic) else []) == syms
  {
    hide Find, SymBytes, StrBytes;
    if |syms| == 1 { assert syms == [NULL_SYMBOL]; }
  }
}
