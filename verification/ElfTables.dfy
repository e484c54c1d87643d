/** The sections whose bytes come from the model: symbol tables, string tables
    and relocation tables. */
module ElfTables {
  import opened Words
  import opened ElfStruct
  import opened ElfNames
  import opened ElfModel
  import opened ElfSort

  // ------------------------------------------------------------- symbol tables

  const SYM_FIELDS: seq<nat> := [4, 1, 1, 2, 8, 8]
  const SYM_SIZE := 24

  function SymValues(s: Symbol, nameOff: nat): seq<nat> {
    [nameOff % TWO32, s.info, s.other, s.shndx, s.value, s.size]
  }

  lemma SymWidth()
    ensures Width(SYM_FIELDS) == SYM_SIZE
  {
    assert SYM_FIELDS[1..] == [1, 1, 2, 8, 8];
    assert SYM_FIELDS[1..][1..] == [1, 2, 8, 8];
    assert SYM_FIELDS[1..][1..][1..] == [2, 8, 8];
    assert SYM_FIELDS[1..][1..][1..][1..] == [8, 8];
    assert SYM_FIELDS[1..][1..][1..][1..][1..] == [8];
    assert Width([8]) == 8 && Width([8, 8]) == 16 && Width([2, 8, 8]) == 18 && Width([1, 2, 8, 8]) == 19;
    assert Width([1, 1, 2, 8, 8]) == 20;
  }

  function SymRow(s: Symbol, nameOff: nat): (row: seq<byte>)
    ensures |row| == SYM_SIZE
  {
    SymWidth();
    Pack(SYM_FIELDS, SymValues(s, nameOff))
  }

  /** The named symbols: all but the first. */
  function Named(syms: seq<Symbol>): seq<Symbol> { if syms == [] then [] else syms[1..] }

  /** Offset of the name of symbol i in the string table. */
  function SymNameOff(syms: seq<Symbol>, i: nat): nat
    requires i < |syms|
  {
    if i == 0 then 0 else NameOff(Names(Named(syms)), i - 1)
  }

  function SymRows(syms: seq<Symbol>): (rows: seq<seq<byte>>)
    ensures |rows| == |syms|
    ensures forall i :: 0 <= i < |rows| ==> |rows[i]| == SYM_SIZE
  {
    seq(|syms|, i requires 0 <= i < |syms| => SymRow(syms[i], SymNameOff(syms, i)))
  }

  function SymBytes(syms: seq<Symbol>): (bs: seq<byte>)
    ensures |bs| == SYM_SIZE * |syms|
  {
    RowsSize(SymRows(syms), SYM_SIZE);
    Rows(SymRows(syms))
  }

  function StrBytes(syms: seq<Symbol>): seq<byte> { StrTab(Names(Named(syms))) }

  function Zeros(n: nat): seq<byte> { seq(n, i => 0) }

  function SymSectionName(dynamic: bool): Name { if dynamic then DYNSYM else SYMTAB }

  function StrSectionName(dynamic: bool): Name { if dynamic then DYNSTR else STRTAB }

  function SymType(dynamic: bool): u32 { if dynamic then SHT_DYNSYM else SHT_SYMTAB }

  function SymKind(dynamic: bool): Kind { if dynamic then DynSymKind else SymTabKind }

  function StrKind(dynamic: bool): Kind { if dynamic then DynStrKind else StrTabKind }

  function NewTable(name: Name, typ: u32, dynamic: bool, addralign: u64): Section {
    NewSection(name, typ, if dynamic then ALLOC_FLAG else 0, addralign)
  }

  /** The sections with the section of this name, if there is one, changed by f. */
  function SymTabOf(s: Section, syms: seq<Symbol>, dynamic: bool): Section {
    Updated(s.(typ := SymType(dynamic), entsize := SYM_SIZE, kind := SymKind(dynamic), info := FirstGlobal(syms) % TWO32),
            SymBytes(syms))
  }

  /** The sections after lielf__rebuild_symtab, for symbols already sorted. */
  function WithSymTab(ss: seq<Section>, syms: seq<Symbol>, dynamic: bool): seq<Section> {
    var name := SymSectionName(dynamic);
    if |syms| <= 1 then
      if Has(ss, name) then ss[Find(ss, name) := Updated(ss[Find(ss, name)], Zeros(SYM_SIZE))] else ss
    else
      var all := Ensured(ss, NewTable(name, SymType(dynamic), dynamic, 8));
      all[Find(all, name) := SymTabOf(all[Find(all, name)], syms, dynamic)]
  }

  function StrTabOf(s: Section, syms: seq<Symbol>, dynamic: bool): Section {
    Updated(s.(typ := SHT_STRTAB, entsize := 0, kind := StrKind(dynamic)), StrBytes(syms))
  }

  /** The sections after lielf__rebuild_strtab. */
  function WithStrTab(ss: seq<Section>, syms: seq<Symbol>, dynamic: bool): seq<Section> {
    var name := StrSectionName(dynamic);
    if |syms| <= 1 then
      if Has(ss, name) then ss[Find(ss, name) := Updated(ss[Find(ss, name)], [0])] else ss
    else
      var all := Ensured(ss, NewTable(name, SHT_STRTAB, dynamic, 1));
      all[Find(all, name) := StrTabOf(all[Find(all, name)], syms, dynamic)]
  }

  /** The offset the symbol loop writes is where the string loop puts the name. */
  lemma NamesAgree(syms: seq<Symbol>, i: nat)
    requires i < |syms| && NamesOk(Names(Named(syms)))
    ensures SymNameOff(syms, i) < |StrBytes(syms)|
    ensures CString(StrBytes(syms), SymNameOff(syms, i)) == if i == 0 then [] else syms[i].name
  {
    if i > 0 { NameBack(Names(Named(syms)), i - 1); }
  }

  /** Rows of a symbol table read back. */
  lemma SymRowBack(syms: seq<Symbol>, i: nat)
    requires i < |syms|
    ensures SYM_SIZE * (i + 1) <= |SymBytes(syms)|
    ensures Width(SYM_FIELDS) == SYM_SIZE
    ensures |Row(SymBytes(syms), SYM_SIZE, i)| == SYM_SIZE
    ensures Unpack(SYM_FIELDS, Row(SymBytes(syms), SYM_SIZE, i)) == SymValues(syms[i], SymNameOff(syms, i))
  {
    SymWidth();
    RowOf(SymRows(syms), SYM_SIZE, i);
    Pow256Values();
    UnpackPack(SYM_FIELDS, SymValues(syms[i], SymNameOff(syms, i)));
  }

  /** The bytes of the symbol table; name offsets are counted along. */
  method FillSymBytes(syms: seq<Symbol>) returns (buf: seq<byte>)
    ensures buf == SymBytes(syms)
  {
    hide SymRow, NameOff, Pack;
    buf := [];
    var nameOff := 1;
    ghost var rows, names := SymRows(syms), Names(Named(syms));
    NameOffStep(names);
    for i := 0 to |syms|
      invariant buf == Rows(rows[..i])
      invariant nameOff == NameOff(names, if i == 0 then 0 else i - 1)
    {
      var off := 0;
      if i != 0 {
        off := nameOff;
        NameOffAt(names, i - 1);
        nameOff := nameOff + |syms[i].name| + 1;
      }
      assert rows[..i + 1][..i] == rows[..i];
      buf := buf + SymRow(syms[i], off);
    }
    assert rows[..|syms|] == rows;
  }

  lemma NameOffStep(ns: seq<Name>)
    ensures NameOff(ns, 0) == 1
  {}

  lemma NameOffAt(ns: seq<Name>, i: nat)
    requires i < |ns|
    ensures NameOff(ns, i + 1) == NameOff(ns, i) + |ns[i]| + 1
  {}

  method RebuildSymTab(b: Binary, dynamic: bool)
    requires |SymbolsOf(b, dynamic)| < TWO32
    modifies b`symbols, b`dynsymbols, b`relocs, b`sections
    ensures SymbolsOf(b, dynamic) == Sorted(old(SymbolsOf(b, dynamic)))
    ensures SymbolsOf(b, !dynamic) == old(SymbolsOf(b, !dynamic))
    ensures b.relocs == AllMoved(old(b.relocs), old(SymbolsOf(b, dynamic)), dynamic)
    ensures b.sections == WithSymTab(old(b.sections), SymbolsOf(b, dynamic), dynamic)
  {
    hide SymBytes, Sorted, AllMoved, Find;
    SortSymbols(b, dynamic);
    var syms, name := SymbolsOf(b, dynamic), SymSectionName(dynamic);
    var found, i := GetSection(b, name);
    if |syms| <= 1 {
      if found { b.sections := b.sections[i := Updated(b.sections[i], Zeros(SYM_SIZE))]; }
      return;
    }
    var buf := FillSymBytes(syms);
    if !found {
      FindAppended(b.sections, NewTable(name, SymType(dynamic), dynamic, 8), name);
      i := AddSection(b, name, SymType(dynamic), if dynamic then ALLOC_FLAG else 0, 8);
    }
    var firstGlobal := 0;
    while firstGlobal < |syms| && IsLocal(syms[firstGlobal])
      invariant 0 <= firstGlobal <= |syms| && forall k :: 0 <= k < firstGlobal ==> IsLocal(syms[k])
    {
      firstGlobal := firstGlobal + 1;
    }
    assert firstGlobal == FirstGlobal(syms);
    var s := b.sections[i].(typ := SymType(dynamic), entsize := SYM_SIZE, kind := SymKind(dynamic), info := firstGlobal % TWO32);
    b.sections := b.sections[i := Updated(s, buf)];
  }

  method RebuildStrTab(b: Binary, dynamic: bool)
    modifies b`sections
    ensures b.sections == WithStrTab(old(b.sections), SymbolsOf(b, dynamic), dynamic)
  {
    hide StrTab, Find;
    var syms, name := SymbolsOf(b, dynamic), StrSectionName(dynamic);
    var found, i := GetSection(b, name);
    if |syms| <= 1 {
      if found { b.sections := b.sections[i := Updated(b.sections[i], [0])]; }
      return;
    }
    var buf := BuildStrTab(Names(Named(syms)));
    if !found {
      FindAppended(b.sections, NewTable(name, SHT_STRTAB, dynamic, 1), name);
      i := AddSection(b, name, SHT_STRTAB, if dynamic then ALLOC_FLAG else 0, 1);
    }
    b.sections := b.sections[i := Updated(b.sections[i].(typ := SHT_STRTAB, entsize := 0, kind := StrKind(dynamic)), buf)];
  }

  // -------------------------------------------------------- relocation tables

  const RELA_FIELDS: seq<nat> := [8, 8, 8]
  const RELA_SIZE := 24

  function RelaValues(r: Reloc): seq<nat> { [r.offset, r.sym * TWO32 + r.typ, r.addend] }

  lemma RelaWidth()
    ensures Width(RELA_FIELDS) == RELA_SIZE
  {
    assert RELA_FIELDS[1..] == [8, 8] && RELA_FIELDS[1..][1..] == [8];
    assert Width([8]) == 8 && Width([8, 8]) == 16;
  }

  function RelaRow(r: Reloc): (row: seq<byte>)
    ensures |row| == RELA_SIZE
  {
    RelaWidth();
    Pack(RELA_FIELDS, RelaValues(r))
  }

  /** The relocation belongs to this table. */
  predicate Matches(r: Reloc, s: Section) { r.dynamic == s.relaDynamic && r.target == s.relaTarget }

  /** The relocations of a table, in their order. */
  function Group(rs: seq<Reloc>, s: Section): seq<Reloc> {
    if rs == [] then []
    else Group(rs[..|rs| - 1], s) + if Matches(rs[|rs| - 1], s) then [rs[|rs| - 1]] else []
  }

  function RelaRows(rs: seq<Reloc>): (rows: seq<seq<byte>>)
    ensures |rows| == |rs|
    ensures forall i :: 0 <= i < |rows| ==> |rows[i]| == RELA_SIZE
  {
    seq(|rs|, i requires 0 <= i < |rs| => RelaRow(rs[i]))
  }

  function RelaBytes(rs: seq<Reloc>, s: Section): seq<byte> { Rows(RelaRows(Group(rs, s))) }

  function RelaOf(s: Section, rs: seq<Reloc>): Section { Updated(s.(entsize := RELA_SIZE), RelaBytes(rs, s)) }

  function Refilled(ss: seq<Section>, rs: seq<Reloc>): (r: seq<Section>)
    ensures |r| == |ss|
    ensures forall i :: 0 <= i < |ss| ==> r[i] == if ss[i].kind == RelaKind then RelaOf(ss[i], rs) else ss[i]
  {
    seq(|ss|, i requires 0 <= i < |ss| => if ss[i].kind == RelaKind then RelaOf(ss[i], rs) else ss[i])
  }

  /** Some table takes relocations for this target. */
  predicate HasRela(ss: seq<Section>, target: Name, dynamic: bool) {
    exists i :: 0 <= i < |ss| && ss[i].kind == RelaKind && ss[i].relaDynamic == dynamic && ss[i].relaTarget == target
  }

  /** Its name is cut to 255 characters. */
  function RelaName(target: Name, dynamic: bool): Name {
    if dynamic && target == [] then RELA_DYN
    else if |RELA + target| > 255 then (RELA + target)[..255]
    else RELA + target
  }

  function NewRela(target: Name, dynamic: bool): Section {
    NewTable(RelaName(target, dynamic), SHT_RELA, dynamic, 8).(kind := RelaKind, relaDynamic := dynamic, relaTarget := target)
  }

  function WithRela(ss: seq<Section>, r: Reloc): seq<Section> {
    if HasRela(ss, r.target, r.dynamic) then ss else ss + [NewRela(r.target, r.dynamic)]
  }

  /** A table for every relocation. */
  function WithRelas(ss: seq<Section>, rs: seq<Reloc>): seq<Section> {
    if rs == [] then ss else WithRela(WithRelas(ss, rs[..|rs| - 1]), rs[|rs| - 1])
  }

  /** The sections after lielf__rebuild_relas. */
  function RelasRebuilt(ss: seq<Section>, rs: seq<Reloc>): seq<Section> {
    Refilled(WithRelas(Refilled(ss, rs), rs), rs)
  }

  lemma RelaRowBack(rs: seq<Reloc>, i: nat)
    requires i < |rs|
    ensures RELA_SIZE * (i + 1) <= |Rows(RelaRows(rs))|
    ensures Width(RELA_FIELDS) == RELA_SIZE
    ensures Unpack(RELA_FIELDS, Row(Rows(RelaRows(rs)), RELA_SIZE, i)) == RelaValues(rs[i])
  {
    RelaWidth();
    RowOf(RelaRows(rs), RELA_SIZE, i);
    Pow256Values();
    UnpackPack(RELA_FIELDS, RelaValues(rs[i]));
  }

  lemma RelaRowAdded(g: seq<Reloc>, r: Reloc)
    ensures Rows(RelaRows(g + [r])) == Rows(RelaRows(g)) + RelaRow(r)
  {
    hide RelaRow;
    var rows := RelaRows(g + [r]);
    assert rows[..|rows| - 1] == RelaRows(g);
  }

  lemma GroupStep(rs: seq<Reloc>, i: nat, s: Section)
    requires i < |rs|
    ensures Group(rs[..i + 1], s) == Group(rs[..i], s) + if Matches(rs[i], s) then [rs[i]] else []
  {
    hide Matches;
    assert rs[..i + 1][..i] == rs[..i];
  }

  /** The bytes of a relocation table. */
  method FillRelaBytes(rs: seq<Reloc>, sec: Section) returns (buf: seq<byte>)
    ensures buf == RelaBytes(rs, sec)
  {
    hide RelaRow, Matches, Group, RelaRows, Rows;
    buf := [];
    NoRows(sec);
    assert rs[..0] == [];
    for i := 0 to |rs|
      invariant buf == Rows(RelaRows(Group(rs[..i], sec)))
    {
      GroupStep(rs, i, sec);
      if Matches(rs[i], sec) {
        RelaRowAdded(Group(rs[..i], sec), rs[i]);
        buf := buf + RelaRow(rs[i]);
      } else {
        assert Group(rs[..i], sec) + [] == Group(rs[..i], sec);
      }
    }
    assert rs[..|rs|] == rs;
  }

  method RebuildOneRela(b: Binary, at: nat)
    requires at < |b.sections|
    modifies b`sections
    ensures b.sections == old(b.sections)[at := RelaOf(old(b.sections)[at], b.relocs)]
  {
    var sec := b.sections[at];
    var buf := FillRelaBytes(b.relocs, sec);
    b.sections := b.sections[at := Updated(sec.(entsize := RELA_SIZE), buf)];
  }

  lemma NoRows(s: Section)
    ensures Rows(RelaRows(Group([], s))) == []
  {}

  method RefillRelas(b: Binary)
    modifies b`sections
    ensures b.sections == Refilled(old(b.sections), b.relocs)
  {
    hide RelaOf;
    ghost var ss := b.sections;
    for i := 0 to |b.sections|
      invariant |b.sections| == |ss|
      invariant forall k :: 0 <= k < i ==> b.sections[k] == Refilled(ss, b.relocs)[k]
      invariant forall k :: i <= k < |ss| ==> b.sections[k] == ss[k]
    {
      if b.sections[i].kind == RelaKind { RebuildOneRela(b, i); }
    }
  }

  method FindOrCreateRela(b: Binary, target: Name, dynamic: bool)
    modifies b`sections
    ensures b.sections == if HasRela(old(b.sections), target, dynamic) then old(b.sections)
                          else old(b.sections) + [NewRela(target, dynamic)]
  {
    for i := 0 to |b.sections|
      invariant b.sections == old(b.sections)
      invariant forall k :: 0 <= k < i ==>
                  !(b.sections[k].kind == RelaKind && b.sections[k].relaDynamic == dynamic && b.sections[k].relaTarget == target)
    {
      if b.sections[i].kind == RelaKind && b.sections[i].relaDynamic == dynamic && b.sections[i].relaTarget == target {
        return;
      }
    }
    b.sections := b.sections + [NewRela(target, dynamic)];
  }

  method RebuildRelas(b: Binary)
    modifies b`sections
    ensures b.sections == RelasRebuilt(old(b.sections), b.relocs)
  {
    hide HasRela, NewRela, Refilled;
    RefillRelas(b);
    ghost var ss := b.sections;
    for i := 0 to |b.relocs|
      invariant b.sections == WithRelas(ss, b.relocs[..i])
    {
      assert b.relocs[..i + 1][..i] == b.relocs[..i];
      FindOrCreateRela(b, b.relocs[i].target, b.relocs[i].dynamic);
    }
    assert b.relocs[..|b.relocs|] == b.relocs;
    RefillRelas(b);
  }

  // --------------------------------------------------- section names and links

  function SecNames(ss: seq<Section>): (ns: seq<Name>)
    ensures |ns| == |ss|
    ensures forall i :: 0 <= i < |ss| ==> ns[i] == ss[i].name
  {
    seq(|ss|, i requires 0 <= i < |ss| => ss[i].name)
  }

  /** The sections after lielf__rebuild_shstrtab. */
  function WithShStrTab(ss: seq<Section>): seq<Section> {
    var all := Ensured(ss, NewTable(SHSTRTAB, SHT_STRTAB, false, 1));
    var i := Find(all, SHSTRTAB);
    all[i := Updated(all[i].(kind := ShStrTabKind, typ := SHT_STRTAB, entsize := 0), StrTab(SecNames(all)))]
  }

  method RebuildShStrTab(b: Binary)
    modifies b`sections
    ensures b.sections == WithShStrTab(old(b.sections))
  {
    hide StrTab, Find;
    var found, i := GetSection(b, SHSTRTAB);
    if !found {
      FindAppended(b.sections, NewTable(SHSTRTAB, SHT_STRTAB, false, 1), SHSTRTAB);
      i := AddSection(b, SHSTRTAB, SHT_STRTAB, 0, 1);
    }
    var buf := BuildStrTab(SecNames(b.sections));
    b.sections := b.sections[i := Updated(b.sections[i].(kind := ShStrTabKind, typ := SHT_STRTAB, entsize := 0), buf)];
  }

  /** The links of a section into a list of sections. */
  function LinkedIn(s: Section, ss: seq<Section>): Section {
    match s.kind
    case SymTabKind => s.(link := IndexOf(ss, STRTAB) % TWO32)
    case DynSymKind => s.(link := IndexOf(ss, DYNSTR) % TWO32)
    case RelaKind =>
      s.(link := IndexOf(ss, SymSectionName(s.relaDynamic)) % TWO32,
         info := if s.relaTarget == [] then 0 else IndexOf(ss, s.relaTarget) % TWO32)
    case _ => s
  }

  function Linked(ss: seq<Section>): (r: seq<Section>)
    ensures |r| == |ss|
    ensures forall i :: 0 <= i < |ss| ==> r[i] == LinkedIn(ss[i], ss)
  {
    seq(|ss|, i requires 0 <= i < |ss| => LinkedIn(ss[i], ss))
  }

  lemma {:induction false} FindSameNames(a: seq<Section>, b: seq<Section>, name: Name)
    requires |a| == |b| && forall i :: 0 <= i < |a| ==> a[i].name == b[i].name
    ensures Find(a, name) == Find(b, name)
  {}

  method SectionIndex(b: Binary, name: Name) returns (i: nat)
    ensures i == IndexOf(b.sections, name)
  {
    var found;
    found, i := GetSection(b, name);
    if !found { i := 0; }
  }

  method ResolveLinks(b: Binary)
    modifies b`sections
    ensures b.sections == Linked(old(b.sections))
  {
    hide Find;
    ghost var ss := b.sections;
    for i := 0 to |b.sections|
      invariant |b.sections| == |ss|
      invariant forall k :: 0 <= k < |ss| ==> b.sections[k].name == ss[k].name
      invariant forall k :: 0 <= k < i ==> b.sections[k] == LinkedIn(ss[k], ss)
      invariant forall k :: i <= k < |ss| ==> b.sections[k] == ss[k]
    {
      var s := b.sections[i];
      var link := ResolvedLink(b, s, ss);
      b.sections := b.sections[i := link];
    }
  }

  /** One section with its links, as names stand. */
  method ResolvedLink(b: Binary, s: Section, ghost ss: seq<Section>) returns (r: Section)
    requires |b.sections| == |ss| && forall k :: 0 <= k < |ss| ==> b.sections[k].name == ss[k].name
    ensures r == LinkedIn(s, ss)
  {
    hide Find;
    r := s;
    match s.kind
    case SymTabKind =>
      FindSameNames(b.sections, ss, STRTAB);
      var i := SectionIndex(b, STRTAB);
      r := s.(link := i % TWO32);
    case DynSymKind =>
      FindSameNames(b.sections, ss, DYNSTR);
      var i := SectionIndex(b, DYNSTR);
      r := s.(link := i % TWO32);
    case RelaKind =>
      FindSameNames(b.sections, ss, SymSectionName(s.relaDynamic));
      FindSameNames(b.sections, ss, s.relaTarget);
      var i := SectionIndex(b, SymSectionName(s.relaDynamic));
      r := s.(link := i % TWO32, info := 0);
      if s.relaTarget != [] {
        var j := SectionIndex(b, s.relaTarget);
        r := r.(info := j % TWO32);
      }
    case _ =>
  }
}
