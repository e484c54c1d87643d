/** lielf_load_mem: the model read back from the bytes of a file. */
module ElfLoad {
  import opened Words
  import opened ElfStruct
  import opened ElfNames
  import opened ElfModel
  import opened ElfTables
  import opened ElfLayout
  import opened ElfFile

  // ------------------------------------------------------------------- records

  function ToEhdr(ident: seq<byte>, v: seq<nat>): (e: Ehdr)
    requires Fits(EHDR_FIELDS, v)
    ensures e.ident == ident
  {
    EhdrBounds(v);
    Ehdr(ident, v[0], v[1], v[2], v[3], v[4], v[5], v[6], v[7], v[8], v[9], v[10], v[11], v[12])
  }

  lemma EhdrBounds(v: seq<nat>)
    requires Fits(EHDR_FIELDS, v)
    ensures |v| == 13 && v[2] < TWO32 && v[3] < TWO64 && v[4] < TWO64 && v[5] < TWO64 && v[6] < TWO32
    ensures forall i :: i in [0, 1, 7, 8, 9, 10, 11, 12] ==> v[i] < 0x1_0000
  {
    hide Pow256;
    Pow256Values();
    var w := EHDR_FIELDS;
    assert w[2] == 4 && w[3] == 8 && w[4] == 8 && w[5] == 8 && w[6] == 4;
    assert forall i :: i in [0, 1, 7, 8, 9, 10, 11, 12] ==> w[i] == 2;
  }

  function ReadEhdr(buf: seq<byte>): (e: Ehdr)
    requires |buf| >= EHDR_SIZE
    ensures |e.ident| == 16
  {
    HeaderWidths();
    ToEhdr(buf[..16], Unpack(EHDR_FIELDS, buf[16..EHDR_SIZE]))
  }

  datatype Shdr = Shdr(
    nameOff: u32, typ: u32, flags: u64, addr: u64, offset: u64, size: u64, link: u32, info: u32, addralign: u64, entsize: u64)

  lemma ShdrBounds(v: seq<nat>)
    requires Fits(SHDR_FIELDS, v)
    ensures |v| == 10 && v[0] < TWO32 && v[1] < TWO32 && v[6] < TWO32 && v[7] < TWO32
    ensures v[2] < TWO64 && v[3] < TWO64 && v[4] < TWO64 && v[5] < TWO64 && v[8] < TWO64 && v[9] < TWO64
  {
    hide Pow256;
    Pow256Values();
    var w := SHDR_FIELDS;
    assert w[0] == 4 && w[1] == 4 && w[6] == 4 && w[7] == 4;
    assert w[2] == 8 && w[3] == 8 && w[4] == 8 && w[5] == 8 && w[8] == 8 && w[9] == 8;
  }

  function ToShdr(v: seq<nat>): Shdr
    requires Fits(SHDR_FIELDS, v)
  {
    ShdrBounds(v);
    Shdr(v[0], v[1], v[2], v[3], v[4], v[5], v[6], v[7], v[8], v[9])
  }

  function ReadShdr(buf: seq<byte>, at: nat): Shdr
    requires at + SHDR_SIZE <= |buf|
  {
    HeaderWidths();
    ToShdr(Unpack(SHDR_FIELDS, buf[at..at + SHDR_SIZE]))
  }

  lemma PhdrBounds(v: seq<nat>)
    requires Fits(PHDR_FIELDS, v)
    ensures |v| == 8 && v[0] < TWO32 && v[1] < TWO32
    ensures v[2] < TWO64 && v[3] < TWO64 && v[4] < TWO64 && v[5] < TWO64 && v[6] < TWO64 && v[7] < TWO64
  {
    hide Pow256;
    Pow256Values();
    var w := PHDR_FIELDS;
    assert w[0] == 4 && w[1] == 4 && w[2] == 8 && w[3] == 8 && w[4] == 8 && w[5] == 8 && w[6] == 8 && w[7] == 8;
  }

  function ToPhdr(v: seq<nat>): Segment
    requires Fits(PHDR_FIELDS, v)
  {
    PhdrBounds(v);
    Segment(v[0], v[1], v[2], v[3], v[4], v[5], v[6], v[7])
  }

  function ReadPhdr(buf: seq<byte>, at: nat): Segment
    requires at + PHDR_SIZE <= |buf|
  {
    HeaderWidths();
    ToPhdr(Unpack(PHDR_FIELDS, buf[at..at + PHDR_SIZE]))
  }

  // ------------------------------------------------------------------ sections

  predicate HasSections(buf: seq<byte>, e: Ehdr) { e.shnum > 0 && e.shoff + e.shnum * SHDR_SIZE <= |buf| }

  function ShdrAt(buf: seq<byte>, e: Ehdr, i: nat): Shdr
    requires HasSections(buf, e) && i < e.shnum
  {
    ReadShdr(buf, e.shoff + i * SHDR_SIZE)
  }

  /** The name at this offset of the section-name table, if that table exists. */
  function NameIn(buf: seq<byte>, e: Ehdr, nameOff: u32): Name
    requires HasSections(buf, e)
  {
    if e.shstrndx < e.shnum then
      var sh := ShdrAt(buf, e, e.shstrndx);
      if sh.offset + sh.size <= |buf| && nameOff < sh.size then CString(buf, sh.offset + nameOff) else []
    else []
  }

  function LoadedSection(buf: seq<byte>, e: Ehdr, i: nat): Section
    requires HasSections(buf, e) && i < e.shnum
  {
    var sh := ShdrAt(buf, e, i);
    Section(
      NameIn(buf, e, sh.nameOff), sh.typ, sh.flags, sh.addr, sh.offset, sh.size, sh.link, sh.info, sh.addralign, sh.entsize,
      if sh.typ != SHT_NOBITS && sh.size > 0 && sh.offset + sh.size <= |buf| then buf[sh.offset..sh.offset + sh.size] else [],
      Normal, sh.typ != SHT_NULL && Alloc(sh.flags), false, false, [])
  }

  function LoadedSections(buf: seq<byte>, e: Ehdr): (ss: seq<Section>)
    requires HasSections(buf, e)
    ensures |ss| == e.shnum && forall i :: 0 <= i < e.shnum ==> ss[i] == LoadedSection(buf, e, i)
  {
    seq(e.shnum, i requires 0 <= i < e.shnum => LoadedSection(buf, e, i))
  }

  function WithKind(ss: seq<Section>, i: nat, kind: Kind): (r: seq<Section>)
    ensures |r| == |ss|
    ensures forall k :: 0 <= k < |ss| ==> r[k] == if k == i then ss[k].(kind := kind) else ss[k]
  {
    if i < |ss| then ss[i := ss[i].(kind := kind)] else ss
  }

  /** What section i says about itself and the section it links to. */
  function Classified(ss: seq<Section>, i: nat): (r: seq<Section>)
    requires i < |ss|
    ensures |r| == |ss|
  {
    var s := ss[i];
    if s.typ == SHT_SYMTAB then WithKind(WithKind(ss, i, SymTabKind), s.link, StrTabKind)
    else if s.typ == SHT_DYNSYM then WithKind(WithKind(ss, i, DynSymKind), s.link, DynStrKind)
    else if s.typ == SHT_RELA then
      ss[i := s.(kind := RelaKind,
                 relaTarget := if s.info < |ss| then ss[s.info].name else s.relaTarget,
                 relaDynamic := if s.link < |ss| then ss[s.link].typ == SHT_DYNSYM else s.relaDynamic)]
    else ss
  }

  function ClassifiedTo(ss: seq<Section>, n: nat): (r: seq<Section>)
    requires n <= |ss|
    ensures |r| == |ss|
  {
    if n == 0 then ss else Classified(ClassifiedTo(ss, n - 1), n - 1)
  }

  /** All sections, the special ones recognised. */
  function SectionsOf(buf: seq<byte>, e: Ehdr): (ss: seq<Section>)
    requires HasSections(buf, e)
    ensures |ss| == e.shnum
  {
    var ss := LoadedSections(buf, e);
    ClassifiedTo(if e.shstrndx != 0 then WithKind(ss, e.shstrndx, ShStrTabKind) else ss, |ss|)
  }

  // -------------------------------------------------------------------- tables

  lemma SymBounds(v: seq<nat>)
    requires Fits(SYM_FIELDS, v)
    ensures |v| == 6 && v[0] < TWO32 && v[1] < 256 && v[2] < 256 && v[3] < 0x1_0000 && v[4] < TWO64 && v[5] < TWO64
  {
    hide Pow256;
    Pow256Values();
    var w := SYM_FIELDS;
    assert w[0] == 4 && w[1] == 1 && w[2] == 1 && w[3] == 2 && w[4] == 8 && w[5] == 8;
  }

  function ToSym(v: seq<nat>, strings: seq<byte>): Symbol
    requires Fits(SYM_FIELDS, v)
  {
    SymBounds(v);
    Symbol(if v[0] < |strings| then CString(strings, v[0]) else [], v[4], v[5], v[1], v[2], v[3])
  }

  function ReadSym(table: seq<byte>, strings: seq<byte>, j: nat): Symbol
    requires SYM_SIZE * (j + 1) <= |table|
  {
    SymWidth();
    RowIndex(SYM_SIZE, j);
    ToSym(Unpack(SYM_FIELDS, Row(table, SYM_SIZE, j)), strings)
  }

  lemma RowInside(w: nat, j: nat, n: nat, size: nat)
    requires j < n && w * n <= size
    ensures w * (j + 1) <= size
  {
    RowLess(w, j, n);
  }

  function ReadSyms(table: seq<byte>, strings: seq<byte>, n: nat): (r: seq<Symbol>)
    requires SYM_SIZE * n <= |table|
    ensures |r| == n
  {
    seq(n, j requires 0 <= j < n => RowInside(SYM_SIZE, j, n, |table|); ReadSym(table, strings, j))
  }

  lemma RelaBounds(v: seq<nat>)
    requires Fits(RELA_FIELDS, v)
    ensures |v| == 3 && v[0] < TWO64 && v[1] < TWO64 && v[2] < TWO64
  {
    hide Pow256;
    Pow256Values();
    assert RELA_FIELDS[0] == 8 && RELA_FIELDS[1] == 8 && RELA_FIELDS[2] == 8;
  }

  function ToRela(v: seq<nat>, s: Section): Reloc
    requires Fits(RELA_FIELDS, v)
  {
    RelaBounds(v);
    Reloc(s.relaTarget, v[0], v[1] / TWO32, v[1] % TWO32, v[2], s.relaDynamic)
  }

  function ReadRela(table: seq<byte>, s: Section, j: nat): Reloc
    requires RELA_SIZE * (j + 1) <= |table|
  {
    RelaWidth();
    RowIndex(RELA_SIZE, j);
    ToRela(Unpack(RELA_FIELDS, Row(table, RELA_SIZE, j)), s)
  }

  function ReadRelas(table: seq<byte>, s: Section, n: nat): (r: seq<Reloc>)
    requires RELA_SIZE * n <= |table|
    ensures |r| == n
  {
    seq(n, j requires 0 <= j < n => RowInside(RELA_SIZE, j, n, |table|); ReadRela(table, s, j))
  }

  datatype Tables = Tables(symbols: seq<Symbol>, dynsymbols: seq<Symbol>, relocs: seq<Reloc>)

  /** The string table a section links to. */
  function StringsOf(ss: seq<Section>, s: Section): seq<byte> { if s.link < |ss| then ss[s.link].data else [] }

  /** The entries of one section; None when its entry size makes a table run past
      its bytes. */
  function ParsedSection(ss: seq<Section>, i: nat, t: Tables): Option<Tables>
    requires i < |ss|
  {
    var s := ss[i];
    if s.kind in {SymTabKind, DynSymKind} then
      var n := if s.entsize != 0 then s.size / s.entsize else 0;
      if s.data == [] then Some(t)
      else if SYM_SIZE * n > |s.data| then None
      else
        var syms := ReadSyms(s.data, StringsOf(ss, s), n);
        Some(if s.kind == SymTabKind then t.(symbols := t.symbols + syms) else t.(dynsymbols := t.dynsymbols + syms))
    else if s.kind == RelaKind && s.data != [] then
      var n := s.size / (if s.entsize != 0 then s.entsize else RELA_SIZE);
      if RELA_SIZE * n > |s.data| then None
      else Some(t.(relocs := t.relocs + ReadRelas(s.data, s, n)))
    else Some(t)
  }

  function ParsedTo(ss: seq<Section>, n: nat): Option<Tables>
    requires n <= |ss|
  {
    if n == 0 then Some(Tables([], [], []))
    else
      match ParsedTo(ss, n - 1)
      case Some(t) => ParsedSection(ss, n - 1, t)
      case None => None
  }

  const NULL_SYMBOL := Symbol([], 0, 0, 0, 0, 0)

  function OrNull(syms: seq<Symbol>): seq<Symbol> { if syms == [] then [NULL_SYMBOL] else syms }

  function SegmentsOf(buf: seq<byte>, e: Ehdr): seq<Segment> {
    if e.phnum > 0 && e.phoff + e.phnum * PHDR_SIZE <= |buf| then
      seq(e.phnum, i requires 0 <= i < e.phnum => ReadPhdr(buf, e.phoff + i * PHDR_SIZE))
    else []
  }

  predicate IsElf64(buf: seq<byte>) {
    |buf| >= EHDR_SIZE && buf[..6] == [0x7F, 0x45, 0x4C, 0x46, 2, 1]
  }

  function Loaded(buf: seq<byte>): Option<Image> {
    if !IsElf64(buf) then None
    else
      var e := ReadEhdr(buf);
      var ss := if HasSections(buf, e) then SectionsOf(buf, e) else [];
      match ParsedTo(ss, |ss|)
      case None => None
      case Some(t) =>
        Some(Image(e, ss, SegmentsOf(buf, e), OrNull(t.symbols), OrNull(t.dynsymbols), t.relocs,
                   if e.etype == ET_EXEC then DEFAULT_BASE_EXEC else 0))
  }

  // ------------------------------------------------------------------- methods

  method LoadSections(buf: seq<byte>, e: Ehdr) returns (ss: seq<Section>)
    requires HasSections(buf, e)
    ensures ss == SectionsOf(buf, e)
  {
    hide LoadedSection, Classified, ClassifiedTo;
    ss := [];
    for i := 0 to e.shnum
      invariant |ss| == i && forall k :: 0 <= k < i ==> ss[k] == LoadedSection(buf, e, k)
    {
      ss := ss + [LoadedSection(buf, e, i)];
    }
    assert ss == LoadedSections(buf, e);
    if e.shstrndx != 0 { ss := WithKind(ss, e.shstrndx, ShStrTabKind); }
    ss := ClassifySections(ss);
  }

  method ClassifySections(all: seq<Section>) returns (ss: seq<Section>)
    ensures ss == ClassifiedTo(all, |all|)
  {
    hide Classified;
    ss := all;
    for i := 0 to |all|
      invariant ss == ClassifiedTo(all, i)
    {
      ss := Classified(ss, i);
    }
  }

  method ParseSections(ss: seq<Section>) returns (t: Option<Tables>)
    ensures t == ParsedTo(ss, |ss|)
  {
    hide ParsedSection;
    t := Some(Tables([], [], []));
    for i := 0 to |ss|
      invariant t == ParsedTo(ss, i)
    {
      if t.Some? { t := ParsedSection(ss, i, t.value); }
    }
  }

  method LoadMem(buf: seq<byte>) returns (b: Binary?)
    ensures b == null <==> Loaded(buf).None?
    ensures b != null ==> fresh(b) && b.View() == Loaded(buf).value
  {
    hide SectionsOf, ParsedTo, ReadEhdr, ReadPhdr;
    if !IsElf64(buf) { return null; }
    var e := ReadEhdr(buf);
    var ss := [];
    if HasSections(buf, e) { ss := LoadSections(buf, e); }
    var t := ParseSections(ss);
    if t.None? { return null; }
    var segs := [];
    if e.phnum > 0 && e.phoff + e.phnum * PHDR_SIZE <= |buf| {
      for i := 0 to e.phnum
        invariant |segs| == i && forall k :: 0 <= k < i ==> segs[k] == ReadPhdr(buf, e.phoff + k * PHDR_SIZE)
      {
        segs := segs + [ReadPhdr(buf, e.phoff + i * PHDR_SIZE)];
      }
    }
    assert segs == SegmentsOf(buf, e);
    b := new Binary(Image(e, ss, segs, OrNull(t.value.symbols), OrNull(t.value.dynsymbols), t.value.relocs,
                          if e.etype == ET_EXEC then DEFAULT_BASE_EXEC else 0));
  }
}
