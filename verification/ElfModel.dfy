/** The in-memory model of an ELF64 file: sections, symbols, relocations and
    segments, in growable arrays that are changed in place. */
module ElfModel {
  import opened Words
  import opened ElfNames

  const SHT_NULL := 0
  const SHT_SYMTAB := 2
  const SHT_STRTAB := 3
  const SHT_RELA := 4
  const SHT_DYNAMIC := 6
  const SHT_NOBITS := 8
  const SHT_DYNSYM := 11

  const ET_REL := 1
  const ET_EXEC := 2
  const PT_LOAD := 1
  const PF_X := 1
  const PF_W := 2
  const PF_R := 4
  const PAGE_SIZE := 0x1000
  const DEFAULT_BASE_EXEC := 0x400000

  type u32 = x: int | 0 <= x < 0x1_0000_0000
  type u16 = x: int | 0 <= x < 0x1_0000

  /** SHF_WRITE, SHF_ALLOC and SHF_EXECINSTR are the low three bits. */
  predicate Writable(flags: u64) { flags % 2 == 1 }
  predicate Alloc(flags: u64) { flags / 2 % 2 == 1 }
  predicate Executable(flags: u64) { flags / 4 % 2 == 1 }

  const ALLOC_FLAG: u64 := 2

  /** How a section's bytes are regenerated. */
  datatype Kind = Normal | ShStrTabKind | SymTabKind | StrTabKind | DynSymKind | DynStrKind | RelaKind

  /** data is [] for a null pointer. loaded: allocated and already placed by a
      load or build; dirty: changed or new since; relaDynamic and relaTarget: the
      relocations a RelaKind section holds. */
  datatype Section = Section(
    name: Name, typ: u32, flags: u64, addr: u64, offset: u64, size: u64, link: u32, info: u32,
    addralign: u64, entsize: u64, data: seq<byte>, kind: Kind,
    loaded: bool, dirty: bool, relaDynamic: bool, relaTarget: Name)

  datatype Segment = Segment(
    typ: u32, flags: u32, offset: u64, vaddr: u64, paddr: u64, filesz: u64, memsz: u64, align: u64)

  datatype Symbol = Symbol(name: Name, value: u64, size: u64, info: byte, other: byte, shndx: u16)

  /** addend is the two's complement word. */
  datatype Reloc = Reloc(target: Name, offset: u64, sym: u32, typ: u32, addend: u64, dynamic: bool)

  datatype Ehdr = Ehdr(
    ident: seq<byte>, etype: u16, machine: u16, version: u32, entry: u64, phoff: u64, shoff: u64, flags: u32,
    ehsize: u16, phentsize: u16, phnum: u16, shentsize: u16, shnum: u16, shstrndx: u16)

  /** Everything a file is built from. */
  datatype Image = Image(
    ehdr: Ehdr, sections: seq<Section>, segments: seq<Segment>, symbols: seq<Symbol>, dynsymbols: seq<Symbol>,
    relocs: seq<Reloc>, base: u64)

  class Binary {
    var ehdr: Ehdr
    var sections: seq<Section>
    var segments: seq<Segment>
    var symbols: seq<Symbol>
    var dynsymbols: seq<Symbol>
    var relocs: seq<Reloc>
    var base: u64

    constructor (im: Image)
      ensures View() == im
    {
      ehdr, sections, segments, symbols, dynsymbols, relocs, base :=
        im.ehdr, im.sections, im.segments, im.symbols, im.dynsymbols, im.relocs, im.base;
    }

    ghost function View(): Image
      reads this
    {
      Image(ehdr, sections, segments, symbols, dynsymbols, relocs, base)
    }
  }

  // ------------------------------------------------------------------ sections

  const SYMTAB: Name := [46, 115, 121, 109, 116, 97, 98]
  const STRTAB: Name := [46, 115, 116, 114, 116, 97, 98]
  const DYNSYM: Name := [46, 100, 121, 110, 115, 121, 109]
  const DYNSTR: Name := [46, 100, 121, 110, 115, 116, 114]
  const SHSTRTAB: Name := [46, 115, 104, 115, 116, 114, 116, 97, 98]
  const RELA: Name := [46, 114, 101, 108, 97]
  const RELA_DYN: Name := [46, 114, 101, 108, 97, 46, 100, 121, 110]

  /** Index of the first section with this name, or |ss|. */
  function Find(ss: seq<Section>, name: Name): (i: nat)
    ensures i <= |ss|
    ensures i < |ss| ==> ss[i].name == name
    ensures forall n :: 0 <= n < i ==> ss[n].name != name
    decreases |ss|
  {
    if ss == [] then 0
    else if Find(ss[..|ss| - 1], name) < |ss| - 1 then Find(ss[..|ss| - 1], name)
    else if ss[|ss| - 1].name == name then |ss| - 1
    else |ss|
  }

  predicate Has(ss: seq<Section>, name: Name) { Find(ss, name) < |ss| }

  /** lielf__section_index: a missing section counts as index 0. */
  function IndexOf(ss: seq<Section>, name: Name): nat { if Has(ss, name) then Find(ss, name) else 0 }

  /** lielf_get_section: the first section with this name. */
  method GetSection(b: Binary, name: Name) returns (found: bool, i: nat)
    ensures i == Find(b.sections, name)
    ensures found == Has(b.sections, name)
  {
    i := 0;
    while i < |b.sections|
      invariant i <= |b.sections|
      invariant forall n :: 0 <= n < i ==> b.sections[n].name != name
    {
      if b.sections[i].name == name { return true, i; }
      i := i + 1;
    }
    found := false;
  }

  /** A section as lielf_add_section makes it, without data. */
  function NewSection(name: Name, typ: u32, flags: u64, addralign: u64): Section {
    Section(name, typ, flags, 0, 0, 0, 0, 0, if addralign == 0 then 1 else addralign, 0, [], Normal, false, true, false, [])
  }

  method AddSection(b: Binary, name: Name, typ: u32, flags: u64, addralign: u64) returns (i: nat)
    modifies b`sections
    ensures b.sections == old(b.sections) + [NewSection(name, typ, flags, addralign)] && i == |old(b.sections)|
  {
    i := |b.sections|;
    b.sections := b.sections + [NewSection(name, typ, flags, addralign)];
  }

  /** lielf__maybe_update_data: bytes that did not change do not dirty. */
  function Updated(s: Section, bytes: seq<byte>): (r: Section)
    ensures r.(data := s.data, size := s.size, dirty := s.dirty) == s
  {
    if s.data != [] && s.size == |bytes| && s.data == bytes then s
    else s.(data := bytes, size := |bytes| % TWO64, dirty := true)
  }

  /** The section of this name, made first when it is missing. */
  function Ensured(ss: seq<Section>, s: Section): (r: seq<Section>)
    ensures Has(r, s.name)
    ensures Has(ss, s.name) ==> r == ss
  {
    if Has(ss, s.name) then ss
    else
      FindAppended(ss, s, s.name);
      ss + [s]
  }

  lemma FindAppended(ss: seq<Section>, s: Section, name: Name)
    ensures Find(ss + [s], name) == if Has(ss, name) then Find(ss, name)
                                    else if s.name == name then |ss| else |ss| + 1
  {
    var all := ss + [s];
    var i := Find(all, name);
    assert forall n :: 0 <= n < |ss| ==> all[n] == ss[n];
    assert all[|ss|] == s;
    if Has(ss, name) { assert all[Find(ss, name)].name == name; }
    if i < |ss| { assert ss[i].name == name; }
  }

  // ------------------------------------------------------------------- symbols

  predicate IsLocal(s: Symbol) { s.info / 16 == 0 }

  function SymsOf(im: Image, dynamic: bool): seq<Symbol> { if dynamic then im.dynsymbols else im.symbols }

  function Names(syms: seq<Symbol>): (ns: seq<Name>)
    ensures |ns| == |syms|
    ensures forall i :: 0 <= i < |syms| ==> ns[i] == syms[i].name
  {
    seq(|syms|, i requires 0 <= i < |syms| => syms[i].name)
  }
}
