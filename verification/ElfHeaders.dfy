/** The headers of a built file, read back: file header, program headers, section
    headers, names and section bytes. */
module ElfHeaders {
  import opened Words
  import opened ElfStruct
  import opened ElfNames
  import opened ElfModel
  import opened ElfTables
  import opened ElfLayout
  import opened ElfFile
  import opened ElfLoad
  import opened ElfRegular
  import opened ElfReadBack

  /** A built image whose file can be read back. */
  ghost predicate Readable(im: Image, total: nat) {
    && Disjoint(im, total) && Regular(im.sections) && ShFact(im.sections)
    && |im.sections| < 0x1_0000 && im.ehdr.shnum == |im.sections|
    && im.ehdr.shstrndx == Find(im.sections, SHSTRTAB)
    && |StrTab(SecNames(im.sections))| < TWO32
    && im.ehdr.ident[..6] == [0x7F, 0x45, 0x4C, 0x46, 2, 1]
  }

  lemma EhdrFits(e: Ehdr)
    ensures Fits(EHDR_FIELDS, EhdrValues(e))
  {
    Pow256Values();
    hide Pow256;
    var w, v := EHDR_FIELDS, EhdrValues(e);
    assert w[0] == 2 && w[1] == 2 && w[2] == 4 && w[3] == 8 && w[4] == 8 && w[5] == 8 && w[6] == 4;
    assert forall i :: 7 <= i < 13 ==> w[i] == 2;
  }

  lemma EhdrBack(im: Image, total: nat)
    requires Disjoint(im, total) && im.ehdr.ident[..6] == [0x7F, 0x45, 0x4C, 0x46, 2, 1]
    ensures |FileOf(im, total)| >= EHDR_SIZE && ReadEhdr(FileOf(im, total)) == im.ehdr && IsElf64(FileOf(im, total))
  {
    hide FileOf, Pack, Unpack, Disjoint, EHDR_FIELDS;
    DisjointIdent(im, total);
    EhdrInFile(im, total);
    var file := FileOf(im, total);
    HeaderWidths();
    EhdrFits(im.ehdr);
    UnpackPack(EHDR_FIELDS, EhdrValues(im.ehdr));
    IdentSplit(file, im.ehdr);
    EhdrFromValues(im.ehdr);
  }

  lemma ReadableIdent(im: Image, total: nat)
    requires Readable(im, total)
    ensures Disjoint(im, total) && |im.ehdr.ident| == 16 && im.ehdr.ident[..6] == [0x7F, 0x45, 0x4C, 0x46, 2, 1]
  {}

  lemma DisjointIdent(im: Image, total: nat)
    requires Disjoint(im, total)
    ensures |im.ehdr.ident| == 16
  {}

  lemma IdentSplit(file: seq<byte>, e: Ehdr)
    requires |file| >= EHDR_SIZE && |e.ident| == 16 && file[0..EHDR_SIZE] == EhdrBytes(e)
    requires e.ident[..6] == [0x7F, 0x45, 0x4C, 0x46, 2, 1]
    ensures file[..16] == e.ident && file[16..EHDR_SIZE] == Pack(EHDR_FIELDS, EhdrValues(e))
    ensures file[..6] == [0x7F, 0x45, 0x4C, 0x46, 2, 1]
  {
    hide Pack;
    HeaderWidths();
    Halves(file, EHDR_SIZE, e.ident, Pack(EHDR_FIELDS, EhdrValues(e)));
    Shorter(file, 6, 16);
  }

  lemma Halves(file: seq<byte>, n: nat, a: seq<byte>, b: seq<byte>)
    requires n <= |file| && file[0..n] == a + b
    ensures file[..|a|] == a && file[|a|..n] == b
  {
    var head := file[0..n];
    assert head[..|a|] == a && head[|a|..] == b;
    assert file[..|a|] == head[..|a|] && file[|a|..n] == head[|a|..];
  }

  lemma Shorter(file: seq<byte>, k: nat, n: nat)
    requires k <= n <= |file|
    ensures file[..k] == file[..n][..k]
  {}

  lemma EhdrFromValues(e: Ehdr)
    requires Fits(EHDR_FIELDS, EhdrValues(e))
    ensures ToEhdr(e.ident, EhdrValues(e)) == e
  {}

  // ----------------------------------------------------------- program headers

  lemma PhdrFits(s: Segment)
    ensures Fits(PHDR_FIELDS, PhdrValues(s))
  {
    Pow256Values();
    hide Pow256;
    var w := PHDR_FIELDS;
    assert w[0] == 4 && w[1] == 4 && w[2] == 8 && w[3] == 8 && w[4] == 8 && w[5] == 8 && w[6] == 8 && w[7] == 8;
  }

  lemma SegmentFromValues(s: Segment)
    requires Fits(PHDR_FIELDS, PhdrValues(s))
    ensures ToPhdr(PhdrValues(s)) == s
  {}

  /** A program header is read back as the segment it was written for. */
  lemma SegmentBack(im: Image, total: nat, i: nat)
    requires Disjoint(im, total) && i < |im.segments|
    ensures im.ehdr.phoff + i * PHDR_SIZE + PHDR_SIZE <= |FileOf(im, total)|
    ensures ReadPhdr(FileOf(im, total), im.ehdr.phoff + i * PHDR_SIZE) == im.segments[i]
  {
    hide FileOf, Pack, Unpack, Disjoint, PHDR_FIELDS;
    DisjointIdent(im, total);
    PhdrInFile(im, total, i);
    HeaderWidths();
    PhdrFits(im.segments[i]);
    UnpackPack(PHDR_FIELDS, PhdrValues(im.segments[i]));
    SegmentFromValues(im.segments[i]);
  }

  /** The segments of a file are those of the image it was written from. */
  lemma SegmentsBack(im: Image, total: nat)
    requires Disjoint(im, total) && |im.segments| <= 65535 && im.ehdr.phnum == |im.segments|
    ensures SegmentsOf(FileOf(im, total), im.ehdr) == im.segments
  {
    hide FileOf, ReadPhdr, Disjoint;
    DisjointIdent(im, total);
    var file := FileOf(im, total);
    if im.segments != [] {
      SegmentBack(im, total, |im.segments| - 1);
      forall i | 0 <= i < |im.segments| ensures ReadPhdr(file, im.ehdr.phoff + i * PHDR_SIZE) == im.segments[i] {
        SegmentBack(im, total, i);
      }
    }
  }

  // ----------------------------------------------------------- section headers

  lemma ShdrFits(s: Section, nameOff: nat)
    ensures Fits(SHDR_FIELDS, ShdrValues(s, nameOff))
  {
    Pow256Values();
    hide Pow256;
    var w := SHDR_FIELDS;
    assert w[0] == 4 && w[1] == 4 && w[2] == 8 && w[3] == 8 && w[4] == 8 && w[5] == 8 && w[6] == 4 && w[7] == 4 && w[8] == 8
           && w[9] == 8;
  }

  lemma {:induction false} UnpackZeros(ws: seq<nat>, bs: seq<byte>)
    requires |bs| == Width(ws) && forall i :: 0 <= i < |bs| ==> bs[i] == 0
    ensures forall i :: 0 <= i < |ws| ==> Unpack(ws, bs)[i] == 0
    decreases |ws|
  {
    if ws != [] {
      UnLEZeros(bs[..ws[0]]);
      UnpackZeros(ws[1..], bs[ws[0]..]);
    }
  }

  lemma {:induction false} UnLEZeros(bs: seq<byte>)
    requires forall i :: 0 <= i < |bs| ==> bs[i] == 0
    ensures UnLE(bs) == 0
  {
    if bs != [] { UnLEZeros(bs[1..]); }
  }

  /** The header as it is written. */
  function HeaderOf(ss: seq<Section>, i: nat): Shdr
    requires i < |ss|
  {
    if i == 0 then Shdr(0, 0, 0, 0, 0, 0, 0, 0, 0, 0)
    else
      var s := ss[i];
      Shdr(NameOff(SecNames(ss), i) % TWO32, s.typ, s.flags, s.addr, s.offset, s.size, s.link, s.info, s.addralign, s.entsize)
  }

  lemma RowRead(ss: seq<Section>, i: nat)
    requires i < |ss|
    ensures Width(SHDR_FIELDS) == SHDR_SIZE
    ensures ToShdr(Unpack(SHDR_FIELDS, ShdrBytes(ss, i))) == HeaderOf(ss, i)
  {
    hide Pack, Unpack, NameOff;
    HeaderWidths();
    if i == 0 {
      UnpackZeros(SHDR_FIELDS, ShdrBytes(ss, 0));
    } else {
      ShdrFits(ss[i], NameOff(SecNames(ss), i));
      UnpackPack(SHDR_FIELDS, ShdrValues(ss[i], NameOff(SecNames(ss), i)));
    }
  }

  lemma HeaderBack(im: Image, total: nat, i: nat)
    requires Readable(im, total) && i < |im.sections|
    ensures HasSections(FileOf(im, total), im.ehdr)
    ensures ShdrAt(FileOf(im, total), im.ehdr, i) == HeaderOf(im.sections, i)
  {
    hide FileOf, Pack, Unpack, Regular, ShFact, SHDR_FIELDS, ShdrBytes, HeaderOf, ToShdr;
    ShdrInFile(im, total, i);
    RowRead(im.sections, i);
    InRange(im, total);
  }

  lemma InRange(im: Image, total: nat)
    requires Readable(im, total)
    ensures |im.sections| > 0 && im.ehdr.shoff + im.ehdr.shnum * SHDR_SIZE == total
    ensures im.ehdr.shnum == |im.sections|
  {
    hide Pack, ShdrBytes, StrTab, Find;
  }

  // --------------------------------------------------------------------- names

  /** A string table inside a file. */
  lemma StringIn(file: seq<byte>, at: nat, ns: seq<Name>, i: nat)
    requires NamesOk(ns) && i < |ns|
    requires at + |StrTab(ns)| <= |file| && file[at..at + |StrTab(ns)|] == StrTab(ns)
    ensures NameOff(ns, i) < |StrTab(ns)| && CString(file, at + NameOff(ns, i)) == ns[i]
    ensures CString(file, at) == []
  {
    hide CString, StrTab, NameOff;
    NameBack(ns, i);
    var off := NameOff(ns, i);
    var table := StrTab(ns);
    StrTabSplit(ns, i);
    forall k | 0 <= k < |ns[i]| ensures file[at + off + k] == ns[i][k] {
      assert file[at..at + |table|][off + k] == ns[i][k];
    }
    assert file[at..at + |table|][off + |ns[i]|] == 0;
    CStringEnds(file, at + off, ns[i]);
    assert file[at..at + |table|][0] == 0;
    CStringEnds(file, at, []);
  }

  lemma StrTabSplit(ns: seq<Name>, i: nat)
    requires i < |ns|
    ensures var off := NameOff(ns, i);
            && off + |ns[i]| < |StrTab(ns)| && StrTab(ns)[off + |ns[i]|] == 0
            && forall k :: 0 <= k < |ns[i]| ==> StrTab(ns)[off + k] == ns[i][k]
  {
    OffsetsAgree(ns, i);
    var rest := StrTabGrows(ns, i + 1);
    assert ns[..i + 1][..i] == ns[..i];
    Inside(StrTab(ns), StrTab(ns[..i]), ns[i], rest);
  }

  lemma NameRead(im: Image, total: nat, i: nat)
    requires Readable(im, total) && i < |im.sections|
    ensures HasSections(FileOf(im, total), im.ehdr)
    ensures NameIn(FileOf(im, total), im.ehdr, HeaderOf(im.sections, i).nameOff) == im.sections[i].name
  {
    hide FileOf, Regular, StrTab, NameOff, CString, Find, ShdrAt, SectionOk, Disjoint, Carries, HasSections;
    ReadableIdent(im, total);
    var file, ss := FileOf(im, total), im.sections;
    var names, at := SecNames(ss), im.ehdr.shstrndx;
    HeaderBack(im, total, i);
    HeaderBack(im, total, at);
    TableSection(ss, at);
    DisjointOne(im, total, at);
    SectionInFile(im, total, at);
    NamesAllOk(ss);
    StringIn(file, ss[at].offset, names, i);
    SmallOff(names, i);
    FirstNameEmpty(ss);
  }

  lemma FirstNameEmpty(ss: seq<Section>)
    requires Regular(ss)
    ensures |ss| > 0 && ss[0].name == []
  {}

  lemma SmallOff(ns: seq<Name>, i: nat)
    requires i < |ns| && NamesOk(ns) && |StrTab(ns)| < TWO32
    ensures NameOff(ns, i) % TWO32 == NameOff(ns, i)
  {
    hide StrTab, NameOff;
    NameBack(ns, i);
  }

  lemma DisjointOne(im: Image, total: nat, i: nat)
    requires Disjoint(im, total) && 1 <= i < |im.sections| && Carries(im.sections[i])
    ensures |im.sections[i].data| == im.sections[i].size && im.sections[i].offset + im.sections[i].size <= total
    ensures |FileOf(im, total)| == total
  {
    hide Carries, FileOf;
  }

  lemma TableSection(ss: seq<Section>, at: nat)
    requires Regular(ss) && ShFact(ss) && at == Find(ss, SHSTRTAB)
    ensures 1 <= at < |ss| && Carries(ss[at]) && ss[at].data == StrTab(SecNames(ss)) && ss[at].size == |ss[at].data|
  {
    hide StrTab, Find, SecNames;
    RoleNotRela(ss, SHSTRTAB);
    assert SectionOk(ss[at]);
  }

  lemma NamesAllOk(ss: seq<Section>)
    requires Regular(ss)
    ensures NamesOk(SecNames(ss))
  {
    hide Find, RoleOk;
    forall i | 0 <= i < |ss| ensures NameOk(SecNames(ss)[i]) {
      if i > 0 { assert SectionOk(ss[i]); }
    }
  }

  // ------------------------------------------------------------------ sections

  /** What a loader can know of a section before it classifies it. */
  function Bare(s: Section): Section {
    s.(kind := Normal, loaded := s.typ != SHT_NULL && Alloc(s.flags), dirty := false, relaDynamic := false, relaTarget := [])
  }

  const NULL_SECTION := Section([], SHT_NULL, 0, 0, 0, 0, 0, 0, 0, 0, [], Normal, false, false, false, [])

  function BareAt(ss: seq<Section>, i: nat): Section
    requires i < |ss|
  {
    if i == 0 then NULL_SECTION else Bare(ss[i])
  }

  lemma SectionBack(im: Image, total: nat, i: nat)
    requires Readable(im, total) && i < |im.sections|
    ensures HasSections(FileOf(im, total), im.ehdr) && i < im.ehdr.shnum
    ensures LoadedSection(FileOf(im, total), im.ehdr, i) == BareAt(im.sections, i)
  {
    hide FileOf, Regular, StrTab, NameOff, Find, ShdrAt, SectionOk, Disjoint, HasSections, NameIn, ShFact, Alloc;
    ReadableIdent(im, total);
    var file, ss := FileOf(im, total), im.sections;
    HeaderBack(im, total, i);
    NameRead(im, total, i);
    FirstNameEmpty(ss);
    InRange(im, total);
    if i > 0 {
      SectionBytes(ss, i);
      if Carries(ss[i]) {
        SectionInFile(im, total, i);
        DisjointOne(im, total, i);
      }
    }
  }

  lemma SectionBytes(ss: seq<Section>, i: nat)
    requires Regular(ss) && 1 <= i < |ss|
    ensures !Carries(ss[i]) ==> ss[i].data == [] && (ss[i].typ == SHT_NOBITS || ss[i].size == 0)
    ensures Carries(ss[i]) ==> |ss[i].data| == ss[i].size
  {
    hide RoleOk, IsRela, Find;
    assert SectionOk(ss[i]);
  }

  lemma SectionsBack(im: Image, total: nat)
    requires Readable(im, total)
    ensures HasSections(FileOf(im, total), im.ehdr)
    ensures var ss := LoadedSections(FileOf(im, total), im.ehdr);
            |ss| == |im.sections| && forall i :: 0 <= i < |ss| ==> ss[i] == BareAt(im.sections, i)
  {
    hide FileOf, Readable, LoadedSection, BareAt, HasSections;
    ReadableIdent(im, total);
    InRange(im, total);
    HeaderBack(im, total, 0);
    forall i | 0 <= i < |im.sections|
      ensures LoadedSection(FileOf(im, total), im.ehdr, i) == BareAt(im.sections, i)
    {
      SectionBack(im, total, i);
    }
  }
}
