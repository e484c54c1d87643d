/** lielf_build: tables, then layout, then bytes; afterwards everything written
    counts as placed and clean. */
module ElfBuild {
  import opened Words
  import opened ElfNames
  import opened ElfModel
  import opened ElfSort
  import opened ElfTables
  import opened ElfLayout
  import opened ElfFile

  /** The relocations once both symbol tables are sorted. */
  function FinalRelocs(im: Image): seq<Reloc> {
    AllMoved(AllMoved(im.relocs, im.symbols, false), im.dynsymbols, true)
  }

  /** The sections after both symbol tables and their string tables. */
  function SymbolSections(im: Image): seq<Section> {
    var ss := WithStrTab(WithSymTab(im.sections, Sorted(im.symbols), false), Sorted(im.symbols), false);
    WithStrTab(WithSymTab(ss, Sorted(im.dynsymbols), true), Sorted(im.dynsymbols), true)
  }

  function FinalSections(im: Image): seq<Section> {
    Linked(WithShStrTab(RelasRebuilt(SymbolSections(im), FinalRelocs(im))))
  }

  /** The image with every regenerated table. */
  function TablesDone(im: Image): Image {
    im.(symbols := Sorted(im.symbols), dynsymbols := Sorted(im.dynsymbols), relocs := FinalRelocs(im),
        sections := FinalSections(im))
  }

  function SettledSection(s: Section): Section {
    s.(loaded := s.typ != SHT_NULL && Alloc(s.flags), dirty := false)
  }

  /** Everything just written is clean. */
  function Settled(ss: seq<Section>): (r: seq<Section>)
    ensures |r| == |ss|
    ensures forall i :: 0 <= i < |ss| ==> r[i] == SettledSection(ss[i])
  {
    seq(|ss|, i requires 0 <= i < |ss| => SettledSection(ss[i]))
  }

  /** The image as written, and as it is left. */
  function Built(im: Image): Image { LaidOut(TablesDone(im)) }

  function AfterBuild(im: Image): Image { Built(im).(sections := Settled(Built(im).sections)) }

  function BuiltFile(im: Image): seq<byte>
    requires |im.ehdr.ident| == 16
  {
    FileOf(Built(im), Total(TablesDone(im)))
  }

  // ------------------------------------------------------------------- methods

  method RebuildTables(b: Binary)
    requires |b.symbols| < TWO32 && |b.dynsymbols| < TWO32
    modifies b
    ensures b.View() == TablesDone(old(b.View()))
  {
    hide Sorted, AllMoved, WithSymTab, WithStrTab, RelasRebuilt, WithShStrTab, Linked;
    RebuildTable(b, false);
    RebuildTable(b, true);
    RebuildRest(b);
  }

  /** One symbol table and its string table. */
  method RebuildTable(b: Binary, dynamic: bool)
    requires |SymbolsOf(b, dynamic)| < TWO32
    modifies b`symbols, b`dynsymbols, b`relocs, b`sections
    ensures SymbolsOf(b, dynamic) == Sorted(old(SymbolsOf(b, dynamic)))
    ensures SymbolsOf(b, !dynamic) == old(SymbolsOf(b, !dynamic))
    ensures b.relocs == AllMoved(old(b.relocs), old(SymbolsOf(b, dynamic)), dynamic)
    ensures b.sections == WithStrTab(WithSymTab(old(b.sections), SymbolsOf(b, dynamic), dynamic), SymbolsOf(b, dynamic), dynamic)
  {
    hide Sorted, AllMoved, WithSymTab, WithStrTab;
    RebuildSymTab(b, dynamic);
    RebuildStrTab(b, dynamic);
  }

  method RebuildRest(b: Binary)
    modifies b`sections
    ensures b.sections == Linked(WithShStrTab(RelasRebuilt(old(b.sections), b.relocs)))
  {
    hide WithShStrTab, Linked, RelasRebuilt;
    RebuildRelas(b);
    RebuildShStrTab(b);
    ResolveLinks(b);
  }

  /** The base for new sections: that of the first PT_LOAD, when there is one. */
  method FindBase(b: Binary) returns (base: u64)
    ensures base == LoadBase(b.View())
  {
    base := b.base;
    if b.ehdr.etype == ET_REL { return; }
    var i := 0;
    while i < |b.segments|
      invariant 0 <= i <= |b.segments| && forall k :: 0 <= k < i ==> b.segments[k].typ != PT_LOAD
    {
      if b.segments[i].typ == PT_LOAD {
        return Wrap(b.segments[i].vaddr - b.segments[i].offset);
      }
      i := i + 1;
    }
  }

  method Classify(b: Binary, L: Setting) returns (cls: array<Class>)
    ensures fresh(cls) && cls.Length == |b.sections|
    ensures forall i :: 0 <= i < cls.Length ==> cls[i] == ClassOf(b.sections, i, L)
  {
    cls := new Class[|b.sections|](i => Skip);
    if |b.sections| == 0 { return; }
    for i := 1 to |b.sections|
      invariant forall k :: 0 <= k < i && k < cls.Length ==> cls[k] == ClassOf(b.sections, k, L)
    {
      var s := b.sections[i];
      cls[i] := if s.typ == SHT_NULL then Skip
                else if !Alloc(s.flags) then Meta
                else if !L.isRel && s.loaded && !s.dirty && L.nsegs > 0 then Fixed
                else Fresh;
    }
  }

  method FindFixedEnd(b: Binary, cls: array<Class>, ghost L: Setting, start: u64) returns (end: u64)
    requires cls.Length == |b.sections|
    requires forall i :: 0 <= i < cls.Length ==> cls[i] == ClassOf(b.sections, i, L)
    ensures end == FixedEndTo(b.sections, |b.sections|, L, start)
  {
    hide ClassOf, End;
    end := start;
    for i := 0 to |b.sections|
      invariant end == FixedEndTo(b.sections, i, L, start)
    {
      if cls[i] == Fixed {
        var e := Wrap(End(b.sections[i]));
        if e > end { end := e; }
      }
    }
  }

  /** The sections of one class get their places, one after another. */
  method PlaceClass(b: Binary, cls: array<Class>, which: Class, L: Setting, start: u64) returns (cur: u64)
    requires cls.Length == |b.sections|
    requires forall i :: 0 <= i < cls.Length ==> cls[i] == ClassOf(b.sections, i, L)
    modifies b`sections
    ensures Placing(b.sections, cur) == PlacedTo(old(b.sections), |old(b.sections)|, which, L, start)
  {
    hide ClassOf, End, AlignUp;
    ghost var ss := b.sections;
    cur := start;
    for i := 0 to |b.sections|
      invariant |b.sections| == |ss|
      invariant forall k :: i <= k < |ss| ==> b.sections[k] == ss[k]
      invariant Placing(b.sections, cur) == PlacedTo(ss, i, which, L, start)
    {
      if cls[i] == which {
        var s := b.sections[i];
        var at := AlignUp(cur, if s.addralign == 0 then 1 else s.addralign);
        s := s.(offset := at, addr := if which == Fresh && !L.isRel then Wrap(L.base + at) else 0);
        b.sections := b.sections[i := s];
        cur := Wrap(End(s));
      }
    }
  }

  lemma ClassesKept(ss: seq<Section>, n: nat, which: Class, L: Setting, start: u64)
    requires n <= |ss|
    ensures forall i :: 0 <= i < |ss| ==> ClassOf(PlacedTo(ss, n, which, L, start).ss, i, L) == ClassOf(ss, i, L)
  {
    hide AlignUp, End;
    if n > 0 { ClassesKept(ss, n - 1, which, L, start); }
  }

  /** The classes, and both regions of sections. */
  method PlaceSections(b: Binary, L: Setting, headEnd: u64)
    returns (cls: array<Class>, freshStart: u64, freshEnd: u64, metaEnd: u64)
    requires L == SettingOf(b.View()) && headEnd == HeadEnd(b.View())
    modifies b`sections
    ensures fresh(cls) && cls.Length == |old(b.sections)|
    ensures forall i :: 0 <= i < cls.Length ==> cls[i] == ClassOf(old(b.sections), i, L)
    ensures freshStart == FreshStart(old(b.View())) && freshEnd == FreshPart(old(b.View())).cur
    ensures Placing(b.sections, metaEnd) == MetaPart(old(b.View()))
  {
    hide ClassOf, PlacedTo, FixedEndTo, AlignUp, HeadEnd;
    cls := Classify(b, L);
    var fixedEnd := FindFixedEnd(b, cls, L, headEnd);
    freshStart := AlignUp(fixedEnd, if L.isRel then 8 else PAGE_SIZE);
    ghost var ss := b.sections;
    freshEnd := PlaceClass(b, cls, Fresh, L, freshStart);
    ClassesKept(ss, |ss|, Fresh, L, freshStart);
    metaEnd := PlaceClass(b, cls, Meta, L, AlignUp(freshEnd, 8));
  }

  /** Every place in the file. */
  method AssignPlaces(b: Binary) returns (total: u64)
    modifies b`sections, b`segments, b`ehdr
    ensures b.View() == LaidOut(old(b.View()))
    ensures total == Total(old(b.View()))
  {
    hide ClassOf, PlacedTo, FixedEndTo, AlignUp, Writable, Executable, LoadBase, Find, MetaPart, FreshPart, FreshStart;
    ghost var im := b.View();
    var base := FindBase(b);
    var L := Setting(b.ehdr.etype == ET_REL, |b.segments|, base);
    var headEnd := EHDR_SIZE;
    if |b.segments| > 0 {
      headEnd := Max(Wrap(EHDR_SIZE + |b.segments| * PHDR_SIZE), Wrap(b.ehdr.phoff + |b.segments| * PHDR_SIZE));
    }
    ghost var ss := b.sections;
    var flagged := b.sections;
    var cls, freshStart, freshEnd, metaEnd := PlaceSections(b, L, headEnd);
    AddFreshSegment(b, cls, flagged, L, freshStart, freshEnd, im);
    total := PlaceTables(b, L.nsegs, metaEnd, im);
  }

  /** The segment that maps the new region, when there is one. */
  method AddFreshSegment(b: Binary, cls: array<Class>, ss: seq<Section>, L: Setting, freshStart: u64, freshEnd: u64,
                         ghost im: Image)
    requires ss == im.sections && b.segments == im.segments && L == SettingOf(im)
    requires cls.Length == |ss| && forall i :: 0 <= i < cls.Length ==> cls[i] == ClassOf(ss, i, L)
    requires freshStart == FreshStart(im) && freshEnd == FreshPart(im).cur
    modifies b`segments
    ensures b.segments == SegmentsOut(im)
  {
    hide ClassOf, Writable, Executable, LoadBase, FreshPart, FreshStart;
    var any, write, exec := false, false, false;
    for i := 0 to |ss|
      invariant any <==> exists k :: 0 <= k < i && ClassOf(ss, k, L) == Fresh
      invariant write <==> exists k :: 0 <= k < i && ClassOf(ss, k, L) == Fresh && Writable(ss[k].flags)
      invariant exec <==> exists k :: 0 <= k < i && ClassOf(ss, k, L) == Fresh && Executable(ss[k].flags)
      invariant b.segments == old(b.segments)
    {
      if cls[i] == Fresh {
        any := true;
        if Writable(ss[i].flags) { write := true; }
        if Executable(ss[i].flags) { exec := true; }
      }
    }
    assert any == AnyFresh(im) && write == AnyFreshWith(im, true) && exec == AnyFreshWith(im, false);
    if !L.isRel && any {
      var size, at := Wrap(freshEnd - freshStart), Wrap(L.base + freshStart);
      var flags := PF_R + (if write then PF_W else 0) + (if exec then PF_X else 0);
      b.segments := b.segments + [Segment(PT_LOAD, flags, freshStart, at, at, size, size, PAGE_SIZE)];
    }
  }

  /** The header tables. */
  method PlaceTables(b: Binary, oldCount: nat, metaEnd: u64, ghost im: Image) returns (total: u64)
    requires b.View() == im.(sections := MetaPart(im).ss, segments := SegmentsOut(im))
    requires oldCount == |im.segments| && metaEnd == MetaPart(im).cur
    modifies b`ehdr
    ensures b.View() == LaidOut(im) && total == Total(im)
  {
    hide AlignUp, Find, MetaPart, SegmentsOut;
    var phOff, tableEnd := b.ehdr.phoff, metaEnd;
    if |b.segments| != oldCount || oldCount == 0 {
      if |b.segments| > 0 {
        phOff := AlignUp(metaEnd, 8);
        tableEnd := Wrap(phOff + |b.segments| * PHDR_SIZE);
      } else {
        phOff := 0;
      }
    }
    assert tableEnd == TableEnd(im) by { SegmentsGrow(im); }
    var shOff := AlignUp(tableEnd, 8);
    var shstrndx := SectionIndex(b, SHSTRTAB);
    PlacedNames(im, SHSTRTAB);
    total := Wrap(shOff + |b.sections| * SHDR_SIZE);
    b.ehdr := b.ehdr.(phoff := if |b.segments| > 0 then phOff else 0, phnum := |b.segments| % 0x1_0000, shoff := shOff,
                      shnum := |b.sections| % 0x1_0000, shstrndx := shstrndx % 0x1_0000);
  }

  lemma SegmentsGrow(im: Image)
    ensures SegmentsOut(im) == [] ==> im.segments == []
  {
    hide AnyFresh, FreshSegment;
  }

  /** Placing does not rename. */
  lemma PlacedNames(im: Image, name: Name)
    ensures |MetaPart(im).ss| == |im.sections|
    ensures IndexOf(MetaPart(im).ss, name) == IndexOf(im.sections, name)
  {
    hide Find, PlacedTo, SettingOf, FreshStart, MetaStart;
    var L, n := SettingOf(im), |im.sections|;
    NamesKept(im.sections, n, Fresh, L, FreshStart(im));
    NamesKept(FreshPart(im).ss, n, Meta, L, MetaStart(im));
    FindSameNames(MetaPart(im).ss, im.sections, name);
  }

  lemma {:induction false} NamesKept(ss: seq<Section>, n: nat, which: Class, L: Setting, start: u64)
    requires n <= |ss|
    ensures forall i :: 0 <= i < |ss| ==> PlacedTo(ss, n, which, L, start).ss[i].name == ss[i].name
  {
    hide ClassOf, AlignUp, End;
    if n > 0 { NamesKept(ss, n - 1, which, L, start); }
  }

  method Settle(b: Binary)
    modifies b`sections
    ensures b.sections == Settled(old(b.sections))
  {
    hide Alloc;
    ghost var ss := b.sections;
    for i := 0 to |b.sections|
      invariant |b.sections| == |ss|
      invariant forall k :: 0 <= k < i ==> b.sections[k] == SettledSection(ss[k])
      invariant forall k :: i <= k < |ss| ==> b.sections[k] == ss[k]
    {
      var s := b.sections[i];
      b.sections := b.sections[i := s.(loaded := s.typ != SHT_NULL && Alloc(s.flags), dirty := false)];
    }
  }

  /** lielf_build */
  method Build(b: Binary) returns (out: seq<byte>)
    requires |b.ehdr.ident| == 16 && |b.symbols| < TWO32 && |b.dynsymbols| < TWO32
    modifies b
    ensures out == BuiltFile(old(b.View()))
    ensures b.View() == AfterBuild(old(b.View()))
  {
    hide TablesDone, LaidOut, Total, FileOf, Settled;
    ghost var im := b.View();
    RebuildTables(b);
    IdentKept(im);
    var total := AssignPlaces(b);
    out := Serialize(b, total);
    Settle(b);
  }

  lemma IdentKept(im: Image)
    ensures TablesDone(im).ehdr == im.ehdr && LaidOut(TablesDone(im)).ehdr.ident == im.ehdr.ident
  {
    hide FinalSections, FinalRelocs, Sorted, MetaPart, SegmentsOut;
  }
}
