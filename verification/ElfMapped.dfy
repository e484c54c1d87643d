/** The program headers of a rebuilt executable, as a loader finds them in the
    file: what it maps of the new sections, and what it does not. */
module ElfMapped {
  import opened Words
  import opened ElfModel
  import opened ElfLayout
  import opened ElfSafety
  import opened ElfFile
  import opened ElfLoad
  import opened ElfBuild
  import opened ElfReadBack
  import opened ElfHeaders
  import opened ElfTheorem

  /** An executable, its tables done, whose file can be read: enough room, sections
      that were apart, bytes of the sizes they should have, and program headers
      that can be counted. */
  ghost predicate Executes(t: Image) {
    && t.ehdr.etype != ET_REL && |t.ehdr.ident| == 16 && t.ehdr.ident[..6] == [0x7F, 0x45, 0x4C, 0x46, 2, 1]
    && Roomy(t) && KeptDisjoint(t) && BytesOk(t.sections) && |SegmentsOut(t)| < 0x1_0000
  }

  function LaidFile(t: Image): (file: seq<byte>)
    requires |t.ehdr.ident| == 16
    ensures |file| == Total(t)
  {
    FileOf(LaidOut(t), Total(t))
  }

  /** Section i is allocated and has to be placed anew. */
  predicate IsNew(t: Image, i: nat) { i < |t.sections| && ClassOf(t.sections, i, SettingOf(t)) == Fresh }

  /** The program headers that a loader finds in a file. */
  function HeadersOf(file: seq<byte>): seq<Segment>
    requires |file| >= EHDR_SIZE
  {
    SegmentsOf(file, ReadEhdr(file))
  }

  lemma ExecutesParts(t: Image)
    requires Executes(t)
    ensures |t.ehdr.ident| == 16 && Roomy(t) && !IsRel(t) && Disjoint(LaidOut(t), Total(t))
    ensures LaidOut(t).ehdr.ident[..6] == [0x7F, 0x45, 0x4C, 0x46, 2, 1] && LaidOut(t).ehdr.phnum == |LaidOut(t).segments|
  {
    hide Roomy, KeptDisjoint, BytesOk, MetaPart, SegmentsOut, Disjoint, Total;
    LayoutDisjoint(t);
  }

  /** The file announces the headers it holds, and they are the ones the layout
      decided on. */
  lemma HeadersInFile(t: Image)
    requires Executes(t)
    ensures |t.ehdr.ident| == 16 && |LaidFile(t)| >= EHDR_SIZE && IsElf64(LaidFile(t))
    ensures HeadersOf(LaidFile(t)) == LaidOut(t).segments
  {
    hide Executes, FileOf, Disjoint, Total, LaidOut, ReadEhdr, SegmentsOf;
    ExecutesParts(t);
    EhdrBack(LaidOut(t), Total(t));
    SegmentsBack(LaidOut(t), Total(t));
  }

  /** Without new allocated sections a loader finds the program headers the image
      had. */
  lemma NothingNew(t: Image)
    requires Executes(t) && forall i: nat :: !IsNew(t, i)
    ensures |t.ehdr.ident| == 16 && |LaidFile(t)| >= EHDR_SIZE && HeadersOf(LaidFile(t)) == t.segments
    ensures t.segments != [] ==> ReadEhdr(LaidFile(t)).phoff == t.ehdr.phoff
  {
    hide Executes, LaidFile, HeadersOf, ClassOf, FreshSegment, MetaPart, EhdrOut, ReadEhdr;
    HeadersInFile(t);
    HeaderInFile(t);
    if AnyFresh(t) { AnyIsNew(t); }
    if t.segments != [] { TableStays(t); }
  }

  lemma HeaderInFile(t: Image)
    requires Executes(t)
    ensures |t.ehdr.ident| == 16 && |LaidFile(t)| >= EHDR_SIZE && ReadEhdr(LaidFile(t)) == LaidOut(t).ehdr
  {
    hide Executes, FileOf, Disjoint, Total, LaidOut, ReadEhdr;
    ExecutesParts(t);
    EhdrBack(LaidOut(t), Total(t));
  }

  /** A program header table that does not grow stays where it is. */
  lemma TableStays(t: Image)
    requires SegmentsOut(t) == t.segments != []
    ensures LaidOut(t).ehdr.phoff == t.ehdr.phoff
  {
    hide AnyFresh, FreshSegment, MetaPart, ShOff, Find;
  }

  lemma AnyIsNew(t: Image)
    requires AnyFresh(t)
    ensures exists i: nat :: IsNew(t, i)
  {
    var i :| 0 <= i < |t.sections| && ClassOf(t.sections, i, SettingOf(t)) == Fresh;
    assert IsNew(t, i);
  }

  /** The segment holds the section's part of the file, at one distance from
      memory, and all of it is inside the file. */
  predicate Holds(seg: Segment, s: Section, total: nat) {
    && seg.typ == PT_LOAD && seg.offset <= s.offset && End(s) <= seg.offset + seg.filesz <= total && seg.memsz == seg.filesz
    && s.addr == Wrap(seg.vaddr + (s.offset - seg.offset)) && seg.paddr == seg.vaddr && seg.align == PAGE_SIZE
    && seg.offset % PAGE_SIZE == 0
  }

  /** With a new allocated section a loader finds the old program headers and
      behind them exactly one more, a PT_LOAD that holds it. */
  lemma NewSectionMapped(t: Image, i: nat)
    requires Executes(t) && IsNew(t, i)
    ensures |t.ehdr.ident| == 16 && |LaidFile(t)| >= EHDR_SIZE && i < |LaidOut(t).sections|
    ensures var segs := HeadersOf(LaidFile(t));
            && |segs| == |t.segments| + 1 && segs[..|t.segments|] == t.segments
            && Holds(segs[|t.segments|], LaidOut(t).sections[i], |LaidFile(t)|)
            && FlagsOfNew(t, segs[|t.segments|].flags)
  {
    hide Executes, LaidFile, HeadersOf, ClassOf, Roomy, LoadBase, End, FreshPart, MetaPart, FreshStart, FlagsOfNew, EhdrOut,
         SegmentsOut, SettingOf, Disjoint;
    HeadersInFile(t);
    ExecutesParts(t);
    FreshMapped(t, i);
    var s, seg := LaidOut(t).sections[i], LaidOut(t).segments[|t.segments|];
    RegionInside(t, i);
    SumWraps(LoadBase(t), seg.offset, s.offset);
  }

  /** Addresses and offsets of the segment differ by as much as those of the first
      PT_LOAD there was, or by the base when there was none. */
  ghost predicate SameBias(segs: seq<Segment>, base: u64, seg: Segment) {
    && (forall k :: 0 <= k < |segs| && segs[k].typ == PT_LOAD && (forall j :: 0 <= j < k ==> segs[j].typ != PT_LOAD) ==>
          Wrap(seg.vaddr - seg.offset) == Wrap(segs[k].vaddr - segs[k].offset))
    && ((forall k :: 0 <= k < |segs| ==> segs[k].typ != PT_LOAD) ==> Wrap(seg.vaddr - seg.offset) == base)
  }

  lemma BiasKept(t: Image, seg: Segment)
    requires !IsRel(t) && seg.vaddr == Wrap(LoadBase(t) + seg.offset)
    ensures SameBias(t.segments, t.base, seg)
  {
    hide IsRel;
    Unshifted(LoadBase(t), seg.offset);
    var i := FirstLoad(t.segments);
    forall k | 0 <= k < |t.segments| && t.segments[k].typ == PT_LOAD && (forall j :: 0 <= j < k ==> t.segments[j].typ != PT_LOAD)
      ensures k == i
    {}
  }

  lemma Unshifted(base: u64, at: u64)
    ensures Wrap(Wrap(base + at) - at) == base
  {}

  /** The new region ends inside the file. */
  lemma RegionInside(t: Image, i: nat)
    requires Executes(t) && IsNew(t, i) && |LaidOut(t).segments| == |t.segments| + 1
    ensures var seg := LaidOut(t).segments[|t.segments|]; seg.offset + seg.filesz <= Total(t)
  {
    hide Executes, ClassOf, Roomy, LoadBase, FreshPart, MetaPart, FreshStart, ShOff, TableEnd, MetaStart, FixedEnd, AnyFreshWith,
         EhdrOut, PhOff, TableMoves, Total;
    ExecutesParts(t);
    assert AnyFresh(t);
    FreshBelow(t);
    TablesPlaced(t);
    WrapSmall(FreshPart(t).cur - FreshStart(t));
  }

  lemma SumWraps(base: u64, a: nat, b: nat)
    requires a <= b < TWO64
    ensures Wrap(base + b) == Wrap(Wrap(base + a) + (b - a))
  {}

  // ------------------------------------------------------------------- in memory

  /** The byte a segment puts at an address. */
  function ByteAt(file: seq<byte>, seg: Segment, a: nat): Option<byte> {
    if seg.vaddr <= a < seg.vaddr + seg.filesz && seg.offset + seg.filesz <= |file| then
      Some(file[seg.offset + (a - seg.vaddr)])
    else None
  }

  /** A program that is loaded finds every byte of a new section at the address
      the section has, as long as no address wraps. */
  lemma NewSectionBytes(t: Image, i: nat, k: nat)
    requires Executes(t) && IsNew(t, i) && Carries(t.sections[i]) && k < |t.sections[i].data| && LoadBase(t) + Total(t) < TWO64
    ensures |t.ehdr.ident| == 16 && |LaidFile(t)| >= EHDR_SIZE && i < |LaidOut(t).sections|
    ensures var segs := HeadersOf(LaidFile(t));
            && |segs| == |t.segments| + 1
            && ByteAt(LaidFile(t), segs[|t.segments|], LaidOut(t).sections[i].addr + k) == Some(t.sections[i].data[k])
  {
    hide Executes, HeadersOf, ClassOf, Roomy, LoadBase, FlagsOfNew, Carries, LaidOut, Total, FileOf, End, LaidFile;
    NewSectionMapped(t, i);
    NewSectionAt(t, i);
    var s, seg := LaidOut(t).sections[i], HeadersOf(LaidFile(t))[|t.segments|];
    NewSegmentAt(t, i);
    Unwrapped(seg, s, LoadBase(t), Total(t));
    assert LaidFile(t)[s.offset..s.offset + s.size][k] == s.data[k];
  }

  /** The section in the file. */
  lemma NewSectionAt(t: Image, i: nat)
    requires Executes(t) && IsNew(t, i) && Carries(t.sections[i])
    ensures |t.ehdr.ident| == 16 && i < |LaidOut(t).sections|
    ensures var s := LaidOut(t).sections[i];
            && s.data == t.sections[i].data && |s.data| == s.size && s.offset + s.size <= |LaidFile(t)|
            && End(s) == s.offset + s.size && LaidFile(t)[s.offset..s.offset + s.size] == s.data
  {
    hide Executes, ClassOf, Roomy, Carries, EhdrOut, Total, FileOf, MetaPart, SegmentsOut, SameButPlace, End, FreshPart, FreshStart,
         Aligned, SettingOf, Disjoint;
    ExecutesParts(t);
    assert Laid(t, i);
    LaidFacts(t, i);
    NotFirst(t, i);
    CarriesSame(t.sections[i], LaidOut(t).sections[i]);
    SectionInFile(LaidOut(t), Total(t), i);
    DisjointOne(LaidOut(t), Total(t), i);
  }

  lemma NotFirst(t: Image, i: nat)
    requires IsNew(t, i)
    ensures i > 0
  {}

  /** Where the new segment starts. */
  lemma NewSegmentAt(t: Image, i: nat)
    requires Executes(t) && IsNew(t, i)
    ensures |t.ehdr.ident| == 16 && |LaidFile(t)| >= EHDR_SIZE && |HeadersOf(LaidFile(t))| == |t.segments| + 1
    ensures var seg := HeadersOf(LaidFile(t))[|t.segments|]; seg.vaddr == Wrap(LoadBase(t) + seg.offset)
  {
    hide Executes, LaidFile, HeadersOf, ClassOf, Roomy, LoadBase, End, FreshPart, MetaPart, FreshStart, FlagsOfNew, EhdrOut,
         SegmentsOut;
    HeadersInFile(t);
    ExecutesParts(t);
    FreshMapped(t, i);
  }

  lemma Unwrapped(seg: Segment, s: Section, base: u64, total: nat)
    requires Holds(seg, s, total) && seg.vaddr == Wrap(base + seg.offset) && base + total < TWO64
    ensures s.addr == seg.vaddr + (s.offset - seg.offset)
  {}

  // ------------------------------------------------------------- what build makes

  /** The segments are those of t and, exactly when a new section is allocated, one
      more, which holds every such section. */
  ghost predicate MapsNew(t: Image, segs: seq<Segment>, ss: seq<Section>, total: nat) {
    if exists i: nat :: IsNew(t, i) then
      && |segs| == |t.segments| + 1 && segs[..|t.segments|] == t.segments
      && FlagsOfNew(t, segs[|t.segments|].flags) && SameBias(t.segments, t.base, segs[|t.segments|])
      && forall i: nat :: IsNew(t, i) ==> i < |ss| && Holds(segs[|t.segments|], ss[i], total)
    else segs == t.segments
  }

  lemma LaidSegments(t: Image)
    requires Executes(t)
    ensures |t.ehdr.ident| == 16 && |LaidFile(t)| >= EHDR_SIZE && IsElf64(LaidFile(t))
    ensures MapsNew(t, HeadersOf(LaidFile(t)), LaidOut(t).sections, |LaidFile(t)|)
  {
    hide Executes, LaidOut, LaidFile, HeadersOf, IsNew, Holds, FlagsOfNew, SameBias, LoadBase;
    HeadersInFile(t);
    if exists i: nat :: IsNew(t, i) {
      var n :| IsNew(t, n);
      NewSectionMapped(t, n);
      NewSegmentAt(t, n);
      NotRel(t);
      BiasKept(t, HeadersOf(LaidFile(t))[|t.segments|]);
      forall i: nat | IsNew(t, i)
        ensures i < |LaidOut(t).sections| && Holds(HeadersOf(LaidFile(t))[|t.segments|], LaidOut(t).sections[i], |LaidFile(t)|)
      {
        NewSectionMapped(t, i);
      }
    } else {
      NothingNew(t);
    }
  }

  lemma NotRel(t: Image)
    requires Executes(t)
    ensures !IsRel(t)
  {
    hide Roomy, KeptDisjoint, BytesOk, SegmentsOut;
  }

  /** lielf_build, and lielf_load_mem after it: the program headers in the file are
      the old ones and one for what is new, and a file that loads has them as its
      segments. */
  lemma BuiltSegments(im: Image)
    requires |im.ehdr.ident| == 16 && Executes(TablesDone(im))
    ensures |BuiltFile(im)| >= EHDR_SIZE && IsElf64(BuiltFile(im))
    ensures MapsNew(TablesDone(im), HeadersOf(BuiltFile(im)), Built(im).sections, |BuiltFile(im)|)
    ensures TablesDone(im).segments == im.segments
    ensures Loaded(BuiltFile(im)).Some? ==> Loaded(BuiltFile(im)).value.segments == HeadersOf(BuiltFile(im))
  {
    hide Executes, LaidOut, FileOf, Total, ReadEhdr, SegmentsOf, ParsedTo, SectionsOf, HasSections, FinalSections, FinalRelocs,
         MapsNew;
    var t := TablesDone(im);
    TablesHeader(im);
    LaidSegments(t);
    assert BuiltFile(im) == LaidFile(t);
  }

  lemma TablesHeader(im: Image)
    ensures TablesDone(im).ehdr == im.ehdr && TablesDone(im).segments == im.segments
    ensures LaidOut(TablesDone(im)).ehdr.ident == im.ehdr.ident
  {
    hide FinalSections, FinalRelocs, MetaPart, SegmentsOut;
  }

  // ---------------------------------------------------------------------- .bss

  /** The last of the new sections. */
  ghost predicate LastNew(t: Image, i: nat) {
    IsNew(t, i) && forall k: nat :: i < k ==> !IsNew(t, k)
  }

  lemma {:induction false} LastEnds(ss: seq<Section>, n: nat, i: nat, L: Setting, start: u64)
    requires i < n <= |ss| && ClassOf(ss, i, L) == Fresh && forall k :: i < k < n ==> ClassOf(ss, k, L) != Fresh
    ensures var p := PlacedTo(ss, n, Fresh, L, start); p.cur == Wrap(End(p.ss[i]))
    decreases n
  {
    hide ClassOf, AlignUp, End;
    if i < n - 1 { LastEnds(ss, n - 1, i, L, start); }
  }

  lemma LastPlaced(t: Image, i: nat)
    requires Roomy(t) && LastNew(t, i)
    ensures |MetaPart(t).ss| == |t.sections| == |FreshPart(t).ss| && MetaPart(t).ss[i] == FreshPart(t).ss[i]
    ensures FreshPart(t).cur == Wrap(End(FreshPart(t).ss[i]))
  {
    hide AlignUp, PlacedTo, FixedEndTo, IsAlignment, Budget, Aligned, ClassOf, Roomy, HeadEnd, End, FreshStart, MetaStart, SettingOf;
    Passes(t);
    forall k | i < k < |t.sections| ensures ClassOf(t.sections, k, SettingOf(t)) != Fresh { assert !IsNew(t, k); }
    LastEnds(t.sections, |t.sections|, i, SettingOf(t), FreshStart(t));
  }

  /** The memory of a section is in the segment. */
  predicate InMemory(seg: Segment, s: Section) { s.addr + s.size <= seg.vaddr + seg.memsz }

  /** The new segment is as long in memory as in the file. So the memory of the last
      new section is in it unless that section is like .bss, with a size but no
      bytes: then no segment maps it. */
  lemma LastNewMapped(t: Image, i: nat)
    requires Executes(t) && LastNew(t, i) && LoadBase(t) + Total(t) < TWO64
    ensures |t.ehdr.ident| == 16 && |LaidFile(t)| >= EHDR_SIZE && i < |LaidOut(t).sections|
    ensures |HeadersOf(LaidFile(t))| == |t.segments| + 1
    ensures var s, seg := LaidOut(t).sections[i], HeadersOf(LaidFile(t))[|t.segments|];
            InMemory(seg, s) <==> !(s.typ == SHT_NOBITS && s.size > 0)
  {
    hide Executes, LaidFile, HeadersOf, ClassOf, Roomy, LoadBase, FreshPart, MetaPart, FreshStart, FlagsOfNew, EhdrOut, AnyFresh,
         Total;
    NewSectionMapped(t, i);
    NewSegmentAt(t, i);
    HeadersInFile(t);
    ExecutesParts(t);
    LastPlaced(t, i);
    var s, seg := LaidOut(t).sections[i], HeadersOf(LaidFile(t))[|t.segments|];
    Unwrapped(seg, s, LoadBase(t), Total(t));
    FreshBelow(t);
    NewSegmentEnds(t, i);
  }

  lemma NewSegmentEnds(t: Image, i: nat)
    requires Executes(t) && LastNew(t, i) && |LaidOut(t).segments| == |t.segments| + 1
    ensures |LaidOut(t).sections| == |t.sections|
    ensures var seg := LaidOut(t).segments[|t.segments|]; seg.offset + seg.filesz == End(LaidOut(t).sections[i])
  {
    hide Executes, ClassOf, Roomy, LoadBase, FreshPart, MetaPart, FreshStart, EhdrOut, AnyFreshWith, End, Total, TableEnd, ShOff,
         PhOff, TableMoves, MetaStart, FixedEnd;
    ExecutesParts(t);
    LastPlaced(t, i);
    assert AnyFresh(t);
    FreshBelow(t);
    TablesPlaced(t);
    WrapSmall(FreshPart(t).cur - FreshStart(t));
    EndFits(t, i);
  }

  lemma EndFits(t: Image, i: nat)
    requires Roomy(t) && IsNew(t, i)
    ensures |MetaPart(t).ss| == |t.sections| && End(MetaPart(t).ss[i]) < TWO64
  {
    hide ClassOf, Roomy, FreshPart, MetaPart, FreshStart, End, Aligned, SameButPlace;
    assert Laid(t, i);
    LaidFacts(t, i);
  }

  /** Such an image: an executable with one section, a new .bss of sixteen bytes. */
  const BSS := Section([46, 98, 115, 115], SHT_NOBITS, ALLOC_FLAG + 1, 0, 0, 16, 0, 0, 8, 0, [], Normal, false, true, false, [])

  function BssImage(e: Ehdr): Image { Image(e, [NULL_SECTION, BSS], [], [], [], [], DEFAULT_BASE_EXEC) }

  /** It gets address 0x401000, and a segment for that address without any
      memory. */
  lemma BssUnmapped(e: Ehdr)
    requires e.etype == ET_EXEC
    ensures var out := LaidOut(BssImage(e));
            && |out.segments| == 1 && |out.sections| == 2
            && out.segments[0].vaddr == 0x401000 && out.segments[0].memsz == 0
            && out.sections[1].addr == 0x401000 && out.sections[1].size == 16
  {
    hide AlignUp, PlacedTo, FixedEndTo, EhdrOut;
    var t := BssImage(e);
    var ss, L := t.sections, SettingOf(t);
    assert ClassOf(ss, 0, L) == Skip && ClassOf(ss, 1, L) == Fresh;
    BssEnd(ss, L);
    AlignOk(EHDR_SIZE, PAGE_SIZE);
    assert FreshStart(t) == PAGE_SIZE;
    BssPlaced(ss, L, PAGE_SIZE);
    OneMeta(FreshPart(t).ss, L, MetaStart(t));
    BssSegments(t);
  }

  lemma BssEnd(ss: seq<Section>, L: Setting)
    requires |ss| == 2 && ClassOf(ss, 0, L) == Skip && ClassOf(ss, 1, L) == Fresh
    ensures FixedEndTo(ss, 2, L, EHDR_SIZE) == EHDR_SIZE
  {
    hide ClassOf;
    assert FixedEndTo(ss, 1, L, EHDR_SIZE) == EHDR_SIZE;
  }

  lemma BssPlaced(ss: seq<Section>, L: Setting, start: u64)
    requires ss == [NULL_SECTION, BSS] && start == PAGE_SIZE && L == Setting(false, 0, DEFAULT_BASE_EXEC)
    ensures var p := PlacedTo(ss, 2, Fresh, L, start);
            p.cur == PAGE_SIZE && p.ss == [NULL_SECTION, BSS.(offset := PAGE_SIZE, addr := 0x401000)]
  {
    hide AlignUp;
    assert PlacedTo(ss, 1, Fresh, L, start) == Placing(ss, start);
    EightAligned();
  }

  lemma EightAligned()
    ensures AlignUp(PAGE_SIZE, 8) == PAGE_SIZE
  {
    hide AlignUp;
    AlignOk(PAGE_SIZE, 8);
  }

  lemma OneMeta(ss: seq<Section>, L: Setting, start: u64)
    requires |ss| == 2 && ss[0].typ == SHT_NULL && Alloc(ss[1].flags) && ss[1].typ != SHT_NULL
    ensures PlacedTo(ss, 2, Meta, L, start).ss == ss
  {
    assert PlacedTo(ss, 1, Meta, L, start).ss == ss;
  }

  lemma BssSegments(t: Image)
    requires t.segments == [] && !IsRel(t) && IsNew(t, 1) && LoadBase(t) == DEFAULT_BASE_EXEC
    requires FreshStart(t) == PAGE_SIZE == FreshPart(t).cur
    ensures |SegmentsOut(t)| == 1 && SegmentsOut(t)[0].vaddr == 0x401000 && SegmentsOut(t)[0].memsz == 0
  {
    hide ClassOf, FreshPart, FreshStart, LoadBase, AnyFreshWith;
    assert AnyFresh(t);
  }
}
