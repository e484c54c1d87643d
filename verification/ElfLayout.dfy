/** Where everything goes in the file: sections that keep their place, a region
    for new allocated sections, a block for the rest, and the two header tables. */
module ElfLayout {
  import opened Words
  import opened Bits
  import opened ElfModel

  // ------------------------------------------------------------------ align_up

  /** (v + (a - 1)) & ~(a - 1) on 64-bit words. */
  function AlignUp(v: u64, a: u64): u64 {
    if a <= 1 then v else BitAnd(Wrap(v + (a - 1)), TWO64 - 1 - (a - 1))
  }

  predicate IsAlignment(a: u64) { a <= 1 || exists k :: 0 <= k < 64 && a == Pow2(k) }

  /** The next multiple of the alignment. */
  lemma AlignUpCorrect(v: u64, a: u64)
    requires IsAlignment(a) && v + a < TWO64
    ensures v <= AlignUp(v, a) <= v + a
    ensures a > 1 ==> AlignUp(v, a) < v + a && AlignUp(v, a) % a == 0
  {
    hide BitAnd, Pow2;
    if a > 1 {
      var k :| 0 <= k < 64 && a == Pow2(k);
      var x: nat := v + (a - 1);
      Pow2At64();
      AndHigh(x, k, 64);
      WrapSmall(x);
    }
  }

  lemma WrapSmall(x: nat)
    requires x < TWO64
    ensures Wrap(x) == x
  {}

  // ------------------------------------------------------------------- classes

  /** Skip: null sections. Fixed: allocated, loaded and not changed since, in a
      file with program headers. Fresh: any other allocated section. */
  datatype Class = Skip | Fixed | Fresh | Meta

  /** What the layout depends on besides the sections. */
  datatype Setting = Setting(isRel: bool, nsegs: nat, base: u64)

  function ClassOf(ss: seq<Section>, i: nat, L: Setting): Class
    requires i < |ss|
  {
    if i == 0 || ss[i].typ == SHT_NULL then Skip
    else if !Alloc(ss[i].flags) then Meta
    else if !L.isRel && ss[i].loaded && !ss[i].dirty && L.nsegs > 0 then Fixed
    else Fresh
  }

  /** Bytes in the file. */
  function FileSize(s: Section): u64 { if s.typ == SHT_NOBITS then 0 else s.size }

  function End(s: Section): nat { s.offset + FileSize(s) }

  function Max(a: nat, b: nat): nat { if a > b then a else b }

  /** The end of what keeps its place among the first n sections. */
  function FixedEndTo(ss: seq<Section>, n: nat, L: Setting, start: u64): u64
    requires n <= |ss|
  {
    if n == 0 then start
    else
      var e := FixedEndTo(ss, n - 1, L, start);
      if ClassOf(ss, n - 1, L) == Fixed then Max(e, Wrap(End(ss[n - 1]))) else e
  }

  // ----------------------------------------------------------------- placement

  datatype Placing = Placing(ss: seq<Section>, cur: u64)

  /** A section put at the next place its alignment allows. */
  function PutAt(s: Section, which: Class, L: Setting, cur: u64): Section {
    var at := AlignUp(cur, if s.addralign == 0 then 1 else s.addralign);
    s.(offset := at, addr := if which == Fresh && !L.isRel then Wrap(L.base + at) else 0)
  }

  /** The sections of one class among the first n, placed from start on. */
  function PlacedTo(ss: seq<Section>, n: nat, which: Class, L: Setting, start: u64): (p: Placing)
    requires n <= |ss|
    ensures |p.ss| == |ss|
  {
    if n == 0 then Placing(ss, start)
    else
      var p := PlacedTo(ss, n - 1, which, L, start);
      if ClassOf(ss, n - 1, L) != which then p
      else
        var s := PutAt(ss[n - 1], which, L, p.cur);
        Placing(p.ss[n - 1 := s], Wrap(End(s)))
  }

  /** More than the first n sections can take up, alignment included. */
  function Budget(ss: seq<Section>, n: nat): nat
    requires n <= |ss|
  {
    if n == 0 then 0 else Budget(ss, n - 1) + FileSize(ss[n - 1]) + ss[n - 1].addralign + 1
  }

  predicate Aligned(s: Section) { s.addralign > 1 ==> s.offset % s.addralign == 0 }

  /** s and t differ in their place only. */
  predicate SameButPlace(s: Section, t: Section) { t.(offset := s.offset, addr := s.addr) == s }

  lemma PutFacts(s: Section, which: Class, L: Setting, cur: u64)
    requires IsAlignment(s.addralign) && cur + FileSize(s) + s.addralign + 1 < TWO64
    ensures var t := PutAt(s, which, L, cur);
            && SameButPlace(s, t) && Aligned(t) && cur <= t.offset && End(t) <= cur + FileSize(s) + s.addralign + 1
            && t.addr == if which == Fresh && !L.isRel then Wrap(L.base + t.offset) else 0
  {
    hide AlignUp, IsAlignment;
    OneAligned();
    AlignUpCorrect(cur, if s.addralign == 0 then 1 else s.addralign);
  }

  lemma OneAligned()
    ensures IsAlignment(1)
  {}

  /** Section s of the class, placed as t between start and end. */
  ghost predicate PlacedOne(s: Section, t: Section, which: Class, L: Setting, start: nat, end: nat) {
    && SameButPlace(s, t) && Aligned(t) && start <= t.offset && End(t) <= end
    && t.addr == if which == Fresh && !L.isRel then Wrap(L.base + t.offset) else 0
  }

  /** What placing one class does to the first n sections. */
  ghost predicate Placed(ss: seq<Section>, n: nat, which: Class, L: Setting, start: u64, p: Placing)
    requires n <= |ss|
  {
    && |p.ss| == |ss|
    && start <= p.cur <= start + Budget(ss, n)
    && (forall i :: 0 <= i < |ss| && (i >= n || ClassOf(ss, i, L) != which) ==> p.ss[i] == ss[i])
    && (forall i :: 0 <= i < n && ClassOf(ss, i, L) == which ==> PlacedOne(ss[i], p.ss[i], which, L, start, p.cur))
    && (forall i, j :: 0 <= i < j < n && ClassOf(ss, i, L) == which && ClassOf(ss, j, L) == which ==>
          End(p.ss[i]) <= p.ss[j].offset)
  }

  lemma PlacedStep(ss: seq<Section>, n: nat, which: Class, L: Setting, start: u64, p: Placing)
    requires n < |ss| && start + Budget(ss, n + 1) < TWO64 && IsAlignment(ss[n].addralign)
    requires Placed(ss, n, which, L, start, p) && ClassOf(ss, n, L) == which
    ensures var s := PutAt(ss[n], which, L, p.cur);
            Placed(ss, n + 1, which, L, start, Placing(p.ss[n := s], Wrap(End(s))))
  {
    hide PutAt, ClassOf, Aligned, IsAlignment, SameButPlace;
    var s := PutAt(ss[n], which, L, p.cur);
    PutFacts(ss[n], which, L, p.cur);
    FileSizeKept(ss[n], s);
    WrapSmall(End(s));
    var q := Placing(p.ss[n := s], Wrap(End(s)));
    forall i | 0 <= i < n + 1 && ClassOf(ss, i, L) == which
      ensures PlacedOne(ss[i], q.ss[i], which, L, start, q.cur)
    {
      if i < n { assert PlacedOne(ss[i], p.ss[i], which, L, start, p.cur); }
    }
    forall i, j | 0 <= i < j < n + 1 && ClassOf(ss, i, L) == which && ClassOf(ss, j, L) == which
      ensures End(q.ss[i]) <= q.ss[j].offset
    {
      if j == n { assert PlacedOne(ss[i], p.ss[i], which, L, start, p.cur); }
    }
  }

  lemma FileSizeKept(s: Section, t: Section)
    requires SameButPlace(s, t)
    ensures FileSize(t) == FileSize(s)
  {}

  lemma {:induction false} PlacedFacts(ss: seq<Section>, n: nat, which: Class, L: Setting, start: u64)
    requires n <= |ss| && start + Budget(ss, n) < TWO64
    requires forall i :: 0 <= i < n ==> IsAlignment(ss[i].addralign)
    ensures Placed(ss, n, which, L, start, PlacedTo(ss, n, which, L, start))
  {
    hide PutAt, ClassOf, Aligned, IsAlignment, FileSize;
    if n > 0 {
      PlacedFacts(ss, n - 1, which, L, start);
      var p := PlacedTo(ss, n - 1, which, L, start);
      if ClassOf(ss, n - 1, L) == which {
        PlacedStep(ss, n - 1, which, L, start, p);
      } else {
        PlacedSame(ss, n - 1, which, L, start, p);
      }
    }
  }

  lemma PlacedSame(ss: seq<Section>, n: nat, which: Class, L: Setting, start: u64, p: Placing)
    requires n < |ss| && Placed(ss, n, which, L, start, p) && ClassOf(ss, n, L) != which
    ensures Placed(ss, n + 1, which, L, start, p)
  {
    hide ClassOf, PlacedOne;
  }

  // ----------------------------------------------------------- the whole layout

  const EHDR_SIZE := 64
  const PHDR_SIZE := 56
  const SHDR_SIZE := 64

  predicate IsRel(im: Image) { im.ehdr.etype == ET_REL }

  function FirstLoad(segs: seq<Segment>): (i: nat)
    ensures i <= |segs|
    ensures i < |segs| ==> segs[i].typ == PT_LOAD
    ensures forall k :: 0 <= k < i ==> segs[k].typ != PT_LOAD
  {
    if segs == [] || segs[0].typ == PT_LOAD then 0 else 1 + FirstLoad(segs[1..])
  }

  /** The load base: that of the first PT_LOAD, when there is one. */
  function LoadBase(im: Image): u64 {
    var i := FirstLoad(im.segments);
    if !IsRel(im) && i < |im.segments| then Wrap(im.segments[i].vaddr - im.segments[i].offset) else im.base
  }

  function SettingOf(im: Image): Setting { Setting(IsRel(im), |im.segments|, LoadBase(im)) }

  /** The end of the file header and of the program headers as they are. */
  function HeadEnd(im: Image): u64 {
    if im.segments == [] then EHDR_SIZE
    else Max(Wrap(EHDR_SIZE + |im.segments| * PHDR_SIZE), Wrap(im.ehdr.phoff + |im.segments| * PHDR_SIZE))
  }

  function FixedEnd(im: Image): u64 { FixedEndTo(im.sections, |im.sections|, SettingOf(im), HeadEnd(im)) }

  function FreshStart(im: Image): u64 { AlignUp(FixedEnd(im), if IsRel(im) then 8 else PAGE_SIZE) }

  function FreshPart(im: Image): Placing {
    PlacedTo(im.sections, |im.sections|, Fresh, SettingOf(im), FreshStart(im))
  }

  function MetaStart(im: Image): u64 { AlignUp(FreshPart(im).cur, 8) }

  function MetaPart(im: Image): Placing {
    PlacedTo(FreshPart(im).ss, |im.sections|, Meta, SettingOf(im), MetaStart(im))
  }

  predicate AnyFresh(im: Image) {
    exists i :: 0 <= i < |im.sections| && ClassOf(im.sections, i, SettingOf(im)) == Fresh
  }

  predicate AnyFreshWith(im: Image, write: bool) {
    exists i :: 0 <= i < |im.sections| && ClassOf(im.sections, i, SettingOf(im)) == Fresh
      && if write then Writable(im.sections[i].flags) else Executable(im.sections[i].flags)
  }

  /** The segment that maps the new region. */
  function FreshSegment(im: Image): Segment {
    var size := Wrap(FreshPart(im).cur - FreshStart(im));
    var at := Wrap(LoadBase(im) + FreshStart(im));
    Segment(PT_LOAD, PF_R + (if AnyFreshWith(im, true) then PF_W else 0) + (if AnyFreshWith(im, false) then PF_X else 0),
            FreshStart(im), at, at, size, size, PAGE_SIZE)
  }

  function SegmentsOut(im: Image): seq<Segment> {
    if !IsRel(im) && AnyFresh(im) then im.segments + [FreshSegment(im)] else im.segments
  }

  /** A program header table that grew, or is new, moves behind everything. */
  predicate TableMoves(im: Image) {
    SegmentsOut(im) != [] && (|SegmentsOut(im)| != |im.segments| || im.segments == [])
  }

  function PhOff(im: Image): u64 {
    if SegmentsOut(im) == [] then 0
    else if TableMoves(im) then AlignUp(MetaPart(im).cur, 8)
    else im.ehdr.phoff
  }

  function TableEnd(im: Image): u64 {
    if TableMoves(im) then Wrap(PhOff(im) + |SegmentsOut(im)| * PHDR_SIZE) else MetaPart(im).cur
  }

  function ShOff(im: Image): u64 { AlignUp(TableEnd(im), 8) }

  function Total(im: Image): u64 { Wrap(ShOff(im) + |im.sections| * SHDR_SIZE) }

  function EhdrOut(im: Image): Ehdr {
    im.ehdr.(phoff := PhOff(im), phnum := |SegmentsOut(im)| % 0x1_0000, shoff := ShOff(im),
             shnum := |im.sections| % 0x1_0000, shstrndx := IndexOf(im.sections, SHSTRTAB) % 0x1_0000)
  }

  /** The image with every place assigned. */
  function LaidOut(im: Image): Image {
    im.(sections := MetaPart(im).ss, segments := SegmentsOut(im), ehdr := EhdrOut(im))
  }
}
