/** The layout never lets two things share a byte of the file. */
module ElfSafety {
  import opened Words
  import opened Bits
  import opened ElfModel
  import opened ElfLayout

  /** The section is given a place. */
  predicate Laid(im: Image, i: nat) {
    i < |im.sections| && ClassOf(im.sections, i, SettingOf(im)) in {Fresh, Meta}
  }

  predicate Keeps(im: Image, i: nat) {
    i < |im.sections| && ClassOf(im.sections, i, SettingOf(im)) == Fixed
  }

  /** No 64-bit sum of the layout wraps; alignments are powers of two; program
      headers that exist already are behind the file header. */
  ghost predicate Roomy(im: Image) {
    && (forall i :: 0 <= i < |im.sections| ==> IsAlignment(im.sections[i].addralign))
    && (forall i: nat :: Keeps(im, i) ==> End(im.sections[i]) < TWO64)
    && (im.segments != [] ==> im.ehdr.phoff >= EHDR_SIZE)
    && EHDR_SIZE + im.ehdr.phoff + |im.segments| * PHDR_SIZE < TWO64
    && FixedEnd(im) + 2 * Budget(im.sections, |im.sections|) + PAGE_SIZE + 64
       + (|im.segments| + 1) * PHDR_SIZE + |im.sections| * SHDR_SIZE < TWO64
  }

  lemma AlignOk(v: u64, a: u64)
    requires a in {8, PAGE_SIZE} && v + a < TWO64
    ensures v <= AlignUp(v, a) < v + a && AlignUp(v, a) % a == 0
  {
    hide AlignUp;
    assert IsAlignment(a) by {
      assert Pow2(3) == 8;
      PagePower();
    }
    AlignUpCorrect(v, a);
  }

  lemma PagePower()
    ensures Pow2(12) == PAGE_SIZE
  {
    assert Pow2(4) == 16;
    assert Pow2(8) == 256;
    assert Pow2(12) == 4096;
  }

  lemma {:induction false} FixedEndFacts(ss: seq<Section>, n: nat, L: Setting, start: u64)
    requires n <= |ss|
    requires forall i :: 0 <= i < n && ClassOf(ss, i, L) == Fixed ==> End(ss[i]) < TWO64
    ensures start <= FixedEndTo(ss, n, L, start)
    ensures forall i :: 0 <= i < n && ClassOf(ss, i, L) == Fixed ==> End(ss[i]) <= FixedEndTo(ss, n, L, start)
  {
    hide ClassOf, End;
    if n > 0 {
      FixedEndFacts(ss, n - 1, L, start);
      if ClassOf(ss, n - 1, L) == Fixed { WrapSmall(End(ss[n - 1])); }
    }
  }

  lemma {:induction false} BudgetKept(ss: seq<Section>, tt: seq<Section>, n: nat)
    requires n <= |ss| == |tt|
    requires forall i :: 0 <= i < n ==> SameButPlace(ss[i], tt[i])
    ensures Budget(tt, n) == Budget(ss, n)
  {
    hide SameButPlace;
    if n > 0 {
      BudgetKept(ss, tt, n - 1);
      PlaceOnly(ss[n - 1], tt[n - 1]);
    }
  }

  lemma PlaceOnly(s: Section, t: Section)
    requires SameButPlace(s, t)
    ensures t.addralign == s.addralign && FileSize(t) == FileSize(s)
    ensures t.typ == s.typ && t.flags == s.flags && t.loaded == s.loaded && t.dirty == s.dirty
  {}

  lemma ClassKept(ss: seq<Section>, tt: seq<Section>, i: nat, L: Setting)
    requires i < |ss| == |tt| && SameButPlace(ss[i], tt[i])
    ensures ClassOf(tt, i, L) == ClassOf(ss, i, L)
  {
    PlaceOnly(ss[i], tt[i]);
  }

  /** The two passes over the sections, and the tables behind them. */
  lemma Passes(im: Image)
    requires Roomy(im)
    ensures var L, n := SettingOf(im), |im.sections|;
            && HeadEnd(im) <= FixedEnd(im) <= FreshStart(im) < FixedEnd(im) + PAGE_SIZE
            && Placed(im.sections, n, Fresh, L, FreshStart(im), FreshPart(im))
            && FreshPart(im).cur <= MetaStart(im) < FreshPart(im).cur + 8
            && Placed(FreshPart(im).ss, n, Meta, L, MetaStart(im), MetaPart(im))
            && MetaPart(im).cur <= FixedEnd(im) + PAGE_SIZE + 8 + 2 * Budget(im.sections, n)
    ensures forall i :: 0 <= i < |im.sections| ==>
              SameButPlace(im.sections[i], FreshPart(im).ss[i])
              && ClassOf(FreshPart(im).ss, i, SettingOf(im)) == ClassOf(im.sections, i, SettingOf(im))
  {
    hide AlignUp, PlacedTo, Placed, FixedEndTo, ClassOf, IsAlignment, Budget, SameButPlace, HeadEnd, End;
    var L, n := SettingOf(im), |im.sections|;
    var ss := im.sections;
    assert FixedEnd(im) == FixedEndTo(ss, n, L, HeadEnd(im));
    FixedEndFacts(ss, n, L, HeadEnd(im));
    AlignOk(FixedEnd(im), if IsRel(im) then 8 else PAGE_SIZE);
    PlacedFacts(ss, n, Fresh, L, FreshStart(im));
    var p := FreshPart(im);
    PlacedSameClass(ss, Fresh, L, FreshStart(im), p);
    AlignOk(p.cur, 8);
    BudgetKept(ss, p.ss, n);
    PlacedFacts(p.ss, n, Meta, L, MetaStart(im));
    PlacedEnd(p.ss, Meta, L, MetaStart(im), MetaPart(im));
  }

  lemma PlacedEnd(ss: seq<Section>, which: Class, L: Setting, start: u64, p: Placing)
    requires Placed(ss, |ss|, which, L, start, p)
    ensures start <= p.cur <= start + Budget(ss, |ss|)
  {}

  lemma PlacedSameClass(ss: seq<Section>, which: Class, L: Setting, start: u64, p: Placing)
    requires Placed(ss, |ss|, which, L, start, p)
    requires forall i :: 0 <= i < |ss| ==> IsAlignment(ss[i].addralign)
    ensures |p.ss| == |ss| && start <= p.cur <= start + Budget(ss, |ss|)
    ensures forall i :: 0 <= i < |ss| ==> SameButPlace(ss[i], p.ss[i]) && ClassOf(p.ss, i, L) == ClassOf(ss, i, L)
    ensures forall i :: 0 <= i < |ss| ==> IsAlignment(p.ss[i].addralign)
  {
    hide ClassOf, Aligned, End, IsAlignment, Budget;
    forall i | 0 <= i < |ss|
      ensures SameButPlace(ss[i], p.ss[i]) && ClassOf(p.ss, i, L) == ClassOf(ss, i, L) && IsAlignment(p.ss[i].addralign)
    {
      if ClassOf(ss, i, L) == which { assert PlacedOne(ss[i], p.ss[i], which, L, start, p.cur); }
      ClassKept(ss, p.ss, i, L);
      PlaceOnly(ss[i], p.ss[i]);
    }
  }

  predicate Apart(a: nat, aEnd: nat, b: nat, bEnd: nat) { aEnd <= b || bEnd <= a }

  /** Every section given a place, seen in the finished layout. */
  lemma LaidFacts(im: Image, i: nat)
    requires Roomy(im) && Laid(im, i)
    ensures |MetaPart(im).ss| == |im.sections|
    ensures var s := MetaPart(im).ss[i];
            && SameButPlace(im.sections[i], s) && Aligned(s)
            && (if ClassOf(im.sections, i, SettingOf(im)) == Fresh
                then FreshStart(im) <= s.offset && End(s) <= FreshPart(im).cur
                     && s.addr == if IsRel(im) then 0 else Wrap(LoadBase(im) + s.offset)
                else MetaStart(im) <= s.offset && End(s) <= MetaPart(im).cur && s.addr == 0)
  {
    hide AlignUp, PlacedTo, FixedEndTo, ClassOf, IsAlignment, Budget, HeadEnd, End, Aligned, Roomy;
    Passes(im);
    var L, ss, p := SettingOf(im), im.sections, FreshPart(im);
    if ClassOf(ss, i, L) == Fresh {
      assert PlacedOne(ss[i], p.ss[i], Fresh, L, FreshStart(im), p.cur);
      assert MetaPart(im).ss[i] == p.ss[i];
    } else {
      assert p.ss[i] == ss[i];
      assert PlacedOne(p.ss[i], MetaPart(im).ss[i], Meta, L, MetaStart(im), MetaPart(im).cur);
    }
  }

  /** Everything else stays as it was. */
  lemma OthersKept(im: Image, i: nat)
    requires Roomy(im) && i < |im.sections| && !Laid(im, i)
    ensures |MetaPart(im).ss| == |im.sections| && MetaPart(im).ss[i] == im.sections[i]
  {
    hide AlignUp, PlacedTo, FixedEndTo, ClassOf, IsAlignment, Budget, HeadEnd, End, Aligned, Roomy;
    Passes(im);
  }

  lemma LaidApart(im: Image, i: nat, j: nat)
    requires Roomy(im) && Laid(im, i) && Laid(im, j) && i != j
    ensures |MetaPart(im).ss| == |im.sections|
    ensures var s, t := MetaPart(im).ss[i], MetaPart(im).ss[j]; Apart(s.offset, End(s), t.offset, End(t))
  {
    hide AlignUp, PlacedTo, FixedEndTo, ClassOf, IsAlignment, Budget, HeadEnd, End, Aligned, Roomy, PlacedOne;
    Passes(im);
    LaidFacts(im, i);
    LaidFacts(im, j);
    var L, ss, p := SettingOf(im), im.sections, FreshPart(im);
    var a, b := if i < j then i else j, if i < j then j else i;
    if ClassOf(ss, a, L) == Fresh && ClassOf(ss, b, L) == Fresh {
      assert End(p.ss[a]) <= p.ss[b].offset;
      assert MetaPart(im).ss[a] == p.ss[a] && MetaPart(im).ss[b] == p.ss[b];
    } else if ClassOf(ss, a, L) == Meta && ClassOf(ss, b, L) == Meta {
      assert End(MetaPart(im).ss[a]) <= MetaPart(im).ss[b].offset;
    }
  }

  /** Everything with a place starts behind the file header, the program headers
      as they were and every section that keeps its place. */
  lemma LaidAfter(im: Image, i: nat)
    requires Roomy(im) && Laid(im, i)
    ensures |MetaPart(im).ss| == |im.sections|
    ensures var s := MetaPart(im).ss[i];
            && EHDR_SIZE <= s.offset && im.ehdr.phoff * (if im.segments == [] then 0 else 1) + |im.segments| * PHDR_SIZE <= s.offset
            && (forall j: nat :: Keeps(im, j) ==> End(im.sections[j]) <= s.offset)
  {
    hide AlignUp, PlacedTo, FixedEndTo, ClassOf, IsAlignment, Budget, Aligned;
    LaidFacts(im, i);
    Passes(im);
    KeptBelow(im);
    HeadBelow(im);
    hide End;
    FreshBelow(im);
  }

  lemma FreshBelow(im: Image)
    requires Roomy(im)
    ensures FixedEnd(im) <= FreshStart(im) <= FreshPart(im).cur <= MetaStart(im) <= MetaPart(im).cur
  {
    hide AlignUp, PlacedTo, FixedEndTo, ClassOf, IsAlignment, Budget, Aligned, Roomy;
    Passes(im);
  }

  lemma KeptBelow(im: Image)
    requires Roomy(im)
    ensures forall j: nat :: Keeps(im, j) ==> End(im.sections[j]) <= FixedEnd(im)
  {
    hide ClassOf, End, FixedEndTo;
    var L, ss := SettingOf(im), im.sections;
    forall i | 0 <= i < |ss| && ClassOf(ss, i, L) == Fixed ensures End(ss[i]) < TWO64 { assert Keeps(im, i); }
    FixedEndFacts(ss, |ss|, L, HeadEnd(im));
  }

  lemma HeadBelow(im: Image)
    requires Roomy(im)
    ensures EHDR_SIZE <= HeadEnd(im) && (im.segments != [] ==> im.ehdr.phoff + |im.segments| * PHDR_SIZE <= HeadEnd(im))
  {
    WrapSmall(EHDR_SIZE + |im.segments| * PHDR_SIZE);
    WrapSmall(im.ehdr.phoff + |im.segments| * PHDR_SIZE);
  }

  /** The tables: a program header table that moves is behind every section, one
      that stays is in front of every section that was given a place; the section
      headers are last, and nothing is longer than the file. */
  lemma TablesPlaced(im: Image)
    requires Roomy(im)
    ensures MetaPart(im).cur <= TableEnd(im) <= ShOff(im)
    ensures SegmentsOut(im) != [] ==> EHDR_SIZE <= PhOff(im) && PhOff(im) + |SegmentsOut(im)| * PHDR_SIZE <= ShOff(im)
    ensures if TableMoves(im) then MetaPart(im).cur <= PhOff(im)
            else SegmentsOut(im) != [] ==> PhOff(im) == im.ehdr.phoff && SegmentsOut(im) == im.segments
    ensures Total(im) == ShOff(im) + |im.sections| * SHDR_SIZE
    ensures EHDR_SIZE <= ShOff(im) && ShOff(im) % 8 == 0 && (TableMoves(im) ==> PhOff(im) % 8 == 0)
  {
    hide AlignUp, PlacedTo, FixedEndTo, ClassOf, IsAlignment, Budget, Aligned, Placed;
    Passes(im);
    HeadBelow(im);
    hide HeadEnd, MetaPart, FreshPart, FreshStart, FixedEnd, AnyFresh, MetaStart, SettingOf, FreshSegment;
    FreshBelow(im);
    var m := MetaPart(im).cur;
    AlignOk(m, 8);
    if TableMoves(im) {
      assert PhOff(im) == AlignUp(m, 8);
      assert |SegmentsOut(im)| <= |im.segments| + 1;
      WrapSmall(PhOff(im) + |SegmentsOut(im)| * PHDR_SIZE);
    }
    AlignOk(TableEnd(im), 8);
    WrapSmall(ShOff(im) + |im.sections| * SHDR_SIZE);
  }

  /** Layout safety: a section given a place is aligned, behind the file header,
      and apart from every other section that has a place, from both header
      tables, and inside the file. */
  lemma LayoutSafe(im: Image, i: nat, j: nat)
    requires Roomy(im) && Laid(im, i) && j < |im.sections| && j != i
    ensures |LaidOut(im).sections| == |im.sections|
    ensures var out := LaidOut(im);
            var s, t := out.sections[i], out.sections[j];
            var table, tableEnd := out.ehdr.phoff, out.ehdr.phoff + |out.segments| * PHDR_SIZE;
            && Aligned(s) && SameButPlace(im.sections[i], s)
            && EHDR_SIZE <= s.offset && End(s) <= out.ehdr.shoff
            && (Laid(im, j) || Keeps(im, j) ==> Apart(s.offset, End(s), t.offset, End(t)))
            && (out.segments != [] ==> Apart(s.offset, End(s), table, tableEnd) && tableEnd <= out.ehdr.shoff)
            && out.ehdr.shoff + |out.sections| * SHDR_SIZE == Total(im) && out.ehdr.shoff % 8 == 0
  {
    hide AlignUp, PlacedTo, FixedEndTo, ClassOf, IsAlignment, Budget, Aligned, End, Placed, Roomy, SameButPlace;
    LaidFacts(im, i);
    LaidAfter(im, i);
    FreshBelow(im);
    TablesPlaced(im);
    if Laid(im, j) { LaidApart(im, i, j); } else { OthersKept(im, j); }
    hide MetaPart, FreshPart, ShOff, TableEnd, SegmentsOut, HeadEnd, FixedEnd, FreshStart, MetaStart, TableMoves;
  }

  // --------------------------------------------------------------- executables

  /** A section that was loaded and not changed keeps place and bytes. */
  lemma UntouchedStays(im: Image, i: nat)
    requires Roomy(im) && Keeps(im, i)
    ensures |LaidOut(im).sections| == |im.sections| && LaidOut(im).sections[i] == im.sections[i]
  {
    OthersKept(im, i);
  }

  /** It is in front of the section headers, and of a program header table that
      moves. */
  lemma UntouchedApart(im: Image, i: nat)
    requires Roomy(im) && Keeps(im, i)
    ensures End(im.sections[i]) <= ShOff(im)
    ensures TableMoves(im) ==> End(im.sections[i]) <= PhOff(im)
  {
    hide AlignUp, PlacedTo, FixedEndTo, ClassOf, IsAlignment, Budget, Aligned, End, Placed, Roomy, SameButPlace, MetaPart, FreshPart,
         ShOff, TableEnd, SegmentsOut, HeadEnd, FixedEnd, FreshStart, MetaStart, TableMoves, PhOff;
    KeptBelow(im);
    FreshBelow(im);
    TablesPlaced(im);
  }

  /** Some new allocated section has this property. */
  ghost predicate SomeNew(im: Image, has: u64 -> bool) {
    exists i :: 0 <= i < |im.sections| && ClassOf(im.sections, i, SettingOf(im)) == Fresh && has(im.sections[i].flags)
  }

  /** Readable always, writable and executable when some new section is. */
  ghost predicate FlagsOfNew(im: Image, flags: nat) {
    && flags / PF_R % 2 == 1
    && (flags / PF_W % 2 == 1 <==> SomeNew(im, Writable))
    && (flags / PF_X % 2 == 1 <==> SomeNew(im, Executable))
    && flags < 8
  }

  lemma FreshFlags(im: Image)
    ensures FlagsOfNew(im, FreshSegment(im).flags)
  {
    hide AnyFreshWith, SomeNew, FreshPart, FreshStart, LoadBase;
    NewWith(im);
    FlagBits(AnyFreshWith(im, true), AnyFreshWith(im, false));
  }

  lemma NewWith(im: Image)
    ensures AnyFreshWith(im, true) <==> SomeNew(im, Writable)
    ensures AnyFreshWith(im, false) <==> SomeNew(im, Executable)
  {
    hide ClassOf, Writable, Executable, SettingOf;
  }

  lemma FlagBits(write: bool, exec: bool)
    ensures var flags := PF_R + (if write then PF_W else 0) + (if exec then PF_X else 0);
            flags / PF_R % 2 == 1 && (flags / PF_W % 2 == 1 <==> write) && (flags / PF_X % 2 == 1 <==> exec) && flags < 8
  {}

  /** A new allocated section of an executable lies in the one new segment, at
      the same distance from the load base in memory as in the file. The segment
      can be read, and written or executed when some new section can. */
  lemma FreshMapped(im: Image, i: nat)
    requires Roomy(im) && !IsRel(im) && i < |im.sections| && ClassOf(im.sections, i, SettingOf(im)) == Fresh
    ensures var out := LaidOut(im);
            && |out.sections| == |im.sections| && |out.segments| == |im.segments| + 1
            && out.segments[..|im.segments|] == im.segments
            && var s, seg := out.sections[i], out.segments[|im.segments|];
            && s.addr == Wrap(LoadBase(im) + s.offset)
            && seg.typ == PT_LOAD && FlagsOfNew(im, seg.flags) && seg.vaddr == Wrap(LoadBase(im) + seg.offset)
            && seg.offset <= s.offset && End(s) <= seg.offset + seg.filesz && seg.filesz == seg.memsz
            && seg.paddr == seg.vaddr && seg.align == PAGE_SIZE && seg.offset % PAGE_SIZE == 0
            && (LoadBase(im) % PAGE_SIZE == 0 ==> seg.vaddr % PAGE_SIZE == seg.offset % PAGE_SIZE)
  {
    hide AlignUp, PlacedTo, FixedEndTo, IsAlignment, Budget, Aligned, End, Placed, SameButPlace;
    assert AnyFresh(im);
    FreshFlags(im);
    hide FlagsOfNew, AnyFreshWith;
    LaidFacts(im, i);
    FreshBelow(im);
    AlignOk(FixedEnd(im), PAGE_SIZE);
    hide ClassOf, FixedEnd, MetaPart, FreshPart, FreshStart, Roomy, LoadBase;
    WrapSmall(FreshPart(im).cur - FreshStart(im));
    PageWrap(LoadBase(im), FreshStart(im));
  }

  lemma PageWrap(base: u64, at: u64)
    ensures base % PAGE_SIZE == 0 && at % PAGE_SIZE == 0 ==> Wrap(base + at) % PAGE_SIZE == 0
  {}
}
