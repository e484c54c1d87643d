/** What was written can be read: each piece of the file is where its header
    says. */
module ElfReadBack {
  import opened Words
  import opened ElfStruct
  import opened ElfNames
  import opened ElfModel
  import opened ElfTables
  import opened ElfLayout
  import opened ElfSafety
  import opened ElfFile
  import opened ElfLoad

  // --------------------------------------------------------- one group of writes

  lemma {:induction false} SecKeeps(out: seq<byte>, ss: seq<Section>, n: nat, lo: nat, hi: nat)
    requires n <= |ss| && lo <= hi <= |out|
    requires forall i :: 1 <= i < n && Carries(ss[i]) ==> Apart(ss[i].offset, ss[i].offset + |ss[i].data|, lo, hi)
    ensures WriteAll(out, SecWrites(ss, n))[lo..hi] == out[lo..hi]
  {
    hide WriteAt, Carries;
    if n > 1 {
      SecKeeps(out, ss, n - 1, lo, hi);
      if Carries(ss[n - 1]) {
        var w := Write(ss[n - 1].offset, ss[n - 1].data);
        WriteMore(out, SecWrites(ss, n - 1), w);
        WriteFrame(WriteAll(out, SecWrites(ss, n - 1)), w, lo, hi);
      } else {
        assert SecWrites(ss, n) == SecWrites(ss, n - 1);
      }
    }
  }

  lemma {:induction false} SecBack(out: seq<byte>, ss: seq<Section>, n: nat, i: nat)
    requires 1 <= i < n <= |ss| && Carries(ss[i])
    requires ss[i].offset + |ss[i].data| <= |out|
    requires forall j :: i < j < n && Carries(ss[j]) ==>
               Apart(ss[j].offset, ss[j].offset + |ss[j].data|, ss[i].offset, ss[i].offset + |ss[i].data|)
    ensures WriteAll(out, SecWrites(ss, n))[ss[i].offset..ss[i].offset + |ss[i].data|] == ss[i].data
  {
    hide WriteAt, Carries, SecWrites, WriteAll;
    var before, lo, hi := WriteAll(out, SecWrites(ss, n - 1)), ss[i].offset, ss[i].offset + |ss[i].data|;
    SecStep(out, ss, n);
    if i < n - 1 { SecBack(out, ss, n - 1, i); }
    if Carries(ss[n - 1]) {
      var w := Write(ss[n - 1].offset, ss[n - 1].data);
      if i == n - 1 { WriteSlice(before, w); } else { WriteFrame(before, w, lo, hi); }
    }
  }

  lemma {:induction false} ShKeeps(out: seq<byte>, ss: seq<Section>, n: nat, at: nat, lo: nat, hi: nat)
    requires n <= |ss| && lo <= hi <= |out| && hi <= at
    ensures WriteAll(out, ShWrites(ss, n, at))[lo..hi] == out[lo..hi]
  {
    hide WriteAt, ShdrBytes;
    if n > 0 {
      ShKeeps(out, ss, n - 1, at, lo, hi);
      var w := Write(at + (n - 1) * SHDR_SIZE, ShdrBytes(ss, n - 1));
      WriteMore(out, ShWrites(ss, n - 1, at), w);
      WriteFrame(WriteAll(out, ShWrites(ss, n - 1, at)), w, lo, hi);
    }
  }

  lemma {:induction false} ShBack(out: seq<byte>, ss: seq<Section>, n: nat, at: nat, i: nat)
    requires i < n <= |ss| && at + n * SHDR_SIZE <= |out|
    ensures WriteAll(out, ShWrites(ss, n, at))[at + i * SHDR_SIZE..at + i * SHDR_SIZE + SHDR_SIZE] == ShdrBytes(ss, i)
  {
    hide WriteAt, ShdrBytes;
    var w := Write(at + (n - 1) * SHDR_SIZE, ShdrBytes(ss, n - 1));
    WriteMore(out, ShWrites(ss, n - 1, at), w);
    var before := WriteAll(out, ShWrites(ss, n - 1, at));
    if i == n - 1 {
      WriteSlice(before, w);
    } else {
      ShBack(out, ss, n - 1, at, i);
      WriteFrame(before, w, at + i * SHDR_SIZE, at + i * SHDR_SIZE + SHDR_SIZE);
    }
  }

  lemma {:induction false} PhKeeps(out: seq<byte>, segs: seq<Segment>, n: nat, at: nat, lo: nat, hi: nat)
    requires n <= |segs| && lo <= hi <= |out| && (hi <= at || at + n * PHDR_SIZE <= lo)
    ensures WriteAll(out, PhWrites(segs, n, at))[lo..hi] == out[lo..hi]
  {
    hide WriteAt, PhdrBytes;
    if n > 0 {
      PhKeeps(out, segs, n - 1, at, lo, hi);
      var w := Write(at + (n - 1) * PHDR_SIZE, PhdrBytes(segs[n - 1]));
      WriteMore(out, PhWrites(segs, n - 1, at), w);
      WriteFrame(WriteAll(out, PhWrites(segs, n - 1, at)), w, lo, hi);
    }
  }

  lemma {:induction false} PhBack(out: seq<byte>, segs: seq<Segment>, n: nat, at: nat, i: nat)
    requires i < n <= |segs| && at + n * PHDR_SIZE <= |out|
    ensures WriteAll(out, PhWrites(segs, n, at))[at + i * PHDR_SIZE..at + i * PHDR_SIZE + PHDR_SIZE] == PhdrBytes(segs[i])
  {
    hide WriteAt, PhdrBytes;
    var w := Write(at + (n - 1) * PHDR_SIZE, PhdrBytes(segs[n - 1]));
    WriteMore(out, PhWrites(segs, n - 1, at), w);
    var before := WriteAll(out, PhWrites(segs, n - 1, at));
    if i == n - 1 {
      WriteSlice(before, w);
    } else {
      PhBack(out, segs, n - 1, at, i);
      WriteFrame(before, w, at + i * PHDR_SIZE, at + i * PHDR_SIZE + PHDR_SIZE);
    }
  }

  // ------------------------------------------------------------------ the file

  /** Everything written has its own bytes of the file. */
  ghost predicate Disjoint(im: Image, total: nat) {
    && |im.ehdr.ident| == 16
    && EHDR_SIZE <= im.ehdr.shoff && im.ehdr.shoff + |im.sections| * SHDR_SIZE == total
    && (im.segments != [] ==> EHDR_SIZE <= im.ehdr.phoff && im.ehdr.phoff + |im.segments| * PHDR_SIZE <= im.ehdr.shoff)
    && (forall i :: 1 <= i < |im.sections| && Carries(im.sections[i]) ==>
          var s := im.sections[i];
          && |s.data| == s.size && EHDR_SIZE <= s.offset && s.offset + s.size <= im.ehdr.shoff
          && (im.segments != [] ==>
                Apart(s.offset, s.offset + s.size, im.ehdr.phoff, im.ehdr.phoff + |im.segments| * PHDR_SIZE)))
    && (forall i, j :: 1 <= i < j < |im.sections| && Carries(im.sections[i]) && Carries(im.sections[j]) ==>
          var s, t := im.sections[i], im.sections[j];
          Apart(s.offset, s.offset + s.size, t.offset, t.offset + t.size))
  }

  /** The file after each group. */
  lemma FileStages(im: Image, total: nat) returns (a: seq<byte>, b: seq<byte>, c: seq<byte>)
    requires |im.ehdr.ident| == 16
    ensures a == WriteAt(Zeros(total), Write(0, EhdrBytes(im.ehdr)))
    ensures b == WriteAll(a, PhWrites(im.segments, |im.segments|, im.ehdr.phoff))
    ensures c == WriteAll(b, SecWrites(im.sections, |im.sections|))
    ensures FileOf(im, total) == WriteAll(c, ShWrites(im.sections, |im.sections|, im.ehdr.shoff))
    ensures |a| == |b| == |c| == total
  {
    hide WriteAt, EhdrBytes, PhWrites, SecWrites, ShWrites;
    var head := [Write(0, EhdrBytes(im.ehdr))];
    var p, s := PhWrites(im.segments, |im.segments|, im.ehdr.phoff), SecWrites(im.sections, |im.sections|);
    var h := ShWrites(im.sections, |im.sections|, im.ehdr.shoff);
    var zeros := Zeros(total);
    WriteOne(zeros, head[0]);
    WriteAllConcat(zeros, head + p + s, h);
    WriteAllConcat(zeros, head + p, s);
    WriteAllConcat(zeros, head, p);
    a := WriteAll(zeros, head);
    b := WriteAll(a, p);
    c := WriteAll(b, s);
  }

  lemma EhdrInFile(im: Image, total: nat)
    requires Disjoint(im, total)
    ensures |FileOf(im, total)| >= EHDR_SIZE && FileOf(im, total)[0..EHDR_SIZE] == EhdrBytes(im.ehdr)
  {
    hide WriteAt, FileOf, EhdrBytes, PhWrites, SecWrites, ShWrites, Carries;
    var a, b, c := FileStages(im, total);
    WriteSlice(Zeros(total), Write(0, EhdrBytes(im.ehdr)));
    if im.segments != [] {
      PhKeeps(a, im.segments, |im.segments|, im.ehdr.phoff, 0, EHDR_SIZE);
    } else {
      NoPhWrites(im.segments, im.ehdr.phoff);
    }
    SecKeeps(b, im.sections, |im.sections|, 0, EHDR_SIZE);
    ShKeeps(c, im.sections, |im.sections|, im.ehdr.shoff, 0, EHDR_SIZE);
  }

  lemma NoPhWrites(segs: seq<Segment>, at: nat)
    ensures segs == [] ==> PhWrites(segs, |segs|, at) == []
  {}

  lemma ShdrInFile(im: Image, total: nat, i: nat)
    requires Disjoint(im, total) && i < |im.sections|
    ensures var at := im.ehdr.shoff + i * SHDR_SIZE;
            at + SHDR_SIZE <= total && FileOf(im, total)[at..at + SHDR_SIZE] == ShdrBytes(im.sections, i)
  {
    hide WriteAt, FileOf, EhdrBytes, PhWrites, SecWrites, ShWrites, Carries, ShdrBytes;
    var a, b, c := FileStages(im, total);
    ShBack(c, im.sections, |im.sections|, im.ehdr.shoff, i);
  }

  lemma PhdrInFile(im: Image, total: nat, i: nat)
    requires Disjoint(im, total) && i < |im.segments|
    ensures var at := im.ehdr.phoff + i * PHDR_SIZE;
            at + PHDR_SIZE <= total && FileOf(im, total)[at..at + PHDR_SIZE] == PhdrBytes(im.segments[i])
  {
    hide WriteAt, FileOf, EhdrBytes, PhWrites, SecWrites, ShWrites, Carries, PhdrBytes;
    var a, b, c := FileStages(im, total);
    var at := im.ehdr.phoff + i * PHDR_SIZE;
    PhBack(a, im.segments, |im.segments|, im.ehdr.phoff, i);
    SecKeeps(b, im.sections, |im.sections|, at, at + PHDR_SIZE);
    ShKeeps(c, im.sections, |im.sections|, im.ehdr.shoff, at, at + PHDR_SIZE);
  }

  lemma SectionInFile(im: Image, total: nat, i: nat)
    requires Disjoint(im, total) && 1 <= i < |im.sections| && Carries(im.sections[i])
    ensures var s := im.sections[i];
            s.offset + s.size <= total && FileOf(im, total)[s.offset..s.offset + s.size] == s.data
  {
    hide WriteAt, FileOf, EhdrBytes, PhWrites, SecWrites, ShWrites, Carries;
    var a, b, c := FileStages(im, total);
    var s := im.sections[i];
    SecBack(b, im.sections, |im.sections|, i);
    ShKeeps(c, im.sections, |im.sections|, im.ehdr.shoff, s.offset, s.offset + s.size);
  }

  // ------------------------------------------------------- a layout is disjoint

  /** Sections that keep their place were disjoint before. */
  ghost predicate KeptDisjoint(im: Image) {
    && (forall i: nat :: Keeps(im, i) && Carries(im.sections[i]) ==>
          && EHDR_SIZE <= im.sections[i].offset
          && (im.segments != [] ==>
                Apart(im.sections[i].offset, End(im.sections[i]), im.ehdr.phoff, im.ehdr.phoff + |im.segments| * PHDR_SIZE)))
    && (forall i: nat, j: nat :: i < j && Keeps(im, i) && Keeps(im, j) && Carries(im.sections[i]) && Carries(im.sections[j]) ==>
          Apart(im.sections[i].offset, End(im.sections[i]), im.sections[j].offset, End(im.sections[j])))
  }

  /** The bytes of every section are there, and a null section has none. */
  predicate BytesOk(ss: seq<Section>) {
    forall i :: 1 <= i < |ss| && Carries(ss[i]) ==> |ss[i].data| == ss[i].size && ss[i].typ != SHT_NULL
  }

  /** Two sections of the finished layout that carry bytes are apart. */
  lemma PairApart(im: Image, i: nat, j: nat)
    requires Roomy(im) && KeptDisjoint(im) && 1 <= i < j < |im.sections|
    requires |MetaPart(im).ss| == |im.sections|
    requires im.sections[i].typ != SHT_NULL && im.sections[j].typ != SHT_NULL && Carries(im.sections[i]) && Carries(im.sections[j])
    ensures var s, t := MetaPart(im).ss[i], MetaPart(im).ss[j]; Apart(s.offset, End(s), t.offset, End(t))
  {
    hide MetaPart, SettingOf, Carries, Roomy, End;
    EitherWay(im, i);
    EitherWay(im, j);
    if Laid(im, i) && Laid(im, j) {
      LaidApart(im, i, j);
    } else if Laid(im, i) {
      LaidAfter(im, i);
      OthersKept(im, j);
    } else if Laid(im, j) {
      LaidAfter(im, j);
      OthersKept(im, i);
    } else {
      OthersKept(im, i);
      OthersKept(im, j);
    }
  }

  lemma EitherWay(im: Image, i: nat)
    requires 1 <= i < |im.sections| && im.sections[i].typ != SHT_NULL
    ensures Laid(im, i) <==> !Keeps(im, i)
  {}

  lemma CarriesSame(s: Section, t: Section)
    requires SameButPlace(s, t)
    ensures Carries(t) == Carries(s) && t.size == s.size && t.data == s.data && t.typ == s.typ
    ensures Carries(t) ==> End(t) == t.offset + t.size
  {}

  lemma OneDisjoint(im: Image, i: nat)
    requires Roomy(im) && KeptDisjoint(im) && BytesOk(im.sections) && 1 <= i < |im.sections|
    ensures |MetaPart(im).ss| == |im.sections|
    ensures var s := MetaPart(im).ss[i];
            && Carries(s) == Carries(im.sections[i])
            && (Carries(s) ==>
              && |s.data| == s.size && im.sections[i].typ != SHT_NULL && End(s) == s.offset + s.size
              && EHDR_SIZE <= s.offset && End(s) <= ShOff(im)
              && (SegmentsOut(im) != [] ==> Apart(s.offset, End(s), PhOff(im), PhOff(im) + |SegmentsOut(im)| * PHDR_SIZE)))
  {
    hide MetaPart, SettingOf, Carries, Roomy, End, PhOff, ShOff, SegmentsOut, TableMoves, SameButPlace, Aligned;
    if Laid(im, i) {
      LaidFacts(im, i);
      CarriesSame(im.sections[i], MetaPart(im).ss[i]);
      if Carries(im.sections[i]) { LaidTables(im, i); }
    } else {
      OthersKept(im, i);
      SamePlace(im.sections[i]);
      CarriesSame(im.sections[i], im.sections[i]);
      if Carries(im.sections[i]) {
        EitherWay(im, i);
        UntouchedApart(im, i);
        TablesPlaced(im);
      }
    }
  }

  lemma SamePlace(s: Section)
    ensures SameButPlace(s, s)
  {}

  lemma LaidTables(im: Image, i: nat)
    requires Roomy(im) && Laid(im, i) && |MetaPart(im).ss| == |im.sections|
    ensures var s := MetaPart(im).ss[i];
            && EHDR_SIZE <= s.offset && End(s) <= ShOff(im)
            && (SegmentsOut(im) != [] ==> Apart(s.offset, End(s), PhOff(im), PhOff(im) + |SegmentsOut(im)| * PHDR_SIZE))
  {
    hide MetaPart, SettingOf, Roomy, End, PhOff, ShOff, SegmentsOut, TableMoves, SameButPlace, Aligned, FreshPart, FreshStart,
         MetaStart, FixedEnd;
    LaidFacts(im, i);
    LaidAfter(im, i);
    FreshBelow(im);
    TablesPlaced(im);
  }

  lemma LayoutDisjoint(im: Image)
    requires Roomy(im) && KeptDisjoint(im) && BytesOk(im.sections) && |im.ehdr.ident| == 16
    ensures Disjoint(LaidOut(im), Total(im))
  {
    hide MetaPart, SettingOf, Carries, Roomy, End, ShOff, SegmentsOut, PhOff, TableMoves, KeptDisjoint, BytesOk, Find, Total, TableEnd;
    TablesPlaced(im);
    var out := LaidOut(im);
    assert |MetaPart(im).ss| == |im.sections| by { if |im.sections| > 1 { OneDisjoint(im, 1); } else { PlacedLength(im); } }
    forall i | 1 <= i < |out.sections| && Carries(out.sections[i])
      ensures var s := out.sections[i];
              && |s.data| == s.size && EHDR_SIZE <= s.offset && s.offset + s.size <= out.ehdr.shoff
              && (out.segments != [] ==>
                    Apart(s.offset, s.offset + s.size, out.ehdr.phoff, out.ehdr.phoff + |out.segments| * PHDR_SIZE))
    {
      OneDisjoint(im, i);
    }
    forall i, j | 1 <= i < j < |out.sections| && Carries(out.sections[i]) && Carries(out.sections[j])
      ensures var s, t := out.sections[i], out.sections[j];
              Apart(s.offset, s.offset + s.size, t.offset, t.offset + t.size)
    {
      OneDisjoint(im, i);
      OneDisjoint(im, j);
      PairApart(im, i, j);
    }
  }

  lemma PlacedLength(im: Image)
    ensures |MetaPart(im).ss| == |im.sections|
  {}

  /** In a rebuilt executable the bytes of a section that was not changed are at
      their old offset in the new file. */
  lemma UntouchedBytes(im: Image, i: nat)
    requires Roomy(im) && KeptDisjoint(im) && BytesOk(im.sections) && |im.ehdr.ident| == 16
    requires 1 <= i && Keeps(im, i) && Carries(im.sections[i])
    ensures var s := im.sections[i];
            && s.offset + s.size <= Total(im)
            && FileOf(LaidOut(im), Total(im))[s.offset..s.offset + s.size] == s.data
  {
    hide MetaPart, Carries, Roomy, KeptDisjoint, BytesOk, FileOf, Total, EhdrOut, SegmentsOut;
    LayoutDisjoint(im);
    UntouchedStays(im, i);
    SectionInFile(LaidOut(im), Total(im), i);
  }
}
