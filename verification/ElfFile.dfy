/** The bytes of the file: the image written piece by piece into a zeroed
    buffer. */
module ElfFile {
  import opened Words
  import opened ElfStruct
  import opened ElfNames
  import opened ElfModel
  import opened ElfSort
  import opened ElfTables
  import opened ElfLayout

  // ------------------------------------------------------------------- records

  const EHDR_FIELDS: seq<nat> := [2, 2, 4, 8, 8, 8, 4, 2, 2, 2, 2, 2, 2]
  const SHDR_FIELDS: seq<nat> := [4, 4, 8, 8, 8, 8, 4, 4, 8, 8]
  const PHDR_FIELDS: seq<nat> := [4, 4, 8, 8, 8, 8, 8, 8]

  lemma WidthCons(w: nat, ws: seq<nat>)
    ensures Width([w] + ws) == w + Width(ws)
  {
    assert ([w] + ws)[1..] == ws;
  }

  lemma HeaderWidths()
    ensures Width(EHDR_FIELDS) == 48 && Width(SHDR_FIELDS) == SHDR_SIZE && Width(PHDR_FIELDS) == PHDR_SIZE
  {
    EhdrWidth();
    ShdrWidth();
    PhdrWidth();
  }

  lemma Eights()
    ensures Width([8]) == 8 && Width([8, 8]) == 16 && Width([8, 8, 8]) == 24 && Width([8, 8, 8, 8]) == 32
  {
    WidthCons(8, []);
    WidthCons(8, [8]);
    WidthCons(8, [8, 8]);
    WidthCons(8, [8, 8, 8]);
    assert [8] + [8] == [8, 8] && [8] + [8, 8] == [8, 8, 8] && [8] + [8, 8, 8] == [8, 8, 8, 8];
    assert [8] + [] == [8];
  }

  lemma PhdrWidth()
    ensures Width(PHDR_FIELDS) == PHDR_SIZE
  {
    Eights();
    WidthPlus([4, 4], [8, 8]);
    WidthPlus([4, 4, 8, 8], [8, 8, 8, 8]);
    WidthCons(4, []);
    WidthCons(4, [4]);
    assert [4] + [] == [4] && [4] + [4] == [4, 4] && [4, 4] + [8, 8] == [4, 4, 8, 8];
    assert PHDR_FIELDS == [4, 4, 8, 8] + [8, 8, 8, 8];
  }

  lemma ShdrWidth()
    ensures Width(SHDR_FIELDS) == SHDR_SIZE
  {
    Eights();
    WidthCons(4, []);
    WidthCons(4, [4]);
    assert [4] + [] == [4] && [4] + [4] == [4, 4];
    WidthPlus([4, 4], [8, 8, 8, 8]);
    WidthPlus([4, 4], [8, 8]);
    WidthPlus([4, 4] + [8, 8, 8, 8], [4, 4] + [8, 8]);
    assert SHDR_FIELDS == [4, 4] + [8, 8, 8, 8] + ([4, 4] + [8, 8]);
  }

  lemma Width3(a: nat, b: nat, c: nat)
    ensures Width([a, b, c]) == a + b + c
  {
    WidthCons(c, []);
    WidthCons(b, [c]);
    WidthCons(a, [b, c]);
    assert [c] + [] == [c] && [b] + [c] == [b, c] && [a] + [b, c] == [a, b, c];
  }

  lemma EhdrWidth()
    ensures Width(EHDR_FIELDS) == 48
  {
    Width3(2, 2, 4);
    Width3(8, 8, 8);
    Width3(4, 2, 2);
    Width3(2, 2, 2);
    WidthCons(2, [2, 2, 2]);
    var a, b, c, d := [2, 2, 4], [8, 8, 8], [4, 2, 2], [2] + [2, 2, 2];
    WidthPlus(a, b);
    WidthPlus(a + b, c);
    WidthPlus(a + b + c, d);
    assert EHDR_FIELDS == a + b + c + d;
  }

  lemma {:induction false} WidthPlus(a: seq<nat>, b: seq<nat>)
    ensures Width(a + b) == Width(a) + Width(b)
  {
    if a == [] {
      assert a + b == b;
    } else {
      assert (a + b)[1..] == a[1..] + b;
      WidthPlus(a[1..], b);
    }
  }

  function EhdrValues(e: Ehdr): seq<nat> {
    [e.etype, e.machine, e.version, e.entry, e.phoff, e.shoff, e.flags, e.ehsize, e.phentsize, e.phnum, e.shentsize, e.shnum,
     e.shstrndx]
  }

  function EhdrBytes(e: Ehdr): (bs: seq<byte>)
    requires |e.ident| == 16
    ensures |bs| == EHDR_SIZE
  {
    HeaderWidths();
    e.ident + Pack(EHDR_FIELDS, EhdrValues(e))
  }

  function PhdrValues(s: Segment): seq<nat> {
    [s.typ, s.flags, s.offset, s.vaddr, s.paddr, s.filesz, s.memsz, s.align]
  }

  function PhdrBytes(s: Segment): (bs: seq<byte>)
    ensures |bs| == PHDR_SIZE
  {
    HeaderWidths();
    Pack(PHDR_FIELDS, PhdrValues(s))
  }

  function ShdrValues(s: Section, nameOff: nat): seq<nat> {
    [nameOff % TWO32, s.typ, s.flags, s.addr, s.offset, s.size, s.link, s.info, s.addralign, s.entsize]
  }

  /** The header of section i, whose name is at nameOff; that of section 0 is all
      zeros. */
  function ShdrRow(s: Section, i: nat, nameOff: nat): (bs: seq<byte>)
    ensures |bs| == SHDR_SIZE
  {
    HeaderWidths();
    if i == 0 then Zeros(SHDR_SIZE) else Pack(SHDR_FIELDS, ShdrValues(s, nameOff))
  }

  function ShdrBytes(ss: seq<Section>, i: nat): (bs: seq<byte>)
    requires i < |ss|
    ensures |bs| == SHDR_SIZE
  {
    ShdrRow(ss[i], i, NameOff(SecNames(ss), i))
  }

  // -------------------------------------------------------------------- writes

  datatype Write = Write(at: nat, bytes: seq<byte>)

  /** memcpy; every caller stays inside the buffer. */
  function WriteAt(out: seq<byte>, w: Write): (r: seq<byte>)
    ensures |r| == |out|
  {
    if w.at + |w.bytes| <= |out| then out[..w.at] + w.bytes + out[w.at + |w.bytes|..] else out
  }

  function WriteAll(out: seq<byte>, ws: seq<Write>): (r: seq<byte>)
    ensures |r| == |out|
  {
    if ws == [] then out else WriteAt(WriteAll(out, ws[..|ws| - 1]), ws[|ws| - 1])
  }

  lemma {:induction false} WriteAllConcat(out: seq<byte>, a: seq<Write>, b: seq<Write>)
    ensures WriteAll(out, a + b) == WriteAll(WriteAll(out, a), b)
    decreases |b|
  {
    if b == [] {
      assert a + b == a;
    } else {
      assert (a + b)[..|a + b| - 1] == a + b[..|b| - 1];
      WriteAllConcat(out, a, b[..|b| - 1]);
    }
  }

  /** The section has bytes in the file. */
  predicate Carries(s: Section) { s.typ != SHT_NOBITS && s.size != 0 && s.data != [] }

  function SecWrites(ss: seq<Section>, n: nat): seq<Write>
    requires n <= |ss|
  {
    if n <= 1 then []
    else SecWrites(ss, n - 1) + if Carries(ss[n - 1]) then [Write(ss[n - 1].offset, ss[n - 1].data)] else []
  }

  function PhWrites(segs: seq<Segment>, n: nat, at: nat): seq<Write>
    requires n <= |segs|
  {
    if n == 0 then [] else PhWrites(segs, n - 1, at) + [Write(at + (n - 1) * PHDR_SIZE, PhdrBytes(segs[n - 1]))]
  }

  function ShWrites(ss: seq<Section>, n: nat, at: nat): seq<Write>
    requires n <= |ss|
  {
    if n == 0 then [] else ShWrites(ss, n - 1, at) + [Write(at + (n - 1) * SHDR_SIZE, ShdrBytes(ss, n - 1))]
  }

  /** Everything that is written, in order. */
  function Writes(im: Image): seq<Write>
    requires |im.ehdr.ident| == 16
  {
    [Write(0, EhdrBytes(im.ehdr))] + PhWrites(im.segments, |im.segments|, im.ehdr.phoff)
    + SecWrites(im.sections, |im.sections|) + ShWrites(im.sections, |im.sections|, im.ehdr.shoff)
  }

  /** The file of an image whose places are assigned. */
  function FileOf(im: Image, total: nat): (file: seq<byte>)
    requires |im.ehdr.ident| == 16
    ensures |file| == total
  {
    WriteAll(Zeros(total), Writes(im))
  }

  // ----------------------------------------------------------------- read back

  lemma WriteFrame(out: seq<byte>, w: Write, lo: nat, hi: nat)
    requires lo <= hi <= |out| && (hi <= w.at || w.at + |w.bytes| <= lo)
    ensures WriteAt(out, w)[lo..hi] == out[lo..hi]
  {}

  lemma WriteSlice(out: seq<byte>, w: Write)
    requires w.at + |w.bytes| <= |out|
    ensures WriteAt(out, w)[w.at..w.at + |w.bytes|] == w.bytes
  {}

  // ----------------------------------------------------------------- serialize

  method Serialize(b: Binary, total: nat) returns (out: seq<byte>)
    requires |b.ehdr.ident| == 16
    ensures out == FileOf(b.View(), total)
  {
    hide EhdrBytes, PhdrBytes, ShdrBytes, WriteAt, Carries, NameOff;
    out := Zeros(total);
    ghost var zeros := out;
    ghost var head := [Write(0, EhdrBytes(b.ehdr))];
    WriteOne(out, head[0]);
    out := WriteAt(out, Write(0, EhdrBytes(b.ehdr)));
    for i := 0 to |b.segments|
      invariant out == WriteAll(zeros, head + PhWrites(b.segments, i, b.ehdr.phoff))
    {
      ghost var so := head + PhWrites(b.segments, i, b.ehdr.phoff);
      ghost var w := Write(b.ehdr.phoff + i * PHDR_SIZE, PhdrBytes(b.segments[i]));
      WriteMore(zeros, so, w);
      assert head + PhWrites(b.segments, i + 1, b.ehdr.phoff) == so + [w];
      out := WriteAt(out, Write(b.ehdr.phoff + i * PHDR_SIZE, PhdrBytes(b.segments[i])));
    }
    ghost var before := head + PhWrites(b.segments, |b.segments|, b.ehdr.phoff);
    out := WriteSections(b, out, zeros, before);
    out := WriteShdrs(b, out, zeros, before + SecWrites(b.sections, |b.sections|));
  }

  lemma WriteOne(out: seq<byte>, w: Write)
    ensures WriteAll(out, [w]) == WriteAt(out, w)
  {
    assert [w][..0] == [];
  }

  lemma WriteMore(out: seq<byte>, ws: seq<Write>, w: Write)
    ensures WriteAll(out, ws + [w]) == WriteAt(WriteAll(out, ws), w)
  {
    assert (ws + [w])[..|ws|] == ws;
  }

  lemma SecStep(out: seq<byte>, ss: seq<Section>, n: nat)
    requires 1 < n <= |ss|
    ensures WriteAll(out, SecWrites(ss, n))
         == if Carries(ss[n - 1]) then WriteAt(WriteAll(out, SecWrites(ss, n - 1)), Write(ss[n - 1].offset, ss[n - 1].data))
            else WriteAll(out, SecWrites(ss, n - 1))
  {
    hide WriteAt, Carries;
    if Carries(ss[n - 1]) {
      WriteMore(out, SecWrites(ss, n - 1), Write(ss[n - 1].offset, ss[n - 1].data));
    } else {
      assert SecWrites(ss, n) == SecWrites(ss, n - 1);
    }
  }

  method WriteSections(b: Binary, start: seq<byte>, ghost zeros: seq<byte>, ghost so: seq<Write>) returns (out: seq<byte>)
    requires start == WriteAll(zeros, so)
    ensures out == WriteAll(zeros, so + SecWrites(b.sections, |b.sections|))
  {
    hide WriteAt, Carries, WriteAll, SecWrites;
    out := start;
    NoSecWrites(b.sections, zeros, so);
    if |b.sections| == 0 { return; }
    for i := 1 to |b.sections|
      invariant out == WriteAll(zeros, so + SecWrites(b.sections, i))
    {
      WriteAllConcat(zeros, so, SecWrites(b.sections, i));
      WriteAllConcat(zeros, so, SecWrites(b.sections, i + 1));
      SecStep(WriteAll(zeros, so), b.sections, i + 1);
      if Carries(b.sections[i]) {
        out := WriteAt(out, Write(b.sections[i].offset, b.sections[i].data));
      }
    }
  }

  lemma NoSecWrites(ss: seq<Section>, zeros: seq<byte>, so: seq<Write>)
    ensures forall n :: 0 <= n <= 1 && n <= |ss| ==> WriteAll(zeros, so + SecWrites(ss, n)) == WriteAll(zeros, so)
  {
    assert so + [] == so;
  }

  /** Name offsets are counted again, the way the string table was laid out. */
  method WriteShdrs(b: Binary, start: seq<byte>, ghost zeros: seq<byte>, ghost so: seq<Write>) returns (out: seq<byte>)
    requires start == WriteAll(zeros, so)
    ensures out == WriteAll(zeros, so + ShWrites(b.sections, |b.sections|, b.ehdr.shoff))
  {
    hide WriteAt, ShdrRow, NameOff, SecNames;
    out := start;
    var pos := 1;
    ghost var names := SecNames(b.sections);
    NameOffStep(names);
    assert so + [] == so;
    for i := 0 to |b.sections|
      invariant pos == NameOff(names, i)
      invariant out == WriteAll(zeros, so + ShWrites(b.sections, i, b.ehdr.shoff))
    {
      ghost var done := so + ShWrites(b.sections, i, b.ehdr.shoff);
      var w := Write(b.ehdr.shoff + i * SHDR_SIZE, ShdrRow(b.sections[i], i, pos));
      WriteMore(zeros, done, w);
      assert so + ShWrites(b.sections, i + 1, b.ehdr.shoff) == done + [w];
      out := WriteAt(out, w);
      NameOffAt(names, i);
      pos := pos + |b.sections[i].name| + 1;
    }
  }
}
