/** Where the fields of the raw ELF64 structures lie, byte by byte. */
module ElfFields {
  import opened Words
  import opened ElfStruct
  import opened ElfModel
  import opened ElfSort
  import opened ElfTables
  import opened ElfFile
  import opened ElfHeaders
  import opened ElfRoundTrip

  /** The little-endian number in w bytes from at on. */
  function Field(bs: seq<byte>, at: nat, w: nat): nat {
    if at + w <= |bs| then UnLE(bs[at..at + w]) else 0
  }

  /** Each field starts where the one in front of it ends. */
  predicate Starts(ws: seq<nat>, starts: seq<nat>) {
    && |starts| == |ws| && (|ws| > 0 ==> starts[0] == 0)
    && forall k :: 0 < k < |ws| ==> starts[k] == starts[k - 1] + ws[k - 1]
  }

  lemma {:induction false} FieldOf(ws: seq<nat>, vs: seq<nat>, k: nat, skip: nat, before: seq<nat>)
    requires Fits(ws, vs) && k < |ws| && |before| == |ws| && before[0] == skip
    requires forall i :: 0 < i < |ws| ==> before[i] == before[i - 1] + ws[i - 1]
    ensures skip <= before[k] && before[k] - skip + ws[k] <= |Pack(ws, vs)|
    ensures Field(Pack(ws, vs), before[k] - skip, ws[k]) == vs[k]
    decreases |ws|
  {
    var bs := Pack(ws, vs);
    assert bs[..ws[0]] == LE(ws[0], vs[0]) && bs[ws[0]..] == Pack(ws[1..], vs[1..]);
    if k == 0 {
      UnLELE(ws[0], vs[0]);
      assert bs[0..ws[0]] == LE(ws[0], vs[0]);
    } else {
      assert Fits(ws[1..], vs[1..]) by {
        forall i | 0 <= i < |ws| - 1 ensures vs[1..][i] < Pow256(ws[1..][i]) { assert vs[i + 1] < Pow256(ws[i + 1]); }
      }
      FieldOf(ws[1..], vs[1..], k - 1, skip + ws[0], before[1..]);
      Slid(bs, ws[0], before[k] - skip - ws[0], ws[k]);
    }
  }

  lemma Slid(bs: seq<byte>, head: nat, at: nat, w: nat)
    requires head <= |bs| && at + w <= |bs| - head
    ensures Field(bs, head + at, w) == Field(bs[head..], at, w)
  {
    assert bs[head + at..head + at + w] == bs[head..][at..at + w];
  }

  lemma FieldsOf(ws: seq<nat>, vs: seq<nat>, starts: seq<nat>)
    requires Fits(ws, vs) && Starts(ws, starts)
    ensures forall k :: 0 <= k < |ws| ==> Field(Pack(ws, vs), starts[k], ws[k]) == vs[k]
  {
    hide Field, Pack;
    forall k | 0 <= k < |ws| ensures Field(Pack(ws, vs), starts[k], ws[k]) == vs[k] { FieldOf(ws, vs, k, 0, starts); }
  }

  /** The facts of FieldsOf, one by one. */
  lemma ByIndex(b: seq<byte>, skip: nat, ws: seq<nat>, vs: seq<nat>, starts: seq<nat>)
    requires |ws| == |vs| == |starts| && forall k :: 0 <= k < |ws| ==> Field(b, skip + starts[k], ws[k]) == vs[k]
    ensures forall k: nat :: k < |ws| ==> Field(b, skip + starts[k], ws[k]) == vs[k]
    ensures |ws| > 2 ==> Field(b, skip + starts[0], ws[0]) == vs[0] && Field(b, skip + starts[1], ws[1]) == vs[1]
                         && Field(b, skip + starts[2], ws[2]) == vs[2]
    ensures |ws| > 5 ==> Field(b, skip + starts[3], ws[3]) == vs[3] && Field(b, skip + starts[4], ws[4]) == vs[4]
                         && Field(b, skip + starts[5], ws[5]) == vs[5]
    ensures |ws| > 7 ==> Field(b, skip + starts[6], ws[6]) == vs[6] && Field(b, skip + starts[7], ws[7]) == vs[7]
    ensures |ws| > 9 ==> Field(b, skip + starts[8], ws[8]) == vs[8] && Field(b, skip + starts[9], ws[9]) == vs[9]
    ensures |ws| > 12 ==> Field(b, skip + starts[10], ws[10]) == vs[10] && Field(b, skip + starts[11], ws[11]) == vs[11]
                          && Field(b, skip + starts[12], ws[12]) == vs[12]
  {
    hide Field;
  }

  lemma BehindIdent(ident: seq<byte>, ws: seq<nat>, vs: seq<nat>, starts: seq<nat>)
    requires |ident| == 16 && Fits(ws, vs) && Starts(ws, starts)
    ensures forall k :: 0 <= k < |ws| ==> Field(ident + Pack(ws, vs), 16 + starts[k], ws[k]) == vs[k]
  {
    hide Field, Pack, Starts;
    var b := ident + Pack(ws, vs);
    assert b[16..] == Pack(ws, vs);
    StartsSize(ws, starts);
    forall k | 0 <= k < |ws| ensures Field(b, 16 + starts[k], ws[k]) == vs[k] {
      FieldInside(ws, vs, starts, k);
      Slid(b, 16, starts[k], ws[k]);
    }
  }

  lemma StartsSize(ws: seq<nat>, starts: seq<nat>)
    requires Starts(ws, starts)
    ensures |starts| == |ws|
  {}

  lemma FieldInside(ws: seq<nat>, vs: seq<nat>, starts: seq<nat>, k: nat)
    requires Fits(ws, vs) && Starts(ws, starts) && k < |ws|
    ensures starts[k] + ws[k] <= |Pack(ws, vs)| && Field(Pack(ws, vs), starts[k], ws[k]) == vs[k]
  {
    hide Field, Pack;
    FieldOf(ws, vs, k, 0, starts);
  }

  // ------------------------------------------------------------ the structures

  const EHDR_STARTS: seq<nat> := [0, 2, 4, 8, 16, 24, 32, 36, 38, 40, 42, 44, 46]

  lemma EhdrLits(e: Ehdr)
    ensures |EHDR_FIELDS| == |EhdrValues(e)| == |EHDR_STARTS| == 13
    ensures EHDR_FIELDS[0] == 2 && EHDR_FIELDS[1] == 2 && EHDR_FIELDS[2] == 4 && EHDR_FIELDS[3] == 8
         && EHDR_FIELDS[4] == 8 && EHDR_FIELDS[5] == 8 && EHDR_FIELDS[6] == 4 && EHDR_FIELDS[7] == 2
         && EHDR_FIELDS[8] == 2 && EHDR_FIELDS[9] == 2 && EHDR_FIELDS[10] == 2 && EHDR_FIELDS[11] == 2
         && EHDR_FIELDS[12] == 2
    ensures EHDR_STARTS[0] == 0 && EHDR_STARTS[1] == 2 && EHDR_STARTS[2] == 4 && EHDR_STARTS[3] == 8
         && EHDR_STARTS[4] == 16 && EHDR_STARTS[5] == 24 && EHDR_STARTS[6] == 32 && EHDR_STARTS[7] == 36
         && EHDR_STARTS[8] == 38 && EHDR_STARTS[9] == 40 && EHDR_STARTS[10] == 42 && EHDR_STARTS[11] == 44
         && EHDR_STARTS[12] == 46
    ensures EhdrValues(e)[0] == e.etype && EhdrValues(e)[1] == e.machine && EhdrValues(e)[2] == e.version
         && EhdrValues(e)[3] == e.entry && EhdrValues(e)[4] == e.phoff && EhdrValues(e)[5] == e.shoff
         && EhdrValues(e)[6] == e.flags && EhdrValues(e)[7] == e.ehsize && EhdrValues(e)[8] == e.phentsize
         && EhdrValues(e)[9] == e.phnum && EhdrValues(e)[10] == e.shentsize && EhdrValues(e)[11] == e.shnum
         && EhdrValues(e)[12] == e.shstrndx
  {}

  /** lielf_raw_ehdr_t: the identification, then the fields. */
  lemma EhdrLayout(e: Ehdr)
    requires |e.ident| == 16
    ensures var b := EhdrBytes(e);
            && |b| == 64 && b[..16] == e.ident
            && Field(b, 16, 2) == e.etype && Field(b, 18, 2) == e.machine && Field(b, 20, 4) == e.version
            && Field(b, 24, 8) == e.entry && Field(b, 32, 8) == e.phoff && Field(b, 40, 8) == e.shoff
            && Field(b, 48, 4) == e.flags && Field(b, 52, 2) == e.ehsize && Field(b, 54, 2) == e.phentsize
            && Field(b, 56, 2) == e.phnum && Field(b, 58, 2) == e.shentsize && Field(b, 60, 2) == e.shnum
            && Field(b, 62, 2) == e.shstrndx
  {
    hide *;
    EhdrLits(e);
    EhdrFits(e);
    EhdrIs(e);
    EhdrStarts();
    BehindIdent(e.ident, EHDR_FIELDS, EhdrValues(e), EHDR_STARTS);
    ByIndex(EhdrBytes(e), 16, EHDR_FIELDS, EhdrValues(e), EHDR_STARTS);
  }

  lemma EhdrIs(e: Ehdr)
    requires |e.ident| == 16
    ensures |EhdrValues(e)| == |EHDR_FIELDS| && EhdrBytes(e) == e.ident + Pack(EHDR_FIELDS, EhdrValues(e))
    ensures |EhdrBytes(e)| == 64 && EhdrBytes(e)[..16] == e.ident
  {
    hide Pack;
    HeaderWidths();
  }

  lemma EhdrStarts()
    ensures Starts(EHDR_FIELDS, EHDR_STARTS)
  {}

  const PHDR_STARTS: seq<nat> := [0, 4, 8, 16, 24, 32, 40, 48]

  lemma PhdrLits(s: Segment)
    ensures |PHDR_FIELDS| == |PhdrValues(s)| == |PHDR_STARTS| == 8
    ensures PHDR_FIELDS[0] == 4 && PHDR_FIELDS[1] == 4 && PHDR_FIELDS[2] == 8 && PHDR_FIELDS[3] == 8
         && PHDR_FIELDS[4] == 8 && PHDR_FIELDS[5] == 8 && PHDR_FIELDS[6] == 8 && PHDR_FIELDS[7] == 8
    ensures PHDR_STARTS[0] == 0 && PHDR_STARTS[1] == 4 && PHDR_STARTS[2] == 8 && PHDR_STARTS[3] == 16
         && PHDR_STARTS[4] == 24 && PHDR_STARTS[5] == 32 && PHDR_STARTS[6] == 40 && PHDR_STARTS[7] == 48
    ensures PhdrValues(s)[0] == s.typ && PhdrValues(s)[1] == s.flags && PhdrValues(s)[2] == s.offset
         && PhdrValues(s)[3] == s.vaddr && PhdrValues(s)[4] == s.paddr && PhdrValues(s)[5] == s.filesz
         && PhdrValues(s)[6] == s.memsz && PhdrValues(s)[7] == s.align
  {}

  /** lielf_raw_phdr_t */
  lemma PhdrLayout(s: Segment)
    ensures var b := PhdrBytes(s);
            && |b| == 56
            && Field(b, 0, 4) == s.typ && Field(b, 4, 4) == s.flags && Field(b, 8, 8) == s.offset
            && Field(b, 16, 8) == s.vaddr && Field(b, 24, 8) == s.paddr && Field(b, 32, 8) == s.filesz
            && Field(b, 40, 8) == s.memsz && Field(b, 48, 8) == s.align
  {
    hide *;
    PhdrLits(s);
    PhdrFits(s);
    PhdrIs(s);
    PhdrStarts();
    FieldsOf(PHDR_FIELDS, PhdrValues(s), PHDR_STARTS);
    ByIndex(PhdrBytes(s), 0, PHDR_FIELDS, PhdrValues(s), PHDR_STARTS);
  }

  lemma PhdrStarts()
    ensures Starts(PHDR_FIELDS, PHDR_STARTS)
  {}

  lemma PhdrIs(s: Segment)
    ensures |PhdrValues(s)| == |PHDR_FIELDS| && PhdrBytes(s) == Pack(PHDR_FIELDS, PhdrValues(s)) && |PhdrBytes(s)| == 56
  {
    hide Pack;
  }

  const SHDR_STARTS: seq<nat> := [0, 4, 8, 16, 24, 32, 40, 44, 48, 56]

  lemma ShdrLits(s: Section, nameOff: nat)
    ensures |SHDR_FIELDS| == |ShdrValues(s, nameOff)| == |SHDR_STARTS| == 10
    ensures SHDR_FIELDS[0] == 4 && SHDR_FIELDS[1] == 4 && SHDR_FIELDS[2] == 8 && SHDR_FIELDS[3] == 8
         && SHDR_FIELDS[4] == 8 && SHDR_FIELDS[5] == 8 && SHDR_FIELDS[6] == 4 && SHDR_FIELDS[7] == 4
         && SHDR_FIELDS[8] == 8 && SHDR_FIELDS[9] == 8
    ensures SHDR_STARTS[0] == 0 && SHDR_STARTS[1] == 4 && SHDR_STARTS[2] == 8 && SHDR_STARTS[3] == 16
         && SHDR_STARTS[4] == 24 && SHDR_STARTS[5] == 32 && SHDR_STARTS[6] == 40 && SHDR_STARTS[7] == 44
         && SHDR_STARTS[8] == 48 && SHDR_STARTS[9] == 56
    ensures ShdrValues(s, nameOff)[0] == nameOff % TWO32 && ShdrValues(s, nameOff)[1] == s.typ
         && ShdrValues(s, nameOff)[2] == s.flags && ShdrValues(s, nameOff)[3] == s.addr
         && ShdrValues(s, nameOff)[4] == s.offset && ShdrValues(s, nameOff)[5] == s.size
         && ShdrValues(s, nameOff)[6] == s.link && ShdrValues(s, nameOff)[7] == s.info
         && ShdrValues(s, nameOff)[8] == s.addralign && ShdrValues(s, nameOff)[9] == s.entsize
  {}

  /** lielf_raw_shdr_t of any section but the first. */
  lemma ShdrLayout(s: Section, nameOff: nat)
    ensures var b := ShdrRow(s, 1, nameOff);
            && |b| == 64
            && Field(b, 0, 4) == nameOff % TWO32 && Field(b, 4, 4) == s.typ && Field(b, 8, 8) == s.flags
            && Field(b, 16, 8) == s.addr && Field(b, 24, 8) == s.offset && Field(b, 32, 8) == s.size
            && Field(b, 40, 4) == s.link && Field(b, 44, 4) == s.info && Field(b, 48, 8) == s.addralign
            && Field(b, 56, 8) == s.entsize
    ensures forall i :: i > 0 ==> ShdrRow(s, i, nameOff) == ShdrRow(s, 1, nameOff)
  {
    hide *;
    ShdrLits(s, nameOff);
    ShdrFits(s, nameOff);
    ShdrIs(s, nameOff);
    ShdrStarts();
    FieldsOf(SHDR_FIELDS, ShdrValues(s, nameOff), SHDR_STARTS);
    ByIndex(ShdrRow(s, 1, nameOff), 0, SHDR_FIELDS, ShdrValues(s, nameOff), SHDR_STARTS);
  }

  lemma ShdrStarts()
    ensures Starts(SHDR_FIELDS, SHDR_STARTS)
  {}

  lemma ShdrIs(s: Section, nameOff: nat)
    ensures |ShdrValues(s, nameOff)| == |SHDR_FIELDS| && ShdrRow(s, 1, nameOff) == Pack(SHDR_FIELDS, ShdrValues(s, nameOff)) && |ShdrRow(s, 1, nameOff)| == 64
    ensures forall i :: i > 0 ==> ShdrRow(s, i, nameOff) == ShdrRow(s, 1, nameOff)
  {
    hide Pack;
  }

  const SYM_STARTS: seq<nat> := [0, 4, 5, 6, 8, 16]

  lemma SymLits(s: Symbol, nameOff: nat)
    ensures |SYM_FIELDS| == |SymValues(s, nameOff)| == |SYM_STARTS| == 6
    ensures SYM_FIELDS[0] == 4 && SYM_FIELDS[1] == 1 && SYM_FIELDS[2] == 1 && SYM_FIELDS[3] == 2
         && SYM_FIELDS[4] == 8 && SYM_FIELDS[5] == 8
    ensures SYM_STARTS[0] == 0 && SYM_STARTS[1] == 4 && SYM_STARTS[2] == 5 && SYM_STARTS[3] == 6
         && SYM_STARTS[4] == 8 && SYM_STARTS[5] == 16
    ensures SymValues(s, nameOff)[0] == nameOff % TWO32 && SymValues(s, nameOff)[1] == s.info
         && SymValues(s, nameOff)[2] == s.other && SymValues(s, nameOff)[3] == s.shndx
         && SymValues(s, nameOff)[4] == s.value && SymValues(s, nameOff)[5] == s.size
  {}

  /** lielf_raw_sym_t */
  lemma SymLayout(s: Symbol, nameOff: nat)
    ensures var b := SymRow(s, nameOff);
            && |b| == 24
            && Field(b, 0, 4) == nameOff % TWO32 && Field(b, 4, 1) == s.info && Field(b, 5, 1) == s.other
            && Field(b, 6, 2) == s.shndx && Field(b, 8, 8) == s.value && Field(b, 16, 8) == s.size
  {
    hide *;
    SymLits(s, nameOff);
    SymFits(s, nameOff);
    SymIs(s, nameOff);
    SymStarts();
    FieldsOf(SYM_FIELDS, SymValues(s, nameOff), SYM_STARTS);
    ByIndex(SymRow(s, nameOff), 0, SYM_FIELDS, SymValues(s, nameOff), SYM_STARTS);
  }

  lemma SymStarts()
    ensures Starts(SYM_FIELDS, SYM_STARTS)
  {}

  lemma SymIs(s: Symbol, nameOff: nat)
    ensures |SymValues(s, nameOff)| == |SYM_FIELDS| && SymRow(s, nameOff) == Pack(SYM_FIELDS, SymValues(s, nameOff)) && |SymRow(s, nameOff)| == 24
  {
    hide Pack;
  }

  const RELA_STARTS: seq<nat> := [0, 8, 16]

  lemma RelaLits(r: Reloc)
    ensures |RELA_FIELDS| == |RelaValues(r)| == |RELA_STARTS| == 3
    ensures RELA_FIELDS[0] == 8 && RELA_FIELDS[1] == 8 && RELA_FIELDS[2] == 8
    ensures RELA_STARTS[0] == 0 && RELA_STARTS[1] == 8 && RELA_STARTS[2] == 16
    ensures RelaValues(r)[0] == r.offset && RelaValues(r)[1] == r.sym * TWO32 + r.typ
         && RelaValues(r)[2] == r.addend
  {}

  /** lielf_raw_rela_t: the symbol is the high half of the info word. */
  lemma RelaLayout(r: Reloc)
    ensures var b := RelaRow(r);
            && |b| == 24
            && Field(b, 0, 8) == r.offset && Field(b, 8, 8) == r.sym * TWO32 + r.typ && Field(b, 16, 8) == r.addend
  {
    hide *;
    RelaLits(r);
    RelaFits(r);
    RelaIs(r);
    RelaStarts();
    FieldsOf(RELA_FIELDS, RelaValues(r), RELA_STARTS);
    ByIndex(RelaRow(r), 0, RELA_FIELDS, RelaValues(r), RELA_STARTS);
  }

  lemma RelaStarts()
    ensures Starts(RELA_FIELDS, RELA_STARTS)
  {}

  lemma RelaIs(r: Reloc)
    ensures |RelaValues(r)| == |RELA_FIELDS| && RelaRow(r) == Pack(RELA_FIELDS, RelaValues(r)) && |RelaRow(r)| == 24
  {
    hide Pack;
  }
}
