/** A loaded executable, built again: sections whose bytes the tables did not
    change are where they were, in the file and in memory, with the bytes they had
    in the old file. */
module ElfKept {
  import opened Words
  import opened ElfNames
  import opened ElfModel
  import opened ElfSort
  import opened ElfTables
  import opened ElfLayout
  import opened ElfSafety
  import opened ElfFile
  import opened ElfLoad
  import opened ElfBuild
  import opened ElfRegular
  import opened ElfReadBack
  import opened ElfIdempotent

  // ------------------------------------------------------- what tables may change

  /** t is s, in its place; if it is not marked as changed, its bytes are those of
      s. */
  predicate Quiet(s: Section, t: Section) {
    && t.offset == s.offset && t.addr == s.addr && t.flags == s.flags && t.loaded == s.loaded && t.name == s.name
    && (!t.dirty ==> !s.dirty && t.data == s.data && t.size == s.size)
  }

  /** Nothing moved, and what is new is marked as changed. */
  predicate AllQuiet(ss: seq<Section>, tt: seq<Section>) {
    && |ss| <= |tt| && (forall i :: 0 <= i < |ss| ==> Quiet(ss[i], tt[i]))
    && forall i :: |ss| <= i < |tt| ==> tt[i].dirty
  }

  lemma QuietTrans(a: seq<Section>, b: seq<Section>, c: seq<Section>)
    requires AllQuiet(a, b) && AllQuiet(b, c)
    ensures AllQuiet(a, c)
  {
    forall i | 0 <= i < |a| ensures Quiet(a[i], c[i]) { assert Quiet(a[i], b[i]) && Quiet(b[i], c[i]); }
    forall i | |a| <= i < |c| ensures c[i].dirty { if i < |b| { assert Quiet(b[i], c[i]); } }
  }

  lemma QuietSelf(ss: seq<Section>)
    ensures AllQuiet(ss, ss)
  {}

  /** One section written, made first when it was missing. */
  lemma OneWritten(ss: seq<Section>, blank: Section, t: Section)
    requires blank.dirty && t.name == blank.name
    requires var all := Ensured(ss, blank); Quiet(all[Find(all, blank.name)], t)
    ensures AllQuiet(ss, Put(ss, blank, t))
  {
    hide Find, Put, Quiet;
    PutIndex(ss, blank, t);
    EnsuredName(ss, blank);
    forall i | 0 <= i < |ss| ensures Quiet(ss[i], Put(ss, blank, t)[i]) { SelfQuiet(ss[i]); }
    if !Has(ss, blank.name) { QuietDirty(blank, t); }
  }

  lemma SelfQuiet(s: Section)
    ensures Quiet(s, s)
  {}

  lemma QuietDirty(s: Section, t: Section)
    requires Quiet(s, t) && s.dirty
    ensures t.dirty
  {}

  lemma SymQuiet(ss: seq<Section>, syms: seq<Symbol>, dynamic: bool)
    ensures AllQuiet(ss, WithSymTab(ss, syms, dynamic))
  {
    hide Find, SymBytes;
    var name := SymSectionName(dynamic);
    QuietSelf(ss);
    if |syms| > 1 || Has(ss, name) {
      var blank := NewTable(name, SymType(dynamic), dynamic, 8);
      EnsuredName(ss, blank);
      var all := Ensured(ss, blank);
      var s := all[Find(all, name)];
      var t := if |syms| <= 1 then Updated(s, Zeros(SYM_SIZE)) else SymTabOf(s, syms, dynamic);
      OneWritten(ss, blank, t);
    }
  }

  lemma StrQuiet(ss: seq<Section>, syms: seq<Symbol>, dynamic: bool)
    ensures AllQuiet(ss, WithStrTab(ss, syms, dynamic))
  {
    hide Find, StrTab;
    var name := StrSectionName(dynamic);
    QuietSelf(ss);
    if |syms| > 1 || Has(ss, name) {
      var blank := NewTable(name, SHT_STRTAB, dynamic, 1);
      EnsuredName(ss, blank);
      var all := Ensured(ss, blank);
      var s := all[Find(all, name)];
      var t := if |syms| <= 1 then Updated(s, [0]) else StrTabOf(s, syms, dynamic);
      OneWritten(ss, blank, t);
    }
  }

  lemma NamesQuiet(ss: seq<Section>)
    ensures AllQuiet(ss, WithShStrTab(ss))
  {
    hide Find, StrTab;
    var blank := NewTable(SHSTRTAB, SHT_STRTAB, false, 1);
    EnsuredName(ss, blank);
    var all := Ensured(ss, blank);
    var s := all[Find(all, SHSTRTAB)];
    OneWritten(ss, blank, Updated(s.(kind := ShStrTabKind, typ := SHT_STRTAB, entsize := 0), StrTab(SecNames(all))));
  }

  lemma FillQuiet(ss: seq<Section>, rs: seq<Reloc>)
    ensures AllQuiet(ss, Refilled(ss, rs))
  {
    hide RelaBytes;
    forall i | 0 <= i < |ss| ensures Quiet(ss[i], Refilled(ss, rs)[i]) {
      assert Refilled(ss, rs)[i] == if ss[i].kind == RelaKind then RelaOf(ss[i], rs) else ss[i];
    }
  }

  lemma {:induction false} AppendQuiet(ss: seq<Section>, rs: seq<Reloc>)
    ensures AllQuiet(ss, WithRelas(ss, rs))
    decreases |rs|
  {
    hide HasRela, Quiet;
    if rs == [] {
      forall i | 0 <= i < |ss| ensures Quiet(ss[i], ss[i]) { SelfQuiet(ss[i]); }
    } else {
      AppendQuiet(ss, rs[..|rs| - 1]);
      var tt := WithRelas(ss, rs[..|rs| - 1]);
      var r := rs[|rs| - 1];
      assert NewRela(r.target, r.dynamic).dirty;
    }
  }

  lemma LinksQuiet(ss: seq<Section>)
    ensures AllQuiet(ss, Linked(ss))
  {
    hide LinkedIn;
    forall i | 0 <= i < |ss| ensures Quiet(ss[i], Linked(ss)[i]) { LinkOnly(ss[i], ss); }
  }

  /** All tables together. */
  lemma TablesQuiet(im: Image)
    ensures AllQuiet(im.sections, FinalSections(im))
  {
    hide Sorted, WithSymTab, WithStrTab, Refilled, WithRelas, WithShStrTab, Linked, FinalRelocs, AllQuiet;
    var syms, dynsyms, rs := Sorted(im.symbols), Sorted(im.dynsymbols), FinalRelocs(im);
    SymQuiet(im.sections, syms, false);
    var a1 := WithSymTab(im.sections, syms, false);
    StrQuiet(a1, syms, false);
    var a2 := WithStrTab(a1, syms, false);
    QuietTrans(im.sections, a1, a2);
    SymQuiet(a2, dynsyms, true);
    var a3 := WithSymTab(a2, dynsyms, true);
    QuietTrans(im.sections, a2, a3);
    StrQuiet(a3, dynsyms, true);
    var b := SymbolSections(im);
    QuietTrans(im.sections, a3, b);
    RelasQuiet(b, rs);
    var c := RelasRebuilt(b, rs);
    QuietTrans(im.sections, b, c);
    NamesQuiet(c);
    QuietTrans(im.sections, c, WithShStrTab(c));
    LinksQuiet(WithShStrTab(c));
    QuietTrans(im.sections, WithShStrTab(c), FinalSections(im));
  }

  lemma RelasQuiet(ss: seq<Section>, rs: seq<Reloc>)
    ensures AllQuiet(ss, RelasRebuilt(ss, rs))
  {
    hide Refilled, WithRelas, AllQuiet;
    var a := Refilled(ss, rs);
    FillQuiet(ss, rs);
    AppendQuiet(a, rs);
    var b := WithRelas(a, rs);
    QuietTrans(ss, a, b);
    FillQuiet(b, rs);
    QuietTrans(ss, b, Refilled(b, rs));
  }

  // ------------------------------------------------------------- what was loaded

  /** Only what the loader works out about a section's role differs. */
  predicate KindOnly(s: Section, t: Section) {
    t.(kind := s.kind, relaTarget := s.relaTarget, relaDynamic := s.relaDynamic) == s
  }

  lemma ClassifiedOne(ss: seq<Section>, n: nat)
    requires n < |ss|
    ensures forall i :: 0 <= i < |ss| ==> KindOnly(ss[i], Classified(ss, n)[i])
  {}

  /** The place and bytes of a loaded section are those of the file. */
  lemma {:induction false} ClassifiedBytes(ss: seq<Section>, n: nat)
    requires n <= |ss|
    ensures forall i :: 0 <= i < |ss| ==> KindOnly(ss[i], ClassifiedTo(ss, n)[i])
  {
    hide Classified;
    if n > 0 {
      ClassifiedBytes(ss, n - 1);
      var mid := ClassifiedTo(ss, n - 1);
      ClassifiedOne(mid, n - 1);
      forall i | 0 <= i < |ss| ensures KindOnly(ss[i], ClassifiedTo(ss, n)[i]) {
        assert KindOnly(ss[i], mid[i]) && KindOnly(mid[i], Classified(mid, n - 1)[i]);
      }
    }
  }

  lemma LoadedBytes(buf: seq<byte>, im: Image, i: nat)
    requires Loaded(buf) == Some(im) && i < |im.sections| && im.sections[i].data != []
    ensures var s := im.sections[i];
            s.offset + s.size <= |buf| && s.data == buf[s.offset..s.offset + s.size] && !s.dirty
  {
    hide ParsedTo, SegmentsOf, ReadEhdr, ShdrAt, NameIn;
    var e := ReadEhdr(buf);
    var ss := LoadedSections(buf, e);
    var named := if e.shstrndx != 0 then WithKind(ss, e.shstrndx, ShStrTabKind) else ss;
    ClassifiedBytes(named, |named|);
    assert im.sections == ClassifiedTo(named, |named|);
    assert ss[i] == LoadedSection(buf, e, i);
  }

  // ------------------------------------------------------------------ the theorem

  /** From the bytes of one file to those of the next: a section of a loaded
      executable that the build keeps was there before, and has its old offset,
      address and bytes. */
  lemma LoadedKept(buf: seq<byte>, im: Image, i: nat)
    requires Loaded(buf) == Some(im) && |im.ehdr.ident| == 16
    requires var t := TablesDone(im);
             Roomy(t) && KeptDisjoint(t) && BytesOk(t.sections) && Keeps(t, i) && Carries(t.sections[i])
    ensures i < |im.sections| && i < |Built(im).sections|
    ensures var s, t := im.sections[i], Built(im).sections[i];
            t.offset == s.offset && t.addr == s.addr && t.size == s.size && t.data == s.data
    ensures var s := im.sections[i];
            && s.offset + s.size <= |buf| && s.offset + s.size <= |BuiltFile(im)|
            && BuiltFile(im)[s.offset..s.offset + s.size] == buf[s.offset..s.offset + s.size]
  {
    hide FinalSections, Sorted, FinalRelocs, LaidOut, Total, FileOf, Roomy, KeptDisjoint, BytesOk, Loaded, MetaPart;
    var t := TablesDone(im);
    TablesQuiet(im);
    KeptIs(t, i);
    UntouchedStays(t, i);
    UntouchedBytes(t, i);
    assert Quiet(im.sections[i], t.sections[i]);
    LoadedBytes(buf, im, i);
  }

  lemma KeptIs(t: Image, i: nat)
    requires Keeps(t, i)
    ensures 1 <= i < |t.sections| && t.sections[i].loaded && !t.sections[i].dirty && !IsRel(t)
  {}

  // ------------------------------------------------------------ sections at rest

  /** Section i has no role in any table. */
  ghost predicate Plain(ss: seq<Section>, i: nat) {
    i < |ss| && ss[i].kind == Normal && forall name :: RoleType(name).Some? ==> Find(ss, name) != i
  }

  lemma PlainStep(ss: seq<Section>, tt: seq<Section>, i: nat)
    requires AllQuiet(ss, tt) && Plain(ss, i) && tt[i] == ss[i]
    ensures Plain(tt, i)
  {
    hide Find, RoleType;
    forall name | RoleType(name).Some? ensures Find(tt, name) != i {
      if Find(tt, name) == i {
        forall k | 0 <= k < i ensures ss[k].name != name { assert Quiet(ss[k], tt[k]); }
        FindUnique(ss, name, i);
      }
    }
  }

  lemma PutPlain(ss: seq<Section>, blank: Section, t: Section, i: nat)
    requires Plain(ss, i) && t.name == blank.name && RoleType(blank.name).Some?
    ensures |Put(ss, blank, t)| > i && Put(ss, blank, t)[i] == ss[i]
  {
    hide Find, Put, RoleType;
    PutIndex(ss, blank, t);
  }

  lemma SymPlain(ss: seq<Section>, syms: seq<Symbol>, dynamic: bool, i: nat)
    requires Plain(ss, i)
    ensures var tt := WithSymTab(ss, syms, dynamic); Plain(tt, i) && tt[i] == ss[i]
  {
    hide Find, WithSymTab, Put, RoleType, Plain, SymAt;
    SymQuiet(ss, syms, dynamic);
    RoleIsSome(dynamic);
    var blank, t := SymStep(ss, syms, dynamic);
    if |syms| > 1 || Has(ss, SymSectionName(dynamic)) { PutPlain(ss, blank, t, i); }
    PlainHere(ss, i);
    PlainStep(ss, WithSymTab(ss, syms, dynamic), i);
  }

  lemma PlainHere(ss: seq<Section>, i: nat)
    requires Plain(ss, i)
    ensures i < |ss| && ss[i].kind == Normal
  {}

  lemma RoleIsSome(dynamic: bool)
    ensures RoleType(SymSectionName(dynamic)).Some? && RoleType(StrSectionName(dynamic)).Some? && RoleType(SHSTRTAB).Some?
  {
    RoleNames();
  }

  lemma StrPlain(ss: seq<Section>, syms: seq<Symbol>, dynamic: bool, i: nat)
    requires Plain(ss, i)
    ensures var tt := WithStrTab(ss, syms, dynamic); Plain(tt, i) && tt[i] == ss[i]
  {
    hide Find, WithStrTab, Put, RoleType, Plain, StrAt;
    StrQuiet(ss, syms, dynamic);
    RoleIsSome(dynamic);
    var blank, t := StrStep(ss, syms, dynamic);
    if |syms| > 1 || Has(ss, StrSectionName(dynamic)) { PutPlain(ss, blank, t, i); }
    PlainHere(ss, i);
    PlainStep(ss, WithStrTab(ss, syms, dynamic), i);
  }

  lemma RestPlain(ss: seq<Section>, rs: seq<Reloc>, i: nat)
    requires Plain(ss, i)
    ensures var tt := Linked(WithShStrTab(RelasRebuilt(ss, rs))); i < |tt| && tt[i] == ss[i]
  {
    hide Find, Refilled, WithRelas, WithShStrTab, Put, RoleType, Plain, LinkedIn;
    PlainHere(ss, i);
    var a := Refilled(ss, rs);
    assert a[i] == ss[i];
    FillQuiet(ss, rs);
    var b := WithRelas(a, rs);
    Appended(a, rs);
    var c := RelasRebuilt(ss, rs);
    assert c == Refilled(b, rs) && c[i] == b[i] == ss[i];
    RelasQuiet(ss, rs);
    PlainStep(ss, c, i);
    RoleIsSome(false);
    var blank, t := NameStep(c);
    PutPlain(c, blank, t, i);
    NormalLink(ss[i], WithShStrTab(c));
  }

  lemma NormalLink(s: Section, ss: seq<Section>)
    requires s.kind == Normal
    ensures LinkedIn(s, ss) == s
  {}

  /** A loaded allocated section without a role is kept, in an executable that has
      program headers. */
  lemma PlainKept(buf: seq<byte>, im: Image, i: nat)
    requires Loaded(buf) == Some(im) && im.ehdr.etype != ET_REL && im.segments != []
    requires 1 <= i && Plain(im.sections, i) && im.sections[i].typ != SHT_NULL && Alloc(im.sections[i].flags)
    ensures Keeps(TablesDone(im), i) && TablesDone(im).sections[i] == im.sections[i]
  {
    hide Find, Sorted, WithSymTab, WithStrTab, RelasRebuilt, WithShStrTab, Linked, FinalRelocs, Plain, Loaded, Alloc;
    var syms, dynsyms, rs := Sorted(im.symbols), Sorted(im.dynsymbols), FinalRelocs(im);
    SymPlain(im.sections, syms, false, i);
    var a1 := WithSymTab(im.sections, syms, false);
    StrPlain(a1, syms, false, i);
    var a2 := WithStrTab(a1, syms, false);
    SymPlain(a2, dynsyms, true, i);
    var a3 := WithSymTab(a2, dynsyms, true);
    StrPlain(a3, dynsyms, true, i);
    RestPlain(SymbolSections(im), rs, i);
    PlainHere(im.sections, i);
    LoadedClean(buf, im, i);
  }

  lemma LoadedClean(buf: seq<byte>, im: Image, i: nat)
    requires Loaded(buf) == Some(im) && i < |im.sections|
    ensures var s := im.sections[i]; !s.dirty && s.loaded == (s.typ != SHT_NULL && Alloc(s.flags))
  {
    hide ParsedTo, SegmentsOf, ReadEhdr, ShdrAt, NameIn, Alloc;
    var e := ReadEhdr(buf);
    var ss := LoadedSections(buf, e);
    var named := if e.shstrndx != 0 then WithKind(ss, e.shstrndx, ShStrTabKind) else ss;
    ClassifiedBytes(named, |named|);
    assert im.sections == ClassifiedTo(named, |named|);
    assert KindOnly(named[i], im.sections[i]);
    assert ss[i] == LoadedSection(buf, e, i);
  }
}
