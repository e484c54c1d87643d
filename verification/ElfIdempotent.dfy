/** Building a relocatable file a second time gives the same bytes. */
module ElfIdempotent {
  import opened Words
  import opened ElfStruct
  import opened ElfNames
  import opened ElfModel
  import opened ElfSort
  import opened ElfTables
  import opened ElfLayout
  import opened ElfSafety
  import opened ElfFile
  import opened ElfBuild
  import opened ElfRegular
  import opened ElfChain
  import opened ElfRoundTrip
  import opened ElfHeaders
  import opened ElfTheorem

  // ------------------------------------------------------------ finished tables

  /** The same but for the bookkeeping of changes. */
  predicate SameButFlags(s: Section, t: Section) { t.(dirty := s.dirty, loaded := s.loaded) == s }

  predicate AllSame(ss: seq<Section>, tt: seq<Section>) {
    |tt| == |ss| && forall i :: 0 <= i < |ss| ==> SameButFlags(ss[i], tt[i])
  }

  /** What rebuilding a table of symbols leaves in its section. A relocation
      section of that name gets its bytes from a later step when there are no
      symbols. */
  predicate SymAt(s: Section, syms: seq<Symbol>, dynamic: bool) {
    if |syms| <= 1 then s.kind != RelaKind ==> s.data == Zeros(SYM_SIZE) && s.size == SYM_SIZE
    else
      && s.typ == SymType(dynamic) && s.entsize == SYM_SIZE && s.kind == SymKind(dynamic)
      && s.info == FirstGlobal(syms) % TWO32 && s.data == SymBytes(syms) && s.size == |s.data| % TWO64
  }

  predicate StrAt(s: Section, syms: seq<Symbol>, dynamic: bool) {
    if |syms| <= 1 then s.kind != RelaKind ==> s.data == [0] && s.size == 1
    else
      && s.typ == SHT_STRTAB && s.entsize == 0 && s.kind == StrKind(dynamic)
      && s.data == StrBytes(syms) && s.size == |s.data| % TWO64
  }

  ghost predicate SymDone(ss: seq<Section>, syms: seq<Symbol>, dynamic: bool) {
    var name := SymSectionName(dynamic);
    (|syms| > 1 ==> Has(ss, name)) && (Has(ss, name) ==> SymAt(ss[Find(ss, name)], syms, dynamic))
  }

  ghost predicate StrDone(ss: seq<Section>, syms: seq<Symbol>, dynamic: bool) {
    var name := StrSectionName(dynamic);
    (|syms| > 1 ==> Has(ss, name)) && (Has(ss, name) ==> StrAt(ss[Find(ss, name)], syms, dynamic))
  }

  ghost predicate SymbolsDone(ss: seq<Section>, syms: seq<Symbol>, dynsyms: seq<Symbol>) {
    SymDone(ss, syms, false) && StrDone(ss, syms, false) && SymDone(ss, dynsyms, true) && StrDone(ss, dynsyms, true)
  }

  predicate RelaAt(s: Section, rs: seq<Reloc>) {
    s.kind == RelaKind ==> s.data == RelaBytes(rs, s) && s.entsize == RELA_SIZE && s.size == |s.data| % TWO64
  }

  ghost predicate RelasFilled(ss: seq<Section>, rs: seq<Reloc>) { forall i :: 0 <= i < |ss| ==> RelaAt(ss[i], rs) }

  ghost predicate RelasThere(ss: seq<Section>, rs: seq<Reloc>) {
    forall i :: 0 <= i < |rs| ==> HasRela(ss, rs[i].target, rs[i].dynamic)
  }

  ghost predicate ShDone(ss: seq<Section>) {
    && Has(ss, SHSTRTAB)
    && var s := ss[Find(ss, SHSTRTAB)];
    s.kind == ShStrTabKind && s.typ == SHT_STRTAB && s.entsize == 0
    && s.data == StrTab(SecNames(ss)) && s.size == |s.data| % TWO64
  }

  /** Every table as its own step left it, with its links. */
  ghost predicate Done(ss: seq<Section>, syms: seq<Symbol>, dynsyms: seq<Symbol>, rs: seq<Reloc>) {
    SymbolsDone(ss, syms, dynsyms) && RelasFilled(ss, rs) && ShDone(ss) && LinkFact(ss)
  }

  // ----------------------------------------------------------- the first build

  lemma SymStep(ss: seq<Section>, syms: seq<Symbol>, dynamic: bool) returns (blank: Section, t: Section)
    ensures |syms| > 1 || Has(ss, SymSectionName(dynamic)) ==>
              && WithSymTab(ss, syms, dynamic) == Put(ss, blank, t)
              && t.name == blank.name == SymSectionName(dynamic) && SymAt(t, syms, dynamic)
    ensures |syms| <= 1 && !Has(ss, SymSectionName(dynamic)) ==> WithSymTab(ss, syms, dynamic) == ss
  {
    hide Find, SymBytes;
    blank := NewTable(SymSectionName(dynamic), SymType(dynamic), dynamic, 8);
    EnsuredName(ss, blank);
    var all := Ensured(ss, blank);
    var s := all[Find(all, blank.name)];
    t := if |syms| <= 1 then Updated(s, Zeros(SYM_SIZE)) else SymTabOf(s, syms, dynamic);
  }

  lemma StrStep(ss: seq<Section>, syms: seq<Symbol>, dynamic: bool) returns (blank: Section, t: Section)
    ensures |syms| > 1 || Has(ss, StrSectionName(dynamic)) ==>
              && WithStrTab(ss, syms, dynamic) == Put(ss, blank, t)
              && t.name == blank.name == StrSectionName(dynamic) && StrAt(t, syms, dynamic)
    ensures |syms| <= 1 && !Has(ss, StrSectionName(dynamic)) ==> WithStrTab(ss, syms, dynamic) == ss
  {
    hide Find, StrTab;
    blank := NewTable(StrSectionName(dynamic), SHT_STRTAB, dynamic, 1);
    EnsuredName(ss, blank);
    var all := Ensured(ss, blank);
    var s := all[Find(all, blank.name)];
    t := if |syms| <= 1 then Updated(s, [0]) else StrTabOf(s, syms, dynamic);
  }

  /** Tables of other names are not touched. */
  lemma PutKeeps(ss: seq<Section>, blank: Section, t: Section, syms: seq<Symbol>, dynamic: bool)
    requires t.name == blank.name
    ensures blank.name != SymSectionName(dynamic) ==> (SymDone(Put(ss, blank, t), syms, dynamic) <==> SymDone(ss, syms, dynamic))
    ensures blank.name != StrSectionName(dynamic) ==> (StrDone(Put(ss, blank, t), syms, dynamic) <==> StrDone(ss, syms, dynamic))
  {
    hide Find, SymAt, StrAt, Put;
    if blank.name != SymSectionName(dynamic) { PutOther(ss, blank, t, SymSectionName(dynamic)); }
    if blank.name != StrSectionName(dynamic) { PutOther(ss, blank, t, StrSectionName(dynamic)); }
  }

  /** One kind of symbols, table and names. */
  lemma PairStep(ss: seq<Section>, syms: seq<Symbol>, dynamic: bool, others: seq<Symbol>)
    ensures var r := WithStrTab(WithSymTab(ss, syms, dynamic), syms, dynamic);
            && SymDone(r, syms, dynamic) && StrDone(r, syms, dynamic)
            && (SymDone(ss, others, !dynamic) && StrDone(ss, others, !dynamic) ==>
                SymDone(r, others, !dynamic) && StrDone(r, others, !dynamic))
  {
    hide Find, SymAt, StrAt, Put, WithSymTab, WithStrTab;
    RoleNames();
    var mid := WithSymTab(ss, syms, dynamic);
    var blank, t := SymStep(ss, syms, dynamic);
    if |syms| > 1 || Has(ss, SymSectionName(dynamic)) {
      PutIndex(ss, blank, t);
      PutKeeps(ss, blank, t, others, !dynamic);
    }
    assert SymDone(mid, syms, dynamic);
    var blank', t' := StrStep(mid, syms, dynamic);
    if |syms| > 1 || Has(mid, StrSectionName(dynamic)) {
      PutIndex(mid, blank', t');
      PutKeeps(mid, blank', t', others, !dynamic);
      PutKeeps(mid, blank', t', syms, dynamic);
    }
  }

  lemma AfterSymbols(im: Image)
    ensures SymbolsDone(SymbolSections(im), Sorted(im.symbols), Sorted(im.dynsymbols))
  {
    hide Sorted, WithSymTab, WithStrTab, SymDone, StrDone;
    var syms, dynsyms := Sorted(im.symbols), Sorted(im.dynsymbols);
    PairStep(im.sections, syms, false, dynsyms);
    PairStep(WithStrTab(WithSymTab(im.sections, syms, false), syms, false), dynsyms, true, syms);
  }

  lemma RelaFills(s: Section, rs: seq<Reloc>)
    requires s.kind == RelaKind
    ensures RelaAt(RelaOf(s, rs), rs) && RelaOf(s, rs).kind == RelaKind && RelaOf(s, rs).name == s.name
    ensures RelaOf(s, rs).relaTarget == s.relaTarget && RelaOf(s, rs).relaDynamic == s.relaDynamic
  {
    hide Rows, Group;
    GroupAlike(rs, s, RelaOf(s, rs));
  }

  /** Filling relocation sections keeps names, kinds and the tables of symbols. */
  lemma FillFacts(ss: seq<Section>, rs: seq<Reloc>, syms: seq<Symbol>, dynamic: bool)
    ensures RelasFilled(Refilled(ss, rs), rs) && SameNames(ss, Refilled(ss, rs))
    ensures forall target, dyn :: HasRela(ss, target, dyn) ==> HasRela(Refilled(ss, rs), target, dyn)
    ensures SymDone(ss, syms, dynamic) ==> SymDone(Refilled(ss, rs), syms, dynamic)
    ensures StrDone(ss, syms, dynamic) ==> StrDone(Refilled(ss, rs), syms, dynamic)
  {
    hide RelaOf, Find, SymBytes, StrBytes, RelaBytes;
    var tt := Refilled(ss, rs);
    forall i | 0 <= i < |ss| ensures RelaAt(tt[i], rs) && tt[i].name == ss[i].name && tt[i].kind == ss[i].kind {
      if ss[i].kind == RelaKind { RelaFills(ss[i], rs); }
    }
    forall target, dyn | HasRela(ss, target, dyn) ensures HasRela(tt, target, dyn) {
      var i :| 0 <= i < |ss| && ss[i].kind == RelaKind && ss[i].relaDynamic == dyn && ss[i].relaTarget == target;
      RelaFills(ss[i], rs);
      assert tt[i].kind == RelaKind;
    }
    FindsSame(ss, tt);
  }

  lemma RelaNameApart(target: Name, dynamic: bool)
    ensures RoleType(RelaName(target, dynamic)).None?
  {
    var n := RelaName(target, dynamic);
    assert |n| > 1 && n[1] == 114;
    assert SYMTAB[1] == 115 && STRTAB[1] == 115 && SHSTRTAB[1] == 115 && DYNSYM[1] == 100 && DYNSTR[1] == 100;
  }

  /** Sections for new groups come behind, under names of their own. */
  lemma {:induction false} Appended(ss: seq<Section>, rs: seq<Reloc>)
    ensures var tt := WithRelas(ss, rs);
            && RelasThere(tt, rs) && |ss| <= |tt| && (forall i :: 0 <= i < |ss| ==> tt[i] == ss[i])
            && (forall name :: RoleType(name).Some? ==> (Has(tt, name) <==> Has(ss, name)))
            && (forall name :: Has(ss, name) ==> Find(tt, name) == Find(ss, name))
    decreases |rs|
  {
    hide Find, RoleType, HasRela, NewRela;
    if rs != [] {
      var most, r := rs[..|rs| - 1], rs[|rs| - 1];
      Appended(ss, most);
      var tt := WithRelas(ss, most);
      OneAppended(tt, r);
      forall i | 0 <= i < |rs| ensures HasRela(WithRela(tt, r), rs[i].target, rs[i].dynamic) {
        if i < |most| {
          assert HasRela(tt, most[i].target, most[i].dynamic);
          HasRelaGrows(tt, WithRela(tt, r), most[i].target, most[i].dynamic);
        }
      }
    }
  }

  lemma OneAppended(ss: seq<Section>, r: Reloc)
    ensures var tt := WithRela(ss, r);
            && HasRela(tt, r.target, r.dynamic) && |ss| <= |tt| && (forall i :: 0 <= i < |ss| ==> tt[i] == ss[i])
            && (forall name :: RoleType(name).Some? ==> (Has(tt, name) <==> Has(ss, name)))
            && (forall name :: Has(ss, name) ==> Find(tt, name) == Find(ss, name))
  {
    hide Find, RoleType;
    if !HasRela(ss, r.target, r.dynamic) {
      var s := NewRela(r.target, r.dynamic);
      RelaNameApart(r.target, r.dynamic);
      forall name
        ensures Has(ss, name) ==> Find(ss + [s], name) == Find(ss, name)
        ensures RoleType(name).Some? ==> (Has(ss + [s], name) <==> Has(ss, name))
      {
        FindAppended(ss, s, name);
      }
      assert (ss + [s])[|ss|].kind == RelaKind;
    }
  }

  lemma AppendedSymbols(ss: seq<Section>, rs: seq<Reloc>, syms: seq<Symbol>, dynamic: bool)
    ensures SymDone(ss, syms, dynamic) ==> SymDone(WithRelas(ss, rs), syms, dynamic)
    ensures StrDone(ss, syms, dynamic) ==> StrDone(WithRelas(ss, rs), syms, dynamic)
  {
    hide Find, SymAt, StrAt, WithRelas;
    Appended(ss, rs);
    assert RoleType(SymSectionName(dynamic)).Some? && RoleType(StrSectionName(dynamic)).Some?;
  }

  lemma AfterRelas(ss: seq<Section>, rs: seq<Reloc>, syms: seq<Symbol>, dynsyms: seq<Symbol>)
    requires SymbolsDone(ss, syms, dynsyms)
    ensures var tt := RelasRebuilt(ss, rs);
            SymbolsDone(tt, syms, dynsyms) && RelasFilled(tt, rs) && RelasThere(tt, rs)
  {
    hide Find, SymDone, StrDone, Refilled, WithRelas, HasRela, RelaAt;
    var a := Refilled(ss, rs);
    FillFacts(ss, rs, syms, false);
    FillFacts(ss, rs, dynsyms, true);
    var b := WithRelas(a, rs);
    Appended(a, rs);
    AppendedSymbols(a, rs, syms, false);
    AppendedSymbols(a, rs, dynsyms, true);
    FillFacts(b, rs, syms, false);
    FillFacts(b, rs, dynsyms, true);
  }

  lemma NameStep(ss: seq<Section>) returns (blank: Section, t: Section)
    ensures WithShStrTab(ss) == Put(ss, blank, t) && t.name == blank.name == SHSTRTAB
    ensures t.kind == ShStrTabKind && t.typ == SHT_STRTAB && t.entsize == 0
    ensures t.data == StrTab(SecNames(WithShStrTab(ss))) && t.size == |t.data| % TWO64
  {
    hide Find, StrTab;
    blank := NewTable(SHSTRTAB, SHT_STRTAB, false, 1);
    EnsuredName(ss, blank);
    var all := Ensured(ss, blank);
    var i := Find(all, SHSTRTAB);
    t := Updated(all[i].(kind := ShStrTabKind, typ := SHT_STRTAB, entsize := 0), StrTab(SecNames(all)));
    assert SecNames(all[i := t]) == SecNames(all);
  }

  lemma AfterNames(ss: seq<Section>, rs: seq<Reloc>, syms: seq<Symbol>, dynsyms: seq<Symbol>)
    requires SymbolsDone(ss, syms, dynsyms) && RelasFilled(ss, rs)
    ensures var tt := WithShStrTab(ss); SymbolsDone(tt, syms, dynsyms) && RelasFilled(tt, rs) && ShDone(tt)
  {
    hide Find, SymDone, StrDone, StrTab, Put, WithShStrTab;
    RoleNames();
    var blank, t := NameStep(ss);
    PutIndex(ss, blank, t);
    PutKeeps(ss, blank, t, syms, false);
    PutKeeps(ss, blank, t, dynsyms, true);
  }

  /** Links change no other field. */
  lemma LinkOnly(s: Section, ss: seq<Section>)
    ensures var t := LinkedIn(s, ss);
            && t.(link := s.link, info := s.info) == s && (s.kind != RelaKind ==> t.info == s.info)
  {
    hide Find;
  }

  lemma AfterLinks(ss: seq<Section>, rs: seq<Reloc>, syms: seq<Symbol>, dynsyms: seq<Symbol>)
    requires SymbolsDone(ss, syms, dynsyms) && RelasFilled(ss, rs) && ShDone(ss)
    ensures Done(Linked(ss), syms, dynsyms, rs)
  {
    hide Find, LinkedIn, StrTab, SymBytes, StrBytes, HasRela, RelaBytes;
    var tt := Linked(ss);
    forall i | 0 <= i < |ss|
      ensures tt[i].(link := ss[i].link, info := ss[i].info) == ss[i] && (ss[i].kind != RelaKind ==> tt[i].info == ss[i].info)
      ensures RelaAt(tt[i], rs)
    {
      LinkOnly(ss[i], ss);
      GroupAlike(rs, ss[i], tt[i]);
      assert RelaAt(ss[i], rs);
    }
    FindsSame(ss, tt);
    assert SecNames(tt) == SecNames(ss);
    LinkedStays(ss);
  }

  lemma LinkedStays(ss: seq<Section>)
    ensures LinkFact(Linked(ss))
  {
    hide Find, IndexOf;
    var tt := Linked(ss);
    forall i | 0 <= i < |ss| ensures tt[i].name == ss[i].name { LinkOnly(ss[i], ss); }
    FindsSame(ss, tt);
    forall name ensures IndexOf(tt, name) == IndexOf(ss, name) { SameIndex(ss, tt, name); }
    forall i | 0 <= i < |tt| ensures tt[i] == LinkedIn(tt[i], tt) { assert tt[i] == LinkedIn(ss[i], ss); }
  }

  lemma SameIndex(ss: seq<Section>, tt: seq<Section>, name: Name)
    requires Find(tt, name) == Find(ss, name) && |tt| == |ss|
    ensures IndexOf(tt, name) == IndexOf(ss, name)
  {}

  // ------------------------------------------------------- tables a second time

  /** Sections that came through the table steps a second time: as they were but
      for bookkeeping, or a relocation section whose bytes are still to be filled
      in. */
  predicate Loose(s: Section, t: Section) {
    SameButFlags(s, t) || (s.kind == RelaKind && t.(data := s.data, size := s.size, dirty := s.dirty, loaded := s.loaded) == s)
  }

  predicate AllLoose(ss: seq<Section>, tt: seq<Section>) {
    |tt| == |ss| && forall i :: 0 <= i < |ss| ==> Loose(ss[i], tt[i])
  }

  lemma LooseNames(ss: seq<Section>, tt: seq<Section>)
    requires AllLoose(ss, tt)
    ensures forall name :: Find(tt, name) == Find(ss, name)
    ensures SecNames(tt) == SecNames(ss)
  {
    hide Find;
    forall i | 0 <= i < |ss| ensures tt[i].name == ss[i].name { assert Loose(ss[i], tt[i]); }
    FindsSame(ss, tt);
  }

  lemma PutBack<T>(ss: seq<T>, i: nat, t: T)
    requires i < |ss|
    ensures |ss[i := t]| == |ss| && ss[i := t][i] == t && forall k :: 0 <= k < |ss| && k != i ==> ss[i := t][k] == ss[k]
  {}

  lemma SymAgain(ss: seq<Section>, tt: seq<Section>, syms: seq<Symbol>, dynamic: bool)
    requires SymDone(ss, syms, dynamic) && AllLoose(ss, tt)
    ensures AllLoose(ss, WithSymTab(tt, syms, dynamic))
  {
    hide Find, SymBytes, Loose;
    var name := SymSectionName(dynamic);
    LooseNames(ss, tt);
    if Has(ss, name) {
      var i := Find(ss, name);
      SymSame(ss[i], tt[i], syms, dynamic);
    }
  }

  lemma SymSame(s: Section, t: Section, syms: seq<Symbol>, dynamic: bool)
    requires SymAt(s, syms, dynamic) && Loose(s, t)
    ensures Loose(s, if |syms| <= 1 then Updated(t, Zeros(SYM_SIZE)) else SymTabOf(t, syms, dynamic))
  {
    hide SymBytes;
  }

  lemma StrAgain(ss: seq<Section>, tt: seq<Section>, syms: seq<Symbol>, dynamic: bool)
    requires StrDone(ss, syms, dynamic) && AllLoose(ss, tt)
    ensures AllLoose(ss, WithStrTab(tt, syms, dynamic))
  {
    hide Find, StrTab, Loose;
    var name := StrSectionName(dynamic);
    LooseNames(ss, tt);
    if Has(ss, name) {
      var i := Find(ss, name);
      StrSame(ss[i], tt[i], syms, dynamic);
    }
  }

  lemma StrSame(s: Section, t: Section, syms: seq<Symbol>, dynamic: bool)
    requires StrAt(s, syms, dynamic) && Loose(s, t)
    ensures Loose(s, if |syms| <= 1 then Updated(t, [0]) else StrTabOf(t, syms, dynamic))
  {
    hide StrTab;
  }

  /** Filling brings back every relocation section. */
  lemma FillAgain(ss: seq<Section>, tt: seq<Section>, rs: seq<Reloc>)
    requires RelasFilled(ss, rs) && AllLoose(ss, tt)
    ensures AllSame(ss, Refilled(tt, rs))
  {
    hide RelaOf, RelaBytes;
    forall i | 0 <= i < |ss| ensures SameButFlags(ss[i], Refilled(tt, rs)[i]) {
      assert Loose(ss[i], tt[i]) && RelaAt(ss[i], rs);
      if ss[i].kind == RelaKind { RelaSame(ss[i], tt[i], rs); }
    }
  }

  lemma RelaSame(s: Section, t: Section, rs: seq<Reloc>)
    requires s.kind == RelaKind && RelaAt(s, rs) && Loose(s, t)
    ensures SameButFlags(s, RelaOf(t, rs))
  {
    hide Group, Rows;
    GroupAlike(rs, s, t);
  }

  lemma SameLoose(ss: seq<Section>, tt: seq<Section>)
    requires AllSame(ss, tt)
    ensures AllLoose(ss, tt)
  {}

  lemma SameRelas(ss: seq<Section>, tt: seq<Section>, rs: seq<Reloc>)
    requires AllSame(ss, tt) && RelasThere(ss, rs)
    ensures RelasThere(tt, rs)
  {
    hide SameButFlags;
    forall i | 0 <= i < |rs| ensures HasRela(tt, rs[i].target, rs[i].dynamic) {
      assert HasRela(ss, rs[i].target, rs[i].dynamic);
      var k :| 0 <= k < |ss| && ss[k].kind == RelaKind && ss[k].relaDynamic == rs[i].dynamic && ss[k].relaTarget == rs[i].target;
      FlagsAlike(ss[k], tt[k]);
      assert tt[k].kind == RelaKind;
    }
  }

  lemma {:induction false} WithRelasAgain(ss: seq<Section>, rs: seq<Reloc>)
    requires RelasThere(ss, rs)
    ensures WithRelas(ss, rs) == ss
    decreases |rs|
  {
    hide HasRela;
    if rs != [] { WithRelasAgain(ss, rs[..|rs| - 1]); }
  }

  lemma RelasAgain(ss: seq<Section>, tt: seq<Section>, rs: seq<Reloc>)
    requires RelasFilled(ss, rs) && RelasThere(ss, rs) && AllLoose(ss, tt)
    ensures AllSame(ss, RelasRebuilt(tt, rs))
  {
    hide Refilled, WithRelas, HasRela, RelaAt, SameButFlags, Loose;
    FillAgain(ss, tt, rs);
    var a := Refilled(tt, rs);
    SameRelas(ss, a, rs);
    WithRelasAgain(a, rs);
    SameLoose(ss, a);
    FillAgain(ss, a, rs);
  }

  lemma NamesAgain(ss: seq<Section>, tt: seq<Section>)
    requires ShDone(ss) && AllSame(ss, tt)
    ensures AllSame(ss, WithShStrTab(tt))
  {
    hide Find, StrTab, SameButFlags, Loose;
    SameLoose(ss, tt);
    LooseNames(ss, tt);
    var i := Find(ss, SHSTRTAB);
    ShSame(ss[i], tt[i], StrTab(SecNames(ss)));
  }

  lemma ShSame(s: Section, t: Section, names: seq<byte>)
    requires s.kind == ShStrTabKind && s.typ == SHT_STRTAB && s.entsize == 0 && s.data == names && s.size == |s.data| % TWO64
    requires SameButFlags(s, t)
    ensures SameButFlags(s, Updated(t.(kind := ShStrTabKind, typ := SHT_STRTAB, entsize := 0), names))
  {}

  lemma LinksAgain(ss: seq<Section>, tt: seq<Section>)
    requires LinkFact(ss) && AllSame(ss, tt)
    ensures AllSame(ss, Linked(tt))
  {
    hide Find, IndexOf, SameButFlags, Loose;
    SameLoose(ss, tt);
    LooseNames(ss, tt);
    forall name ensures IndexOf(tt, name) == IndexOf(ss, name) { SameIndex(ss, tt, name); }
    forall i | 0 <= i < |ss| ensures SameButFlags(ss[i], Linked(tt)[i]) { LinkSame(ss[i], tt[i], ss, tt); }
  }

  lemma LinkSame(s: Section, t: Section, ss: seq<Section>, tt: seq<Section>)
    requires SameButFlags(s, t) && s == LinkedIn(s, ss) && forall name :: IndexOf(tt, name) == IndexOf(ss, name)
    ensures SameButFlags(s, LinkedIn(t, tt))
  {
    hide IndexOf;
  }

  lemma FlagsAlike(s: Section, t: Section)
    requires SameButFlags(s, t)
    ensures t.name == s.name && t.typ == s.typ && t.data == s.data && t.entsize == s.entsize && t.info == s.info
    ensures t.size == s.size && t.flags == s.flags && t.addralign == s.addralign && t.offset == s.offset && t.addr == s.addr
    ensures t.relaTarget == s.relaTarget && t.relaDynamic == s.relaDynamic && t.link == s.link && t.kind == s.kind
  {}

  lemma AllSameTrans(a: seq<Section>, b: seq<Section>, c: seq<Section>)
    requires AllSame(a, b) && AllSame(b, c)
    ensures AllSame(a, c)
  {
    forall i | 0 <= i < |a| ensures SameButFlags(a[i], c[i]) { assert SameButFlags(a[i], b[i]) && SameButFlags(b[i], c[i]); }
  }

  /** The sections after a second round of table steps. */
  function SymbolsRedone(ss: seq<Section>, syms: seq<Symbol>, dynsyms: seq<Symbol>): seq<Section> {
    var a := WithStrTab(WithSymTab(ss, syms, false), syms, false);
    WithStrTab(WithSymTab(a, dynsyms, true), dynsyms, true)
  }

  lemma SymbolsAgain(ss: seq<Section>, syms: seq<Symbol>, dynsyms: seq<Symbol>)
    requires SymbolsDone(ss, syms, dynsyms)
    ensures AllLoose(ss, SymbolsRedone(ss, syms, dynsyms))
  {
    hide WithSymTab, WithStrTab, AllLoose, SymDone, StrDone;
    LooseSelf(ss);
    SymAgain(ss, ss, syms, false);
    var a1 := WithSymTab(ss, syms, false);
    StrAgain(ss, a1, syms, false);
    var a2 := WithStrTab(a1, syms, false);
    SymAgain(ss, a2, dynsyms, true);
    var a3 := WithSymTab(a2, dynsyms, true);
    StrAgain(ss, a3, dynsyms, true);
  }

  /** Regenerating finished tables changes the bookkeeping at most, when every
      relocation has its section. */
  lemma TablesAgain(ss: seq<Section>, syms: seq<Symbol>, dynsyms: seq<Symbol>, rs: seq<Reloc>)
    requires Done(ss, syms, dynsyms, rs) && RelasThere(ss, rs)
    ensures AllSame(ss, Linked(WithShStrTab(RelasRebuilt(SymbolsRedone(ss, syms, dynsyms), rs))))
  {
    hide SymbolsRedone, RelasRebuilt, WithShStrTab, Linked, AllSame, AllLoose, SymbolsDone, RelasFilled, RelasThere, ShDone, LinkFact;
    SymbolsAgain(ss, syms, dynsyms);
    var b := SymbolsRedone(ss, syms, dynsyms);
    RelasAgain(ss, b, rs);
    NamesAgain(ss, RelasRebuilt(b, rs));
    LinksAgain(ss, WithShStrTab(RelasRebuilt(b, rs)));
  }

  /** Otherwise it adds sections. */
  lemma TablesGrow(ss: seq<Section>, syms: seq<Symbol>, dynsyms: seq<Symbol>, rs: seq<Reloc>)
    requires Done(ss, syms, dynsyms, rs) && !RelasThere(ss, rs)
    ensures |Linked(WithShStrTab(RelasRebuilt(SymbolsRedone(ss, syms, dynsyms), rs)))| > |ss|
  {
    hide SymbolsRedone, AllSame, AllLoose, SymbolsDone, RelasFilled, RelasThere, ShDone, LinkFact, Find, Refilled, WithRelas, StrTab;
    SymbolsAgain(ss, syms, dynsyms);
    var b := SymbolsRedone(ss, syms, dynsyms);
    FillAgain(ss, b, rs);
    var x := Refilled(b, rs);
    Appended(x, rs);
    var m := WithRelas(x, rs);
    SameLength(ss, x);
    if |m| == |x| {
      assert m == x;
      SameBack(ss, x);
      SameRelas(x, ss, rs);
    }
  }

  lemma SameLength(ss: seq<Section>, tt: seq<Section>)
    requires AllSame(ss, tt)
    ensures |tt| == |ss|
  {}

  lemma SameBack(ss: seq<Section>, tt: seq<Section>)
    requires AllSame(ss, tt)
    ensures AllSame(tt, ss)
  {
    forall i | 0 <= i < |ss| ensures SameButFlags(tt[i], ss[i]) { assert SameButFlags(ss[i], tt[i]); }
  }

  lemma LooseSelf(ss: seq<Section>)
    ensures AllLoose(ss, ss)
  {}

  // ------------------------------------------------------- layout a second time

  /** The same but for place and bookkeeping. */
  predicate SameCore(s: Section, t: Section) {
    t.(offset := s.offset, addr := s.addr, dirty := s.dirty, loaded := s.loaded) == s
  }

  predicate AllCore(ss: seq<Section>, tt: seq<Section>) {
    |tt| == |ss| && forall i :: 0 <= i < |ss| ==> SameCore(ss[i], tt[i])
  }

  lemma CoreParts(s: Section, t: Section)
    requires SameCore(s, t)
    ensures t.typ == s.typ && t.flags == s.flags && t.addralign == s.addralign && FileSize(t) == FileSize(s) && t.name == s.name
  {}

  lemma CoreClass(ss: seq<Section>, tt: seq<Section>, i: nat, L: Setting)
    requires AllCore(ss, tt) && i < |ss| && L.isRel
    ensures ClassOf(tt, i, L) == ClassOf(ss, i, L) && ClassOf(ss, i, L) != Fixed
  {
    CoreParts(ss[i], tt[i]);
  }

  lemma PutCore(s: Section, t: Section, which: Class, L: Setting, cur: u64)
    requires SameCore(s, t)
    ensures SameCore(PutAt(s, which, L, cur), PutAt(t, which, L, cur))
    ensures var a, b := PutAt(s, which, L, cur), PutAt(t, which, L, cur);
            a.offset == b.offset && a.addr == b.addr && End(a) == End(b) && SameCore(s, a)
  {
    hide AlignUp;
  }

  /** Placement depends on neither old places nor bookkeeping. */
  lemma {:induction false} PlacedCore(ss: seq<Section>, tt: seq<Section>, n: nat, which: Class, L: Setting, start: u64)
    requires AllCore(ss, tt) && n <= |ss| && L.isRel
    ensures var p, q := PlacedTo(ss, n, which, L, start), PlacedTo(tt, n, which, L, start);
            && p.cur == q.cur && AllCore(ss, p.ss) && AllCore(p.ss, q.ss)
            && (forall i :: 0 <= i < |ss| ==>
                  if i < n && ClassOf(ss, i, L) == which then q.ss[i].offset == p.ss[i].offset && q.ss[i].addr == p.ss[i].addr
                  else p.ss[i] == ss[i] && q.ss[i] == tt[i])
  {
    hide SameCore, PutAt, ClassOf, End;
    if n == 0 {
      forall i | 0 <= i < |ss| ensures SameCore(ss[i], ss[i]) { CoreSelf(ss[i]); }
    } else {
      PlacedCore(ss, tt, n - 1, which, L, start);
      var p := PlacedTo(ss, n - 1, which, L, start);
      CoreClass(ss, tt, n - 1, L);
      PutCore(ss[n - 1], tt[n - 1], which, L, p.cur);
    }
  }

  lemma CoreSelf(s: Section)
    ensures SameCore(s, s)
  {}

  lemma FixedNone(ss: seq<Section>, n: nat, L: Setting, start: u64)
    requires n <= |ss| && L.isRel
    ensures FixedEndTo(ss, n, L, start) == start
  {
    hide Alloc, End;
    if n > 0 { FixedNone(ss, n - 1, L, start); }
  }

  /** Two images that lay out alike: sections that differ in place and
      bookkeeping, the latter of the first layout. */
  lemma LayoutAgain(im: Image, again: Image)
    requires IsRel(im) && im.segments == []
    requires again == im.(sections := again.sections, ehdr := LaidOut(im).ehdr)
    requires AllSame(LaidOut(im).sections, again.sections) && |LaidOut(im).sections| == |im.sections|
    ensures AllSame(LaidOut(im).sections, LaidOut(again).sections) && LaidOut(again).ehdr == LaidOut(im).ehdr
    ensures Total(again) == Total(im)
  {
    hide ClassOf, PlacedTo, AlignUp, Find, SameButFlags, SameCore, FixedEndTo;
    var ss, tt, L, n := im.sections, again.sections, SettingOf(im), |im.sections|;
    assert SettingOf(again) == L && HeadEnd(im) == EHDR_SIZE && HeadEnd(again) == EHDR_SIZE;
    LaidCore(im);
    CoreOfFlags(ss, MetaPart(im).ss, tt);
    FixedNone(ss, n, L, EHDR_SIZE);
    FixedNone(tt, n, L, EHDR_SIZE);
    PlacedCore(ss, tt, n, Fresh, L, FreshStart(im));
    assert FreshStart(again) == FreshStart(im) && FreshPart(again).cur == FreshPart(im).cur;
    var p, q := FreshPart(im), FreshPart(again);
    PlacedCore(p.ss, q.ss, n, Meta, L, MetaStart(im));
    assert MetaPart(again).cur == MetaPart(im).cur;
    CoreNames(ss, tt);
    assert SegmentsOut(im) == [] && SegmentsOut(again) == [];
    forall i | 0 <= i < n ensures SameButFlags(MetaPart(im).ss[i], MetaPart(again).ss[i]) {
      CoreClass(ss, p.ss, i, L);
      FlagsAlike(MetaPart(im).ss[i], tt[i]);
      PlaceSettled(MetaPart(im).ss[i], tt[i], MetaPart(again).ss[i]);
    }
  }

  lemma PlaceSettled(s: Section, t: Section, u: Section)
    requires SameButFlags(s, t) && SameCore(s, u) && u.offset == s.offset && u.addr == s.addr
    ensures SameButFlags(s, u)
  {}

  lemma CoreNames(ss: seq<Section>, tt: seq<Section>)
    requires AllCore(ss, tt)
    ensures IndexOf(tt, SHSTRTAB) == IndexOf(ss, SHSTRTAB)
  {
    hide SameCore, Find;
    forall i | 0 <= i < |ss| ensures tt[i].name == ss[i].name { CoreParts(ss[i], tt[i]); }
    FindSameNames(tt, ss, SHSTRTAB);
  }

  lemma CoreOfFlags(ss: seq<Section>, mid: seq<Section>, tt: seq<Section>)
    requires AllCore(ss, mid) && AllSame(mid, tt)
    ensures AllCore(ss, tt)
  {
    forall i | 0 <= i < |ss| ensures SameCore(ss[i], tt[i]) { assert SameCore(ss[i], mid[i]) && SameButFlags(mid[i], tt[i]); }
  }

  lemma LaidCore(im: Image)
    requires IsRel(im)
    ensures AllCore(im.sections, MetaPart(im).ss)
  {
    hide ClassOf, PlacedTo, AlignUp, SameCore, FixedEndTo;
    var ss, L, n := im.sections, SettingOf(im), |im.sections|;
    AllCoreSelf(ss);
    PlacedCore(ss, ss, n, Fresh, L, FreshStart(im));
    AllCoreSelf(FreshPart(im).ss);
    PlacedCore(FreshPart(im).ss, FreshPart(im).ss, n, Meta, L, MetaStart(im));
    AllCoreTrans(ss, FreshPart(im).ss, MetaPart(im).ss);
  }

  lemma AllCoreSelf(ss: seq<Section>)
    ensures AllCore(ss, ss)
  {}

  lemma AllCoreTrans(a: seq<Section>, b: seq<Section>, c: seq<Section>)
    requires AllCore(a, b) && AllCore(b, c)
    ensures AllCore(a, c)
  {
    forall i | 0 <= i < |a| ensures SameCore(a[i], c[i]) { assert SameCore(a[i], b[i]) && SameCore(b[i], c[i]); }
  }

  // --------------------------------------------------------- bytes a second time

  lemma SameHeader(s: Section, t: Section, i: nat, nameOff: nat)
    requires SameButFlags(s, t)
    ensures ShdrRow(t, i, nameOff) == ShdrRow(s, i, nameOff)
  {
    hide Pack;
    assert ShdrValues(t, nameOff) == ShdrValues(s, nameOff);
  }

  lemma {:induction false} SameShWrites(ss: seq<Section>, tt: seq<Section>, n: nat, at: nat)
    requires AllSame(ss, tt) && n <= |ss|
    ensures ShWrites(tt, n, at) == ShWrites(ss, n, at)
  {
    hide SameButFlags, ShdrRow;
    if n > 0 {
      SameShWrites(ss, tt, n - 1, at);
      SameSecNames(ss, tt);
      SameHeader(ss[n - 1], tt[n - 1], n - 1, NameOff(SecNames(ss), n - 1));
    }
  }

  lemma SameSecNames(ss: seq<Section>, tt: seq<Section>)
    requires AllSame(ss, tt)
    ensures SecNames(tt) == SecNames(ss)
  {
    hide SameButFlags;
    forall i | 0 <= i < |ss| ensures tt[i].name == ss[i].name { FlagsAlike(ss[i], tt[i]); }
  }

  lemma {:induction false} SameSecWrites(ss: seq<Section>, tt: seq<Section>, n: nat)
    requires AllSame(ss, tt) && n <= |ss|
    ensures SecWrites(tt, n) == SecWrites(ss, n)
  {
    hide SameButFlags;
    if n > 1 {
      SameSecWrites(ss, tt, n - 1);
      FlagsAlike(ss[n - 1], tt[n - 1]);
    }
  }

  lemma SameFile(im: Image, again: Image, total: nat)
    requires |im.ehdr.ident| == 16 && again.ehdr == im.ehdr && again.segments == im.segments
    requires AllSame(im.sections, again.sections)
    ensures FileOf(again, total) == FileOf(im, total)
  {
    hide AllSame, WriteAll, PhWrites, SecWrites, ShWrites, EhdrBytes;
    AllSameSize(im.sections, again.sections);
    SameSecWrites(im.sections, again.sections, |im.sections|);
    SameShWrites(im.sections, again.sections, |im.sections|, im.ehdr.shoff);
  }

  lemma AllSameSize(ss: seq<Section>, tt: seq<Section>)
    requires AllSame(ss, tt)
    ensures |tt| == |ss|
  {}
}
