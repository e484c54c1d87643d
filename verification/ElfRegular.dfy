/** Which images load back as they were built, and what the regeneration of
    their tables keeps. */
module ElfRegular {
  import opened Words
  import opened ElfStruct
  import opened ElfNames
  import opened ElfModel
  import opened ElfSort
  import opened ElfTables
  import opened ElfBuild

  /** The type a section of this name has by its role; none for other names. */
  function RoleType(name: Name): Option<u32> {
    if name == SYMTAB then Some(SHT_SYMTAB)
    else if name == DYNSYM then Some(SHT_DYNSYM)
    else if name == STRTAB || name == DYNSTR || name == SHSTRTAB then Some(SHT_STRTAB)
    else None
  }

  /** Type and kind agree, and the bytes are all there. */
  predicate SectionOk(s: Section) {
    && NameOk(s.name) && NameOk(s.relaTarget) && s.typ != SHT_DYNAMIC
    && (if s.typ == SHT_NOBITS then s.data == [] else |s.data| == s.size)
    && (s.typ == SHT_NULL ==> s.data == [])
    && (s.typ == SHT_RELA <==> s.kind == RelaKind)
    && (s.typ == SHT_SYMTAB <==> s.kind == SymTabKind)
    && (s.typ == SHT_DYNSYM <==> s.kind == DynSymKind)
    && (s.typ in {SHT_SYMTAB, SHT_DYNSYM} ==> s.entsize in {0, SYM_SIZE})
  }

  predicate IsRela(ss: seq<Section>, i: nat) { i < |ss| && ss[i].kind == RelaKind }

  /** Section i is the one its role wants: tables of symbols carry their usual
      names, and the usual names their usual types. */
  predicate RoleOk(ss: seq<Section>, i: nat)
    requires i < |ss|
  {
    && (ss[i].typ == SHT_SYMTAB ==> i == Find(ss, SYMTAB))
    && (ss[i].typ == SHT_DYNSYM ==> i == Find(ss, DYNSYM))
    && (RoleType(ss[i].name).Some? && i == Find(ss, ss[i].name) ==> Some(ss[i].typ) == RoleType(ss[i].name))
  }

  ghost predicate Regular(ss: seq<Section>) {
    && |ss| > 0 && ss[0].name == [] && ss[0].typ == SHT_NULL && ss[0].kind == Normal && ss[0].data == []
    && (forall i :: 1 <= i < |ss| ==> SectionOk(ss[i]))
    && (forall i :: 0 <= i < |ss| ==> RoleOk(ss, i))
    && (forall i: nat, j: nat :: i < j && IsRela(ss, i) && IsRela(ss, j) ==>
          ss[i].relaTarget != ss[j].relaTarget || ss[i].relaDynamic != ss[j].relaDynamic)
  }

  // --------------------------------------------------- putting a named section

  /** The section of this name, made when missing, becomes t. */
  function Put(ss: seq<Section>, blank: Section, t: Section): seq<Section> {
    var all := Ensured(ss, blank);
    all[Find(all, blank.name) := t]
  }

  lemma PutIndex(ss: seq<Section>, blank: Section, t: Section)
    requires t.name == blank.name
    ensures var i := Find(ss, blank.name);
            var r := Put(ss, blank, t);
            && |r| == (if Has(ss, blank.name) then |ss| else |ss| + 1)
            && i < |r| && r[i] == t && Find(r, blank.name) == i
            && (forall k :: 0 <= k < |ss| && k != i ==> r[k] == ss[k])
  {
    hide Find;
    var r, i := Put(ss, blank, t), Find(ss, blank.name);
    FindAppended(ss, blank, blank.name);
    FindUnique(r, blank.name, i);
  }

  lemma FindUnique(ss: seq<Section>, name: Name, i: nat)
    requires i < |ss| && ss[i].name == name && forall k :: 0 <= k < i ==> ss[k].name != name
    ensures Find(ss, name) == i
  {
    hide Find;
  }

  /** Other names are where they were, with what they were. */
  lemma PutOther(ss: seq<Section>, blank: Section, t: Section, other: Name)
    requires t.name == blank.name && other != blank.name
    ensures var r := Put(ss, blank, t);
            && (Has(r, other) <==> Has(ss, other))
            && (Has(ss, other) ==> Find(r, other) == Find(ss, other) && r[Find(r, other)] == ss[Find(ss, other)])
  {
    hide Put, Find;
    PutIndex(ss, blank, t);
    var r := Put(ss, blank, t);
    if Has(ss, other) { FindUnique(r, other, Find(ss, other)); }
    if Has(r, other) {
      var k := Find(r, other);
      assert k < |ss| && ss[k].name == other;
    }
  }

  lemma PutRegular(ss: seq<Section>, blank: Section, t: Section)
    requires Regular(ss) && t.name == blank.name && SectionOk(t) && t.kind != RelaKind
    requires RoleType(t.name) == Some(t.typ)
    ensures Regular(Put(ss, blank, t))
  {
    hide Put, Find, SectionOk;
    PutIndex(ss, blank, t);
    var r, at := Put(ss, blank, t), Find(ss, blank.name);
    assert at != 0;
    forall i | 0 <= i < |r| ensures RoleOk(r, i) {
      if i != at {
        assert RoleOk(ss, i);
        assert r[i] == ss[i];
        PutRole(ss, blank, t, i);
      }
    }
    forall i: nat, j: nat | i < j && IsRela(r, i) && IsRela(r, j)
      ensures r[i].relaTarget != r[j].relaTarget || r[i].relaDynamic != r[j].relaDynamic
    {
      assert IsRela(ss, i) && IsRela(ss, j);
    }
  }

  lemma PutRole(ss: seq<Section>, blank: Section, t: Section, i: nat)
    requires t.name == blank.name && RoleType(t.name) == Some(t.typ)
    requires i < |ss| && RoleOk(ss, i) && i != Find(ss, blank.name)
    ensures var r := Put(ss, blank, t); i < |r| && r[i] == ss[i] && RoleOk(r, i)
  {
    hide Put, Find;
    PutIndex(ss, blank, t);
    var r := Put(ss, blank, t);
    if SYMTAB != blank.name { PutOther(ss, blank, t, SYMTAB); }
    if DYNSYM != blank.name { PutOther(ss, blank, t, DYNSYM); }
    if ss[i].name != blank.name {
      PutOther(ss, blank, t, ss[i].name);
    }
  }

  // -------------------------------------------------------- the symbol sections

  lemma RoleNames()
    ensures |SYMTAB| > 0 && |STRTAB| > 0 && |DYNSYM| > 0 && |DYNSTR| > 0 && |SHSTRTAB| > 0
    ensures SYMTAB != STRTAB && SYMTAB != DYNSYM && SYMTAB != DYNSTR && SYMTAB != SHSTRTAB
    ensures STRTAB != DYNSYM && STRTAB != DYNSTR && STRTAB != SHSTRTAB
    ensures DYNSYM != DYNSTR && DYNSYM != SHSTRTAB && DYNSTR != SHSTRTAB
    ensures NamesOk([SYMTAB, STRTAB, DYNSYM, DYNSTR, SHSTRTAB])
  {
    assert SYMTAB[1] == 115 && STRTAB[1] == 115 && SHSTRTAB[1] == 115 && DYNSYM[1] == 100 && DYNSTR[1] == 100;
    assert SYMTAB[2] == 121 && STRTAB[2] == 116 && SHSTRTAB[2] == 104;
    assert DYNSYM[5] == 121 && DYNSTR[5] == 116;
  }

  lemma RoleNameOk(name: Name)
    requires RoleType(name).Some?
    ensures NameOk(name)
  {
    RoleNames();
    var all := [SYMTAB, STRTAB, DYNSYM, DYNSTR, SHSTRTAB];
    assert all[0] == SYMTAB && all[1] == STRTAB && all[2] == DYNSYM && all[3] == DYNSTR && all[4] == SHSTRTAB;
  }

  /** A table section with new bytes is as it should be. */
  lemma TableOk(s: Section, bytes: seq<byte>)
    requires NameOk(s.name) && NameOk(s.relaTarget) && |bytes| < TWO64
    requires s.typ in {SHT_SYMTAB, SHT_DYNSYM, SHT_STRTAB, SHT_RELA}
    requires (s.typ == SHT_RELA <==> s.kind == RelaKind) && (s.typ == SHT_SYMTAB <==> s.kind == SymTabKind)
             && (s.typ == SHT_DYNSYM <==> s.kind == DynSymKind)
    requires s.typ in {SHT_SYMTAB, SHT_DYNSYM} ==> s.entsize in {0, SYM_SIZE}
    ensures SectionOk(Updated(s, bytes)) && Updated(s, bytes).data == bytes
    ensures Updated(s, bytes).name == s.name && Updated(s, bytes).typ == s.typ && Updated(s, bytes).kind == s.kind
    ensures Updated(s, bytes).entsize == s.entsize && Updated(s, bytes).link == s.link && Updated(s, bytes).info == s.info
  {}

  /** What the sections say about one table of symbols. */
  ghost predicate SymFact(ss: seq<Section>, syms: seq<Symbol>, dynamic: bool) {
    var name := SymSectionName(dynamic);
    && (|syms| > 1 ==> Has(ss, name))
    && (Has(ss, name) ==>
        var s := ss[Find(ss, name)];
        && s.data == (if |syms| <= 1 then Zeros(SYM_SIZE) else SymBytes(syms))
        && (|syms| > 1 ==> s.entsize == SYM_SIZE && s.info == FirstGlobal(syms) % TWO32))
  }

  ghost predicate StrFact(ss: seq<Section>, syms: seq<Symbol>, dynamic: bool) {
    var name := StrSectionName(dynamic);
    && (|syms| > 1 ==> Has(ss, name))
    && (Has(ss, name) ==>
        var s := ss[Find(ss, name)];
        && s.data == (if |syms| <= 1 then [0] else StrBytes(syms))
        && (|syms| > 1 ==> s.entsize == 0 && s.kind == StrKind(dynamic)))
  }

  lemma SymTabIsPut(ss: seq<Section>, syms: seq<Symbol>, dynamic: bool) returns (blank: Section, t: Section)
    requires Regular(ss) && (|syms| > 1 || Has(ss, SymSectionName(dynamic))) && |syms| < TWO32
    ensures blank.name == SymSectionName(dynamic) && WithSymTab(ss, syms, dynamic) == Put(ss, blank, t)
    ensures t.name == blank.name && SectionOk(t) && t.typ == SymType(dynamic) && t.kind != RelaKind
    ensures t.data == if |syms| <= 1 then Zeros(SYM_SIZE) else SymBytes(syms)
    ensures |syms| > 1 ==> t.entsize == SYM_SIZE && t.info == FirstGlobal(syms) % TWO32
  {
    hide Find, SymBytes, Updated, SectionOk;
    RoleNames();
    var name := SymSectionName(dynamic);
    RoleNameOk(name);
    blank := NewTable(name, SymType(dynamic), dynamic, 8);
    var i := Find(ss, name);
    assert Has(ss, name) ==> RoleOk(ss, i) && i != 0 && SectionOk(ss[i]);
    var all := Ensured(ss, blank);
    FindAppended(ss, blank, name);
    var s := all[Find(all, name)];
    EnsuredName(ss, blank);
    assert NameOk(s.relaTarget) by { NewOrOk(ss, blank, s); }
    if |syms| <= 1 {
      t := Updated(s, Zeros(SYM_SIZE));
      NewOrTable(s);
      TableOk(s, Zeros(SYM_SIZE));
    } else {
      t := SymTabOf(s, syms, dynamic);
      TableOk(s.(typ := SymType(dynamic), entsize := SYM_SIZE, kind := SymKind(dynamic), info := FirstGlobal(syms) % TWO32),
              SymBytes(syms));
    }
  }

  lemma EnsuredName(ss: seq<Section>, blank: Section)
    ensures var all := Ensured(ss, blank);
            Find(all, blank.name) == Find(ss, blank.name) < |all|
            && all[Find(all, blank.name)] == (if Has(ss, blank.name) then ss[Find(ss, blank.name)] else blank)
            && all[Find(all, blank.name)].name == blank.name
  {
    hide Find;
    FindAppended(ss, blank, blank.name);
  }

  lemma NewOrOk(ss: seq<Section>, blank: Section, s: Section)
    requires s == blank || SectionOk(s)
    requires blank.relaTarget == []
    ensures NameOk(s.relaTarget)
  {}

  lemma NewOrTable(s: Section)
    requires SectionOk(s)
    ensures NameOk(s.name) && NameOk(s.relaTarget)
    ensures (s.typ == SHT_RELA <==> s.kind == RelaKind) && (s.typ == SHT_SYMTAB <==> s.kind == SymTabKind)
            && (s.typ == SHT_DYNSYM <==> s.kind == DynSymKind)
    ensures s.typ in {SHT_SYMTAB, SHT_DYNSYM} ==> s.entsize in {0, SYM_SIZE}
  {}

  lemma StrTabIsPut(ss: seq<Section>, syms: seq<Symbol>, dynamic: bool) returns (blank: Section, t: Section)
    requires Regular(ss) && (|syms| > 1 || Has(ss, StrSectionName(dynamic))) && |StrBytes(syms)| < TWO32
    ensures blank.name == StrSectionName(dynamic) && WithStrTab(ss, syms, dynamic) == Put(ss, blank, t)
    ensures t.name == blank.name && SectionOk(t) && t.typ == SHT_STRTAB && t.kind != RelaKind
    ensures t.data == if |syms| <= 1 then [0] else StrBytes(syms)
    ensures |syms| > 1 ==> t.entsize == 0 && t.kind == StrKind(dynamic)
  {
    hide Find, StrBytes, Updated, SectionOk;
    RoleNames();
    var name := StrSectionName(dynamic);
    RoleNameOk(name);
    blank := NewTable(name, SHT_STRTAB, dynamic, 1);
    var i := Find(ss, name);
    assert Has(ss, name) ==> RoleOk(ss, i) && i != 0 && SectionOk(ss[i]);
    var all := Ensured(ss, blank);
    EnsuredName(ss, blank);
    var s := all[Find(all, name)];
    NewOrOk(ss, blank, s);
    if |syms| <= 1 {
      t := Updated(s, [0]);
      NewOrTable(s);
      TableOk(s, [0]);
    } else {
      t := StrTabOf(s, syms, dynamic);
      TableOk(s.(typ := SHT_STRTAB, entsize := 0, kind := StrKind(dynamic)), StrBytes(syms));
    }
  }

  /** Facts about a table survive putting a section of another name. */
  lemma FactsKept(ss: seq<Section>, blank: Section, t: Section, syms: seq<Symbol>, dynamic: bool)
    requires t.name == blank.name
    ensures SymFact(ss, syms, dynamic) && blank.name != SymSectionName(dynamic) ==> SymFact(Put(ss, blank, t), syms, dynamic)
    ensures StrFact(ss, syms, dynamic) && blank.name != StrSectionName(dynamic) ==> StrFact(Put(ss, blank, t), syms, dynamic)
  {
    hide Find, SymBytes, StrBytes, Put;
    if blank.name != SymSectionName(dynamic) { PutOther(ss, blank, t, SymSectionName(dynamic)); }
    if blank.name != StrSectionName(dynamic) { PutOther(ss, blank, t, StrSectionName(dynamic)); }
  }

  /** Symbol and string table of one kind: what becomes of the sections. */
  lemma TableStep(ss: seq<Section>, syms: seq<Symbol>, dynamic: bool, others: seq<Symbol>)
    requires Regular(ss) && |syms| < TWO32 && |StrBytes(syms)| < TWO32
    ensures var r := WithStrTab(WithSymTab(ss, syms, dynamic), syms, dynamic);
            && Regular(r) && SymFact(r, syms, dynamic) && StrFact(r, syms, dynamic)
            && (SymFact(ss, others, !dynamic) && StrFact(ss, others, !dynamic) ==>
                SymFact(r, others, !dynamic) && StrFact(r, others, !dynamic))
  {
    hide Find, SymBytes, StrBytes, Put, Regular, SectionOk, WithSymTab, WithStrTab, SymFact, StrFact;
    RoleNames();
    var mid := WithSymTab(ss, syms, dynamic);
    if |syms| > 1 || Has(ss, SymSectionName(dynamic)) {
      var blank, t := SymTabIsPut(ss, syms, dynamic);
      PutRegular(ss, blank, t);
      FactsKept(ss, blank, t, others, !dynamic);
      PutIndex(ss, blank, t);
      PutSymFact(ss, blank, t, syms, dynamic);
    } else {
      NoSymTab(ss, syms, dynamic);
    }
    assert Regular(mid) && SymFact(mid, syms, dynamic);
    if |syms| > 1 || Has(mid, StrSectionName(dynamic)) {
      var blank, t := StrTabIsPut(mid, syms, dynamic);
      PutRegular(mid, blank, t);
      FactsKept(mid, blank, t, others, !dynamic);
      FactsKept(mid, blank, t, syms, dynamic);
      PutIndex(mid, blank, t);
      PutStrFact(mid, blank, t, syms, dynamic);
    } else {
      NoStrTab(mid, syms, dynamic);
    }
  }

  lemma PutSymFact(ss: seq<Section>, blank: Section, t: Section, syms: seq<Symbol>, dynamic: bool)
    requires t.name == blank.name == SymSectionName(dynamic)
    requires t.data == if |syms| <= 1 then Zeros(SYM_SIZE) else SymBytes(syms)
    requires |syms| > 1 ==> t.entsize == SYM_SIZE && t.info == FirstGlobal(syms) % TWO32
    ensures SymFact(Put(ss, blank, t), syms, dynamic)
  {
    hide Find, SymBytes, Put;
    PutIndex(ss, blank, t);
  }

  lemma PutStrFact(ss: seq<Section>, blank: Section, t: Section, syms: seq<Symbol>, dynamic: bool)
    requires t.name == blank.name == StrSectionName(dynamic)
    requires t.data == if |syms| <= 1 then [0] else StrBytes(syms)
    requires |syms| > 1 ==> t.entsize == 0 && t.kind == StrKind(dynamic)
    ensures StrFact(Put(ss, blank, t), syms, dynamic)
  {
    hide Find, StrBytes, Put;
    PutIndex(ss, blank, t);
  }

  lemma NoSymTab(ss: seq<Section>, syms: seq<Symbol>, dynamic: bool)
    requires |syms| <= 1 && !Has(ss, SymSectionName(dynamic))
    ensures WithSymTab(ss, syms, dynamic) == ss && SymFact(ss, syms, dynamic)
  {
    hide Find;
  }

  lemma NoStrTab(ss: seq<Section>, syms: seq<Symbol>, dynamic: bool)
    requires |syms| <= 1 && !Has(ss, StrSectionName(dynamic))
    ensures WithStrTab(ss, syms, dynamic) == ss && StrFact(ss, syms, dynamic)
  {
    hide Find;
  }

  // -------------------------------------------------------- relocation sections

  predicate SameNames(a: seq<Section>, b: seq<Section>) {
    |a| == |b| && forall i :: 0 <= i < |a| ==> a[i].name == b[i].name
  }

  lemma FindsSame(a: seq<Section>, b: seq<Section>)
    requires SameNames(a, b)
    ensures forall name :: Find(a, name) == Find(b, name)
  {
    forall name ensures Find(a, name) == Find(b, name) { FindSameNames(a, b, name); }
  }

  lemma {:induction false} GroupSize(rs: seq<Reloc>, s: Section)
    ensures |Group(rs, s)| <= |rs|
  {
    hide Matches;
    if rs != [] { GroupSize(rs[..|rs| - 1], s); }
  }

  lemma RelaFilled(s: Section, rs: seq<Reloc>)
    requires SectionOk(s) && s.kind == RelaKind && |rs| < TWO32
    ensures var r := RelaOf(s, rs);
            && SectionOk(r) && r.name == s.name && r.typ == s.typ && r.kind == RelaKind && r.entsize == RELA_SIZE
            && r.relaTarget == s.relaTarget && r.relaDynamic == s.relaDynamic && r.data == RelaBytes(rs, s)
  {
    hide Group, RelaRow, Rows, Updated;
    GroupSize(rs, s);
    RowsSize(RelaRows(Group(rs, s)), RELA_SIZE);
    TableOk(s.(entsize := RELA_SIZE), RelaBytes(rs, s));
    UpdatedKeeps(s.(entsize := RELA_SIZE), RelaBytes(rs, s));
  }

  lemma UpdatedKeeps(s: Section, bytes: seq<byte>)
    ensures Updated(s, bytes).relaTarget == s.relaTarget && Updated(s, bytes).relaDynamic == s.relaDynamic
  {}

  /** Changed in ways that do not matter to names, types, kinds and groups. */
  predicate Alike(s: Section, t: Section) {
    && t.name == s.name && t.typ == s.typ && t.kind == s.kind
    && t.relaTarget == s.relaTarget && t.relaDynamic == s.relaDynamic && (SectionOk(s) ==> SectionOk(t))
  }

  lemma AlikeRegular(ss: seq<Section>, tt: seq<Section>)
    requires Regular(ss) && |tt| == |ss| && tt[0] == ss[0]
    requires forall i :: 0 <= i < |ss| ==> Alike(ss[i], tt[i])
    ensures Regular(tt)
  {
    hide Find, SectionOk;
    FindsSame(ss, tt);
    forall i | 0 <= i < |tt| ensures RoleOk(tt, i) { assert RoleOk(ss, i) && Alike(ss[i], tt[i]); }
    forall i | 1 <= i < |tt| ensures SectionOk(tt[i]) { assert SectionOk(ss[i]) && Alike(ss[i], tt[i]); }
    forall i: nat, j: nat | i < j && IsRela(tt, i) && IsRela(tt, j)
      ensures tt[i].relaTarget != tt[j].relaTarget || tt[i].relaDynamic != tt[j].relaDynamic
    {
      assert Alike(ss[i], tt[i]) && Alike(ss[j], tt[j]);
      assert IsRela(ss, i) && IsRela(ss, j);
    }
  }

  /** Sections with a role are no relocation sections. */
  lemma RoleNotRela(ss: seq<Section>, name: Name)
    requires Regular(ss) && RoleType(name).Some? && Has(ss, name)
    ensures Find(ss, name) > 0 && ss[Find(ss, name)].kind != RelaKind && ss[Find(ss, name)].typ == RoleType(name).value
  {
    hide Find;
    RoleNames();
    assert RoleOk(ss, Find(ss, name)) && SectionOk(ss[Find(ss, name)]);
  }

  lemma RefillRegular(ss: seq<Section>, rs: seq<Reloc>)
    requires Regular(ss) && |rs| < TWO32
    ensures Regular(Refilled(ss, rs)) && SameNames(ss, Refilled(ss, rs))
  {
    hide RelaOf, SectionOk;
    var tt := Refilled(ss, rs);
    forall i | 0 <= i < |ss| ensures Alike(ss[i], tt[i]) {
      if ss[i].kind == RelaKind { RelaFilled(ss[i], rs); }
    }
    AlikeRegular(ss, tt);
  }

  lemma RefillKeeps(ss: seq<Section>, rs: seq<Reloc>, syms: seq<Symbol>, dynamic: bool)
    requires Regular(ss) && |rs| < TWO32
    ensures SymFact(ss, syms, dynamic) ==> SymFact(Refilled(ss, rs), syms, dynamic)
    ensures StrFact(ss, syms, dynamic) ==> StrFact(Refilled(ss, rs), syms, dynamic)
  {
    hide RelaOf, SectionOk, Find, SymBytes, StrBytes, Regular;
    RefillRegular(ss, rs);
    FindsSame(ss, Refilled(ss, rs));
    if Has(ss, SymSectionName(dynamic)) { RoleNotRela(ss, SymSectionName(dynamic)); }
    if Has(ss, StrSectionName(dynamic)) { RoleNotRela(ss, StrSectionName(dynamic)); }
  }

  lemma RelaNameFacts(target: Name, dynamic: bool)
    requires NameOk(target)
    ensures NameOk(RelaName(target, dynamic)) && RoleType(RelaName(target, dynamic)).None?
  {
    var n := RelaName(target, dynamic);
    assert |n| > 1 && n[1] == 114;
    RoleNames();
    assert SYMTAB[1] == 115 && STRTAB[1] == 115 && SHSTRTAB[1] == 115 && DYNSYM[1] == 100 && DYNSTR[1] == 100;
  }

  /** A relocation section for a new group at the end. */
  lemma AppendRela(ss: seq<Section>, r: Reloc)
    requires Regular(ss) && NameOk(r.target)
    ensures Regular(WithRela(ss, r)) && HasRela(WithRela(ss, r), r.target, r.dynamic)
    ensures |WithRela(ss, r)| >= |ss| && forall i :: 0 <= i < |ss| ==> WithRela(ss, r)[i] == ss[i]
    ensures forall name :: RoleType(name).Some? ==> (Has(WithRela(ss, r), name) <==> Has(ss, name))
    ensures forall name :: Has(ss, name) ==> Find(WithRela(ss, r), name) == Find(ss, name)
  {
    hide Find, SectionOk;
    if !HasRela(ss, r.target, r.dynamic) {
      var s := NewRela(r.target, r.dynamic);
      NewRelaOk(r.target, r.dynamic);
      var all := ss + [s];
      forall name
        ensures Has(ss, name) ==> Find(all, name) == Find(ss, name)
        ensures RoleType(name).Some? ==> (Has(all, name) <==> Has(ss, name))
      {
        FindAppended(ss, s, name);
      }
      forall i | 0 <= i < |all| ensures RoleOk(all, i) {
        if i < |ss| {
          assert RoleOk(ss, i);
          FindAppended(ss, s, SYMTAB);
          FindAppended(ss, s, DYNSYM);
          FindAppended(ss, s, ss[i].name);
        }
      }
      forall i: nat, j: nat | i < j && IsRela(all, i) && IsRela(all, j)
        ensures all[i].relaTarget != all[j].relaTarget || all[i].relaDynamic != all[j].relaDynamic
      {
        if j < |ss| { assert IsRela(ss, i) && IsRela(ss, j); }
      }
      assert all[|ss|].kind == RelaKind;
    }
  }

  lemma NewRelaOk(target: Name, dynamic: bool)
    requires NameOk(target)
    ensures var s := NewRela(target, dynamic);
            && SectionOk(s) && s.kind == RelaKind && s.typ == SHT_RELA && RoleType(s.name).None?
            && s.relaTarget == target && s.relaDynamic == dynamic
  {
    RelaNameFacts(target, dynamic);
  }

  lemma {:induction false} AppendRelas(ss: seq<Section>, rs: seq<Reloc>)
    requires Regular(ss) && forall i :: 0 <= i < |rs| ==> NameOk(rs[i].target)
    ensures var tt := WithRelas(ss, rs);
            && Regular(tt) && (forall i :: 0 <= i < |rs| ==> HasRela(tt, rs[i].target, rs[i].dynamic))
            && |tt| >= |ss| && (forall i :: 0 <= i < |ss| ==> tt[i] == ss[i])
            && (forall name :: RoleType(name).Some? ==> (Has(tt, name) <==> Has(ss, name)))
            && (forall name :: Has(ss, name) ==> Find(tt, name) == Find(ss, name))
    decreases |rs|
  {
    hide Find, Regular, RoleType, WithRela, NameOk;
    if rs != [] {
      var most, r := rs[..|rs| - 1], rs[|rs| - 1];
      AppendRelas(ss, most);
      var tt := WithRelas(ss, most);
      AppendRela(tt, r);
      forall i | 0 <= i < |rs| ensures HasRela(WithRela(tt, r), rs[i].target, rs[i].dynamic) {
        if i < |most| {
          assert HasRela(tt, most[i].target, most[i].dynamic);
          HasRelaGrows(tt, WithRela(tt, r), most[i].target, most[i].dynamic);
        }
      }
    }
  }

  lemma HasRelaGrows(ss: seq<Section>, tt: seq<Section>, target: Name, dynamic: bool)
    requires HasRela(ss, target, dynamic) && |ss| <= |tt| && forall i :: 0 <= i < |ss| ==> tt[i] == ss[i]
    ensures HasRela(tt, target, dynamic)
  {
    var i :| 0 <= i < |ss| && ss[i].kind == RelaKind && ss[i].relaDynamic == dynamic && ss[i].relaTarget == target;
    assert tt[i] == ss[i];
  }

  lemma AppendKeeps(ss: seq<Section>, rs: seq<Reloc>, syms: seq<Symbol>, dynamic: bool)
    requires Regular(ss) && forall i :: 0 <= i < |rs| ==> NameOk(rs[i].target)
    ensures SymFact(ss, syms, dynamic) ==> SymFact(WithRelas(ss, rs), syms, dynamic)
    ensures StrFact(ss, syms, dynamic) ==> StrFact(WithRelas(ss, rs), syms, dynamic)
  {
    hide Find, SymBytes, StrBytes, Regular, WithRelas;
    AppendRelas(ss, rs);
    assert RoleType(SymSectionName(dynamic)).Some? && RoleType(StrSectionName(dynamic)).Some?;
  }

  /** Every relocation section holds the relocations of its group. */
  ghost predicate RelaFact(ss: seq<Section>, rs: seq<Reloc>) {
    && (forall i :: 0 <= i < |ss| && ss[i].kind == RelaKind ==> ss[i].data == RelaBytes(rs, ss[i]) && ss[i].entsize == RELA_SIZE)
    && (forall i :: 0 <= i < |rs| ==> HasRela(ss, rs[i].target, rs[i].dynamic))
  }

  lemma {:induction false} GroupAlike(rs: seq<Reloc>, s: Section, t: Section)
    requires t.relaTarget == s.relaTarget && t.relaDynamic == s.relaDynamic
    ensures Group(rs, t) == Group(rs, s) && RelaBytes(rs, t) == RelaBytes(rs, s)
  {
    if rs != [] { GroupAlike(rs[..|rs| - 1], s, t); }
  }

  lemma RelasStep(ss: seq<Section>, rs: seq<Reloc>, syms: seq<Symbol>, dynsyms: seq<Symbol>)
    requires Regular(ss) && |rs| < TWO32 && forall i :: 0 <= i < |rs| ==> NameOk(rs[i].target)
    requires SymFact(ss, syms, false) && StrFact(ss, syms, false) && SymFact(ss, dynsyms, true) && StrFact(ss, dynsyms, true)
    ensures var tt := RelasRebuilt(ss, rs);
            && Regular(tt) && RelaFact(tt, rs)
            && SymFact(tt, syms, false) && StrFact(tt, syms, false) && SymFact(tt, dynsyms, true) && StrFact(tt, dynsyms, true)
  {
    hide Find, Regular, RelaOf, HasRela, WithRelas, SymFact, StrFact, NameOk;
    RefillRegular(ss, rs);
    RefillKeeps(ss, rs, syms, false);
    RefillKeeps(ss, rs, dynsyms, true);
    var a := Refilled(ss, rs);
    AppendRelas(a, rs);
    AppendKeeps(a, rs, syms, false);
    AppendKeeps(a, rs, dynsyms, true);
    var b := WithRelas(a, rs);
    RefillRegular(b, rs);
    RefillKeeps(b, rs, syms, false);
    RefillKeeps(b, rs, dynsyms, true);
    RefillFact(b, rs);
  }

  lemma RefillFact(ss: seq<Section>, rs: seq<Reloc>)
    requires Regular(ss) && |rs| < TWO32 && forall i :: 0 <= i < |rs| ==> HasRela(ss, rs[i].target, rs[i].dynamic)
    ensures RelaFact(Refilled(ss, rs), rs)
  {
    hide Find, RelaOf, SectionOk, Group, Rows;
    var tt := Refilled(ss, rs);
    forall i | 0 <= i < |tt| && tt[i].kind == RelaKind
      ensures tt[i].data == RelaBytes(rs, tt[i]) && tt[i].entsize == RELA_SIZE
    {
      if ss[i].kind == RelaKind {
        RelaFilled(ss[i], rs);
        GroupAlike(rs, ss[i], tt[i]);
      }
    }
    forall i | 0 <= i < |rs| ensures HasRela(tt, rs[i].target, rs[i].dynamic) {
      var k :| 0 <= k < |ss| && ss[k].kind == RelaKind && ss[k].relaDynamic == rs[i].dynamic && ss[k].relaTarget == rs[i].target;
      RelaFilled(ss[k], rs);
      assert tt[k].kind == RelaKind;
    }
  }

  // ------------------------------------------------------------ names and links

  ghost predicate ShFact(ss: seq<Section>) {
    && Has(ss, SHSTRTAB)
    && var s := ss[Find(ss, SHSTRTAB)];
    s.data == StrTab(SecNames(ss)) && s.entsize == 0 && s.kind == ShStrTabKind
  }

  lemma ShStrTabIsPut(ss: seq<Section>) returns (blank: Section, t: Section)
    requires Regular(ss) && |StrTab(SecNames(WithShStrTab(ss)))| < TWO32
    ensures blank.name == SHSTRTAB && WithShStrTab(ss) == Put(ss, blank, t)
    ensures t.name == SHSTRTAB && SectionOk(t) && t.typ == SHT_STRTAB && t.kind != RelaKind
    ensures t.data == StrTab(SecNames(WithShStrTab(ss))) && t.entsize == 0 && t.kind == ShStrTabKind
  {
    hide Find, Updated, SectionOk;
    RoleNames();
    RoleNameOk(SHSTRTAB);
    blank := NewTable(SHSTRTAB, SHT_STRTAB, false, 1);
    assert Has(ss, SHSTRTAB) ==> RoleOk(ss, Find(ss, SHSTRTAB)) && Find(ss, SHSTRTAB) != 0 && SectionOk(ss[Find(ss, SHSTRTAB)]);
    var all := Ensured(ss, blank);
    EnsuredName(ss, blank);
    var s := all[Find(all, SHSTRTAB)];
    NewOrOk(ss, blank, s);
    var bytes := StrTab(SecNames(all));
    t := Updated(s.(kind := ShStrTabKind, typ := SHT_STRTAB, entsize := 0), bytes);
    assert SecNames(WithShStrTab(ss)) == SecNames(all);
    TableOk(s.(kind := ShStrTabKind, typ := SHT_STRTAB, entsize := 0), bytes);
  }

  lemma ShStep(ss: seq<Section>, rs: seq<Reloc>, syms: seq<Symbol>, dynsyms: seq<Symbol>)
    requires Regular(ss) && RelaFact(ss, rs) && |StrTab(SecNames(WithShStrTab(ss)))| < TWO32
    requires SymFact(ss, syms, false) && StrFact(ss, syms, false) && SymFact(ss, dynsyms, true) && StrFact(ss, dynsyms, true)
    ensures var tt := WithShStrTab(ss);
            && Regular(tt) && RelaFact(tt, rs) && ShFact(tt)
            && SymFact(tt, syms, false) && StrFact(tt, syms, false) && SymFact(tt, dynsyms, true) && StrFact(tt, dynsyms, true)
  {
    hide Find, Regular, SymFact, StrFact, Put, StrTab, SectionOk, RelaFact;
    RoleNames();
    var blank, t := ShStrTabIsPut(ss);
    PutRegular(ss, blank, t);
    FactsKept(ss, blank, t, syms, false);
    FactsKept(ss, blank, t, dynsyms, true);
    PutIndex(ss, blank, t);
    PutRelaFact(ss, blank, t, rs);
  }

  lemma PutRelaFact(ss: seq<Section>, blank: Section, t: Section, rs: seq<Reloc>)
    requires Regular(ss) && RelaFact(ss, rs) && t.name == blank.name && t.kind != RelaKind && RoleType(t.name).Some?
    ensures RelaFact(Put(ss, blank, t), rs)
  {
    hide Find, Regular, Put, RelaBytes, RoleType;
    PutIndex(ss, blank, t);
    if Has(ss, t.name) { RoleNotRela(ss, t.name); }
    var r := Put(ss, blank, t);
    forall i | 0 <= i < |rs| ensures HasRela(r, rs[i].target, rs[i].dynamic) {
      assert HasRela(ss, rs[i].target, rs[i].dynamic);
      var k :| 0 <= k < |ss| && ss[k].kind == RelaKind && ss[k].relaDynamic == rs[i].dynamic && ss[k].relaTarget == rs[i].target;
      assert r[k] == ss[k];
    }
  }

  ghost predicate LinkFact(ss: seq<Section>) {
    forall i :: 0 <= i < |ss| ==> ss[i] == LinkedIn(ss[i], ss)
  }

  lemma LinkAlike(s: Section, ss: seq<Section>)
    ensures Alike(s, LinkedIn(s, ss))
    ensures LinkedIn(s, ss).data == s.data && LinkedIn(s, ss).entsize == s.entsize
    ensures s.kind != RelaKind ==> LinkedIn(s, ss).info == s.info
    ensures s.kind == Normal ==> LinkedIn(s, ss) == s
  {
    hide Find;
  }

  lemma LinkStep(ss: seq<Section>, rs: seq<Reloc>, syms: seq<Symbol>, dynsyms: seq<Symbol>)
    requires Regular(ss) && RelaFact(ss, rs) && ShFact(ss)
    requires SymFact(ss, syms, false) && StrFact(ss, syms, false) && SymFact(ss, dynsyms, true) && StrFact(ss, dynsyms, true)
    ensures var tt := Linked(ss);
            && Regular(tt) && RelaFact(tt, rs) && ShFact(tt) && LinkFact(tt)
            && SymFact(tt, syms, false) && StrFact(tt, syms, false) && SymFact(tt, dynsyms, true) && StrFact(tt, dynsyms, true)
  {
    hide Find, LinkedIn, SectionOk, RelaBytes, SymBytes, StrBytes, StrTab;
    var tt := Linked(ss);
    forall i | 0 <= i < |ss| ensures Alike(ss[i], tt[i]) { LinkAlike(ss[i], ss); }
    LinkAlike(ss[0], ss);
    AlikeRegular(ss, tt);
    FindsSame(ss, tt);
    LinkKeeps(ss, syms, false);
    LinkKeeps(ss, dynsyms, true);
    LinkAgain(ss);
    LinkRela(ss, rs);
    assert SecNames(tt) == SecNames(ss);
    LinkAlike(ss[Find(ss, SHSTRTAB)], ss);
  }

  lemma LinkKeeps(ss: seq<Section>, syms: seq<Symbol>, dynamic: bool)
    requires Regular(ss) && SymFact(ss, syms, dynamic) && StrFact(ss, syms, dynamic)
    ensures SymFact(Linked(ss), syms, dynamic) && StrFact(Linked(ss), syms, dynamic)
  {
    hide Find, LinkedIn, SectionOk, SymBytes, StrBytes, Regular;
    var tt := Linked(ss);
    forall i | 0 <= i < |ss| ensures tt[i].name == ss[i].name { LinkAlike(ss[i], ss); }
    FindsSame(ss, tt);
    if Has(ss, SymSectionName(dynamic)) {
      RoleNotRela(ss, SymSectionName(dynamic));
      LinkAlike(ss[Find(ss, SymSectionName(dynamic))], ss);
    }
    if Has(ss, StrSectionName(dynamic)) { LinkAlike(ss[Find(ss, StrSectionName(dynamic))], ss); }
  }

  lemma LinkAgain(ss: seq<Section>)
    ensures LinkFact(Linked(ss))
  {
    hide Find;
    var tt := Linked(ss);
    forall i | 0 <= i < |ss| ensures tt[i].name == ss[i].name { LinkAlike(ss[i], ss); }
    FindsSame(ss, tt);
    assert forall name :: IndexOf(tt, name) == IndexOf(ss, name);
    hide IndexOf, LinkedIn;
    forall i | 0 <= i < |tt| ensures tt[i] == LinkedIn(tt[i], tt) { LinkTwice(ss[i], ss, tt); }
  }

  lemma LinkTwice(s: Section, ss: seq<Section>, tt: seq<Section>)
    requires forall name :: IndexOf(tt, name) == IndexOf(ss, name)
    ensures LinkedIn(LinkedIn(s, ss), tt) == LinkedIn(s, ss)
  {
    hide IndexOf;
  }

  lemma LinkRela(ss: seq<Section>, rs: seq<Reloc>)
    requires RelaFact(ss, rs)
    ensures RelaFact(Linked(ss), rs)
  {
    hide Find, LinkedIn, SectionOk, Group, Rows;
    var tt := Linked(ss);
    forall i | 0 <= i < |tt| && tt[i].kind == RelaKind
      ensures tt[i].data == RelaBytes(rs, tt[i]) && tt[i].entsize == RELA_SIZE
    {
      LinkAlike(ss[i], ss);
      GroupAlike(rs, ss[i], tt[i]);
    }
    forall i | 0 <= i < |rs| ensures HasRela(tt, rs[i].target, rs[i].dynamic) {
      assert HasRela(ss, rs[i].target, rs[i].dynamic);
      var k :| 0 <= k < |ss| && ss[k].kind == RelaKind && ss[k].relaDynamic == rs[i].dynamic && ss[k].relaTarget == rs[i].target;
      LinkAlike(ss[k], ss);
      assert tt[k].kind == RelaKind;
    }
  }

  // ------------------------------------------------------------------- the whole

  /** No table outgrows its 32-bit fields. */
  ghost predicate Small(im: Image) {
    && |im.symbols| < TWO32 && |im.dynsymbols| < TWO32 && |im.relocs| < TWO32
    && |StrBytes(Sorted(im.symbols))| < TWO32 && |StrBytes(Sorted(im.dynsymbols))| < TWO32
    && |StrTab(SecNames(FinalSections(im)))| < TWO32
  }

  /** What the regenerated sections say, all together. */
  ghost predicate Facts(ss: seq<Section>, syms: seq<Symbol>, dynsyms: seq<Symbol>, rs: seq<Reloc>) {
    && Regular(ss) && ShFact(ss) && LinkFact(ss) && RelaFact(ss, rs)
    && SymFact(ss, syms, false) && StrFact(ss, syms, false) && SymFact(ss, dynsyms, true) && StrFact(ss, dynsyms, true)
  }

  predicate TargetsOk(rs: seq<Reloc>) { forall i :: 0 <= i < |rs| ==> NameOk(rs[i].target) }

  lemma FinalTargets(im: Image)
    ensures |FinalRelocs(im)| == |im.relocs|
    ensures forall i :: 0 <= i < |im.relocs| ==>
              FinalRelocs(im)[i].target == im.relocs[i].target && FinalRelocs(im)[i].dynamic == im.relocs[i].dynamic
  {
    hide Order, Place;
  }

  lemma FinalFacts(im: Image)
    requires Regular(im.sections) && Small(im) && TargetsOk(im.relocs)
    ensures Facts(FinalSections(im), Sorted(im.symbols), Sorted(im.dynsymbols), FinalRelocs(im))
  {
    hide Regular, SymFact, StrFact, RelaFact, ShFact, LinkFact, Sorted, AllMoved, WithSymTab, WithStrTab, RelasRebuilt,
         WithShStrTab, Linked, StrBytes, StrTab, NameOk, FinalRelocs;
    var syms, dynsyms, rs := Sorted(im.symbols), Sorted(im.dynsymbols), FinalRelocs(im);
    FinalTargets(im);
    TableStep(im.sections, syms, false, dynsyms);
    var a := WithStrTab(WithSymTab(im.sections, syms, false), syms, false);
    TableStep(a, dynsyms, true, syms);
    RelasStep(SymbolSections(im), rs, syms, dynsyms);
    var c := RelasRebuilt(SymbolSections(im), rs);
    LinkedNames(WithShStrTab(c));
    ShStep(c, rs, syms, dynsyms);
    LinkStep(WithShStrTab(c), rs, syms, dynsyms);
  }

  lemma LinkedNames(ss: seq<Section>)
    ensures SecNames(Linked(ss)) == SecNames(ss)
  {
    hide LinkedIn;
    forall i | 0 <= i < |ss| ensures Linked(ss)[i].name == ss[i].name { LinkAlike(ss[i], ss); }
  }
}
