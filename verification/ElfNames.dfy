/** String tables: names one after another, each ended by a zero byte, behind a
    leading zero. Readers find a name by its offset. */
module ElfNames {
  import opened Words

  /** The characters of a C string. */
  type Name = seq<byte>

  predicate NameOk(s: Name) { forall i :: 0 <= i < |s| ==> s[i] != 0 }

  predicate NamesOk(ns: seq<Name>) { forall i :: 0 <= i < |ns| ==> NameOk(ns[i]) }

  /** The bytes from off up to the next zero. */
  function CString(bytes: seq<byte>, off: nat): Name
    decreases |bytes| - off
  {
    if off >= |bytes| || bytes[off] == 0 then [] else [bytes[off]] + CString(bytes, off + 1)
  }

  function StrTab(ns: seq<Name>): (bs: seq<byte>)
    ensures |bs| >= 1 && bs[0] == 0
  {
    if ns == [] then [0] else StrTab(ns[..|ns| - 1]) + ns[|ns| - 1] + [0]
  }

  /** Where the i-th name starts. */
  function NameOff(ns: seq<Name>, i: nat): nat
    requires i <= |ns|
  {
    if i == 0 then 1 else NameOff(ns, i - 1) + |ns[i - 1]| + 1
  }

  /** The two passes over the names agree on every offset. */
  lemma {:induction false} OffsetsAgree(ns: seq<Name>, i: nat)
    requires i <= |ns|
    ensures |StrTab(ns[..i])| == NameOff(ns, i)
  {
    if i > 0 {
      OffsetsAgree(ns, i - 1);
      assert ns[..i][..i - 1] == ns[..i - 1];
    }
  }

  lemma {:induction false} StrTabGrows(ns: seq<Name>, i: nat) returns (rest: seq<byte>)
    requires i <= |ns|
    ensures StrTab(ns) == StrTab(ns[..i]) + rest
    decreases |ns|
  {
    if i == |ns| {
      assert ns[..i] == ns;
      rest := [];
    } else {
      var most := ns[..|ns| - 1];
      var r := StrTabGrows(most, i);
      assert most[..i] == ns[..i];
      rest := r + ns[|ns| - 1] + [0];
    }
  }

  lemma {:induction false} CStringEnds(bytes: seq<byte>, off: nat, s: Name)
    requires NameOk(s) && off + |s| < |bytes| && bytes[off + |s|] == 0
    requires forall k :: 0 <= k < |s| ==> bytes[off + k] == s[k]
    ensures CString(bytes, off) == s
    decreases |s|
  {
    if s != [] {
      assert bytes[off + 0] == s[0];
      forall k | 0 <= k < |s| - 1 ensures bytes[off + 1 + k] == s[1..][k] { assert bytes[off + (k + 1)] == s[k + 1]; }
      CStringEnds(bytes, off + 1, s[1..]);
    }
  }

  /** A name read at its offset is the name. */
  lemma NameBack(ns: seq<Name>, i: nat)
    requires i < |ns| && NamesOk(ns)
    ensures NameOff(ns, i) < |StrTab(ns)|
    ensures CString(StrTab(ns), NameOff(ns, i)) == ns[i]
  {
    OffsetsAgree(ns, i);
    var rest := StrTabGrows(ns, i + 1);
    assert ns[..i + 1][..i] == ns[..i];
    Inside(StrTab(ns), StrTab(ns[..i]), ns[i], rest);
    CStringEnds(StrTab(ns), NameOff(ns, i), ns[i]);
  }

  lemma Inside(all: seq<byte>, before: seq<byte>, s: seq<byte>, rest: seq<byte>)
    requires all == before + s + [0] + rest
    ensures |before| + |s| < |all| && all[|before| + |s|] == 0
    ensures forall k :: 0 <= k < |s| ==> all[|before| + k] == s[k]
  {}

  /** The whole table, in two passes: the size, then the copies. */
  method BuildStrTab(ns: seq<Name>) returns (buf: seq<byte>)
    ensures buf == StrTab(ns)
  {
    var total := 1;
    for i := 0 to |ns|
      invariant total == NameOff(ns, i)
    {
      total := total + |ns[i]| + 1;
    }
    buf := [0];
    for i := 0 to |ns|
      invariant buf == StrTab(ns[..i])
    {
      assert ns[..i + 1][..i] == ns[..i];
      buf := buf + (ns[i] + [0]);
    }
    assert ns[..|ns|] == ns;
    OffsetsAgree(ns, |ns|);
    assert |buf| == total;
  }
}
