/** Fixed-layout records: little-endian fields of given widths. */
module ElfStruct {
  import opened Words

  /** Bytes of a record with these field widths. */
  function Width(ws: seq<nat>): nat {
    if ws == [] then 0 else ws[0] + Width(ws[1..])
  }

  /** Every value fits its field. */
  predicate Fits(ws: seq<nat>, vs: seq<nat>) {
    |vs| == |ws| && forall i :: 0 <= i < |ws| ==> vs[i] < Pow256(ws[i])
  }

  function Pack(ws: seq<nat>, vs: seq<nat>): (bs: seq<byte>)
    requires |vs| == |ws|
    ensures |bs| == Width(ws)
    decreases |ws|
  {
    if ws == [] then [] else LE(ws[0], vs[0]) + Pack(ws[1..], vs[1..])
  }

  /** The fields of a record. */
  function Unpack(ws: seq<nat>, bs: seq<byte>): (vs: seq<nat>)
    requires |bs| == Width(ws)
    ensures Fits(ws, vs)
    decreases |ws|
  {
    if ws == [] then [] else [UnLE(bs[..ws[0]])] + Unpack(ws[1..], bs[ws[0]..])
  }

  lemma {:induction false} UnpackPack(ws: seq<nat>, vs: seq<nat>)
    requires Fits(ws, vs)
    ensures Unpack(ws, Pack(ws, vs)) == vs
    decreases |ws|
  {
    if ws != [] {
      UnLELE(ws[0], vs[0]);
      var bs := Pack(ws, vs);
      assert bs[..ws[0]] == LE(ws[0], vs[0]) && bs[ws[0]..] == Pack(ws[1..], vs[1..]);
      assert Fits(ws[1..], vs[1..]) by {
        forall i | 0 <= i < |ws| - 1 ensures vs[1..][i] < Pow256(ws[1..][i]) { assert vs[i + 1] < Pow256(ws[i + 1]); }
      }
      UnpackPack(ws[1..], vs[1..]);
    }
  }

  // ------------------------------------------------------------------- tables

  /** n records of w bytes: the i-th. */
  function Row(table: seq<byte>, w: nat, i: nat): seq<byte>
    requires w * (i + 1) <= |table|
  {
    RowIndex(w, i);
    table[w * i..w * (i + 1)]
  }

  lemma RowIndex(w: nat, i: nat)
    ensures 0 <= w * i <= w * (i + 1) && w * (i + 1) == w * i + w
  {}

  /** All records one after another. */
  function Rows(rs: seq<seq<byte>>): seq<byte> {
    if rs == [] then [] else Rows(rs[..|rs| - 1]) + rs[|rs| - 1]
  }

  lemma {:induction false} RowsSize(rs: seq<seq<byte>>, w: nat)
    requires forall i :: 0 <= i < |rs| ==> |rs[i]| == w
    ensures |Rows(rs)| == w * |rs|
  {
    if rs != [] {
      RowsSize(rs[..|rs| - 1], w);
      RowIndex(w, |rs| - 1);
    }
  }

  lemma RowLess(w: nat, i: nat, n: nat)
    requires i < n
    ensures w * (i + 1) <= w * n
  {}

  /** The i-th record comes back. */
  lemma {:induction false} RowOf(rs: seq<seq<byte>>, w: nat, i: nat)
    requires forall n :: 0 <= n < |rs| ==> |rs[n]| == w
    requires i < |rs|
    ensures |Rows(rs)| == w * |rs| && w * (i + 1) <= |Rows(rs)|
    ensures Row(Rows(rs), w, i) == rs[i]
    decreases |rs|
  {
    RowsSize(rs, w);
    RowLess(w, i, |rs|);
    var last := |rs| - 1;
    RowsSize(rs[..last], w);
    RowIndex(w, last);
    RowIndex(w, i);
    if i < last {
      RowOf(rs[..last], w, i);
      RowLess(w, i, last);
      assert Rows(rs)[w * i..w * (i + 1)] == Rows(rs[..last])[w * i..w * (i + 1)];
    } else {
      assert Rows(rs)[w * i..w * (i + 1)] == rs[last];
    }
  }
}
