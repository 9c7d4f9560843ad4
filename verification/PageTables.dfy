/** The four-level page table that petmem_handle_pagefault fills (virtual_memory/on_demand.c and
    pgtables.h; Intel SDM volume 3A, section 4.5), as frames holding 512 entries each. */
module PageTables {
  import opened Options

  /** A page of physical memory; 0 stands for none, and is what a failed allocation returns. */
  type Frame = nat
  datatype Entry = Entry(present: bool, base: Frame)
  type Tables = map<Frame, seq<Entry>>

  /** The indices from the root down to an entry. */
  datatype Path = Root | Sub(parent: Path, index: nat)

  function Depth(q: Path): nat {
    match q case Root => 0 case Sub(p, _) => Depth(p) + 1
  }

  /** q is p or goes through it. */
  ghost predicate Under(q: Path, p: Path) {
    q == p || (q.Sub? && Under(q.parent, p))
  }

  /** What the walk of the entries along q arrives at: a table, or at depth 4 a user page. */
  function Walk(tables: Tables, root: Frame, q: Path): Option<Frame> {
    match q
    case Root => Some(root)
    case Sub(p, i) =>
      match Walk(tables, root, p)
      case None => None
      case Some(f) => if f in tables && i < |tables[f]| && tables[f][i].present then Some(tables[f][i].base) else None
  }

  // ---- The tree invariant ---------------------------------------------------------------

  /** Every table reached has its 512 entries. */
  ghost predicate Whole(tables: Tables, root: Frame) {
    forall q {:trigger Walk(tables, root, q)} :: Depth(q) <= 3 && Walk(tables, root, q).Some? ==>
      Walk(tables, root, q).value in tables && |tables[Walk(tables, root, q).value]| == 512
  }

  /** No table and no user page is reached in two ways. */
  ghost predicate Unshared(tables: Tables, root: Frame) {
    forall p, q {:trigger Walk(tables, root, p), Walk(tables, root, q)} ::
      Depth(p) <= 4 && Depth(q) <= 4 && Walk(tables, root, p) == Walk(tables, root, q) && Frames(tables, root, p) ==>
        p == q
  }

  /** There is a frame at the end of the path. */
  ghost predicate Frames(tables: Tables, root: Frame, q: Path) {
    Walk(tables, root, q).Some? && Walk(tables, root, q).value != 0
  }

  ghost predicate Tree(tables: Tables, root: Frame) {
    Whole(tables, root) && Unshared(tables, root) && 0 !in tables
  }

  ghost predicate Unused(tables: Tables, root: Frame, f: Frame) {
    f !in tables && forall q {:trigger Walk(tables, root, q)} :: Depth(q) <= 4 ==> Walk(tables, root, q) != Some(f)
  }

  /** The two trees differ in what q0 leads to, and there only. */
  ghost predicate Differ(tables: Tables, tables': Tables, root: Frame, q0: Path, r: Option<Frame>) {
    forall q {:trigger Walk(tables', root, q)} :: Depth(q) <= 4 ==>
      Walk(tables', root, q) == if q == q0 then r else Walk(tables, root, q)
  }

  /** Paths below an absent entry lead nowhere. */
  lemma {:induction false} NothingBelow(tables: Tables, root: Frame, p: Path, q: Path)
    requires Walk(tables, root, p).None? && Under(q, p)
    ensures Walk(tables, root, q).None?
  {
    if q == p {
    } else {
      NothingBelow(tables, root, p, q.parent);
    }
  }

  lemma {:induction false} UnderDepth(q: Path, p: Path)
    requires Under(q, p)
    ensures Depth(p) <= Depth(q) && (q != p ==> Depth(p) < Depth(q))
  {
    if q == p {
    } else {
      UnderDepth(q.parent, p);
    }
  }

  /** Writing one entry changes nothing but what lies under it. */
  lemma {:induction false} Elsewhere(tables: Tables, root: Frame, p0: Path, i: nat, e: Entry, tables': Tables, q: Path)
    requires Tree(tables, root) && Depth(p0) <= 3 && Walk(tables, root, p0).Some? && i < 512
    requires var f := Walk(tables, root, p0).value;
             f in tables && |tables[f]| == 512 && tables' == tables[f := tables[f][i := e]]
    requires Depth(q) <= 4 && !Under(q, Sub(p0, i))
    ensures Walk(tables', root, q) == Walk(tables, root, q)
  {
    if q.Root? {
    } else {
      Elsewhere(tables, root, p0, i, e, tables', q.parent);
    }
  }

  lemma WroteEntry(tables: Tables, root: Frame, p0: Path, i: nat, e: Entry, tables': Tables)
    requires Tree(tables, root) && Depth(p0) <= 3 && Walk(tables, root, p0).Some? && i < 512
    requires var f := Walk(tables, root, p0).value;
             f in tables && |tables[f]| == 512 && tables' == tables[f := tables[f][i := e]]
    ensures Walk(tables', root, p0) == Walk(tables, root, p0)
    ensures Walk(tables', root, Sub(p0, i)) == if e.present then Some(e.base) else None
  {
    if Under(p0, Sub(p0, i)) {
      UnderDepth(p0, Sub(p0, i));
    }
    Elsewhere(tables, root, p0, i, e, tables', p0);
  }

  /** A frame outside the tree can be given any contents. */
  lemma {:induction false} AddFrame(tables: Tables, root: Frame, f: Frame, entries: seq<Entry>, q: Path)
    requires Unused(tables, root, f) && Depth(q) <= 4
    ensures Walk(tables[f := entries], root, q) == Walk(tables, root, q)
  {
    if q.Root? {
    } else {
      AddFrame(tables, root, f, entries, q.parent);
      assert Walk(tables, root, q.parent) != Some(f);
    }
  }

  // ---- Installing -----------------------------------------------------------------------

  function Zeroed(): (r: seq<Entry>)
    ensures |r| == 512 && forall i :: 0 <= i < 512 ==> !r[i].present
  {
    seq(512, i => Entry(false, 0))
  }

  /** Entry i of the table at p0, absent before, now leads to a user page. */
  lemma InstallPage(tables: Tables, root: Frame, p0: Path, i: nat, f: Frame, tables': Tables)
    requires Tree(tables, root) && Depth(p0) == 3 && Walk(tables, root, p0).Some? && i < 512
    requires Walk(tables, root, Sub(p0, i)).None? && (f == 0 || Unused(tables, root, f))
    requires var t := Walk(tables, root, p0).value;
             t in tables && |tables[t]| == 512 && tables' == tables[t := tables[t][i := Entry(true, f)]]
    ensures Differ(tables, tables', root, Sub(p0, i), Some(f)) && Tree(tables', root)
  {
    WroteEntry(tables, root, p0, i, Entry(true, f), tables');
    forall q | Depth(q) <= 4
      ensures Walk(tables', root, q) == if q == Sub(p0, i) then Some(f) else Walk(tables, root, q)
    {
      if Under(q, Sub(p0, i)) {
        UnderDepth(q, Sub(p0, i));
      } else {
        Elsewhere(tables, root, p0, i, Entry(true, f), tables', q);
      }
    }
  }

  /** A table with nothing in it leads nowhere. */
  lemma {:induction false} BelowEmpty(tables: Tables, root: Frame, p: Path, q: Path)
    requires Walk(tables, root, p).Some? && Under(q, p) && q != p
    requires var f := Walk(tables, root, p).value; f in tables && forall e :: e in tables[f] ==> !e.present
    ensures Walk(tables, root, q).None?
  {
    if q.parent == p {
    } else {
      BelowEmpty(tables, root, p, q.parent);
    }
  }

  /** Entry i of the table at p0, absent before, now leads to a new empty table. */
  lemma InstallTable(tables: Tables, root: Frame, p0: Path, i: nat, f: Frame, tables': Tables)
    requires Tree(tables, root) && Depth(p0) <= 2 && Walk(tables, root, p0).Some? && i < 512
    requires Walk(tables, root, Sub(p0, i)).None? && Unused(tables, root, f) && f != 0
    requires var t := Walk(tables, root, p0).value;
             t in tables && |tables[t]| == 512 && tables' == tables[f := Zeroed()][t := tables[t][i := Entry(true, f)]]
    ensures Differ(tables, tables', root, Sub(p0, i), Some(f)) && Tree(tables', root)
  {
    var tables1 := tables[f := Zeroed()];
    forall q | Depth(q) <= 4 ensures Walk(tables1, root, q) == Walk(tables, root, q) {
      AddFrame(tables, root, f, Zeroed(), q);
    }
    assert Tree(tables1, root);
    WroteEntry(tables1, root, p0, i, Entry(true, f), tables');
    forall q | Depth(q) <= 4
      ensures Walk(tables', root, q) == if q == Sub(p0, i) then Some(f) else Walk(tables, root, q)
    {
      if !Under(q, Sub(p0, i)) {
        Elsewhere(tables1, root, p0, i, Entry(true, f), tables', q);
      } else if q != Sub(p0, i) {
        BelowEmpty(tables', root, Sub(p0, i), q);
        NothingBelow(tables, root, Sub(p0, i), q);
      }
    }
  }

  // ---- Removing -------------------------------------------------------------------------

  lemma DifferLess(tables: Tables, tables': Tables, root: Frame, q0: Path, gone: set<Frame>)
    requires Tree(tables, root) && Differ(tables, tables', root, q0, None)
    requires forall f :: f in gone ==> Walk(tables, root, q0) == Some(f)
    requires forall g :: g in tables && g !in gone ==> g in tables' && |tables'[g]| == |tables[g]|
    requires Depth(q0) <= 4 && 0 !in tables'
    ensures Tree(tables', root)
  {
    forall q | Depth(q) <= 3 && Walk(tables', root, q).Some?
      ensures Walk(tables', root, q).value in tables' && |tables'[Walk(tables', root, q).value]| == 512
    {
      assert q != q0;
      assert Walk(tables', root, q) == Walk(tables, root, q) && Frames(tables, root, q);
      assert Walk(tables, root, q0) != Walk(tables, root, q);
    }
  }

  /** Clearing the entry of a user page. */
  lemma ClearPage(tables: Tables, root: Frame, p0: Path, i: nat, tables': Tables)
    requires Tree(tables, root) && Depth(p0) == 3 && Walk(tables, root, p0).Some? && i < 512
    requires var t := Walk(tables, root, p0).value;
             t in tables && |tables[t]| == 512 &&
             tables' == tables[t := tables[t][i := tables[t][i].(present := false)]]
    ensures Differ(tables, tables', root, Sub(p0, i), None) && Tree(tables', root)
  {
    var e := tables[Walk(tables, root, p0).value][i].(present := false);
    WroteEntry(tables, root, p0, i, e, tables');
    forall q | Depth(q) <= 4
      ensures Walk(tables', root, q) == if q == Sub(p0, i) then None else Walk(tables, root, q)
    {
      if Under(q, Sub(p0, i)) {
        UnderDepth(q, Sub(p0, i));
      } else {
        Elsewhere(tables, root, p0, i, e, tables', q);
      }
    }
    DifferLess(tables, tables', root, Sub(p0, i), {});
  }

  /** Releasing an empty table: its entry is cleared and the frame leaves the tree, and no user
      page is affected. */
  lemma ReleaseTable(tables: Tables, root: Frame, p0: Path, i: nat, f: Frame, tables': Tables)
    requires Tree(tables, root) && Depth(p0) <= 2 && Walk(tables, root, p0).Some? && i < 512
    requires Walk(tables, root, Sub(p0, i)) == Some(f) && f in tables && forall e :: e in tables[f] ==> !e.present
    requires var t := Walk(tables, root, p0).value;
             t in tables && |tables[t]| == 512 &&
             tables' == tables[t := tables[t][i := tables[t][i].(present := false)]] - {f}
    ensures Differ(tables, tables', root, Sub(p0, i), None) && Tree(tables', root)
  {
    var t := Walk(tables, root, p0).value;
    var e := tables[t][i].(present := false);
    var tables1 := tables[t := tables[t][i := e]];
    WroteEntry(tables, root, p0, i, e, tables1);
    forall q | Depth(q) <= 4
      ensures Walk(tables1, root, q) == if q == Sub(p0, i) then None else Walk(tables, root, q)
    {
      if !Under(q, Sub(p0, i)) {
        Elsewhere(tables, root, p0, i, e, tables1, q);
      } else if q != Sub(p0, i) {
        BelowEmpty(tables, root, Sub(p0, i), q);
        NothingBelow(tables1, root, Sub(p0, i), q);
      }
    }
    forall q | Depth(q) <= 4 ensures Walk(tables', root, q) == Walk(tables1, root, q) {
      DropFrame(tables1, root, f, tables', q);
    }
    DifferLess(tables, tables', root, Sub(p0, i), {f});
  }

  lemma {:induction false} DropFrame(tables: Tables, root: Frame, f: Frame, tables': Tables, q: Path)
    requires forall p {:trigger Walk(tables, root, p)} :: Depth(p) <= 4 ==> Walk(tables, root, p) != Some(f)
    requires tables' == tables - {f} && Depth(q) <= 4
    ensures Walk(tables', root, q) == Walk(tables, root, q)
  {
    if q.Root? {
    } else {
      DropFrame(tables, root, f, tables', q.parent);
      assert Walk(tables, root, q.parent) != Some(f);
    }
  }

  /** A root with no entries. */
  lemma {:induction false} EmptyRoot(tables: Tables, root: Frame, q: Path)
    requires tables == map[root := Zeroed()] && Depth(q) > 0
    ensures Walk(tables, root, q).None?
  {
    if q.parent == Root {
    } else {
      EmptyRoot(tables, root, q.parent);
    }
  }

  // ---- Addresses ------------------------------------------------------------------------

  function Index4(x: nat): (r: nat) ensures r < 512 { (x / 0x80_0000_0000) % 512 }
  function Index3(x: nat): (r: nat) ensures r < 512 { (x / 0x4000_0000) % 512 }
  function Index2(x: nat): (r: nat) ensures r < 512 { (x / 0x20_0000) % 512 }
  function Index1(x: nat): (r: nat) ensures r < 512 { (x / 4096) % 512 }

  /** The path the processor follows for an address. */
  function PathOf(x: nat): Path {
    Sub(Sub(Sub(Sub(Root, Index4(x)), Index3(x)), Index2(x)), Index1(x))
  }

  /** Two 48-bit addresses share a path exactly if they are in the same page. */
  lemma PathOfPage(x: nat, y: nat)
    requires x < 0x1_0000_0000_0000 && y < 0x1_0000_0000_0000
    ensures PathOf(x) == PathOf(y) <==> x / 4096 == y / 4096
  {
    IndexDigits(x);
    IndexDigits(y);
    if x / 4096 == y / 4096 {
      SameDigits(Index4(x), Index3(x), Index2(x), Index1(x), Index4(y), Index3(y), Index2(y), Index1(y));
    }
  }

  /** A number in base 512 is determined by its digits. */
  lemma SameDigits(a4: nat, a3: nat, a2: nat, a1: nat, b4: nat, b3: nat, b2: nat, b1: nat)
    requires a3 < 512 && a2 < 512 && a1 < 512 && b3 < 512 && b2 < 512 && b1 < 512
    requires ((a4 * 512 + a3) * 512 + a2) * 512 + a1 == ((b4 * 512 + b3) * 512 + b2) * 512 + b1
    ensures a4 == b4 && a3 == b3 && a2 == b2 && a1 == b1
  {
  }

  /** The indices are the digits of the page number. */
  lemma IndexDigits(x: nat)
    requires x < 0x1_0000_0000_0000
    ensures x / 4096 == ((Index4(x) * 512 + Index3(x)) * 512 + Index2(x)) * 512 + Index1(x)
  {
    var n := x / 4096;
    assert x / 0x20_0000 == n / 512;
    assert x / 0x4000_0000 == n / 512 / 512;
    assert x / 0x80_0000_0000 == n / 512 / 512 / 512;
  }

  /** Every four indices are those of some 48-bit address. */
  lemma AddressOf(d4: nat, d3: nat, d2: nat, d1: nat) returns (x: nat)
    requires d4 < 512 && d3 < 512 && d2 < 512 && d1 < 512
    ensures x < 0x1_0000_0000_0000 && PathOf(x) == Sub(Sub(Sub(Sub(Root, d4), d3), d2), d1)
  {
    x := (((d4 * 512 + d3) * 512 + d2) * 512 + d1) * 4096;
    IndexDigits(x);
    SameDigits(Index4(x), Index3(x), Index2(x), Index1(x), d4, d3, d2, d1);
  }

  /** What is mapped is mapped at an address. */
  lemma MappedAt(tables: Tables, root: Frame, q: Path) returns (x: nat)
    requires Whole(tables, root) && Depth(q) == 4 && Walk(tables, root, q).Some?
    ensures x < 0x1_0000_0000_0000 && Translate(tables, root, x) == Walk(tables, root, q)
  {
    var q3 := q.parent;
    assert Depth(q3) == 3;
    var q2 := q3.parent;
    assert Depth(q2) == 2;
    var q1 := q2.parent;
    assert Depth(q1) == 1 && q1.parent == Root;
    assert Walk(tables, root, q3).Some? && Walk(tables, root, q2).Some? && Walk(tables, root, q1).Some?;
    assert Walk(tables, root, Root) == Some(root);
    x := AddressOf(q1.index, q2.index, q3.index, q.index);
  }

  function Translate(tables: Tables, root: Frame, x: nat): Option<Frame> {
    Walk(tables, root, PathOf(x))
  }
}
