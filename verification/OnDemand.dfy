/** A process's address space, changed by page faults and by freeing a region. */
module OnDemand {
  import opened Options
  import opened RegionMap
  import opened PageTables
  import opened FreeWalk
  import opened TableTrim
  import opened PagePools
  import Counting

  // ---- Who owns which frame -------------------------------------------------------------

  /** Frame f is mapped as a user page. */
  ghost predicate Mapped(tables: Tables, root: Frame, f: Frame) {
    exists q :: Depth(q) == 4 && Walk(tables, root, q) == Some(f)
  }

  /** Frame f is a table of the tree. */
  ghost predicate Reached(tables: Tables, root: Frame, f: Frame) {
    exists q :: Depth(q) <= 3 && Walk(tables, root, q) == Some(f)
  }

  /** Every frame is accounted for: the tables are the root and what the kernel has given and not
      been handed back, each of them in the tree; the user pages mapped are those that are out of
      the pools. */
  ghost predicate Balanced(tables: Tables, root: Frame, given: set<Frame>, out: set<Frame>) {
    && Tree(tables, root) && tables.Keys == given + {root} && root !in given
    && tables.Keys !! out && 0 !in out
    && AllReached(tables, root) && AllMapped(tables, root, out) && MappedOut(tables, root, out)
  }

  ghost predicate AllReached(tables: Tables, root: Frame) {
    forall f {:trigger Reached(tables, root, f)} :: f in tables ==> Reached(tables, root, f)
  }

  ghost predicate AllMapped(tables: Tables, root: Frame, out: set<Frame>) {
    forall f {:trigger Mapped(tables, root, f)} :: f in out ==> Mapped(tables, root, f)
  }

  ghost predicate MappedOut(tables: Tables, root: Frame, out: set<Frame>) {
    forall q {:trigger Walk(tables, root, q)} :: Depth(q) == 4 && Frames(tables, root, q) ==>
      Walk(tables, root, q).value in out
  }

  /** The tables of the tree after a change at q0, where f was or is. */
  lemma ReachedAfter(tables: Tables, tables': Tables, root: Frame, q0: Path, r: Option<Frame>)
    requires AllReached(tables, root) && Differ(tables, tables', root, q0, r) && Depth(q0) <= 4
    requires forall g :: g in tables' ==>
               (r == Some(g) && Depth(q0) <= 3) || (g in tables && Walk(tables, root, q0) != Some(g))
    ensures AllReached(tables', root)
  {
    forall g | g in tables' ensures Reached(tables', root, g) {
      if r == Some(g) && Depth(q0) <= 3 {
        assert Walk(tables', root, q0) == Some(g);
      } else {
        assert Reached(tables, root, g);
        var q :| Depth(q) <= 3 && Walk(tables, root, q) == Some(g);
        assert Walk(tables', root, q) == Some(g);
      }
    }
  }

  /** The user pages after a change at q0. */
  lemma MappedAfter(tables: Tables, tables': Tables, root: Frame, q0: Path, r: Option<Frame>, out: set<Frame>,
                    out': set<Frame>)
    requires AllMapped(tables, root, out) && MappedOut(tables, root, out)
    requires Differ(tables, tables', root, q0, r) && Depth(q0) <= 4
    requires forall g :: g in out' ==>
               (r == Some(g) && Depth(q0) == 4) || (g in out && Walk(tables, root, q0) != Some(g))
    requires forall q {:trigger Walk(tables, root, q)} :: Depth(q) == 4 && q != q0 && Frames(tables, root, q) ==>
               Walk(tables, root, q).value in out'
    requires Depth(q0) == 4 && r.Some? && r.value != 0 ==> r.value in out'
    ensures AllMapped(tables', root, out') && MappedOut(tables', root, out')
  {
    forall g | g in out' ensures Mapped(tables', root, g) {
      if r == Some(g) && Depth(q0) == 4 {
        assert Walk(tables', root, q0) == Some(g);
      } else {
        assert Mapped(tables, root, g);
        var q :| Depth(q) == 4 && Walk(tables, root, q) == Some(g);
        assert Walk(tables', root, q) == Some(g);
      }
    }
    forall q | Depth(q) == 4 && Frames(tables', root, q) ensures Walk(tables', root, q).value in out' {
      assert q != q0 ==> Frames(tables, root, q);
    }
  }

  /** A new table. */
  lemma BalancedTable(tables: Tables, tables': Tables, root: Frame, given: set<Frame>, out: set<Frame>, q0: Path,
                      f: Frame)
    requires Balanced(tables, root, given, out) && Tree(tables', root) && f !in tables && f !in out
    requires Depth(q0) <= 3 && Walk(tables, root, q0).None? && Differ(tables, tables', root, q0, Some(f))
    requires tables'.Keys == tables.Keys + {f}
    ensures Balanced(tables', root, given + {f}, out)
  {
    ReachedAfter(tables, tables', root, q0, Some(f));
    MappedAfter(tables, tables', root, q0, Some(f), out, out);
  }

  /** A new user page, or none if the pools are exhausted. */
  lemma BalancedPage(tables: Tables, tables': Tables, root: Frame, given: set<Frame>, out: set<Frame>, q0: Path,
                     f: Frame)
    requires Balanced(tables, root, given, out) && Tree(tables', root) && f !in tables
    requires Depth(q0) == 4 && Walk(tables, root, q0).None? && Differ(tables, tables', root, q0, Some(f))
    requires tables'.Keys == tables.Keys
    ensures Balanced(tables', root, given, if f == 0 then out else out + {f})
  {
    ReachedAfter(tables, tables', root, q0, Some(f));
    MappedAfter(tables, tables', root, q0, Some(f), out, if f == 0 then out else out + {f});
  }

  /** A user page less. */
  lemma BalancedClear(tables: Tables, tables': Tables, root: Frame, given: set<Frame>, out: set<Frame>, q0: Path,
                      f: Frame)
    requires Balanced(tables, root, given, out) && Tree(tables', root)
    requires Depth(q0) == 4 && Walk(tables, root, q0) == Some(f) && Differ(tables, tables', root, q0, None)
    requires tables'.Keys == tables.Keys
    ensures Balanced(tables', root, given, out - {f}) && (f == 0 || f in out)
  {
    assert f != 0 ==> Frames(tables, root, q0);
    ReachedAfter(tables, tables', root, q0, None);
    MappedAfter(tables, tables', root, q0, None, out, out - {f});
  }

  /** A table less. */
  lemma BalancedRelease(tables: Tables, tables': Tables, root: Frame, given: set<Frame>, out: set<Frame>, q0: Path,
                        f: Frame)
    requires Balanced(tables, root, given, out) && Tree(tables', root)
    requires 0 < Depth(q0) <= 3 && Walk(tables, root, q0) == Some(f) && Differ(tables, tables', root, q0, None)
    requires tables'.Keys == tables.Keys - {f}
    ensures Balanced(tables', root, given - {f}, out)
  {
    assert Walk(tables, root, Root) == Some(root) && Frames(tables, root, q0);
    ReachedAfter(tables, tables', root, q0, None);
    MappedAfter(tables, tables', root, q0, None, out, out);
  }

  /** A zeroed page becomes a table. */
  lemma NewTable(tables: Tables, root: Frame, given: set<Frame>, out: set<Frame>,
                 p: Path, t: Frame, i: nat, f: Frame, tables': Tables)
    requires Balanced(tables, root, given, out) && Depth(p) <= 2 && Walk(tables, root, p) == Some(t) && i < 512
    requires t in tables && |tables[t]| == 512 && !tables[t][i].present && f != 0 && f !in tables && f !in out
    requires tables' == tables[f := Zeroed()][t := tables[t][i := Entry(true, f)]]
    ensures Balanced(tables', root, given + {f}, out) && Differ(tables, tables', root, Sub(p, i), Some(f))
  {
    InstallTable(tables, root, p, i, f, tables');
    BalancedTable(tables, tables', root, given, out, Sub(p, i), f);
  }

  /** A page from the pools, or 0, becomes a user page. */
  lemma NewPage(tables: Tables, root: Frame, given: set<Frame>, out: set<Frame>,
                p: Path, t: Frame, i: nat, f: Frame, tables': Tables)
    requires Balanced(tables, root, given, out) && Depth(p) == 3 && Walk(tables, root, p) == Some(t) && i < 512
    requires t in tables && |tables[t]| == 512 && !tables[t][i].present && f !in tables && f !in out
    requires tables' == tables[t := tables[t][i := Entry(true, f)]]
    ensures Balanced(tables', root, given, if f == 0 then out else out + {f})
    ensures Differ(tables, tables', root, Sub(p, i), Some(f))
  {
    InstallPage(tables, root, p, i, f, tables');
    BalancedPage(tables, tables', root, given, out, Sub(p, i), f);
  }

  /** An empty table goes back to the kernel. */
  lemma TableGone(tables: Tables, root: Frame, given: set<Frame>, out: set<Frame>,
                  p: Path, t: Frame, i: nat, f: Frame, tables': Tables)
    requires Balanced(tables, root, given, out) && Depth(p) <= 2 && i < 512
    requires Walk(tables, root, p) == Some(t) && Walk(tables, root, Sub(p, i)) == Some(f)
    requires t in tables && |tables[t]| == 512 && f in tables && forall e :: e in tables[f] ==> !e.present
    requires tables' == tables[t := tables[t][i := tables[t][i].(present := false)]] - {f}
    ensures Balanced(tables', root, given - {f}, out) && Differ(tables, tables', root, Sub(p, i), None)
  {
    ReleaseTable(tables, root, p, i, f, tables');
    BalancedRelease(tables, tables', root, given, out, Sub(p, i), f);
  }

  // ---- What a fault changes -------------------------------------------------------------

  /** The entry at q, if it was absent, now leads to f; nothing else moved. */
  ghost predicate Grown(tables: Tables, tables': Tables, root: Frame, q: Path, f: Frame) {
    if Walk(tables, root, q).None? then Differ(tables, tables', root, q, Some(f)) else tables' == tables
  }

  /** A fault maps the page of the address if it was absent, and leaves every other page. */
  ghost predicate Faulted(tables: Tables, tables': Tables, root: Frame, vaddr: nat, page: Frame) {
    forall x {:trigger Translate(tables', root, x)} :: 0 <= x < 0x1_0000_0000_0000 ==>
      Translate(tables', root, x) ==
        if x / 4096 == vaddr / 4096 && Translate(tables, root, x).None? then Some(page) else Translate(tables, root, x)
  }

  /** The entries on the way to the address are all there, those that were there as they were, and
      every other entry is as before. */
  ghost predicate Deepened(tables: Tables, tables': Tables, root: Frame, vaddr: nat) {
    forall q {:trigger Walk(tables', root, q)} :: Depth(q) <= 4 ==>
      if Under(PathOf(vaddr), q) then
        Walk(tables', root, q).Some? && Walk(tables, root, q) in {None, Walk(tables', root, q)}
      else Walk(tables', root, q) == Walk(tables, root, q)
  }

  lemma OnTheWay(vaddr: nat, q: Path)
    ensures var q4 := PathOf(vaddr);
            Under(q4, q) <==>
            q == q4 || q == q4.parent || q == q4.parent.parent || q == q4.parent.parent.parent || q == Root
  {
    var q4 := PathOf(vaddr);
    assert Under(q4, q) <==> q4 == q || Under(q4.parent, q);
    assert Under(q4.parent, q) <==> q4.parent == q || Under(q4.parent.parent, q);
    assert Under(q4.parent.parent, q) <==> q4.parent.parent == q || Under(q4.parent.parent.parent, q);
    assert Under(q4.parent.parent.parent, q) <==> q4.parent.parent.parent == q || q == Root;
  }

  lemma FaultDeepens(t0: Tables, t1: Tables, t2: Tables, t3: Tables, t4: Tables, root: Frame, vaddr: nat,
                     pdp: Frame, pd: Frame, pt: Frame, page: Frame)
    requires var q4 := PathOf(vaddr);
             && Grown(t0, t1, root, q4.parent.parent.parent, pdp) && Grown(t1, t2, root, q4.parent.parent, pd)
             && Grown(t2, t3, root, q4.parent, pt) && Grown(t3, t4, root, q4, page)
    requires Translate(t4, root, vaddr).Some?
    ensures Deepened(t0, t4, root, vaddr)
  {
    var q4 := PathOf(vaddr);
    forall q | Depth(q) <= 4
      ensures if Under(q4, q) then Walk(t4, root, q).Some? && Walk(t0, root, q) in {None, Walk(t4, root, q)}
              else Walk(t4, root, q) == Walk(t0, root, q)
    {
      OnTheWay(vaddr, q);
      GrownAt(t0, t1, root, q4.parent.parent.parent, pdp, q);
      GrownAt(t1, t2, root, q4.parent.parent, pd, q);
      GrownAt(t2, t3, root, q4.parent, pt, q);
      GrownAt(t3, t4, root, q4, page, q);
      if Under(q4, q) && Walk(t4, root, q).None? {
        NothingBelow(t4, root, q, q4);
        assert false;
      }
    }
  }

  /** Three tables and a page along one path: the page is all that a translation can see. */
  lemma FaultDone(t0: Tables, t1: Tables, t2: Tables, t3: Tables, t4: Tables, root: Frame, vaddr: nat,
                  q1: Path, q2: Path, q3: Path, pdp: Frame, pd: Frame, pt: Frame, page: Frame)
    requires vaddr < 0x1_0000_0000_0000 && Depth(q1) < 4 && Depth(q2) < 4 && Depth(q3) < 4
    requires Grown(t0, t1, root, q1, pdp) && Grown(t1, t2, root, q2, pd) && Grown(t2, t3, root, q3, pt)
    requires Grown(t3, t4, root, PathOf(vaddr), page)
    ensures Faulted(t0, t4, root, vaddr, page)
  {
    forall x | 0 <= x < 0x1_0000_0000_0000
      ensures Translate(t4, root, x) ==
        if x / 4096 == vaddr / 4096 && Translate(t0, root, x).None? then Some(page) else Translate(t0, root, x)
    {
      PathOfPage(x, vaddr);
      PathDepth(x);
    }
  }

  lemma PathDepth(x: nat)
    ensures Depth(PathOf(x)) == 4 && Depth(PathOf(x).parent) == 3 && Depth(PathOf(x).parent.parent) == 2
    ensures Depth(PathOf(x).parent.parent.parent) == 1
  {
    assert Depth(PathOf(x).parent.parent.parent) == 1;
    assert Depth(PathOf(x).parent.parent) == 2;
    assert Depth(PathOf(x).parent) == 3;
  }

  /** New tables do not show in what a path of four indices leads to. */
  lemma GrownThree(t0: Tables, t1: Tables, t2: Tables, t3: Tables, root: Frame, q3: Path,
                   pdp: Frame, pd: Frame, pt: Frame, q: Path)
    requires Depth(q3) == 3 && q3.parent.Sub? && Depth(q) == 4
    requires Grown(t0, t1, root, q3.parent.parent, pdp) && Grown(t1, t2, root, q3.parent, pd) &&
             Grown(t2, t3, root, q3, pt)
    ensures Walk(t3, root, q) == Walk(t0, root, q)
  {
    assert Depth(q3.parent) == 2 && Depth(q3.parent.parent) == 1;
    GrownAt(t0, t1, root, q3.parent.parent, pdp, q);
    GrownAt(t1, t2, root, q3.parent, pd, q);
    GrownAt(t2, t3, root, q3, pt, q);
  }

  lemma GrownAt(tables: Tables, tables': Tables, root: Frame, q0: Path, f: Frame, q: Path)
    requires Grown(tables, tables', root, q0, f) && Depth(q) <= 4
    ensures Walk(tables', root, q) == if q == q0 && Walk(tables, root, q).None? then Some(f) else Walk(tables, root, q)
  {
  }

  /** The processor and the handler agree on the first index, though the handler scales it by
      the entry size twice, because every accepted address has index 0. */
  lemma FirstIndex(vaddr: nat)
    requires REGION_START <= vaddr <= REGION_END
    ensures Index4(vaddr) == 0 && vaddr < 0x1_0000_0000_0000
  {
  }

  // ---- The code -------------------------------------------------------------------------

  /** Some page belongs neither to a pool nor to a set. */
  lemma SomeFrame(mem: PageMemory, used: set<Frame>) returns (f: Frame)
    requires mem.Valid()
    ensures f != 0 && f !in used && !mem.InPools(f)
  {
    var a := Counting.Above(used);
    var b := AbovePools(mem, |mem.pools|);
    f := a + b + 1;
    assert forall i :: 0 <= i < |mem.pools| ==> !Has(mem.pools[i], f);
  }

  lemma {:induction false} AbovePools(mem: PageMemory, n: nat) returns (m: Frame)
    requires n <= |mem.pools|
    ensures forall i, f: nat :: 0 <= i < n && f >= m ==> !Has(mem.pools[i], f)
    decreases n
  {
    if n == 0 {
      m := 0;
    } else {
      m := AbovePools(mem, n - 1);
      m := m + mem.pools[n - 1].baseAddr + Powers.Pow2(mem.pools[n - 1].poolOrder);
    }
  }

  /** The kernel's own pages: get_zeroed_page and free_page. */
  class Kernel {
    var inUse: set<Frame>

    constructor (used: set<Frame>)
      ensures inUse == used
    {
      inUse := used;
    }

    /** Any page that is neither in use nor in a pool. */
    method GetPage(mem: PageMemory) returns (f: Frame)
      requires mem.Valid()
      modifies this
      ensures f != 0 && f !in old(inUse) && !mem.InPools(f) && inUse == old(inUse) + {f}
    {
      ghost var g := SomeFrame(mem, inUse);
      f :| f != 0 && f !in inUse && !mem.InPools(f);
      inUse := inUse + {f};
    }

    method FreePage(f: Frame)
      modifies this
      ensures inUse == old(inUse) - {f}
    {
      inUse := inUse - {f};
    }
  }

  /** What others have stays theirs when a frame comes, */
  lemma RestKept(all: set<Frame>, own: set<Frame>, f: Frame)
    requires f !in all
    ensures (all + {f}) - (own + {f}) == all - own
  {
  }

  /** and when one goes. */
  lemma RestLeft(all: set<Frame>, own: set<Frame>, f: Frame)
    requires f in own || f !in all
    ensures (all - {f}) - (own - {f}) == all - own
  {
  }

  /** The set with the frame, if it is one. */
  function Owning(own: set<Frame>, f: Frame): set<Frame> {
    if f == 0 then own else own + {f}
  }

  /** The address space of one of the processes that share the pools and the kernel. */
  class AddressSpace {
    const root: Frame
    const mem: PageMemory
    const kernel: Kernel
    var tables: Tables
    /** The pages the kernel has handed out for tables. */
    var given: set<Frame>
    /** The pages the pools have handed out to this process. */
    ghost var mine: set<Frame>

    /** The kernel's pages and the pools' are different pages. */
    ghost predicate Shared()
      reads this, mem, mem.repr, kernel
    {
      && mem.Valid() && this !in mem.repr && kernel !in mem.repr
      && forall f :: f in kernel.inUse ==> !mem.InPools(f)
    }

    /** The frames are accounted for. */
    ghost predicate Valid()
      reads this, mem, mem.repr, kernel
    {
      && Shared() && mine <= mem.out && tables.Keys <= kernel.inUse
      && Balanced(tables, root, given, mine)
    }

    /** The pages and tables of the other processes. */
    ghost function Theirs(): (set<Frame>, set<Frame>)
      reads this, mem, kernel
    {
      (mem.out - mine, kernel.inUse - tables.Keys)
    }

    constructor (cr3: Frame, pages: PageMemory, frames: Kernel)
      requires pages.Valid() && frames !in pages.repr && forall f :: f in frames.inUse ==> !pages.InPools(f)
      requires cr3 != 0 && cr3 in frames.inUse
      ensures Valid() && root == cr3 && mem == pages && kernel == frames && mine == {} && tables.Keys == {cr3}
      ensures forall q: Path :: Depth(q) > 0 ==> Walk(tables, root, q).None?
    {
      root, mem, kernel, given, mine := cr3, pages, frames, {}, {};
      tables := map[cr3 := Zeroed()];
      new;
      forall q: Path | Depth(q) > 0 ensures Walk(tables, root, q).None? {
        EmptyRoot(tables, root, q);
      }
      assert Walk(tables, root, Root) == Some(root);
    }

    /** One level of the handler: make the table if the entry is absent, and go to it. */
    method Descend(ghost p: Path, t: Frame, i: nat) returns (next: Frame)
      requires Valid() && Depth(p) <= 2 && Walk(tables, root, p) == Some(t) && i < 512
      modifies this, kernel
      ensures Valid() && Theirs() == old(Theirs()) && mine == old(mine) && Walk(tables, root, Sub(p, i)) == Some(next)
      ensures Grown(old(tables), tables, root, Sub(p, i), next)
    {
      if !tables[t][i].present {
        var f := kernel.GetPage(mem);
        mem.NotOut(f);
        RestKept(old(kernel.inUse), tables.Keys, f);
        AddTable(p, t, i, f);
      }
      next := tables[t][i].base;
    }

    /** The stores for a new table. */
    method AddTable(ghost p: Path, t: Frame, i: nat, f: Frame)
      requires Balanced(tables, root, given, mine) && Depth(p) <= 2 && Walk(tables, root, p) == Some(t) && i < 512
      requires t in tables && |tables[t]| == 512 && !tables[t][i].present && f != 0 && f !in tables && f !in mine
      modifies `tables, `given
      ensures Balanced(tables, root, given, mine) && tables.Keys == old(tables).Keys + {f}
      ensures Differ(old(tables), tables, root, Sub(p, i), Some(f))
      ensures t in tables && |tables[t]| == 512 && tables[t][i] == Entry(true, f)
    {
      NewTable(tables, root, given, mine, p, t, i, f, tables[f := Zeroed()][t := tables[t][i := Entry(true, f)]]);
      given := given + {f};
      tables := tables[f := Zeroed()];
      tables := tables[t := tables[t][i := Entry(true, f)]];
    }

    /** The last level: a user page, or entry 0 marked present if the pools are exhausted. */
    method MapPage(ghost p: Path, t: Frame, i: nat) returns (ghost page: Frame)
      requires Valid() && Depth(p) == 3 && Walk(tables, root, p) == Some(t) && i < 512
      modifies this, mem.repr
      ensures Valid() && Theirs() == old(Theirs()) && Walk(tables, root, Sub(p, i)).Some?
      ensures Grown(old(tables), tables, root, Sub(p, i), page)
      ensures Supplied(Walk(old(tables), root, Sub(p, i)), old(mine), mine, old(mem.out), page)
    {
      page := 0;
      if !tables[t][i].present {
        var f := Draw();
        page := f;
        Install(p, t, i, f);
      }
    }

    /** petmem_alloc_pages for this process. */
    method Draw() returns (f: Frame)
      requires Valid()
      modifies mem.repr
      ensures Valid() && f !in tables && f !in old(mem.out) && (f != 0 ==> f in mem.out && mem.InPools(f))
      ensures f == 0 ==> mem.out == old(mem.out) && forall g :: mem.InPools(g) ==> g in mem.out
      ensures mem.out - Owning(mine, f) == old(mem.out) - mine
    {
      mem.NotOut(0);
      f := mem.AllocPage();
      if f != 0 {
        RestKept(old(mem.out), mine, f);
      }
    }

    /** The stores to the last entry. */
    method Install(ghost p: Path, t: Frame, i: nat, f: Frame)
      requires Valid() && f !in tables && f !in mine && (f != 0 ==> f in mem.out)
      requires Depth(p) == 3 && Walk(tables, root, p) == Some(t) && i < 512 && Walk(tables, root, Sub(p, i)).None?
      modifies `tables, `mine
      ensures Valid() && Differ(old(tables), tables, root, Sub(p, i), Some(f))
      ensures tables.Keys == old(tables.Keys) && mine == Owning(old(mine), f)
    {
      NewPage(tables, root, given, mine, p, t, i, f, tables[t := tables[t][i := Entry(true, f)]]);
      tables := tables[t := tables[t][i := Entry(true, f)]];
      mine := Owning(mine, f);
    }

    /** A page comes out of the pools if the entry was absent, and is 0 only if all are out. */
    ghost predicate Supplied(before: Option<Frame>, mine: set<Frame>, mine': set<Frame>, out: set<Frame>, page: Frame) {
      if before.Some? then mine' == mine
      else if page == 0 then mine' == mine && forall g :: mem.InPools(g) ==> g in out
      else mem.InPools(page) && page !in out && mine' == mine + {page}
    }

    /** The handler's way down to the last table. */
    method DescendAll(vaddr: nat) returns (pt: Frame, ghost t1: Tables, ghost t2: Tables, ghost fs: (Frame, Frame))
      requires Valid() && Index4(vaddr) == 0
      modifies this, kernel
      ensures Valid() && Theirs() == old(Theirs()) && mine == old(mine)
      ensures Walk(tables, root, PathOf(vaddr).parent) == Some(pt)
      ensures var q3 := PathOf(vaddr).parent;
              && Grown(old(tables), t1, root, q3.parent.parent, fs.0) && Grown(t1, t2, root, q3.parent, fs.1)
              && Grown(t2, tables, root, q3, pt)
    {
      ghost var q2 := PathOf(vaddr).parent.parent;
      PathDepth(vaddr);
      var f1 := Descend(Root, root, 8 * Index4(vaddr));
      t1 := tables;
      var f2 := Descend(q2.parent, f1, Index3(vaddr));
      t2 := tables;
      pt := Descend(q2, f2, Index2(vaddr));
      fs := (f1, f2);
    }

    /** petmem_handle_pagefault. */
    method Fault(regions: MemMap, vaddr: nat) returns (r: int, ghost page: Frame)
      requires Valid() && MapOk(regions.nodes)
      modifies this, mem.repr, kernel
      ensures Valid() && Theirs() == old(Theirs()) && (r == 0 || r == -1)
      ensures r == 0 <==> old(Accepted(regions.nodes, vaddr))
      ensures r == -1 ==> tables == old(tables) && given == old(given) && mine == old(mine)
      ensures r == 0 ==> Faulted(old(tables), tables, root, vaddr, page) && Deepened(old(tables), tables, root, vaddr)
      ensures r == 0 ==> Supplied(Translate(old(tables), root, vaddr), old(mine), mine, old(mem.out), page)
    {
      page := 0;
      var found := regions.Contains(vaddr);
      if !found {
        return -1, 0;
      }
      AcceptedInRegion(regions.nodes, vaddr);
      FirstIndex(vaddr);
      page := FillIn(vaddr);
      r := 0;
    }

    method FillIn(vaddr: nat) returns (ghost page: Frame)
      requires Valid() && Index4(vaddr) == 0 && vaddr < 0x1_0000_0000_0000
      modifies this, mem.repr, kernel
      ensures Valid() && Theirs() == old(Theirs())
      ensures Faulted(old(tables), tables, root, vaddr, page) && Deepened(old(tables), tables, root, vaddr)
      ensures Supplied(Translate(old(tables), root, vaddr), old(mine), mine, old(mem.out), page)
    {
      ghost var t0, q3 := tables, PathOf(vaddr).parent;
      PathDepth(vaddr);
      ghost var t1, t2, fs;
      var pt;
      pt, t1, t2, fs := DescendAll(vaddr);
      ghost var t3 := tables;
      GrownThree(t0, t1, t2, t3, root, q3, fs.0, fs.1, pt, PathOf(vaddr));
      page := MapPage(q3, pt, Index1(vaddr));
      FaultDone(t0, t1, t2, t3, tables, root, vaddr, q3.parent.parent, q3.parent, q3, fs.0, fs.1, pt, page);
      FaultDeepens(t0, t1, t2, t3, tables, root, vaddr, fs.0, fs.1, pt, page);
    }

    /** pdpe_table_is_empty, pde_table_is_empty and pte_table_is_empty. */
    method TableEmpty(f: Frame) returns (r: bool)
      requires f in tables && |tables[f]| == 512
      ensures r <==> forall e :: e in tables[f] ==> !e.present
    {
      for i := 0 to 512
        invariant forall j :: 0 <= j < i ==> !tables[f][j].present
      {
        if tables[f][i].present {
          assert tables[f][i] in tables[f];
          return false;
        }
      }
      r := true;
    }

    /** At the end of table f, entry i of table t: release it if, and only if, it is empty. */
    method ReleaseIfEmpty(ghost p: Path, t: Frame, i: nat, f: Frame)
      requires Valid() && Depth(p) <= 2 && i < 512
      requires Walk(tables, root, p) == Some(t) && Walk(tables, root, Sub(p, i)) == Some(f)
      modifies this, kernel
      ensures Valid() && Theirs() == old(Theirs()) && mine == old(mine) && SamePages(old(tables), tables, root)
      ensures f in tables <==> exists e :: e in old(tables)[f] && e.present
      ensures Trims(old(tables), tables, root, {Sub(p, i)})
    {
      assert Depth(Sub(p, i)) <= 3;
      var empty := TableEmpty(f);
      if empty {
        RestLeft(kernel.inUse, tables.Keys, f);
        DropTable(p, t, i, f);
        kernel.FreePage(f);
        DropTrims(old(tables), tables, root, Sub(p, i));
      } else {
        KeepTrims(tables, root, Sub(p, i), f);
      }
    }

    /** The stores that take an empty table out. */
    method DropTable(ghost p: Path, t: Frame, i: nat, f: Frame)
      requires Balanced(tables, root, given, mine) && Depth(p) <= 2 && i < 512
      requires Walk(tables, root, p) == Some(t) && Walk(tables, root, Sub(p, i)) == Some(f)
      requires t in tables && |tables[t]| == 512 && f in tables && forall e :: e in tables[f] ==> !e.present
      modifies `tables, `given
      ensures Balanced(tables, root, given, mine) && tables.Keys == old(tables).Keys - {f}
      ensures Differ(old(tables), tables, root, Sub(p, i), None)
    {
      TableGone(tables, root, given, mine, p, t, i, f,
        tables[t := tables[t][i := tables[t][i].(present := false)]] - {f});
      tables := tables[t := tables[t][i := tables[t][i].(present := false)]];
      tables := tables - {f};
      given := given - {f};
    }

    /** increment_pdpe_index, with increment_pml_index in it. */
    method IncrementPdpe(c: Cursor, pdp: Frame) returns (c': Cursor)
      requires Valid() && Ok(c) && Walk(tables, root, At1(c)) == Some(pdp)
      modifies this, kernel
      ensures Valid() && Theirs() == old(Theirs()) && mine == old(mine) && SamePages(old(tables), tables, root)
      ensures c'.i1 == c.i1 && c'.i2 == c.i2 && c'.i3 < 512 && Lin(c') == Lin(c) + 0x4_0000
      ensures Trims(old(tables), tables, root, Ends1(c))
    {
      c' := c.(i3 := c.i3 + 1);
      if c'.i3 == 512 {
        c' := c'.(i3 := 0);
        ReleaseIfEmpty(Root, root, 8 * c.i4, pdp);
        c' := c'.(i4 := c'.i4 + 1);
      }
    }

    /** increment_pde_index. */
    method IncrementPde(c: Cursor, pdp: Frame, pd: Frame) returns (c': Cursor)
      requires Valid() && Ok(c)
      requires Walk(tables, root, At1(c)) == Some(pdp) && Walk(tables, root, At2(c)) == Some(pd)
      modifies this, kernel
      ensures Valid() && Theirs() == old(Theirs()) && mine == old(mine) && SamePages(old(tables), tables, root)
      ensures c'.i1 == c.i1 && c'.i2 < 512 && c'.i3 < 512 && Lin(c') == Lin(c) + 512
      ensures c'.i2 > 0 ==> Walk(tables, root, At2(c')).Some?
      ensures Trims(old(tables), tables, root, Ends2(c))
    {
      c' := c.(i2 := c.i2 + 1);
      if c'.i2 == 512 {
        c' := c'.(i2 := 0);
        AtDepths(c);
        ReleaseIfEmpty(At1(c), pdp, c.i3, pd);
        ghost var t := tables;
        c' := IncrementPdpe(c', pdp);
        TrimsPde(old(tables), t, tables, root, c);
      }
    }

    /** increment_pte_index. */
    method IncrementPte(c: Cursor, pdp: Frame, pd: Frame, pt: Frame) returns (c': Cursor)
      requires Valid() && Ok(c)
      requires Walk(tables, root, At1(c)) == Some(pdp) && Walk(tables, root, At2(c)) == Some(pd)
      requires Walk(tables, root, At3(c)) == Some(pt)
      modifies this, kernel
      ensures Valid() && Theirs() == old(Theirs()) && mine == old(mine) && SamePages(old(tables), tables, root)
      ensures c'.i1 < 512 && c'.i2 < 512 && c'.i3 < 512 && Lin(c') == Lin(c) + 1
      ensures Settled(tables, root, c') && Trims(old(tables), tables, root, Ends3(c))
    {
      c' := c.(i1 := c.i1 + 1);
      if c'.i1 == 512 {
        c' := c'.(i1 := 0);
        AtDepths(c);
        ReleaseIfEmpty(At2(c), pd, c.i2, pt);
        ghost var t, c1 := tables, c';
        c' := IncrementPde(c', pdp, pd);
        assert At3(c) == Sub(At2(c), c.i2) && Ends2(c1) == Ends2(c);
        TrimsPte(old(tables), t, tables, root, c);
      }
    }

    /** The body of the loop of petmem_free_vspace. */
    method Turn(c: Cursor) returns (c': Cursor, k: nat, page: Option<Frame>)
      requires Valid() && Ok(c)
      modifies this, mem.repr, kernel
      ensures Valid() && Theirs() == old(Theirs())
      ensures Settled(tables, root, c') && c'.i1 < 512 && c'.i2 < 512 && c'.i3 < 512
      ensures k == Count(old(tables), root, c) && Turned(old(tables), tables, root, c, c', page)
      ensures Trimmed(old(tables), tables, root, Lin(c), Lin(c'))
    {
      AtDepths(c);
      page := None;
      assert Walk(tables, root, Root) == Some(root);
      if !tables[root][8 * c.i4].present {
        CountWithin(tables, root, c);
        c', k := Cursor(c.i4 + 1, 0, 0, 0), (512 - c.i3) * (512 - c.i2) * (512 - c.i1);
        Absent1(tables, root, c, c');
        Absent1Trims(tables, root, c);
        return;
      }
      var pdp := tables[root][8 * c.i4].base;
      assert Walk(tables, root, At1(c)) == Some(pdp);
      if !tables[pdp][c.i3].present {
        CountWithin(tables, root, c);
        k := (512 - c.i2) * (512 - c.i1);
        ghost var t0 := tables;
        c' := IncrementPdpe(c, pdp);
        c' := c'.(i2 := 0, i1 := 0);
        Absent2(t0, root, c, c');
        Absent2Trims(t0, tables, root, c);
        return;
      }
      var pd := tables[pdp][c.i3].base;
      assert Walk(tables, root, At2(c)) == Some(pd);
      if !tables[pd][c.i2].present {
        k := 512 - c.i1;
        ghost var t0 := tables;
        c' := IncrementPde(c, pdp, pd);
        c' := c'.(i1 := 0);
        Absent3(t0, root, c, c');
        Absent3Trims(t0, tables, root, c);
        return;
      }
      var pt := tables[pd][c.i2].base;
      assert Walk(tables, root, At3(c)) == Some(pt);
      c', k, page := TurnPage(c, pdp, pd, pt);
    }

    method TurnPage(c: Cursor, pdp: Frame, pd: Frame, pt: Frame) returns (c': Cursor, k: nat, page: Option<Frame>)
      requires Valid() && Ok(c)
      requires Walk(tables, root, At1(c)) == Some(pdp) && Walk(tables, root, At2(c)) == Some(pd)
      requires Walk(tables, root, At3(c)) == Some(pt)
      modifies this, mem.repr, kernel
      ensures Valid() && Theirs() == old(Theirs())
      ensures Settled(tables, root, c') && c'.i1 < 512 && c'.i2 < 512 && c'.i3 < 512
      ensures k == 1 && Turned(old(tables), tables, root, c, c', page)
      ensures Trimmed(old(tables), tables, root, Lin(c), Lin(c'))
    {
      AtDepths(c);
      page := UnmapPage(c, pt);
      if page.None? {
        OnePage(tables, root, c);
      }
      k := 1;
      c' := IncrementPte(c, pdp, pd, pt);
      PageTrims(old(tables), tables, root, c);
    }

    /** The page the cursor stands at, if it is mapped, goes back to its pool. */
    method UnmapPage(c: Cursor, pt: Frame) returns (page: Option<Frame>)
      requires Valid() && Ok(c) && Walk(tables, root, At3(c)) == Some(pt)
      modifies this, mem.repr
      ensures Valid() && Theirs() == old(Theirs()) && page == Walk(old(tables), root, At4(c))
      ensures if page.None? then tables == old(tables) else Differ(old(tables), tables, root, At4(c), None)
    {
      AtDepths(c);
      page := None;
      if tables[pt][c.i1].present {
        ghost var t0 := tables;
        ClearPage(tables, root, At3(c), c.i1, tables[pt := tables[pt][c.i1 := tables[pt][c.i1].(present := false)]]);
        tables := tables[pt := tables[pt][c.i1 := tables[pt][c.i1].(present := false)]];
        var f := tables[pt][c.i1].base;
        BalancedClear(t0, tables, root, given, mine, At4(c), f);
        mem.NotOut(0);
        RestLeft(mem.out, mine, f);
        mem.FreePage(f);
        mine := mine - {f};
        page := Some(f);
      }
    }

    /** The loop of petmem_free_vspace over n pages from the cursor. Every mapping of the n pages
        goes, beyond them exactly the mappings in the excess go too, and the frames of the
        mappings gone, and no others, are back in the pools. */
    method FreePages(c0: Cursor, n: nat)
      requires Valid() && Ok(c0) && Lin(c0) + n <= 0x800_0000
      modifies this, mem.repr, kernel
      ensures Valid() && Theirs() == old(Theirs())
      ensures var hi := Lin(c0) + n + Excess(old(tables), root, c0, n);
              && Cleared(old(tables), tables, root, Lin(c0), hi)
              && GoneBack(old(tables), root, Lin(c0), hi, old(mine), mine)
              && if n == 0 then tables == old(tables) else TablesFreed(old(tables), tables, root, Lin(c0), hi)
    {
      ghost var before, out0, lo, e, first := tables, mine, Lin(c0), Excess(tables, root, c0, n), true;
      var c, freed := c0, 0;
      WalkStarts(before, root, c0, n);
      while freed < n
        invariant Valid() && Theirs() == old(Theirs()) && freed >= 0
        invariant Underway(before, tables, root, c0, n, freed, c, first)
        decreases n - freed
      {
        ghost var t := tables;
        var c', k, page := Turn(c);
        WalkOn(before, t, tables, root, c0, n, freed, c, first, k, c', page);
        c, freed, first := c', freed + k, false;
      }
      WalkDone(before, tables, root, c0, n, freed, c, first);
      BackInPools(before, tables, root, old(given), given, out0, mine, lo, lo + n + e);
    }

    /** petmem_free_vspace: an address in the first page of a region gives up the region and its
        pages; any other changes nothing. */
    method FreeRegion(regions: MemMap, vaddr: nat) returns (ghost hit: Option<Node>)
      requires Valid() && MapOk(regions.nodes) && regions !in mem.repr
      modifies this, mem.repr, kernel, regions
      ensures Valid() && Theirs() == old(Theirs()) && MapOk(regions.nodes)
      ensures hit.Some? <==> exists n :: n in Regions(old(regions.nodes)) && n.start == vaddr / 4096 * 4096
      ensures hit.Some? ==>
                && hit.value in Regions(old(regions.nodes)) && hit.value.start == vaddr / 4096 * 4096
                && Regions(regions.nodes) == Regions(old(regions.nodes)) - {hit.value}
                && FreedSpan(old(tables), tables, root, Start(vaddr), hit.value.size / 4096, old(mine), mine)
      ensures hit.None? ==> regions.nodes == old(regions.nodes)
      ensures hit.None? ==> tables == old(tables) && mine == old(mine)
    {
      var found := regions.Contains(vaddr);
      hit := RegionAt(regions.nodes, vaddr);
      if found {
        AcceptedInRegion(regions.nodes, vaddr);
        StartAtPage(vaddr);
        var n := GiveUp(regions, vaddr / 4096 * 4096);
        FreeSpan(Start(vaddr), n);
      }
    }

    /** The list part, which leaves the tables and the pools alone. */
    method GiveUp(regions: MemMap, pageAddr: nat) returns (n: nat)
      requires Valid() && MapOk(regions.nodes) && regions !in mem.repr
      modifies regions
      ensures Valid() && MapOk(regions.nodes)
      ensures (forall r :: r in Regions(old(regions.nodes)) ==> r.start != pageAddr) ==>
              n == 0 && regions.nodes == old(regions.nodes)
      ensures forall r :: r in Regions(old(regions.nodes)) && r.start == pageAddr ==>
                n == r.size / 4096 && Regions(regions.nodes) == Regions(old(regions.nodes)) - {r}
    {
      n := regions.Release(pageAddr);
    }

    /** The pages of the region; none if there is no region. */
    method FreeSpan(c: Cursor, n: nat)
      requires Valid() && Ok(c) && Lin(c) + n <= 0x800_0000
      modifies this, mem.repr, kernel
      ensures Valid() && Theirs() == old(Theirs()) && FreedSpan(old(tables), tables, root, c, n, old(mine), mine)
      ensures n == 0 ==> tables == old(tables) && mine == old(mine)
    {
      ghost var t0 := tables;
      FreePages(c, n);
      if n == 0 {
        NoExcess(t0, root, c);
      }
    }
  }

  /** The tables after one more turn, and after the last, which passes page x - 1. */
  lemma TurnTables(before: Tables, t: Tables, t': Tables, root: Frame, lo: nat, x: nat, c: Cursor, c': Cursor,
                   page: Option<Frame>)
    requires Ok(c) && lo <= Lin(c) < x && Trimmed(before, t, root, lo, Lin(c))
    requires Turned(t, t', root, c, c', page) && Trimmed(t, t', root, Lin(c), Lin(c'))
    ensures Trimmed(before, t', root, lo, Lin(c'))
    ensures Lin(c') >= x ==> TablesFreed(before, t', root, lo, x)
  {
    CountWithin(t, root, c);
    forall d | Ok(d) && Lin(d) < Lin(c) ensures Walk(t', root, At4(d)) == Walk(t, root, At4(d)) {
      AtDepths(d);
      assert At4(d) != At4(c);
    }
    TrimmedOn(before, t, t', root, lo, Lin(c), Lin(c'));
    if Lin(c') >= x {
      forall d | Ok(d) && Lin(d) + 1 == x ensures Reach(before, root, d) == Lin(c') {
        ReachIsNext(t, root, c);
        ReachThere(before, t, root, lo, c, d);
      }
    }
  }

  /** The walk of n pages from c0 has counted freed pages and stands at c. */
  ghost predicate Underway(before: Tables, t: Tables, root: Frame, c0: Cursor, n: nat, freed: nat, c: Cursor,
                           first: bool) {
    && Ok(c0) && Lin(c0) + n <= 0x800_0000 && (freed < n ==> Ok(c)) && (n == 0 ==> first)
    && var lo, e := Lin(c0), Excess(before, root, c0, n);
       && InStep(first, lo, n, e, freed, Lin(c))
       && (if first then c == c0 && t == before else Settled(t, root, c))
       && Cleared(before, t, root, lo, Lin(c)) && Unmapped(before, root, lo + n + e, Lin(c))
       && Trimmed(before, t, root, lo, Lin(c)) && (freed >= n > 0 ==> TablesFreed(before, t, root, lo, lo + n + e))
  }

  lemma WalkStarts(before: Tables, root: Frame, c0: Cursor, n: nat)
    requires Ok(c0) && Lin(c0) + n <= 0x800_0000
    ensures Underway(before, before, root, c0, n, 0, c0, true)
  {
  }

  lemma WalkOn(before: Tables, t: Tables, t': Tables, root: Frame, c0: Cursor, n: nat, freed: nat, c: Cursor,
               first: bool, k: nat, c': Cursor, page: Option<Frame>)
    requires Underway(before, t, root, c0, n, freed, c, first) && freed < n && k == Count(t, root, c)
    requires Turned(t, t', root, c, c', page) && Trimmed(t, t', root, Lin(c), Lin(c'))
    requires Settled(t', root, c') && c'.i3 < 512 && c'.i2 < 512 && c'.i1 < 512
    ensures k >= 1 && Underway(before, t', root, c0, n, freed + k, c', false)
  {
    var lo, e := Lin(c0), Excess(before, root, c0, n);
    CountWithin(t, root, c);
    TurnInStep(t, root, c, first, lo, n, e, freed, k, Lin(c'));
    TurnTables(before, t, t', root, lo, lo + n + e, c, c', page);
    TurnCleared(before, t, t', root, lo, c, c', page);
    TurnUnmapped(before, root, lo + n + e, c, c', page);
  }

  /** What the walk passes over beyond its last page is not mapped. */
  lemma TurnUnmapped(before: Tables, root: Frame, x: nat, c: Cursor, c': Cursor, page: Option<Frame>)
    requires Lin(c) <= Lin(c') && Unmapped(before, root, x, Lin(c))
    requires page.None? ==> Unmapped(before, root, Lin(c), Lin(c'))
    requires page.Some? ==> Lin(c') <= x
    ensures Unmapped(before, root, x, Lin(c'))
  {
  }

  lemma WalkDone(before: Tables, t: Tables, root: Frame, c0: Cursor, n: nat, freed: nat, c: Cursor, first: bool)
    requires Underway(before, t, root, c0, n, freed, c, first) && freed >= n
    ensures var hi := Lin(c0) + n + Excess(before, root, c0, n);
            && Cleared(before, t, root, Lin(c0), hi)
            && if n == 0 then t == before else TablesFreed(before, t, root, Lin(c0), hi)
  {
    NoExcess(before, root, c0);
  }

  /** The frames that were mapped from lo to hi, and no others, have left the set. */
  ghost predicate GoneBack(before: Tables, root: Frame, lo: nat, hi: nat, out: set<Frame>, out': set<Frame>) {
    forall f :: f in out' <==> f in out && !MappedIn(before, root, lo, hi, f)
  }

  ghost predicate MappedIn(before: Tables, root: Frame, lo: nat, hi: nat, f: Frame) {
    exists c :: Ok(c) && lo <= Lin(c) < hi && Walk(before, root, At4(c)) == Some(f)
  }

  lemma BackInPools(before: Tables, tables: Tables, root: Frame, given: set<Frame>, given': set<Frame>,
                    out: set<Frame>, out': set<Frame>, lo: nat, hi: nat)
    requires Balanced(before, root, given, out) && Balanced(tables, root, given', out')
    requires Cleared(before, tables, root, lo, hi)
    ensures GoneBack(before, root, lo, hi, out, out')
  {
    forall f ensures f in out' <==> f in out && !MappedIn(before, root, lo, hi, f) {
      StaysOut(before, tables, root, out, out', lo, hi, f);
    }
  }

  lemma StaysOut(before: Tables, tables: Tables, root: Frame, out: set<Frame>, out': set<Frame>, lo: nat, hi: nat,
                 f: Frame)
    requires Unshared(before, root) && 0 !in out && 0 !in out'
    requires AllMapped(before, root, out) && MappedOut(before, root, out)
    requires AllMapped(tables, root, out') && MappedOut(tables, root, out')
    requires Cleared(before, tables, root, lo, hi)
    ensures f in out' <==> f in out && !MappedIn(before, root, lo, hi, f)
  {
    if f in out' {
      assert Mapped(tables, root, f);
      var q :| Depth(q) == 4 && Walk(tables, root, q) == Some(f);
      assert Walk(before, root, q) == Some(f) && !Spanned(q, lo, hi) && Frames(before, root, q);
      forall c | Ok(c) && lo <= Lin(c) < hi ensures Walk(before, root, At4(c)) != Some(f) {
        AtDepths(c);
        assert At4(c) != q;
      }
    }
    if f in out && !MappedIn(before, root, lo, hi, f) {
      assert Mapped(before, root, f);
      var q :| Depth(q) == 4 && Walk(before, root, q) == Some(f);
      assert forall c :: Ok(c) && lo <= Lin(c) < hi ==> q != At4(c);
      assert Walk(tables, root, q) == Some(f) && Frames(tables, root, q);
    }
  }

  /** The region that starts in the page of the address, if there is one. */
  lemma RegionAt(nodes: seq<Node>, vaddr: nat) returns (hit: Option<Node>)
    requires MapOk(nodes)
    ensures hit.Some? <==> exists n :: n in Regions(nodes) && n.start == vaddr / 4096 * 4096
    ensures hit.Some? ==> hit.value in Regions(nodes) && hit.value.start == vaddr / 4096 * 4096
    ensures hit.Some? ==> hit.value.start <= vaddr <= hit.value.End()
    ensures hit.Some? ==> vaddr / 4096 + hit.value.size / 4096 <= 0x800_0000
  {
    if n :| n in Regions(nodes) && n.start == vaddr / 4096 * 4096 {
      var i :| 0 <= i < |nodes| && nodes[i] == n;
      InRegion(nodes, i);
      hit := Some(n);
    } else {
      hit := None;
    }
  }

  /** The pages from the cursor on are unmapped and their frames back in the pools, with the excess. */
  ghost predicate FreedSpan(before: Tables, tables: Tables, root: Frame, c: Cursor, n: nat, out: set<Frame>,
                            out': set<Frame>) {
    && Ok(c)
    && var hi := Lin(c) + n + Excess(before, root, c, n);
       && Cleared(before, tables, root, Lin(c), hi) && GoneBack(before, root, Lin(c), hi, out, out')
       && if n == 0 then tables == before else TablesFreed(before, tables, root, Lin(c), hi)
  }

  lemma OnePage(tables: Tables, root: Frame, c: Cursor)
    requires Ok(c) && Walk(tables, root, At4(c)).None?
    ensures Unmapped(tables, root, Lin(c), Lin(c) + 1)
  {
    forall d | Ok(d) && Lin(c) <= Lin(d) < Lin(c) + 1 ensures Walk(tables, root, At4(d)).None? {
      LinInjective(c, d);
    }
  }
}
