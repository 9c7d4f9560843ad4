/** The ADD_MEMORY loop of virtual_memory/main.c: a range of pages becomes a list of buddy
    pools, one for each set bit of the page count, the largest first. */
module PoolSetup {
  import opened Powers
  import opened BuddyAllocator

  const PAGE_SHIFT := 12

  type Addr = x: int | 0 <= x < 0x1_0000_0000_0000_0000

  /** One plus the position of the highest set bit; 0 for 0. */
  function Fls(n: nat): (r: nat) {
    if n == 0 then 0 else 1 + Fls(n / 2)
  }

  lemma {:induction false} FlsBounds(n: nat)
    requires n > 0
    ensures Fls(n) > 0 && Pow2(Fls(n) - 1) <= n < Pow2(Fls(n))
  {
    if n <= 1 {
    } else {
      FlsBounds(n / 2);
    }
  }

  /** Taking away the highest bit leaves a smaller order. */
  lemma FlsRemainder(n: nat)
    requires n > 0
    ensures n - Pow2(Fls(n) - 1) >= 0 && Fls(n - Pow2(Fls(n) - 1)) < Fls(n)
  {
    FlsBounds(n);
    var m := n - Pow2(Fls(n) - 1);
    if m > 0 {
      FlsBounds(m);
      if Fls(m) >= Fls(n) {
        Pow2Monotone(Fls(n) - 1, Fls(m) - 1);
        assert false;
      }
    }
  }

  /** The C expression 0x1 << k at type int, for k below 32: the sign bit makes it negative. */
  function IntShift(k: nat): int {
    var p: int := Pow2(k);
    if k < 31 then p else -p
  }

  /** base_addr += (0x1 << k) * PAGE_SIZE, at 64 bits. */
  function NextBase(base: Addr, k: nat): (r: Addr)
    requires Pow2(k) < TWO32
  {
    var x := base + IntShift(k) * 4096;
    if x >= TWO64 then x - TWO64 else if x < 0 then x + TWO64 else x
  }

  datatype Extent = Extent(base: nat, order: nat)

  /** The pools the loop creates for n pages from base, first created first. */
  function Extents(base: Addr, n: nat): (r: seq<Extent>)
    requires n < TWO32
    decreases n
  {
    if n == 0 then []
    else
      FlsRemainder(n);
      var k := Fls(n) - 1;
      [Extent(base, k + PAGE_SHIFT)] + Extents(NextBase(base, k), n - Pow2(k))
  }

  /** The extents follow one another without gap or overlap from one address to another. */
  predicate Tiles(es: seq<Extent>, from: nat, to: nat) {
    if es == [] then from == to
    else es[0].base == from && Tiles(es[1..], from + Pow2(es[0].order), to)
  }

  function TotalSize(es: seq<Extent>): nat {
    if es == [] then 0 else Pow2(es[0].order) + TotalSize(es[1..])
  }

  lemma {:induction false} PageShift(k: nat)
    ensures Pow2(k + PAGE_SHIFT) == Pow2(k) * 4096
  {
    assert Pow2(k + 12) == 2 * Pow2(k + 11) == 4 * Pow2(k + 10) == 8 * Pow2(k + 9);
    assert Pow2(k + 9) == 2 * Pow2(k + 8) == 4 * Pow2(k + 7) == 8 * Pow2(k + 6);
    assert Pow2(k + 6) == 2 * Pow2(k + 5) == 4 * Pow2(k + 4) == 8 * Pow2(k + 3);
    assert Pow2(k + 3) == 2 * Pow2(k + 2) == 4 * Pow2(k + 1) == 8 * Pow2(k);
  }

  lemma ExtentsCons(base: Addr, n: nat) returns (k: nat, m: nat)
    requires 0 < n < TWO32
    ensures k == Fls(n) - 1 && m == n - Pow2(k) && Fls(m) <= k && Pow2(k) < TWO32
    ensures Extents(base, n) == [Extent(base, k + PAGE_SHIFT)] + Extents(NextBase(base, k), m)
  {
    FlsRemainder(n);
    FlsBounds(n);
    k := Fls(n) - 1;
    m := n - Pow2(k);
  }

  /** Whatever the page count, the pools add up to it. */
  lemma {:induction false} ExtentsSize(base: Addr, n: nat)
    requires n < TWO32
    ensures TotalSize(Extents(base, n)) == n * 4096
    decreases n
  {
    if n == 0 {
    } else {
      var k, m := ExtentsCons(base, n);
      ExtentsSize(NextBase(base, k), m);
      PageShift(k);
    }
  }

  /** The pools have strictly decreasing orders, none below a page. */
  lemma {:induction false} ExtentsOrders(base: Addr, n: nat)
    requires n < TWO32
    ensures forall i :: 0 <= i < |Extents(base, n)| ==> PAGE_SHIFT <= Extents(base, n)[i].order < Fls(n) + PAGE_SHIFT
    ensures forall i, j :: 0 <= i < j < |Extents(base, n)| ==> Extents(base, n)[i].order > Extents(base, n)[j].order
    decreases n
  {
    if n == 0 {
    } else {
      var k, m := ExtentsCons(base, n);
      ExtentsOrders(NextBase(base, k), m);
    }
  }

  lemma {:induction false} TilesSize(es: seq<Extent>, from: nat, to: nat)
    requires Tiles(es, from, to)
    ensures to == from + TotalSize(es)
  {
    if es == [] {
    } else {
      TilesSize(es[1..], from + Pow2(es[0].order), to);
    }
  }

  /** Each extent lies in the range, ends before the next begins, and no address is missed. */
  lemma {:induction false} TilesBounds(es: seq<Extent>, from: nat, to: nat, i: nat)
    requires Tiles(es, from, to) && i < |es|
    ensures from <= es[i].base && es[i].base + Pow2(es[i].order) <= to
  {
    if i == 0 {
      TilesSize(es[1..], from + Pow2(es[0].order), to);
    } else {
      TilesBounds(es[1..], from + Pow2(es[0].order), to, i - 1);
    }
  }

  lemma {:induction false} TilesInOrder(es: seq<Extent>, from: nat, to: nat, i: nat, j: nat)
    requires Tiles(es, from, to) && i < j < |es|
    ensures es[i].base + Pow2(es[i].order) <= es[j].base
  {
    if i == 0 {
      TilesBounds(es[1..], from + Pow2(es[0].order), to, j - 1);
    } else {
      TilesInOrder(es[1..], from + Pow2(es[0].order), to, i - 1, j - 1);
    }
  }

  lemma {:induction false} TilesCover(es: seq<Extent>, from: nat, to: nat, a: nat) returns (i: nat)
    requires Tiles(es, from, to) && from <= a < to
    ensures i < |es| && es[i].base <= a < es[i].base + Pow2(es[i].order)
  {
    if a < from + Pow2(es[0].order) {
      i := 0;
    } else {
      i := TilesCover(es[1..], from + Pow2(es[0].order), to, a);
      i := i + 1;
    }
  }

  /** Extents of whole pages from a page boundary begin at page boundaries. */
  lemma {:induction false} TilesAligned(es: seq<Extent>, from: nat, to: nat, i: nat)
    requires Tiles(es, from, to) && i < |es| && from % 4096 == 0
    requires forall j :: 0 <= j < |es| ==> es[j].order >= PAGE_SHIFT
    ensures es[i].base % 4096 == 0
  {
    if i == 0 {
    } else {
      PageShift(es[0].order - PAGE_SHIFT);
      TilesAligned(es[1..], from + Pow2(es[0].order), to, i - 1);
    }
  }

  lemma SmallOrder(n: nat)
    requires 0 < n < TWO31
    ensures 0 < Fls(n) <= 31
  {
    FlsBounds(n);
    if Fls(n) > 31 {
      Pow2Monotone(31, Fls(n) - 1);
      Pow31();
      assert false;
    }
  }

  /** Below 2^31 pages the pools tile the range. */
  lemma {:induction false} SmallTiles(base: Addr, n: nat, to: nat)
    requires n < TWO31 && to == base + n * 4096 && to < TWO64
    ensures Tiles(Extents(base, n), base, to)
    decreases n
  {
    if n == 0 {
    } else {
      var k, m := ExtentsCons(base, n);
      SmallOrder(n);
      PageShift(k);
      var next := NextBase(base, k);
      assert to == next + m * 4096;
      SmallTiles(next, m, to);
    }
  }

  lemma Pow31()
    ensures Pow2(31) == TWO31 && Pow2(32) == TWO32
  {
    PageShift(19);
    PageShift(7);
    assert Pow2(7) == 128;
  }

  lemma TruncatedExtents(base: Addr, pages: nat, n: nat)
    requires n < TWO32 && n < pages
    ensures !Tiles(Extents(base, n), base, base + pages * 4096)
  {
    var es := Extents(base, n);
    ExtentsSize(base, n);
    if Tiles(es, base, base + pages * 4096) {
      TilesSize(es, base, base + pages * 4096);
      assert false;
    }
  }

  lemma Truncated(pages: nat, n: nat)
    requires n == pages % 0x1_0000_0000
    ensures if pages < TWO32 then n == pages else n < TWO32 <= pages
  {
  }

  /** The pools tile the requested range exactly when it has at most 2^31 pages: the page
      count is truncated to 32 bits and 0x1 << 31 is negative. */
  lemma TilesExactly(base: Addr, pages: nat, n: nat)
    requires n == pages % 0x1_0000_0000 && base + pages * 4096 < TWO64
    ensures Tiles(Extents(base, n), base, base + pages * 4096) <==> pages <= TWO31
  {
    Truncated(pages, n);
    if pages < TWO31 {
      SmallTiles(base, n, base + n * 4096);
    } else if pages < TWO32 {
      LargeExtents(base, n);
    } else {
      TruncatedExtents(base, pages, n);
    }
  }

  lemma OrderOf(n: nat, k: nat)
    requires k > 0 && Pow2(k - 1) <= n < Pow2(k)
    ensures Fls(n) == k
  {
    FlsBounds(n);
    if Fls(n) < k {
      Pow2Monotone(Fls(n), k - 1);
    } else if Fls(n) > k {
      Pow2Monotone(k, Fls(n) - 1);
    }
  }

  lemma LargeOrder(n: nat)
    requires TWO31 <= n < TWO32
    ensures Fls(n) == 32
  {
    Pow31();
    OrderOf(n, 32);
  }

  /** From 2^31 pages on, the second pool is placed 2^43 bytes below the first. */
  lemma LargeExtents(base: Addr, n: nat)
    requires TWO31 <= n < TWO32 && base + n * 4096 < TWO64
    ensures Tiles(Extents(base, n), base, base + n * 4096) <==> n == TWO31
  {
    LargeOrder(n);
    Pow31();
    PageShift(31);
    var es := Extents(base, n);
    assert es[0] == Extent(base, 43);
    var base' := NextBase(base, 31);
    assert es[1..] == Extents(base', n - TWO31);
    if n > TWO31 {
      assert es[1..][0].base == base';
    }
  }

  /** Made since the call began, with memory of its own. */
  twostate predicate New(new pool: BuddyMempool) {
    fresh(pool) && fresh(pool.tagBits) && fresh(pool.avail)
  }

  /** No two pools share anything that is written. */
  ghost predicate Apart(pools: seq<BuddyMempool>) {
    forall i, j :: 0 <= i < j < |pools| ==>
      pools[i] != pools[j] && pools[i].tagBits != pools[j].tagBits && pools[i].avail != pools[j].avail
  }

  /** ADD_MEMORY. */
  method AddMemory(base: Addr, pages: nat) returns (pools: seq<BuddyMempool>)
    requires pages < TWO64
    ensures |pools| == |Extents(base, pages % 0x1_0000_0000)|
    ensures forall i :: 0 <= i < |pools| ==>
              New(pools[i]) && Ready(pools[i], Extents(base, pages % 0x1_0000_0000)[|pools| - 1 - i])
    ensures Apart(pools)
  {
    pools := [];
    var numPages: nat, baseAddr: Addr := pages % 0x1_0000_0000, base;
    ghost var all, todo := Extents(baseAddr, numPages), Extents(baseAddr, numPages);
    while numPages != 0
      invariant numPages < TWO32 && todo == Extents(baseAddr, numPages)
      invariant |pools| <= |all| && all[|pools|..] == todo
      invariant forall i :: 0 <= i < |pools| ==> New(pools[i]) && Ready(pools[i], all[|pools| - 1 - i])
      invariant Apart(pools)
      decreases numPages
    {
      var pool;
      pool, baseAddr, numPages := AddPool(baseAddr, numPages);
      assert all[|pools|] == todo[0];
      todo := todo[1..];
      pools := [pool] + pools;
    }
  }

  /** The body of the loop: one pool for the highest set bit of the remaining page count. */
  method AddPool(base: Addr, n: nat) returns (pool: BuddyMempool, base': Addr, n': nat)
    requires 0 < n < TWO32
    ensures n' < n && Extents(base, n) != [] && Extents(base, n)[1..] == Extents(base', n')
    ensures New(pool) && Ready(pool, Extents(base, n)[0])
  {
    var regOrder := Fls(n);
    ghost var k, m := ExtentsCons(base, n);
    pool := NewPool(base, regOrder - 1 + PAGE_SHIFT);
    n' := n - Pow2(regOrder - 1);
    base' := NextBase(base, regOrder - 1);
  }

  ghost predicate Ready(pool: BuddyMempool, e: Extent)
    reads pool, pool.tagBits, pool.avail
  {
    && pool.Valid() && pool.live == {} && pool.minOrder == PAGE_SHIFT
    && pool.baseAddr == e.base && pool.poolOrder == e.order
    && pool.avail[e.order] == [0] && forall k :: 0 <= k < e.order ==> pool.avail[k] == []
  }

  /** buddy_init followed by buddy_free of the whole pool. */
  method NewPool(base: nat, order: nat) returns (pool: BuddyMempool)
    requires PAGE_SHIFT <= order
    ensures New(pool) && Ready(pool, Extent(base, order))
  {
    assert EffectiveMin(PAGE_SHIFT) == PAGE_SHIFT by { assert Pow2(12) == 4096; }
    pool := new BuddyMempool(base, order, PAGE_SHIFT);
    pool.Release(base, order);
    assert pool.live == {};
    EmptyPoolLists(pool.minOrder, pool.poolOrder, pool.avail[..]);
  }
}
