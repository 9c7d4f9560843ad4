/** Single pages from the list of buddy pools: petmem_alloc_pages and petmem_free_pages of
    virtual_memory/main.c for one page. Physical and virtual addresses are the same here. */
module PagePools {
  import opened Options
  import opened Powers
  import opened BuddyBlocks
  import opened BuddyAllocator
  import opened PoolSetup

  // ---- Pages of one pool ----------------------------------------------------------------

  /** Page f lies in the pool. */
  predicate Inside(base: nat, order: nat, f: nat) {
    base <= f * 4096 < base + Pow2(order)
  }

  /** A pool that serves pages, of at most 2^30 bytes: 0x1 << order must be positive. */
  ghost predicate Serving(base: nat, order: nat) {
    PAGE_SHIFT <= order <= 30 && 0 < base < TWO64 - Pow2(order) && base % 4096 == 0
  }

  /** Page f as a block of the pool. */
  function PageBlock(base: nat, f: nat): Block {
    Block(if f * 4096 < base then 0 else f * 4096 - base, PAGE_SHIFT)
  }

  ghost predicate OnlyPages(order: nat, live: set<Block>) {
    forall b :: b in live ==> b.order == PAGE_SHIFT && InPool(PAGE_SHIFT, order, b)
  }

  /** The live blocks are the pages of the set. */
  ghost predicate Pages(base: nat, order: nat, live: set<Block>, lent: set<nat>) {
    && OnlyPages(order, live)
    && forall f :: f in lent <==> Inside(base, order, f) && PageBlock(base, f) in live
  }

  lemma PageAligned(x: nat)
    ensures Aligned(x, PAGE_SHIFT) <==> x % 4096 == 0
  {
    PageShift(0);
    ShrDivides(x, PAGE_SHIFT);
  }

  /** A page of a pool is one of its smallest blocks. */
  lemma PageInPool(base: nat, order: nat, f: nat)
    requires Serving(base, order) && Inside(base, order, f)
    ensures InPool(PAGE_SHIFT, order, PageBlock(base, f))
  {
    var off := PageBlock(base, f).off;
    PageAligned(off);
    Pow2Aligned(PAGE_SHIFT, order);
    AlignedGap(off, Pow2(order), PAGE_SHIFT);
  }

  lemma BlockPage(base: nat, order: nat, b: Block, f: nat)
    requires Serving(base, order) && InPool(PAGE_SHIFT, order, b) && b.order == PAGE_SHIFT
    requires f == (base + b.off) / 4096
    ensures f > 0 && f * 4096 == base + b.off && Inside(base, order, f) && PageBlock(base, f) == b
  {
    PageAligned(b.off);
    WholePages(base, b.off);
  }

  lemma WholePages(x: nat, y: nat)
    requires x % 4096 == 0 && y % 4096 == 0
    ensures (x + y) / 4096 * 4096 == x + y
  {
  }

  /** What a pool answers: a page that was not out, or none when all are. */
  ghost predicate Took(base: nat, order: nat, lent: set<nat>, r: Option<nat>) {
    match r
    case None => forall g: nat :: Inside(base, order, g) ==> g in lent
    case Some(f) => f > 0 && Inside(base, order, f) && f !in lent
  }

  function Plus(lent: set<nat>, r: Option<nat>): set<nat> {
    match r case None => lent case Some(f) => lent + {f}
  }

  lemma NoneLeft(base: nat, order: nat, live: set<Block>, lent: set<nat>)
    requires Serving(base, order) && Pages(base, order, live, lent)
    requires forall b :: InPool(PAGE_SHIFT, order, b) && b.order == PAGE_SHIFT ==> !ClearOf(b, live)
    ensures Took(base, order, lent, None)
  {
    forall g: nat | Inside(base, order, g) ensures g in lent {
      var b := PageBlock(base, g);
      PageInPool(base, order, g);
      var o :| o in live && !Disjoint(b, o);
      Laminar(b, o);
    }
  }

  lemma OneTaken(base: nat, order: nat, live: set<Block>, lent: set<nat>, b: Block, f: nat)
    requires Serving(base, order) && Pages(base, order, live, lent) && b !in live
    requires InPool(PAGE_SHIFT, order, b) && b.order == PAGE_SHIFT && f == (base + b.off) / 4096
    ensures Took(base, order, lent, Some(f)) && Pages(base, order, live + {b}, lent + {f})
  {
    BlockPage(base, order, b, f);
  }

  // ---- The test of petmem_free_pages ----------------------------------------------------

  predicate InSpan(from: nat, to: nat, a: nat) {
    from <= a < to
  }

  /** The end of a pool as petmem_free_pages computes it. */
  function SpanEnd(base: nat, order: nat): (r: nat) {
    (base + IntShift(order)) % TWO64
  }

  lemma SpanSmall(base: nat, order: nat)
    requires order <= 30 && base < TWO64 - Pow2(order)
    ensures SpanEnd(base, order) == base + Pow2(order)
  {
  }

  /** The test is right for every address exactly if the pool has at most 2^30 bytes. For 2^31
      bytes 0x1 << 31 is negative: the test then misses the whole pool, or, if the pool begins
      below 2^31, takes in addresses beyond it. */
  lemma SpanExact(base: nat, order: nat)
    requires PAGE_SHIFT <= order <= 31 && base < TWO64 - Pow2(order)
    ensures (forall a :: InSpan(base, SpanEnd(base, order), a) <==> InSpan(base, base + Pow2(order), a)) <==>
            order <= 30
    ensures (forall a :: InSpan(base, base + Pow2(order), a) ==> InSpan(base, SpanEnd(base, order), a)) <==>
            order <= 30 || base < TWO31
  {
    if order <= 30 {
      SpanSmall(base, order);
    } else {
      Pow31();
      SpanLarge(base);
      if base < TWO31 {
        assert !InSpan(base, base + TWO31, base + TWO31);
      } else {
        assert !InSpan(base, SpanEnd(base, 31), base);
      }
    }
  }

  lemma SpanLarge(base: nat)
    requires base < TWO64 - TWO31
    ensures base < TWO31 ==> SpanEnd(base, 31) == TWO64 + base - TWO31 && InSpan(base, SpanEnd(base, 31), base + TWO31)
    ensures base >= TWO31 ==> SpanEnd(base, 31) == base - TWO31 && InSpan(base, base + TWO31, base)
  {
    Pow31();
  }

  /** ADD_MEMORY of 2^19 pages makes one pool of 2^31 bytes, and petmem_free_pages finds no page
      in it. */
  lemma NoPageFound(base: Addr)
    requires TWO31 <= base < TWO64 - TWO32
    ensures Extents(base, 0x8_0000) == [Extent(base, 31)]
    ensures forall a: nat :: !InSpan(base, SpanEnd(base, 31), a)
  {
    SpanLarge(base);
    PageShift(7);
    assert Pow2(7) == 128 && Pow2(20) == 2 * Pow2(19);
    OrderOf(0x8_0000, 20);
    var k, m := ExtentsCons(base, 0x8_0000);
  }

  // ---- The pages of all pools -----------------------------------------------------------

  /** What a pool has handed out, as blocks and as pages. */
  datatype Lot = Lot(live: set<Block>, lent: set<nat>)

  predicate Has(pool: BuddyMempool, f: nat) {
    Inside(pool.baseAddr, pool.poolOrder, f)
  }

  ghost predicate LotOk(pool: BuddyMempool, l: Lot) {
    Serving(pool.baseAddr, pool.poolOrder) && Pages(pool.baseAddr, pool.poolOrder, l.live, l.lent)
  }

  /** No page is in two pools. */
  ghost predicate Disjointed(pools: seq<BuddyMempool>) {
    forall i, j, f :: 0 <= i < j < |pools| && Has(pools[i], f) ==> !Has(pools[j], f)
  }

  /** Each pool hands out pages of its own, and out is all of them. */
  ghost predicate Booked(pools: seq<BuddyMempool>, lots: seq<Lot>, out: set<nat>) {
    && |lots| == |pools| && Disjointed(pools)
    && (forall i :: 0 <= i < |pools| ==> LotOk(pools[i], lots[i]))
    && (forall i, f :: 0 <= i < |pools| && f in lots[i].lent ==> f in out && Has(pools[i], f))
    && (forall f {:trigger OutAt(lots, f)} :: f in out ==> OutAt(lots, f))
  }

  ghost predicate OutAt(lots: seq<Lot>, f: nat) {
    exists i :: 0 <= i < |lots| && f in lots[i].lent
  }

  /** Page f of the pool has gone out. */
  ghost predicate Picked(pool: BuddyMempool, l: Lot, l': Lot, f: nat) {
    Has(pool, f) && f !in l.lent && LotOk(pool, l') && l'.lent == l.lent + {f}
  }

  lemma BookedNone(pools: seq<BuddyMempool>, lots: seq<Lot>)
    requires |lots| == |pools| && Disjointed(pools)
    requires forall i :: 0 <= i < |pools| ==> Serving(pools[i].baseAddr, pools[i].poolOrder) && lots[i] == Lot({}, {})
    ensures Booked(pools, lots, {})
  {
  }

  lemma NotElsewhere(pools: seq<BuddyMempool>, lots: seq<Lot>, out: set<nat>, i: nat, f: nat, j: nat)
    requires Booked(pools, lots, out) && i < |pools| && Has(pools[i], f) && j < |pools|
    ensures f in lots[j].lent ==> j == i
  {
  }

  lemma BookedTake(pools: seq<BuddyMempool>, lots: seq<Lot>, out: set<nat>, i: nat, l: Lot, f: nat)
    requires Booked(pools, lots, out) && i < |pools| && Picked(pools[i], lots[i], l, f)
    ensures f !in out && Booked(pools, lots[i := l], out + {f})
  {
    forall j | 0 <= j < |lots| ensures f !in lots[j].lent {
      NotElsewhere(pools, lots, out, i, f, j);
    }
    assert !OutAt(lots, f);
    var lots' := lots[i := l];
    forall g | g in out + {f} ensures OutAt(lots', g) {
      if g in out {
        assert OutAt(lots, g);
        var j :| 0 <= j < |lots| && g in lots[j].lent;
        assert g in lots'[j].lent;
      } else {
        assert g in lots'[i].lent;
      }
    }
  }

  lemma BookedGive(pools: seq<BuddyMempool>, lots: seq<Lot>, out: set<nat>, i: nat, l: Lot, f: nat)
    requires Booked(pools, lots, out) && i < |pools| && f in lots[i].lent
    requires LotOk(pools[i], l) && l.lent == lots[i].lent - {f}
    ensures Booked(pools, lots[i := l], out - {f})
  {
    var lots' := lots[i := l];
    forall j, g | 0 <= j < |pools| && g in lots'[j].lent ensures g in out - {f} && Has(pools[j], g) {
      NotElsewhere(pools, lots, out, i, f, j);
      assert g in lots[j].lent && g != f;
    }
    forall g | g in out - {f} ensures OutAt(lots', g) {
      assert OutAt(lots, g);
      var j :| 0 <= j < |lots| && g in lots[j].lent;
      assert g in lots'[j].lent;
    }
  }

  /** A page that is out was handed out by the pool it lies in. */
  lemma Lender(pools: seq<BuddyMempool>, lots: seq<Lot>, out: set<nat>, i: nat, f: nat)
    requires Booked(pools, lots, out) && (f in out || forall j :: 0 <= j < |pools| ==> !Has(pools[j], f))
    requires if i < |pools| then Has(pools[i], f) else forall j :: 0 <= j < |pools| ==> !Has(pools[j], f)
    ensures if i < |pools| then f in lots[i].lent else f !in out
  {
    assert f in out ==> OutAt(lots, f);
    if j :| 0 <= j < |lots| && f in lots[j].lent {
      assert Has(pools[j], f);
    }
  }

  // ---- The code -------------------------------------------------------------------------

  ghost predicate Ours(pool: BuddyMempool, live: set<Block>)
    reads pool, pool.tagBits, pool.avail
  {
    pool.Valid() && pool.minOrder == PAGE_SHIFT && pool.live == live
  }

  /** buddy_alloc of a page. */
  method Ask(pool: BuddyMempool, ghost live: set<Block>) returns (a: Option<nat>)
    requires Ours(pool, live) && PAGE_SHIFT <= pool.poolOrder
    modifies pool, pool.tagBits, pool.avail
    ensures a.None? ==>
              && Ours(pool, live)
              && forall b :: InPool(PAGE_SHIFT, pool.poolOrder, b) && b.order == PAGE_SHIFT ==> !ClearOf(b, live)
    ensures a.Some? ==>
              && a.value >= pool.baseAddr
              && var b := Block(a.value - pool.baseAddr, PAGE_SHIFT);
                 InPool(PAGE_SHIFT, pool.poolOrder, b) && b !in live && Ours(pool, live + {b})
  {
    a := pool.Alloc(PAGE_SHIFT);
  }

  /** One page from one pool. */
  method TakeOne(pool: BuddyMempool, ghost l: Lot) returns (r: Option<nat>, ghost l': Lot)
    requires Ours(pool, l.live) && LotOk(pool, l)
    modifies pool, pool.tagBits, pool.avail
    ensures Ours(pool, l'.live) && LotOk(pool, l') && l'.lent == Plus(l.lent, r)
    ensures Took(pool.baseAddr, pool.poolOrder, l.lent, r) && (r.None? ==> l' == l)
  {
    var a := Ask(pool, l.live);
    if a.None? {
      NoneLeft(pool.baseAddr, pool.poolOrder, l.live, l.lent);
      return None, l;
    }
    r := Some(a.value / 4096);
    ghost var b := Block(a.value - pool.baseAddr, PAGE_SHIFT);
    OneTaken(pool.baseAddr, pool.poolOrder, l.live, l.lent, b, r.value);
    l' := Lot(l.live + {b}, l.lent + {r.value});
  }

  /** One page back to its pool. */
  method GiveOne(pool: BuddyMempool, ghost l: Lot, f: nat) returns (ghost l': Lot)
    requires Ours(pool, l.live) && LotOk(pool, l) && f in l.lent
    modifies pool, pool.tagBits, pool.avail
    ensures Ours(pool, l'.live) && LotOk(pool, l') && l'.lent == l.lent - {f}
  {
    pool.Release(f * 4096, PAGE_SHIFT);
    l' := Lot(pool.live, l.lent - {f});
  }

  ghost function Parts(pools: seq<BuddyMempool>): set<object> {
    var own: set<object> := set p | p in pools;
    var tags: set<object> := set p | p in pools :: p.tagBits;
    var lists: set<object> := set p | p in pools :: p.avail;
    own + tags + lists
  }

  class PageMemory {
    const pools: seq<BuddyMempool>
    ghost const repr: set<object>
    ghost var lots: seq<Lot>
    /** The pages handed out and not given back. */
    ghost var out: set<nat>

    ghost predicate Sound()
      reads this, repr
    {
      && this in repr && |lots| == |pools| && Apart(pools)
      && (forall i :: 0 <= i < |pools| ==> pools[i] in repr && pools[i].tagBits in repr && pools[i].avail in repr)
      && (forall i :: 0 <= i < |pools| ==> Ours(pools[i], lots[i].live))
    }

    ghost predicate Valid()
      reads this, repr
    {
      Sound() && Booked(pools, lots, out)
    }

    /** Page f is in one of the pools. */
    predicate InPools(f: nat) {
      exists i :: 0 <= i < |pools| && Has(pools[i], f)
    }

    constructor (ps: seq<BuddyMempool>)
      requires Apart(ps) && Disjointed(ps)
      requires forall i :: 0 <= i < |ps| ==> Ours(ps[i], {}) && Serving(ps[i].baseAddr, ps[i].poolOrder)
      ensures Valid() && out == {} && pools == ps && repr == {this} + Parts(ps)
    {
      pools, repr, lots, out := ps, {this} + Parts(ps), seq(|ps|, i => Lot({}, {})), {};
      new;
      BookedNone(pools, lots);
    }

    lemma OutInPools(f: nat)
      requires Valid() && f in out
      ensures InPools(f) && f > 0
    {
      assert OutAt(lots, f);
      var i :| 0 <= i < |lots| && f in lots[i].lent;
      assert Has(pools[i], f) && LotOk(pools[i], lots[i]);
    }

    lemma NotOut(f: nat)
      requires Valid() && (f == 0 || !InPools(f))
      ensures f !in out && !InPools(f)
    {
      assert forall i :: 0 <= i < |pools| ==> LotOk(pools[i], lots[i]);
      if f in out {
        OutInPools(f);
      }
    }

    /** Every page of the first i pools is out. */
    ghost predicate AllOut(i: nat, out: set<nat>)
      requires i <= |pools|
    {
      forall j, g :: 0 <= j < i && Has(pools[j], g) ==> g in out
    }

    /** The page is from the first pool of which not every page is out. */
    ghost predicate FromFirst(f: nat, out: set<nat>) {
      exists i :: 0 <= i < |pools| && Has(pools[i], f) && AllOut(i, out)
    }

    lemma IsFirst(i: nat, f: nat, lots: seq<Lot>, out: set<nat>)
      requires Booked(pools, lots, out) && i < |pools| && Has(pools[i], f)
      requires forall j, g :: 0 <= j < i && Has(pools[j], g) ==> g in lots[j].lent
      ensures FromFirst(f, out)
    {
      assert AllOut(i, out);
    }

    /** petmem_alloc_pages(1): a page of the first pool that has one, or 0 if none has. */
    method AllocPage() returns (f: nat)
      requires Valid()
      modifies repr
      ensures Valid()
      ensures f == 0 ==> out == old(out) && forall g :: InPools(g) ==> g in out
      ensures f != 0 ==> InPools(f) && f !in old(out) && out == old(out) + {f} && FromFirst(f, old(out))
    {
      ghost var i, l;
      f, i, l := Search();
      if f != 0 {
        IsFirst(i, f, old(lots), out);
        BookedTake(pools, old(lots), out, i, l, f);
        out := out + {f};
      }
    }

    /** The loop over the pools. */
    method Search() returns (f: nat, ghost i: nat, ghost l: Lot)
      requires Sound() && forall i :: 0 <= i < |pools| ==> LotOk(pools[i], lots[i])
      modifies `lots, repr - {this}
      ensures Sound()
      ensures f == 0 ==> lots == old(lots) && forall j, g :: 0 <= j < |pools| && Has(pools[j], g) ==> g in lots[j].lent
      ensures f != 0 ==> i < |pools| && lots == old(lots)[i := l] && Picked(pools[i], old(lots)[i], l, f)
      ensures f != 0 ==> forall j, g :: 0 <= j < i && Has(pools[j], g) ==> g in old(lots)[j].lent
    {
      l := Lot({}, {});
      for k := 0 to |pools|
        invariant Sound() && lots == old(lots)
        invariant forall j, g :: 0 <= j < k && Has(pools[j], g) ==> g in lots[j].lent
      {
        f, l := TakeFrom(k);
        i := k;
        if f != 0 {
          return;
        }
      }
      f, i := 0, 0;
    }

    method TakeFrom(i: nat) returns (f: nat, ghost l: Lot)
      requires Sound() && i < |pools| && LotOk(pools[i], lots[i])
      modifies `lots, pools[i], pools[i].tagBits, pools[i].avail
      ensures Sound() && LotOk(pools[i], l)
      ensures f == 0 ==> lots == old(lots) && forall g: nat :: Has(pools[i], g) ==> g in lots[i].lent
      ensures f != 0 ==> lots == old(lots)[i := l] && Picked(pools[i], old(lots)[i], l, f)
    {
      var r;
      r, l := TakeOne(pools[i], lots[i]);
      f := 0;
      if r.Some? {
        f := r.value;
        lots := lots[i := l];
      }
    }

    /** petmem_free_pages(f << 12, 1); an address outside the pools is ignored. */
    method FreePage(f: nat)
      requires Valid() && (f in out || !InPools(f))
      modifies repr
      ensures Valid() && out == old(out) - {f}
    {
      var i := FindPool(f);
      Lender(pools, lots, out, i, f);
      if i < |pools| {
        GivePage(i, f);
      }
    }

    method GivePage(i: nat, f: nat)
      requires Valid() && i < |pools| && f in lots[i].lent
      modifies repr
      ensures Valid() && out == old(out) - {f}
    {
      ghost var l := GiveTo(i, f);
      BookedGive(pools, old(lots), out, i, l, f);
      out := out - {f};
    }

    method GiveTo(i: nat, f: nat) returns (ghost l: Lot)
      requires Sound() && i < |pools| && LotOk(pools[i], lots[i]) && f in lots[i].lent
      modifies `lots, pools[i], pools[i].tagBits, pools[i].avail
      ensures Sound() && LotOk(pools[i], l) && lots == old(lots)[i := l] && l.lent == old(lots)[i].lent - {f}
    {
      l := GiveOne(pools[i], lots[i], f);
      lots := lots[i := l];
    }

    /** The first pool whose span has the page. */
    method FindPool(f: nat) returns (i: nat)
      requires Valid()
      ensures i < |pools| ==> Has(pools[i], f)
      ensures i >= |pools| ==> !InPools(f)
    {
      i := 0;
      while i < |pools|
        invariant i <= |pools| && forall j :: 0 <= j < i ==> !Has(pools[j], f)
      {
        assert LotOk(pools[i], lots[i]);
        SpanSmall(pools[i].baseAddr, pools[i].poolOrder);
        if pools[i].baseAddr <= f * 4096 < SpanEnd(pools[i].baseAddr, pools[i].poolOrder) {
          return;
        }
        i := i + 1;
      }
    }
  }

  // ---- From ADD_MEMORY ------------------------------------------------------------------

  /** The pools are the extents, the last first. */
  ghost predicate Mirror(pools: seq<BuddyMempool>, es: seq<Extent>) {
    && |pools| == |es|
    && forall i :: 0 <= i < |es| ==>
         pools[i].baseAddr == es[|es| - 1 - i].base && pools[i].poolOrder == es[|es| - 1 - i].order
  }

  lemma PoolsApart(pools: seq<BuddyMempool>, es: seq<Extent>, from: nat, to: nat)
    requires Mirror(pools, es) && Tiles(es, from, to)
    ensures Disjointed(pools)
  {
    forall i, j, f | 0 <= i < j < |pools| && Has(pools[i], f) ensures !Has(pools[j], f) {
      TilesInOrder(es, from, to, |es| - 1 - j, |es| - 1 - i);
    }
  }

  lemma PoolsCover(pools: seq<BuddyMempool>, es: seq<Extent>, from: nat, to: nat, f: nat)
    requires Mirror(pools, es) && Tiles(es, from, to)
    ensures (exists i :: 0 <= i < |pools| && Has(pools[i], f)) <==> from <= f * 4096 < to
  {
    if i :| 0 <= i < |pools| && Has(pools[i], f) {
      TilesBounds(es, from, to, |es| - 1 - i);
    }
    if from <= f * 4096 < to {
      var i := TilesCover(es, from, to, f * 4096);
      assert Has(pools[|es| - 1 - i], f);
    }
  }

  lemma ExtentServes(base: Addr, pages: nat, e: Extent)
    requires 0 < base && base % 4096 == 0 && pages < 0x8_0000 && base + pages * 4096 < TWO64
    requires e in Extents(base, pages)
    ensures Serving(e.base, e.order)
  {
    var es, to := Extents(base, pages), base + pages * 4096;
    var i :| 0 <= i < |es| && es[i] == e;
    SmallTiles(base, pages, to);
    TilesBounds(es, base, to, i);
    ExtentsOrders(base, pages);
    TilesAligned(es, base, to, i);
    OrderBelow(pages);
  }

  lemma OrderBelow(n: nat)
    requires n < 0x8_0000
    ensures Fls(n) <= 19
  {
    PageShift(7);
    assert Pow2(7) == 128;
    if n > 0 && Fls(n) > 19 {
      FlsBounds(n);
      Pow2Monotone(19, Fls(n) - 1);
      assert false;
    }
  }

  /** ADD_MEMORY for a range below 2^31 bytes. */
  method AddRange(base: Addr, pages: nat) returns (pools: seq<BuddyMempool>)
    requires 0 < base && base % 4096 == 0 && pages < 0x8_0000 && base + pages * 4096 < TWO64
    ensures Apart(pools) && Mirror(pools, Extents(base, pages)) && fresh(Parts(pools))
    ensures forall i :: 0 <= i < |pools| ==> Ours(pools[i], {})
  {
    assert pages % 0x1_0000_0000 == pages;
    pools := AddMemory(base, pages);
  }

  /** The page memory that the pools of a range make up. */
  method Setup(base: Addr, pages: nat) returns (mem: PageMemory)
    requires 0 < base && base % 4096 == 0 && pages < 0x8_0000 && base + pages * 4096 < TWO64
    ensures fresh(mem.repr) && mem.Valid() && mem.out == {}
    ensures forall f: nat :: mem.InPools(f) <==> base <= f * 4096 < base + pages * 4096
  {
    var pools := AddRange(base, pages);
    RangeServes(pools, base, pages);
    RangeCovered(pools, base, pages);
    mem := new PageMemory(pools);
  }

  lemma RangeServes(pools: seq<BuddyMempool>, base: Addr, pages: nat)
    requires 0 < base && base % 4096 == 0 && pages < 0x8_0000 && base + pages * 4096 < TWO64
    requires Mirror(pools, Extents(base, pages))
    ensures Disjointed(pools) && forall i :: 0 <= i < |pools| ==> Serving(pools[i].baseAddr, pools[i].poolOrder)
  {
    var es, to: nat := Extents(base, pages), base + pages * 4096;
    SmallTiles(base, pages, to);
    PoolsApart(pools, es, base, to);
    forall i | 0 <= i < |pools| ensures Serving(pools[i].baseAddr, pools[i].poolOrder) {
      ExtentServes(base, pages, es[|es| - 1 - i]);
    }
  }

  lemma RangeCovered(pools: seq<BuddyMempool>, base: Addr, pages: nat)
    requires pages < 0x8_0000 && base + pages * 4096 < TWO64 && Mirror(pools, Extents(base, pages))
    ensures forall f: nat ::
              base <= f * 4096 < base + pages * 4096 <==> exists i :: 0 <= i < |pools| && Has(pools[i], f)
  {
    var es, to: nat := Extents(base, pages), base + pages * 4096;
    SmallTiles(base, pages, to);
    forall f: nat ensures base <= f * 4096 < to <==> exists i :: 0 <= i < |pools| && Has(pools[i], f) {
      PoolsCover(pools, es, base, to, f);
    }
  }
}
