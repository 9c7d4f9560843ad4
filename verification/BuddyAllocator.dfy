/** The buddy allocator of virtual_memory/buddy.c: per-order free lists, a tag bitmap with
    one bit per smallest block, and block headers kept inside the free memory itself. */
module BuddyAllocator {
  import opened Options
  import opened Powers
  import opened BuddyBlocks
  import opened Lists

  /** sizeof(struct block): two list pointers and an order. */
  const BLOCK_STRUCT_SIZE := 24

  /** The free lists as a set of blocks. */
  ghost function FreeSet(avail: seq<seq<nat>>): set<Block> {
    set k: nat, i: nat | k < |avail| && i < |avail[k]| :: Block(avail[k][i], k)
  }

  ghost predicate ListsOk(avail: seq<seq<nat>>) {
    forall k :: 0 <= k < |avail| ==> Distinct(avail[k])
  }

  lemma FreeSetHas(avail: seq<seq<nat>>, b: Block)
    ensures b in FreeSet(avail) <==> b.order < |avail| && b.off in avail[b.order]
  {
    if b.order < |avail| && b.off in avail[b.order] {
      var i: nat :| i < |avail[b.order]| && avail[b.order][i] == b.off;
      assert Block(avail[b.order][i], b.order) in FreeSet(avail);
    }
  }

  /** list_add: a new head. */
  lemma ListAdd(avail: seq<seq<nat>>, k: nat, off: nat)
    requires ListsOk(avail) && k < |avail| && Block(off, k) !in FreeSet(avail)
    ensures var avail' := avail[k := [off] + avail[k]];
            ListsOk(avail') && FreeSet(avail') == FreeSet(avail) + {Block(off, k)}
  {
    var avail' := avail[k := [off] + avail[k]];
    FreeSetHas(avail, Block(off, k));
    forall b ensures b in FreeSet(avail') <==> b in FreeSet(avail) + {Block(off, k)} {
      FreeSetHas(avail, b);
      FreeSetHas(avail', b);
    }
  }

  /** list_del of an element of a list. */
  lemma ListDel(avail: seq<seq<nat>>, k: nat, off: nat)
    requires ListsOk(avail) && k < |avail|
    ensures var avail' := avail[k := Without(avail[k], off)];
            ListsOk(avail') && FreeSet(avail') == FreeSet(avail) - {Block(off, k)}
  {
    var avail' := avail[k := Without(avail[k], off)];
    WithoutFacts(avail[k], off);
    forall b ensures b in FreeSet(avail') <==> b in FreeSet(avail) - {Block(off, k)} {
      FreeSetHas(avail, b);
      FreeSetHas(avail', b);
    }
  }

  /** Tags and headers are right at the head of every block; elsewhere they may be stale. */
  ghost predicate Tagged(lo: nat, tags: seq<bool>, headers: map<nat, nat>, free: set<Block>, live: set<Block>) {
    && (forall b :: b in free ==> Shr(b.off, lo) < |tags| && tags[Shr(b.off, lo)]
                                  && b.off in headers && headers[b.off] == b.order)
    && (forall b :: b in live ==> Shr(b.off, lo) < |tags| && !tags[Shr(b.off, lo)])
  }

  lemma HeadsDiffer(lo: nat, hi: nat, blocks: set<Block>, a: Block, b: Block)
    requires Legal(lo, hi, blocks) && Separate(blocks) && a in blocks && b in blocks && a != b
    ensures a.off != b.off && Shr(a.off, lo) != Shr(b.off, lo)
  {
    assert Disjoint(a, b);
    AlignedDown(a.off, lo, a.order);
    AlignedDown(b.off, lo, b.order);
    if Shr(a.off, lo) == Shr(b.off, lo) {
      ShrInjective(a.off, b.off, lo);
    }
  }

  lemma TagFits(lo: nat, hi: nat, b: Block)
    requires InPool(lo, hi, b)
    ensures b.off < Pow2(hi) && Shr(b.off, lo) < Pow2(hi - lo)
  {
    ShrBound(b.off, lo, hi);
  }

  /** Setting the tag and header of b makes b a properly marked free block. */
  lemma MarkFree(lo: nat, hi: nat, tags: seq<bool>, headers: map<nat, nat>,
                 free: set<Block>, live: set<Block>, b: Block)
    requires Legal(lo, hi, free + live + {b}) && Separate(free + live + {b}) && b !in free + live
    requires Tagged(lo, tags, headers, free, live) && Shr(b.off, lo) < |tags|
    ensures Tagged(lo, tags[Shr(b.off, lo) := true], headers[b.off := b.order], free + {b}, live)
  {
    forall c | c in free + live ensures c.off != b.off && Shr(c.off, lo) != Shr(b.off, lo) {
      HeadsDiffer(lo, hi, free + live + {b}, c, b);
    }
  }

  /** Clearing the tag of b makes b a properly marked live block. */
  lemma MarkLive(lo: nat, hi: nat, tags: seq<bool>, headers: map<nat, nat>,
                 free: set<Block>, live: set<Block>, b: Block)
    requires Legal(lo, hi, free + live) && Separate(free + live) && b in free && b !in live
    requires Tagged(lo, tags, headers, free, live)
    ensures Tagged(lo, tags[Shr(b.off, lo) := false], headers, free - {b}, live + {b})
  {
    forall c | c in free + live && c != b ensures Shr(c.off, lo) != Shr(b.off, lo) {
      HeadsDiffer(lo, hi, free + live, c, b);
    }
  }

  /** A live block gives way to its left half, which has the block's own tag bit. */
  lemma Halved(lo: nat, hi: nat, tags: seq<bool>, headers: map<nat, nat>, free: set<Block>, live: set<Block>,
               off: nat, j: nat, rest: set<Block>)
    requires Tiling(lo, hi, free, live) && Tagged(lo, tags, headers, free, live) && Block(off, j + 1) in live && lo <= j
    requires rest == live - {Block(off, j + 1)} + {Block(off, j)}
    ensures Block(off + Pow2(j), j) !in free && Tiling(lo, hi, free + {Block(off + Pow2(j), j)}, rest)
    ensures Tagged(lo, tags, headers, free, rest) && rest - {Block(off, j)} == live - {Block(off, j + 1)}
  {
    SplitLive(lo, hi, free, live, Block(off, j + 1));
  }

  /** The coalescing test of buddy_free is sound and complete: a set tag together with an
      equal stored order means exactly that the buddy is free as a whole. */
  lemma BuddyTest(lo: nat, hi: nat, tags: seq<bool>, headers: map<nat, nat>,
                  free: set<Block>, live: set<Block>, b: Block)
    requires Tiling(lo, hi, free, live) && b in live && b.order < hi
    requires Tagged(lo, tags, headers, free, live - {b}) && |tags| == Pow2(hi - lo)
    ensures var u := Buddy(b).off;
            && u < Pow2(hi) && Shr(u, lo) < |tags|
            && (tags[Shr(u, lo)] ==> u in headers)
            && (tags[Shr(u, lo)] && headers[u] == b.order <==> Buddy(b) in free)
  {
    BuddyFacts(lo, hi, b);
    TagFits(lo, hi, Buddy(b));
    var h := BuddyIsHead(lo, hi, free, live, b);
  }

  class BuddyMempool {
    const baseAddr: nat
    const poolOrder: nat
    const minOrder: nat
    const numBlocks: nat
    const tagBits: array<bool>
    const avail: array<seq<nat>>
    /** The order field of the header at each block offset. */
    var headers: map<nat, nat>
    /** The blocks handed out and not yet returned. */
    ghost var live: set<Block>

    ghost predicate Shape()
      reads this
    {
      && minOrder <= poolOrder
      && numBlocks == tagBits.Length == Pow2(poolOrder - minOrder)
      && avail.Length == poolOrder + 1
    }

    ghost function Free(): set<Block>
      reads this, avail
    {
      FreeSet(avail[..])
    }

    /** The allocator invariant with `lent` as the live blocks; `clean` are those of them
        whose tag bit is known to be clear. */
    ghost predicate Holds(lent: set<Block>, clean: set<Block>)
      reads this, tagBits, avail
    {
      && Shape()
      && ListsOk(avail[..])
      && Tiling(minOrder, poolOrder, Free(), lent)
      && Tagged(minOrder, tagBits[..], headers, Free(), clean)
    }

    ghost predicate Valid()
      reads this, tagBits, avail
    {
      Holds(live, live)
    }

    /** A new pool starts with every byte allocated. */
    constructor (base: nat, order: nat, min: nat)
      requires EffectiveMin(min) <= order
      ensures Valid() && fresh(tagBits) && fresh(avail)
      ensures baseAddr == base && poolOrder == order && minOrder == EffectiveMin(min)
      ensures Free() == {} && live == {Block(0, order)}
    {
      baseAddr, poolOrder, minOrder := base, order, EffectiveMin(min);
      avail := new seq<nat>[order + 1](_ => []);
      numBlocks := Pow2(order - EffectiveMin(min));
      tagBits := new bool[Pow2(order - EffectiveMin(min))](_ => false);
      headers := map[];
      live := {Block(0, order)};
      new;
      InitialTiling(minOrder, poolOrder);
      ShrBound(0, minOrder, poolOrder);
      assert Free() == {};
    }

    /** buddy_init: NULL when the smallest block would be larger than the pool. */
    static method Init(base: nat, order: nat, min: nat) returns (mp: BuddyMempool?)
      ensures mp == null <==> EffectiveMin(min) > order
      ensures mp != null ==> fresh(mp) && fresh(mp.tagBits) && fresh(mp.avail) && mp.Valid()
      ensures mp != null ==> mp.baseAddr == base && mp.poolOrder == order && mp.minOrder == EffectiveMin(min)
      ensures mp != null ==> mp.Free() == {} && mp.live == {Block(0, order)}
    {
      if EffectiveMin(min) > order {
        return null;
      }
      mp := new BuddyMempool(base, order, min);
    }

    function BlockToId(off: nat): (id: nat)
      requires Shape() && off < Pow2(poolOrder)
      reads this
      ensures id < numBlocks && id == Shr(off, minOrder)
    {
      ShrBound(off, minOrder, poolOrder);
      Shr(off, minOrder)
    }

    /** find_buddy, on addresses: the exclusive or of the relative address with 1 << order. */
    function FindBuddy(addr: nat, order: nat): (buddy: nat)
      requires addr >= baseAddr
      ensures buddy >= baseAddr && DifferAt(buddy - baseAddr, addr - baseAddr, order)
    {
      FlipBitXor(addr - baseAddr, order);
      baseAddr + FlipBit(addr - baseAddr, order)
    }

    /** Asking for the buddy of the buddy leads back. */
    lemma FindBuddyTwice(addr: nat, order: nat)
      requires addr >= baseAddr
      ensures FindBuddy(FindBuddy(addr, order), order) == addr
    {
      SameBits(FindBuddy(FindBuddy(addr, order), order) - baseAddr, addr - baseAddr);
    }

    /** The order is raised to the smallest, and no further. */
    function Rounded(order: nat): (r: nat)
      ensures r >= order && r >= minOrder && (r == order || r == minOrder)
    {
      if order < minOrder then minOrder else order
    }

    /** buddy_alloc. */
    method Alloc(order: nat) returns (r: Option<nat>)
      requires Valid() && order <= poolOrder
      modifies this, tagBits, avail
      ensures Valid()
      ensures r.None? ==> live == old(live) && avail[..] == old(avail[..])
                          && forall b :: InPool(minOrder, poolOrder, b) && b.order == Rounded(order)
                                         ==> !ClearOf(b, live)
      ensures r.Some? ==> r.value >= baseAddr && Granted(old(live), Block(r.value - baseAddr, Rounded(order)))
      ensures r.Some? ==> BestFit(old(avail[..]), avail[..], r.value - baseAddr, Rounded(order))
    {
      var found := TakeBlock(Rounded(order));
      r := match found case Some(off) => Some(baseAddr + off) case None => None;
    }

    /** The search through the lists from order o on. */
    method TakeBlock(o: nat) returns (r: Option<nat>)
      requires Valid() && minOrder <= o <= poolOrder
      modifies this, tagBits, avail
      ensures Valid()
      ensures r.None? ==> live == old(live) && avail[..] == old(avail[..])
                          && forall b :: InPool(minOrder, poolOrder, b) && b.order == o ==> !ClearOf(b, live)
      ensures r.Some? ==> Granted(old(live), Block(r.value, o)) && BestFit(old(avail[..]), avail[..], r.value, o)
    {
      var j := o;
      while j <= poolOrder
        invariant o <= j <= poolOrder + 1
        invariant forall i :: o <= i < j ==> avail[i] == []
      {
        if avail[j] != [] {
          ghost var lists := avail[..];
          var off := Cut(j, o);
          Fitted(lists, avail[..], off, j, o);
          return Some(off);
        }
        j := j + 1;
      }
      NoneClear(o);
      r := None;
    }

    lemma NoneClear(o: nat)
      requires Valid() && forall i :: o <= i <= poolOrder ==> avail[i] == []
      ensures forall b :: InPool(minOrder, poolOrder, b) && b.order == o ==> !ClearOf(b, live)
    {
      forall b | InPool(minOrder, poolOrder, b) && b.order == o ensures !ClearOf(b, live) {
        if ClearOf(b, live) {
          var f := WhollyFree(minOrder, poolOrder, Free(), live, b);
          FreeSetHas(avail[..], f);
          assert false;
        }
      }
    }

    /** The first block of list j, cut down to order o. */
    method Cut(j: nat, o: nat) returns (off: nat)
      requires Valid() && minOrder <= o <= j <= poolOrder && avail[j] != []
      modifies this, tagBits, avail
      ensures Valid() && Granted(old(live), Block(off, o)) && off == old(avail[j])[0]
      ensures avail[..] == WithHalves(old(avail[..])[j := old(avail[j])[1..]], off, j, o)
    {
      off := avail[j][0];
      ghost var b := Block(off, j);
      FreeSetHas(avail[..], b);
      ClearOfLive(minOrder, poolOrder, Free(), live, b);
      TakeFirst(off, j);
      Trim(off, j, o);
      GrantedPart(old(live), b, Block(off, o));
    }

    /** Unlink the first block of list j and mark it allocated. */
    method TakeFirst(off: nat, j: nat)
      requires Valid() && j <= poolOrder && avail[j] != [] && off == avail[j][0]
      modifies this, tagBits, avail
      ensures Valid() && Block(off, j) in live && live - {Block(off, j)} == old(live)
      ensures avail[..] == old(avail[..])[j := old(avail[j])[1..]]
    {
      ghost var b, lists := Block(off, j), avail[..];
      FreeSetHas(lists, b);
      ListDel(lists, j, off);
      TakeFree(minOrder, poolOrder, Free(), live, b);
      MarkLive(minOrder, poolOrder, tagBits[..], headers, Free(), live, b);
      TagFits(minOrder, poolOrder, b);
      avail[j] := avail[j][1..];
      tagBits[BlockToId(off)] := false;
      live := live + {b};
      assert avail[..] == lists[j := Without(lists[j], off)];
    }

    lemma GrantedPart(before: set<Block>, whole: Block, part: Block)
      requires Valid() && part in live && live - {part} == before
      requires ClearOf(whole, before) && whole.off == part.off && part.order <= whole.order
      ensures Granted(before, part)
    {
      Pow2Monotone(part.order, whole.order);
      assert part in Free() + live;
    }

    /** The block is legal, was clear of every live block, and is now live itself. */
    ghost predicate Granted(before: set<Block>, b: Block)
      reads this
    {
      InPool(minOrder, poolOrder, b) && ClearOf(b, before) && b !in before && live == before + {b}
    }

    /** Alloc's inner loop: halve the taken block down to order o, freeing each right half. */
    method Trim(off: nat, order: nat, o: nat)
      requires Valid() && minOrder <= o <= order && Block(off, order) in live
      modifies this, tagBits, avail
      ensures Valid() && Block(off, o) in live
      ensures live - {Block(off, o)} == old(live) - {Block(off, order)}
      ensures order <= avail.Length && avail[..] == WithHalves(old(avail[..]), off, order, o)
    {
      var j := order;
      ghost var lists, others := avail[..], live - {Block(off, order)};
      while j > o
        invariant o <= j <= order
        invariant Valid() && Block(off, j) in live && live - {Block(off, j)} == others
        invariant avail[..] == WithHalves(lists, off, order, j)
      {
        j := j - 1;
        SplitOff(off, j, lists, order, others);
      }
    }

    /** One turn of the loop; lists and the other live blocks are those it began with. */
    method SplitOff(off: nat, j: nat, ghost lists: seq<seq<nat>>, ghost order: nat, ghost others: set<Block>)
      requires Valid() && minOrder <= j < order && Block(off, j + 1) in live && live - {Block(off, j + 1)} == others
      requires order <= |lists| && avail[..] == WithHalves(lists, off, order, j + 1)
      modifies this, tagBits, avail
      ensures Valid() && Block(off, j) in live && live - {Block(off, j)} == others
      ensures avail[..] == WithHalves(lists, off, order, j)
    {
      FreeRight(off, j);
    }

    method FreeRight(off: nat, j: nat)
      requires Valid() && j >= minOrder && Block(off, j + 1) in live
      modifies this, tagBits, avail
      ensures Valid() && Block(off, j) in live && live - {Block(off, j)} == old(live) - {Block(off, j + 1)}
      ensures j < avail.Length && avail[..] == old(avail[..])[j := [off + Pow2(j)] + old(avail[j])]
    {
      ghost var free, rest := Free(), live - {Block(off, j + 1)} + {Block(off, j)};
      Halved(minOrder, poolOrder, tagBits[..], headers, free, live, off, j, rest);
      live := rest;
      Publish(off + Pow2(j), j, free, rest);
    }

    /** buddy_free of a block that is out. */
    method Release(addr: nat, order: nat)
      requires Valid() && order <= poolOrder && addr >= baseAddr
      requires Block(addr - baseAddr, Rounded(order)) in live
      modifies this, tagBits, avail
      ensures Valid() && live == old(live) - {Block(addr - baseAddr, Rounded(order))}
      ensures PutBack(old(avail[..]), avail[..], Block(addr - baseAddr, Rounded(order)), old(Free()))
    {
      var off: nat, o: nat := addr - baseAddr, Rounded(order);
      TagFits(minOrder, poolOrder, Block(off, o));
      assert !tagBits[BlockToId(off)];
      ghost var b, lists := Block(off, o), avail[..];
      off, o := Coalesce(off, o);
      ghost var lists1 := avail[..];
      ReleaseLive(minOrder, poolOrder, Free(), live, Block(off, o));
      live := live - {Block(off, o)};
      Publish(off, o, Free(), live);
      Back(lists, lists1, avail[..], b, off, o, old(Free()));
    }

    /** The merging loop of buddy_free; it stops below a buddy that is not free as a whole. */
    method Coalesce(off0: nat, order0: nat) returns (off: nat, o: nat)
      requires Valid() && Block(off0, order0) in live
      modifies this, avail
      ensures o <= poolOrder && Returning(Block(off, o))
      ensures live - {Block(off, o)} == old(live) - {Block(off0, order0)}
      ensures o < poolOrder ==> Buddy(Block(off, o)) !in Free()
      ensures Merges(old(avail[..]), avail[..], Block(off0, order0), Block(off, o), old(Free()))
    {
      off, o := off0, order0;
      ghost var lists, others, free := avail[..], live - {Block(off, o)}, Free();
      assert Block(off, o) in Free() + live;
      while o < poolOrder
        invariant o <= poolOrder && Returning(Block(off, o)) && live - {Block(off, o)} == others
        invariant Merges(lists, avail[..], Block(off0, order0), Block(off, o), free)
        decreases poolOrder - o
      {
        ghost var b := Block(off, o);
        BuddyTest(minOrder, poolOrder, tagBits[..], headers, Free(), live, b);
        var buddy := FindBuddy(baseAddr + off, o) - baseAddr;
        if !tagBits[BlockToId(buddy)] || headers[buddy] != o {
          return;
        }
        ghost var lists1 := avail[..];
        off, o := Merge(off, o, buddy, others);
        MergedOn(lists, lists1, avail[..], Block(off0, order0), b, Block(off, o), free);
      }
    }

    /** b is being given back: it still counts as live, but its tag bit may be stale. */
    ghost predicate Returning(b: Block)
      reads this, tagBits, avail
    {
      b in live && Holds(live, live - {b})
    }

    /** Write the header of a block, set its tag and put it at the front of its list. */
    method Publish(off: nat, o: nat, ghost free: set<Block>, ghost rest: set<Block>)
      requires Shape() && ListsOk(avail[..]) && free == Free() && rest == live && Block(off, o) !in free
      requires Tiling(minOrder, poolOrder, free + {Block(off, o)}, rest)
      requires Tagged(minOrder, tagBits[..], headers, free, rest)
      modifies this`headers, tagBits, avail
      ensures Valid() && Free() == old(Free()) + {Block(off, o)}
      ensures o < avail.Length && avail[..] == old(avail[..])[o := [off] + old(avail[o])]
    {
      ghost var b, lists := Block(off, o), avail[..];
      assert b in Free() + {b} + live;
      TagFits(minOrder, poolOrder, b);
      assert Free() + {b} + live == Free() + live + {b};
      MarkFree(minOrder, poolOrder, tagBits[..], headers, Free(), live, b);
      ListAdd(lists, o, off);
      headers := headers[off := o];
      tagBits[BlockToId(off)] := true;
      avail[o] := [off] + avail[o];
      assert avail[..] == lists[o := [off] + lists[o]];
    }

    /** One merge of buddy_free: unlink the free buddy and carry on as the parent block. */
    method Merge(off: nat, o: nat, buddy: nat, ghost others: set<Block>) returns (off': nat, o': nat)
      requires Returning(Block(off, o)) && o < poolOrder && live - {Block(off, o)} == others
      requires Block(buddy, o) == Buddy(Block(off, o)) && Block(buddy, o) in Free()
      modifies this, avail
      ensures o' == o + 1 && Block(off', o') == Parent(Block(off, o)) && Returning(Block(off', o'))
      ensures live - {Block(off', o')} == others
      ensures TakenOut(old(avail[o]), buddy, avail[o]) && avail[..] == old(avail[..])[o := avail[o]]
    {
      ghost var b, p, lists := Block(off, o), Parent(Block(off, o)), avail[..];
      ghost var free := Free() - {Buddy(b)};
      MergeLive(minOrder, poolOrder, Free(), live, b);
      live := live - {b} + {p};
      forall f | f in free ensures f.off != p.off {
        HeadsDiffer(minOrder, poolOrder, free + live, f, p);
      }
      assert live - {p} == old(live) - {b};
      ListDel(lists, o, buddy);
      FreeSetHas(lists, Block(buddy, o));
      WithoutTakesOut(lists[o], buddy);
      avail[o] := Without(avail[o], buddy);
      assert avail[..] == lists[o := Without(lists[o], buddy)];
      off' := if buddy < off then buddy else off;
      headers := headers[off' := o + 1];
      o' := o + 1;
    }

    /** An allocation that is returned leaves no trace in the free set. */
    method AllocThenRelease(order: nat) returns (r: Option<nat>)
      requires Valid() && order <= poolOrder
      modifies this, tagBits, avail
      ensures Valid() && live == old(live) && Free() == old(Free())
    {
      r := Alloc(order);
      if r.Some? {
        Release(r.value, order);
        assert live == old(live);
        HistoryIndependent(minOrder, poolOrder, Free(), old(Free()), live);
      }
    }

    /** Last in, first out: a block that is returned and merges with nothing is what the next request
        for its order gets, and the lists are as before. */
    method ReleaseThenAlloc(addr: nat, order: nat) returns (r: Option<nat>)
      requires Valid() && order <= poolOrder && addr >= baseAddr
      requires Block(addr - baseAddr, Rounded(order)) in live
      requires Buddy(Block(addr - baseAddr, Rounded(order))) !in Free()
      modifies this, tagBits, avail
      ensures Valid() && r == Some(addr) && live == old(live) && avail[..] == old(avail[..])
    {
      ghost var b, lists, free := Block(addr - baseAddr, Rounded(order)), avail[..], Free();
      Release(addr, order);
      ghost var lists1 := avail[..];
      StillClear(lists, lists1, b, free);
      r := Alloc(order);
      Reused(lists, lists1, avail[..], b, free, r.value - baseAddr);
      assert r.value == addr && live == old(live) - {b} + {b};
    }

    lemma StillClear(lists: seq<seq<nat>>, lists1: seq<seq<nat>>, b: Block, free: set<Block>)
      requires Valid() && lists1 == avail[..] && PutBack(lists, lists1, b, free) && Buddy(b) !in free
      ensures InPool(minOrder, poolOrder, b) && ClearOf(b, live)
    {
      assert PutAs(lists, lists1, b, free, b);
      FreeSetHas(lists1, b);
      ClearOfLive(minOrder, poolOrder, Free(), live, b);
      assert b in Free() + live;
    }

    /** Clients may scribble anywhere inside the blocks they hold. */
    method ClientWrite(b: Block, off: nat, v: nat)
      requires Valid() && b in live && b.Covers(off)
      modifies this`headers
      ensures Valid() && headers == old(headers)[off := v]
    {
      forall f | f in Free() ensures f.off != off {
        ClearOfLive(minOrder, poolOrder, Free(), live, f);
        assert f.Covers(f.off);
      }
      headers := headers[off := v];
    }
  }

  /** The block at off was the first one on the first non-empty list of order at least o, it is gone
      from there, and the right halves it leaves are each on the list of their order, alone. */
  ghost predicate BestFit(avail: seq<seq<nat>>, avail': seq<seq<nat>>, off: int, o: nat) {
    exists j :: Fits(avail, avail', off, o, j)
  }

  ghost predicate Fits(avail: seq<seq<nat>>, avail': seq<seq<nat>>, off: int, o: nat, j: nat) {
    && o <= j < |avail| == |avail'| && avail[j] != [] && avail[j][0] == off
    && (forall i :: o <= i < j ==> avail[i] == [])
    && forall k :: 0 <= k < |avail| ==>
         avail'[k] == if k == j then avail[j][1..] else if o <= k < j then [off + Pow2(k)] else avail[k]
  }

  /** The lists once the right halves from o up to order have gone to the front of theirs. */
  ghost function WithHalves(avail: seq<seq<nat>>, off: nat, order: nat, o: nat): (r: seq<seq<nat>>)
    requires order <= |avail|
    ensures |r| == |avail|
    decreases order - o
  {
    if o >= order then avail
    else
      var rest := WithHalves(avail, off, order, o + 1);
      rest[o := [off + Pow2(o)] + rest[o]]
  }

  lemma {:induction false} HalvesAt(avail: seq<seq<nat>>, off: nat, order: nat, o: nat, k: nat)
    requires order <= |avail| && k < |avail|
    ensures WithHalves(avail, off, order, o)[k] == if o <= k < order then [off + Pow2(k)] + avail[k] else avail[k]
    decreases order - o
  {
    if o >= order {
    } else {
      var rest := WithHalves(avail, off, order, o + 1);
      HalvesAt(avail, off, order, o + 1, k);
      assert WithHalves(avail, off, order, o) == rest[o := [off + Pow2(o)] + rest[o]];
      assert k == o ==> rest[o] == avail[o];
    }
  }

  lemma Fitted(avail: seq<seq<nat>>, avail': seq<seq<nat>>, off: nat, j: nat, o: nat)
    requires o <= j < |avail| && avail[j] != [] && avail[j][0] == off && (forall i :: o <= i < j ==> avail[i] == [])
    requires avail' == WithHalves(avail[j := avail[j][1..]], off, j, o)
    ensures BestFit(avail, avail', off, o)
  {
    forall k | 0 <= k < |avail|
      ensures avail'[k] == if k == j then avail[j][1..] else if o <= k < j then [off + Pow2(k)] else avail[k]
    {
      HalvesAt(avail[j := avail[j][1..]], off, j, o, k);
    }
    assert Fits(avail, avail', off, o, j);
  }

  ghost predicate OneOut(list: seq<nat>, list': seq<nat>) {
    exists x :: TakenOut(list, x, list')
  }

  /** Block b has grown to b' by merges: one block has left each list between their orders. */
  ghost predicate Merges(avail: seq<seq<nat>>, avail': seq<seq<nat>>, b: Block, b': Block, free: set<Block>) {
    && |avail'| == |avail| && b.order <= b'.order
    && (b' == b || Buddy(b) in free)
    && forall k :: 0 <= k < |avail| ==>
         if b.order <= k < b'.order then OneOut(avail[k], avail'[k]) else avail'[k] == avail[k]
  }

  lemma MergedOn(avail: seq<seq<nat>>, avail1: seq<seq<nat>>, avail2: seq<seq<nat>>, b: Block, b1: Block, b2: Block,
                 free: set<Block>)
    requires Merges(avail, avail1, b, b1, free) && b1.order < |avail1| && (b1 == b ==> Buddy(b) in free)
    requires |avail2| == |avail1| && avail2 == avail1[b1.order := avail2[b1.order]] && b2.order == b1.order + 1
    requires TakenOut(avail1[b1.order], Buddy(b1).off, avail2[b1.order])
    ensures Merges(avail, avail2, b, b2, free)
  {
    forall k | 0 <= k < |avail|
      ensures if b.order <= k < b2.order then OneOut(avail[k], avail2[k]) else avail2[k] == avail[k]
    {
      if k == b1.order {
        assert TakenOut(avail[k], Buddy(b1).off, avail2[k]);
      }
    }
  }

  /** Where a returned block goes: with what it merges with, to the front of the list of the order
      they make, and by itself if its buddy was not free; one block leaves each list below. */
  ghost predicate PutBack(avail: seq<seq<nat>>, avail': seq<seq<nat>>, b: Block, free: set<Block>) {
    exists b' :: PutAs(avail, avail', b, free, b')
  }

  ghost predicate PutAs(avail: seq<seq<nat>>, avail': seq<seq<nat>>, b: Block, free: set<Block>, b': Block) {
    && |avail'| == |avail| && b.order <= b'.order < |avail| && (b' == b || Buddy(b) in free)
    && avail'[b'.order] == [b'.off] + avail[b'.order]
    && forall k :: 0 <= k < |avail| && k != b'.order ==>
         if b.order <= k < b'.order then OneOut(avail[k], avail'[k]) else avail'[k] == avail[k]
  }

  lemma Back(avail: seq<seq<nat>>, avail1: seq<seq<nat>>, avail2: seq<seq<nat>>, b: Block, off: nat, o: nat,
             free: set<Block>)
    requires Merges(avail, avail1, b, Block(off, o), free) && o < |avail1| && avail2 == avail1[o := [off] + avail1[o]]
    ensures PutBack(avail, avail2, b, free)
  {
    assert PutAs(avail, avail2, b, free, Block(off, o));
  }

  /** What was put at the front of its list is what the list gives first. */
  lemma Reused(avail: seq<seq<nat>>, avail1: seq<seq<nat>>, avail2: seq<seq<nat>>, b: Block, free: set<Block>, off: int)
    requires PutBack(avail, avail1, b, free) && Buddy(b) !in free && BestFit(avail1, avail2, off, b.order)
    ensures off == b.off && avail2 == avail
  {
    assert PutAs(avail, avail1, b, free, b);
    var j :| Fits(avail1, avail2, off, b.order, j);
    assert j == b.order;
  }

  /** The lists of two pools with the same live blocks hold the same blocks, order by order. */
  lemma ListsDetermined(lo: nat, hi: nat, avail1: seq<seq<nat>>, avail2: seq<seq<nat>>, live: set<Block>, k: nat)
    requires ListsOk(avail1) && ListsOk(avail2) && k < |avail1| == |avail2|
    requires Tiling(lo, hi, FreeSet(avail1), live) && Tiling(lo, hi, FreeSet(avail2), live)
    ensures multiset(avail1[k]) == multiset(avail2[k])
  {
    HistoryIndependent(lo, hi, FreeSet(avail1), FreeSet(avail2), live);
    forall x: nat ensures multiset(avail1[k])[x] == multiset(avail2[k])[x] {
      FreeSetHas(avail1, Block(x, k));
      FreeSetHas(avail2, Block(x, k));
      DistinctCount(avail1[k], x);
      DistinctCount(avail2[k], x);
    }
  }

  /** When everything has been returned, the top list holds offset 0 and the others are empty. */
  lemma EmptyPoolLists(lo: nat, hi: nat, avail: seq<seq<nat>>)
    requires lo <= hi && |avail| == hi + 1 && ListsOk(avail) && Tiling(lo, hi, FreeSet(avail), {})
    ensures avail[hi] == [0] && forall k :: 0 <= k < hi ==> avail[k] == []
  {
    AllReturned(lo, hi, FreeSet(avail));
    forall k | 0 <= k < hi ensures avail[k] == [] {
      if avail[k] != [] {
        FreeSetHas(avail, Block(avail[k][0], k));
        assert false;
      }
    }
    FreeSetHas(avail, Block(0, hi));
    assert Distinct(avail[hi]) && (|avail[hi]| > 1 ==> avail[hi][0] != avail[hi][1]);
    forall i | 0 <= i < |avail[hi]| ensures avail[hi][i] == 0 {
      FreeSetHas(avail, Block(avail[hi][i], hi));
    }
  }

  /** What a client may ask of a pool: a block, or the return of one it holds. */
  datatype Request = Get(order: nat) | Put(slot: nat)

  /** The client holds exactly the live blocks, each once. */
  ghost predicate Holding(pool: BuddyMempool, held: seq<Block>)
    reads pool
  {
    && Distinct(held)
    && (forall b :: b in pool.live <==> b in held)
  }

  /** A block that a request for order o may be given: of that order, or of the smallest if that is
      larger, and clear of all that are held. */
  ghost predicate Grantable(lo: nat, hi: nat, held: seq<Block>, o: nat, b: Block) {
    InPool(lo, hi, b) && b.order == (if o < lo then lo else o) && ClearOf(b, set h | h in held)
  }

  /** What a request does to the blocks held: one is granted if there is any, and the one that is
      returned goes. */
  ghost predicate Answered(lo: nat, hi: nat, held: seq<Block>, q: Request, held': seq<Block>) {
    match q
    case Get(o) =>
      || (exists b :: Grantable(lo, hi, held, o, b) && held' == held + [b])
      || (held' == held && (o > hi || forall b :: !Grantable(lo, hi, held, o, b)))
    case Put(slot) => held' == if slot < |held| then held[..slot] + held[slot + 1..] else held
  }

  lemma Canonical(pool: BuddyMempool, held: seq<Block>)
    requires pool.Valid() && Holding(pool, held)
    ensures forall b :: b in pool.Free() <==> MaximalFree(pool.minOrder, pool.poolOrder, (set h | h in held), b)
    ensures held == [] ==> pool.avail[pool.poolOrder] == [0]
    ensures held == [] ==> forall k :: 0 <= k < pool.poolOrder ==> pool.avail[k] == []
  {
    assert pool.live == set h | h in held;
    forall b ensures b in pool.Free() <==> MaximalFree(pool.minOrder, pool.poolOrder, (set h | h in held), b) {
      CanonicalForm(pool.minOrder, pool.poolOrder, pool.Free(), pool.live, b);
    }
    if held == [] {
      assert pool.live == {};
      EmptyPoolLists(pool.minOrder, pool.poolOrder, pool.avail[..]);
    }
  }

  /** A pool set up as ADD_MEMORY does, then serving any sequence of requests, grants a block whenever
      there is one, and always has the canonical free set of what the client still holds. */
  method Serve(base: nat, order: nat, min: nat, requests: seq<Request>)
    returns (pool: BuddyMempool, held: seq<Block>, ghost history: seq<seq<Block>>)
    requires EffectiveMin(min) <= order
    ensures fresh(pool) && pool.Valid() && pool.poolOrder == order && Holding(pool, held)
    ensures |history| == |requests| + 1 && history[0] == [] && history[|requests|] == held
    ensures forall i :: 0 <= i < |requests| ==>
              Answered(EffectiveMin(min), order, history[i], requests[i], history[i + 1])
    ensures forall b :: b in pool.Free() <==> MaximalFree(EffectiveMin(min), order, (set h | h in held), b)
    ensures held == [] ==> pool.avail[order] == [0] && forall k :: 0 <= k < order ==> pool.avail[k] == []
  {
    pool := new BuddyMempool(base, order, min);
    pool.Release(base, order);
    held, history := [], [[]];
    for i := 0 to |requests|
      invariant fresh(pool) && fresh(pool.tagBits) && fresh(pool.avail)
      invariant pool.Valid() && Holding(pool, held)
      invariant pool.poolOrder == order && pool.minOrder == EffectiveMin(min)
      invariant |history| == i + 1 && history[0] == [] && history[i] == held
      invariant forall j :: 0 <= j < i ==>
                  Answered(EffectiveMin(min), order, history[j], requests[j], history[j + 1])
    {
      held := ServeOne(pool, held, requests[i]);
      history := history + [held];
    }
    Canonical(pool, held);
  }

  method ServeOne(pool: BuddyMempool, held: seq<Block>, q: Request) returns (held': seq<Block>)
    requires pool.Valid() && Holding(pool, held)
    modifies pool, pool.tagBits, pool.avail
    ensures pool.Valid() && Holding(pool, held')
    ensures Answered(pool.minOrder, pool.poolOrder, held, q, held')
  {
    held' := held;
    match q {
      case Get(o) => held' := GetOne(pool, held, o);
      case Put(slot) =>
        if slot < |held| {
          assert held[slot] in pool.Free() + pool.live;
          pool.Release(pool.baseAddr + held[slot].off, held[slot].order);
          held' := held[..slot] + held[slot + 1..];
        }
    }
  }

  method GetOne(pool: BuddyMempool, held: seq<Block>, o: nat) returns (held': seq<Block>)
    requires pool.Valid() && Holding(pool, held)
    modifies pool, pool.tagBits, pool.avail
    ensures pool.Valid() && Holding(pool, held')
    ensures Answered(pool.minOrder, pool.poolOrder, held, Get(o), held')
  {
    held' := held;
    assert pool.live == set h | h in held;
    if o <= pool.poolOrder {
      var r := pool.Alloc(o);
      if r.Some? {
        ghost var b := Block(r.value - pool.baseAddr, pool.Rounded(o));
        assert Grantable(pool.minOrder, pool.poolOrder, held, o, b);
        held' := held + [Block(r.value - pool.baseAddr, pool.Rounded(o))];
      }
    }
  }

  /** The smallest order whose blocks can hold a header: buddy_init raises min_order to it. */
  function EffectiveMin(min: nat): (r: nat)
    ensures Pow2(r) >= BLOCK_STRUCT_SIZE && (r == min || (Pow2(min) < BLOCK_STRUCT_SIZE && r == 5))
  {
    if Pow2(min) < BLOCK_STRUCT_SIZE then 5 else min
  }

  lemma InitialTiling(lo: nat, hi: nat)
    requires lo <= hi
    ensures Tiling(lo, hi, {}, {Block(0, hi)})
  {
    var whole := Block(0, hi);
    ZeroAligned(hi);
    forall x: nat | x < Pow2(hi) ensures Covered({} + {whole}, x) {
      assert whole in {} + {whole} && whole.Covers(x);
    }
  }
}
