/** Blocks of a buddy pool: base-relative, naturally aligned power-of-two ranges.

    A pool is described by two sets of blocks, the free ones and the live ones (handed out
    and not yet returned). This module holds the geometry of such blocks, the invariant
    that the two sets tile the pool with no two free buddies, and the canonical-form theorem. */
module BuddyBlocks {
  import opened Powers

  datatype Block = Block(off: nat, order: nat) {
    function End(): nat { off + Pow2(order) }
    predicate Covers(x: nat) { off <= x < End() }
  }

  predicate Disjoint(a: Block, b: Block) {
    a.End() <= b.off || b.End() <= a.off
  }

  predicate Within(a: Block, b: Block) {
    b.off <= a.off && a.End() <= b.End()
  }

  /** A legal block of a pool of 2^hi bytes whose smallest block has 2^lo bytes. */
  predicate InPool(lo: nat, hi: nat, b: Block) {
    lo <= b.order <= hi && Aligned(b.off, b.order) && b.End() <= Pow2(hi)
  }

  /** The offset whose bit `order` differs: find_buddy's exclusive or with 1 << order. */
  function FlipBit(off: nat, order: nat): (r: nat) {
    if BitSet(off, order) then BitMeansLarge(off, order); off - Pow2(order)
    else off + Pow2(order)
  }

  /** r and x have the same bits but for bit k. */
  ghost predicate DifferAt(r: nat, x: nat, k: nat) {
    forall j: nat :: BitSet(r, j) <==> (BitSet(x, j) <==> j != k)
  }

  /** It is the exclusive or: bit k is inverted and every other bit is kept. */
  lemma FlipBitXor(off: nat, k: nat)
    ensures DifferAt(FlipBit(off, k), off, k)
  {
    forall j: nat ensures BitSet(FlipBit(off, k), j) <==> (BitSet(off, j) <==> j != k) {
      FlipBitAt(off, k, j);
    }
  }

  lemma {:induction false} FlipBitAt(off: nat, k: nat, j: nat)
    ensures BitSet(FlipBit(off, k), j) <==> (BitSet(off, j) <==> j != k)
    decreases k
  {
    var r := FlipBit(off, k);
    if k == 0 {
      assert r / 2 == off / 2 && r % 2 != off % 2;
    } else {
      assert r / 2 == FlipBit(off / 2, k - 1) && r % 2 == off % 2;
      if j > 0 {
        FlipBitAt(off / 2, k - 1, j - 1);
      }
    }
  }

  function Buddy(b: Block): Block {
    Block(FlipBit(b.off, b.order), b.order)
  }

  function Parent(b: Block): Block {
    Block(if Buddy(b).off < b.off then Buddy(b).off else b.off, b.order + 1)
  }

  /** Two aligned blocks are disjoint or nested. */
  lemma Laminar(a: Block, b: Block)
    requires Aligned(a.off, a.order) && Aligned(b.off, b.order) && a.order <= b.order
    ensures Disjoint(a, b) || Within(a, b)
    ensures a.order == b.order && !Disjoint(a, b) ==> a == b
  {
    AlignedDown(b.off, a.order, b.order);
    Pow2Aligned(a.order, b.order);
    AlignedSum(b.off, Pow2(b.order), a.order);
    if a.off < b.off {
      AlignedGap(a.off, b.off, a.order);
    } else if a.off < b.End() {
      AlignedGap(a.off, b.End(), a.order);
    }
    Pow2Monotone(a.order, b.order);
  }

  /** The buddy is the other half of the parent, and being buddies is mutual. */
  lemma BuddyFacts(lo: nat, hi: nat, b: Block)
    requires InPool(lo, hi, b) && b.order < hi
    ensures InPool(lo, hi, Buddy(b)) && InPool(lo, hi, Parent(b))
    ensures Buddy(b) != b && Disjoint(b, Buddy(b)) && Buddy(Buddy(b)) == b
    ensures Within(b, Parent(b)) && Within(Buddy(b), Parent(b))
    ensures Parent(Buddy(b)) == Parent(b)
    ensures forall x :: Parent(b).Covers(x) <==> b.Covers(x) || Buddy(b).Covers(x)
  {
    FlipFacts(b.off, b.order);
    var p := Parent(b);
    Pow2Aligned(p.order, hi);
    AlignedGap(p.off, Pow2(hi), p.order);
  }

  lemma FlipFacts(off: nat, k: nat)
    requires Aligned(off, k)
    ensures var r := FlipBit(off, k);
            && Aligned(r, k) && FlipBit(r, k) == off
            && ((r == off + Pow2(k) && Aligned(off, k + 1)) || (off == r + Pow2(k) && Aligned(r, k + 1)))
  {
    BitOfAligned(off, k);
    var r := FlipBit(off, k);
    AlignedDown(if r < off then r else off, k, k + 1);
    BitOfAligned(r, k);
  }

  /** The invariant: free and live blocks tile the pool, and no two buddies are both free. */
  ghost predicate Tiling(lo: nat, hi: nat, free: set<Block>, live: set<Block>) {
    && free !! live
    && Legal(lo, hi, free + live)
    && Separate(free + live)
    && CoversPool(hi, free + live)
    && Coalesced(hi, free)
  }

  ghost predicate Legal(lo: nat, hi: nat, blocks: set<Block>) {
    forall b :: b in blocks ==> InPool(lo, hi, b)
  }

  ghost predicate Separate(blocks: set<Block>) {
    forall a, b :: a in blocks && b in blocks && a != b ==> Disjoint(a, b)
  }

  ghost predicate CoversPool(hi: nat, blocks: set<Block>) {
    forall x: nat :: x < Pow2(hi) ==> Covered(blocks, x)
  }

  ghost predicate Coalesced(hi: nat, free: set<Block>) {
    forall b :: b in free && b.order < hi ==> Buddy(b) !in free
  }

  ghost predicate Covered(blocks: set<Block>, x: nat) {
    exists b :: b in blocks && b.Covers(x)
  }

  ghost predicate ClearOf(b: Block, live: set<Block>) {
    forall l :: l in live ==> Disjoint(b, l)
  }

  /** b is a maximal aligned block that avoids every live block. */
  ghost predicate MaximalFree(lo: nat, hi: nat, live: set<Block>, b: Block) {
    && InPool(lo, hi, b)
    && ClearOf(b, live)
    && (b.order < hi ==> !ClearOf(Parent(b), live))
  }

  /** A legal block that no live block touches lies inside one free block. */
  lemma {:induction false} WhollyFree(lo: nat, hi: nat, free: set<Block>, live: set<Block>, b: Block)
    returns (f: Block)
    requires Tiling(lo, hi, free, live) && InPool(lo, hi, b) && ClearOf(b, live)
    ensures f in free && Within(b, f) && b.order <= f.order
    decreases b.order
  {
    if b.order == lo {
      assert Covered(free + live, b.off);
      f :| f in free + live && f.Covers(b.off);
      Laminar(b, f);
    } else {
      var k := b.order - 1;
      BuddyFactsOfHalf(lo, hi, b);
      var fl := WhollyFree(lo, hi, free, live, Block(b.off, k));
      var fr := WhollyFree(lo, hi, free, live, Block(b.off + Pow2(k), k));
      f := WiderOf(lo, hi, free, live, b, fl, fr);
    }
  }

  /** Free blocks around the two halves of b: as buddies they cannot both be halves. */
  lemma WiderOf(lo: nat, hi: nat, free: set<Block>, live: set<Block>, b: Block, fl: Block, fr: Block)
    returns (f: Block)
    requires Tiling(lo, hi, free, live) && InPool(lo, hi, b) && lo < b.order
    requires fl in free && Within(Block(b.off, b.order - 1), fl) && b.order - 1 <= fl.order
    requires fr in free && Within(Block(b.off + Pow2(b.order - 1), b.order - 1), fr) && b.order - 1 <= fr.order
    ensures f in free && Within(b, f) && b.order <= f.order
  {
    BuddyFactsOfHalf(lo, hi, b);
    assert fl in free + live && fr in free + live;
    if fl.order >= b.order {
      f := fl;
      Laminar(b, f);
    } else if fr.order >= b.order {
      f := fr;
      Laminar(b, f);
    } else {
      Laminar(Block(b.off, b.order - 1), fl);
      Laminar(Block(b.off + Pow2(b.order - 1), b.order - 1), fr);
      assert false;
    }
  }

  lemma BuddyFactsOfHalf(lo: nat, hi: nat, b: Block)
    requires InPool(lo, hi, b) && lo < b.order
    ensures var left := Block(b.off, b.order - 1);
            var right := Block(b.off + Pow2(b.order - 1), b.order - 1);
            && InPool(lo, hi, left) && InPool(lo, hi, right)
            && Buddy(left) == right && Buddy(right) == left && Parent(left) == b
            && Within(left, b) && Within(right, b) && Disjoint(left, right)
            && forall x :: b.Covers(x) <==> left.Covers(x) || right.Covers(x)
  {
    var left := Block(b.off, b.order - 1);
    AlignedDown(b.off, b.order - 1, b.order);
    BitOfAligned(b.off, b.order - 1);
    BuddyFacts(lo, hi, left);
  }

  lemma ClearOfLive(lo: nat, hi: nat, free: set<Block>, live: set<Block>, b: Block)
    requires Tiling(lo, hi, free, live) && b in free
    ensures ClearOf(b, live)
  {
    forall l | l in live ensures Disjoint(b, l) {
      assert l in free + live;
    }
  }

  /** Canonical form: the free blocks are exactly the maximal aligned blocks avoiding the
      live ones, so the live set alone determines the free set. */
  lemma CanonicalForm(lo: nat, hi: nat, free: set<Block>, live: set<Block>, b: Block)
    requires Tiling(lo, hi, free, live)
    ensures b in free <==> MaximalFree(lo, hi, live, b)
  {
    if b in free {
      ClearOfLive(lo, hi, free, live, b);
      if b.order < hi && ClearOf(Parent(b), live) {
        BuddyFacts(lo, hi, b);
        var f := WhollyFree(lo, hi, free, live, Parent(b));
        assert false;
      }
    } else if MaximalFree(lo, hi, live, b) {
      var f := WhollyFree(lo, hi, free, live, b);
      Laminar(b, f);
      if b.order == f.order {
        assert false;
      }
      BuddyFacts(lo, hi, b);
      Laminar(Parent(b), f);
      var l :| l in live && !Disjoint(Parent(b), l);
      ClearOfLive(lo, hi, free, live, f);
      assert false;
    }
  }

  /** Two pools with the same live blocks have the same free blocks, whatever their pasts. */
  lemma HistoryIndependent(lo: nat, hi: nat, free1: set<Block>, free2: set<Block>, live: set<Block>)
    requires Tiling(lo, hi, free1, live) && Tiling(lo, hi, free2, live)
    ensures free1 == free2
  {
    forall b ensures b in free1 <==> b in free2 {
      CanonicalForm(lo, hi, free1, live, b);
      CanonicalForm(lo, hi, free2, live, b);
    }
  }

  /** With nothing live the whole pool is one free block. */
  lemma AllReturned(lo: nat, hi: nat, free: set<Block>)
    requires Tiling(lo, hi, free, {})
    requires lo <= hi
    ensures free == {Block(0, hi)}
  {
    var whole := Block(0, hi);
    ZeroAligned(hi);
    assert InPool(lo, hi, whole);
    forall b ensures b in free <==> b == whole {
      CanonicalForm(lo, hi, free, {}, b);
      if b in free {
        Laminar(b, whole);
      }
    }
  }

  /** A free block is handed out. */
  lemma TakeFree(lo: nat, hi: nat, free: set<Block>, live: set<Block>, b: Block)
    requires Tiling(lo, hi, free, live) && b in free
    ensures Tiling(lo, hi, free - {b}, live + {b})
  {
    assert (free - {b}) + (live + {b}) == free + live;
  }

  /** A live block is cut in two; the right half becomes free. */
  lemma SplitLive(lo: nat, hi: nat, free: set<Block>, live: set<Block>, b: Block)
    requires Tiling(lo, hi, free, live) && b in live && lo < b.order
    ensures var left := Block(b.off, b.order - 1);
            var right := Block(b.off + Pow2(b.order - 1), b.order - 1);
            left !in live && right !in free && Tiling(lo, hi, free + {right}, live - {b} + {left})
  {
    var left := Block(b.off, b.order - 1);
    var right := Block(b.off + Pow2(b.order - 1), b.order - 1);
    BuddyFactsOfHalf(lo, hi, b);
    var all := free + live;
    assert all - {b} + {left, right} == free + {right} + (live - {b} + {left});
    forall c | c in all - {b} ensures Disjoint(c, left) && Disjoint(c, right) {
      assert Disjoint(c, b);
    }
    assert !Disjoint(left, left) && !Disjoint(right, right);
    assert Separate(all - {b} + {left, right});
    HalvesCover(b);
    CoverReplace(hi, all, all - {b} + {left, right}, {left, right}, b);
    assert Coalesced(hi, free + {right}) by {
      forall f | f in free + {right} && f.order < hi ensures Buddy(f) !in free + {right} {
        BuddyFacts(lo, hi, f);
      }
    }
  }

  lemma HalvesCover(b: Block)
    requires b.order > 0
    ensures forall x: nat :: b.Covers(x) ==>
              Covered({Block(b.off, b.order - 1), Block(b.off + Pow2(b.order - 1), b.order - 1)}, x)
  {
    var left, right := Block(b.off, b.order - 1), Block(b.off + Pow2(b.order - 1), b.order - 1);
    forall x: nat | b.Covers(x) ensures Covered({left, right}, x) {
      assert left in {left, right} && right in {left, right};
      assert left.Covers(x) || right.Covers(x);
    }
  }

  /** Replacing one block by blocks that cover the same offsets leaves everything covered. */
  lemma CoverReplace(hi: nat, old_: set<Block>, new_: set<Block>, parts: set<Block>, whole: Block)
    requires CoversPool(hi, old_)
    requires old_ - {whole} <= new_ && parts <= new_
    requires forall x: nat :: whole.Covers(x) ==> Covered(parts, x)
    ensures CoversPool(hi, new_)
  {
    forall x: nat | x < Pow2(hi) ensures Covered(new_, x) {
      assert Covered(old_, x);
      var b :| b in old_ && b.Covers(x);
      if b == whole {
        var c :| c in parts && c.Covers(x);
        assert c in new_;
      } else {
        assert b in new_;
      }
    }
  }

  /** A live block absorbs its free buddy. */
  lemma MergeLive(lo: nat, hi: nat, free: set<Block>, live: set<Block>, b: Block)
    requires Tiling(lo, hi, free, live) && b in live && b.order < hi && Buddy(b) in free
    ensures Parent(b) !in live && Tiling(lo, hi, free - {Buddy(b)}, live - {b} + {Parent(b)})
  {
    var u, p := Buddy(b), Parent(b);
    BuddyFacts(lo, hi, b);
    var all := free + live;
    assert all - {b, u} + {p} == free - {u} + (live - {b} + {p});
    forall c | c in all - {b, u} ensures Disjoint(c, p) {
      HalvesClear(lo, hi, b, c);
    }
    assert !Disjoint(p, p);
    assert Separate(all - {b, u} + {p});
    CoverReplace(hi, all, all - {b} + {p}, {p}, b);
    CoverReplace(hi, all - {b} + {p}, all - {b, u} + {p}, {p}, u);
  }

  /** A block that avoids both halves of a parent avoids the parent. */
  lemma HalvesClear(lo: nat, hi: nat, b: Block, c: Block)
    requires InPool(lo, hi, b) && b.order < hi && Disjoint(c, b) && Disjoint(c, Buddy(b))
    ensures Disjoint(c, Parent(b))
  {
    BuddyFacts(lo, hi, b);
    FlipFacts(b.off, b.order);
  }

  /** A live block whose buddy is not free becomes free. */
  lemma ReleaseLive(lo: nat, hi: nat, free: set<Block>, live: set<Block>, b: Block)
    requires Tiling(lo, hi, free, live) && b in live
    requires b.order < hi ==> Buddy(b) !in free
    ensures b !in free && Tiling(lo, hi, free + {b}, live - {b})
  {
    assert (free + {b}) + (live - {b}) == free + live;
    forall f | f in free + {b} && f.order < hi ensures Buddy(f) !in free + {b} {
      BuddyFacts(lo, hi, f);
    }
  }

  /** The offset of a live block's buddy is always the head of a block of the tiling, of at
      most the same order: stale data inside larger blocks is never consulted. */
  lemma BuddyIsHead(lo: nat, hi: nat, free: set<Block>, live: set<Block>, b: Block) returns (h: Block)
    requires Tiling(lo, hi, free, live) && b in live && b.order < hi
    ensures h in free + live && h != b && h.off == Buddy(b).off && h.order <= b.order
  {
    var u := Buddy(b);
    BuddyFacts(lo, hi, b);
    assert Covered(free + live, u.off);
    h :| h in free + live && h.Covers(u.off);
    if h.order <= b.order {
      Laminar(h, u);
    } else {
      Laminar(u, h);
      Laminar(Parent(b), h);
      assert false;
    }
  }
}
