/** The ordered map of the petmem virtual region (virtual_memory/on_demand.c): first fit by
    address, a split on allocation, merging with both neighbours on release. */
module RegionMap {
  import opened Options

  const REGION_START: nat := 0x10_0000_0000
  const REGION_END: nat := 0x30_0000_0000

  /** A struct mem_map other than the list head. */
  datatype Node = Node(inUse: bool, size: nat, start: nat) {
    function End(): nat { start + size }
  }

  // ---- The invariant --------------------------------------------------------------------

  /** The nodes cover the region, one after another in address order. */
  ghost predicate Tiled(nodes: seq<Node>) {
    && |nodes| > 0 && nodes[0].start == REGION_START && nodes[|nodes| - 1].End() == REGION_END
    && forall i, j :: 0 <= i < j < |nodes| && j == i + 1 ==> nodes[j].start == nodes[i].End()
  }

  ghost predicate Merged(nodes: seq<Node>) {
    forall i, j :: 0 <= i < j < |nodes| && j == i + 1 ==> nodes[i].inUse || nodes[j].inUse
  }

  /** Every node is page aligned, and an allocated one is not empty. */
  ghost predicate Paged(nodes: seq<Node>) {
    forall n :: n in nodes ==> n.start % 4096 == 0 && n.size % 4096 == 0 && (n.inUse ==> n.size > 0)
  }

  ghost predicate MapOk(nodes: seq<Node>) {
    Tiled(nodes) && Merged(nodes) && Paged(nodes)
  }

  lemma {:induction false} InOrder(nodes: seq<Node>, i: nat, j: nat)
    requires Tiled(nodes) && i < j < |nodes|
    ensures nodes[i].End() <= nodes[j].start
  {
    if j == i + 1 {
    } else {
      InOrder(nodes, i, j - 1);
      assert nodes[j].start == nodes[j - 1].End();
    }
  }

  lemma InRegion(nodes: seq<Node>, i: nat)
    requires Tiled(nodes) && i < |nodes|
    ensures REGION_START <= nodes[i].start && nodes[i].End() <= REGION_END
  {
    if i > 0 {
      InOrder(nodes, 0, i);
    }
    if i < |nodes| - 1 {
      InOrder(nodes, i, |nodes| - 1);
    }
  }

  /** Some node covers each address of the region. */
  lemma {:induction false} Locate(nodes: seq<Node>, a: nat, k: nat) returns (i: nat)
    requires Tiled(nodes) && k < |nodes| && REGION_START <= a < nodes[k].End()
    ensures i <= k && nodes[i].start <= a < nodes[i].End()
  {
    if nodes[k].start <= a {
      i := k;
    } else {
      assert k > 0;
      assert nodes[k].start == nodes[k - 1].End();
      i := Locate(nodes, a, k - 1);
    }
  }

  lemma SomeInUse(nodes: seq<Node>)
    requires Merged(nodes)
    ensures |nodes| > 1 ==> exists n :: n in nodes && n.inUse
  {
    if |nodes| > 1 {
      assert nodes[0].inUse || nodes[1].inUse;
    }
  }

  /** With nothing allocated there is a single free node. */
  lemma AllReleased(nodes: seq<Node>)
    requires MapOk(nodes) && forall n :: n in nodes ==> !n.inUse
    ensures nodes == Fresh()
  {
    SomeInUse(nodes);
    assert nodes[0] in nodes && nodes[|nodes| - 1] in nodes;
  }

  /** petmem_init_process. */
  function Fresh(): seq<Node> {
    [Node(false, REGION_END - REGION_START, REGION_START)]
  }

  // ---- Where a request fits -------------------------------------------------------------

  /** The addresses [a, a + size) lie in the region and in no allocated node. */
  ghost predicate Fits(nodes: seq<Node>, a: nat, size: nat) {
    && REGION_START <= a && a + size <= REGION_END
    && forall n :: n in nodes && n.inUse ==> a + size <= n.start || n.End() <= a
  }

  /** What is free of allocated nodes lies inside one free node. */
  lemma FitsInOne(nodes: seq<Node>, a: nat, size: nat) returns (i: nat)
    requires MapOk(nodes) && size > 0 && Fits(nodes, a, size)
    ensures i < |nodes| && !nodes[i].inUse && nodes[i].start <= a && a + size <= nodes[i].End()
  {
    i := Locate(nodes, a, |nodes| - 1);
    assert nodes[i] in nodes;
    InRegion(nodes, i);
    assert i + 1 < |nodes| ==>
        nodes[i + 1].start == nodes[i].End() && nodes[i + 1] in nodes && (nodes[i].inUse || nodes[i + 1].inUse);
  }

  lemma FreeNodeFits(nodes: seq<Node>, i: nat, size: nat)
    requires Tiled(nodes) && i < |nodes| && !nodes[i].inUse && size <= nodes[i].size
    ensures Fits(nodes, nodes[i].start, size)
  {
    InRegion(nodes, i);
    forall n | n in nodes && n.inUse ensures nodes[i].start + size <= n.start || n.End() <= nodes[i].start {
      var j :| 0 <= j < |nodes| && nodes[j] == n;
      if j < i {
        InOrder(nodes, j, i);
      } else {
        InOrder(nodes, i, j);
      }
    }
  }

  /** vaddr_in_map: the address is in an allocated node or just past it. */
  ghost predicate Accepted(nodes: seq<Node>, vaddr: nat) {
    exists n :: n in nodes && n.inUse && n.start <= vaddr <= n.End()
  }

  /** Every address that vaddr_in_map accepts is in the region or just past it. */
  lemma AcceptedInRegion(nodes: seq<Node>, vaddr: nat)
    requires Tiled(nodes) && Accepted(nodes, vaddr)
    ensures REGION_START <= vaddr <= REGION_END
  {
    var n :| n in nodes && n.inUse && n.start <= vaddr <= n.End();
    var i :| 0 <= i < |nodes| && nodes[i] == n;
    InRegion(nodes, i);
  }

  /** The index petmem_alloc_vspace stops at: the first free node that is large enough. */
  ghost predicate FirstFit(nodes: seq<Node>, size: nat, k: nat) {
    && k <= |nodes|
    && (k < |nodes| ==> !nodes[k].inUse && nodes[k].size >= size)
    && forall i :: 0 <= i < k ==> nodes[i].inUse || nodes[i].size < size
  }

  /** First fit finds the lowest address that fits, and finds none only if none does. */
  lemma FirstFitLowest(nodes: seq<Node>, size: nat, k: nat)
    requires MapOk(nodes) && size > 0 && FirstFit(nodes, size, k)
    ensures k < |nodes| ==>
              Fits(nodes, nodes[k].start, size) && forall a :: Fits(nodes, a, size) ==> nodes[k].start <= a
    ensures k == |nodes| ==> forall a :: !Fits(nodes, a, size)
  {
    if k < |nodes| {
      FreeNodeFits(nodes, k, size);
    }
    forall a | Fits(nodes, a, size) ensures k < |nodes| && nodes[k].start <= a {
      var i := FitsInOne(nodes, a, size);
      if k < i {
        InOrder(nodes, k, i);
      }
    }
  }

  // ---- Allocation -----------------------------------------------------------------------

  /** Node k is cut in an allocated front part and a free rest, which may be empty. */
  function Taken(nodes: seq<Node>, k: nat, size: nat): seq<Node>
    requires k < |nodes| && size <= nodes[k].size
  {
    nodes[..k] + [Node(true, size, nodes[k].start), Node(false, nodes[k].size - size, nodes[k].start + size)] +
      nodes[k + 1..]
  }

  lemma TakenAt(nodes: seq<Node>, k: nat, size: nat, r: seq<Node>)
    requires k < |nodes| && size <= nodes[k].size && r == Taken(nodes, k, size)
    ensures |r| == |nodes| + 1 && r[k] == Node(true, size, nodes[k].start)
    ensures r[k + 1] == Node(false, nodes[k].size - size, nodes[k].start + size)
    ensures forall i :: 0 <= i < k ==> r[i] == nodes[i]
    ensures forall i :: k + 2 <= i < |r| ==> r[i] == nodes[i - 1]
  {
  }

  /** A split keeps the map in order exactly when the request is not empty. */
  lemma TakenOk(nodes: seq<Node>, k: nat, size: nat, r: seq<Node>)
    requires MapOk(nodes) && k < |nodes| && !nodes[k].inUse && size <= nodes[k].size && size % 4096 == 0
    requires r == Taken(nodes, k, size)
    ensures MapOk(r) <==> size > 0
  {
    TakenAt(nodes, k, size, r);
    assert r[k] in r;
    if size > 0 {
      forall i, j | 0 <= i < j < |r| && j == i + 1 ensures r[j].start == r[i].End() && (r[i].inUse || r[j].inUse) {
        TakenPair(nodes, k, size, r, i);
      }
    }
  }

  lemma TakenPair(nodes: seq<Node>, k: nat, size: nat, r: seq<Node>, i: nat)
    requires Tiled(nodes) && Merged(nodes) && k < |nodes| && !nodes[k].inUse && size <= nodes[k].size
    requires |r| == |nodes| + 1 && r[k] == Node(true, size, nodes[k].start)
    requires r[k + 1] == Node(false, nodes[k].size - size, nodes[k].start + size)
    requires forall i :: 0 <= i < k ==> r[i] == nodes[i]
    requires forall i :: k + 2 <= i < |r| ==> r[i] == nodes[i - 1]
    requires i + 1 < |r|
    ensures r[i + 1].start == r[i].End() && (r[i].inUse || r[i + 1].inUse)
  {
    if i < k {
      assert nodes[i + 1].start == nodes[i].End() && (nodes[i].inUse || nodes[i + 1].inUse);
    } else if i > k {
      assert nodes[i].start == nodes[i - 1].End() && (nodes[i - 1].inUse || nodes[i].inUse);
    }
  }

  /** The regions in use. */
  ghost function Regions(nodes: seq<Node>): set<Node> {
    set n | n in nodes && n.inUse
  }

  /** An allocation adds its own region and leaves every other as it was. */
  lemma TakenRegions(nodes: seq<Node>, k: nat, size: nat)
    requires k < |nodes| && !nodes[k].inUse && size <= nodes[k].size
    ensures Regions(Taken(nodes, k, size)) == Regions(nodes) + {Node(true, size, nodes[k].start)}
  {
    var r := Taken(nodes, k, size);
    TakenAt(nodes, k, size, r);
    forall n | n in nodes && n.inUse ensures n in r {
      var i :| 0 <= i < |nodes| && nodes[i] == n;
      assert i < k ==> r[i] == n;
      assert i > k ==> r[i + 1] == n;
    }
    assert r[k] in r;
  }

  // ---- Release --------------------------------------------------------------------------

  predicate FreeAt(nodes: seq<Node>, i: int) {
    0 <= i < |nodes| && !nodes[i].inUse
  }

  /** Nodes i and i + 1 become one free node. */
  function Joined(nodes: seq<Node>, i: nat): seq<Node>
    requires i + 1 < |nodes|
  {
    nodes[..i] + [Node(false, nodes[i].size + nodes[i + 1].size, nodes[i].start)] + nodes[i + 2..]
  }

  function JoinedIf(nodes: seq<Node>, i: nat, join: bool): (r: seq<Node>)
    requires i + 1 < |nodes| || !join
    ensures |r| == if join then |nodes| - 1 else |nodes|
  {
    if join then Joined(nodes, i) else nodes
  }

  /** Node k becomes free and one with its free neighbours. */
  function Released(nodes: seq<Node>, k: nat): seq<Node>
    requires k < |nodes|
  {
    var lo := if FreeAt(nodes, k - 1) then k - 1 else k;
    var hi := if FreeAt(nodes, k + 1) then k + 2 else k + 1;
    var left := if lo < k then nodes[lo].size else 0;
    var right := if hi == k + 2 then nodes[k + 1].size else 0;
    nodes[..lo] + [Node(false, left + nodes[k].size + right, nodes[lo].start)] + nodes[hi..]
  }

  /** The same in the code's steps: mark the node, join it to the left, then to the right. */
  lemma InSteps(nodes: seq<Node>, k: nat)
    requires k < |nodes|
    ensures var left, right := FreeAt(nodes, k - 1), FreeAt(nodes, k + 1);
            var lo := if left then k - 1 else k;
            Released(nodes, k) == JoinedIf(JoinedIf(nodes[k := nodes[k].(inUse := false)], lo, left), lo, right)
  {
    var cur := nodes[k].(inUse := false);
    if !FreeAt(nodes, k - 1) {
      assert nodes[k := cur] == nodes[..k] + [cur] + nodes[k + 1..];
    }
  }

  /** Where a merge starts and ends, and what stands where after it. */
  lemma ReleasedAt(nodes: seq<Node>, k: nat, r: seq<Node>) returns (lo: nat, hi: nat)
    requires Tiled(nodes) && k < |nodes| && r == Released(nodes, k)
    ensures lo <= k < hi <= |nodes| && k <= lo + 1 && hi <= k + 2
    ensures (lo < k <==> FreeAt(nodes, k - 1)) && (hi > k + 1 <==> FreeAt(nodes, k + 1))
    ensures |r| == lo + 1 + |nodes| - hi && r[lo] == Node(false, nodes[hi - 1].End() - nodes[lo].start, nodes[lo].start)
    ensures forall i :: 0 <= i < lo ==> r[i] == nodes[i]
    ensures forall i :: lo < i < |r| ==> r[i] == nodes[i - lo - 1 + hi]
  {
    lo := if FreeAt(nodes, k - 1) then k - 1 else k;
    hi := if FreeAt(nodes, k + 1) then k + 2 else k + 1;
    assert lo < k ==> nodes[k].start == nodes[k - 1].End();
    assert hi > k + 1 ==> nodes[k + 1].start == nodes[k].End();
  }

  lemma ReleasedOk(nodes: seq<Node>, k: nat, r: seq<Node>)
    requires MapOk(nodes) && k < |nodes| && nodes[k].inUse && r == Released(nodes, k)
    ensures MapOk(r)
  {
    var lo, hi := ReleasedAt(nodes, k, r);
    forall i, j | 0 <= i < j < |r| && j == i + 1 ensures r[j].start == r[i].End() && (r[i].inUse || r[j].inUse) {
      ReleasedPair(nodes, k, r, lo, hi, i);
    }
    assert r[|r| - 1].End() == REGION_END;
    ReleasedPaged(nodes, k, r);
  }

  lemma ReleasedPair(nodes: seq<Node>, k: nat, r: seq<Node>, lo: nat, hi: nat, i: nat)
    requires Tiled(nodes) && Merged(nodes) && lo <= k < hi <= |nodes| && k <= lo + 1 && hi <= k + 2 && nodes[k].inUse
    requires (lo < k <==> FreeAt(nodes, k - 1)) && (hi > k + 1 <==> FreeAt(nodes, k + 1))
    requires |r| == lo + 1 + |nodes| - hi &&
             r[lo] == Node(false, nodes[hi - 1].End() - nodes[lo].start, nodes[lo].start)
    requires forall i :: 0 <= i < lo ==> r[i] == nodes[i]
    requires forall i :: lo < i < |r| ==> r[i] == nodes[i - lo - 1 + hi]
    requires i + 1 < |r|
    ensures r[i + 1].start == r[i].End() && (r[i].inUse || r[i + 1].inUse)
  {
    if i + 1 <= lo {
      assert nodes[i + 1].start == nodes[i].End() && (nodes[i].inUse || nodes[i + 1].inUse);
    } else if i > lo {
      var m := i - lo - 1 + hi;
      assert nodes[m + 1].start == nodes[m].End() && (nodes[m].inUse || nodes[m + 1].inUse);
    } else {
      assert nodes[hi].start == nodes[hi - 1].End() && (nodes[hi - 1].inUse || nodes[hi].inUse);
    }
  }

  lemma ReleasedPaged(nodes: seq<Node>, k: nat, r: seq<Node>)
    requires Paged(nodes) && k < |nodes| && r == Released(nodes, k)
    ensures Paged(r)
  {
    forall n | n in r ensures n.start % 4096 == 0 && n.size % 4096 == 0 && (n.inUse ==> n.size > 0) {
      if n !in nodes {
        assert nodes[k] in nodes && (k > 0 ==> nodes[k - 1] in nodes) && (k + 1 < |nodes| ==> nodes[k + 1] in nodes);
      }
    }
  }

  /** A release gives up its own region and no other. */
  lemma ReleasedRegions(nodes: seq<Node>, k: nat)
    requires MapOk(nodes) && k < |nodes| && nodes[k].inUse
    ensures Regions(Released(nodes, k)) == Regions(nodes) - {nodes[k]}
  {
    var r := Released(nodes, k);
    var lo, hi := ReleasedAt(nodes, k, r);
    forall n | n in nodes && n.inUse && n != nodes[k] ensures n in r {
      var i :| 0 <= i < |nodes| && nodes[i] == n;
      assert i < lo ==> r[i] == n;
      assert i >= hi ==> r[i - hi + lo + 1] == n;
    }
    forall n | n in r && n.inUse ensures n in nodes && n != nodes[k] {
      var i :| 0 <= i < |r| && r[i] == n;
      var m := if i < lo then i else i - lo - 1 + hi;
      assert nodes[m] == n && m != k;
      StartsDiffer(nodes, m, k);
    }
  }

  /** An allocated node is the only one of its start. */
  lemma StartsDiffer(nodes: seq<Node>, i: nat, k: nat)
    requires MapOk(nodes) && i < |nodes| && k < |nodes| && i != k && nodes[i].inUse && nodes[k].inUse
    ensures nodes[i].start != nodes[k].start
  {
    assert nodes[i] in nodes && nodes[k] in nodes;
    InOrder(nodes, if i < k then i else k, if i < k then k else i);
  }

  /** Releasing what was just allocated restores the map, node for node. */
  lemma TakeThenRelease(nodes: seq<Node>, k: nat, size: nat)
    requires MapOk(nodes) && k < |nodes| && !nodes[k].inUse && size <= nodes[k].size
    ensures Released(Taken(nodes, k, size), k) == nodes
  {
    assert k > 0 ==> nodes[k - 1].inUse;
    Undone(nodes, k, size, Taken(nodes, k, size));
  }

  lemma Undone(nodes: seq<Node>, k: nat, size: nat, t: seq<Node>)
    requires k < |nodes| && !nodes[k].inUse && size <= nodes[k].size && (k > 0 ==> nodes[k - 1].inUse)
    requires t == Taken(nodes, k, size)
    ensures Released(t, k) == nodes
  {
    TakenAt(nodes, k, size, t);
  }

  /** A request of no pages makes a second region at an address already handed out. */
  lemma EmptyRequests()
    ensures var one := Taken(Fresh(), 0, 0);
            var two := Taken(one, 1, 4096);
            !MapOk(one) && FirstFit(one, 4096, 1) && two[0].inUse && two[1].inUse && two[0].start == two[1].start
  {
    TakenOk(Fresh(), 0, 0, Taken(Fresh(), 0, 0));
  }

  // ---- The code -------------------------------------------------------------------------

  /** num_pages * PAGE_SIZE_4KB at 64 bits. */
  function RequestSize(numPages: nat): (r: nat)
    ensures r % 4096 == 0 && (r == numPages * 4096 <==> numPages < 0x10_0000_0000_0000)
    ensures r == 0 <==> numPages % 0x10_0000_0000_0000 == 0
  {
    (numPages % 0x10_0000_0000_0000) * 4096
  }

  /** What petmem_alloc_vspace promises: of all addresses where the request fits it returns the
      lowest, and -1 only if there is none; the region at that address is new, every other is
      as it was, and the map stays in order if the request is not empty. */
  ghost predicate Allocates(nodes: seq<Node>, nodes': seq<Node>, size: nat, addr: Option<nat>) {
    && (size > 0 ==> MapOk(nodes') && Lowest(nodes, size, addr))
    && match addr
       case None => nodes' == nodes
       case Some(a) => Regions(nodes') == Regions(nodes) + {Node(true, size, a)}
  }

  ghost predicate Lowest(nodes: seq<Node>, size: nat, addr: Option<nat>) {
    && (addr.Some? ==> Fits(nodes, addr.value, size))
    && forall a :: Fits(nodes, a, size) ==> addr.Some? && addr.value <= a
  }

  lemma NoneAllocates(nodes: seq<Node>, size: nat)
    requires MapOk(nodes) && FirstFit(nodes, size, |nodes|)
    ensures Allocates(nodes, nodes, size, None)
  {
    if size > 0 {
      FirstFitLowest(nodes, size, |nodes|);
    }
  }

  lemma SomeAllocates(nodes: seq<Node>, size: nat, k: nat)
    requires MapOk(nodes) && FirstFit(nodes, size, k) && k < |nodes| && size % 4096 == 0
    ensures Allocates(nodes, Taken(nodes, k, size), size, Some(nodes[k].start))
  {
    TakenOk(nodes, k, size, Taken(nodes, k, size));
    TakenRegions(nodes, k, size);
    if size > 0 {
      FirstFitLowest(nodes, size, k);
    }
  }

  class MemMap {
    var nodes: seq<Node>

    constructor ()
      ensures nodes == Fresh() && MapOk(nodes)
    {
      nodes := Fresh();
    }

    /** vaddr_in_map; the address just past a region counts as in it. */
    method Contains(vaddr: nat) returns (r: bool)
      ensures r <==> Accepted(nodes, vaddr)
    {
      for i := 0 to |nodes|
        invariant forall j :: 0 <= j < i ==> !(nodes[j].inUse && nodes[j].start <= vaddr <= nodes[j].End())
      {
        if nodes[i].inUse && vaddr >= nodes[i].start && vaddr <= nodes[i].End() {
          assert nodes[i] in nodes;
          return true;
        }
      }
      r := false;
    }

    /** The search of petmem_alloc_vspace. */
    method FindFit(size: nat) returns (k: nat)
      ensures FirstFit(nodes, size, k)
    {
      k := 0;
      while k < |nodes| && !(!nodes[k].inUse && nodes[k].size >= size)
        invariant k <= |nodes|
        invariant forall i :: 0 <= i < k ==> nodes[i].inUse || nodes[i].size < size
      {
        k := k + 1;
      }
    }

    /** petmem_alloc_vspace, with None for -1. */
    method Alloc(numPages: nat) returns (addr: Option<nat>)
      requires MapOk(nodes)
      modifies this
      ensures Allocates(old(nodes), nodes, RequestSize(numPages), addr)
    {
      addr := Place(RequestSize(numPages));
    }

    method Place(size: nat) returns (addr: Option<nat>)
      requires MapOk(nodes) && size % 4096 == 0
      modifies this
      ensures Allocates(old(nodes), nodes, size, addr)
    {
      var k := FindFit(size);
      if k == |nodes| {
        NoneAllocates(nodes, size);
        return None;
      }
      SomeAllocates(nodes, size, k);
      addr := Some(nodes[k].start);
      Split(k, size);
    }

    /** The node found keeps the front, and a new node after it the rest. */
    method Split(k: nat, size: nat)
      requires k < |nodes| && size <= nodes[k].size
      modifies this
      ensures nodes == Taken(old(nodes), k, size)
    {
      var cur := nodes[k];
      var rest := Node(false, cur.size - size, cur.start + size);
      nodes := nodes[..k] + [Node(true, size, cur.start), rest] + nodes[k + 1..];
    }

    /** The list part of petmem_free_vspace: how many pages the region at this address had. */
    method Release(pageAddr: nat) returns (pages: nat)
      requires MapOk(nodes)
      modifies this
      ensures MapOk(nodes)
      ensures (forall n :: n in Regions(old(nodes)) ==> n.start != pageAddr) ==> pages == 0 && nodes == old(nodes)
      ensures forall n :: n in Regions(old(nodes)) && n.start == pageAddr ==>
                pages * 4096 == n.size && Regions(nodes) == Regions(old(nodes)) - {n}
    {
      pages := 0;
      var i: nat := 0;
      ghost var at: int := -1;
      while i < |nodes|
        invariant i <= |nodes| && MapOk(nodes)
        invariant at < 0 ==> nodes == old(nodes) && pages == 0 && NoneBefore(nodes, i, pageAddr)
        invariant at >= 0 ==> ReleasedFrom(old(nodes), at, pageAddr, nodes, pages)
        decreases |nodes| - i
      {
        if nodes[i].start == pageAddr && nodes[i].inUse {
          if at >= 0 {
            ReleasedGone(old(nodes), at, pageAddr, nodes, pages, i);
            assert false;
          }
          at := i;
          assert nodes[i] in nodes;
          pages := nodes[i].size / 4096;
          ReleasedOk(nodes, i, Released(nodes, i));
          i := Merge(i);
        } else {
          i := i + 1;
        }
      }
      if at >= 0 {
        OnlyOne(old(nodes), at);
        ReleasedRegions(old(nodes), at);
      } else {
        assert forall n :: n in Regions(old(nodes)) ==> n.start != pageAddr;
      }
    }

    /** The body of the loop at node k: free it, join it to a free node before and to a free
        node after. Returns where the node after it now stands. */
    method Merge(k: nat) returns (tmp: nat)
      requires k < |nodes|
      modifies this
      ensures nodes == Released(old(nodes), k)
      ensures tmp <= |nodes| && |nodes| - tmp == |old(nodes)| - (k + 1)
    {
      InSteps(nodes, k);
      var cur := k;
      nodes := nodes[cur := nodes[cur].(inUse := false)];
      tmp := k + 1;
      if 0 < cur && !nodes[cur - 1].inUse {
        JoinLeft(cur - 1);
        cur, tmp := cur - 1, tmp - 1;
      }
      if tmp < |nodes| && !nodes[tmp].inUse {
        JoinRight(cur);
        tmp := tmp - 1;
      }
    }

    /** prev takes the node after it. */
    method JoinLeft(prev: nat)
      requires prev + 1 < |nodes| && !nodes[prev].inUse
      modifies this
      ensures nodes == Joined(old(nodes), prev)
    {
      nodes := nodes[prev := nodes[prev].(size := nodes[prev].size + nodes[prev + 1].size)];
      nodes := nodes[..prev + 1] + nodes[prev + 2..];
    }

    /** The node after cur takes cur. */
    method JoinRight(cur: nat)
      requires cur + 1 < |nodes| && !nodes[cur + 1].inUse
      modifies this
      ensures nodes == Joined(old(nodes), cur)
    {
      nodes := nodes[cur + 1 := Node(false, nodes[cur + 1].size + nodes[cur].size, nodes[cur].start)];
      nodes := nodes[..cur] + nodes[cur + 1..];
    }
  }

  ghost predicate NoneBefore(nodes: seq<Node>, i: nat, pageAddr: nat)
    requires i <= |nodes|
  {
    forall j :: 0 <= j < i ==> !(nodes[j].inUse && nodes[j].start == pageAddr)
  }

  ghost predicate ReleasedFrom(nodes: seq<Node>, at: nat, pageAddr: nat, nodes': seq<Node>, pages: nat) {
    && at < |nodes| && nodes[at].inUse && nodes[at].start == pageAddr
    && pages * 4096 == nodes[at].size && nodes' == Released(nodes, at)
  }

  /** Once released, no region starts at the address. */
  lemma ReleasedGone(nodes: seq<Node>, at: nat, pageAddr: nat, nodes': seq<Node>, pages: nat, i: nat)
    requires MapOk(nodes) && ReleasedFrom(nodes, at, pageAddr, nodes', pages) && i < |nodes'|
    ensures !(nodes'[i].inUse && nodes'[i].start == pageAddr)
  {
    ReleasedRegions(nodes, at);
    OnlyOne(nodes, at);
    assert nodes'[i].inUse ==> nodes'[i] in Regions(nodes');
  }

  lemma OnlyOne(nodes: seq<Node>, at: nat)
    requires MapOk(nodes) && at < |nodes| && nodes[at].inUse
    ensures forall n :: n in Regions(nodes) && n.start == nodes[at].start ==> n == nodes[at]
  {
    forall n | n in Regions(nodes) && n.start == nodes[at].start ensures n == nodes[at] {
      var i :| 0 <= i < |nodes| && nodes[i] == n;
      if i != at {
        StartsDiffer(nodes, i, at);
      }
    }
  }
}
