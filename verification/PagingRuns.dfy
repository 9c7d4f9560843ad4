/** Whole runs of processes: regions are allocated, touched and freed in any order, with user pages
    from the buddy pools of one range of memory. A run is what one process sees; the requests of
    the others change only which pages are left. */
module PagingRuns {
  import opened Options
  import opened RegionMap
  import opened PageTables
  import opened FreeWalk
  import opened OnDemand

  /** What a process may ask for, LAZY_ALLOC, PAGE_FAULT and LAZY_FREE; or some other process's
      request. */
  datatype Op = Map(numPages: nat) | Touch(vaddr: nat) | Unmap(vaddr: nat) | Other

  /** The page-table root, and the pages of the pools. */
  datatype Machine = Machine(root: Frame, first: Frame, count: nat) {
    predicate Owns(f: Frame) { first <= f < first + count }
  }

  /** The region map, the tables, the pages given for tables, and the pages out of the pools: to this
      process, and to the others. */
  datatype State = State(nodes: seq<Node>, tables: Tables, given: set<Frame>, out: set<Frame>, others: set<Frame>)

  /** The map is in order and every frame is accounted for. */
  ghost predicate StateOk(m: Machine, s: State) {
    && MapOk(s.nodes) && Balanced(s.tables, m.root, s.given, s.out)
    && s.out !! s.others && (forall f :: f in s.out + s.others ==> m.Owns(f))
    && forall f :: f in s.tables ==> !m.Owns(f)
  }

  ghost predicate Initial(m: Machine, s: State) {
    s.nodes == Fresh() && s.out == {} && forall q: Path :: Depth(q) > 0 ==> Walk(s.tables, m.root, q).None?
  }

  ghost predicate AllOut(m: Machine, out: set<Frame>) {
    forall f :: m.Owns(f) ==> f in out
  }

  /** A page comes out of the pools if there was none, and is 0 only if all are out. */
  ghost predicate Drawn(m: Machine, before: Option<Frame>, s: State, s': State, page: Frame) {
    if before.Some? then s'.out == s.out
    else if page == 0 then s'.out == s.out && AllOut(m, s.out + s.others)
    else m.Owns(page) && page !in s.out + s.others && s'.out == s.out + {page}
  }

  ghost predicate Mapping(m: Machine, s: State, numPages: nat, s': State, addr: Option<nat>) {
    Allocates(s.nodes, s'.nodes, RequestSize(numPages), addr) && s' == s.(nodes := s'.nodes)
  }

  ghost predicate Touching(m: Machine, s: State, vaddr: nat, s': State, page: Frame) {
    && s'.nodes == s.nodes && s'.others == s.others
    && if Accepted(s.nodes, vaddr) then
         && Faulted(s.tables, s'.tables, m.root, vaddr, page) && Deepened(s.tables, s'.tables, m.root, vaddr)
         && Drawn(m, Translate(s.tables, m.root, vaddr), s, s', page)
       else s' == s
  }

  ghost predicate Unmapping(m: Machine, s: State, vaddr: nat, s': State, hit: Option<Node>) {
    s'.others == s.others &&
    match hit
    case Some(n) =>
      && n in Regions(s.nodes) && n.start == vaddr / 4096 * 4096 && Regions(s'.nodes) == Regions(s.nodes) - {n}
      && FreedSpan(s.tables, s'.tables, m.root, Start(vaddr), n.size / 4096, s.out, s'.out)
    case None =>
      && (forall n :: n in Regions(s.nodes) ==> n.start != vaddr / 4096 * 4096)
      && s' == s
  }

  ghost predicate Step(m: Machine, s: State, op: Op, s': State) {
    match op
    case Map(numPages) => exists addr :: Mapping(m, s, numPages, s', addr)
    case Touch(vaddr) => exists page :: Touching(m, s, vaddr, s', page)
    case Unmap(vaddr) => exists hit :: Unmapping(m, s, vaddr, s', hit)
    case Other => s' == s.(others := s'.others)
  }

  ghost predicate Run(m: Machine, run: seq<State>, ops: seq<Op>) {
    && |run| == |ops| + 1 && Initial(m, run[0])
    && (forall i :: 0 <= i < |run| ==> StateOk(m, run[i]))
    && forall i :: 0 <= i < |ops| ==> Step(m, run[i], ops[i], run[i + 1])
  }

  /** No request is of 0 pages, or of so many that their size overflows to 0. */
  ghost predicate NoEmptyRequest(ops: seq<Op>) {
    forall op :: op in ops && op.Map? ==> RequestSize(op.numPages) > 0
  }

  // ---- Mapped pages and regions ---------------------------------------------------------

  ghost predicate InUse(nodes: seq<Node>, x: nat) {
    exists n :: n in Regions(nodes) && n.start <= x < n.End()
  }

  /** Every page mapped lies in an allocated region. */
  ghost predicate Covered(m: Machine, s: State) {
    forall x {:trigger Translate(s.tables, m.root, x)} ::
      0 <= x < 0x1_0000_0000_0000 && Translate(s.tables, m.root, x).Some? ==> InUse(s.nodes, x)
  }

  /** The address is just past a region and in no other: vaddr_in_map accepts it all the same. */
  ghost predicate Stray(nodes: seq<Node>, vaddr: nat) {
    Accepted(nodes, vaddr) && !InUse(nodes, vaddr)
  }

  /** Regions consist of whole pages. */
  lemma SamePage(nodes: seq<Node>, x: nat, y: nat)
    requires MapOk(nodes) && InUse(nodes, x) && x / 4096 == y / 4096
    ensures InUse(nodes, y)
  {
    var n :| n in Regions(nodes) && n.start <= x < n.End();
    assert n in nodes;
    WholePages(n.start, n.size, x, y);
  }

  lemma WholePages(from: nat, size: nat, x: nat, y: nat)
    requires from % 4096 == 0 && size % 4096 == 0 && from <= x < from + size && x / 4096 == y / 4096
    ensures from <= y < from + size
  {
    var a, b := from / 4096, size / 4096;
    assert from == a * 4096 && size == b * 4096;
  }

  lemma AddressInMap(nodes: seq<Node>, x: nat)
    requires MapOk(nodes) && InUse(nodes, x)
    ensures REGION_START <= x < REGION_END && Accepted(nodes, x)
  {
    var n :| n in Regions(nodes) && n.start <= x < n.End();
    var i :| 0 <= i < |nodes| && nodes[i] == n;
    InRegion(nodes, i);
  }

  /** What a freed span does to one address of the petmem region. */
  lemma FreedAt(before: Tables, tables: Tables, root: Frame, lo: nat, hi: nat, x: nat)
    requires Cleared(before, tables, root, lo, hi) && REGION_START <= x <= REGION_END
    ensures Translate(tables, root, x) == if lo <= x / 4096 < hi then None else Translate(before, root, x)
  {
    StartAtPage(x);
    AtDepths(Start(x));
    SpannedAt(Start(x), lo, hi);
  }

  lemma FreedLess(before: Tables, tables: Tables, root: Frame, lo: nat, hi: nat, x: nat)
    requires Cleared(before, tables, root, lo, hi) && Translate(tables, root, x).Some?
    ensures Translate(before, root, x) == Translate(tables, root, x)
  {
    PathDepth(x);
  }

  lemma CoveredUnmap(m: Machine, s: State, vaddr: nat, s': State, n: Node)
    requires StateOk(m, s) && Covered(m, s) && Unmapping(m, s, vaddr, s', Some(n))
    ensures Covered(m, s')
  {
    var k := RegionAt(s.nodes, vaddr);
    AcceptedInRegion(s.nodes, vaddr);
    StartAtPage(vaddr);
    var lo := Lin(Start(vaddr));
    var hi := lo + n.size / 4096 + Excess(s.tables, m.root, Start(vaddr), n.size / 4096);
    forall x | 0 <= x < 0x1_0000_0000_0000 && Translate(s'.tables, m.root, x).Some? ensures InUse(s'.nodes, x) {
      FreedLess(s.tables, s'.tables, m.root, lo, hi, x);
      AddressInMap(s.nodes, x);
      FreedAt(s.tables, s'.tables, m.root, lo, hi, x);
      var r :| r in Regions(s.nodes) && r.start <= x < r.End();
      assert r != n;
    }
  }

  lemma CoveredTouch(m: Machine, s: State, vaddr: nat, s': State, page: Frame)
    requires StateOk(m, s) && StateOk(m, s') && Covered(m, s) && Touching(m, s, vaddr, s', page)
    ensures Covered(m, s') <==> !Stray(s.nodes, vaddr)
  {
    if Accepted(s.nodes, vaddr) {
      AcceptedInRegion(s.nodes, vaddr);
      PathDepth(vaddr);
      assert Under(PathOf(vaddr), PathOf(vaddr));
      assert Translate(s'.tables, m.root, vaddr).Some?;
      if InUse(s.nodes, vaddr) {
        forall x | 0 <= x < 0x1_0000_0000_0000 && Translate(s'.tables, m.root, x).Some? ensures InUse(s'.nodes, x) {
          if Translate(s.tables, m.root, x).None? {
            SamePage(s.nodes, vaddr, x);
          }
        }
      }
    }
  }

  lemma CoveredStep(m: Machine, s: State, op: Op, s': State)
    requires StateOk(m, s) && StateOk(m, s') && Covered(m, s) && Step(m, s, op, s')
    ensures Covered(m, s') <==> !(op.Touch? && Stray(s.nodes, op.vaddr))
  {
    match op
    case Map(numPages) =>
      var addr :| Mapping(m, s, numPages, s', addr);
      forall x: nat | InUse(s.nodes, x) ensures InUse(s'.nodes, x) {
        var n :| n in Regions(s.nodes) && n.start <= x < n.End();
        assert n in Regions(s'.nodes);
      }
    case Touch(vaddr) =>
      var page :| Touching(m, s, vaddr, s', page);
      CoveredTouch(m, s, vaddr, s', page);
    case Unmap(vaddr) =>
      var hit :| Unmapping(m, s, vaddr, s', hit);
      if hit.Some? {
        CoveredUnmap(m, s, vaddr, s', hit.value);
      } else {
        forall x | Translate(s'.tables, m.root, x).Some? ensures Translate(s.tables, m.root, x).Some? {
          PathDepth(x);
        }
      }
    case Other =>
  }

  ghost predicate NoStray(run: seq<State>, ops: seq<Op>, k: nat)
    requires k <= |ops| <= |run|
  {
    forall i :: 0 <= i < k && ops[i].Touch? ==> !Stray(run[i].nodes, ops[i].vaddr)
  }

  /** On every run: all pages mapped lie in allocated regions throughout if and only if no fault
      was taken just past a region and in no other. */
  lemma CoveredIff(m: Machine, run: seq<State>, ops: seq<Op>)
    requires Run(m, run, ops)
    ensures (forall i :: 0 <= i < |run| ==> Covered(m, run[i])) <==> NoStray(run, ops, |ops|)
  {
    if NoStray(run, ops, |ops|) {
      forall i | 0 <= i < |run| ensures Covered(m, run[i]) {
        CoveredUpTo(m, run, ops, i);
      }
    }
    if forall i :: 0 <= i < |run| ==> Covered(m, run[i]) {
      forall i | 0 <= i < |ops| && ops[i].Touch? ensures !Stray(run[i].nodes, ops[i].vaddr) {
        assert Covered(m, run[i]) && Covered(m, run[i + 1]) && Step(m, run[i], ops[i], run[i + 1]);
        CoveredStep(m, run[i], ops[i], run[i + 1]);
      }
    }
  }

  lemma {:induction false} CoveredUpTo(m: Machine, run: seq<State>, ops: seq<Op>, k: nat)
    requires Run(m, run, ops) && k <= |ops| && NoStray(run, ops, k)
    ensures Covered(m, run[k])
    decreases k
  {
    if k == 0 {
      forall x: nat ensures Translate(run[0].tables, m.root, x).None? {
        PathDepth(x);
      }
    } else {
      CoveredUpTo(m, run, ops, k - 1);
      assert Step(m, run[k - 1], ops[k - 1], run[k]);
      CoveredStep(m, run[k - 1], ops[k - 1], run[k]);
    }
  }

  /** When every region has been freed and no fault strayed, every user page is back in the pools. */
  lemma AllBack(m: Machine, run: seq<State>, ops: seq<Op>)
    requires Run(m, run, ops) && NoStray(run, ops, |ops|) && Regions(run[|ops|].nodes) == {}
    ensures run[|ops|].out == {}
  {
    var s := run[|ops|];
    CoveredUpTo(m, run, ops, |ops|);
    assert forall x :: !InUse(s.nodes, x);
    forall q | Depth(q) == 4 ensures Walk(s.tables, m.root, q).None? {
      if Walk(s.tables, m.root, q).Some? {
        var x := MappedAt(s.tables, m.root, q);
        assert false;
      }
    }
    assert forall f :: f in s.out ==> Mapped(s.tables, m.root, f);
  }

  // ---- Frames ---------------------------------------------------------------------------

  /** No frame is at two pages. */
  ghost predicate Single(tables: Tables, root: Frame) {
    forall x, y {:trigger Translate(tables, root, x), Translate(tables, root, y)} ::
      0 <= x < 0x1_0000_0000_0000 && 0 <= y < 0x1_0000_0000_0000 && Translate(tables, root, x).Some? &&
      Translate(tables, root, x).value != 0 && Translate(tables, root, x) == Translate(tables, root, y) ==>
      x / 4096 == y / 4096
  }

  lemma Isolated(tables: Tables, root: Frame)
    requires Unshared(tables, root)
    ensures Single(tables, root)
  {
    forall x, y | 0 <= x < 0x1_0000_0000_0000 && 0 <= y < 0x1_0000_0000_0000 && Translate(tables, root, x).Some? &&
                  Translate(tables, root, x).value != 0 && Translate(tables, root, x) == Translate(tables, root, y)
      ensures x / 4096 == y / 4096
    {
      PathDepth(x);
      PathDepth(y);
      assert Frames(tables, root, PathOf(x));
      PathOfPage(x, y);
    }
  }

  /** Every page that is mapped has a frame. */
  ghost predicate Backed(m: Machine, s: State) {
    forall x {:trigger Translate(s.tables, m.root, x)} ::
      0 <= x < 0x1_0000_0000_0000 ==> Translate(s.tables, m.root, x) != Some(0)
  }

  /** A page is asked for when all are out. */
  ghost predicate Short(m: Machine, s: State, vaddr: nat) {
    Accepted(s.nodes, vaddr) && Translate(s.tables, m.root, vaddr).None? && AllOut(m, s.out + s.others)
  }

  lemma BackedFault(m: Machine, s: State, vaddr: nat, s': State, page: Frame)
    requires Backed(m, s) && vaddr < 0x1_0000_0000_0000 && Faulted(s.tables, s'.tables, m.root, vaddr, page)
    ensures Backed(m, s') <==> !(Translate(s.tables, m.root, vaddr).None? && page == 0)
  {
    if Translate(s.tables, m.root, vaddr).None? && page == 0 {
      assert Translate(s'.tables, m.root, vaddr) == Some(0);
    } else {
      forall x | 0 <= x < 0x1_0000_0000_0000 ensures Translate(s'.tables, m.root, x) != Some(0) {
        if x / 4096 == vaddr / 4096 {
          PathOfPage(x, vaddr);
        }
      }
    }
  }

  lemma BackedTouch(m: Machine, s: State, vaddr: nat, s': State, page: Frame)
    requires MapOk(s.nodes) && Backed(m, s) && Touching(m, s, vaddr, s', page)
    ensures Backed(m, s') <==> !Short(m, s, vaddr)
  {
    if Accepted(s.nodes, vaddr) {
      AcceptedInRegion(s.nodes, vaddr);
      BackedFault(m, s, vaddr, s', page);
    }
  }

  lemma BackedStep(m: Machine, s: State, op: Op, s': State)
    requires StateOk(m, s) && StateOk(m, s') && Backed(m, s) && Step(m, s, op, s')
    ensures Backed(m, s') <==> !(op.Touch? && Short(m, s, op.vaddr))
  {
    match op
    case Map(numPages) =>
      var addr :| Mapping(m, s, numPages, s', addr);
    case Touch(vaddr) =>
      var page :| Touching(m, s, vaddr, s', page);
      BackedTouch(m, s, vaddr, s', page);
    case Unmap(vaddr) =>
      var hit :| Unmapping(m, s, vaddr, s', hit);
      forall x: nat | Translate(s'.tables, m.root, x).Some?
        ensures Translate(s'.tables, m.root, x) == Translate(s.tables, m.root, x)
      {
        PathDepth(x);
      }
    case Other =>
  }

  ghost predicate NeverShort(m: Machine, run: seq<State>, ops: seq<Op>, k: nat)
    requires k <= |ops| <= |run|
  {
    forall i :: 0 <= i < k && ops[i].Touch? ==> !Short(m, run[i], ops[i].vaddr)
  }

  /** On every run: every mapped page has a frame throughout if and only if no fault needed a page
      when all were out. The handler does not look whether it got one. */
  lemma BackedIff(m: Machine, run: seq<State>, ops: seq<Op>)
    requires Run(m, run, ops)
    ensures (forall i :: 0 <= i < |run| ==> Backed(m, run[i])) <==> NeverShort(m, run, ops, |ops|)
  {
    if NeverShort(m, run, ops, |ops|) {
      forall i | 0 <= i < |run| ensures Backed(m, run[i]) {
        BackedUpTo(m, run, ops, i);
      }
    }
    if forall i :: 0 <= i < |run| ==> Backed(m, run[i]) {
      forall i | 0 <= i < |ops| && ops[i].Touch? ensures !Short(m, run[i], ops[i].vaddr) {
        assert Backed(m, run[i]) && Backed(m, run[i + 1]) && Step(m, run[i], ops[i], run[i + 1]);
        BackedStep(m, run[i], ops[i], run[i + 1]);
      }
    }
  }

  lemma {:induction false} BackedUpTo(m: Machine, run: seq<State>, ops: seq<Op>, k: nat)
    requires Run(m, run, ops) && k <= |ops| && NeverShort(m, run, ops, k)
    ensures Backed(m, run[k])
    decreases k
  {
    if k == 0 {
      forall x: nat ensures Translate(run[0].tables, m.root, x).None? {
        PathDepth(x);
      }
    } else {
      BackedUpTo(m, run, ops, k - 1);
      assert Step(m, run[k - 1], ops[k - 1], run[k]);
      BackedStep(m, run[k - 1], ops[k - 1], run[k]);
    }
  }

  // ---- Three runs that go wrong ---------------------------------------------------------

  /** The regions fill the map from its start up to an address. */
  ghost predicate Filled(nodes: seq<Node>, end: nat) {
    && REGION_START <= end && (forall n :: n in Regions(nodes) ==> n.End() <= end)
    && forall a :: REGION_START <= a < end ==> InUse(nodes, a)
  }

  lemma FitsAtEnd(nodes: seq<Node>, size: nat, end: nat)
    requires Filled(nodes, end) && size > 0 && end + size <= REGION_END
    ensures Fits(nodes, end, size) && forall a :: Fits(nodes, a, size) ==> end <= a
  {
    forall n | n in nodes && n.inUse ensures n.End() <= end {
      assert n in Regions(nodes);
    }
    forall a: nat | REGION_START <= a < end ensures !Fits(nodes, a, size) {
      assert InUse(nodes, a);
    }
  }

  lemma FilledFurther(nodes: seq<Node>, nodes': seq<Node>, size: nat, end: nat)
    requires Filled(nodes, end) && Regions(nodes') == Regions(nodes) + {Node(true, size, end)}
    ensures Filled(nodes', end + size)
  {
    var next := Node(true, size, end);
    assert next in Regions(nodes');
    forall a | REGION_START <= a < end + size ensures InUse(nodes', a) {
      if a < end {
        assert InUse(nodes, a);
        var n :| n in Regions(nodes) && n.start <= a < n.End();
        assert n in Regions(nodes');
      } else {
        assert next.start <= a < next.End();
      }
    }
  }

  /** The next region follows those so far. */
  lemma NextAfter(m: Machine, s: State, numPages: nat, s': State, end: nat)
    requires Step(m, s, Map(numPages), s') && Filled(s.nodes, end)
    requires 0 < numPages < 0x10_0000_0000_0000 && end + numPages * 4096 <= REGION_END
    ensures Regions(s'.nodes) == Regions(s.nodes) + {Node(true, numPages * 4096, end)}
    ensures Filled(s'.nodes, end + numPages * 4096) && s'.tables == s.tables
  {
    var size := RequestSize(numPages);
    assert size == numPages * 4096;
    var addr :| Mapping(m, s, numPages, s', addr);
    FitsAtEnd(s.nodes, size, end);
    assert addr == Some(end);
    FilledFurther(s.nodes, s'.nodes, size, end);
  }

  const FIRST := 510 * 512 + 1
  const SECOND_AT := REGION_START + FIRST * 4096
  const THIRD_AT := SECOND_AT + 1024 * 4096

  /** Three regions, the last of one page; that page is touched and the second region freed. */
  function OvershootOps(): seq<Op> {
    [Map(FIRST), Map(1024), Map(1), Touch(THIRD_AT), Unmap(SECOND_AT)]
  }

  lemma StartFilled(m: Machine, s: State)
    requires Initial(m, s)
    ensures Regions(s.nodes) == {} && Filled(s.nodes, REGION_START)
  {
  }

  lemma ThreeRegions(m: Machine, s0: State, s1: State, s2: State, s3: State)
    requires Initial(m, s0) && Step(m, s0, Map(FIRST), s1) && Step(m, s1, Map(1024), s2) && Step(m, s2, Map(1), s3)
    ensures Node(true, 1024 * 4096, SECOND_AT) in Regions(s3.nodes) && Node(true, 4096, THIRD_AT) in Regions(s3.nodes)
    ensures s3.tables == s0.tables
  {
    StartFilled(m, s0);
    NextAfter(m, s0, FIRST, s1, REGION_START);
    NextAfter(m, s1, 1024, s2, SECOND_AT);
    NextAfter(m, s2, 1, s3, THIRD_AT);
  }

  /** The walk over the second region counts 1022 pages for the 1023 it passes over first. */
  lemma CountsShort(t: Tables, root: Frame)
    requires Walk(t, root, Sub(Root, 0)).Some? && Walk(t, root, Sub(Sub(Root, 0), 64)).None?
    ensures var c := Start(SECOND_AT);
            Ok(c) && c == Cursor(0, 64, 510, 1) && Lin(c) == SECOND_AT / 4096 && Excess(t, root, c, 1024) == 1
  {
    StartAtPage(SECOND_AT);
    var c := Start(SECOND_AT);
    assert At1(c) == Sub(Root, 0) && At2(c) == Sub(Sub(Root, 0), 64);
    CountWithin(t, root, c);
  }

  lemma Overshoots(m: Machine, run: seq<State>)
    requires Run(m, run, OvershootOps())
    ensures Node(true, 4096, THIRD_AT) in Regions(run[5].nodes)
    ensures Translate(run[4].tables, m.root, THIRD_AT).Some? && Translate(run[5].tables, m.root, THIRD_AT).None?
  {
    var ops := OvershootOps();
    assert Step(m, run[0], ops[0], run[1]) && Step(m, run[1], ops[1], run[2]) && Step(m, run[2], ops[2], run[3]);
    ThreeRegions(m, run[0], run[1], run[2], run[3]);
    assert Step(m, run[3], ops[3], run[4]) && Step(m, run[4], ops[4], run[5]);
    TouchesThird(m, run[3], run[4]);
    FreesSecond(m, run[4], run[5]);
  }

  lemma TouchesThird(m: Machine, s: State, s': State)
    requires Step(m, s, Touch(THIRD_AT), s') && Node(true, 4096, THIRD_AT) in Regions(s.nodes)
    requires forall q: Path :: Depth(q) > 0 ==> Walk(s.tables, m.root, q).None?
    ensures s'.nodes == s.nodes && Translate(s'.tables, m.root, THIRD_AT).Some?
    ensures Walk(s'.tables, m.root, Sub(Root, 0)).Some? && Walk(s'.tables, m.root, Sub(Sub(Root, 0), 64)).None?
  {
    assert Accepted(s.nodes, THIRD_AT);
    var page :| Touching(m, s, THIRD_AT, s', page);
    TouchedThird(s.tables, s'.tables, m.root);
  }

  lemma FreesSecond(m: Machine, s: State, s': State)
    requires Step(m, s, Unmap(SECOND_AT), s') && StateOk(m, s)
    requires Node(true, 1024 * 4096, SECOND_AT) in Regions(s.nodes) && Node(true, 4096, THIRD_AT) in Regions(s.nodes)
    requires Walk(s.tables, m.root, Sub(Root, 0)).Some? && Walk(s.tables, m.root, Sub(Sub(Root, 0), 64)).None?
    ensures Node(true, 4096, THIRD_AT) in Regions(s'.nodes) && Translate(s'.tables, m.root, THIRD_AT).None?
  {
    CountsShort(s.tables, m.root);
    var hit :| Unmapping(m, s, SECOND_AT, s', hit);
    assert hit.Some?;
    SoleRegion(s.nodes, hit.value, Node(true, 1024 * 4096, SECOND_AT));
    FreedAt(s.tables, s'.tables, m.root, SECOND_AT / 4096, SECOND_AT / 4096 + 1025, THIRD_AT);
  }

  lemma SoleRegion(nodes: seq<Node>, a: Node, b: Node)
    requires MapOk(nodes) && a in Regions(nodes) && b in Regions(nodes) && a.start == b.start
    ensures a == b
  {
    var i :| 0 <= i < |nodes| && nodes[i] == a;
    OnlyOne(nodes, i);
  }

  lemma TouchedThird(t: Tables, t': Tables, root: Frame)
    requires forall q: Path :: Depth(q) > 0 ==> Walk(t, root, q).None?
    requires Deepened(t, t', root, THIRD_AT)
    ensures Translate(t', root, THIRD_AT).Some?
    ensures Walk(t', root, Sub(Root, 0)).Some? && Walk(t', root, Sub(Sub(Root, 0), 64)).None?
  {
    var q4 := PathOf(THIRD_AT);
    assert q4 == Sub(Sub(Sub(Sub(Root, 0), 65), 0), 1);
    PathDepth(THIRD_AT);
    OnTheWay(THIRD_AT, q4);
    OnTheWay(THIRD_AT, Sub(Root, 0));
    OnTheWay(THIRD_AT, Sub(Sub(Root, 0), 64));
    assert Depth(Sub(Root, 0)) == 1 && Depth(Sub(Sub(Root, 0), 64)) == 2;
  }

  /** A region of one page, a fault just past it, and the release of the region. */
  function PastTheEndOps(): seq<Op> {
    [Map(1), Touch(REGION_START + 4096), Unmap(REGION_START)]
  }

  /** No region is left, and a page is still mapped. */
  lemma PastTheEnd(m: Machine, run: seq<State>)
    requires Run(m, run, PastTheEndOps())
    ensures Regions(run[3].nodes) == {} && Translate(run[3].tables, m.root, REGION_START + 4096).Some?
  {
    var ops := PastTheEndOps();
    assert Step(m, run[0], ops[0], run[1]) && Step(m, run[1], ops[1], run[2]) && Step(m, run[2], ops[2], run[3]);
    StartFilled(m, run[0]);
    NextAfter(m, run[0], 1, run[1], REGION_START);
    FreesOnly(m, run[2], run[3]);
  }

  lemma FreesOnly(m: Machine, s: State, s': State)
    requires Step(m, s, Unmap(REGION_START), s') && Regions(s.nodes) == {Node(true, 4096, REGION_START)}
    requires Translate(s.tables, m.root, REGION_START + 4096).Some?
    ensures Regions(s'.nodes) == {} && Translate(s'.tables, m.root, REGION_START + 4096).Some?
  {
    assert Node(true, 4096, REGION_START) in Regions(s.nodes);
    var hit :| Unmapping(m, s, REGION_START, s', hit);
    assert hit == Some(Node(true, 4096, REGION_START));
    var c := Start(REGION_START);
    StartAtPage(REGION_START);
    CountWithin(s.tables, m.root, c);
    FreedAt(s.tables, s'.tables, m.root, Lin(c), Lin(c) + 1, REGION_START + 4096);
  }

  /** A region, and a fault in it when the pools have no page. */
  function NoMemoryOps(): seq<Op> {
    [Map(1), Touch(REGION_START)]
  }

  /** The page is marked present with no frame. */
  lemma NoMemory(m: Machine, run: seq<State>)
    requires Run(m, run, NoMemoryOps()) && AllOut(m, run[1].out + run[1].others)
    ensures Translate(run[2].tables, m.root, REGION_START) == Some(0)
  {
    var ops, only := NoMemoryOps(), Node(true, 4096, REGION_START);
    assert Step(m, run[0], ops[0], run[1]) && Step(m, run[1], ops[1], run[2]);
    StartFilled(m, run[0]);
    NextAfter(m, run[0], 1, run[1], REGION_START);
    PathDepth(REGION_START);
    assert only in Regions(run[1].nodes);
    assert Accepted(run[1].nodes, REGION_START);
    var page :| Touching(m, run[1], REGION_START, run[2], page);
    assert page == 0;
  }
}
