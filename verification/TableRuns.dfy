/** The page tables over whole runs of a process: what a release gives back of them, and what stays. */
module TableRuns {
  import opened Options
  import opened RegionMap
  import opened PageTables
  import opened FreeWalk
  import opened TableTrim
  import opened OnDemand
  import opened PagingRuns

  /** The one first-level table of the region. */
  const TOP: Path := Sub(Root, 0)

  /** The page numbered x. */
  function PageAt(x: nat): (d: Cursor)
    requires x < 0x800_0000
    ensures Ok(d) && d.i4 == 0 && d.i3 == x / 0x4_0000 && Lin(d) == x
  {
    Cursor(0, x / 0x4_0000, x / 512 % 512, x % 512)
  }

  lemma SmallExcess(t: Tables, root: Frame, c: Cursor, n: nat)
    requires Ok(c) && Walk(t, root, At1(c)).Some?
    ensures Excess(t, root, c, n) < 0x4_0000
  {
    ExcessIsLead(t, root, c, n);
    Product2(512 - c.i2, 512 - c.i1);
  }

  lemma RegionPages(nodes: seq<Node>, n: Node)
    requires MapOk(nodes) && n in Regions(nodes)
    ensures n.start % 4096 == 0 && n.size % 4096 == 0 && n.size > 0
    ensures REGION_START <= n.start && n.start / 4096 + n.size / 4096 <= REGION_END / 4096
  {
    var i :| 0 <= i < |nodes| && nodes[i] == n;
    InRegion(nodes, i);
  }

  lemma TopUnmapped(m: Machine, s: State, vaddr: nat, s': State, n: Node)
    requires Unmapping(m, s, vaddr, s', Some(n)) && StateOk(m, s) && Walk(s.tables, m.root, TOP).Some?
    ensures Walk(s'.tables, m.root, TOP) == Walk(s.tables, m.root, TOP)
  {
    var c, k := Start(vaddr), n.size / 4096;
    RegionPages(s.nodes, n);
    StartAtPage(vaddr);
    SmallExcess(s.tables, m.root, c, k);
    var d := PageAt(Lin(c) + k + Excess(s.tables, m.root, c, k) - 1);
    FirstLevelStays(s.tables, s'.tables, m.root, Lin(c), d);
  }

  lemma TopStep(m: Machine, s: State, op: Op, s': State)
    requires Step(m, s, op, s') && StateOk(m, s) && Walk(s.tables, m.root, TOP).Some?
    ensures Walk(s'.tables, m.root, TOP) == Walk(s.tables, m.root, TOP)
  {
    assert Depth(TOP) == 1;
    match op
    case Map(numPages) =>
      var addr :| Mapping(m, s, numPages, s', addr);
    case Touch(vaddr) =>
      var page :| Touching(m, s, vaddr, s', page);
    case Unmap(vaddr) =>
      var hit :| Unmapping(m, s, vaddr, s', hit);
      if hit.Some? {
        TopUnmapped(m, s, vaddr, s', hit.value);
      }
    case Other =>
  }

  lemma TopNext(m: Machine, run: seq<State>, ops: seq<Op>, i: nat)
    requires Run(m, run, ops) && i < |ops| && Walk(run[i].tables, m.root, TOP).Some?
    ensures Walk(run[i + 1].tables, m.root, TOP) == Walk(run[i].tables, m.root, TOP)
  {
    assert Step(m, run[i], ops[i], run[i + 1]);
    TopStep(m, run[i], ops[i], run[i + 1]);
  }

  /** On every run: the first-level table, once a fault has made it, is never given back. */
  lemma {:induction false} TopStays(m: Machine, run: seq<State>, ops: seq<Op>, i: nat, j: nat)
    requires Run(m, run, ops) && i <= j < |run| && Walk(run[i].tables, m.root, TOP).Some?
    ensures Walk(run[j].tables, m.root, TOP) == Walk(run[i].tables, m.root, TOP)
    decreases j
  {
    if i == j {
    } else {
      TopStays(m, run, ops, i, j - 1);
      TopNext(m, run, ops, j - 1);
    }
  }

  /** A region of one page, a fault in it and its release. */
  function OnePageOps(): seq<Op> {
    [Map(1), Touch(REGION_START), Unmap(REGION_START)]
  }

  lemma FirstPage(m: Machine, s: State, s': State)
    requires Step(m, s, Touch(REGION_START), s') && Accepted(s.nodes, REGION_START)
    ensures s'.nodes == s.nodes && Walk(s'.tables, m.root, PathOf(REGION_START).parent).Some?
  {
    var page :| Touching(m, s, REGION_START, s', page);
    PathDepth(REGION_START);
    OnTheWay(REGION_START, PathOf(REGION_START).parent);
  }

  /** A release of one page that is not the last of its table leaves the table. */
  lemma FreedOne(before: Tables, t: Tables, root: Frame, c: Cursor, out: set<Frame>, out': set<Frame>)
    requires FreedSpan(before, t, root, c, 1, out, out') && c.i1 < 511 && Walk(before, root, At3(c)).Some?
    ensures Walk(t, root, At4(c)).None? && Walk(t, root, At3(c)) == Walk(before, root, At3(c))
  {
    AtDepths(c);
    assert Excess(before, root, c, 1) == 0;
    SpannedAt(c, Lin(c), Lin(c) + 1);
    assert Reach(before, root, c) == Lin(c) + 1;
    PassedAt(At3(c), c.(i1 := 511), Lin(c), Lin(c) + 1);
  }

  lemma OnlyPage(m: Machine, s: State, s': State)
    requires Step(m, s, Unmap(REGION_START), s') && Regions(s.nodes) == {Node(true, 4096, REGION_START)}
    requires Walk(s.tables, m.root, PathOf(REGION_START).parent).Some?
    ensures Regions(s'.nodes) == {} && Walk(s'.tables, m.root, PathOf(REGION_START)).None?
    ensures Walk(s'.tables, m.root, PathOf(REGION_START).parent).Some?
  {
    assert Node(true, 4096, REGION_START) in Regions(s.nodes);
    var hit :| Unmapping(m, s, REGION_START, s', hit);
    assert hit == Some(Node(true, 4096, REGION_START));
    StartAtPage(REGION_START);
    FreedOne(s.tables, s'.tables, m.root, Start(REGION_START), s.out, s'.out);
  }

  lemma OnePageStates(m: Machine, s0: State, s1: State, s2: State, s3: State)
    requires Initial(m, s0) && Step(m, s0, Map(1), s1)
    requires Step(m, s1, Touch(REGION_START), s2) && Step(m, s2, Unmap(REGION_START), s3)
    ensures Regions(s1.nodes) == {Node(true, 4096, REGION_START)} && Regions(s3.nodes) == {}
    ensures Walk(s3.tables, m.root, PathOf(REGION_START)).None?
    ensures Walk(s3.tables, m.root, PathOf(REGION_START).parent).Some?
  {
    StartFilled(m, s0);
    NextAfter(m, s0, 1, s1, REGION_START);
    assert Node(true, 4096, REGION_START) in Regions(s1.nodes);
    FirstPage(m, s1, s2);
    OnlyPage(m, s2, s3);
  }

  lemma NoneOut(m: Machine, run: seq<State>)
    requires Run(m, run, OnePageOps())
    requires Regions(run[1].nodes) == {Node(true, 4096, REGION_START)} && Regions(run[3].nodes) == {}
    ensures run[3].out == {}
  {
    assert Node(true, 4096, REGION_START) in Regions(run[1].nodes);
    assert !Stray(run[1].nodes, REGION_START);
    AllBack(m, run, OnePageOps());
  }

  /** On every such run: no region and no page is left, and the table of the page, and so those above
      it, are. */
  lemma TablesLeft(m: Machine, run: seq<State>)
    requires Run(m, run, OnePageOps())
    ensures Regions(run[3].nodes) == {} && run[3].out == {}
    ensures Walk(run[3].tables, m.root, PathOf(REGION_START)).None?
    ensures Walk(run[3].tables, m.root, PathOf(REGION_START).parent).Some?
  {
    var ops := OnePageOps();
    assert Step(m, run[0], ops[0], run[1]) && Step(m, run[1], ops[1], run[2]) && Step(m, run[2], ops[2], run[3]);
    OnePageStates(m, run[0], run[1], run[2], run[3]);
    NoneOut(m, run);
  }
}
