/** The device driver with several processes on the same pools: what the code does is a run of
    PagingRuns for each of them, and no frame is ever in two processes. */
module SharedRuns {
  import opened Options
  import opened Powers
  import opened Lists
  import opened RegionMap
  import opened PageTables
  import opened PagePools
  import opened OnDemand
  import opened PagingRuns
  import opened TableRuns
  import PoolSetup

  /** An ioctl of process `who`. */
  datatype Request = Request(who: nat, op: Op)

  // ---- What all processes see together --------------------------------------------------

  /** The pages of the pools are with one process each, and so are the tables; what a process takes
      to be out to the others is out to them. */
  ghost predicate Apart(views: seq<State>) {
    && (forall i, j :: 0 <= i < j < |views| ==>
          views[i].out !! views[j].out && views[i].tables.Keys !! views[j].tables.Keys)
    && forall i :: 0 <= i < |views| ==> OthersRight(views, i)
  }

  ghost predicate OthersRight(views: seq<State>, i: nat)
    requires i < |views|
  {
    forall f :: f in views[i].others <==> WithOther(views, i, f)
  }

  ghost predicate WithOther(views: seq<State>, i: nat, f: Frame) {
    exists j :: 0 <= j < |views| && j != i && f in views[j].out
  }

  ghost predicate ViewsOk(ms: seq<Machine>, views: seq<State>) {
    && |views| == |ms| && Apart(views) && (forall i :: 0 <= i < |ms| ==> StateOk(ms[i], views[i]))
    && forall i, j :: 0 <= i < j < |ms| ==> ms[i].first == ms[j].first && ms[i].count == ms[j].count
  }

  function SeenAs(q: Request, i: nat): Op {
    if q.who == i then q.op else Other
  }

  ghost predicate AllStep(ms: seq<Machine>, views: seq<State>, q: Request, views': seq<State>) {
    |views| == |views'| == |ms| && forall i :: 0 <= i < |ms| ==> Step(ms[i], views[i], SeenAs(q, i), views'[i])
  }

  /** The states of all processes, request after request. */
  ghost predicate SystemRun(ms: seq<Machine>, trace: seq<seq<State>>, requests: seq<Request>) {
    && |trace| == |requests| + 1
    && (forall k :: 0 <= k < |trace| ==> ViewsOk(ms, trace[k]))
    && (forall i :: 0 <= i < |ms| ==> Initial(ms[i], trace[0][i]))
    && forall k :: 0 <= k < |requests| ==> AllStep(ms, trace[k], requests[k], trace[k + 1])
  }

  ghost function Column(trace: seq<seq<State>>, i: nat): (run: seq<State>)
    requires forall k :: 0 <= k < |trace| ==> i < |trace[k]|
    ensures |run| == |trace| && forall k :: 0 <= k < |trace| ==> run[k] == trace[k][i]
  {
    seq(|trace|, k requires 0 <= k < |trace| => trace[k][i])
  }

  function OpsOf(requests: seq<Request>, i: nat): (ops: seq<Op>)
    ensures |ops| == |requests| && forall k :: 0 <= k < |requests| ==> ops[k] == SeenAs(requests[k], i)
  {
    seq(|requests|, k requires 0 <= k < |requests| => SeenAs(requests[k], i))
  }

  /** Each process sees a run, so that what is proved of runs holds of every process. */
  lemma EachRuns(ms: seq<Machine>, trace: seq<seq<State>>, requests: seq<Request>, i: nat)
    requires SystemRun(ms, trace, requests) && i < |ms|
    ensures forall k :: 0 <= k < |trace| ==> i < |trace[k]|
    ensures Run(ms[i], Column(trace, i), OpsOf(requests, i))
  {
    assert forall k :: 0 <= k < |trace| ==> ViewsOk(ms, trace[k]);
    var run, ops := Column(trace, i), OpsOf(requests, i);
    forall k | 0 <= k < |ops| ensures Step(ms[i], run[k], ops[k], run[k + 1]) {
      assert AllStep(ms, trace[k], requests[k], trace[k + 1]);
    }
    forall k | 0 <= k < |run| ensures StateOk(ms[i], run[k]) {
      assert ViewsOk(ms, trace[k]);
    }
  }

  /** On every run: no frame is at two pages, of one process or of two, and none that is mapped is a
      table. */
  lemma Separate(ms: seq<Machine>, trace: seq<seq<State>>, requests: seq<Request>,
                 k: nat, i: nat, j: nat, x: nat, y: nat, f: Frame)
    requires SystemRun(ms, trace, requests) && k < |trace| && i < |ms| && j < |ms| && f != 0
    requires x < 0x1_0000_0000_0000 && y < 0x1_0000_0000_0000
    requires Translate(trace[k][i].tables, ms[i].root, x) == Translate(trace[k][j].tables, ms[j].root, y) == Some(f)
    ensures i == j && x / 4096 == y / 4096 && forall l :: 0 <= l < |ms| ==> f !in trace[k][l].tables
  {
    assert ViewsOk(ms, trace[k]);
    SeparateNow(ms, trace[k], i, j, x, y, f);
  }

  lemma SeparateNow(ms: seq<Machine>, views: seq<State>, i: nat, j: nat, x: nat, y: nat, f: Frame)
    requires ViewsOk(ms, views) && i < |ms| && j < |ms| && f != 0
    requires x < 0x1_0000_0000_0000 && y < 0x1_0000_0000_0000
    requires Translate(views[i].tables, ms[i].root, x) == Translate(views[j].tables, ms[j].root, y) == Some(f)
    ensures i == j && x / 4096 == y / 4096 && forall l :: 0 <= l < |ms| ==> f !in views[l].tables
  {
    OwnFrame(ms[i], views[i], x, f);
    OwnFrame(ms[j], views[j], y, f);
    Isolated(views[i].tables, ms[i].root);
    forall l | 0 <= l < |ms| ensures f !in views[l].tables {
      assert StateOk(ms[l], views[l]) && ms[l].Owns(f);
    }
  }

  lemma OwnFrame(m: Machine, s: State, x: nat, f: Frame)
    requires StateOk(m, s) && Translate(s.tables, m.root, x) == Some(f) && f != 0
    ensures f in s.out && m.Owns(f)
  {
    PathDepth(x);
    assert Frames(s.tables, m.root, PathOf(x));
  }

  /** On every run: a request of one process changes nothing of another but what is left in the
      pools. */
  lemma Undisturbed(ms: seq<Machine>, trace: seq<seq<State>>, requests: seq<Request>, k: nat, j: nat)
    requires SystemRun(ms, trace, requests) && k < |requests| && j < |ms| && requests[k].who != j
    ensures trace[k + 1][j] == trace[k][j].(others := trace[k + 1][j].others)
  {
    assert AllStep(ms, trace[k], requests[k], trace[k + 1]);
  }

  /** On every run: when no process has a region left and no fault of any strayed, all user pages are
      back in the pools. */
  lemma PoolsWhole(ms: seq<Machine>, trace: seq<seq<State>>, requests: seq<Request>)
    requires SystemRun(ms, trace, requests)
    requires forall k :: 0 <= k < |trace| ==> |trace[k]| == |ms|
    requires forall i :: 0 <= i < |ms| ==> NoStray(Column(trace, i), OpsOf(requests, i), |requests|)
    requires forall i :: 0 <= i < |ms| ==> Regions(trace[|requests|][i].nodes) == {}
    ensures forall i :: 0 <= i < |ms| ==> trace[|requests|][i].out == {} && trace[|requests|][i].others == {}
  {
    var views := trace[|requests|];
    forall i | 0 <= i < |ms| ensures views[i].out == {} {
      EachRuns(ms, trace, requests, i);
      AllBack(ms[i], Column(trace, i), OpsOf(requests, i));
    }
    assert ViewsOk(ms, views);
    forall i | 0 <= i < |ms| ensures views[i].others == {} {
      assert OthersRight(views, i);
    }
  }

  // ---- The code takes such runs ---------------------------------------------------------

  /** What process sees of itself. */
  ghost function Snapshot(space: AddressSpace, regions: MemMap): State
    reads space, space.mem, regions
  {
    State(regions.nodes, space.tables, space.given, space.mine, space.mem.out - space.mine)
  }

  ghost predicate Ready(m: Machine, space: AddressSpace, regions: MemMap)
    reads space, space.mem, space.mem.repr, space.kernel, regions
  {
    && space.Valid() && MapOk(regions.nodes) && regions !in space.mem.repr
    && space.root == m.root && forall f: nat :: space.mem.InPools(f) <==> m.Owns(f)
  }

  lemma ReadyOk(m: Machine, space: AddressSpace, regions: MemMap)
    requires Ready(m, space, regions)
    ensures StateOk(m, Snapshot(space, regions))
  {
    forall f | f in space.mem.out ensures m.Owns(f) {
      space.mem.OutInPools(f);
    }
  }

  /** One request. */
  method Perform(ghost m: Machine, space: AddressSpace, regions: MemMap, op: Op)
    requires Ready(m, space, regions) && NoEmptyRequest([op]) && !op.Other?
    modifies space, space.mem.repr, space.kernel, regions
    ensures Ready(m, space, regions) && space.Theirs() == old(space.Theirs())
    ensures Step(m, old(Snapshot(space, regions)), op, Snapshot(space, regions))
  {
    ghost var s := Snapshot(space, regions);
    match op
    case Map(numPages) =>
      assert op in [op];
      var addr := regions.Alloc(numPages);
      assert Mapping(m, s, numPages, Snapshot(space, regions), addr);
    case Touch(vaddr) =>
      ghost var page;
      var r;
      r, page := space.Fault(regions, vaddr);
      assert space.Theirs().0 == s.others;
      assert Touching(m, s, vaddr, Snapshot(space, regions), page);
    case Unmap(vaddr) =>
      ghost var hit := space.FreeRegion(regions, vaddr);
      assert space.Theirs().0 == s.others;
      assert Unmapping(m, s, vaddr, Snapshot(space, regions), hit);
  }

  /** The pools, the kernel's pages, and the processes that have the device open. */
  datatype System = System(mem: PageMemory, kernel: Kernel, spaces: seq<AddressSpace>, maps: seq<MemMap>)

  /** The processes are different ones and share the pools and the kernel. */
  ghost predicate Arranged(sys: System, ms: seq<Machine>) {
    && |ms| == |sys.spaces| == |sys.maps|
    && (forall i, j :: 0 <= i < j < |ms| ==> sys.spaces[i] != sys.spaces[j] && sys.maps[i] != sys.maps[j])
    && forall i :: 0 <= i < |ms| ==> sys.spaces[i].mem == sys.mem && sys.spaces[i].kernel == sys.kernel
  }

  ghost predicate Open(sys: System, ms: seq<Machine>)
    reads sys.spaces, sys.maps, sys.mem, sys.mem.repr, sys.kernel
  {
    Arranged(sys, ms) && forall i :: 0 <= i < |ms| ==> Ready(ms[i], sys.spaces[i], sys.maps[i])
  }

  ghost function Views(sys: System, n: nat): (views: seq<State>)
    requires n <= |sys.spaces| == |sys.maps|
    requires forall i :: 0 <= i < n ==> sys.spaces[i].mem == sys.mem
    reads sys.spaces, sys.maps, sys.mem
    ensures |views| == n && forall i :: 0 <= i < n ==> views[i] == Snapshot(sys.spaces[i], sys.maps[i])
  {
    if n == 0 then [] else Views(sys, n - 1) + [Snapshot(sys.spaces[n - 1], sys.maps[n - 1])]
  }

  /** The process is as it was in s. */
  ghost predicate Same(m: Machine, space: AddressSpace, regions: MemMap, s: State)
    reads space, regions
  {
    && space !in space.mem.repr && regions !in space.mem.repr && space.root == m.root
    && s == State(regions.nodes, space.tables, space.given, space.mine, s.others)
  }

  /** The pages out of the pools and in use by the kernel, and those of them that are one process's. */
  datatype Holding = Holding(out: set<Frame>, mine: set<Frame>, inUse: set<Frame>, tables: set<Frame>)

  ghost function HoldingOf(space: AddressSpace): Holding
    reads space, space.mem, space.kernel
  {
    Holding(space.mem.out, space.mine, space.kernel.inUse, space.tables.Keys)
  }

  /** What a process that asks for nothing has is still its own: s is what it saw before, and
      before is what the pools and the kernel had out, in all and to the process that moved. */
  lemma Bystander(m: Machine, mover: AddressSpace, space: AddressSpace, regions: MemMap, s: State, before: Holding)
    requires mover.Valid() && mover.mem == space.mem && mover.kernel == space.kernel
    requires Same(m, space, regions, s) && StateOk(m, s) && forall f: nat :: space.mem.InPools(f) <==> m.Owns(f)
    requires s.out <= before.out - before.mine && s.tables.Keys <= before.inUse - before.tables
    requires mover.Theirs() == (before.out - before.mine, before.inUse - before.tables)
    ensures Ready(m, space, regions) && space.mine !! mover.mine && space.tables.Keys !! mover.tables.Keys
    ensures Step(m, s, Other, Snapshot(space, regions))
  {
    assert space.mine <= mover.mem.out - mover.mine;
    assert space.tables.Keys <= mover.kernel.inUse - mover.tables.Keys;
  }

  /** Each process's share of the pages that are out, and the rest. */
  ghost predicate Shares(views: seq<State>, out: set<Frame>) {
    forall i :: 0 <= i < |views| ==> views[i].out <= out && views[i].others == out - views[i].out
  }

  /** One process has moved, and nothing of the others' has gone to it. */
  lemma ApartStep(views: seq<State>, views': seq<State>, out: set<Frame>, out': set<Frame>, who: nat)
    requires Apart(views) && Shares(views, out) && Shares(views', out') && who < |views| == |views'|
    requires forall j :: 0 <= j < |views| && j != who ==>
               && views'[j] == views[j].(others := views'[j].others)
               && views'[j].out !! views'[who].out && views'[j].tables.Keys !! views'[who].tables.Keys
    requires views'[who].others == views[who].others
    ensures Apart(views')
  {
    forall i | 0 <= i < |views'| ensures OthersRight(views', i) {
      forall f ensures f in views'[i].others <==> WithOther(views', i, f) {
        OtherStep(views, views', out, out', who, i, f);
      }
    }
  }

  lemma OtherStep(views: seq<State>, views': seq<State>, out: set<Frame>, out': set<Frame>, who: nat, i: nat, f: Frame)
    requires Apart(views) && Shares(views, out) && Shares(views', out') && who < |views| == |views'| && i < |views|
    requires forall j :: 0 <= j < |views| && j != who ==>
               views'[j] == views[j].(others := views'[j].others) && views'[j].out !! views'[who].out
    requires views'[who].others == views[who].others
    ensures f in views'[i].others <==> WithOther(views', i, f)
  {
    assert OthersRight(views, who);
    assert f in out' <==> f in views'[who].out || f in views[who].others;
    if f in views[who].others {
      var j :| 0 <= j < |views| && j != who && f in views[j].out;
      assert f in views'[j].out;
    }
    if WithOther(views', i, f) {
      var j :| 0 <= j < |views'| && j != i && f in views'[j].out;
      if i != who && j != who {
        assert views[i].out !! views[j].out;
      } else if i == who {
        assert f in views[j].out;
        assert WithOther(views, who, f);
      }
    }
  }

  lemma SharesOf(sys: System, ms: seq<Machine>)
    requires Open(sys, ms)
    ensures Shares(Views(sys, |ms|), sys.mem.out)
    ensures forall i :: 0 <= i < |ms| ==> sys.spaces[i].tables.Keys <= sys.kernel.inUse
  {
    forall i | 0 <= i < |ms|
      ensures sys.spaces[i].mine <= sys.mem.out && sys.spaces[i].tables.Keys <= sys.kernel.inUse
    {
      assert Ready(ms[i], sys.spaces[i], sys.maps[i]);
    }
  }

  /** Nothing of the process has gone to the one that moved, which now sees w. */
  ghost predicate Clear(m: Machine, s: State, s': State, w: State) {
    s'.out !! w.out && s'.tables.Keys !! w.tables.Keys && Step(m, s, Other, s')
  }

  /** One process has moved: where that leaves another. */
  lemma Onlooker(sys: System, ms: seq<Machine>, views: seq<State>, before: Holding, who: nat, j: nat)
    requires Arranged(sys, ms) && ViewsOk(ms, views) && who < |ms| && j < |ms| && j != who
    requires before.mine == views[who].out && before.tables == views[who].tables.Keys
    requires Shares(views, before.out) && views[j].tables.Keys <= before.inUse
    requires Ready(ms[who], sys.spaces[who], sys.maps[who])
    requires sys.spaces[who].Theirs() == (before.out - before.mine, before.inUse - before.tables)
    requires Same(ms[j], sys.spaces[j], sys.maps[j], views[j])
    ensures Ready(ms[j], sys.spaces[j], sys.maps[j])
    ensures Clear(ms[j], views[j], Snapshot(sys.spaces[j], sys.maps[j]), Snapshot(sys.spaces[who], sys.maps[who]))
  {
    assert views[j].out !! views[who].out && views[j].tables.Keys !! views[who].tables.Keys;
    assert ms[j].first == ms[who].first && ms[j].count == ms[who].count;
    Bystander(ms[j], sys.spaces[who], sys.spaces[j], sys.maps[j], views[j], before);
  }

  lemma Onlookers(sys: System, ms: seq<Machine>, views: seq<State>, before: Holding, who: nat)
    requires Arranged(sys, ms) && ViewsOk(ms, views) && who < |ms|
    requires before.mine == views[who].out && before.tables == views[who].tables.Keys
    requires Shares(views, before.out) && forall j :: 0 <= j < |ms| ==> views[j].tables.Keys <= before.inUse
    requires Ready(ms[who], sys.spaces[who], sys.maps[who])
    requires sys.spaces[who].Theirs() == (before.out - before.mine, before.inUse - before.tables)
    requires forall j :: 0 <= j < |ms| && j != who ==> Same(ms[j], sys.spaces[j], sys.maps[j], views[j])
    ensures Open(sys, ms)
    ensures forall j :: 0 <= j < |ms| && j != who ==>
              Clear(ms[j], views[j], Snapshot(sys.spaces[j], sys.maps[j]), Snapshot(sys.spaces[who], sys.maps[who]))
  {
    forall j | 0 <= j < |ms| && j != who
      ensures Ready(ms[j], sys.spaces[j], sys.maps[j])
      ensures Clear(ms[j], views[j], Snapshot(sys.spaces[j], sys.maps[j]), Snapshot(sys.spaces[who], sys.maps[who]))
    {
      Onlooker(sys, ms, views, before, who, j);
    }
  }

  method Act(sys: System, ghost ms: seq<Machine>, q: Request, ghost views: seq<State>)
    requires Open(sys, ms) && q.who < |sys.spaces| && views == Views(sys, |ms|)
    requires NoEmptyRequest([q.op]) && !q.op.Other?
    modifies sys.spaces[q.who], sys.mem.repr, sys.kernel, sys.maps[q.who]
    ensures Ready(ms[q.who], sys.spaces[q.who], sys.maps[q.who])
    ensures sys.spaces[q.who].Theirs() == old(sys.spaces[q.who].Theirs())
    ensures Step(ms[q.who], views[q.who], q.op, Snapshot(sys.spaces[q.who], sys.maps[q.who]))
    ensures forall j :: 0 <= j < |ms| && j != q.who ==> Same(ms[j], sys.spaces[j], sys.maps[j], views[j])
  {
    forall j | 0 <= j < |ms| && j != q.who ensures Same(ms[j], sys.spaces[j], sys.maps[j], views[j]) {
      assert Ready(ms[j], sys.spaces[j], sys.maps[j]);
    }
    Perform(ms[q.who], sys.spaces[q.who], sys.maps[q.who], q.op);
  }

  method Move(sys: System, ghost ms: seq<Machine>, q: Request, ghost views: seq<State>)
    requires Open(sys, ms) && q.who < |sys.spaces| && ViewsOk(ms, views) && views == Views(sys, |ms|)
    requires Shares(views, sys.mem.out) && forall i :: 0 <= i < |ms| ==> views[i].tables.Keys <= sys.kernel.inUse
    requires NoEmptyRequest([q.op]) && !q.op.Other?
    modifies sys.spaces[q.who], sys.mem.repr, sys.kernel, sys.maps[q.who]
    ensures Open(sys, ms) && Step(ms[q.who], views[q.who], q.op, Snapshot(sys.spaces[q.who], sys.maps[q.who]))
    ensures Snapshot(sys.spaces[q.who], sys.maps[q.who]).others == views[q.who].others
    ensures forall j :: 0 <= j < |ms| && j != q.who ==>
              Clear(ms[j], views[j], Snapshot(sys.spaces[j], sys.maps[j]), Snapshot(sys.spaces[q.who], sys.maps[q.who]))
  {
    ghost var before := HoldingOf(sys.spaces[q.who]);
    Act(sys, ms, q, views);
    Onlookers(sys, ms, views, before, q.who);
    assert sys.spaces[q.who].Theirs().0 == before.out - before.mine;
  }

  /** Where it leaves all of them. */
  lemma Settled(ms: seq<Machine>, views: seq<State>, views': seq<State>, out: set<Frame>, out': set<Frame>, q: Request)
    requires ViewsOk(ms, views) && Shares(views, out) && Shares(views', out') && q.who < |ms| == |views'|
    requires Step(ms[q.who], views[q.who], q.op, views'[q.who]) && views'[q.who].others == views[q.who].others
    requires forall i :: 0 <= i < |ms| ==> StateOk(ms[i], views'[i])
    requires forall j :: 0 <= j < |ms| && j != q.who ==> Clear(ms[j], views[j], views'[j], views'[q.who])
    ensures ViewsOk(ms, views') && AllStep(ms, views, q, views')
  {
    ApartStep(views, views', out, out', q.who);
  }

  lemma ViewsReady(sys: System, ms: seq<Machine>)
    requires Open(sys, ms)
    ensures Shares(Views(sys, |ms|), sys.mem.out)
    ensures forall i :: 0 <= i < |ms| ==> StateOk(ms[i], Views(sys, |ms|)[i])
  {
    SharesOf(sys, ms);
    forall i | 0 <= i < |ms| ensures StateOk(ms[i], Views(sys, |ms|)[i]) {
      ReadyOk(ms[i], sys.spaces[i], sys.maps[i]);
    }
  }

  /** One request of one process, with the others looking on. */
  method Serve(sys: System, ghost ms: seq<Machine>, q: Request)
    requires Open(sys, ms) && q.who < |sys.spaces| && ViewsOk(ms, Views(sys, |ms|))
    requires NoEmptyRequest([q.op]) && !q.op.Other?
    modifies sys.spaces[q.who], sys.mem.repr, sys.kernel, sys.maps[q.who]
    ensures Open(sys, ms) && ViewsOk(ms, Views(sys, |ms|))
    ensures AllStep(ms, old(Views(sys, |ms|)), q, Views(sys, |ms|))
  {
    ghost var views, out := Views(sys, |ms|), sys.mem.out;
    SharesOf(sys, ms);
    Move(sys, ms, q, views);
    ViewsReady(sys, ms);
    Settled(ms, views, Views(sys, |ms|), out, sys.mem.out, q);
  }

  // ---- From the opening of the device on --------------------------------------------------

  /** Where ADD_MEMORY is given a range that the code can serve. */
  predicate Range(base: PoolSetup.Addr, pages: nat) {
    0 < base && base % 4096 == 0 && pages < 0x8_0000 && base + pages * 4096 < TWO64
  }

  /** Different roots, none of them in the range. */
  predicate Roots(base: PoolSetup.Addr, pages: nat, cr3s: seq<Frame>) {
    && (forall i :: 0 <= i < |cr3s| ==> cr3s[i] != 0 && !(base <= cr3s[i] * 4096 < base + pages * 4096))
    && forall i, j :: 0 <= i < j < |cr3s| ==> cr3s[i] != cr3s[j]
  }

  ghost function Machines(base: PoolSetup.Addr, pages: nat, cr3s: seq<Frame>): (ms: seq<Machine>)
    ensures |ms| == |cr3s| && forall i :: 0 <= i < |ms| ==> ms[i] == Machine(cr3s[i], base / 4096, pages)
  {
    seq(|cr3s|, i requires 0 <= i < |cr3s| => Machine(cr3s[i], base / 4096, pages))
  }

  /** A process that has just opened the device. */
  ghost predicate Opened(m: Machine, space: AddressSpace, regions: MemMap)
    reads space, regions
  {
    && space !in space.mem.repr && regions !in space.mem.repr && space.root == m.root
    && Balanced(space.tables, space.root, space.given, {}) && space.mine == {} && space.tables.Keys == {m.root}
    && MapOk(regions.nodes) && Initial(m, State(regions.nodes, space.tables, space.given, {}, {}))
  }

  /** The kernel's pages are not the pools'. */
  ghost predicate Installed(mem: PageMemory, kernel: Kernel)
    reads mem, mem.repr, kernel
  {
    mem.Valid() && kernel !in mem.repr && forall f :: f in kernel.inUse ==> !mem.InPools(f)
  }

  /** Nothing is out, and each process has its root. */
  lemma StartRun(ms: seq<Machine>, views: seq<State>)
    requires |views| == |ms| && forall i :: 0 <= i < |ms| ==> StateOk(ms[i], views[i]) && Initial(ms[i], views[i])
    requires forall i :: 0 <= i < |ms| ==> views[i].others == {} && views[i].tables.Keys == {ms[i].root}
    requires forall i, j :: 0 <= i < j < |ms| ==>
               ms[i].root != ms[j].root && ms[i].first == ms[j].first && ms[i].count == ms[j].count
    ensures SystemRun(ms, [views], [])
  {
    forall i | 0 <= i < |views| ensures OthersRight(views, i) {
    }
  }

  lemma StartOk(sys: System, ms: seq<Machine>)
    requires Arranged(sys, ms) && sys.mem.out == {}
    requires forall i :: 0 <= i < |ms| ==> Opened(ms[i], sys.spaces[i], sys.maps[i])
    requires Installed(sys.mem, sys.kernel) && forall i :: 0 <= i < |ms| ==> ms[i].root in sys.kernel.inUse
    requires forall i :: 0 <= i < |ms| ==> forall f: nat :: sys.mem.InPools(f) <==> ms[i].Owns(f)
    ensures Open(sys, ms)
    ensures forall i :: 0 <= i < |ms| ==> StateOk(ms[i], Views(sys, |ms|)[i]) && Initial(ms[i], Views(sys, |ms|)[i])
    ensures forall i :: 0 <= i < |ms| ==> Views(sys, |ms|)[i].others == {}
    ensures forall i :: 0 <= i < |ms| ==> Views(sys, |ms|)[i].tables.Keys == {ms[i].root}
  {
    forall i | 0 <= i < |ms| ensures Ready(ms[i], sys.spaces[i], sys.maps[i]) && StateOk(ms[i], Views(sys, |ms|)[i]) {
      assert Opened(ms[i], sys.spaces[i], sys.maps[i]);
      ReadyOk(ms[i], sys.spaces[i], sys.maps[i]);
    }
  }

  lemma Started(sys: System, base: PoolSetup.Addr, pages: nat, cr3s: seq<Frame>)
    requires Range(base, pages) && Roots(base, pages, cr3s) && Installed(sys.mem, sys.kernel) && sys.mem.out == {}
    requires forall f: nat :: sys.mem.InPools(f) <==> base <= f * 4096 < base + pages * 4096
    requires sys.kernel.inUse == set c | c in cr3s
    requires var ms := Machines(base, pages, cr3s);
             Arranged(sys, ms) && forall i :: 0 <= i < |ms| ==> Opened(ms[i], sys.spaces[i], sys.maps[i])
    ensures var ms := Machines(base, pages, cr3s); Open(sys, ms) && SystemRun(ms, [Views(sys, |ms|)], [])
  {
    var ms := Machines(base, pages, cr3s);
    StartOk(sys, ms);
    StartRun(ms, Views(sys, |ms|));
  }

  /** petmem_open. */
  method OpenDevice(ghost m: Machine, cr3: Frame, mem: PageMemory, kernel: Kernel)
    returns (space: AddressSpace, regions: MemMap)
    requires Installed(mem, kernel) && m.root == cr3 != 0 && cr3 in kernel.inUse
    ensures fresh(space) && fresh(regions) && space.mem == mem && space.kernel == kernel && Opened(m, space, regions)
  {
    space := new AddressSpace(cr3, mem, kernel);
    regions := new MemMap();
  }

  lemma OneMore(sys: System, ms: seq<Machine>, m: Machine, space: AddressSpace, regions: MemMap)
    requires Arranged(sys, ms) && space !in sys.spaces && regions !in sys.maps
    requires space.mem == sys.mem && space.kernel == sys.kernel
    ensures Arranged(sys.(spaces := sys.spaces + [space], maps := sys.maps + [regions]), ms + [m])
  {
  }

  /** The device is opened by each process. */
  method OpenAll(ghost ms: seq<Machine>, cr3s: seq<Frame>, mem: PageMemory, kernel: Kernel) returns (sys: System)
    requires Installed(mem, kernel) && |ms| == |cr3s|
    requires forall i :: 0 <= i < |ms| ==> ms[i].root == cr3s[i] != 0 && cr3s[i] in kernel.inUse
    ensures sys.mem == mem && sys.kernel == kernel && fresh(sys.spaces) && fresh(sys.maps) && Arranged(sys, ms)
    ensures forall i :: 0 <= i < |ms| ==> Opened(ms[i], sys.spaces[i], sys.maps[i])
  {
    sys := System(mem, kernel, [], []);
    for n := 0 to |cr3s|
      invariant sys.mem == mem && sys.kernel == kernel && fresh(sys.spaces) && fresh(sys.maps)
      invariant Arranged(sys, ms[..n])
      invariant forall i :: 0 <= i < n ==> Opened(ms[i], sys.spaces[i], sys.maps[i])
    {
      var space, regions := OpenDevice(ms[n], cr3s[n], mem, kernel);
      OneMoreTaken(ms, n);
      OneMore(sys, ms[..n], ms[n], space, regions);
      sys := sys.(spaces := sys.spaces + [space], maps := sys.maps + [regions]);
    }
    assert ms[..|cr3s|] == ms;
  }

  /** ADD_MEMORY, and then the opening of the device. */
  method Boot(base: PoolSetup.Addr, pages: nat, cr3s: seq<Frame>) returns (sys: System)
    requires Range(base, pages) && Roots(base, pages, cr3s)
    ensures fresh(sys.spaces) && fresh(sys.mem.repr) && fresh(sys.kernel) && fresh(sys.maps)
    ensures var ms := Machines(base, pages, cr3s);
            Open(sys, ms) && SystemRun(ms, [Views(sys, |ms|)], [])
  {
    var mem := Setup(base, pages);
    var kernel := new Kernel(set c | c in cr3s);
    sys := OpenAll(Machines(base, pages, cr3s), cr3s, mem, kernel);
    Started(sys, base, pages, cr3s);
  }

  /** The requests name processes, and none is empty. */
  ghost predicate Requests(requests: seq<Request>, n: nat) {
    forall k :: 0 <= k < |requests| ==>
      requests[k].who < n && !requests[k].op.Other? && NoEmptyRequest([requests[k].op])
  }

  lemma LongerRun(ms: seq<Machine>, trace: seq<seq<State>>, requests: seq<Request>, q: Request, views: seq<State>)
    requires SystemRun(ms, trace, requests) && ViewsOk(ms, views) && AllStep(ms, trace[|requests|], q, views)
    ensures SystemRun(ms, trace + [views], requests + [q])
  {
    var trace', requests' := trace + [views], requests + [q];
    forall k | 0 <= k < |requests'| ensures AllStep(ms, trace'[k], requests'[k], trace'[k + 1]) {
      assert k < |requests| ==> AllStep(ms, trace[k], requests[k], trace[k + 1]);
    }
  }

  /** The requests done so far are a run that ends in the present state. */
  ghost predicate Along(sys: System, ms: seq<Machine>, trace: seq<seq<State>>, done: seq<Request>)
    reads sys.spaces, sys.maps, sys.mem, sys.mem.repr, sys.kernel
  {
    Open(sys, ms) && SystemRun(ms, trace, done) && trace[|done|] == Views(sys, |ms|)
  }

  method ServeNext(sys: System, ghost ms: seq<Machine>, ghost trace: seq<seq<State>>, requests: seq<Request>, k: nat)
    returns (ghost trace': seq<seq<State>>)
    requires Requests(requests, |sys.spaces|) && k < |requests| && Along(sys, ms, trace, requests[..k])
    modifies sys.spaces, sys.mem.repr, sys.kernel, sys.maps
    ensures Along(sys, ms, trace', requests[..k + 1])
  {
    assert ViewsOk(ms, trace[k]);
    Serve(sys, ms, requests[k]);
    OneMoreTaken(requests, k);
    LongerRun(ms, trace, requests[..k], requests[k], Views(sys, |ms|));
    trace' := trace + [Views(sys, |ms|)];
  }

  method ServeAll(sys: System, ghost ms: seq<Machine>, requests: seq<Request>) returns (ghost trace: seq<seq<State>>)
    requires Requests(requests, |sys.spaces|) && Open(sys, ms) && SystemRun(ms, [Views(sys, |ms|)], [])
    modifies sys.spaces, sys.mem.repr, sys.kernel, sys.maps
    ensures Along(sys, ms, trace, requests)
  {
    trace := [Views(sys, |ms|)];
    for k := 0 to |requests|
      invariant Along(sys, ms, trace, requests[..k])
    {
      trace := ServeNext(sys, ms, trace, requests, k);
    }
    assert requests[..|requests|] == requests;
  }

  /** Whatever the processes ask for, in whatever order, is a run. */
  method Processes(base: PoolSetup.Addr, pages: nat, cr3s: seq<Frame>, requests: seq<Request>)
    returns (ghost trace: seq<seq<State>>, sys: System)
    requires Range(base, pages) && Roots(base, pages, cr3s) && Requests(requests, |cr3s|)
    ensures var ms := Machines(base, pages, cr3s);
            && SystemRun(ms, trace, requests) && Open(sys, ms) && trace[|requests|] == Views(sys, |ms|)
  {
    ghost var ms := Machines(base, pages, cr3s);
    sys := Boot(base, pages, cr3s);
    trace := ServeAll(sys, ms, requests);
  }

  /** One process alone. */
  method Process(base: PoolSetup.Addr, pages: nat, cr3: Frame, ops: seq<Op>)
    returns (ghost m: Machine, ghost run: seq<State>, space: AddressSpace, regions: MemMap)
    requires Range(base, pages) && Roots(base, pages, [cr3])
    requires NoEmptyRequest(ops) && forall k :: 0 <= k < |ops| ==> !ops[k].Other?
    ensures m == Machine(cr3, base / 4096, pages) && Run(m, run, ops)
    ensures Ready(m, space, regions) && run[|ops|] == Snapshot(space, regions)
    ensures forall k :: 0 <= k < |run| ==> Single(run[k].tables, m.root)
  {
    var requests := seq(|ops|, k requires 0 <= k < |ops| => Request(0, ops[k]));
    forall k | 0 <= k < |ops| ensures NoEmptyRequest([requests[k].op]) {
      assert ops[k] in ops;
    }
    ghost var trace;
    var sys;
    trace, sys := Processes(base, pages, [cr3], requests);
    ghost var ms := Machines(base, pages, [cr3]);
    EachRuns(ms, trace, requests, 0);
    assert OpsOf(requests, 0) == ops;
    m, run, space, regions := ms[0], Column(trace, 0), sys.spaces[0], sys.maps[0];
    forall k | 0 <= k < |run| ensures Single(run[k].tables, m.root) {
      assert StateOk(m, run[k]);
      Isolated(run[k].tables, m.root);
    }
  }

  // ---- The runs that go wrong, of the code ------------------------------------------------

  /** A page of a region that is still there is unmapped by the release of another region. */
  method Overshoot(base: PoolSetup.Addr, pages: nat, cr3: Frame)
    returns (ghost m: Machine, space: AddressSpace, regions: MemMap)
    requires Range(base, pages) && Roots(base, pages, [cr3])
    ensures Ready(m, space, regions) && m == Machine(cr3, base / 4096, pages)
    ensures Node(true, 4096, THIRD_AT) in Regions(regions.nodes) && Translate(space.tables, cr3, THIRD_AT).None?
  {
    ghost var run;
    m, run, space, regions := Process(base, pages, cr3, OvershootOps());
    Overshoots(m, run);
  }

  /** A page is still mapped when no region is left. */
  method LeftBehind(base: PoolSetup.Addr, pages: nat, cr3: Frame)
    returns (ghost m: Machine, space: AddressSpace, regions: MemMap)
    requires Range(base, pages) && Roots(base, pages, [cr3])
    ensures Ready(m, space, regions) && m == Machine(cr3, base / 4096, pages)
    ensures Regions(regions.nodes) == {} && Translate(space.tables, cr3, REGION_START + 4096).Some?
  {
    ghost var run;
    m, run, space, regions := Process(base, pages, cr3, PastTheEndOps());
    PastTheEnd(m, run);
  }

  /** With no page in the pools, a page is mapped to frame 0. */
  method Unbacked(base: PoolSetup.Addr, cr3: Frame)
    returns (ghost m: Machine, space: AddressSpace, regions: MemMap)
    requires Range(base, 0) && Roots(base, 0, [cr3])
    ensures Ready(m, space, regions) && m == Machine(cr3, base / 4096, 0)
    ensures Translate(space.tables, cr3, REGION_START) == Some(0)
  {
    ghost var run;
    m, run, space, regions := Process(base, 0, cr3, NoMemoryOps());
    assert forall f :: !m.Owns(f);
    NoMemory(m, run);
  }

  /** The tables of a page outlive it, with no region left. */
  method EmptyTables(base: PoolSetup.Addr, pages: nat, cr3: Frame)
    returns (ghost m: Machine, space: AddressSpace, regions: MemMap)
    requires Range(base, pages) && Roots(base, pages, [cr3])
    ensures Ready(m, space, regions) && m == Machine(cr3, base / 4096, pages)
    ensures Regions(regions.nodes) == {} && space.mine == {}
    ensures Walk(space.tables, cr3, PathOf(REGION_START).parent).Some?
  {
    ghost var run;
    m, run, space, regions := Process(base, pages, cr3, OnePageOps());
    TablesLeft(m, run);
  }
}
