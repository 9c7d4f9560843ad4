/** The lock-free queue of sync_tools/locking.c (after Valois) as an interleaving of any
    number of threads, one step per load, store or compare-and-swap, over sequentially
    consistent memory in which freed nodes are never handed out again. */
module LockFreeQueue {
  import opened Options
  import Lists

  /** Address 0 is NULL. */
  const NULL: nat := 0

  /** What an operation did, in the order the operations took effect. */
  datatype Event = Enq(tid: nat, v: int) | Deq(tid: nat, v: int) | Empty(tid: nat)

  /** Where a thread stands. E: lf_enqueue of v through node q; D: lf_dequeue. */
  datatype Pc =
    | Idle
    | E1(q: nat, v: int)                       // p = queue->tail
    | E2(q: nat, v: int, p: nat)               // CAS(&p->next, NULL, q)
    | E3(q: nat, v: int, p: nat)               // succ = (q == p->next)
    | E4(q: nat, v: int, p: nat)               // load p->next for the second CAS
    | E5(q: nat, v: int, p: nat, n: nat)       // CAS(&queue->tail, p, n)
    | E6(q: nat, v: int, p: nat)               // CAS(&queue->tail, p, q)
    | D1                                       // p = queue->head
    | D2(p: nat)                               // if (p->next == NULL) return 0
    | D3(p: nat)                               // load p->next for the CAS
    | D4(p: nat, n: nat)                       // CAS(&queue->head, p, n)
    | D5(p: nat, won: bool)                    // load p->next
    | D6(p: nat, won: bool, n: nat)            // load n->value
    | D7(p: nat, won: bool, r: int)            // retry, or free(p) and return r

  /** Shared memory. The last four fields are bookkeeping that no thread reads: the nodes in
      the order they were linked, how many of them head and tail have passed, and the nodes
      given to free. */
  datatype Mem = Mem(next: map<nat, nat>, value: map<nat, int>, head: nat, tail: nat,
                     chain: seq<nat>, hi: nat, ti: nat, freed: seq<nat>)

  /** The log holds the events in the order they took effect; reports[t] what the finished
      calls of thread t returned. */
  datatype State = State(mem: Mem, pcs: seq<Pc>, log: seq<Event>, reports: seq<seq<Event>>)

  /** What an idle thread calls next; malloc returns addr. */
  datatype Call = Enqueue(v: int, addr: nat) | Dequeue

  function Load(m: map<nat, nat>, a: nat): nat {
    if a in m then m[a] else NULL
  }

  function LoadValue(m: map<nat, int>, a: nat): int {
    if a in m then m[a] else 0
  }

  /** A thread may always step; malloc never returns NULL or an address used before. */
  predicate Enabled(s: State, t: nat, c: Call) {
    && t < |s.pcs| && |s.reports| == |s.pcs|
    && (s.pcs[t].Idle? && c.Enqueue? ==> c.addr != NULL && c.addr !in s.mem.next)
  }

  /** What the step does to memory. */
  function Effect(m: Mem, pc: Pc, c: Call): Mem {
    match pc
    case Idle =>
      if c.Enqueue? then m.(next := m.next[c.addr := NULL], value := m.value[c.addr := c.v]) else m
    case E2(q, v, p) =>
      if Load(m.next, p) == NULL then m.(next := m.next[p := q], chain := m.chain + [q]) else m
    case E5(q, v, p, n) => SwingTail(m, p, n)
    case E6(q, v, p) => SwingTail(m, p, q)
    case D4(p, n) => if m.head == p then m.(head := n, hi := m.hi + 1) else m
    case D7(p, won, r) => if won then m.(freed := m.freed + [p]) else m
    case _ => m
  }

  function SwingTail(m: Mem, p: nat, n: nat): Mem {
    if m.tail == p then m.(tail := n, ti := m.ti + 1) else m
  }

  /** Where the step leads. */
  function Goto(m: Mem, pc: Pc, c: Call): Pc {
    match pc
    case Idle => if c.Enqueue? then E1(c.addr, c.v) else D1
    case E1(q, v) => E2(q, v, m.tail)
    case E2(q, v, p) => E3(q, v, p)
    case E3(q, v, p) => if Load(m.next, p) == q then E6(q, v, p) else E4(q, v, p)
    case E4(q, v, p) => E5(q, v, p, Load(m.next, p))
    case E5(q, v, p, n) => E1(q, v)
    case E6(q, v, p) => Idle
    case D1 => D2(m.head)
    case D2(p) => if Load(m.next, p) == NULL then Idle else D3(p)
    case D3(p) => D4(p, Load(m.next, p))
    case D4(p, n) => D5(p, m.head == p)
    case D5(p, won) => D6(p, won, Load(m.next, p))
    case D6(p, won, n) => D7(p, won, LoadValue(m.value, n))
    case D7(p, won, r) => if won then Idle else D1
  }

  /** The event that takes effect with the step: linking, unlinking, or seeing the queue empty. */
  function Takes(m: Mem, t: nat, pc: Pc): seq<Event> {
    match pc
    case E2(q, v, p) => if Load(m.next, p) == NULL then [Enq(t, v)] else []
    case D2(p) => if Load(m.next, p) == NULL then [Empty(t)] else []
    case D4(p, n) => if m.head == p then [Deq(t, LoadValue(m.value, n))] else []
    case _ => []
  }

  /** What the call returns, if the step returns. */
  function Returns(m: Mem, t: nat, pc: Pc): seq<Event> {
    match pc
    case E6(q, v, p) => [Enq(t, v)]
    case D2(p) => if Load(m.next, p) == NULL then [Empty(t)] else []
    case D7(p, won, r) => if won then [Deq(t, r)] else []
    case _ => []
  }

  function Step(s: State, t: nat, c: Call): State
    requires Enabled(s, t, c)
  {
    var pc := s.pcs[t];
    State(Effect(s.mem, pc, c), s.pcs[t := Goto(s.mem, pc, c)], s.log + Takes(s.mem, t, pc),
          s.reports[t := s.reports[t] + Returns(s.mem, t, pc)])
  }

  /** lf_queue_init: a node before the queue and one node in it, whose value is whatever
      the allocator left there. */
  predicate Init(s: State, junk: int) {
    var m := s.mem;
    && |m.chain| == 2 && m.chain[0] != m.chain[1] && NULL !in m.chain
    && m.next == map[m.chain[0] := m.chain[1], m.chain[1] := NULL]
    && m.value.Keys == m.next.Keys && m.value[m.chain[1]] == junk
    && m.head == m.chain[0] && m.tail == m.chain[1] && m.hi == 0 && m.ti == 1 && m.freed == []
    && (forall t :: 0 <= t < |s.pcs| ==> s.pcs[t] == Idle)
    && s.log == [] && |s.reports| == |s.pcs| && (forall t :: 0 <= t < |s.reports| ==> s.reports[t] == [])
  }

  ghost predicate Next(s: State, s': State) {
    exists t, c :: Enabled(s, t, c) && s' == Step(s, t, c)
  }

  ghost predicate Run(run: seq<State>, junk: int) {
    && |run| > 0 && Init(run[0], junk)
    && forall i :: 0 <= i < |run| - 1 ==> Next(run[i], run[i + 1])
  }

  // ---- The sequential queue -------------------------------------------------------------

  function Apply(q: seq<int>, e: Event): Option<seq<int>> {
    match e
    case Enq(_, v) => Some(q + [v])
    case Deq(_, v) => if q != [] && q[0] == v then Some(q[1..]) else None
    case Empty(_) => if q == [] then Some(q) else None
  }

  /** The queue after the events, if a sequential queue could have produced them. */
  function Replay(q: seq<int>, log: seq<Event>): Option<seq<int>> {
    if log == [] then Some(q)
    else
      var before := Replay(q, log[..|log| - 1]);
      if before.None? then None else Apply(before.value, log[|log| - 1])
  }

  function EventsOf(log: seq<Event>, t: nat): seq<Event> {
    if log == [] then []
    else EventsOf(log[..|log| - 1], t) + if log[|log| - 1].tid == t then [log[|log| - 1]] else []
  }

  function Values(value: map<nat, int>, nodes: seq<nat>): (r: seq<int>)
    ensures |r| == |nodes| && forall i :: 0 <= i < |nodes| ==> r[i] == LoadValue(value, nodes[i])
  {
    if nodes == [] then [] else [LoadValue(value, nodes[0])] + Values(value, nodes[1..])
  }

  /** The abstract queue: the values of the nodes after head. */
  function Contents(m: Mem): seq<int> {
    After(m.value, m.chain, m.hi)
  }

  function After(value: map<nat, int>, chain: seq<nat>, hi: nat): seq<int> {
    if hi < |chain| then Values(value, chain[hi + 1..]) else []
  }

  // ---- The invariant --------------------------------------------------------------------

  /** The chain is a list of distinct allocated nodes ended by NULL. */
  ghost predicate Chain(next: map<nat, nat>, chain: seq<nat>) {
    && |chain| >= 2 && NULL !in next
    && Lists.Distinct(chain)
    && (forall i :: 0 <= i < |chain| ==> chain[i] in next)
    && (forall i, j :: 0 <= i < j < |chain| && j == i + 1 ==> next[chain[i]] == chain[j])
    && next[chain[|chain| - 1]] == NULL
  }

  /** Head is on the chain, and tail is its last node or the one before. */
  ghost predicate Ends(m: Mem) {
    && m.hi < |m.chain| && m.head == m.chain[m.hi]
    && |m.chain| - 2 <= m.ti < |m.chain| && m.ti >= 0 && m.tail == m.chain[m.ti]
  }

  /** Only nodes that head has passed are freed, and each once. */
  ghost predicate FreedOnce(chain: seq<nat>, hi: nat, freed: seq<nat>) {
    && (forall n :: n in freed ==> UpTo(chain, n, hi - 1))
    && Lists.Distinct(freed)
  }

  ghost predicate Shape(m: Mem) {
    Chain(m.next, m.chain) && Ends(m) && FreedOnce(m.chain, m.hi, m.freed) && m.value.Keys == m.next.Keys
  }

  /** p is one of the first k + 1 nodes of the chain. */
  ghost predicate UpTo(chain: seq<nat>, p: nat, k: int) {
    exists i :: 0 <= i <= k && i < |chain| && chain[i] == p
  }

  /** q is allocated, holds v, and has not been linked. */
  ghost predicate Private(m: Mem, q: nat, v: int) {
    q in m.next && q in m.value && m.value[q] == v && m.next[q] == NULL && q !in m.chain
  }

  /** q is linked behind p. */
  ghost predicate Linked(m: Mem, q: nat, p: nat) {
    q in m.chain && Load(m.next, p) == q
  }

  ghost predicate ThreadOk(m: Mem, pc: Pc) {
    match pc
    case Idle => true
    case E1(q, v) => Private(m, q, v)
    case E2(q, v, p) => Private(m, q, v) && UpTo(m.chain, p, m.ti)
    case E3(q, v, p) => UpTo(m.chain, p, m.ti) && Load(m.next, p) != NULL && (Private(m, q, v) || Linked(m, q, p))
    case E4(q, v, p) => Private(m, q, v) && UpTo(m.chain, p, m.ti) && Load(m.next, p) != NULL
    case E5(q, v, p, n) => Private(m, q, v) && UpTo(m.chain, p, m.ti) && Load(m.next, p) == n != NULL
    case E6(q, v, p) => UpTo(m.chain, p, m.ti) && Linked(m, q, p)
    case D1 => true
    case D2(p) => UpTo(m.chain, p, m.hi)
    case D3(p) => UpTo(m.chain, p, m.hi) && Load(m.next, p) != NULL
    case D4(p, n) => UpTo(m.chain, p, m.hi) && Load(m.next, p) == n != NULL
    case D5(p, won) => DequeueOk(m, p, won)
    case D6(p, won, n) => DequeueOk(m, p, won) && Load(m.next, p) == n
    case D7(p, won, r) => DequeueOk(m, p, won) && r == LoadValue(m.value, Load(m.next, p))
  }

  ghost predicate DequeueOk(m: Mem, p: nat, won: bool) {
    && UpTo(m.chain, p, m.hi) && Load(m.next, p) != NULL
    && (won ==> UpTo(m.chain, p, m.hi - 1) && p !in m.freed)
  }

  /** The node an enqueuer brought, from malloc to return. */
  function Mine(pc: Pc): nat {
    if pc.E1? || pc.E2? || pc.E3? || pc.E4? || pc.E5? || pc.E6? then pc.q else NULL
  }

  /** The node a dequeuer has unlinked and not yet freed. */
  function Unlinked(pc: Pc): nat {
    if (pc.D5? || pc.D6? || pc.D7?) && pc.won then pc.p else NULL
  }

  /** The event of a call that has taken effect but not returned. */
  function Pending(m: Mem, t: nat, pc: Pc): seq<Event> {
    if (pc.E3? && pc.q in m.chain) || pc.E6? then [Enq(t, pc.v)]
    else if Unlinked(pc) != NULL then [Deq(t, LoadValue(m.value, Load(m.next, pc.p)))]
    else []
  }

  ghost predicate ThreadsOk(m: Mem, pcs: seq<Pc>) {
    && (forall t :: 0 <= t < |pcs| ==> ThreadOk(m, pcs[t]))
    && (forall t, u :: 0 <= t < |pcs| && 0 <= u < |pcs| && t != u && Mine(pcs[t]) != NULL
                       ==> Mine(pcs[t]) != Mine(pcs[u]))
    && (forall t, u :: 0 <= t < |pcs| && 0 <= u < |pcs| && t != u && Unlinked(pcs[t]) != NULL
                       ==> Unlinked(pcs[t]) != Unlinked(pcs[u]))
  }

  /** Every allocated node is linked or some enqueuer's; every node that head has passed is
      freed or some dequeuer's. */
  ghost predicate Accounted(m: Mem, pcs: seq<Pc>) {
    && (forall n :: n in m.next && n !in m.chain ==> exists t :: 0 <= t < |pcs| && Mine(pcs[t]) == n)
    && (forall n :: UpTo(m.chain, n, m.hi - 1) && n !in m.freed ==> exists t :: 0 <= t < |pcs| && Unlinked(pcs[t]) == n)
  }

  ghost predicate History(s: State, junk: int) {
    && Replay([junk], s.log) == Some(Contents(s.mem))
    && |s.reports| == |s.pcs|
    && forall t :: 0 <= t < |s.pcs| ==> EventsOf(s.log, t) == s.reports[t] + Pending(s.mem, t, s.pcs[t])
  }

  ghost predicate Inv(s: State, junk: int) {
    Shape(s.mem) && ThreadsOk(s.mem, s.pcs) && Accounted(s.mem, s.pcs) && History(s, junk)
  }

  // ---- Memory ---------------------------------------------------------------------------

  /** The chain only grows, head and tail only move forward, links and values never change. */
  ghost predicate Extends(m: Mem, m': Mem) {
    && m.chain <= m'.chain && m.hi <= m'.hi && m.ti <= m'.ti && m.freed <= m'.freed
    && (forall a :: a in m.next ==> a in m'.next && (m.next[a] != NULL ==> m'.next[a] == m.next[a]))
    && (forall a :: a in m.value ==> a in m'.value && m'.value[a] == m.value[a])
  }

  lemma EffectExtends(m: Mem, pc: Pc, c: Call)
    requires Shape(m) && (pc.Idle? && c.Enqueue? ==> c.addr !in m.next)
    ensures Extends(m, Effect(m, pc, c))
  {
  }

  /** A node within the chain has no successor exactly when it is the last. */
  lemma LastOrLinked(m: Mem, p: nat, k: int) returns (i: nat)
    requires Shape(m) && k < |m.chain| && UpTo(m.chain, p, k)
    ensures i <= k && m.chain[i] == p && p in m.next
    ensures m.next[p] == NULL <==> i == |m.chain| - 1
    ensures i < |m.chain| - 1 ==> m.next[p] == m.chain[i + 1] && m.chain[i + 1] in m.value
  {
    i :| 0 <= i <= k && i < |m.chain| && m.chain[i] == p;
    assert i < |m.chain| - 1 ==> m.chain[i + 1] in m.next;
  }

  lemma UpToGrows(chain: seq<nat>, chain': seq<nat>, p: nat, k: int, k': int)
    requires chain <= chain' && k <= k' && UpTo(chain, p, k)
    ensures UpTo(chain', p, k')
  {
    var i :| 0 <= i <= k && i < |chain| && chain[i] == p;
    assert chain'[i] == p;
  }

  lemma EffectShape(m: Mem, pc: Pc, c: Call)
    requires Shape(m) && ThreadOk(m, pc)
    requires pc.Idle? && c.Enqueue? ==> c.addr != NULL && c.addr !in m.next
    ensures Shape(Effect(m, pc, c))
  {
    match pc {
      case Idle =>
        if c.Enqueue? {
          AllocShape(m, c.addr, c.v);
        }
      case E2(q, v, p) =>
        if Load(m.next, p) == NULL {
          LinkShape(m, q, v, p);
        }
      case E5(q, v, p, n) => SwingShape(m, p, n);
      case E6(q, v, p) => SwingShape(m, p, q);
      case D4(p, n) => UnlinkShape(m, p, n);
      case D7(p, won, r) => FreeShape(m, p, won);
      case _ =>
    }
  }

  lemma AllocShape(m: Mem, a: nat, v: int)
    requires Shape(m) && a != NULL && a !in m.next
    ensures Shape(m.(next := m.next[a := NULL], value := m.value[a := v]))
  {
    assert Chain(m.next[a := NULL], m.chain);
  }

  /** A successful link appends to the chain, and tail was on the last node. */
  lemma LinkShape(m: Mem, q: nat, v: int, p: nat)
    requires Shape(m) && Private(m, q, v) && UpTo(m.chain, p, m.ti) && Load(m.next, p) == NULL
    ensures p == m.chain[|m.chain| - 1] && m.ti == |m.chain| - 1
    ensures Shape(m.(next := m.next[p := q], chain := m.chain + [q]))
  {
    var i := LastOrLinked(m, p, m.ti);
    var next', chain' := m.next[p := q], m.chain + [q];
    assert Chain(next', chain') by {
      forall i | 0 <= i < |chain'| - 1 ensures next'[chain'[i]] == chain'[i + 1] {
        assert i < |m.chain| - 1 ==> chain'[i + 1] == m.chain[i + 1];
      }
    }
    forall n | n in m.freed ensures UpTo(chain', n, m.hi - 1) {
      UpToGrows(m.chain, chain', n, m.hi - 1, m.hi - 1);
    }
  }

  /** Tail moves from a node to its successor. */
  lemma SwingShape(m: Mem, p: nat, n: nat)
    requires Shape(m) && UpTo(m.chain, p, m.ti) && Load(m.next, p) == n != NULL
    ensures Shape(SwingTail(m, p, n))
  {
    var i := LastOrLinked(m, p, m.ti);
  }

  /** Head moves from a node to its successor. */
  lemma UnlinkShape(m: Mem, p: nat, n: nat)
    requires Shape(m) && UpTo(m.chain, p, m.hi) && Load(m.next, p) == n != NULL
    ensures m.head == p ==> m.hi + 1 < |m.chain| && n == m.chain[m.hi + 1] && Shape(m.(head := n, hi := m.hi + 1))
  {
    var i := LastOrLinked(m, p, m.hi);
    forall f | f in m.freed ensures UpTo(m.chain, f, m.hi) {
      UpToGrows(m.chain, m.chain, f, m.hi - 1, m.hi);
    }
  }

  lemma FreeShape(m: Mem, p: nat, won: bool)
    requires Shape(m) && DequeueOk(m, p, won)
    ensures won ==> Shape(m.(freed := m.freed + [p]))
  {
    if won {
      assert FreedOnce(m.chain, m.hi, m.freed + [p]);
    }
  }

  // ---- Threads --------------------------------------------------------------------------

  /** What a thread relies on survives steps that respect what it owns. */
  lemma Stable(m: Mem, m': Mem, t: nat, pc: Pc)
    requires Shape(m) && Extends(m, m') && ThreadOk(m, pc)
    requires Mine(pc) != NULL && Mine(pc) !in m.chain ==> Mine(pc) !in m'.chain && Load(m'.next, Mine(pc)) == NULL
    requires Unlinked(pc) != NULL ==> Unlinked(pc) !in m'.freed
    ensures ThreadOk(m', pc) && Pending(m', t, pc) == Pending(m, t, pc)
  {
    match pc {
      case E2(_, _, p) => UpToGrows(m.chain, m'.chain, p, m.ti, m'.ti);
      case E3(_, _, p) => UpToGrows(m.chain, m'.chain, p, m.ti, m'.ti);
      case E4(_, _, p) => UpToGrows(m.chain, m'.chain, p, m.ti, m'.ti);
      case E5(_, _, p, _) => UpToGrows(m.chain, m'.chain, p, m.ti, m'.ti);
      case E6(_, _, p) => UpToGrows(m.chain, m'.chain, p, m.ti, m'.ti);
      case D2(p) => UpToGrows(m.chain, m'.chain, p, m.hi, m'.hi);
      case D3(p) => UpToGrows(m.chain, m'.chain, p, m.hi, m'.hi);
      case D4(p, _) => UpToGrows(m.chain, m'.chain, p, m.hi, m'.hi);
      case D5(p, won) => DequeueStable(m, m', p, won);
      case D6(p, won, _) => DequeueStable(m, m', p, won);
      case D7(p, won, _) => DequeueStable(m, m', p, won);
      case _ =>
    }
  }

  lemma DequeueStable(m: Mem, m': Mem, p: nat, won: bool)
    requires Shape(m) && Extends(m, m') && DequeueOk(m, p, won) && (won ==> p !in m'.freed)
    ensures DequeueOk(m', p, won) && Load(m'.next, p) == Load(m.next, p)
    ensures LoadValue(m'.value, Load(m'.next, p)) == LoadValue(m.value, Load(m.next, p))
  {
    var i := LastOrLinked(m, p, m.hi);
    UpToGrows(m.chain, m'.chain, p, m.hi, m'.hi);
    if won {
      UpToGrows(m.chain, m'.chain, p, m.hi - 1, m'.hi - 1);
    }
  }

  /** The stepping thread's effect respects what any other thread owns. */
  lemma Respects(m: Mem, pc: Pc, c: Call, other: Pc)
    requires Shape(m) && ThreadOk(m, pc) && ThreadOk(m, other)
    requires pc.Idle? && c.Enqueue? ==> c.addr != NULL && c.addr !in m.next
    requires Mine(other) != NULL ==> Mine(other) != Mine(pc)
    requires Unlinked(other) != NULL ==> Unlinked(other) != Unlinked(pc)
    ensures var m' := Effect(m, pc, c);
            && (Mine(other) != NULL && Mine(other) !in m.chain ==>
               Mine(other) !in m'.chain && Load(m'.next, Mine(other)) == NULL)
            && (Unlinked(other) != NULL ==> Unlinked(other) !in m'.freed)
  {
    if pc.E2? && Load(m.next, pc.p) == NULL {
      LinkShape(m, pc.q, pc.v, pc.p);
    }
  }

  /** A thread is in order after its own step. */
  lemma SelfOk(m: Mem, pc: Pc, c: Call)
    requires Shape(m) && ThreadOk(m, pc)
    requires pc.Idle? && c.Enqueue? ==> c.addr != NULL && c.addr !in m.next
    ensures ThreadOk(Effect(m, pc, c), Goto(m, pc, c))
  {
    match pc {
      case Idle =>
        if c.Enqueue? && c.addr in m.chain {
          assert false;
        }
      case E1(q, v) =>
        assert m.chain[m.ti] == m.tail;
      case E2(q, v, p) =>
        SelfLink(m, pc, c);
      case E3(q, v, p) =>
        SeenLink(m, q, v, p);
      case D1 =>
        assert m.chain[m.hi] == m.head;
      case _ =>
    }
  }

  lemma SelfLink(m: Mem, pc: Pc, c: Call)
    requires Shape(m) && pc.E2? && ThreadOk(m, pc)
    ensures ThreadOk(Effect(m, pc, c), E3(pc.q, pc.v, pc.p))
  {
    var i := LastOrLinked(m, pc.p, m.ti);
    if Load(m.next, pc.p) == NULL {
      LinkShape(m, pc.q, pc.v, pc.p);
      UpToGrows(m.chain, m.chain + [pc.q], pc.p, m.ti, m.ti);
      assert (m.chain + [pc.q])[|m.chain|] == pc.q;
    }
  }

  /** q is p's successor exactly if the link succeeded. */
  lemma SeenLink(m: Mem, q: nat, v: int, p: nat)
    requires Shape(m) && ThreadOk(m, E3(q, v, p))
    ensures Load(m.next, p) == q <==> q in m.chain
    ensures Load(m.next, p) != q ==> Private(m, q, v)
  {
    var i := LastOrLinked(m, p, m.ti);
  }

  /** Nodes brought and nodes unlinked stay with one thread. */
  lemma OwnersStep(m: Mem, pc: Pc, c: Call, other: Pc)
    requires Shape(m) && ThreadOk(m, pc) && ThreadOk(m, other)
    requires pc.Idle? && c.Enqueue? ==> c.addr != NULL && c.addr !in m.next
    requires Mine(other) != NULL ==> Mine(other) != Mine(pc)
    requires Unlinked(other) != NULL ==> Unlinked(other) != Unlinked(pc)
    ensures Mine(Goto(m, pc, c)) != NULL ==> Mine(Goto(m, pc, c)) != Mine(other)
    ensures Unlinked(Goto(m, pc, c)) != NULL ==> Unlinked(Goto(m, pc, c)) != Unlinked(other)
  {
    if pc.D4? && Unlinked(other) != NULL {
      var i := LastOrLinked(m, other.p, m.hi - 1);
    }
  }

  lemma ThreadsStep(s: State, t: nat, c: Call)
    requires Shape(s.mem) && ThreadsOk(s.mem, s.pcs) && Enabled(s, t, c)
    ensures ThreadsOk(Step(s, t, c).mem, Step(s, t, c).pcs)
    ensures forall u :: 0 <= u < |s.pcs| && u != t ==>
              Pending(Step(s, t, c).mem, u, s.pcs[u]) == Pending(s.mem, u, s.pcs[u])
  {
    var m, pc, s' := s.mem, s.pcs[t], Step(s, t, c);
    assert ThreadOk(m, pc);
    EffectExtends(m, pc, c);
    SelfOk(m, pc, c);
    forall u | 0 <= u < |s.pcs| && u != t
      ensures ThreadOk(s'.mem, s.pcs[u]) && Pending(s'.mem, u, s.pcs[u]) == Pending(m, u, s.pcs[u])
      ensures Mine(s'.pcs[t]) != NULL ==> Mine(s'.pcs[t]) != Mine(s.pcs[u])
      ensures Unlinked(s'.pcs[t]) != NULL ==> Unlinked(s'.pcs[t]) != Unlinked(s.pcs[u])
    {
      assert ThreadOk(m, s.pcs[u]);
      Respects(m, pc, c, s.pcs[u]);
      Stable(m, s'.mem, u, s.pcs[u]);
      OwnersStep(m, pc, c, s.pcs[u]);
    }
  }

  /** A thread keeps the node it brought until it is linked, and the one it unlinked until it
      is freed. */
  lemma OwnersKept(m: Mem, pc: Pc, c: Call)
    requires Shape(m) && ThreadOk(m, pc)
    ensures Mine(pc) != NULL && Mine(pc) !in Effect(m, pc, c).chain ==> Mine(Goto(m, pc, c)) == Mine(pc)
    ensures Unlinked(pc) != NULL && Unlinked(pc) !in Effect(m, pc, c).freed ==> Unlinked(Goto(m, pc, c)) == Unlinked(pc)
  {
    if pc.E2? {
      assert (m.chain + [pc.q])[|m.chain|] == pc.q;
    }
  }

  lemma NodesAccounted(s: State, t: nat, c: Call, n: nat)
    requires Shape(s.mem) && ThreadsOk(s.mem, s.pcs) && Accounted(s.mem, s.pcs) && Enabled(s, t, c)
    requires n in Step(s, t, c).mem.next && n !in Step(s, t, c).mem.chain
    ensures exists u :: 0 <= u < |s.pcs| && Mine(Step(s, t, c).pcs[u]) == n
  {
    var m, pc, s' := s.mem, s.pcs[t], Step(s, t, c);
    assert ThreadOk(m, pc);
    if n in m.next {
      EffectExtends(m, pc, c);
      assert n !in m.chain;
      var u :| 0 <= u < |s.pcs| && Mine(s.pcs[u]) == n;
      OwnersKept(m, pc, c);
      assert Mine(s'.pcs[u]) == n;
    } else {
      assert Mine(s'.pcs[t]) == n;
    }
  }

  lemma PassedAccounted(s: State, t: nat, c: Call, n: nat)
    requires Shape(s.mem) && ThreadsOk(s.mem, s.pcs) && Accounted(s.mem, s.pcs) && Enabled(s, t, c)
    requires UpTo(Step(s, t, c).mem.chain, n, Step(s, t, c).mem.hi - 1) && n !in Step(s, t, c).mem.freed
    ensures exists u :: 0 <= u < |s.pcs| && Unlinked(Step(s, t, c).pcs[u]) == n
  {
    var m, pc, s' := s.mem, s.pcs[t], Step(s, t, c);
    assert ThreadOk(m, pc);
    if UpTo(m.chain, n, m.hi - 1) {
      EffectExtends(m, pc, c);
      assert n !in m.freed;
      var u :| 0 <= u < |s.pcs| && Unlinked(s.pcs[u]) == n;
      OwnersKept(m, pc, c);
      assert Unlinked(s'.pcs[u]) == n;
    } else {
      NewlyPassed(m, pc, c, n);
      assert Unlinked(s'.pcs[t]) == n;
    }
  }

  lemma AccountedStep(s: State, t: nat, c: Call)
    requires Shape(s.mem) && ThreadsOk(s.mem, s.pcs) && Accounted(s.mem, s.pcs) && Enabled(s, t, c)
    ensures Accounted(Step(s, t, c).mem, Step(s, t, c).pcs)
  {
    var s' := Step(s, t, c);
    forall n | n in s'.mem.next && n !in s'.mem.chain ensures exists u :: 0 <= u < |s'.pcs| && Mine(s'.pcs[u]) == n {
      NodesAccounted(s, t, c, n);
    }
    forall n | UpTo(s'.mem.chain, n, s'.mem.hi - 1) && n !in s'.mem.freed
      ensures exists u :: 0 <= u < |s'.pcs| && Unlinked(s'.pcs[u]) == n
    {
      PassedAccounted(s, t, c, n);
    }
  }

  lemma NewlyPassed(m: Mem, pc: Pc, c: Call, n: nat)
    requires Shape(m) && ThreadOk(m, pc) && !UpTo(m.chain, n, m.hi - 1)
    requires UpTo(Effect(m, pc, c).chain, n, Effect(m, pc, c).hi - 1)
    ensures Unlinked(Goto(m, pc, c)) == n
  {
    var m' := Effect(m, pc, c);
    var i :| 0 <= i <= m'.hi - 1 && i < |m'.chain| && m'.chain[i] == n;
    assert i < |m.chain| && m.chain[i] == n;
    assert i == m.hi;
  }

  // ---- History --------------------------------------------------------------------------

  /** A step without an event leaves the abstract queue alone. */
  lemma QuietStep(m: Mem, t: nat, pc: Pc, c: Call)
    requires Shape(m) && (pc.Idle? && c.Enqueue? ==> c.addr !in m.next)
    requires Takes(m, t, pc) == []
    ensures Contents(Effect(m, pc, c)) == Contents(m)
  {
    if !(pc.Idle? && c.Enqueue?) {
      var m' := Effect(m, pc, c);
      assert m'.chain == m.chain && m'.hi == m.hi && m'.value == m.value;
    }
  }

  /** An event is one that a sequential queue with these contents could produce. */
  lemma EventStep(m: Mem, t: nat, pc: Pc, c: Call, e: Event)
    requires Shape(m) && ThreadOk(m, pc) && Takes(m, t, pc) == [e]
    ensures Apply(Contents(m), e) == Some(Contents(Effect(m, pc, c)))
  {
    match pc {
      case E2(q, v, p) => LinkContents(m, q, v);
      case D2(p) => SeenEmpty(m, p);
      case D4(p, n) =>
        ApplyDeq(t, LoadValue(m.value, n), After(m.value, m.chain, m.hi + 1));
    }
  }

  /** A null link behind a node that was head means the queue is empty right now. */
  lemma SeenEmpty(m: Mem, p: nat)
    requires Shape(m) && UpTo(m.chain, p, m.hi) && Load(m.next, p) == NULL
    ensures Contents(m) == []
  {
    var i := LastOrLinked(m, p, m.hi);
    assert m.chain[m.hi + 1..] == [];
  }

  lemma ApplyDeq(t: nat, v: int, rest: seq<int>)
    ensures Apply([v] + rest, Deq(t, v)) == Some(rest)
  {
    assert ([v] + rest)[1..] == rest;
  }

  lemma LinkContents(m: Mem, q: nat, v: int)
    requires Shape(m) && Private(m, q, v)
    ensures After(m.value, m.chain + [q], m.hi) == Contents(m) + [v]
  {
    assert (m.chain + [q])[m.hi + 1..] == m.chain[m.hi + 1..] + [q];
  }

  /** A step keeps the pending event, or creates it, or reports it, or (an empty queue seen) does
      both at once. */
  ghost predicate Reported(before: seq<Event>, takes: seq<Event>, returns_: seq<Event>, after: seq<Event>) {
    || (takes == returns_ == [] && after == before)
    || (before == returns_ == [] && after == takes)
    || (takes == after == [] && returns_ == before)
    || (before == after == [] && returns_ == takes)
  }

  /** A call reports exactly the event it took effect with. */
  lemma ReportsStep(m: Mem, t: nat, pc: Pc, c: Call)
    requires Shape(m) && ThreadOk(m, pc)
    requires pc.Idle? && c.Enqueue? ==> c.addr != NULL && c.addr !in m.next
    ensures Reported(Pending(m, t, pc), Takes(m, t, pc), Returns(m, t, pc),
                     Pending(Effect(m, pc, c), t, Goto(m, pc, c)))
  {
    if pc.E2? || pc.E3? || pc.E6? {
      ReportsEnqueue(m, t, pc, c);
    }
  }

  lemma ReportsEnqueue(m: Mem, t: nat, pc: Pc, c: Call)
    requires Shape(m) && ThreadOk(m, pc) && (pc.E2? || pc.E3? || pc.E6?)
    ensures Reported(Pending(m, t, pc), Takes(m, t, pc), Returns(m, t, pc),
                     Pending(Effect(m, pc, c), t, Goto(m, pc, c)))
  {
    match pc
    case E2(q, v, p) => ReportsLink(m, t, q, v, p, c);
    case E3(q, v, p) => SeenLink(m, q, v, p);
    case E6(q, v, p) =>
  }

  lemma ReportsLink(m: Mem, t: nat, q: nat, v: int, p: nat, c: Call)
    requires Shape(m) && ThreadOk(m, E2(q, v, p))
    ensures var pc := E2(q, v, p); Takes(m, t, pc) == Pending(Effect(m, pc, c), t, Goto(m, pc, c))
  {
    assert (m.chain + [q])[|m.chain|] == q;
  }

  lemma ProjectionStep(s: State, t: nat, c: Call, u: nat, junk: int)
    requires Shape(s.mem) && ThreadsOk(s.mem, s.pcs) && History(s, junk) && Enabled(s, t, c) && u < |s.pcs|
    requires |Takes(s.mem, t, s.pcs[t])| <= 1
    ensures var s' := Step(s, t, c);
            EventsOf(s'.log, u) == s'.reports[u] + Pending(s'.mem, u, s'.pcs[u])
  {
    EventsStep(s, t, c, u);
    if u == t {
      ProjectionSelf(s, t, c);
    } else {
      ThreadsStep(s, t, c);
    }
  }

  lemma EventsStep(s: State, t: nat, c: Call, u: nat)
    requires Enabled(s, t, c) && |Takes(s.mem, t, s.pcs[t])| <= 1
    ensures EventsOf(Step(s, t, c).log, u) == EventsOf(s.log, u) + if u == t then Takes(s.mem, t, s.pcs[t]) else []
  {
    var takes := Takes(s.mem, t, s.pcs[t]);
    if takes == [] {
      assert s.log + takes == s.log;
    } else {
      assert takes == [takes[0]];
    }
  }

  lemma ProjectionSelf(s: State, t: nat, c: Call)
    requires Shape(s.mem) && Enabled(s, t, c) && ThreadOk(s.mem, s.pcs[t])
    requires EventsOf(s.log, t) == s.reports[t] + Pending(s.mem, t, s.pcs[t])
    ensures var s' := Step(s, t, c);
            EventsOf(s.log, t) + Takes(s.mem, t, s.pcs[t]) == s'.reports[t] + Pending(s'.mem, t, s'.pcs[t])
  {
    var m, pc := s.mem, s.pcs[t];
    ReportsStep(m, t, pc, c);
    Regroup(s.reports[t], Pending(m, t, pc), Takes(m, t, pc), Returns(m, t, pc),
      Pending(Effect(m, pc, c), t, Goto(m, pc, c)));
  }

  lemma Regroup<T>(a: seq<T>, b: seq<T>, c: seq<T>, d: seq<T>, e: seq<T>)
    requires b + c == d + e
    ensures (a + b) + c == (a + d) + e
  {
    assert (a + b) + c == a + (b + c);
    assert (a + d) + e == a + (d + e);
  }

  lemma HistoryStep(s: State, t: nat, c: Call, junk: int)
    requires Shape(s.mem) && ThreadsOk(s.mem, s.pcs) && History(s, junk) && Enabled(s, t, c)
    ensures History(Step(s, t, c), junk)
  {
    var m, pc, s' := s.mem, s.pcs[t], Step(s, t, c);
    assert ThreadOk(m, pc);
    var takes := Takes(m, t, pc);
    if takes == [] {
      QuietStep(m, t, pc, c);
      assert s'.log == s.log;
    } else {
      assert takes == [takes[0]];
      EventStep(m, t, pc, c, takes[0]);
    }
    forall u | 0 <= u < |s.pcs| ensures EventsOf(s'.log, u) == s'.reports[u] + Pending(s'.mem, u, s'.pcs[u]) {
      ProjectionStep(s, t, c, u, junk);
    }
  }

  // ---- Whole runs -----------------------------------------------------------------------

  lemma InvInit(s: State, junk: int)
    requires Init(s, junk)
    ensures Inv(s, junk)
  {
    var m := s.mem;
    assert Contents(m) == [junk];
    forall n | n in m.next ensures n in m.chain {
      assert n == m.chain[0] || n == m.chain[1];
    }
  }

  lemma InvStep(s: State, t: nat, c: Call, junk: int)
    requires Inv(s, junk) && Enabled(s, t, c)
    ensures Inv(Step(s, t, c), junk)
  {
    assert ThreadOk(s.mem, s.pcs[t]);
    EffectShape(s.mem, s.pcs[t], c);
    ThreadsStep(s, t, c);
    AccountedStep(s, t, c);
    HistoryStep(s, t, c, junk);
  }

  lemma {:induction false} RunInv(run: seq<State>, junk: int, i: nat)
    requires Run(run, junk) && i < |run|
    ensures Inv(run[i], junk)
  {
    if i == 0 {
      InvInit(run[0], junk);
    } else {
      RunInv(run, junk, i - 1);
      assert Next(run[i - 1], run[i]);
      var t, c :| Enabled(run[i - 1], t, c) && run[i] == Step(run[i - 1], t, c);
      InvStep(run[i - 1], t, c, junk);
    }
  }

  /** On every run the events, in the order they took effect, are a legal
      history of a sequential queue that starts with the one initial element and ends with
      the present contents; and each thread's finished calls returned exactly its own events,
      in order, with at most one more that is still to be reported. */
  lemma LegalHistory(run: seq<State>, junk: int, i: nat)
    requires Run(run, junk) && i < |run|
    ensures Replay([junk], run[i].log) == Some(Contents(run[i].mem))
    ensures |run[i].reports| == |run[i].pcs|
    ensures forall t :: 0 <= t < |run[i].pcs| ==>
              && run[i].reports[t] <= EventsOf(run[i].log, t)
              && |EventsOf(run[i].log, t)| <= |run[i].reports[t]| + 1
              && (run[i].pcs[t].Idle? ==> EventsOf(run[i].log, t) == run[i].reports[t])
  {
    RunInv(run, junk, i);
  }

  function Enqueued(log: seq<Event>): seq<int> {
    if log == [] then []
    else Enqueued(log[..|log| - 1]) + if log[|log| - 1].Enq? then [log[|log| - 1].v] else []
  }

  function Dequeued(log: seq<Event>): seq<int> {
    if log == [] then []
    else Dequeued(log[..|log| - 1]) + if log[|log| - 1].Deq? then [log[|log| - 1].v] else []
  }

  /** First in, first out, nothing lost or invented: the initial value and the enqueued ones,
      in link order, are the dequeued ones, in unlink order, followed by the contents. */
  lemma Conservation(run: seq<State>, junk: int, i: nat)
    requires Run(run, junk) && i < |run|
    ensures [junk] + Enqueued(run[i].log) == Dequeued(run[i].log) + Contents(run[i].mem)
  {
    RunInv(run, junk, i);
    ReplayConserves([junk], run[i].log, Contents(run[i].mem));
  }

  lemma {:induction false} ReplayConserves(q: seq<int>, log: seq<Event>, r: seq<int>)
    requires Replay(q, log) == Some(r)
    ensures q + Enqueued(log) == Dequeued(log) + r
  {
    if log == [] {
    } else {
      var before := log[..|log| - 1];
      var mid := Replay(q, before).value;
      ReplayConserves(q, before, mid);
      var ins, outs := Enqueued(before), Dequeued(before);
      match log[|log| - 1] {
        case Enq(_, v) =>
          assert q + (ins + [v]) == (q + ins) + [v] == (outs + mid) + [v] == outs + (mid + [v]);
        case Deq(_, v) =>
          assert mid == [v] + r;
          assert outs + ([v] + r) == (outs + [v]) + r;
        case Empty(_) =>
          assert ins + [] == ins && outs + [] == outs;
      }
    }
  }

  /** Nothing is undone: memory extends, the log grows, reports are only added. */
  ghost predicate Grows(s: State, s': State) {
    && Extends(s.mem, s'.mem) && s.log <= s'.log && |s'.pcs| == |s.pcs|
    && |s'.reports| == |s.reports| && forall u :: 0 <= u < |s.reports| ==> s.reports[u] <= s'.reports[u]
  }

  lemma StepGrows(s: State, t: nat, c: Call)
    requires Shape(s.mem) && Enabled(s, t, c)
    ensures Grows(s, Step(s, t, c))
  {
    EffectExtends(s.mem, s.pcs[t], c);
  }

  lemma GrowsTransitive(a: State, b: State, c: State)
    requires Grows(a, b) && Grows(b, c)
    ensures Grows(a, c)
  {
    assert forall u :: 0 <= u < |a.reports| ==> a.reports[u] <= b.reports[u] <= c.reports[u];
  }

  lemma RunShape(run: seq<State>, junk: int, i: nat)
    requires Run(run, junk) && i < |run|
    ensures Shape(run[i].mem)
  {
    RunInv(run, junk, i);
  }

  /** Along a run the chain only grows, head and tail only advance, no link or value changes. */
  lemma {:induction false} RunGrows(run: seq<State>, junk: int, i: nat, j: nat)
    requires Run(run, junk) && i <= j < |run|
    ensures Grows(run[i], run[j])
    decreases j - i
  {
    if i == j {
    } else {
      RunGrows(run, junk, i, j - 1);
      NextGrows(run, junk, j - 1);
      GrowsTransitive(run[i], run[j - 1], run[j]);
    }
  }

  lemma NextGrows(run: seq<State>, junk: int, j: nat)
    requires Run(run, junk) && j + 1 < |run|
    ensures Grows(run[j], run[j + 1])
  {
    RunShape(run, junk, j);
    assert Next(run[j], run[j + 1]);
    var t, c :| Enabled(run[j], t, c) && run[j + 1] == Step(run[j], t, c);
    StepGrows(run[j], t, c);
  }

  /** Real-time order: what had been reported at some moment took effect before it, and what a
      thread that was idle then reports later took effect after it. */
  lemma RealTimeOrder(run: seq<State>, junk: int, i: nat, j: nat, t: nat, u: nat)
    requires Run(run, junk) && i <= j < |run| && t < |run[i].pcs| && u < |run[i].pcs| && run[i].pcs[u].Idle?
    ensures t < |run[i].reports| && u < |run[i].reports| && u < |run[j].reports|
    ensures run[i].log <= run[j].log && run[i].reports[t] <= EventsOf(run[i].log, t)
    ensures run[i].reports[u] <= run[j].reports[u]
    ensures run[j].reports[u][|run[i].reports[u]|..] <= EventsOf(run[j].log[|run[i].log|..], u)
  {
    LegalHistory(run, junk, i);
    LegalHistory(run, junk, j);
    RunGrows(run, junk, i, j);
    var old_, new_ := run[i].log, run[j].log[|run[i].log|..];
    assert run[j].log == old_ + new_;
    EventsConcat(old_, new_, u);
  }

  lemma {:induction false} EventsConcat(a: seq<Event>, b: seq<Event>, t: nat)
    ensures EventsOf(a + b, t) == EventsOf(a, t) + EventsOf(b, t)
  {
    if b == [] {
      assert a + b == a;
    } else {
      var b' := b[..|b| - 1];
      assert (a + b)[..|a + b| - 1] == a + b';
      EventsConcat(a, b', t);
    }
  }

  /** No step of any thread reads through NULL or an address malloc never returned. */
  lemma NoWildReads(run: seq<State>, junk: int, i: nat, t: nat)
    requires Run(run, junk) && i < |run| && t < |run[i].pcs|
    ensures var m, pc := run[i].mem, run[i].pcs[t];
            && (pc.E2? || pc.E3? || pc.E4? || pc.D2? || pc.D3? || pc.D5? ==> pc.p in m.next && pc.p != NULL)
            && (pc.D6? ==> pc.n in m.value && pc.n != NULL)
            && (pc.E5? || pc.D4? ==> pc.n in m.next && pc.n != NULL)
  {
    RunInv(run, junk, i);
    var m, pc := run[i].mem, run[i].pcs[t];
    assert ThreadOk(m, pc);
    if pc.E2? || pc.E3? || pc.E4? || pc.E5? {
      var k := LastOrLinked(m, pc.p, m.ti);
    } else if pc.D2? || pc.D3? || pc.D4? || pc.D5? || pc.D6? {
      var k := LastOrLinked(m, pc.p, m.hi);
    }
  }

  // ---- Teardown -------------------------------------------------------------------------

  /** lf_queue_deinit: frees the nodes behind head in order, then head. */
  method Deinit(next0: map<nat, nat>, head: nat, ghost chain: seq<nat>, ghost hi: nat) returns (freed: seq<nat>)
    requires Chain(next0, chain) && hi < |chain| && head == chain[hi]
    ensures freed == chain[hi + 1..] + [head]
  {
    freed := [];
    var next := next0;
    ghost var i := hi + 1;
    while next[head] != NULL
      invariant hi < i <= |chain| && next.Keys == next0.Keys
      invariant forall a :: a in next0 && a != head ==> next[a] == next0[a]
      invariant next[head] == if i < |chain| then chain[i] else NULL
      invariant freed == chain[hi + 1..i]
      decreases |chain| - i
    {
      ghost var j := i + 1;
      assert chain[i] != head && (j < |chain| ==> next0[chain[i]] == chain[j]);
      var tmp := next[next[head]];
      freed := freed + [next[head]];
      next := next[head := tmp];
      i := j;
    }
    freed := freed + [head];
  }

  /** Once every call has returned, the dequeues have freed exactly the nodes head passed, the
      chain holds every node ever allocated, and teardown frees exactly the rest: every node
      is freed exactly once. */
  lemma AllFreedOnce(run: seq<State>, junk: int, i: nat, rest: seq<nat>)
    requires Run(run, junk) && i < |run|
    requires forall t :: 0 <= t < |run[i].pcs| ==> run[i].pcs[t].Idle?
    requires run[i].mem.hi < |run[i].mem.chain|
    requires rest == run[i].mem.chain[run[i].mem.hi + 1..] + [run[i].mem.head]
    ensures forall n :: n in run[i].mem.next <==> n in run[i].mem.freed || n in rest
    ensures Lists.Distinct(run[i].mem.freed + rest)
  {
    RunInv(run, junk, i);
    AllFreed(run[i].mem, run[i].pcs, rest);
  }

  lemma AllFreed(m: Mem, pcs: seq<Pc>, rest: seq<nat>)
    requires Shape(m) && Accounted(m, pcs) && forall t :: 0 <= t < |pcs| ==> pcs[t].Idle?
    requires rest == m.chain[m.hi + 1..] + [m.head]
    ensures forall n :: n in m.next <==> n in m.freed || n in rest
    ensures Lists.Distinct(m.freed + rest)
  {
    RestNodes(m, rest);
  }

  /** The nodes from head on are allocated, distinct, and none of them has been freed. */
  lemma RestNodes(m: Mem, rest: seq<nat>)
    requires Shape(m) && rest == m.chain[m.hi + 1..] + [m.head]
    ensures forall k :: m.hi <= k < |m.chain| ==> m.chain[k] in rest
    ensures forall n :: n in m.freed ==> n in m.next
    ensures forall n :: n in rest ==> n in m.next
    ensures Lists.Distinct(m.freed + rest)
  {
    forall k | m.hi <= k < |m.chain| ensures m.chain[k] in rest {
      assert m.chain[k] == rest[if k == m.hi then |rest| - 1 else k - m.hi - 1];
    }
    forall n | n in m.freed ensures n in m.next && n !in rest {
      var k := LastOrLinked(m, n, m.hi - 1);
      RestDistinct(m, rest, k);
    }
    forall x, y | 0 <= x < y < |rest| ensures rest[x] != rest[y] {
      assert rest[x] == m.chain[m.hi + 1 + x];
      assert rest[y] == m.chain[if y == |rest| - 1 then m.hi else m.hi + 1 + y];
    }
    Lists.DistinctConcat(m.freed, rest);
  }

  lemma RestDistinct(m: Mem, rest: seq<nat>, k: nat)
    requires Shape(m) && k < m.hi && rest == m.chain[m.hi + 1..] + [m.head]
    ensures m.chain[k] !in rest
  {
    forall x | 0 <= x < |rest| ensures rest[x] != m.chain[k] {
      assert rest[x] == m.chain[if x == |rest| - 1 then m.hi else m.hi + 1 + x];
    }
  }
}
