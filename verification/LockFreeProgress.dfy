/** Why the queue of sync_tools/locking.c deserves its name: an attempt of one thread fails only if
    an operation of another has made progress meanwhile. */
module LockFreeProgress {
  import opened LockFreeQueue

  /** p is a node of the chain from place k on. */
  ghost predicate From(chain: seq<nat>, p: nat, k: nat) {
    exists i :: k <= i < |chain| && chain[i] == p
  }

  /** The attempt under way read tail when it stood at place `base`, or head likewise; a lost
      attempt to move head has been overtaken. */
  ghost predicate Since(base: nat, m: Mem, pc: Pc) {
    match pc
    case E2(_, _, p) => From(m.chain, p, base)
    case E3(_, _, p) => From(m.chain, p, base)
    case E4(_, _, p) => From(m.chain, p, base)
    case E5(_, _, p, _) => From(m.chain, p, base)
    case D2(p) => From(m.chain, p, base)
    case D3(p) => From(m.chain, p, base)
    case D4(p, _) => From(m.chain, p, base)
    case D5(_, won) => won || m.hi > base
    case D6(_, won, _) => won || m.hi > base
    case D7(_, won, _) => won || m.hi > base
    case _ => false
  }

  lemma FromGrows(chain: seq<nat>, chain': seq<nat>, p: nat, k: nat)
    requires chain <= chain' && From(chain, p, k)
    ensures From(chain', p, k)
  {
    var i :| k <= i < |chain| && chain[i] == p;
    assert chain'[i] == p;
  }

  /** The thread's own step goes on with the attempt, or ends it: by success, or with tail or head
      beyond the place where the attempt found it. */
  lemma SinceSelf(base: nat, m: Mem, pc: Pc, c: Call)
    requires Shape(m) && ThreadOk(m, pc) && Since(base, m, pc)
    ensures var m', pc' := Effect(m, pc, c), Goto(m, pc, c);
            || Since(base, m', pc') || pc'.E6? || pc'.Idle?
            || (pc'.E1? && m'.ti > base) || (pc'.D1? && m'.hi > base)
  {
    match pc {
      case E2(q, _, p) => FromGrows(m.chain, Effect(m, pc, c).chain, p, base);
      case E5(q, v, p, n) =>
        if m.tail == p {
          TailThere(m, p, base);
        }
      case _ =>
    }
  }

  lemma TailThere(m: Mem, p: nat, base: nat)
    requires Shape(m) && From(m.chain, p, base) && m.tail == p
    ensures m.ti >= base
  {
    var i :| base <= i < |m.chain| && m.chain[i] == p;
    assert i == m.ti;
  }

  predicate Trying(pc: Pc) {
    pc.E2? || pc.E3? || pc.E4? || pc.E5? || pc.D2? || pc.D3? || pc.D4? || pc.D5? || pc.D6? || pc.D7?
  }

  /** Thread t starts an attempt with the step from i and is back at the start at j, not having
      returned or linked its node in between. */
  ghost predicate FailedAttempt(run: seq<State>, junk: int, i: nat, j: nat, t: nat) {
    && Run(run, junk) && i + 1 < j < |run|
    && (forall m :: i <= m <= j ==> t < |run[m].pcs|)
    && (run[i].pcs[t].E1? || run[i].pcs[t].D1?) && (run[j].pcs[t].E1? || run[j].pcs[t].D1?)
    && forall m :: i < m < j ==> Trying(run[m].pcs[t])
  }

  /** The place that the attempt starts from. */
  function Place(s: State, t: nat): nat
    requires t < |s.pcs|
  {
    if s.pcs[t].E1? then s.mem.ti else s.mem.hi
  }

  lemma RunThread(run: seq<State>, junk: int, m: nat, t: nat)
    requires Run(run, junk) && m < |run| && t < |run[m].pcs|
    ensures Shape(run[m].mem) && ThreadOk(run[m].mem, run[m].pcs[t])
  {
    RunInv(run, junk, m);
  }

  /** What a step of thread u means to thread t. */
  ghost predicate SeenBy(s: State, s': State, t: nat, mine: bool, c: Call)
    requires t < |s.pcs| && t < |s'.pcs|
  {
    && Extends(s.mem, s'.mem)
    && if mine then s'.mem == Effect(s.mem, s.pcs[t], c) && s'.pcs[t] == Goto(s.mem, s.pcs[t], c)
       else s'.pcs[t] == s.pcs[t]
  }

  lemma StepOf(run: seq<State>, junk: int, m: nat, t: nat) returns (mine: bool, c: Call)
    requires Run(run, junk) && m + 1 < |run| && t < |run[m].pcs|
    ensures t < |run[m + 1].pcs| && SeenBy(run[m], run[m + 1], t, mine, c)
  {
    RunShape(run, junk, m);
    assert Next(run[m], run[m + 1]);
    var u: nat, call: Call :| Enabled(run[m], u, call) && run[m + 1] == Step(run[m], u, call);
    EffectExtends(run[m].mem, run[m].pcs[u], call);
    mine, c := u == t, call;
  }

  /** The step that starts an attempt. */
  lemma SinceStart(s: State, s': State, t: nat, mine: bool, c: Call)
    requires t < |s.pcs| && t < |s'.pcs| && Shape(s.mem) && SeenBy(s, s', t, mine, c)
    requires (s.pcs[t].E1? || s.pcs[t].D1?) && Trying(s'.pcs[t])
    ensures Since(Place(s, t), s'.mem, s'.pcs[t])
  {
    assert s.mem.chain[s.mem.ti] == s.mem.tail && s.mem.chain[s.mem.hi] == s.mem.head;
  }

  lemma SinceStep(base: nat, s: State, s': State, t: nat, mine: bool, c: Call)
    requires t < |s.pcs| && t < |s'.pcs| && Shape(s.mem) && ThreadOk(s.mem, s.pcs[t]) && SeenBy(s, s', t, mine, c)
    requires Since(base, s.mem, s.pcs[t]) && Trying(s'.pcs[t])
    ensures Since(base, s'.mem, s'.pcs[t])
  {
    if mine {
      SinceSelf(base, s.mem, s.pcs[t], c);
    }
  }

  lemma {:induction false} AttemptSince(run: seq<State>, junk: int, i: nat, j: nat, t: nat, m: nat)
    requires FailedAttempt(run, junk, i, j, t) && i < m < j
    ensures Since(Place(run[i], t), run[m].mem, run[m].pcs[t])
  {
    assert t < |run[m - 1].pcs| && Trying(run[m].pcs[t]);
    var mine, c := StepOf(run, junk, m - 1, t);
    RunThread(run, junk, m - 1, t);
    if m == i + 1 {
      SinceStart(run[i], run[m], t, mine, c);
    } else {
      AttemptSince(run, junk, i, j, t, m - 1);
      SinceStep(Place(run[i], t), run[m - 1], run[m], t, mine, c);
    }
  }

  /** Whenever an attempt fails, tail (for an enqueue) or head (for a dequeue) has moved on while
      it was under way. */
  lemma FailureMeansProgress(run: seq<State>, junk: int, i: nat, j: nat, t: nat)
    requires FailedAttempt(run, junk, i, j, t)
    ensures run[j].pcs[t].E1? ==> run[j].mem.ti > Place(run[i], t)
    ensures run[j].pcs[t].D1? ==> run[j].mem.hi > Place(run[i], t)
  {
    AttemptSince(run, junk, i, j, t, j - 1);
    assert t < |run[j - 1].pcs| && Trying(run[j - 1].pcs[t]);
    var mine, c := StepOf(run, junk, j - 1, t);
    RunThread(run, junk, j - 1, t);
    SinceSelf(Place(run[i], t), run[j - 1].mem, run[j - 1].pcs[t], c);
  }

  lemma LogGrows(log: seq<Event>, takes: seq<Event>)
    requires |takes| <= 1
    ensures |Dequeued(log + takes)| == |Dequeued(log)| + if takes != [] && takes[0].Deq? then 1 else 0
    ensures |Enqueued(log + takes)| == |Enqueued(log)| + if takes != [] && takes[0].Enq? then 1 else 0
  {
    if takes == [] {
      assert log + takes == log;
    } else {
      assert (log + takes)[..|log + takes| - 1] == log;
    }
  }

  lemma CountersStep(s: State, t: nat, c: Call, s': State)
    requires Enabled(s, t, c) && s' == Step(s, t, c)
    requires s.mem.hi == |Dequeued(s.log)| && |s.mem.chain| == 2 + |Enqueued(s.log)|
    ensures s'.mem.hi == |Dequeued(s'.log)| && |s'.mem.chain| == 2 + |Enqueued(s'.log)|
  {
    LogGrows(s.log, Takes(s.mem, t, s.pcs[t]));
  }

  /** Head has passed one node per dequeue, and the chain has one more node per enqueue. */
  lemma {:induction false} Counters(run: seq<State>, junk: int, i: nat)
    requires Run(run, junk) && i < |run|
    ensures run[i].mem.hi == |Dequeued(run[i].log)| && |run[i].mem.chain| == 2 + |Enqueued(run[i].log)|
  {
    if i == 0 {
    } else {
      Counters(run, junk, i - 1);
      var s := run[i - 1];
      assert Next(s, run[i]);
      var t: nat, c: Call :| Enabled(s, t, c) && run[i] == Step(s, t, c);
      CountersStep(s, t, c, run[i]);
    }
  }

  // ---- Whose progress it was ------------------------------------------------------------

  /** A thread at the start of an attempt has reported all its events. */
  lemma EventsAt(run: seq<State>, junk: int, i: nat, t: nat)
    requires Run(run, junk) && i < |run| && t < |run[i].pcs| && (run[i].pcs[t].E1? || run[i].pcs[t].D1?)
    ensures t < |run[i].reports| && EventsOf(run[i].log, t) == run[i].reports[t]
  {
    RunInv(run, junk, i);
    assert Pending(run[i].mem, t, run[i].pcs[t]) == [];
  }

  lemma {:induction false} AttemptReports(run: seq<State>, junk: int, i: nat, j: nat, t: nat, m: nat)
    requires FailedAttempt(run, junk, i, j, t) && i <= m <= j
    ensures t < |run[i].reports| && t < |run[m].reports| && run[m].reports[t] == run[i].reports[t]
    decreases m - i
  {
    EventsAt(run, junk, i, t);
    if m == i {
    } else {
      AttemptReports(run, junk, i, j, t, m - 1);
      assert t < |run[m - 1].pcs| && t < |run[m].pcs| && !run[m].pcs[t].Idle?;
      assert Next(run[m - 1], run[m]);
      var u: nat, c: Call :| Enabled(run[m - 1], u, c) && run[m] == Step(run[m - 1], u, c);
    }
  }

  /** A failed attempt leaves no event of its thread in the log. */
  lemma NoEventOfMine(run: seq<State>, junk: int, i: nat, j: nat, t: nat)
    requires FailedAttempt(run, junk, i, j, t)
    ensures run[i].log <= run[j].log && EventsOf(run[j].log[|run[i].log|..], t) == []
  {
    AttemptReports(run, junk, i, j, t, j);
    EventsAt(run, junk, i, t);
    EventsAt(run, junk, j, t);
    RunGrows(run, junk, i, j);
    assert t < |run[i].pcs| && t < |run[j].pcs|;
    var since := run[j].log[|run[i].log|..];
    assert run[j].log == run[i].log + since;
    EventsConcat(run[i].log, since, t);
  }

  lemma {:induction false} EventsAll(log: seq<Event>, t: nat, e: nat)
    requires EventsOf(log, t) == [] && e < |log|
    ensures log[e].tid != t
  {
    if e == |log| - 1 {
    } else {
      EventsAll(log[..|log| - 1], t, e);
    }
  }

  /** If the log has more dequeues, one of its new events is a dequeue; likewise enqueues. */
  lemma {:induction false} NewEvent(log: seq<Event>, since: seq<Event>, deq: bool) returns (e: nat)
    requires if deq then |Dequeued(log + since)| > |Dequeued(log)| else |Enqueued(log + since)| > |Enqueued(log)|
    ensures e < |since| && if deq then since[e].Deq? else since[e].Enq?
    decreases |since|
  {
    var all := log + since;
    assert since == [] ==> all == log;
    e := |since| - 1;
    if !(if deq then since[e].Deq? else since[e].Enq?) {
      assert all[..|all| - 1] == log + since[..e];
      e := NewEvent(log, since[..e], deq);
    }
  }

  /** Between the two states a dequeue, or an enqueue, of a thread other than t took effect. */
  ghost predicate OthersTook(s: State, s': State, t: nat, deq: bool) {
    && s.log <= s'.log
    && exists e :: |s.log| <= e < |s'.log| && s'.log[e].tid != t && if deq then s'.log[e].Deq? else s'.log[e].Enq?
  }

  lemma TookByOthers(s: State, s': State, t: nat, deq: bool)
    requires s.log <= s'.log && EventsOf(s'.log[|s.log|..], t) == []
    requires if deq then |Dequeued(s'.log)| > |Dequeued(s.log)| else |Enqueued(s'.log)| > |Enqueued(s.log)|
    ensures OthersTook(s, s', t, deq)
  {
    var since := s'.log[|s.log|..];
    assert s'.log == s.log + since;
    var e := NewEvent(s.log, since, deq);
    EventsAll(since, t, e);
    assert s'.log[|s.log| + e] == since[e];
  }

  /** A dequeue retries only if a dequeue of another thread took effect since it read head. */
  lemma DequeueRetry(run: seq<State>, junk: int, i: nat, j: nat, t: nat)
    requires FailedAttempt(run, junk, i, j, t) && run[i].pcs[t].D1? && run[j].pcs[t].D1?
    ensures OthersTook(run[i], run[j], t, true)
  {
    FailureMeansProgress(run, junk, i, j, t);
    Counters(run, junk, i);
    Counters(run, junk, j);
    NoEventOfMine(run, junk, i, j, t);
    TookByOthers(run[i], run[j], t, true);
  }

  /** An enqueue retries twice only if an enqueue of another thread took effect since its first
      attempt began: the first failure may be due to a tail that lags, and repairs it. */
  lemma EnqueueRetry(run: seq<State>, junk: int, i: nat, j: nat, l: nat, t: nat)
    requires FailedAttempt(run, junk, i, j, t) && FailedAttempt(run, junk, j, l, t)
    requires run[i].pcs[t].E1? && run[j].pcs[t].E1? && run[l].pcs[t].E1?
    ensures OthersTook(run[i], run[l], t, false)
  {
    FailureMeansProgress(run, junk, i, j, t);
    FailureMeansProgress(run, junk, j, l, t);
    RunShape(run, junk, i);
    RunShape(run, junk, l);
    Counters(run, junk, i);
    Counters(run, junk, l);
    NoEventOfMine(run, junk, i, j, t);
    NoEventOfMine(run, junk, j, l, t);
    NoneOfBoth(run[i].log, run[j].log, run[l].log, t);
    TookByOthers(run[i], run[l], t, false);
  }

  lemma NoneOfBoth(a: seq<Event>, b: seq<Event>, c: seq<Event>, t: nat)
    requires a <= b <= c && EventsOf(b[|a|..], t) == [] && EventsOf(c[|b|..], t) == []
    ensures EventsOf(c[|a|..], t) == []
  {
    assert c[|a|..] == b[|a|..] + c[|b|..];
    EventsConcat(b[|a|..], c[|b|..], t);
  }
}
