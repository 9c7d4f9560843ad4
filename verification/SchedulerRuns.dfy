/** What holds over every run of the thread library: the lists partition the live threads, no
    assertion of the code fails, a join returns its target's exit value, and an idle master
    means that every thread has finished unless some join closed a ring. */
module SchedulerRuns {
  import opened Lists
  import opened SchedulerModel

  /** The states and calls of a run from pet_thread_init. */
  ghost predicate Run(run: seq<Sched>, calls: seq<Call>) {
    && |run| == |calls| + 1 && run[0] == Initial()
    && forall i :: 0 <= i < |calls| ==> Steps(run, calls, i)
  }

  ghost predicate Steps(run: seq<Sched>, calls: seq<Call>, i: nat)
    requires i < |calls| && |run| == |calls| + 1
  {
    Allowed(run[i], calls[i]) && run[i + 1] == Next(run[i], calls[i])
  }

  lemma {:induction false} RunInv(run: seq<Sched>, calls: seq<Call>, i: nat)
    requires Run(run, calls) && i < |run|
    ensures Inv(run[i])
  {
    if i == 0 {
      assert BlockedSet(run[0].state) == {};
    } else {
      RunInv(run, calls, i - 1);
      assert Steps(run, calls, i - 1);
      NextCore(run[i - 1], calls[i - 1], run[i]);
    }
  }

  lemma RunChanges(run: seq<Sched>, calls: seq<Call>, i: nat)
    requires Run(run, calls) && i < |calls|
    ensures Allowed(run[i], calls[i]) && Changes(run[i], calls[i], run[i + 1])
  {
    RunInv(run, calls, i);
    assert Steps(run, calls, i);
    NextCore(run[i], calls[i], run[i + 1]);
  }

  // ---- Partition ------------------------------------------------------------------------

  /** Each live thread but the master is exactly one of running, ready and blocked, is on the
      lists once, and its state field says which it is. */
  lemma Partition(run: seq<Sched>, calls: seq<Call>, i: nat, t: Tid)
    requires Run(run, calls) && i < |run| && t in run[i].state && t != MASTER
    ensures var s := run[i];
            && multiset(s.ready)[t] + multiset(s.blocked)[t] + (if t == s.running then 1 else 0) == 1
            && (t in s.ready <==> s.state[t] == Ready)
            && (t in s.blocked <==> s.state[t] == Blocked)
            && (t == s.running <==> s.state[t] == Running)
  {
    RunInv(run, calls, i);
    DistinctCount(run[i].ready, t);
    DistinctCount(run[i].blocked, t);
  }

  /** Each blocked thread is on the waiter list of one live thread, once, and on no other. */
  lemma OneWaiterList(run: seq<Sched>, calls: seq<Call>, i: nat, w: Tid, u: Tid)
    requires Run(run, calls) && i < |run| && w in run[i].blocked && u in run[i].state
    ensures var s := run[i];
            && w in s.joining && s.joining[w] in s.state && u in s.waiters
            && multiset(s.waiters[u])[w] == if u == s.joining[w] then 1 else 0
  {
    RunInv(run, calls, i);
    assert w in BlockedSet(run[i].state);
    DistinctCount(run[i].waiters[u], w);
  }

  ghost predicate ExitedBefore(run: seq<Sched>, calls: seq<Call>, i: nat, t: Tid)
    requires i <= |calls| && |run| == |calls| + 1
  {
    exists e :: 0 <= e < i && calls[e].ExitWith? && run[e].running == t
  }

  /** A created thread's record is freed once it has exited, and only then; it is freed once,
      and never while the thread's own stack is in use. */
  lemma FreedIffExited(run: seq<Sched>, calls: seq<Call>, i: nat, t: Tid)
    requires Run(run, calls) && i < |run|
    ensures t in run[i].freed <==> ExitedBefore(run, calls, i, t)
    ensures multiset(run[i].freed)[t] <= 1 && run[i].running !in run[i].freed
    ensures 0 < t < run[i].count ==> (t in run[i].freed <==> t !in run[i].state)
  {
    RunInv(run, calls, i);
    DistinctCount(run[i].freed, t);
    FreedOnExit(run, calls, i, t);
  }

  lemma {:induction false} FreedOnExit(run: seq<Sched>, calls: seq<Call>, i: nat, t: Tid)
    requires Run(run, calls) && i < |run|
    ensures t in run[i].freed <==> ExitedBefore(run, calls, i, t)
  {
    if i == 0 {
    } else {
      FreedOnExit(run, calls, i - 1, t);
      RunChanges(run, calls, i - 1);
      if calls[i - 1].ExitWith? && run[i - 1].running == t {
        assert ExitedBefore(run, calls, i, t);
      }
    }
  }

  // ---- The code's assertions ------------------------------------------------------------

  /** What __thread_invoker asserts on entry. */
  ghost predicate InvokeAsserts(s: Sched, tgt: Tid) {
    tgt in s.state && s.state[tgt] == Ready && s.running in s.state && s.state[s.running] != Ready
  }

  ghost predicate ScheduleAsserts(s: Sched) {
    if s.ready != [] then InvokeAsserts(s, s.ready[0]) else s.running != MASTER ==> InvokeAsserts(s, MASTER)
  }

  /** Each waiter that __quarantine's loop wakes is blocked at that moment. */
  ghost predicate WakeAsserts(s: Sched, v: int)
    requires s.running in s.waiters
    decreases |s.waiters[s.running]|
  {
    s.waiters[s.running] != [] ==>
      && s.waiters[s.running][0] in s.state && s.state[s.waiters[s.running][0]] == Blocked
      && WakeAsserts(Wake(s, v), v)
  }

  /** The assertions a call passes on its way. */
  ghost predicate Asserts(s: Sched, c: Call)
    requires s.running in s.state && s.running in s.waiters
  {
    match c
    case Make => true
    case Pass => ScheduleAsserts(s)
    case Yield(id) => if id in s.state && s.state[id] == Ready then InvokeAsserts(s, id) else ScheduleAsserts(s)
    case JoinOn(id) => id in s.waiters ==> s.state[s.running] == Running && ScheduleAsserts(Block(s, id))
    case ExitWith(v) =>
      var s0 := s.(results := s.results[s.running := v]);
      && WakeAsserts(s0, v) && s.state[s.running] == Running && s.running != MASTER
      && ScheduleAsserts(WakeAll(s0, v).(state := WakeAll(s0, v).state[s.running := Stopped]))
    case Resume => true
  }

  lemma ScheduleSafe(s: Sched, st: RunState, leaving: bool)
    requires Core(s, st, leaving) && st != Ready
    ensures ScheduleAsserts(s)
  {
    if s.ready != [] {
      assert s.ready[0] in s.ready;
    }
  }

  lemma {:induction false} WakeSafe(s: Sched, v: int)
    requires Core(s, Running, true) && s.results[s.running] == v
    ensures WakeAsserts(s, v)
    decreases |s.waiters[s.running]|
  {
    if s.waiters[s.running] == [] {
    } else {
      FirstAsleep(BlockedSet(s.state), s.waiters, s.receiver, s.joining, s.results, s.running);
      WakeCore(s, v);
      WakeSafe(Wake(s, v), v);
    }
  }

  lemma ExitSafe(s: Sched, v: int)
    requires CanExit(s)
    ensures Asserts(s, ExitWith(v))
  {
    var s0 := s.(results := s.results[s.running := v]);
    LeaveCore(s, v);
    WakeSafe(s0, v);
    WakeAllCore(s0, v);
    StopCore(WakeAll(s0, v));
    ScheduleSafe(WakeAll(s0, v).(state := WakeAll(s0, v).state[s.running := Stopped]), Stopped, true);
  }

  lemma JoinSafe(s: Sched, id: Tid)
    requires CanBlock(s, id)
    ensures ScheduleAsserts(Block(s, id))
  {
    BlockCore(s, id, Block(s, id));
    ScheduleSafe(Block(s, id), Blocked, false);
  }

  lemma CallSafe(s: Sched, c: Call)
    requires Inv(s) && Allowed(s, c)
    ensures Asserts(s, c)
  {
    match c
    case Make =>
    case Pass => ScheduleSafe(s, Running, false);
    case Yield(id) => ScheduleSafe(s, Running, false);
    case JoinOn(id) => if id in s.waiters { JoinSafe(s, id); }
    case ExitWith(v) => ExitSafe(s, v);
    case Resume =>
  }

  /** No assertion of the code fails on any run. */
  lemma AssertsHold(run: seq<Sched>, calls: seq<Call>, i: nat)
    requires Run(run, calls) && i < |calls|
    ensures run[i].running in run[i].state && run[i].running in run[i].waiters && Asserts(run[i], calls[i])
  {
    RunInv(run, calls, i);
    assert Steps(run, calls, i);
    CallSafe(run[i], calls[i]);
  }

  // ---- Join delivery --------------------------------------------------------------------

  /** The value recorded for a thread is the one it passed when it exited. */
  lemma {:induction false} ResultFrom(run: seq<Sched>, calls: seq<Call>, i: nat, t: Tid) returns (e: nat)
    requires Run(run, calls) && i < |run| && t in run[i].results
    ensures e < i && run[e].running == t && calls[e] == ExitWith(run[i].results[t])
  {
    assert i > 0;
    RunChanges(run, calls, i - 1);
    if calls[i - 1].ExitWith? && run[i - 1].running == t {
      e := i - 1;
    } else {
      e := ResultFrom(run, calls, i - 1, t);
    }
  }

  /** Between its join and its resume a thread makes no call, so its target stays. */
  lemma {:induction false} JoinKept(run: seq<Sched>, calls: seq<Call>, i: nat, k: nat, target: Tid)
    requires Run(run, calls) && i < k <= |calls|
    requires calls[i] == JoinOn(target) && target in run[i].state
    requires forall m :: i < m < k ==> run[m].running != run[i].running
    ensures run[i].running in run[k].joining && run[k].joining[run[i].running] == target
  {
    RunChanges(run, calls, k - 1);
    if k == i + 1 {
    } else {
      JoinKept(run, calls, i, k - 1, target);
    }
  }

  /** Thread t joins target in call i and next runs in call k: that call is its return from the
      join, and the value it returns is the one target exited with, in a call between. */
  lemma JoinDelivery(run: seq<Sched>, calls: seq<Call>, i: nat, k: nat, target: Tid) returns (e: nat)
    requires Run(run, calls) && i < k < |calls|
    requires calls[i] == JoinOn(target) && target in run[i].state
    requires run[k].running == run[i].running && forall m :: i < m < k ==> run[m].running != run[i].running
    ensures calls[k] == Resume
    ensures i < e < k && run[e].running == target && calls[e] == ExitWith(FinishJoin(run[k]).1)
  {
    JoinKept(run, calls, i, k, target);
    RunChanges(run, calls, k);
    GivenResult(run, calls, k);
    e := ResultFrom(run, calls, k, target);
    NoResultYet(run, calls, i, target);
  }

  lemma GivenResult(run: seq<Sched>, calls: seq<Call>, k: nat)
    requires Run(run, calls) && k < |run| && run[k].running in run[k].joining
    ensures var s := run[k];
            s.joining[s.running] in s.results && FinishJoin(s).1 == s.results[s.joining[s.running]]
  {
    RunInv(run, calls, k);
    assert run[k].running !in BlockedSet(run[k].state);
  }

  lemma NoResultYet(run: seq<Sched>, calls: seq<Call>, i: nat, t: Tid)
    requires Run(run, calls) && i < |run| && t in run[i].state
    ensures forall e :: 0 <= e < i && run[e].running == t ==> !calls[e].ExitWith?
  {
    RunInv(run, calls, i);
    FreedOnExit(run, calls, i, t);
  }

  // ---- Completion -----------------------------------------------------------------------

  /** A join on a thread that already waits for the joiner. */
  ghost predicate ClosesRing(s: Sched, c: Call) {
    Joins(s, c) && WaitsFor(BlockedSet(s.state), s.joining, c.target, s.running)
  }

  ghost predicate NoRing(s: Sched) {
    Grounded(BlockedSet(s.state), s.joining)
  }

  /** A ring of waiting threads appears only by a closing join, and never goes away. */
  lemma RingStep(s: Sched, c: Call, s': Sched)
    requires Inv(s) && Allowed(s, c) && s' == Next(s, c)
    ensures NoRing(s') <==> NoRing(s) && !ClosesRing(s, c)
  {
    NextCore(s, c, s');
    assert s.running !in BlockedSet(s.state);
    RingChange(s, c, s', BlockedSet(s.state), BlockedSet(s'.state));
  }

  lemma RingChange(s: Sched, c: Call, s': Sched, asleep: set<Tid>, asleep': set<Tid>)
    requires Changes(s, c, s') && Sleepers(s, c, asleep, asleep') && s.running !in asleep
    ensures Grounded(asleep', s'.joining) <==>
            Grounded(asleep, s.joining) && !(Joins(s, c) && WaitsFor(asleep, s.joining, c.target, s.running))
  {
    if Joins(s, c) {
      BlockGrounded(asleep, s.joining, s.running, c.target);
    } else {
      RingKept(asleep, asleep', s.joining, s'.joining, s.running);
    }
  }

  lemma RingKept(asleep: set<Tid>, asleep': set<Tid>, joining: map<Tid, Tid>, joining': map<Tid, Tid>, me: Tid)
    requires OnlyWoke(asleep, asleep', joining, me) && me !in asleep
    requires joining' == joining || joining' == joining - {me}
    ensures Grounded(asleep', joining') <==> Grounded(asleep, joining)
  {
    if group :| group != {} && Deadlocked(asleep, joining, group) {
      assert Deadlocked(asleep', joining', group);
    }
    if group :| group != {} && Deadlocked(asleep', joining', group) {
      assert Deadlocked(asleep, joining, group);
    }
  }

  ghost predicate RingClosedBefore(run: seq<Sched>, calls: seq<Call>, i: nat)
    requires i <= |calls| && |run| == |calls| + 1
  {
    exists m :: 0 <= m < i && ClosesRing(run[m], calls[m])
  }

  lemma RunRing(run: seq<Sched>, calls: seq<Call>, i: nat)
    requires Run(run, calls) && i < |calls|
    ensures NoRing(run[i + 1]) <==> NoRing(run[i]) && !ClosesRing(run[i], calls[i])
  {
    RunInv(run, calls, i);
    assert Steps(run, calls, i);
    RingStep(run[i], calls[i], run[i + 1]);
  }

  lemma {:induction false} RingIffClosed(run: seq<Sched>, calls: seq<Call>, i: nat)
    requires Run(run, calls) && i < |run|
    ensures NoRing(run[i]) <==> !RingClosedBefore(run, calls, i)
  {
    if i == 0 {
      assert BlockedSet(run[0].state) == {};
    } else {
      RingIffClosed(run, calls, i - 1);
      RunRing(run, calls, i - 1);
      if ClosesRing(run[i - 1], calls[i - 1]) {
        assert RingClosedBefore(run, calls, i);
      }
    }
  }

  ghost predicate Idle(s: Sched) {
    s.running == MASTER && s.ready == []
  }

  /** With the master running and nobody ready, the blocked threads wait only on one another. */
  lemma IdleRing(s: Sched)
    requires Inv(s) && Idle(s)
    ensures s.blocked == [] <==> NoRing(s)
  {
    var asleep := BlockedSet(s.state);
    assert Deadlocked(asleep, s.joining, asleep) by { IdleGroup(s); }
    if s.blocked != [] {
      assert s.blocked[0] in s.blocked;
      assert s.blocked[0] in asleep;
    }
  }

  lemma IdleGroup(s: Sched)
    requires Inv(s) && Idle(s)
    ensures Deadlocked(BlockedSet(s.state), s.joining, BlockedSet(s.state))
  {
    var asleep := BlockedSet(s.state);
    forall t | t in asleep ensures t in s.joining && s.joining[t] in asleep {
      var u := s.joining[t];
      assert u in s.waiters && t in s.waiters[u];
      assert u in s.state && u != MASTER && u !in s.ready;
    }
  }

  /** Whenever the master runs with nobody ready: every thread created has exited and been freed
      if and only if no join so far closed a ring of waiting threads. */
  lemma Completion(run: seq<Sched>, calls: seq<Call>, i: nat)
    requires Run(run, calls) && i < |run| && Idle(run[i])
    ensures run[i].blocked == [] <==> !RingClosedBefore(run, calls, i)
    ensures run[i].blocked == [] <==> forall t :: 0 < t < run[i].count ==> ExitedBefore(run, calls, i, t)
  {
    RunInv(run, calls, i);
    IdleRing(run[i]);
    RingIffClosed(run, calls, i);
    forall t | 0 < t < run[i].count ensures ExitedBefore(run, calls, i, t) <==> t !in run[i].blocked {
      FreedIffExited(run, calls, i, t);
    }
    if run[i].blocked != [] {
      assert run[i].blocked[0] in run[i].blocked;
      assert 0 < run[i].blocked[0] < run[i].count;
    }
  }

  /** Such a run exists: the first thread joins itself, and the master finds nobody ready. */
  lemma RingHappens(calls: seq<Call>) returns (run: seq<Sched>)
    requires calls == [Make, Pass, JoinOn(1)]
    ensures |run| == 4 && Run(run, calls) && Idle(run[3]) && run[3].blocked == [1] && RingClosedBefore(run, calls, 3)
  {
    var s1 := Next(Initial(), Make);
    var s2 := Next(s1, Pass);
    var s3 := Next(s2, JoinOn(1));
    run := [Initial(), s1, s2, s3];
    assert Without([1], 1) == [];
    assert s2.running == 1 && s2.ready == [] && s2.state[1] == Running;
    assert s3.running == MASTER && s3.blocked == [1];
    assert Steps(run, calls, 0) && Steps(run, calls, 1) && Steps(run, calls, 2);
    Completion(run, calls, 3);
  }

  // ---- First come, first served ---------------------------------------------------------

  /** The first of the queue runs, or the master if there is none; the others stay in order, and
      those in back, who come last, behind them. */
  ghost predicate Hands(queue: seq<Tid>, back: seq<Tid>, s': Sched) {
    if queue == [] then s'.running == MASTER && s'.ready == back
    else s'.running == queue[0] && s'.ready == queue[1..] + back
  }

  /** The running thread, if it is one that queues up; the master does not. */
  function Caller(s: Sched): seq<Tid> {
    if s.running == MASTER then [] else [s.running]
  }

  /** Who runs after a call, and in which order the others wait for their turn. */
  ghost predicate Dispatched(s: Sched, c: Call, s': Sched) {
    match c
    case Make => s'.running == s.running && s'.ready == s.ready + [s.count] && s'.blocked == s.blocked
    case Pass => Hands(s.ready, Caller(s), s') && s'.blocked == s.blocked
    case Yield(id) => YieldsTo(s, id, s') && s'.blocked == s.blocked
    case JoinOn(id) =>
      if id !in s.state then s' == s
      else
        && Hands(s.ready, [], s') && s'.blocked == s.blocked + [s.running]
        && id in s.waiters && id in s'.waiters && s'.waiters[id] == s.waiters[id] + [s.running]
    case ExitWith(v) =>
      s.running in s.waiters && Hands(s.ready + s.waiters[s.running], [], s')
    case Resume => s'.running == s.running && s'.ready == s.ready && s'.blocked == s.blocked
  }

  /** The thread named runs if it is ready; a yield to any other is a call of the scheduler. */
  ghost predicate YieldsTo(s: Sched, id: Tid, s': Sched) {
    if id !in s.state || s.state[id] != Ready then Hands(s.ready, Caller(s), s')
    else if id == MASTER then s'.running == MASTER && s'.ready == s.ready + Caller(s)
    else s'.running == id && exists rest :: TakenOut(s.ready, id, rest) && s'.ready == rest + Caller(s)
  }

  lemma ScheduleHands(s: Sched, st: RunState)
    requires s.running in s.state && s.state[s.running] == st && st != Ready && MASTER !in s.ready
    requires s.running == MASTER ==> st == Running
    ensures Hands(s.ready, if st == Running then Caller(s) else [], Schedule(s))
    ensures Schedule(s).blocked == if st == Blocked then s.blocked + [s.running] else s.blocked
    ensures st != Stopped ==> Schedule(s).waiters == s.waiters
  {
    if s.ready != [] {
      assert s.ready[0] in s.ready;
      assert Without(s.ready, s.ready[0]) == s.ready[1..];
    }
  }

  /** Woken threads queue up behind those already ready, in the order in which they came to wait. */
  lemma {:induction false} WakeOrder(s: Sched, v: int)
    requires s.running in s.waiters
    ensures WakeAll(s, v).ready == s.ready + s.waiters[s.running]
    decreases |s.waiters[s.running]|
  {
    var list := s.waiters[s.running];
    if list == [] {
      assert s.ready + list == s.ready;
    } else {
      WakeOrder(Wake(s, v), v);
      assert s.ready + list == (s.ready + [list[0]]) + list[1..];
    }
  }

  lemma ExitHands(s: Sched, v: int)
    requires CanExit(s)
    ensures Hands(s.ready + s.waiters[s.running], [], Exit(s, v))
  {
    var s0 := s.(results := s.results[s.running := v]);
    LeaveCore(s, v);
    WakeOrder(s0, v);
    WakeAllCore(s0, v);
    var s1 := WakeAll(s0, v);
    ScheduleHands(s1.(state := s1.state[s.running := Stopped]), Stopped);
  }

  lemma InvokeHands(s: Sched, id: Tid)
    requires s.running in s.state && s.state[s.running] == Running && id in s.ready && id != MASTER
    ensures var s' := Invoke(s, id); s'.running == id && s'.blocked == s.blocked
    ensures exists rest :: TakenOut(s.ready, id, rest) && Invoke(s, id).ready == rest + Caller(s)
  {
    var rest := Without(s.ready, id);
    WithoutTakesOut(s.ready, id);
    assert Invoke(s, id).ready == rest + Caller(s);
  }

  lemma YieldHands(s: Sched, id: Tid)
    requires Inv(s)
    ensures YieldsTo(s, id, YieldTo(s, id)) && YieldTo(s, id).blocked == s.blocked
  {
    if id in s.state && s.state[id] == Ready {
      if id != MASTER {
        assert id in s.ready;
        InvokeHands(s, id);
      }
    } else {
      ScheduleHands(s, Running);
    }
  }

  lemma NextDispatches(s: Sched, c: Call)
    requires Inv(s) && Allowed(s, c)
    ensures Dispatched(s, c, Next(s, c))
  {
    match c
    case Pass => ScheduleHands(s, Running);
    case Yield(id) => YieldHands(s, id);
    case JoinOn(id) =>
      FindsLive(s, id);
      if id in s.state {
        ScheduleHands(Block(s, id), Blocked);
      }
    case ExitWith(v) => ExitHands(s, v);
    case _ =>
  }

  /** On every run: the thread a yield names runs next if it is ready. Otherwise, and after a call
      of the scheduler, a join and an exit, the first ready thread does, or the master if there is
      none; the caller, or those it wakes, queue up last. */
  lemma RunDispatches(run: seq<Sched>, calls: seq<Call>, i: nat)
    requires Run(run, calls) && i < |calls|
    ensures Dispatched(run[i], calls[i], run[i + 1])
  {
    RunInv(run, calls, i);
    assert Steps(run, calls, i);
    NextDispatches(run[i], calls[i]);
  }

  /** The call gives up the processor if anyone is ready. */
  ghost predicate Switches(s: Sched, c: Call) {
    c.Pass? || Joins(s, c) || c.ExitWith?
  }

  /** The thread at place p of the ready list is next, or moves up one place. */
  ghost predicate MovesUp(s: Sched, s': Sched, p: nat)
    requires p < |s.ready|
  {
    if p == 0 then s'.running == s.ready[0] else p - 1 < |s'.ready| && s'.ready[p - 1] == s.ready[p]
  }

  lemma CallOrder(s: Sched, c: Call, p: nat)
    requires Inv(s) && Allowed(s, c) && !c.Yield? && p < |s.ready|
    ensures Switches(s, c) ==> MovesUp(s, Next(s, c), p)
    ensures !Switches(s, c) ==> p < |Next(s, c).ready| && Next(s, c).ready[p] == s.ready[p]
  {
    NextDispatches(s, c);
  }

  /** How many of the calls from i to j give up the processor. */
  ghost function SwitchCount(run: seq<Sched>, calls: seq<Call>, i: nat, j: nat): nat
    requires i <= j <= |calls| && |run| == |calls| + 1
    decreases j - i
  {
    if i == j then 0 else (if Switches(run[i], calls[i]) then 1 else 0) + SwitchCount(run, calls, i + 1, j)
  }

  /** While nobody yields to a thread of its choice, the thread at place p of the ready list runs
      no later than the switch number p + 1: threads run in the order they became ready. */
  lemma {:induction false} TurnComes(run: seq<Sched>, calls: seq<Call>, i: nat, j: nat, p: nat)
    requires Run(run, calls) && i <= j <= |calls| && p < |run[i].ready|
    requires forall m :: i <= m < j ==> !calls[m].Yield?
    requires SwitchCount(run, calls, i, j) > p
    ensures exists m :: i < m <= j && run[m].running == run[i].ready[p]
    decreases j - i
  {
    RunInv(run, calls, i);
    assert Steps(run, calls, i);
    CallOrder(run[i], calls[i], p);
    if !Switches(run[i], calls[i]) {
      TurnComes(run, calls, i + 1, j, p);
    } else if p > 0 {
      TurnComes(run, calls, i + 1, j, p - 1);
    }
  }
}
