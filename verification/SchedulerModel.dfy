/** The cooperative thread library of user_threads/pet_thread.c as a state machine. Between
    two context switches a thread runs alone, so each library call is one step that ends with
    the thread it switches to having run pet_thread_cleanup. */
module SchedulerModel {
  import opened Options
  import opened Lists

  type Tid = nat
  const MASTER: Tid := 0

  datatype RunState = Stopped | Running | Ready | Blocked

  /** The thread records (run state, waiter list, return receiver), the library's globals, and
      bookkeeping that no call reads: the records freed so far, the target of each join under
      way, and the value each exited thread left. */
  datatype Sched = Sched(
    state: map<Tid, RunState>,
    waiters: map<Tid, seq<Tid>>,
    receiver: map<Tid, int>,
    ready: seq<Tid>,
    blocked: seq<Tid>,
    running: Tid,
    stopped: Option<Tid>,
    count: nat,
    freed: seq<Tid>,
    joining: map<Tid, Tid>,
    results: map<Tid, int>)

  /** pet_thread_init. */
  function Initial(): Sched {
    Sched(map[MASTER := Running], map[MASTER := []], map[MASTER := 0], [], [], MASTER, None, 1, [], map[], map[])
  }

  // ---- The calls ------------------------------------------------------------------------

  /** get_thread; `stopped` goes on naming the last thread that exited. */
  function GetThread(s: Sched, id: Tid): Option<Tid> {
    if id == MASTER || id == s.running || s.stopped == Some(id) || id in s.ready || id in s.blocked then Some(id)
    else None
  }

  /** __thread_invoker up to the switch: a thread left running becomes ready and joins the end
      of the ready list, a blocked one joins the blocked list, a stopped one is remembered. The
      master is on no list. */
  function SwitchTo(s: Sched, tgt: Tid): Sched
    requires s.running in s.state
  {
    var prev, st := s.running, s.state[s.running];
    s.(running := tgt,
       state := s.state[prev := if st == Running then Ready else st][tgt := Running],
       ready := Joined(if tgt != MASTER then Without(s.ready, tgt) else s.ready, prev, st == Running && prev != MASTER),
       blocked := Joined(s.blocked, prev, st == Blocked),
       stopped := if st == Stopped then Some(prev) else s.stopped)
  }

  /** list_add_tail under a condition. */
  function Joined(list: seq<Tid>, t: Tid, joins: bool): seq<Tid> {
    if joins then list + [t] else list
  }

  /** pet_thread_cleanup, run on the new thread's stack: a stopped thread's record goes. */
  function Cleanup(s: Sched, prev: Tid): Sched {
    if prev in s.state && s.state[prev] == Stopped then
      s.(state := s.state - {prev}, waiters := s.waiters - {prev}, receiver := s.receiver - {prev},
        freed := s.freed + [prev])
    else s
  }

  function Invoke(s: Sched, tgt: Tid): Sched
    requires s.running in s.state
  {
    Cleanup(SwitchTo(s, tgt), s.running)
  }

  /** pet_thread_schedule: the first ready thread, or the master if there is none. */
  function Schedule(s: Sched): Sched
    requires s.running in s.state
  {
    if s.ready == [] then (if s.running == MASTER then s else Invoke(s, MASTER)) else Invoke(s, s.ready[0])
  }

  function Create(s: Sched): Sched {
    s.(state := s.state[s.count := Ready], waiters := s.waiters[s.count := []], receiver := s.receiver[s.count := 0],
       ready := s.ready + [s.count], count := s.count + 1)
  }

  function YieldTo(s: Sched, id: Tid): Sched
    requires s.running in s.state
  {
    if GetThread(s, id).Some? && id in s.state && s.state[id] == Ready then Invoke(s, id) else Schedule(s)
  }

  /** pet_thread_join up to the switch. */
  function Block(s: Sched, id: Tid): Sched
    requires id in s.waiters
  {
    s.(state := s.state[s.running := Blocked], waiters := s.waiters[id := s.waiters[id] + [s.running]],
       joining := s.joining[s.running := id])
  }

  /** pet_thread_join: -1 if there is no such thread. */
  function Join(s: Sched, id: Tid): (Sched, int)
    requires s.running in s.state
  {
    if GetThread(s, id).None? || id !in s.waiters then (s, -1) else (Schedule(Block(s, id)), 0)
  }

  /** One turn of __quarantine's loop: wake the first waiter and hand it the value. */
  function Wake(s: Sched, v: int): Sched
    requires s.running in s.waiters && s.waiters[s.running] != []
  {
    var w := s.waiters[s.running][0];
    s.(state := s.state[w := Ready], receiver := s.receiver[w := v],
       waiters := s.waiters[s.running := s.waiters[s.running][1..]],
       blocked := Without(s.blocked, w), ready := s.ready + [w])
  }

  function WakeAll(s: Sched, v: int): (r: Sched)
    requires s.running in s.waiters
    ensures r.running == s.running && s.running in r.waiters
    decreases |s.waiters[s.running]|
  {
    if s.waiters[s.running] == [] then s else WakeAll(Wake(s, v), v)
  }

  /** __quarantine. */
  function Exit(s: Sched, v: int): Sched
    requires s.running in s.waiters
  {
    var s1 := WakeAll(s.(results := s.results[s.running := v]), v);
    Schedule(s1.(state := s1.state[s.running := Stopped]))
  }

  /** The resumed joiner takes its value and returns from pet_thread_join. */
  function FinishJoin(s: Sched): (Sched, int) {
    (s.(joining := s.joining - {s.running}), if s.running in s.receiver then s.receiver[s.running] else 0)
  }

  // ---- The invariant --------------------------------------------------------------------

  /** The running thread's state is st; every other live thread is ready or blocked. */
  ghost predicate States(state: map<Tid, RunState>, running: Tid, count: nat, st: RunState) {
    && MASTER in state && running in state && state[running] == st
    && (running == MASTER ==> st == Running)
    && (running != MASTER ==> state[MASTER] == Ready)
    && (forall t :: t in state ==> t < count)
    && (forall t :: t in state && t != running ==> state[t] == Ready || state[t] == Blocked)
  }

  /** The lists hold exactly the ready and the blocked threads, each once. */
  ghost predicate Queues(state: map<Tid, RunState>, ready: seq<Tid>, blocked: seq<Tid>, running: Tid) {
    ReadyList(state, ready) && BlockedList(state, blocked, running)
  }

  ghost predicate ReadyList(state: map<Tid, RunState>, ready: seq<Tid>) {
    Distinct(ready) && forall t :: t in ready <==> t in state && t != MASTER && state[t] == Ready
  }

  ghost predicate BlockedList(state: map<Tid, RunState>, blocked: seq<Tid>, running: Tid) {
    Distinct(blocked) && forall t :: t in blocked <==> t in state && t != running && state[t] == Blocked
  }

  ghost function BlockedSet(state: map<Tid, RunState>): set<Tid> {
    set t | t in state && state[t] == Blocked
  }

  /** Each blocked thread is on the waiter list of the live thread it joins, once, and on no
      other; a join under way is blocked or has been given its value. */
  ghost predicate Waits(asleep: set<Tid>, waiters: map<Tid, seq<Tid>>, receiver: map<Tid, int>,
                        joining: map<Tid, Tid>, results: map<Tid, int>) {
    && MASTER !in joining && MASTER in waiters && waiters[MASTER] == []
    && (forall u, w :: u in waiters && w in waiters[u] ==> w in asleep && w in joining && joining[w] == u)
    && (forall u :: u in waiters ==> Distinct(waiters[u]))
    && (forall w {:trigger w in asleep} :: w in asleep ==>
          w in joining && joining[w] in waiters && w in waiters[joining[w]])
    && (forall w {:trigger w in joining} :: w in joining && w !in asleep ==>
          w in receiver && joining[w] in results && receiver[w] == results[joining[w]])
  }

  /** Every thread ever created is live or was freed, once; exactly the exited have results. */
  ghost predicate Exits(live: set<Tid>, freed: seq<Tid>, results: map<Tid, int>, count: nat, running: Tid,
                        leaving: bool) {
    && Distinct(freed)
    && (forall t :: t in freed ==> 0 < t < count && t !in live)
    && (forall t :: 0 < t < count ==> t in live || t in freed)
    && (forall t :: t in results <==> t in freed || (leaving && t == running))
  }

  /** Every thread with a join under way is live. */
  ghost predicate Within(joining: map<Tid, Tid>, state: map<Tid, RunState>) {
    forall w {:trigger w in joining} :: w in joining ==> w in state
  }

  ghost predicate Core(s: Sched, st: RunState, leaving: bool) {
    && s.waiters.Keys == s.receiver.Keys == s.state.Keys && Within(s.joining, s.state)
    && States(s.state, s.running, s.count, st)
    && Queues(s.state, s.ready, s.blocked, s.running)
    && Waits(BlockedSet(s.state), s.waiters, s.receiver, s.joining, s.results)
    && Exits(s.state.Keys, s.freed, s.results, s.count, s.running, leaving)
    && (leaving ==> s.running != MASTER && s.running !in s.joining)
    && (s.stopped.Some? ==> s.stopped.value in s.freed)
  }

  ghost predicate Inv(s: Sched) {
    Core(s, Running, false)
  }

  // ---- Wait chains ----------------------------------------------------------------------

  ghost predicate Link(asleep: set<Tid>, joining: map<Tid, Tid>, a: Tid, b: Tid) {
    a in asleep && a in joining && joining[a] == b
  }

  /** Each thread of p but the last is blocked in a join on the next. */
  ghost predicate Chain(asleep: set<Tid>, joining: map<Tid, Tid>, p: seq<Tid>) {
    |p| > 0 && forall i, j :: 0 <= i < j < |p| && j == i + 1 ==> Link(asleep, joining, p[i], p[j])
  }

  /** Following joins of blocked threads from a leads to b. */
  ghost predicate WaitsFor(asleep: set<Tid>, joining: map<Tid, Tid>, a: Tid, b: Tid) {
    exists p :: Chain(asleep, joining, p) && p[0] == a && p[|p| - 1] == b
  }

  /** The threads of the group wait only on one another. */
  ghost predicate Deadlocked(asleep: set<Tid>, joining: map<Tid, Tid>, group: set<Tid>) {
    forall t :: t in group ==> t in asleep && t in joining && joining[t] in group
  }

  ghost predicate Grounded(asleep: set<Tid>, joining: map<Tid, Tid>) {
    forall group: set<Tid> :: group != {} ==> !Deadlocked(asleep, joining, group)
  }

  // ---- Switching ------------------------------------------------------------------------

  /** What a switch needs of the thread being left, and of the one switched to. */
  ghost predicate CanSwitch(s: Sched, st: RunState, leaving: bool, tgt: Tid) {
    && Core(s, st, leaving) && st != Ready && (leaving <==> st == Stopped)
    && (leaving ==> s.waiters[s.running] == [])
    && tgt in s.state && tgt != s.running && s.state[tgt] == Ready
  }

  lemma InvokeCore(s: Sched, st: RunState, leaving: bool, tgt: Tid)
    requires CanSwitch(s, st, leaving, tgt)
    ensures Inv(Invoke(s, tgt)) && BlockedSet(Invoke(s, tgt).state) == BlockedSet(s.state)
    ensures Invoke(s, tgt).joining == s.joining && Invoke(s, tgt).results == s.results
    ensures Invoke(s, tgt).freed == (if leaving then s.freed + [s.running] else s.freed) &&
            Invoke(s, tgt).running == tgt
  {
    SwitchStates(s, st, tgt);
    SwitchReady(s, st, tgt);
    SwitchBlocked(s, st, tgt);
    if leaving {
      CleanupCore(SwitchTo(s, tgt), s.running);
    }
  }

  /** The states after a switch: the target runs, and the thread left keeps st or is ready. */
  lemma SwitchStates(s: Sched, st: RunState, tgt: Tid)
    requires States(s.state, s.running, s.count, st) && st != Ready
    requires tgt in s.state && tgt != s.running && s.state[tgt] == Ready
    ensures var state := SwitchTo(s, tgt).state;
            && state.Keys == s.state.Keys && BlockedSet(state) == BlockedSet(s.state)
            && (st != Stopped ==> States(state, tgt, s.count, Running))
            && (st == Stopped ==> States(state - {s.running}, tgt, s.count, Running))
  {
    assert BlockedSet(SwitchTo(s, tgt).state) == BlockedSet(s.state);
  }

  lemma SwitchReady(s: Sched, st: RunState, tgt: Tid)
    requires States(s.state, s.running, s.count, st) && st != Ready && ReadyList(s.state, s.ready)
    requires tgt in s.state && tgt != s.running && s.state[tgt] == Ready
    ensures ReadyList(SwitchTo(s, tgt).state, SwitchTo(s, tgt).ready)
  {
    WithoutFacts(s.ready, tgt);
  }

  lemma SwitchBlocked(s: Sched, st: RunState, tgt: Tid)
    requires States(s.state, s.running, s.count, st) && st != Ready && BlockedList(s.state, s.blocked, s.running)
    requires tgt in s.state && tgt != s.running && s.state[tgt] == Ready
    ensures BlockedList(SwitchTo(s, tgt).state, SwitchTo(s, tgt).blocked, tgt)
  {
  }

  /** Freeing the record of a stopped thread that nobody waits for. */
  lemma CleanupCore(s: Sched, prev: Tid)
    requires s.waiters.Keys == s.receiver.Keys == s.state.Keys && Within(s.joining, s.state)
    requires prev in s.state && s.state[prev] == Stopped && prev != MASTER && prev != s.running &&
             s.waiters[prev] == [] && prev !in s.joining
    requires States(s.state - {prev}, s.running, s.count, Running) && prev < s.count
    requires Queues(s.state, s.ready, s.blocked, s.running)
    requires Waits(BlockedSet(s.state), s.waiters, s.receiver, s.joining, s.results)
    requires Exits(s.state.Keys, s.freed, s.results, s.count, prev, true) && s.stopped == Some(prev)
    ensures Inv(Cleanup(s, prev)) && BlockedSet(Cleanup(s, prev).state) == BlockedSet(s.state)
  {
    var state := s.state - {prev};
    assert state.Keys == s.state.Keys - {prev};
    assert BlockedSet(state) == BlockedSet(s.state);
    assert (s.waiters - {prev}).Keys == (s.receiver - {prev}).Keys == state.Keys;
    FreedOne(s.state.Keys, s.freed, s.results, s.count, prev, s.running);
    CleanupWaits(BlockedSet(s.state), s.waiters, s.receiver, s.joining, s.results, prev);
    CleanupQueues(s.state, s.ready, s.blocked, s.running, prev);
  }

  lemma CleanupQueues(state: map<Tid, RunState>, ready: seq<Tid>, blocked: seq<Tid>, running: Tid, prev: Tid)
    requires Queues(state, ready, blocked, running) && prev in state && state[prev] == Stopped
    ensures Queues(state - {prev}, ready, blocked, running)
  {
  }

  lemma FreedOne(live: set<Tid>, freed: seq<Tid>, results: map<Tid, int>, count: nat, prev: Tid, next: Tid)
    requires Exits(live, freed, results, count, prev, true) && prev in live && 0 < prev < count
    ensures Exits(live - {prev}, freed + [prev], results, count, next, false)
  {
    AppendDistinct(freed, prev);
  }

  lemma CleanupWaits(asleep: set<Tid>, waiters: map<Tid, seq<Tid>>, receiver: map<Tid, int>,
                     joining: map<Tid, Tid>, results: map<Tid, int>, prev: Tid)
    requires Waits(asleep, waiters, receiver, joining, results)
    requires prev in waiters && waiters[prev] == [] && prev != MASTER && prev !in joining
    ensures Waits(asleep, waiters - {prev}, receiver - {prev}, joining, results)
  {
  }

  lemma ScheduleCore(s: Sched, st: RunState, leaving: bool, s': Sched)
    requires Core(s, st, leaving) && st != Ready && (leaving <==> st == Stopped)
    requires leaving ==> s.waiters[s.running] == []
    requires s' == Schedule(s)
    ensures Inv(s') && BlockedSet(s'.state) == BlockedSet(s.state) && s'.joining == s.joining && s'.results == s.results
    ensures s'.freed == if leaving then s.freed + [s.running] else s.freed
  {
    if s.ready != [] {
      assert s.ready[0] in s.ready;
      InvokeCore(s, st, leaving, s.ready[0]);
    } else if s.running != MASTER {
      InvokeCore(s, st, leaving, MASTER);
    }
  }

  // ---- Joining --------------------------------------------------------------------------

  /** A thread other than the master, done with its previous join, joins a live one. */
  ghost predicate CanBlock(s: Sched, id: Tid) {
    && Inv(s) && s.running != MASTER && s.running !in s.joining
    && id in s.state && id != MASTER
  }

  /** What changing one thread's state does to the set of blocked threads. */
  lemma SetState(state: map<Tid, RunState>, t: Tid, st: RunState)
    ensures BlockedSet(state[t := st]) == if st == Blocked then BlockedSet(state) + {t} else BlockedSet(state) - {t}
    ensures st != Blocked && (t in state ==> state[t] != Blocked) ==> BlockedSet(state[t := st]) == BlockedSet(state)
  {
  }

  lemma UpdateKeys<V>(m: map<Tid, V>, t: Tid, v: V)
    ensures m[t := v].Keys == m.Keys + {t}
    ensures t in m ==> m[t := v].Keys == m.Keys
  {
  }

  /** The running thread leaves the state Running without being on a list. */
  lemma LeaveQueues(state: map<Tid, RunState>, ready: seq<Tid>, blocked: seq<Tid>, running: Tid, st: RunState)
    requires Queues(state, ready, blocked, running) && running in state && state[running] == Running && st != Ready
    ensures Queues(state[running := st], ready, blocked, running)
  {
  }

  lemma BlockCore(s: Sched, id: Tid, s': Sched)
    requires CanBlock(s, id) && s' == Block(s, id)
    ensures Core(s', Blocked, false) && BlockedSet(s'.state) == BlockedSet(s.state) + {s.running}
  {
    SetState(s.state, s.running, Blocked);
    LeaveQueues(s.state, s.ready, s.blocked, s.running, Blocked);
    BlockWaits(BlockedSet(s.state), s.waiters, s.receiver, s.joining, s.results, s.running, id);
    UpdateKeys(s.state, s.running, Blocked);
    UpdateKeys(s.waiters, id, s.waiters[id] + [s.running]);
  }

  lemma BlockWaits(asleep: set<Tid>, waiters: map<Tid, seq<Tid>>, receiver: map<Tid, int>,
                   joining: map<Tid, Tid>, results: map<Tid, int>, me: Tid, id: Tid)
    requires Waits(asleep, waiters, receiver, joining, results)
    requires me !in asleep && me !in joining && me != MASTER && id in waiters && id != MASTER
    ensures Waits(asleep + {me}, waiters[id := waiters[id] + [me]], receiver, joining[me := id], results)
  {
    AppendDistinct(waiters[id], me);
  }

  /** A join leaves some threads waiting in a ring iff there was one already, or its target
      already waits for the joiner. */
  lemma BlockGrounded(asleep: set<Tid>, joining: map<Tid, Tid>, me: Tid, id: Tid)
    requires me !in asleep
    ensures Grounded(asleep + {me}, joining[me := id]) <==>
            Grounded(asleep, joining) && !WaitsFor(asleep, joining, id, me)
  {
    var asleep', joining' := asleep + {me}, joining[me := id];
    if group :| group != {} && Deadlocked(asleep', joining', group) {
      if me in group {
        if !WaitsFor(asleep, joining, id, me) {
          GroupReached(asleep, joining, me, id, group);
        }
      } else {
        assert Deadlocked(asleep, joining, group);
      }
    }
    if group :| group != {} && Deadlocked(asleep, joining, group) {
      assert Deadlocked(asleep', joining', group);
    }
    if WaitsFor(asleep, joining, id, me) {
      RingClosed(asleep, joining, me, id);
    }
  }

  /** A chain from the target to the joiner becomes a ring. */
  lemma RingClosed(asleep: set<Tid>, joining: map<Tid, Tid>, me: Tid, id: Tid)
    requires me !in asleep && WaitsFor(asleep, joining, id, me)
    ensures !Grounded(asleep + {me}, joining[me := id])
  {
    var p :| Chain(asleep, joining, p) && p[0] == id && p[|p| - 1] == me;
    var group := set t | t in p;
    assert me in p && me in group;
    forall t | t in group ensures t in asleep + {me} && t in joining[me := id] && joining[me := id][t] in group {
      var i :| 0 <= i < |p| && p[i] == t;
      if i < |p| - 1 {
        assert Link(asleep, joining, p[i], p[i + 1]);
      } else {
        assert p[0] in group;
      }
    }
    assert Deadlocked(asleep + {me}, joining[me := id], group);
  }

  lemma ChainOnward(asleep: set<Tid>, joining: map<Tid, Tid>, p: seq<Tid>, t: Tid)
    requires Chain(asleep, joining, p) && Link(asleep, joining, p[|p| - 1], t)
    ensures WaitsFor(asleep, joining, p[0], t)
  {
    var q := p + [t];
    assert q[0] == p[0] && q[|q| - 1] == t;
    assert Chain(asleep, joining, q) by {
      forall i, j | 0 <= i < j < |q| && j == i + 1 ensures Link(asleep, joining, q[i], q[j]) {
        assert q[i] == p[i];
        assert j < |p| ==> q[j] == p[j];
      }
    }
  }

  /** The part of a supposed deadlock that the target waits for would itself be a deadlock. */
  lemma GroupReached(asleep: set<Tid>, joining: map<Tid, Tid>, me: Tid, id: Tid, group: set<Tid>)
    requires Deadlocked(asleep + {me}, joining[me := id], group) && me in group
    requires !WaitsFor(asleep, joining, id, me)
    ensures exists part: set<Tid> :: part != {} && Deadlocked(asleep, joining, part)
  {
    var part := set t | t in group && WaitsFor(asleep, joining, id, t);
    assert Chain(asleep, joining, [id]);
    assert WaitsFor(asleep, joining, id, id);
    assert id in part;
    forall t | t in part ensures t in asleep && t in joining && joining[t] in part {
      assert t != me;
      var p :| Chain(asleep, joining, p) && p[0] == id && p[|p| - 1] == t;
      ChainOnward(asleep, joining, p, joining[t]);
    }
    assert Deadlocked(asleep, joining, part);
  }

  // ---- Exiting --------------------------------------------------------------------------

  /** Of the threads asleep before, those awake after were joining me. */
  ghost predicate OnlyWoke(before: set<Tid>, after: set<Tid>, joining: map<Tid, Tid>, me: Tid) {
    && after <= before
    && forall t {:trigger t in after} :: t in before && t !in after ==> t in joining && joining[t] == me
  }

  lemma WakeCore(s: Sched, v: int)
    requires Core(s, Running, true) && s.results[s.running] == v && s.waiters[s.running] != []
    ensures Core(Wake(s, v), Running, true)
    ensures BlockedSet(Wake(s, v).state) == BlockedSet(s.state) - {s.waiters[s.running][0]}
  {
    var w := s.waiters[s.running][0];
    FirstAsleep(BlockedSet(s.state), s.waiters, s.receiver, s.joining, s.results, s.running);
    assert w in s.state && s.state[w] == Blocked;
    SetState(s.state, w, Ready);
    WakeQueues(s.state, s.ready, s.blocked, s.running, w);
    WakeWaits(BlockedSet(s.state), s.waiters, s.receiver, s.joining, s.results, s.running, v);
    UpdateKeys(s.state, w, Ready);
    UpdateKeys(s.waiters, s.running, s.waiters[s.running][1..]);
    UpdateKeys(s.receiver, w, v);
  }

  lemma FirstAsleep(asleep: set<Tid>, waiters: map<Tid, seq<Tid>>, receiver: map<Tid, int>,
                    joining: map<Tid, Tid>, results: map<Tid, int>, me: Tid)
    requires Waits(asleep, waiters, receiver, joining, results)
    requires me in waiters && waiters[me] != []
    ensures Link(asleep, joining, waiters[me][0], me) && waiters[me][0] != MASTER
  {
    assert waiters[me][0] in waiters[me];
  }

  lemma WakeQueues(state: map<Tid, RunState>, ready: seq<Tid>, blocked: seq<Tid>, running: Tid, w: Tid)
    requires Queues(state, ready, blocked, running) && w in state && state[w] == Blocked && w != running && w != MASTER
    ensures Queues(state[w := Ready], ready + [w], Without(blocked, w), running)
  {
    WithoutFacts(blocked, w);
    AppendDistinct(ready, w);
  }

  lemma WakeWaits(asleep: set<Tid>, waiters: map<Tid, seq<Tid>>, receiver: map<Tid, int>,
                  joining: map<Tid, Tid>, results: map<Tid, int>, me: Tid, v: int)
    requires Waits(asleep, waiters, receiver, joining, results)
    requires me in waiters && waiters[me] != [] && me != MASTER && me in results && results[me] == v
    ensures Waits(asleep - {waiters[me][0]}, waiters[me := waiters[me][1..]], receiver[waiters[me][0] := v],
                  joining, results)
  {
    var mine := waiters[me];
    var w := mine[0];
    assert w in mine;
    TailOf(mine);
    var waiters' := waiters[me := mine[1..]];
    assert w in joining && joining[w] == me;
    assert forall u, x :: u in waiters' && x in waiters'[u] ==> x in waiters[u] && x != w;
    assert forall u :: u in waiters' ==> Distinct(waiters'[u]);
    assert forall x {:trigger x in asleep} :: x in asleep && x != w ==> x in waiters'[joining[x]];
  }

  lemma TailOf(list: seq<Tid>)
    requires Distinct(list) && list != []
    ensures forall x :: x in list[1..] <==> x in list && x != list[0]
  {
    assert list == [list[0]] + list[1..];
  }

  lemma {:induction false} WakeAllCore(s: Sched, v: int)
    requires Core(s, Running, true) && s.results[s.running] == v
    ensures var r := WakeAll(s, v);
            && Core(r, Running, true) && r.waiters[s.running] == []
            && OnlyWoke(BlockedSet(s.state), BlockedSet(r.state), s.joining, s.running)
            && r.joining == s.joining && r.results == s.results && r.freed == s.freed
    decreases |s.waiters[s.running]|
  {
    if s.waiters[s.running] == [] {
    } else {
      WakeCore(s, v);
      FirstAsleep(BlockedSet(s.state), s.waiters, s.receiver, s.joining, s.results, s.running);
      WakeAllCore(Wake(s, v), v);
    }
  }

  ghost predicate CanExit(s: Sched) {
    Inv(s) && s.running != MASTER && s.running !in s.joining
  }

  lemma ExitCore(s: Sched, v: int, s': Sched)
    requires CanExit(s) && s' == Exit(s, v)
    ensures Inv(s') && OnlyWoke(BlockedSet(s.state), BlockedSet(s'.state), s.joining, s.running)
    ensures s'.joining == s.joining && s'.results == s.results[s.running := v] && s'.freed == s.freed + [s.running]
  {
    var s0 := s.(results := s.results[s.running := v]);
    LeaveCore(s, v);
    WakeAllCore(s0, v);
    var s1 := WakeAll(s0, v);
    StopCore(s1);
    ScheduleCore(s1.(state := s1.state[s.running := Stopped]), Stopped, true, s');
  }

  lemma LeaveCore(s: Sched, v: int)
    requires CanExit(s)
    ensures Core(s.(results := s.results[s.running := v]), Running, true)
  {
  }

  lemma StopCore(s: Sched)
    requires Core(s, Running, true)
    ensures Core(s.(state := s.state[s.running := Stopped]), Stopped, true)
    ensures BlockedSet(s.state[s.running := Stopped]) == BlockedSet(s.state)
  {
    SetState(s.state, s.running, Stopped);
    UpdateKeys(s.state, s.running, Stopped);
    LeaveQueues(s.state, s.ready, s.blocked, s.running, Stopped);
  }

  /** A new thread has an id never used before, is ready behind all others, and nobody waits for it. */
  lemma CreateCore(s: Sched)
    requires Inv(s)
    ensures Inv(Create(s)) && BlockedSet(Create(s).state) == BlockedSet(s.state)
    ensures var s', t := Create(s), s.count;
            && t !in s.state && t !in s.freed && t in s'.state && s'.state[t] == Ready && s'.waiters[t] == []
            && |s'.ready| == |s.ready| + 1 && s'.ready[|s.ready|] == t && s.ready <= s'.ready && s'.running == s.running
  {
    var t := s.count;
    SetState(s.state, t, Ready);
    assert t !in s.state;
    CreateStates(s.state, s.running, t);
    CreateQueues(s.state, s.ready, s.blocked, s.running, t);
    CreateWaits(BlockedSet(s.state), s.waiters, s.receiver, s.joining, s.results, t);
    CreateExits(s.state.Keys, s.freed, s.results, t, s.running);
    UpdateKeys(s.state, t, Ready);
    UpdateKeys(s.waiters, t, []);
    UpdateKeys(s.receiver, t, 0);
  }

  lemma CreateStates(state: map<Tid, RunState>, running: Tid, count: nat)
    requires States(state, running, count, Running)
    ensures States(state[count := Ready], running, count + 1, Running)
  {
  }

  lemma CreateQueues(state: map<Tid, RunState>, ready: seq<Tid>, blocked: seq<Tid>, running: Tid, t: Tid)
    requires Queues(state, ready, blocked, running) && t !in state && t != MASTER
    ensures Queues(state[t := Ready], ready + [t], blocked, running)
  {
    AppendDistinct(ready, t);
  }

  lemma CreateExits(live: set<Tid>, freed: seq<Tid>, results: map<Tid, int>, count: nat, running: Tid)
    requires Exits(live, freed, results, count, running, false)
    ensures Exits(live + {count}, freed, results, count + 1, running, false)
  {
  }

  lemma CreateWaits(asleep: set<Tid>, waiters: map<Tid, seq<Tid>>, receiver: map<Tid, int>,
                    joining: map<Tid, Tid>, results: map<Tid, int>, t: Tid)
    requires Waits(asleep, waiters, receiver, joining, results) && t !in waiters && t !in joining && t != MASTER
    ensures Waits(asleep, waiters[t := []], receiver[t := 0], joining, results)
  {
  }

  // ---- Runs -----------------------------------------------------------------------------

  /** A library call of the running thread; Resume is the return from a join. */
  datatype Call = Make | Pass | Yield(to: Tid) | JoinOn(target: Tid) | ExitWith(value: int) | Resume

  /** A thread resumed in a join first returns from it; only threads other than the master join
      and exit; no call names the master as a join target or a thread that has exited. */
  ghost predicate Allowed(s: Sched, c: Call) {
    && s.running in s.state && s.running in s.waiters
    && (c.Resume? <==> s.running in s.joining)
    && (c.JoinOn? || c.ExitWith? ==> s.running != MASTER)
    && (c.JoinOn? ==> c.target != MASTER && c.target !in s.freed)
    && (c.Yield? ==> c.to !in s.freed)
  }

  function Next(s: Sched, c: Call): Sched
    requires s.running in s.state && s.running in s.waiters
  {
    match c
    case Make => Create(s)
    case Pass => Schedule(s)
    case Yield(id) => YieldTo(s, id)
    case JoinOn(id) => Join(s, id).0
    case ExitWith(v) => Exit(s, v)
    case Resume => FinishJoin(s).0
  }

  /** get_thread finds exactly the live threads, among those that have not exited. */
  lemma FindsLive(s: Sched, id: Tid)
    requires Inv(s) && id !in s.freed
    ensures GetThread(s, id).Some? <==> id in s.state
  {
  }

  /** After the switch, pet_thread_cleanup's lookup finds the thread that was just left. */
  lemma FindsPrevious(s: Sched, st: RunState, leaving: bool, tgt: Tid)
    requires CanSwitch(s, st, leaving, tgt)
    ensures GetThread(SwitchTo(s, tgt), s.running) == Some(s.running)
  {
  }

  ghost predicate Joins(s: Sched, c: Call) {
    c.JoinOn? && c.target in s.state
  }

  /** What a call keeps, and what it changes of the records a property can see. */
  ghost predicate StepOk(s: Sched, c: Call, s': Sched) {
    Inv(s') && Changes(s, c, s') && Sleepers(s, c, BlockedSet(s.state), BlockedSet(s'.state))
  }

  ghost predicate Changes(s: Sched, c: Call, s': Sched) {
    && s'.results == (if c.ExitWith? then s.results[s.running := c.value] else s.results)
    && s'.freed == (if c.ExitWith? then s.freed + [s.running] else s.freed)
    && s'.joining == (if Joins(s, c) then s.joining[s.running := c.target]
                      else if c.Resume? then s.joining - {s.running} else s.joining)
  }

  ghost predicate Sleepers(s: Sched, c: Call, before: set<Tid>, after: set<Tid>) {
    if Joins(s, c) then after == before + {s.running}
    else if c.ExitWith? then OnlyWoke(before, after, s.joining, s.running)
    else after == before
  }

  lemma NextCore(s: Sched, c: Call, s': Sched)
    requires Inv(s) && Allowed(s, c) && s' == Next(s, c)
    ensures StepOk(s, c, s')
  {
    match c
    case Make => CreateStep(s, s');
    case Pass => PassStep(s, s');
    case Yield(id) => YieldStep(s, id, s');
    case JoinOn(id) => JoinStep(s, id, s');
    case ExitWith(v) => ExitStep(s, v, s');
    case Resume => ResumeStep(s, s');
  }

  lemma CreateStep(s: Sched, s': Sched)
    requires Inv(s) && s' == Create(s)
    ensures StepOk(s, Make, s')
  {
    CreateCore(s);
  }

  lemma PassStep(s: Sched, s': Sched)
    requires Inv(s) && s' == Schedule(s)
    ensures StepOk(s, Pass, s')
  {
    ScheduleCore(s, Running, false, s');
  }

  lemma YieldStep(s: Sched, id: Tid, s': Sched)
    requires Inv(s) && s' == YieldTo(s, id)
    ensures StepOk(s, Yield(id), s')
  {
    if GetThread(s, id).Some? && id in s.state && s.state[id] == Ready {
      YieldFound(s, id, s');
    } else {
      PassStep(s, s');
    }
  }

  lemma YieldFound(s: Sched, id: Tid, s': Sched)
    requires CanSwitch(s, Running, false, id) && s' == Invoke(s, id)
    ensures StepOk(s, Yield(id), s')
  {
    InvokeCore(s, Running, false, id);
  }

  lemma JoinStep(s: Sched, id: Tid, s': Sched)
    requires Inv(s) && Allowed(s, JoinOn(id)) && s' == Join(s, id).0
    ensures StepOk(s, JoinOn(id), s')
  {
    FindsLive(s, id);
    if id in s.state {
      JoinFound(s, id, Block(s, id), s');
    } else {
      assert s' == s;
    }
  }

  lemma JoinFound(s: Sched, id: Tid, s1: Sched, s': Sched)
    requires CanBlock(s, id) && s1 == Block(s, id) && s' == Schedule(s1)
    ensures Inv(s') && BlockedSet(s'.state) == BlockedSet(s.state) + {s.running}
    ensures s'.joining == s.joining[s.running := id] && s'.results == s.results && s'.freed == s.freed
  {
    BlockCore(s, id, s1);
    ScheduleCore(s1, Blocked, false, s');
  }

  lemma ExitStep(s: Sched, v: int, s': Sched)
    requires Inv(s) && Allowed(s, ExitWith(v)) && s' == Exit(s, v)
    ensures StepOk(s, ExitWith(v), s')
  {
    ExitCore(s, v, s');
  }

  lemma ResumeStep(s: Sched, s': Sched)
    requires Inv(s) && s.running in s.joining && s' == FinishJoin(s).0
    ensures StepOk(s, Resume, s')
  {
    ResumeCore(s);
  }

  lemma ResumeCore(s: Sched)
    requires Inv(s) && s.running in s.joining
    ensures Inv(FinishJoin(s).0)
  {
    assert s.running !in BlockedSet(s.state);
    ResumeWaits(BlockedSet(s.state), s.waiters, s.receiver, s.joining, s.results, s.running);
  }

  lemma ResumeWaits(asleep: set<Tid>, waiters: map<Tid, seq<Tid>>, receiver: map<Tid, int>,
                    joining: map<Tid, Tid>, results: map<Tid, int>, me: Tid)
    requires Waits(asleep, waiters, receiver, joining, results) && me !in asleep
    ensures Waits(asleep, waiters, receiver, joining - {me}, results)
  {
  }
}
