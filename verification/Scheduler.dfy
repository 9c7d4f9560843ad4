/** The thread library's globals and thread records, changed in place by its calls; each method
    takes the state machine of SchedulerModel through one step, and the code's own assertions
    appear as assertions. */
module Scheduler {
  import opened Options
  import opened Lists
  import opened SchedulerModel
  import opened SchedulerRuns

  class Library {
    var state: map<Tid, RunState>
    var waiters: map<Tid, seq<Tid>>
    var receiver: map<Tid, int>
    var ready: seq<Tid>
    var blocked: seq<Tid>
    var running: Tid
    var stopped: Option<Tid>
    var count: nat
    ghost var freed: seq<Tid>
    ghost var joining: map<Tid, Tid>
    ghost var results: map<Tid, int>

    ghost function View(): Sched
      reads this
    {
      Sched(state, waiters, receiver, ready, blocked, running, stopped, count, freed, joining, results)
    }

    /** pet_thread_init. */
    constructor ()
      ensures View() == Initial() && Inv(View())
    {
      state, waiters, receiver := map[MASTER := Running], map[MASTER := []], map[MASTER := 0];
      ready, blocked, running, stopped, count := [], [], MASTER, None, 1;
      freed, joining, results := [], map[], map[];
      new;
      assert BlockedSet(state) == {};
    }

    /** get_thread. */
    method Find(id: Tid) returns (r: Option<Tid>)
      ensures r == GetThread(View(), id)
    {
      if id == MASTER || running == id || stopped == Some(id) {
        return Some(id);
      }
      for i := 0 to |ready|
        invariant id !in ready[..i]
      {
        if ready[i] == id {
          return Some(id);
        }
        assert ready[..i + 1] == ready[..i] + [ready[i]];
      }
      for i := 0 to |blocked|
        invariant id !in blocked[..i]
      {
        if blocked[i] == id {
          return Some(id);
        }
        assert blocked[..i + 1] == blocked[..i] + [blocked[i]];
      }
      assert ready[..|ready|] == ready && blocked[..|blocked|] == blocked;
      r := None;
    }

    /** pet_thread_cleanup, on the new thread's stack. */
    method Cleanup(prev: Tid)
      modifies this
      ensures View() == SchedulerModel.Cleanup(old(View()), prev)
    {
      if prev in state && state[prev] == Stopped {
        state, waiters, receiver := state - {prev}, waiters - {prev}, receiver - {prev};
        freed := freed + [prev];
      }
    }

    /** __thread_invoker, which requires what it asserts, and the cleanup that the switched-to
        thread runs first. */
    method Invoke(tgt: Tid)
      requires tgt in state && running in state && tgt != running
      requires state[tgt] == Ready && state[running] != Ready
      modifies this
      ensures View() == SchedulerModel.Invoke(old(View()), tgt)
    {
      var prev := running;
      running := tgt;
      if tgt != MASTER {
        ready := Without(ready, tgt);
      }
      Requeue(prev);
      state := state[tgt := Running];
      assert View() == SwitchTo(old(View()), tgt);
      Cleanup(prev);
    }

    /** The switch in __thread_invoker: put the thread left where its state says. */
    method Requeue(prev: Tid)
      requires prev in state && state[prev] != Ready
      modifies this
      ensures var st := old(state[prev]);
              View() == old(View()).(state := old(state)[prev := if st == Running then Ready else st],
                                     ready := Joined(old(ready), prev, st == Running && prev != MASTER),
                                     blocked := Joined(old(blocked), prev, st == Blocked),
                                     stopped := if st == Stopped then Some(prev) else old(stopped))
    {
      if state[prev] == Running {
        if prev != MASTER {
          ready := ready + [prev];
        }
        state := state[prev := Ready];
      } else {
        assert state == state[prev := state[prev]];
        if state[prev] == Blocked {
          blocked := blocked + [prev];
        } else {
          stopped := Some(prev);
        }
      }
    }

    /** pet_thread_schedule. */
    method Schedule(ghost s: Sched, ghost st: RunState, ghost leaving: bool)
      requires View() == s && Core(s, st, leaving) && st != Ready && (leaving <==> st == Stopped)
      modifies this
      ensures View() == SchedulerModel.Schedule(s)
      ensures Hands(old(ready), if st == Running then Caller(s) else [], View())
    {
      ScheduleHands(s, st);
      if ready == [] {
        if running != MASTER {
          Invoke(MASTER);
        }
      } else {
        assert ready[0] in ready;
        Invoke(ready[0]);
      }
    }

    /** pet_thread_create: the id is new, and the thread is ready behind all others. */
    method Create() returns (id: Tid)
      requires Inv(View())
      modifies this
      ensures View() == SchedulerModel.Create(old(View())) && StepOk(old(View()), Make, View())
      ensures id !in old(state) && id !in freed && id in state && state[id] == Ready && waiters[id] == []
      ensures ready == old(ready) + [id] && running == old(running)
    {
      ghost var s := View();
      CreateStep(s, SchedulerModel.Create(s));
      CreateCore(s);
      id := AddThread();
    }

    method AddThread() returns (id: Tid)
      modifies this
      ensures View() == SchedulerModel.Create(old(View())) && id == old(count)
    {
      id := count;
      count := count + 1;
      state, waiters, receiver := state[id := Ready], waiters[id := []], receiver[id := 0];
      ready := ready + [id];
    }

    /** pet_thread_yield_to. */
    method YieldTo(id: Tid)
      requires Inv(View())
      modifies this
      ensures View() == SchedulerModel.YieldTo(old(View()), id) && StepOk(old(View()), Yield(id), View())
      ensures YieldsTo(old(View()), id, View())
    {
      YieldHands(View(), id);
      YieldStep(View(), id, SchedulerModel.YieldTo(View(), id));
      var tgt := Find(id);
      if tgt.None? || id !in state || state[id] != Ready {
        Schedule(View(), Running, false);
      } else {
        Invoke(id);
      }
    }

    /** pet_thread_join up to the switch; -1 if there is no such thread. */
    method Join(id: Tid) returns (r: int)
      requires Inv(View()) && Allowed(View(), JoinOn(id))
      modifies this
      ensures (View(), r) == SchedulerModel.Join(old(View()), id) && StepOk(old(View()), JoinOn(id), View())
      ensures r == (if id in old(state) then 0 else -1) && Dispatched(old(View()), JoinOn(id), View())
    {
      NextDispatches(View(), JoinOn(id));
      JoinStep(View(), id, SchedulerModel.Join(View(), id).0);
      FindsLive(View(), id);
      var thread := Find(id);
      if thread.None? {
        return -1;
      }
      assert state[running] == Running;
      ghost var s := SchedulerModel.Block(View(), id);
      BlockCore(View(), id, s);
      Block(id);
      Schedule(s, Blocked, false);
      r := 0;
    }

    method Block(id: Tid)
      requires id in waiters
      modifies this
      ensures View() == SchedulerModel.Block(old(View()), id)
    {
      state := state[running := Blocked];
      waiters := waiters[id := waiters[id] + [running]];
      joining := joining[running := id];
    }

    /** The rest of pet_thread_join, once the joiner runs again: it returns what its target left. */
    method Resumed() returns (value: int)
      requires Inv(View()) && running in joining
      modifies this
      ensures View() == FinishJoin(old(View())).0 && StepOk(old(View()), Resume, View())
      ensures old(joining[running]) in freed && old(joining[running]) in results
      ensures value == results[old(joining[running])]
    {
      ResumeStep(View(), FinishJoin(View()).0);
      assert running !in BlockedSet(state);
      value := receiver[running];
      joining := joining - {running};
    }

    /** pet_thread_exit, which is __quarantine. */
    method Exit(v: int)
      requires Inv(View()) && Allowed(View(), ExitWith(v))
      modifies this
      ensures View() == SchedulerModel.Exit(old(View()), v) && StepOk(old(View()), ExitWith(v), View())
      ensures Hands(old(ready) + old(waiters)[old(running)], [], View())
    {
      ExitHands(View(), v);
      ghost var s := View();
      ExitStep(s, v, SchedulerModel.Exit(s, v));
      Quarantine(v);
    }

    method Quarantine(v: int)
      requires CanExit(View())
      modifies this
      ensures View() == SchedulerModel.Exit(old(View()), v)
    {
      ghost var s := View().(results := results[running := v]);
      LeaveCore(View(), v);
      WakeAllCore(s, v);
      results := results[running := v];
      WakeWaiters(s, v);
      assert waiters[running] == [];
      Stop(WakeAll(s, v));
    }

    /** The end of __quarantine. */
    method Stop(ghost s: Sched)
      requires View() == s && Core(s, Running, true)
      modifies this
      ensures View() == SchedulerModel.Schedule(s.(state := s.state[s.running := Stopped]))
    {
      assert state[running] == Running;
      assert running != MASTER;
      StopCore(s);
      state := state[running := Stopped];
      Schedule(s.(state := s.state[s.running := Stopped]), Stopped, true);
    }

    /** Any call of the running thread. */
    method Perform(c: Call)
      requires Inv(View()) && Allowed(View(), c)
      modifies this
      ensures View() == Next(old(View()), c) && StepOk(old(View()), c, View()) && Dispatched(old(View()), c, View())
    {
      NextDispatches(View(), c);
      match c
      case Make => var _ := Create();
      case Pass =>
        PassStep(View(), SchedulerModel.Schedule(View()));
        Schedule(View(), Running, false);
      case Yield(id) => YieldTo(id);
      case JoinOn(id) => var _ := Join(id);
      case ExitWith(v) => Exit(v);
      case Resume => var _ := Resumed();
    }

    /** The loop of __quarantine over the exiting thread's waiters. */
    method WakeWaiters(ghost s: Sched, v: int)
      requires View() == s && Core(s, Running, true) && s.results[s.running] == v
      modifies this
      ensures View() == WakeAll(s, v) && running in waiters && waiters[running] == []
    {
      ghost var now := s;
      while waiters[running] != []
        invariant View() == now && Core(now, Running, true) && now.results[now.running] == v
        invariant WakeAll(now, v) == WakeAll(s, v)
        decreases |waiters[running]|
      {
        WakeCore(now, v);
        FirstAsleep(BlockedSet(now.state), now.waiters, now.receiver, now.joining, now.results, now.running);
        WakeFirst(v);
        now := Wake(now, v);
      }
    }

    /** One turn of the loop, which requires what it asserts. */
    method WakeFirst(v: int)
      requires running in waiters && waiters[running] != []
      requires var w := waiters[running][0]; w in state && state[w] == Blocked
      modifies this
      ensures View() == Wake(old(View()), v)
    {
      var w := waiters[running][0];
      receiver := receiver[w := v];
      state := state[w := Ready];
      blocked := Without(blocked, w);
      ready := ready + [w];
      waiters := waiters[running := waiters[running][1..]];
    }
  }

  /** The library from pet_thread_init through the calls of any run of the state machine is in the
      run's states, so that what holds of every run holds of its lists and records. */
  method Drive(calls: seq<Call>, ghost run: seq<Sched>) returns (lib: Library)
    requires Run(run, calls)
    ensures lib.View() == run[|calls|] && Accounted(lib.View())
    ensures Idle(lib.View()) ==> (lib.blocked == [] <==> !RingClosedBefore(run, calls, |calls|))
  {
    lib := new Library();
    for i := 0 to |calls|
      invariant fresh(lib) && lib.View() == run[i]
    {
      RunInv(run, calls, i);
      assert Steps(run, calls, i);
      lib.Perform(calls[i]);
    }
    OnePlaceEach(run, calls);
    if Idle(run[|calls|]) {
      Completion(run, calls, |calls|);
    }
  }

  ghost function Places(s: Sched, t: Tid): nat {
    multiset(s.ready)[t] + multiset(s.blocked)[t] + if t == s.running then 1 else 0
  }

  /** Every live thread but the master is in one place. */
  ghost predicate Accounted(s: Sched) {
    forall t :: t in s.state && t != MASTER ==> Places(s, t) == 1
  }

  lemma OnePlaceEach(run: seq<Sched>, calls: seq<Call>)
    requires Run(run, calls)
    ensures Accounted(run[|calls|])
  {
    forall t | t in run[|calls|].state && t != MASTER ensures Places(run[|calls|], t) == 1 {
      Partition(run, calls, |calls|, t);
    }
  }
}
