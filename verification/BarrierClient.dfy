/** The barrier test ex2_fn of sync_tools/driver.c: each thread repeatedly reads a shared
    counter, waits, adds one to it, and waits again. */
module BarrierClient {
  import opened Counting
  import B = Barrier

  /** did[t]: thread t has done its read (even rounds) or its add (odd rounds) since it last
      left the barrier. wrong[t]: some read of t did not see num_threads * i. */
  datatype State = State(bar: B.State, global: int, did: seq<bool>, wrong: seq<bool>)

  predicate Sized(s: State) {
    B.Sized(s.bar) && |s.did| == |s.wrong| == |s.bar.pcs|
  }

  predicate CanWork(s: State, t: nat) {
    Sized(s) && t < |s.did| && s.bar.pcs[t].Out? && s.bar.rounds[t] < s.bar.limit && !s.did[t]
  }

  /** Iteration i reads before its first wait, in round 2i, and adds before its second. */
  function Work(s: State, t: nat): State
    requires CanWork(s, t)
  {
    var r := s.bar.rounds[t];
    if r % 2 == 0 then
      s.(did := s.did[t := true], wrong := s.wrong[t := s.wrong[t] || s.global != s.bar.initCount * (r / 2)])
    else
      s.(did := s.did[t := true], global := s.global + 1)
  }

  predicate CanWait(s: State, t: nat) {
    Sized(s) && B.Enabled(s.bar, t) && (s.bar.pcs[t].Out? ==> s.did[t])
  }

  /** A step inside barrier_wait. */
  function Wait(s: State, t: nat): State
    requires CanWait(s, t)
  {
    var bar := B.Step(s.bar, t);
    s.(bar := bar, did := s.did[t := s.did[t] && bar.rounds[t] == s.bar.rounds[t]])
  }

  predicate Init(s: State) {
    && Sized(s) && B.Init(s.bar) && s.bar.limit % 2 == 0 && s.global == 0
    && forall t :: 0 <= t < |s.did| ==> !s.did[t] && !s.wrong[t]
  }

  ghost predicate Next(s: State, s': State) {
    || (exists t :: CanWork(s, t) && s' == Work(s, t))
    || (exists t :: CanWait(s, t) && s' == Wait(s, t))
  }

  ghost predicate Run(run: seq<State>) {
    && |run| > 0 && Init(run[0])
    && forall i :: 0 <= i < |run| - 1 ==> Next(run[i], run[i + 1])
  }

  /** Which threads have done their part of the present round. */
  function Done(s: State): (r: seq<bool>)
    requires Sized(s)
    ensures |r| == |s.did| && forall t :: 0 <= t < |r| ==> r[t] == (s.did[t] && s.bar.rounds[t] == s.bar.round)
  {
    seq(|s.did|, t requires 0 <= t < |s.did| && Sized(s) => s.did[t] && s.bar.rounds[t] == s.bar.round)
  }

  /** In even rounds nobody adds; in odd rounds each thread adds once. */
  ghost predicate Inv(s: State) {
    && Sized(s) && B.Inv(s.bar) && s.bar.limit % 2 == 0
    && (forall t :: 0 <= t < |s.did| ==> !s.wrong[t] && (!s.bar.pcs[t].Out? ==> s.did[t]))
    && s.global == s.bar.initCount * (s.bar.round / 2) + if s.bar.round % 2 == 1 then Count(Done(s)) else 0
  }

  lemma WorkInv(s: State, t: nat)
    requires Inv(s) && CanWork(s, t)
    ensures Inv(Work(s, t))
  {
    assert B.ThreadOk(s.bar, s.bar.pcs[t], s.bar.rounds[t]);
    assert Done(Work(s, t)) == Done(s)[t := true];
    CountUpdate(Done(s), t, true);
  }

  lemma WaitInv(s: State, t: nat)
    requires Inv(s) && CanWait(s, t)
    ensures Inv(Wait(s, t))
  {
    B.InvStep(s.bar, t);
    if s.bar.pcs[t].Store? {
      CloseInv(s, t);
    } else {
      assert B.ThreadOk(s.bar, s.bar.pcs[t], s.bar.rounds[t]);
      B.WrapNext(s.bar.rounds[t]);
      assert Done(Wait(s, t)) == Done(s);
    }
  }

  /** Closing a round: everyone has done their part of it and nobody that of the next. */
  lemma CloseInv(s: State, t: nat)
    requires Inv(s) && CanWait(s, t) && s.bar.pcs[t].Store?
    requires B.Inv(B.Step(s.bar, t))
    ensures Inv(Wait(s, t))
  {
    AllDone(s, t);
    NextHalf(s.bar.initCount, s.bar.round);
  }

  lemma AllDone(s: State, t: nat)
    requires Inv(s) && CanWait(s, t) && s.bar.pcs[t].Store?
    ensures Count(Done(s)) == |Done(s)| && Count(Done(Wait(s, t))) == 0
  {
    var s' := Wait(s, t);
    forall u | 0 <= u < |s.did| ensures Done(s)[u] && !Done(s')[u] {
      PartDone(s, t, u);
    }
    CountBounds(Done(s));
    CountBounds(Done(s'));
  }

  lemma PartDone(s: State, t: nat, u: nat)
    requires Inv(s) && CanWait(s, t) && s.bar.pcs[t].Store? && u < |s.did|
    ensures s.did[u] && s.bar.rounds[u] == s.bar.round
    ensures !Wait(s, t).did[u] || Wait(s, t).bar.rounds[u] != s.bar.round + 1
  {
    assert B.Leads(s.bar, s.bar.pcs[t]);
    assert B.Arrived(s.bar, u);
  }

  lemma NextHalf(n: nat, k: nat)
    ensures n * ((k + 1) / 2) == n * (k / 2) + if k % 2 == 1 then n else 0
  {
    if k % 2 == 1 {
      assert (k + 1) / 2 == k / 2 + 1;
      assert n * (k / 2 + 1) == n * (k / 2) + n;
    } else {
      assert (k + 1) / 2 == k / 2;
    }
  }

  lemma {:induction false} RunInv(run: seq<State>, i: nat)
    requires Run(run) && i < |run|
    ensures Inv(run[i])
  {
    if i == 0 {
      B.InvInit(run[0].bar);
    } else {
      RunInv(run, i - 1);
      var s, s' := run[i - 1], run[i];
      assert Next(s, s');
      if exists t :: CanWork(s, t) && s' == Work(s, t) {
        var t :| CanWork(s, t) && s' == Work(s, t);
        WorkInv(s, t);
      } else {
        var t :| CanWait(s, t) && s' == Wait(s, t);
        WaitInv(s, t);
      }
    }
  }

  /** However the threads interleave, every read in iteration i sees num_threads * i, and once
      all threads are done the counter is num_threads times the number of iterations. */
  lemma ReadsSeeProduct(run: seq<State>, i: nat, t: nat)
    requires Run(run) && i < |run| && t < |run[i].wrong|
    ensures Sized(run[i]) && !run[i].wrong[t]
    ensures CanWork(run[i], t) && run[i].bar.rounds[t] % 2 == 0
            ==> run[i].global == run[i].bar.initCount * (run[i].bar.rounds[t] / 2)
    ensures run[i].bar.rounds[t] == run[i].bar.limit && run[i].bar.pcs[t].Out?
            ==> run[i].global == run[i].bar.initCount * (run[i].bar.limit / 2)
  {
    RunInv(run, i);
    assert B.ThreadOk(run[i].bar, run[i].bar.pcs[t], run[i].bar.rounds[t]);
  }

  /** No deadlock on any run: until every thread has made all its waits, some thread can read, add
      or take a step of its wait that is not an idle turn of the spin loop. */
  lemma Progress(run: seq<State>, i: nat, t: nat)
    requires Run(run) && i < |run| && t < |run[i].bar.rounds| && run[i].bar.rounds[t] < run[i].bar.limit
    ensures exists u :: CanWork(run[i], u) || (CanWait(run[i], u) && !B.Spins(run[i].bar, u))
  {
    RunInv(run, i);
    B.ProgressFrom(run[i].bar, t);
    var u :| B.Enabled(run[i].bar, u) && !B.Spins(run[i].bar, u);
    assert CanWork(run[i], u) || CanWait(run[i], u);
  }
}
