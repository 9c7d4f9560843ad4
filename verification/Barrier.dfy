/** The counting barrier of sync_tools/locking.c as an interleaving of its threads, one step
    per load, store or atomic add. The iterations word is 32 bits wide and wraps. */
module Barrier {
  import opened Counting

  /** Where a thread stands in barrier_wait. */
  datatype Pc =
    | Out                              // not waiting
    | Loaded(my: nat)                  // about to add 1 to cur_count
    | Counted(my: nat, prev: nat)      // about to compare prev with init_count - 1
    | Reset                            // about to store 0 to cur_count
    | Bump                             // about to load iterations for iterations++
    | Store(r: nat)                    // about to store r + 1 to iterations
    | Spin(my: nat)                    // re-reading iterations until it is my + 1

  /** The three words of struct barrier, the threads, and bookkeeping that no thread reads:
      how many waits each thread has completed, how many rounds have completed, and how many
      waits each thread will make. */
  datatype State = State(iterations: nat, curCount: nat, initCount: nat, pcs: seq<Pc>,
                         rounds: seq<nat>, round: nat, limit: nat)

  function Wrap(x: nat): nat {
    x % 0x1_0000_0000
  }

  lemma WrapNext(k: nat)
    ensures Wrap(Wrap(k) + 1) == Wrap(k + 1) && Wrap(k) != Wrap(k + 1)
  {
  }

  predicate Sized(s: State) {
    |s.pcs| == |s.rounds| == s.initCount
  }

  /** Thread t takes a step; one that is out of the barrier enters only if it has waits left. */
  predicate Enabled(s: State, t: nat) {
    Sized(s) && t < |s.pcs| && (s.pcs[t].Out? ==> s.rounds[t] < s.limit)
  }

  function At(s: State, t: nat, pc: Pc): State
    requires t < |s.pcs|
  {
    s.(pcs := s.pcs[t := pc])
  }

  function Leave(s: State, t: nat): State
    requires t < |s.pcs| && t < |s.rounds|
  {
    s.(pcs := s.pcs[t := Out], rounds := s.rounds[t := s.rounds[t] + 1])
  }

  function Step(s: State, t: nat): State
    requires Enabled(s, t)
  {
    match s.pcs[t]
    case Out => At(s, t, Loaded(s.iterations))
    case Loaded(my) => At(s, t, Counted(my, s.curCount)).(curCount := s.curCount + 1)
    case Counted(my, prev) => At(s, t, if prev == s.initCount - 1 then Reset else Spin(my))
    case Reset => At(s, t, Bump).(curCount := 0)
    case Bump => At(s, t, Store(s.iterations))
    case Store(r) => Leave(s, t).(iterations := Wrap(r + 1), round := s.round + 1)
    case Spin(my) => if s.iterations == Wrap(my + 1) then Leave(s, t) else s
  }

  /** barrier_init, with init_count threads yet to enter. */
  predicate Init(s: State) {
    && Sized(s) && s.initCount > 0
    && s.iterations == 0 && s.curCount == 0 && s.round == 0
    && (forall t :: 0 <= t < |s.pcs| ==> s.pcs[t] == Out && s.rounds[t] == 0)
  }

  ghost predicate Next(s: State, s': State) {
    exists t :: Enabled(s, t) && s' == Step(s, t)
  }

  ghost predicate Run(run: seq<State>) {
    && |run| > 0 && Init(run[0])
    && forall i :: 0 <= i < |run| - 1 ==> Next(run[i], run[i + 1])
  }

  // ---- The invariant --------------------------------------------------------------------

  /** The thread has added itself to the count of its present round. */
  predicate Inside(pc: Pc) {
    pc.Counted? || pc.Reset? || pc.Bump? || pc.Store? || pc.Spin?
  }

  /** The thread is the last arrival of the round and is closing it. */
  predicate Leads(s: State, pc: Pc) {
    (pc.Counted? && pc.prev == s.initCount - 1) || pc.Reset? || pc.Bump? || pc.Store?
  }

  predicate HasReset(pc: Pc) {
    pc.Bump? || pc.Store?
  }

  predicate Arrived(s: State, t: nat)
    requires t < |s.pcs| == |s.rounds|
  {
    s.rounds[t] == s.round && Inside(s.pcs[t])
  }

  function Arrivals(s: State): (r: seq<bool>)
    requires Sized(s)
    ensures |r| == |s.pcs| && forall t :: 0 <= t < |r| ==> r[t] == Arrived(s, t)
  {
    seq(|s.pcs|, t requires 0 <= t < |s.pcs| && Sized(s) => Arrived(s, t))
  }

  predicate ThreadOk(s: State, pc: Pc, r: nat) {
    && (!pc.Out? ==> r < s.limit)
    && match pc
       case Out => r == s.round
       case Loaded(my) => r == s.round && my == Wrap(r)
       case Counted(my, prev) => (r == s.round || (r + 1 == s.round && prev < s.initCount - 1)) && my == Wrap(r) &&
         prev < s.initCount
       case Reset => r == s.round
       case Bump => r == s.round
       case Store(x) => r == s.round && x == Wrap(r)
       case Spin(my) => (r == s.round || r + 1 == s.round) && my == Wrap(r)
  }

  ghost predicate Inv(s: State) {
    && Sized(s) && s.initCount > 0 && s.iterations == Wrap(s.round)
    && (forall t :: 0 <= t < |s.pcs| ==> ThreadOk(s, s.pcs[t], s.rounds[t]))
    && LeaderInv(s) && CountInv(s)
  }

  /** There is a leader exactly when everyone has arrived, and never two. */
  ghost predicate LeaderInv(s: State)
    requires Sized(s)
  {
    && (forall t, u :: 0 <= t < |s.pcs| && 0 <= u < |s.pcs| && Leads(s, s.pcs[t]) ==> Arrived(s, u))
    && (forall t, u :: 0 <= t < u < |s.pcs| ==> !(Leads(s, s.pcs[t]) && Leads(s, s.pcs[u])))
    && ((forall u :: 0 <= u < |s.pcs| ==> Arrived(s, u)) ==> exists t :: 0 <= t < |s.pcs| && Leads(s, s.pcs[t]))
  }

  ghost predicate CountInv(s: State)
    requires Sized(s)
  {
    && (forall t :: 0 <= t < |s.pcs| && HasReset(s.pcs[t]) ==> s.curCount == 0)
    && ((forall t :: 0 <= t < |s.pcs| ==> !HasReset(s.pcs[t])) ==> s.curCount == Count(Arrivals(s)))
  }

  // ---- Steps keep the invariant ---------------------------------------------------------

  lemma InvStep(s: State, t: nat)
    requires Inv(s) && Enabled(s, t)
    ensures Inv(Step(s, t))
  {
    var pc := s.pcs[t];
    assert ThreadOk(s, pc, s.rounds[t]);
    WrapNext(s.rounds[t]);
    match pc {
      case Loaded(my) => ArriveInv(s, t);
      case Store(r) => CloseInv(s, t);
      case _ => InsideInv(s, t);
    }
  }

  /** Steps that neither join nor close a round. */
  lemma InsideInv(s: State, t: nat)
    requires Inv(s) && Enabled(s, t) && !s.pcs[t].Loaded? && !s.pcs[t].Store?
    ensures Inv(Step(s, t))
  {
    var s' := Step(s, t);
    forall u | 0 <= u < |s.pcs|
      ensures ThreadOk(s', s'.pcs[u], s'.rounds[u])
      ensures Arrived(s', u) == Arrived(s, u) && Leads(s', s'.pcs[u]) == Leads(s, s.pcs[u])
    {
      InsideThread(s, t, u);
    }
    SameRound(s, s');
    InsideCount(s, t);
  }

  lemma InsideThread(s: State, t: nat, u: nat)
    requires Inv(s) && Enabled(s, t) && !s.pcs[t].Loaded? && !s.pcs[t].Store? && u < |s.pcs|
    ensures var s' := Step(s, t);
            && ThreadOk(s', s'.pcs[u], s'.rounds[u])
            && Arrived(s', u) == Arrived(s, u) && Leads(s', s'.pcs[u]) == Leads(s, s.pcs[u])
  {
    assert ThreadOk(s, s.pcs[t], s.rounds[t]) && ThreadOk(s, s.pcs[u], s.rounds[u]);
    WrapNext(s.rounds[t]);
  }

  lemma InsideCount(s: State, t: nat)
    requires Inv(s) && Enabled(s, t) && !s.pcs[t].Loaded? && !s.pcs[t].Store?
    requires Arrivals(Step(s, t)) == Arrivals(s)
    ensures CountInv(Step(s, t))
  {
    var s' := Step(s, t);
    if !s.pcs[t].Reset? {
      assert HasReset(s'.pcs[t]) == HasReset(s.pcs[t]);
      assert forall u :: 0 <= u < |s.pcs| ==> HasReset(s'.pcs[u]) == HasReset(s.pcs[u]);
    } else {
      assert HasReset(s'.pcs[t]);
    }
  }

  lemma SameRound(s: State, s': State)
    requires Sized(s) && Sized(s') && |s'.pcs| == |s.pcs| && LeaderInv(s)
    requires forall u :: 0 <= u < |s.pcs| ==> Arrived(s', u) == Arrived(s, u)
    requires forall u :: 0 <= u < |s.pcs| ==> Leads(s', s'.pcs[u]) == Leads(s, s.pcs[u])
    ensures LeaderInv(s') && Arrivals(s') == Arrivals(s)
  {
    if forall u :: 0 <= u < |s'.pcs| ==> Arrived(s', u) {
      assert forall u :: 0 <= u < |s.pcs| ==> Arrived(s, u);
      var t :| 0 <= t < |s.pcs| && Leads(s, s.pcs[t]);
      assert Leads(s', s'.pcs[t]);
    }
  }

  lemma ArriveInv(s: State, t: nat)
    requires Inv(s) && Enabled(s, t) && s.pcs[t].Loaded?
    ensures Inv(Step(s, t))
  {
    var s' := Step(s, t);
    assert ThreadOk(s, s.pcs[t], s.rounds[t]);
    assert forall u :: 0 <= u < |s.pcs| ==> !Leads(s, s.pcs[u]) by {
      assert !Arrived(s, t);
    }
    assert forall u :: 0 <= u < |s.pcs| ==> !HasReset(s'.pcs[u]);
    assert Arrivals(s') == Arrivals(s)[t := true];
    CountUpdate(Arrivals(s), t, true);
    CountBounds(Arrivals(s));
    CountBounds(Arrivals(s'));
    LastArrival(s', t);
  }

  /** If nobody else leads and t leads exactly when the count is full, the leader is right. */
  lemma LastArrival(s: State, t: nat)
    requires Sized(s) && t < |s.pcs|
    requires forall u :: 0 <= u < |s.pcs| && u != t ==> !Leads(s, s.pcs[u])
    requires Leads(s, s.pcs[t]) <==> Count(Arrivals(s)) == s.initCount
    ensures LeaderInv(s)
  {
    CountBounds(Arrivals(s));
    if forall u :: 0 <= u < |s.pcs| ==> Arrived(s, u) {
      assert Leads(s, s.pcs[t]);
    } else {
      var u :| 0 <= u < |s.pcs| && !Arrived(s, u);
      assert !Arrivals(s)[u];
    }
  }

  lemma CloseInv(s: State, t: nat)
    requires Inv(s) && Enabled(s, t) && s.pcs[t].Store?
    ensures Inv(Step(s, t))
  {
    var s' := Step(s, t);
    WrapNext(s.round);
    assert ThreadOk(s, s.pcs[t], s.rounds[t]);
    forall u | 0 <= u < |s.pcs| ensures ThreadOk(s', s'.pcs[u], s'.rounds[u]) && !Arrived(s', u) &&
      !Leads(s', s'.pcs[u]) {
      assert Arrived(s, u) && ThreadOk(s, s.pcs[u], s.rounds[u]);
    }
    CountBounds(Arrivals(s'));
    assert !Arrived(s', t);
  }

  lemma InvInit(s: State)
    requires Init(s)
    ensures Inv(s)
  {
    assert !Arrived(s, 0);
    CountBounds(Arrivals(s));
  }

  lemma {:induction false} RunInv(run: seq<State>, i: nat)
    requires Run(run) && i < |run|
    ensures Inv(run[i])
  {
    if i == 0 {
      InvInit(run[0]);
    } else {
      RunInv(run, i - 1);
      assert Next(run[i - 1], run[i]);
      var t :| Enabled(run[i - 1], t) && run[i] == Step(run[i - 1], t);
      InvStep(run[i - 1], t);
    }
  }

  // ---- What the barrier promises --------------------------------------------------------

  /** On every run: no thread has left round r before every thread has arrived in it. */
  lemma NoEarlyLeave(run: seq<State>, i: nat, t: nat, u: nat, r: nat)
    requires Run(run) && i < |run| && t < |run[i].pcs| && u < |run[i].pcs|
    ensures Sized(run[i])
    ensures run[i].rounds[t] > r ==> run[i].rounds[u] > r || (run[i].rounds[u] == r && Inside(run[i].pcs[u]))
  {
    RunInv(run, i);
    var s := run[i];
    assert ThreadOk(s, s.pcs[t], s.rounds[t]) && ThreadOk(s, s.pcs[u], s.rounds[u]);
  }

  /** On every run: the threads' rounds never differ by more than one. */
  lemma InStep(run: seq<State>, i: nat, t: nat, u: nat)
    requires Run(run) && i < |run| && t < |run[i].pcs| && u < |run[i].pcs|
    ensures Sized(run[i]) && run[i].rounds[t] <= run[i].rounds[u] + 1
  {
    RunInv(run, i);
    var s := run[i];
    assert ThreadOk(s, s.pcs[t], s.rounds[t]) && ThreadOk(s, s.pcs[u], s.rounds[u]);
  }

  /** On every run: no waiter misses its window. It may leave exactly when its round has closed,
      and until it does leave the next round cannot close. */
  lemma NoMissedWindow(run: seq<State>, i: nat, t: nat, u: nat)
    requires Run(run) && i < |run| && t < |run[i].pcs| && run[i].pcs[t].Spin? && u < |run[i].pcs|
    ensures Sized(run[i])
    ensures run[i].iterations == Wrap(run[i].pcs[t].my + 1) <==> run[i].rounds[t] < run[i].round
    ensures run[i].rounds[t] < run[i].round ==> !Leads(run[i], run[i].pcs[u])
  {
    RunInv(run, i);
    var s := run[i];
    assert ThreadOk(s, s.pcs[t], s.rounds[t]);
    WrapNext(s.rounds[t]);
    assert !Arrived(s, t) ==> !Leads(s, s.pcs[u]);
  }

  /** The step would change nothing: the thread spins. */
  predicate Spins(s: State, t: nat)
    requires t < |s.pcs|
  {
    s.pcs[t].Spin? && s.iterations != Wrap(s.pcs[t].my + 1)
  }

  /** No deadlock on any run: until every thread has made all its waits, some thread can take a
      step that is not an idle turn of the spin loop. */
  lemma Progress(run: seq<State>, i: nat, t: nat)
    requires Run(run) && i < |run| && t < |run[i].rounds| && run[i].rounds[t] < run[i].limit
    ensures exists u :: Enabled(run[i], u) && !Spins(run[i], u)
  {
    RunInv(run, i);
    ProgressFrom(run[i], t);
  }

  lemma ProgressFrom(s: State, t: nat)
    requires Inv(s) && t < |s.pcs| && s.rounds[t] < s.limit
    ensures exists u :: Enabled(s, u) && !Spins(s, u)
  {
    if !Spins(s, t) {
      assert Enabled(s, t) && !Spins(s, t);
    } else if forall u :: 0 <= u < |s.pcs| ==> Arrived(s, u) {
      var u :| 0 <= u < |s.pcs| && Leads(s, s.pcs[u]);
      assert Enabled(s, u) && !Spins(s, u);
    } else {
      var u :| 0 <= u < |s.pcs| && !Arrived(s, u);
      assert ThreadOk(s, s.pcs[t], s.rounds[t]) && ThreadOk(s, s.pcs[u], s.rounds[u]);
      WrapNext(s.rounds[t]);
      WrapNext(s.rounds[u]);
      assert Enabled(s, u) && !Spins(s, u);
    }
  }

  // ---- How many steps it takes ----------------------------------------------------------

  /** The steps a thread has taken in its present wait, spinning apart. */
  function Taken(pc: Pc): nat {
    match pc
    case Out => 0
    case Loaded(_) => 1
    case Counted(_, _) => 2
    case Reset => 3
    case Spin(_) => 3
    case Bump => 4
    case Store(_) => 5
  }

  /** Four steps for a wait. */
  function Weights(s: State): (ws: seq<nat>)
    requires Sized(s)
    ensures |ws| == |s.pcs| && forall t :: 0 <= t < |ws| ==> ws[t] == 4 * s.rounds[t] + Taken(s.pcs[t])
  {
    seq(|s.pcs|, t requires 0 <= t < |s.pcs| && Sized(s) => 4 * s.rounds[t] + Taken(s.pcs[t]))
  }

  /** The leader of a round takes two steps more. */
  function Effort(s: State): nat
    requires Sized(s)
  {
    Sum(Weights(s)) + 2 * s.round
  }

  lemma WeightStep(s: State, t: nat)
    requires Enabled(s, t)
    ensures var s' := Step(s, t);
            4 * s'.rounds[t] + Taken(s'.pcs[t]) + 2 * s'.round ==
            4 * s.rounds[t] + Taken(s.pcs[t]) + 2 * s.round + if Spins(s, t) then 0 else 1
  {
  }

  lemma OthersStay(s: State, t: nat)
    requires Enabled(s, t)
    ensures Sized(Step(s, t)) && Weights(Step(s, t)) == Weights(s)[t := Weights(Step(s, t))[t]]
  {
  }

  lemma EffortStep(s: State, t: nat)
    requires Enabled(s, t)
    ensures Effort(Step(s, t)) == Effort(s) + if Step(s, t) == s then 0 else 1
    ensures Step(s, t) == s <==> Spins(s, t)
  {
    var s' := Step(s, t);
    WeightStep(s, t);
    OthersStay(s, t);
    SumUpdate(Weights(s), t, Weights(s')[t]);
  }

  /** Nobody makes more waits than it is to make. */
  predicate Within(s: State) {
    s.round <= s.limit && forall t :: 0 <= t < |s.rounds| ==> s.rounds[t] <= s.limit
  }

  lemma WithinStep(s: State, t: nat)
    requires Inv(s) && Within(s) && Enabled(s, t)
    ensures Within(Step(s, t))
  {
    assert ThreadOk(s, s.pcs[t], s.rounds[t]);
  }

  /** limit rounds of n threads: 4 steps for each thread and 2 more. */
  function Total(n: nat, limit: nat): nat {
    n * (4 * limit) + 2 * limit
  }

  lemma WeightBound(s: State, t: nat)
    requires Inv(s) && Within(s) && t < |s.pcs|
    ensures Weights(s)[t] <= 4 * s.limit + if s.pcs[t].Store? then 1 else 0
    ensures s.pcs[t].Store? ==> s.round < s.limit && forall u :: 0 <= u < |s.pcs| && u != t ==> !s.pcs[u].Store?
  {
    assert ThreadOk(s, s.pcs[t], s.rounds[t]);
    if s.pcs[t].Store? {
      assert Leads(s, s.pcs[t]);
    }
  }

  lemma EffortBound(s: State)
    requires Inv(s) && Within(s)
    ensures Effort(s) <= Total(s.initCount, s.limit)
  {
    var ws := Weights(s);
    forall t | 0 <= t < |ws| ensures ws[t] <= 4 * s.limit + if s.pcs[t].Store? then 1 else 0 {
      WeightBound(s, t);
    }
    if t :| 0 <= t < |ws| && s.pcs[t].Store? {
      WeightBound(s, t);
      SumUpdate(ws, t, ws[t] - 1);
      SumUpper(ws[t := ws[t] - 1], 4 * s.limit);
    } else {
      SumUpper(ws, 4 * s.limit);
    }
  }

  lemma AllWaitsMade(s: State)
    requires Inv(s) && forall t :: 0 <= t < |s.rounds| ==> s.rounds[t] == s.limit
    ensures Effort(s) == Total(s.initCount, s.limit)
  {
    forall t | 0 <= t < |s.pcs| ensures Weights(s)[t] == 4 * s.limit && s.round == s.limit {
      assert ThreadOk(s, s.pcs[t], s.rounds[t]);
    }
    assert Weights(s)[0] == 4 * s.limit;
    SumSame(Weights(s), 4 * s.limit);
  }

  lemma SomeWaitLeft(s: State, t: nat)
    requires Inv(s) && Within(s) && t < |s.rounds| && s.rounds[t] < s.limit
    ensures Effort(s) < Total(s.initCount, s.limit)
  {
    ProgressFrom(s, t);
    var u :| Enabled(s, u) && !Spins(s, u);
    EffortStep(s, u);
    InvStep(s, u);
    WithinStep(s, u);
    EffortBound(Step(s, u));
  }

  /** The steps of a run that change anything. */
  ghost function Moves(run: seq<State>, i: nat): nat
    requires i < |run|
  {
    if i == 0 then 0 else Moves(run, i - 1) + if run[i - 1] == run[i] then 0 else 1
  }

  lemma EffortNext(s: State, s': State)
    requires Inv(s) && Within(s) && Next(s, s')
    ensures Sized(s') && Within(s') && s'.initCount == s.initCount && s'.limit == s.limit
    ensures Effort(s') == Effort(s) + if s' == s then 0 else 1
  {
    var t :| Enabled(s, t) && s' == Step(s, t);
    WithinStep(s, t);
    EffortStep(s, t);
  }

  lemma {:induction false} MovesAreEffort(run: seq<State>, i: nat)
    requires Run(run) && i < |run|
    ensures Inv(run[i]) && Within(run[i]) && Moves(run, i) == Effort(run[i])
    ensures run[i].initCount == run[0].initCount && run[i].limit == run[0].limit
  {
    RunInv(run, i);
    if i == 0 {
      SumSame(Weights(run[0]), 0);
    } else {
      MovesAreEffort(run, i - 1);
      assert Next(run[i - 1], run[i]);
      EffortNext(run[i - 1], run[i]);
    }
  }

  /** On every run of n threads that make limit waits each: spinning apart, the threads take at
      most (4 n + 2) limit steps, and when they have taken so many, and not before, all waits
      are made. */
  lemma Bounded(run: seq<State>, i: nat)
    requires Run(run) && i < |run|
    ensures Moves(run, i) <= Total(run[0].initCount, run[0].limit)
    ensures Moves(run, i) == Total(run[0].initCount, run[0].limit) <==>
            forall t :: 0 <= t < |run[i].rounds| ==> run[i].rounds[t] == run[i].limit
  {
    MovesAreEffort(run, i);
    EffortBound(run[i]);
    if forall t :: 0 <= t < |run[i].rounds| ==> run[i].rounds[t] == run[i].limit {
      AllWaitsMade(run[i]);
    } else {
      var t :| 0 <= t < |run[i].rounds| && run[i].rounds[t] != run[i].limit;
      SomeWaitLeft(run[i], t);
    }
  }
}
