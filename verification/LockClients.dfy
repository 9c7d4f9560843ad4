/** The lock tests of sync_tools/driver.c: ex3_fn increments a counter under the spinlock, and
    ex4_read_fn / ex4_write_fn share one under the reader/writer lock. */
module LockClients {
  import opened Counting
  import L = RwLock

  // ---- ex3_fn ---------------------------------------------------------------------------

  datatype SpinPc =
    | Want            // spinlock_lock: CAS(&free, 1, 0)
    | Fetch           // load global_value
    | Put(r: int)     // store r + 1
    | Unlock          // free = 1

  /** done[t]: increments thread t has stored. */
  datatype Spin = Spin(free: int, global: int, pcs: seq<SpinPc>, done: seq<nat>)

  function SpinStep(s: Spin, t: nat): Spin
    requires t < |s.pcs| == |s.done|
  {
    match s.pcs[t]
    case Want => if s.free == 1 then s.(free := 0, pcs := s.pcs[t := Fetch]) else s
    case Fetch => s.(pcs := s.pcs[t := Put(s.global)])
    case Put(r) => s.(global := r + 1, pcs := s.pcs[t := Unlock], done := s.done[t := s.done[t] + 1])
    case Unlock => s.(free := 1, pcs := s.pcs[t := Want])
  }

  function Inside(pcs: seq<SpinPc>): (r: seq<bool>)
    ensures |r| == |pcs| && forall t :: 0 <= t < |r| ==> r[t] == !pcs[t].Want?
  {
    seq(|pcs|, t requires 0 <= t < |pcs| => !pcs[t].Want?)
  }

  ghost predicate SpinInv(s: Spin) {
    && |s.pcs| == |s.done| && s.free >= 0
    && Count(Inside(s.pcs)) + s.free == 1
    && s.global == Sum(s.done)
    && forall t :: 0 <= t < |s.pcs| && s.pcs[t].Put? ==> s.pcs[t].r == s.global
  }

  lemma SpinInvStep(s: Spin, t: nat)
    requires SpinInv(s) && t < |s.pcs|
    ensures SpinInv(SpinStep(s, t))
  {
    var s' := SpinStep(s, t);
    assert s'.pcs == s.pcs[t := s'.pcs[t]];
    assert Inside(s'.pcs) == Inside(s.pcs)[t := !s'.pcs[t].Want?];
    CountUpdate(Inside(s.pcs), t, !s'.pcs[t].Want?);
    CountBounds(Inside(s.pcs));
    if s.pcs[t].Put? {
      SumUpdate(s.done, t, s.done[t] + 1);
      forall u | 0 <= u < |s.pcs| && u != t ensures s.pcs[u].Want? {
        if !s.pcs[u].Want? {
          CountOne(Inside(s.pcs), if t < u then t else u, if t < u then u else t);
        }
      }
    }
  }

  predicate SpinInit(s: Spin) {
    && s.free == 1 && s.global == 0 && |s.pcs| == |s.done|
    && forall t :: 0 <= t < |s.pcs| ==> s.pcs[t] == Want && s.done[t] == 0
  }

  ghost predicate SpinRun(run: seq<Spin>) {
    && |run| > 0 && SpinInit(run[0])
    && forall i :: 0 <= i < |run| - 1 ==> SpinNext(run[i], run[i + 1])
  }

  ghost predicate SpinNext(s: Spin, s': Spin) {
    |s.pcs| == |s.done| && exists t: nat :: t < |s.pcs| && s' == SpinStep(s, t)
  }

  /** No increment is lost: the counter is always the number of increments stored, although
      each increment is a separate load and store. */
  lemma {:induction false} NoLostUpdate(run: seq<Spin>, i: nat)
    requires SpinRun(run) && i < |run|
    ensures SpinInv(run[i]) && run[i].global == Sum(run[i].done)
  {
    if i == 0 {
      SumSame(run[0].done, 0);
      CountBounds(Inside(run[0].pcs));
    } else {
      NoLostUpdate(run, i - 1);
      var s, s' := run[i - 1], run[i];
      assert SpinNext(s, s');
      var t: nat :| t < |s.pcs| && s' == SpinStep(s, t);
      SpinInvStep(s, t);
    }
  }

  /** The spinlock excludes: on every run at most one thread is between lock and unlock. */
  lemma SpinExcludes(run: seq<Spin>, i: nat, t: nat, u: nat)
    requires SpinRun(run) && i < |run| && t < u < |run[i].pcs|
    ensures run[i].pcs[t].Want? || run[i].pcs[u].Want?
  {
    NoLostUpdate(run, i);
    if !run[i].pcs[t].Want? && !run[i].pcs[u].Want? {
      CountOne(Inside(run[i].pcs), t, u);
    }
  }

  /** No deadlock: on every run some thread's next step is not an idle turn of the spin loop. */
  lemma SpinProgress(run: seq<Spin>, i: nat)
    requires SpinRun(run) && i < |run| && |run[i].pcs| > 0
    ensures |run[i].done| == |run[i].pcs| && exists t :: 0 <= t < |run[i].pcs| && SpinStep(run[i], t) != run[i]
  {
    NoLostUpdate(run, i);
    var s := run[i];
    CountBounds(Inside(s.pcs));
    var t := 0;
    if s.free != 1 {
      t :| 0 <= t < |s.pcs| && Inside(s.pcs)[t];
    }
    assert SpinStep(s, t).pcs[t] != s.pcs[t];
  }

  // ---- ex4_read_fn and ex4_write_fn -----------------------------------------------------

  /** Thread w writes, the others read. Inside its section the writer stores 0 (phase 0),
      loads the value back (phase 1), and stores it plus the iteration number (phase 2).
      prev[t] is the last value reader t took; wrong[t] records a value going backwards. */
  datatype Shared = Shared(lock: L.State, global: int, w: nat, phase: nat, loaded: int, iter: nat,
                           prev: seq<int>, wrong: seq<bool>)

  datatype Action = LockStep | Compare | Take | Write

  predicate CanAct(s: Shared, t: nat, a: Action) {
    && t < |s.lock.pcs| == |s.prev| == |s.wrong|
    && match a
       case LockStep => t == s.w && s.lock.pcs[t].Writing? ==> s.phase == 3
       case Compare => t != s.w && s.lock.pcs[t].Reading?
       case Take => t != s.w && s.lock.pcs[t].Reading?
       case Write => t == s.w && s.lock.pcs[t].Writing? && s.phase < 3
  }

  function Act(s: Shared, t: nat, a: Action): Shared
    requires CanAct(s, t, a)
  {
    match a
    case LockStep =>
      var lock := L.Step(s.lock, t, t == s.w);
      if s.lock.pcs[t].Writing? then s.(lock := lock, phase := 0, iter := s.iter + 1) else s.(lock := lock)
    case Compare => s.(wrong := s.wrong[t := s.wrong[t] || s.prev[t] > s.global])
    case Take => s.(prev := s.prev[t := s.global])
    case Write =>
      if s.phase == 0 then s.(global := 0, phase := 1)
      else if s.phase == 1 then s.(loaded := s.global, phase := 2)
      else s.(global := s.loaded + s.iter, phase := 3)
  }

  predicate SharedInit(s: Shared) {
    && L.Init(s.lock) && |s.lock.pcs| == |s.prev| == |s.wrong| && s.w < |s.prev|
    && s.global == 0 && s.phase == 0 && s.iter == 0
    && forall t :: 0 <= t < |s.prev| ==> s.prev[t] == 0 && !s.wrong[t]
  }

  ghost predicate SharedNext(s: Shared, s': Shared) {
    exists t, a :: CanAct(s, t, a) && s' == Act(s, t, a)
  }

  ghost predicate SharedRun(run: seq<Shared>) {
    && |run| > 0 && SharedInit(run[0])
    && forall i :: 0 <= i < |run| - 1 ==> SharedNext(run[i], run[i + 1])
  }

  /** The value the last finished write section left. */
  function Settled(s: Shared): int {
    if s.iter == 0 then 0 else s.iter - 1
  }

  predicate ReaderPc(pc: L.Pc) {
    pc.Idle? || pc.R0? || pc.R1? || pc.R2? || pc.R3? || pc.Reading?
  }

  ghost predicate SharedInv(s: Shared) {
    && L.Inv(s.lock) && s.w < |s.lock.pcs| == |s.prev| == |s.wrong|
    && (forall t :: 0 <= t < |s.prev| && t != s.w ==> ReaderPc(s.lock.pcs[t]))
    && (ReaderPc(s.lock.pcs[s.w]) ==> s.lock.pcs[s.w].Idle?)
    && s.phase <= 3 && (s.phase > 0 ==> s.lock.pcs[s.w].Writing?)
    && s.global == (if s.phase == 0 then Settled(s) else if s.phase < 3 then 0 else s.iter)
    && (s.phase == 2 ==> s.loaded == 0)
    && forall t :: 0 <= t < |s.prev| && t != s.w ==> s.prev[t] <= Settled(s) && !s.wrong[t]
  }

  /** A reader in its section finds no write under way. */
  lemma NoWriteUnderWay(s: Shared, t: nat)
    requires SharedInv(s) && t < |s.prev| && t != s.w && s.lock.pcs[t].Reading?
    ensures s.phase == 0
  {
    CountBounds(L.Readers(s.lock.pcs));
    CountBounds(L.Writers(s.lock.pcs));
    assert L.Readers(s.lock.pcs)[t];
    assert L.Writers(s.lock.pcs)[s.w] == L.WriteSide(s.lock.pcs[s.w]);
  }

  /** Readers stay on the reading side of the lock and the writer on the writing side. */
  lemma SidesKept(s: Shared, t: nat)
    requires SharedInv(s) && CanAct(s, t, LockStep)
    ensures var pcs := L.Step(s.lock, t, t == s.w).pcs;
            && |pcs| == |s.lock.pcs|
            && (forall u :: 0 <= u < |pcs| && u != s.w ==> ReaderPc(pcs[u]))
            && (ReaderPc(pcs[s.w]) ==> pcs[s.w].Idle?)
            && (s.lock.pcs[s.w].Writing? && t != s.w ==> pcs[s.w].Writing?)
  {
    assert t != s.w ==> ReaderPc(s.lock.pcs[t]);
  }

  lemma SharedInvStep(s: Shared, t: nat, a: Action)
    requires SharedInv(s) && CanAct(s, t, a)
    ensures SharedInv(Act(s, t, a))
  {
    match a {
      case LockStep =>
        L.InvStep(s.lock, t, t == s.w);
        SidesKept(s, t);
      case Compare => NoWriteUnderWay(s, t);
      case Take => NoWriteUnderWay(s, t);
      case Write =>
    }
  }

  lemma SharedInvInit(s: Shared)
    requires SharedInit(s)
    ensures SharedInv(s)
  {
    CountBounds(L.Holders(s.lock.pcs));
    CountBounds(L.Readers(s.lock.pcs));
    CountBounds(L.Writers(s.lock.pcs));
  }

  lemma {:induction false} SharedRunInv(run: seq<Shared>, i: nat)
    requires SharedRun(run) && i < |run|
    ensures SharedInv(run[i])
  {
    if i == 0 {
      SharedInvInit(run[0]);
    } else {
      SharedRunInv(run, i - 1);
      var s, s' := run[i - 1], run[i];
      assert SharedNext(s, s');
      var t, a :| CanAct(s, t, a) && s' == Act(s, t, a);
      SharedInvStep(s, t, a);
    }
  }

  /** On every run readers see the counter never go backwards, although the writer resets it to
      0 in the middle of each section: what a reader in its section finds is the number of the
      last iteration finished, at least what it took before, and no comparison has failed. */
  lemma NeverBackwards(run: seq<Shared>, i: nat, t: nat)
    requires SharedRun(run) && i < |run| && t < |run[i].lock.pcs| && t != run[i].w
    ensures |run[i].lock.pcs| == |run[i].prev| == |run[i].wrong| && !run[i].wrong[t]
    ensures run[i].lock.pcs[t].Reading? ==> run[i].prev[t] <= run[i].global == Settled(run[i])
  {
    SharedRunInv(run, i);
    if run[i].lock.pcs[t].Reading? {
      NoWriteUnderWay(run[i], t);
    }
  }

  /** No deadlock: an idle thread can always go on, and while some thread is in the lock, some
      thread in it can do something that is not a fruitless turn of a wait loop. */
  lemma SharedProgress(run: seq<Shared>, i: nat, t: nat)
    requires SharedRun(run) && i < |run| && t < |run[i].lock.pcs|
    ensures run[i].lock.pcs[t].Idle? ==> CanAct(run[i], t, LockStep)
    ensures !run[i].lock.pcs[t].Idle? ==>
              exists u: nat, a :: CanAct(run[i], u, a) && !run[i].lock.pcs[u].Idle? &&
                                  (a.LockStep? ==> !L.Spins(run[i].lock, u))
  {
    SharedRunInv(run, i);
    if !run[i].lock.pcs[t].Idle? {
      L.ProgressFrom(run[i].lock, t);
      var u: nat :| u < |run[i].lock.pcs| && !run[i].lock.pcs[u].Idle? && !L.Spins(run[i].lock, u);
      if u == run[i].w && run[i].lock.pcs[u].Writing? && run[i].phase < 3 {
        assert CanAct(run[i], u, Write);
      } else {
        assert CanAct(run[i], u, LockStep);
      }
    }
  }

  // ---- The writer's sections ------------------------------------------------------------

  datatype Turn = Turn(who: nat, action: Action)

  predicate Follows(s: Shared, turn: Turn, s': Shared) {
    CanAct(s, turn.who, turn.action) && s' == Act(s, turn.who, turn.action)
  }

  ghost predicate Scheduled(run: seq<Shared>, turns: seq<Turn>) {
    && |run| == |turns| + 1 && SharedInit(run[0])
    && forall i :: 0 <= i < |turns| ==> Follows(run[i], turns[i], run[i + 1])
  }

  /** The stores and loads of the writer in the first i turns. */
  ghost function Writes(turns: seq<Turn>, i: nat): nat
    requires i <= |turns|
  {
    if i == 0 then 0 else Writes(turns, i - 1) + if turns[i - 1].action.Write? then 1 else 0
  }

  /** How often the writer has called rw_write_lock in them. */
  ghost function Locks(run: seq<Shared>, turns: seq<Turn>, i: nat): nat
    requires i <= |turns| < |run|
  {
    if i == 0 then 0 else Locks(run, turns, i - 1) + if Starts(run[i - 1], turns[i - 1]) then 1 else 0
  }

  predicate Starts(s: Shared, turn: Turn) {
    turn.who == s.w < |s.lock.pcs| && turn.action.LockStep? && s.lock.pcs[s.w].Idle?
  }

  lemma {:induction false} ScheduledInv(run: seq<Shared>, turns: seq<Turn>, i: nat)
    requires Scheduled(run, turns) && i <= |turns|
    ensures SharedInv(run[i])
  {
    if i == 0 {
      SharedInvInit(run[0]);
    } else {
      ScheduledInv(run, turns, i - 1);
      assert Follows(run[i - 1], turns[i - 1], run[i]);
      SharedInvStep(run[i - 1], turns[i - 1].who, turns[i - 1].action);
    }
  }

  /** Inside an iteration or between two. */
  function Under(s: Shared): nat
    requires s.w < |s.lock.pcs|
  {
    if s.lock.pcs[s.w].Idle? then 0 else 1
  }

  lemma SectionStep(s: Shared, turn: Turn, s': Shared)
    requires SharedInv(s) && Follows(s, turn, s')
    ensures s'.w == s.w < |s'.lock.pcs|
    ensures 3 * s'.iter + s'.phase == 3 * s.iter + s.phase + if turn.action.Write? then 1 else 0
    ensures s'.iter + Under(s') == s.iter + Under(s) + if Starts(s, turn) then 1 else 0
  {
    if turn.action.LockStep? && turn.who != s.w {
      assert ReaderPc(s.lock.pcs[turn.who]);
    }
  }

  lemma SectionNext(run: seq<Shared>, turns: seq<Turn>, i: nat)
    requires Scheduled(run, turns) && i < |turns|
    ensures var s, turn, s' := run[i], turns[i], run[i + 1];
            && s.w < |s.lock.pcs| && s'.w < |s'.lock.pcs|
            && 3 * s'.iter + s'.phase == 3 * s.iter + s.phase + (if turn.action.Write? then 1 else 0)
            && s'.iter + Under(s') == s.iter + Under(s) + if Starts(s, turn) then 1 else 0
  {
    ScheduledInv(run, turns, i);
    assert Follows(run[i], turns[i], run[i + 1]);
    SectionStep(run[i], turns[i], run[i + 1]);
  }

  /** On every run: the writer has taken the lock once for each iteration finished and once more if
      it is in one, and has made three accesses in each. */
  lemma {:induction false} Sections(run: seq<Shared>, turns: seq<Turn>, i: nat)
    requires Scheduled(run, turns) && i <= |turns|
    ensures run[i].w < |run[i].lock.pcs| && Writes(turns, i) == 3 * run[i].iter + run[i].phase
    ensures Locks(run, turns, i) == run[i].iter + Under(run[i])
  {
    if i == 0 {
    } else {
      Sections(run, turns, i - 1);
      SectionNext(run, turns, i - 1);
    }
  }

  /** Every run has its turns. */
  lemma TurnsOf(run: seq<Shared>) returns (turns: seq<Turn>)
    requires SharedRun(run)
    ensures Scheduled(run, turns)
  {
    turns := TurnsUpTo(run, |run| - 1);
  }

  lemma {:induction false} TurnsUpTo(run: seq<Shared>, k: nat) returns (turns: seq<Turn>)
    requires SharedRun(run) && k < |run|
    ensures |turns| == k && forall i :: 0 <= i < k ==> Follows(run[i], turns[i], run[i + 1])
  {
    if k == 0 {
      turns := [];
    } else {
      turns := TurnsUpTo(run, k - 1);
      assert SharedNext(run[k - 1], run[k]);
      var t, a :| CanAct(run[k - 1], t, a) && run[k] == Act(run[k - 1], t, a);
      turns := turns + [Turn(t, a)];
    }
  }
}
