/** The reader/writer lock of sync_tools/locking.c, built on its spinlock, as an interleaving
    of any number of threads, one step per load, store or locked instruction. */
module RwLock {
  import opened Counting

  datatype Pc =
    | Idle
    | R0          // reader: CAS(&mutex.free, 1, 0) until it succeeds
    | R1          // reader: while (writer)
    | R2          // reader: atomic_add(&num_readers, 1)
    | R3          // reader: mutex.free = 1
    | Reading     // in the section; leaving is atomic_sub(&num_readers, 1)
    | W0          // writer: CAS(&mutex.free, 1, 0) until it succeeds
    | W1          // writer: load writer
    | W2          // writer: load num_readers
    | W3          // writer: atomic_add(&writer, 1)
    | W4          // writer: mutex.free = 1
    | Writing     // in the section; leaving is atomic_sub(&writer, 1)

  datatype State = State(free: int, readers: int, writer: int, pcs: seq<Pc>)

  /** Where a step leads; an idle thread may ask for either kind of access. */
  function Goto(s: State, pc: Pc, write: bool): Pc {
    match pc
    case Idle => if write then W0 else R0
    case R0 => if s.free == 1 then R1 else R0
    case R1 => if s.writer != 0 then R1 else R2
    case R2 => R3
    case R3 => Reading
    case Reading => Idle
    case W0 => if s.free == 1 then W1 else W0
    case W1 => if s.writer != 0 then W1 else W2
    case W2 => if s.readers > 0 then W1 else W3
    case W3 => W4
    case W4 => Writing
    case Writing => Idle
  }

  /** What a step does to the words of the lock. */
  function Words(s: State, pc: Pc): State {
    match pc
    case R0 => if s.free == 1 then s.(free := 0) else s
    case R2 => s.(readers := s.readers + 1)
    case R3 => s.(free := 1)
    case Reading => s.(readers := s.readers - 1)
    case W0 => if s.free == 1 then s.(free := 0) else s
    case W3 => s.(writer := s.writer + 1)
    case W4 => s.(free := 1)
    case Writing => s.(writer := s.writer - 1)
    case _ => s
  }

  /** One step of thread t. */
  function Step(s: State, t: nat, write: bool): State
    requires t < |s.pcs|
  {
    Words(s, s.pcs[t]).(pcs := s.pcs[t := Goto(s, s.pcs[t], write)])
  }

  /** rw_lock_init. */
  predicate Init(s: State) {
    s.free == 1 && s.readers == 0 && s.writer == 0 && forall t :: 0 <= t < |s.pcs| ==> s.pcs[t] == Idle
  }

  ghost predicate Next(s: State, s': State) {
    exists t: nat, write :: t < |s.pcs| && s' == Step(s, t, write)
  }

  ghost predicate Run(run: seq<State>) {
    && |run| > 0 && Init(run[0])
    && forall i :: 0 <= i < |run| - 1 ==> Next(run[i], run[i + 1])
  }

  // ---- The invariant --------------------------------------------------------------------

  predicate HoldsMutex(pc: Pc) {
    pc.R1? || pc.R2? || pc.R3? || pc.W1? || pc.W2? || pc.W3? || pc.W4?
  }

  /** Counted in num_readers. */
  predicate ReadSide(pc: Pc) {
    pc.R3? || pc.Reading?
  }

  /** Counted in writer. */
  predicate WriteSide(pc: Pc) {
    pc.W4? || pc.Writing?
  }

  function Holders(pcs: seq<Pc>): (r: seq<bool>)
    ensures |r| == |pcs| && forall t :: 0 <= t < |r| ==> r[t] == HoldsMutex(pcs[t])
  {
    seq(|pcs|, t requires 0 <= t < |pcs| => HoldsMutex(pcs[t]))
  }

  function Readers(pcs: seq<Pc>): (r: seq<bool>)
    ensures |r| == |pcs| && forall t :: 0 <= t < |r| ==> r[t] == ReadSide(pcs[t])
  {
    seq(|pcs|, t requires 0 <= t < |pcs| => ReadSide(pcs[t]))
  }

  function Writers(pcs: seq<Pc>): (r: seq<bool>)
    ensures |r| == |pcs| && forall t :: 0 <= t < |r| ==> r[t] == WriteSide(pcs[t])
  {
    seq(|pcs|, t requires 0 <= t < |pcs| => WriteSide(pcs[t]))
  }

  /** The three words are exact counts, a writer excludes everyone, and what a mutex holder has
      seen stays true. */
  ghost predicate Inv(s: State) {
    && Count(Holders(s.pcs)) + s.free == 1 && s.free >= 0
    && s.readers == Count(Readers(s.pcs)) && s.writer == Count(Writers(s.pcs))
    && s.writer <= 1 && (s.writer == 1 ==> s.readers == 0)
    && forall t :: 0 <= t < |s.pcs| ==> Seen(s, s.pcs[t])
  }

  predicate Seen(s: State, pc: Pc) {
    && (pc.R2? || pc.W2? || pc.W3? ==> s.writer == 0)
    && (pc.W3? ==> s.readers == 0)
  }

  lemma CountsAt(pcs: seq<Pc>, t: nat, pc: Pc)
    requires t < |pcs|
    ensures Count(Holders(pcs[t := pc])) == Count(Holders(pcs)) - (if HoldsMutex(pcs[t]) then 1 else 0) +
            (if HoldsMutex(pc) then 1 else 0)
    ensures Count(Readers(pcs[t := pc])) == Count(Readers(pcs)) - (if ReadSide(pcs[t]) then 1 else 0) +
            (if ReadSide(pc) then 1 else 0)
    ensures Count(Writers(pcs[t := pc])) == Count(Writers(pcs)) - (if WriteSide(pcs[t]) then 1 else 0) +
            (if WriteSide(pc) then 1 else 0)
  {
    assert Holders(pcs[t := pc]) == Holders(pcs)[t := HoldsMutex(pc)];
    assert Readers(pcs[t := pc]) == Readers(pcs)[t := ReadSide(pc)];
    assert Writers(pcs[t := pc]) == Writers(pcs)[t := WriteSide(pc)];
    CountUpdate(Holders(pcs), t, HoldsMutex(pc));
    CountUpdate(Readers(pcs), t, ReadSide(pc));
    CountUpdate(Writers(pcs), t, WriteSide(pc));
  }

  /** Only one thread holds the mutex. */
  lemma OneHolder(s: State, t: nat, u: nat)
    requires Inv(s) && t < |s.pcs| && u < |s.pcs| && t != u && HoldsMutex(s.pcs[t])
    ensures !HoldsMutex(s.pcs[u])
  {
    if HoldsMutex(s.pcs[u]) {
      CountOne(Holders(s.pcs), if t < u then t else u, if t < u then u else t);
    }
  }

  lemma InvStep(s: State, t: nat, write: bool)
    requires Inv(s) && t < |s.pcs|
    ensures Inv(Step(s, t, write))
  {
    var s' := Step(s, t, write);
    WordsStep(s, t, write);
    forall u | 0 <= u < |s.pcs| ensures Seen(s', s'.pcs[u]) {
      SeenStep(s, t, write, u);
    }
  }

  lemma WordsStep(s: State, t: nat, write: bool)
    requires Inv(s) && t < |s.pcs|
    ensures var s' := Step(s, t, write);
            && Count(Holders(s'.pcs)) + s'.free == 1 && s'.free >= 0
            && s'.readers == Count(Readers(s'.pcs)) && s'.writer == Count(Writers(s'.pcs))
            && s'.writer <= 1 && (s'.writer == 1 ==> s'.readers == 0)
  {
    var pc := s.pcs[t];
    assert Seen(s, pc);
    CountBounds(Holders(s.pcs));
    assert Holders(s.pcs)[t] == HoldsMutex(pc);
    CountsAt(s.pcs, t, Goto(s, pc, write));
    WordsDelta(s, pc, write);
  }

  function One(b: bool): int {
    if b then 1 else 0
  }

  /** Each word changes exactly as the thread's membership does. */
  lemma WordsDelta(s: State, pc: Pc, write: bool)
    requires HoldsMutex(pc) ==> s.free == 0
    requires Seen(s, pc) && 0 <= s.readers && 0 <= s.writer <= 1 && (s.writer == 1 ==> s.readers == 0)
    ensures var s', pc' := Words(s, pc), Goto(s, pc, write);
            && s'.free == s.free + One(HoldsMutex(pc)) - One(HoldsMutex(pc'))
            && s'.readers == s.readers - One(ReadSide(pc)) + One(ReadSide(pc'))
            && s'.writer == s.writer - One(WriteSide(pc)) + One(WriteSide(pc'))
            && s'.writer <= 1 && (s'.writer == 1 ==> s'.readers <= 0)
            && (s.free >= 0 ==> s'.free >= 0)
  {
  }

  lemma SeenStep(s: State, t: nat, write: bool, u: nat)
    requires Inv(s) && t < |s.pcs| && u < |s.pcs|
    ensures Seen(Step(s, t, write), Step(s, t, write).pcs[u])
  {
    assert Seen(s, s.pcs[u]) && Seen(s, s.pcs[t]);
    CountBounds(Readers(s.pcs));
    CountBounds(Writers(s.pcs));
    if u != t && HoldsMutex(s.pcs[t]) {
      OneHolder(s, t, u);
    } else if s.pcs[t].Reading? {
      assert Readers(s.pcs)[t];
    } else if s.pcs[t].Writing? {
      assert Writers(s.pcs)[t];
    }
  }

  lemma {:induction false} RunInv(run: seq<State>, i: nat)
    requires Run(run) && i < |run|
    ensures Inv(run[i])
  {
    if i == 0 {
      var s := run[0];
      CountBounds(Holders(s.pcs));
      CountBounds(Readers(s.pcs));
      CountBounds(Writers(s.pcs));
    } else {
      RunInv(run, i - 1);
      var s, s' := run[i - 1], run[i];
      assert Next(s, s');
      var t: nat, write :| t < |s.pcs| && s' == Step(s, t, write);
      InvStep(s, t, write);
    }
  }

  // ---- What the lock promises -----------------------------------------------------------

  /** On every run a thread in the write section is there alone: no other writer, no reader. */
  lemma WriterAlone(run: seq<State>, i: nat, t: nat, u: nat)
    requires Run(run) && i < |run| && t < |run[i].pcs| && u < |run[i].pcs| && t != u
    requires WriteSide(run[i].pcs[t])
    ensures !WriteSide(run[i].pcs[u]) && !ReadSide(run[i].pcs[u])
  {
    RunInv(run, i);
    var s := run[i];
    CountBounds(Writers(s.pcs));
    CountBounds(Readers(s.pcs));
    assert Writers(s.pcs)[t];
    assert !Readers(s.pcs)[u];
    if WriteSide(s.pcs[u]) {
      CountOne(Writers(s.pcs), if t < u then t else u, if t < u then u else t);
    }
  }

  /** num_readers and writer are the numbers of threads in each section at every moment. */
  lemma WordsAreCounts(run: seq<State>, i: nat)
    requires Run(run) && i < |run|
    ensures run[i].readers == Count(Readers(run[i].pcs)) && run[i].writer == Count(Writers(run[i].pcs))
    ensures run[i].free == 1 - Count(Holders(run[i].pcs))
  {
    RunInv(run, i);
  }

  /** The step is a fruitless turn of one of the lock's wait loops. */
  predicate Spins(s: State, t: nat)
    requires t < |s.pcs|
  {
    var pc := s.pcs[t];
    || ((pc.R0? || pc.W0?) && s.free != 1)
    || (pc.R1? && s.writer != 0)
    || ((pc.W1? || pc.W2?) && (s.writer != 0 || s.readers > 0))
  }

  /** No deadlock: while some thread is anywhere in the lock, some thread in it can take a step
      that is not a fruitless turn of a wait loop. */
  lemma Progress(run: seq<State>, i: nat, t: nat)
    requires Run(run) && i < |run| && t < |run[i].pcs| && !run[i].pcs[t].Idle?
    ensures exists u: nat :: u < |run[i].pcs| && !run[i].pcs[u].Idle? && !Spins(run[i], u)
  {
    RunInv(run, i);
    ProgressFrom(run[i], t);
  }

  lemma ProgressFrom(s: State, t: nat)
    requires Inv(s) && t < |s.pcs| && !s.pcs[t].Idle?
    ensures exists u: nat :: u < |s.pcs| && !s.pcs[u].Idle? && !Spins(s, u)
  {
    CountBounds(Holders(s.pcs));
    CountBounds(Readers(s.pcs));
    CountBounds(Writers(s.pcs));
    if s.readers > 0 {
      var u: nat :| u < |s.pcs| && Readers(s.pcs)[u];
      assert !Spins(s, u) && !s.pcs[u].Idle?;
    } else if s.writer > 0 {
      var u: nat :| u < |s.pcs| && Writers(s.pcs)[u];
      assert !Spins(s, u) && !s.pcs[u].Idle?;
    } else if s.free != 1 {
      var u: nat :| u < |s.pcs| && Holders(s.pcs)[u];
      assert !Spins(s, u) && !s.pcs[u].Idle?;
    } else {
      assert !Spins(s, t);
    }
  }

  // ---- How many steps it takes ----------------------------------------------------------

  /** Who moves, and which access it asks for if it is idle. */
  datatype Turn = Turn(who: nat, write: bool)

  predicate Takes(s: State, turn: Turn, s': State) {
    turn.who < |s.pcs| && s' == Step(s, turn.who, turn.write)
  }

  ghost predicate Scheduled(run: seq<State>, turns: seq<Turn>) {
    && |run| == |turns| + 1 && Init(run[0])
    && forall i :: 0 <= i < |turns| ==> Takes(run[i], turns[i], run[i + 1])
  }

  /** What the first i turns count for, each by itself. */
  ghost function Tally(run: seq<State>, turns: seq<Turn>, i: nat, weigh: (State, Turn) -> nat): nat
    requires i <= |turns| < |run|
  {
    if i == 0 then 0 else Tally(run, turns, i - 1, weigh) + weigh(run[i - 1], turns[i - 1])
  }

  /** The turn is not a fruitless one of a wait loop. */
  function Useful(s: State, turn: Turn): nat {
    if turn.who < |s.pcs| && !Spins(s, turn.who) then 1 else 0
  }

  predicate Enters(s: State, turn: Turn) {
    turn.who < |s.pcs| && s.pcs[turn.who].Idle?
  }

  /** Steps enough for the access that is asked for: 6 to read and 7 to write. */
  function Most(s: State, turn: Turn): nat {
    if !Enters(s, turn) then 0 else if turn.write then 7 else 6
  }

  /** No access takes fewer than 6. */
  function Least(s: State, turn: Turn): nat {
    if Enters(s, turn) then 6 else 0
  }

  /** The most a thread at pc has yet to take; a writer that has seen readers goes back. */
  function MostLeft(readers: int, pc: Pc): nat {
    match pc
    case Idle => 0
    case R0 => 5
    case R1 => 4
    case R2 => 3
    case R3 => 2
    case Reading => 1
    case W0 => 6
    case W1 => 5
    case W2 => if readers > 0 then 5 else 4
    case W3 => 3
    case W4 => 2
    case Writing => 1
  }

  /** The least: the load of writer may have been of no use. */
  function LeastLeft(pc: Pc): nat {
    match pc
    case W0 => 5
    case W1 => 4
    case W2 => 4
    case _ => MostLeft(0, pc)
  }

  function AllMost(readers: int, pcs: seq<Pc>): (ws: seq<nat>)
    ensures |ws| == |pcs| && forall t :: 0 <= t < |ws| ==> ws[t] == MostLeft(readers, pcs[t])
  {
    seq(|pcs|, t requires 0 <= t < |pcs| => MostLeft(readers, pcs[t]))
  }

  function AllLeast(pcs: seq<Pc>): (ws: seq<nat>)
    ensures |ws| == |pcs| && forall t :: 0 <= t < |ws| ==> ws[t] == LeastLeft(pcs[t])
  {
    seq(|pcs|, t requires 0 <= t < |pcs| => LeastLeft(pcs[t]))
  }

  lemma MostOne(s: State, turn: Turn)
    requires Inv(s) && turn.who < |s.pcs|
    ensures var pc, s' := s.pcs[turn.who], Step(s, turn.who, turn.write);
            && Useful(s, turn) + MostLeft(s'.readers, s'.pcs[turn.who]) <= MostLeft(s.readers, pc) + Most(s, turn)
            && Least(s, turn) + LeastLeft(pc) <= Useful(s, turn) + LeastLeft(s'.pcs[turn.who])
  {
    assert Seen(s, s.pcs[turn.who]);
  }

  /** Nobody else has more to do: while a writer looks for readers, none comes. */
  lemma MostOthers(s: State, turn: Turn, u: nat)
    requires Inv(s) && turn.who < |s.pcs| && u < |s.pcs| && u != turn.who
    ensures MostLeft(Step(s, turn.who, turn.write).readers, s.pcs[u]) <= MostLeft(s.readers, s.pcs[u])
  {
    if s.pcs[u].W2? && HoldsMutex(s.pcs[turn.who]) {
      OneHolder(s, u, turn.who);
    }
  }

  lemma MostStep(s: State, turn: Turn)
    requires Inv(s) && turn.who < |s.pcs|
    ensures var s' := Step(s, turn.who, turn.write);
            Useful(s, turn) + Sum(AllMost(s'.readers, s'.pcs)) <= Sum(AllMost(s.readers, s.pcs)) + Most(s, turn)
  {
    var s' := Step(s, turn.who, turn.write);
    MostOne(s, turn);
    forall u | 0 <= u < |s.pcs| && u != turn.who
      ensures AllMost(s'.readers, s'.pcs)[u] <= AllMost(s.readers, s.pcs)[u]
    {
      MostOthers(s, turn, u);
    }
    SumChange(AllMost(s.readers, s.pcs), AllMost(s'.readers, s'.pcs), turn.who, 0);
  }

  lemma LeastStep(s: State, turn: Turn)
    requires Inv(s) && turn.who < |s.pcs|
    ensures var s' := Step(s, turn.who, turn.write);
            Least(s, turn) + Sum(AllLeast(s.pcs)) <= Useful(s, turn) + Sum(AllLeast(s'.pcs))
  {
    var s' := Step(s, turn.who, turn.write);
    MostOne(s, turn);
    assert AllLeast(s'.pcs) == AllLeast(s.pcs)[turn.who := LeastLeft(s'.pcs[turn.who])];
    SumUpdate(AllLeast(s.pcs), turn.who, LeastLeft(s'.pcs[turn.who]));
  }

  lemma {:induction false} Tallies(run: seq<State>, turns: seq<Turn>, i: nat)
    requires Scheduled(run, turns) && i <= |turns|
    ensures Inv(run[i])
    ensures Tally(run, turns, i, Useful) + Sum(AllMost(run[i].readers, run[i].pcs)) <= Tally(run, turns, i, Most)
    ensures Tally(run, turns, i, Least) <= Tally(run, turns, i, Useful) + Sum(AllLeast(run[i].pcs))
  {
    if i == 0 {
      RunInv([run[0]], 0);
      SumSame(AllMost(run[0].readers, run[0].pcs), 0);
    } else {
      Tallies(run, turns, i - 1);
      assert Takes(run[i - 1], turns[i - 1], run[i]);
      InvStep(run[i - 1], turns[i - 1].who, turns[i - 1].write);
      MostStep(run[i - 1], turns[i - 1]);
      LeastStep(run[i - 1], turns[i - 1]);
    }
  }

  /** On every run: fruitless turns apart, the threads take at most 6 steps for each read asked for
      and 7 for each write, and if nobody is left in the lock at least 6 for each. */
  lemma Bounded(run: seq<State>, turns: seq<Turn>, i: nat)
    requires Scheduled(run, turns) && i <= |turns|
    ensures Tally(run, turns, i, Useful) <= Tally(run, turns, i, Most)
    ensures (forall t :: 0 <= t < |run[i].pcs| ==> run[i].pcs[t].Idle?) ==>
              Tally(run, turns, i, Least) <= Tally(run, turns, i, Useful)
  {
    Tallies(run, turns, i);
    if forall t :: 0 <= t < |run[i].pcs| ==> run[i].pcs[t].Idle? {
      SumSame(AllLeast(run[i].pcs), 0);
    }
  }

  /** Every run has its turns. */
  lemma TurnsOf(run: seq<State>) returns (turns: seq<Turn>)
    requires Run(run)
    ensures Scheduled(run, turns)
  {
    turns := TurnsUpTo(run, |run| - 1);
  }

  lemma {:induction false} TurnsUpTo(run: seq<State>, k: nat) returns (turns: seq<Turn>)
    requires Run(run) && k < |run|
    ensures |turns| == k && forall i :: 0 <= i < k ==> Takes(run[i], turns[i], run[i + 1])
  {
    if k == 0 {
      turns := [];
    } else {
      turns := TurnsUpTo(run, k - 1);
      assert Next(run[k - 1], run[k]);
      var t: nat, write :| t < |run[k - 1].pcs| && run[k] == Step(run[k - 1], t, write);
      turns := turns + [Turn(t, write)];
    }
  }
}
