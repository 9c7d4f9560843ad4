/** The calls that the threads of the lock-free queue (sync_tools/locking.c) make, and how the events
    in which they take effect answer them. */
module LockFreeCalls {
  import opened Options
  import opened LockFreeQueue

  /** Who moves, and what it calls if it is idle. */
  datatype Turn = Turn(who: nat, call: Call)

  predicate Follows(s: State, turn: Turn, s': State) {
    Enabled(s, turn.who, turn.call) && s' == Step(s, turn.who, turn.call)
  }

  ghost predicate Scheduled(run: seq<State>, turns: seq<Turn>, junk: int) {
    && |run| == |turns| + 1 && Init(run[0], junk)
    && forall i :: 0 <= i < |turns| ==> Follows(run[i], turns[i], run[i + 1])
  }

  /** A turn of an idle thread is a call. */
  function Called(s: State, turn: Turn, t: nat): seq<Call> {
    if turn.who == t < |s.pcs| && s.pcs[t].Idle? then [turn.call] else []
  }

  /** The calls of thread t in the first i turns, in order. */
  ghost function CallsOf(run: seq<State>, turns: seq<Turn>, i: nat, t: nat): seq<Call>
    requires i <= |turns| < |run|
  {
    if i == 0 then [] else CallsOf(run, turns, i - 1, t) + Called(run[i - 1], turns[i - 1], t)
  }

  /** An enqueue of v takes effect by putting v in the queue, a dequeue by taking a value out or by
      finding the queue empty. */
  predicate Answers(c: Call, t: nat, e: Event) {
    match c
    case Enqueue(v, _) => e == Enq(t, v)
    case Dequeue => e.tid == t && (e.Deq? || e.Empty?)
  }

  ghost predicate AllAnswer(calls: seq<Call>, t: nat, events: seq<Event>) {
    |events| <= |calls| && forall k :: 0 <= k < |events| ==> Answers(calls[k], t, events[k])
  }

  /** The thread is carrying out the call. */
  predicate Serves(pc: Pc, c: Call) {
    match pc
    case Idle => false
    case E1(q, v) => c == Enqueue(v, q)
    case E2(q, v, _) => c == Enqueue(v, q)
    case E3(q, v, _) => c == Enqueue(v, q)
    case E4(q, v, _) => c == Enqueue(v, q)
    case E5(q, v, _, _) => c == Enqueue(v, q)
    case E6(q, v, _) => c == Enqueue(v, q)
    case _ => c == Dequeue
  }

  /** Every call has been answered but the one that is being carried out. */
  ghost predicate UpToDate(pc: Pc, t: nat, calls: seq<Call>, reports: seq<Event>) {
    && AllAnswer(calls, t, reports)
    && |calls| == |reports| + (if pc.Idle? then 0 else 1)
    && (!pc.Idle? ==> Serves(pc, calls[|calls| - 1]))
  }

  lemma CallStep(s: State, turn: Turn, t: nat, calls: seq<Call>)
    requires Enabled(s, turn.who, turn.call) && t < |s.pcs| && UpToDate(s.pcs[t], t, calls, s.reports[t])
    ensures var s' := Step(s, turn.who, turn.call);
            UpToDate(s'.pcs[t], t, calls + Called(s, turn, t), s'.reports[t])
  {
    if turn.who == t {
      OwnStep(s.mem, t, s.pcs[t], turn.call, calls, s.reports[t]);
    }
  }

  lemma OwnStep(m: Mem, t: nat, pc: Pc, c: Call, calls: seq<Call>, reports: seq<Event>)
    requires UpToDate(pc, t, calls, reports)
    ensures UpToDate(Goto(m, pc, c), t, calls + (if pc.Idle? then [c] else []), reports + Returns(m, t, pc))
  {
    if !pc.Idle? && Returns(m, t, pc) != [] {
      assert Answers(calls[|calls| - 1], t, Returns(m, t, pc)[0]);
    }
  }

  lemma {:induction false} CallsUpToDate(run: seq<State>, turns: seq<Turn>, junk: int, i: nat, t: nat)
    requires Scheduled(run, turns, junk) && i <= |turns| && t < |run[0].pcs|
    ensures |run[i].pcs| == |run[i].reports| == |run[0].pcs|
    ensures UpToDate(run[i].pcs[t], t, CallsOf(run, turns, i, t), run[i].reports[t])
  {
    if i == 0 {
    } else {
      CallsUpToDate(run, turns, junk, i - 1, t);
      assert Follows(run[i - 1], turns[i - 1], run[i]);
      CallStep(run[i - 1], turns[i - 1], t, CallsOf(run, turns, i - 1, t));
    }
  }

  lemma ScheduledRun(run: seq<State>, turns: seq<Turn>, junk: int)
    requires Scheduled(run, turns, junk)
    ensures Run(run, junk)
  {
    forall i | 0 <= i < |run| - 1 ensures Next(run[i], run[i + 1]) {
      assert Follows(run[i], turns[i], run[i + 1]);
    }
  }

  /** A call that has taken effect but not returned is answered as well. */
  lemma PendingAnswers(m: Mem, t: nat, pc: Pc, calls: seq<Call>, reports: seq<Event>)
    requires UpToDate(pc, t, calls, reports)
    ensures AllAnswer(calls, t, reports + Pending(m, t, pc))
  {
    if Pending(m, t, pc) != [] {
      assert Answers(calls[|calls| - 1], t, Pending(m, t, pc)[0]);
    }
  }

  /** Linearizability. On every run the events, in the order they took effect, are a legal history
      of a sequential queue that starts with the one initial element and ends with the present
      contents. The events of each thread answer its calls in order: the k-th event of a thread
      puts in the value that its k-th call was given, or takes one out if that was a dequeue. What
      the thread's finished calls returned are those events, and only the last call may have no
      event or not have returned. */
  lemma Linearizable(run: seq<State>, turns: seq<Turn>, junk: int, i: nat, t: nat)
    requires Scheduled(run, turns, junk) && i <= |turns| && t < |run[0].pcs|
    ensures Replay([junk], run[i].log) == Some(Contents(run[i].mem))
    ensures |run[i].pcs| == |run[i].reports| == |run[0].pcs|
    ensures AllAnswer(CallsOf(run, turns, i, t), t, EventsOf(run[i].log, t))
    ensures run[i].reports[t] <= EventsOf(run[i].log, t)
    ensures |CallsOf(run, turns, i, t)| == |run[i].reports[t]| + (if run[i].pcs[t].Idle? then 0 else 1)
  {
    ScheduledRun(run, turns, junk);
    RunInv(run, junk, i);
    CallsUpToDate(run, turns, junk, i, t);
    PendingAnswers(run[i].mem, t, run[i].pcs[t], CallsOf(run, turns, i, t), run[i].reports[t]);
  }

  /** Every run has its turns. */
  lemma TurnsOf(run: seq<State>, junk: int) returns (turns: seq<Turn>)
    requires Run(run, junk)
    ensures Scheduled(run, turns, junk)
  {
    turns := TurnsUpTo(run, junk, |run| - 1);
  }

  lemma {:induction false} TurnsUpTo(run: seq<State>, junk: int, k: nat) returns (turns: seq<Turn>)
    requires Run(run, junk) && k < |run|
    ensures |turns| == k && forall i :: 0 <= i < k ==> Follows(run[i], turns[i], run[i + 1])
  {
    if k == 0 {
      turns := [];
    } else {
      turns := TurnsUpTo(run, junk, k - 1);
      assert Next(run[k - 1], run[k]);
      var t, c :| Enabled(run[k - 1], t, c) && run[k] == Step(run[k - 1], t, c);
      turns := turns + [Turn(t, c)];
    }
  }
}
