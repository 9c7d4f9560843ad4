/** The queue of sync_tools/locking.c is lock-free as a whole: whatever the schedule, some call
    returns within a number of steps that depends only on the number of threads. */
module LockFreedom {
  import opened LockFreeQueue
  import opened Counting

  // ---- What a thread can still do before some call returns ------------------------------

  /** Steps to the end of the attempt under way. */
  function Left(pc: Pc): nat {
    match pc
    case Idle => 8
    case E1(_, _) => 6
    case E2(_, _, _) => 5
    case E3(_, _, _) => 4
    case E4(_, _, _) => 3
    case E5(_, _, _, _) => 2
    case E6(_, _, _) => 1
    case D1 => 7
    case D2(_) => 6
    case D3(_) => 5
    case D4(_, _) => 4
    case D5(_, _) => 3
    case D6(_, _, _) => 2
    case D7(_, _, _) => 1
  }

  /** The attempt has been overtaken and will fail. */
  predicate Late(m: Mem, pc: Pc) {
    match pc
    case E2(_, _, p) => m.tail != p
    case E3(_, _, p) => m.tail != p
    case E4(_, _, p) => m.tail != p
    case E5(_, _, p, _) => m.tail != p
    case D2(p) => m.head != p
    case D3(p) => m.head != p
    case D4(p, _) => m.head != p
    case D5(_, won) => !won
    case D6(_, won, _) => !won
    case D7(_, won, _) => !won
    case _ => false
  }

  /** The call has not taken effect. */
  predicate Open(m: Mem, pc: Pc) {
    match pc
    case E3(q, _, p) => Load(m.next, p) != q
    case E6(_, _, _) => false
    case D5(_, won) => !won
    case D6(_, won, _) => !won
    case D7(_, won, _) => !won
    case _ => true
  }

  /** What one move of head or tail can cost n threads, and more. */
  function Move(n: nat): nat {
    7 * n + 8
  }

  function Weight(m: Mem, pc: Pc, n: nat): (r: nat)
    ensures r <= Move(n) + 15
  {
    Left(pc) + (if Late(m, pc) then 7 else 0) + (if Open(m, pc) then Move(n) else 0)
  }

  /** Tail is not on the last node. */
  predicate Lags(m: Mem) {
    m.ti + 1 < |m.chain|
  }

  function Weights(m: Mem, pcs: seq<Pc>, n: nat): (r: seq<nat>)
    ensures |r| == |pcs| && forall t :: 0 <= t < |pcs| ==> r[t] == Weight(m, pcs[t], n)
  {
    seq(|pcs|, t requires 0 <= t < |pcs| => Weight(m, pcs[t], n))
  }

  function Potential(s: State): nat {
    Sum(Weights(s.mem, s.pcs, |s.pcs|)) + if Lags(s.mem) then Move(|s.pcs|) else 0
  }

  // ---- Every step that returns nothing lowers the potential -----------------------------

  /** The step moves head or tail. */
  predicate Moves(m: Mem, pc: Pc) {
    (pc.E5? && m.tail == pc.p) || (pc.D4? && m.head == pc.p)
  }

  /** Whether a call has taken effect is not for others to change. */
  lemma OtherOpen(m: Mem, pc: Pc, c: Call, other: Pc)
    requires Shape(m) && ThreadOk(m, other)
    requires pc.Idle? && c.Enqueue? ==> c.addr !in m.next
    ensures Open(Effect(m, pc, c), other) == Open(m, other)
  {
    EffectExtends(m, pc, c);
    if other.E3? {
      var i := LastOrLinked(m, other.p, m.ti);
    }
  }

  /** What the thread weighs, with the lag of tail. */
  function OwnShare(m: Mem, pc: Pc, n: nat): nat {
    Weight(m, pc, n) + if Lags(m) then Move(n) else 0
  }

  /** A step that does not move head or tail lowers the thread's share; a link takes a move off its
      weight, which the lag makes up for; a move gives back more than it costs. */
  lemma OwnWeight(m: Mem, pc: Pc, c: Call, n: nat)
    requires Shape(m) && ThreadOk(m, pc) && Returns(m, 0, pc) == []
    ensures var w, w' := OwnShare(m, pc, n), OwnShare(Effect(m, pc, c), Goto(m, pc, c), n);
            if Moves(m, pc) then w' + Move(n) <= w + 4 else w' < w
  {
    match pc
    case E2(q, v, p) => OwnLink(m, q, v, p, c, n);
    case E5(q, v, p, k) => OwnSwing(m, q, v, p, k, c, n);
    case _ => OwnQuiet(m, pc, c, n);
  }

  lemma OwnQuiet(m: Mem, pc: Pc, c: Call, n: nat)
    requires ThreadOk(m, pc) && Returns(m, 0, pc) == [] && !pc.E2? && !pc.E5?
    ensures var w, w' := OwnShare(m, pc, n), OwnShare(Effect(m, pc, c), Goto(m, pc, c), n);
            if Moves(m, pc) then w' + Move(n) <= w + 4 else w' < w
  {
  }

  lemma OwnSwing(m: Mem, q: nat, v: int, p: nat, k: nat, c: Call, n: nat)
    requires Shape(m) && ThreadOk(m, E5(q, v, p, k))
    ensures var pc := E5(q, v, p, k);
            var w, w' := OwnShare(m, pc, n), OwnShare(Effect(m, pc, c), Goto(m, pc, c), n);
            if Moves(m, pc) then w' + Move(n) <= w + 4 else w' < w
  {
    if m.tail == p {
      var i := LastOrLinked(m, p, m.ti);
      assert i == m.ti;
    }
  }

  lemma OwnLink(m: Mem, q: nat, v: int, p: nat, c: Call, n: nat)
    requires Shape(m) && ThreadOk(m, E2(q, v, p))
    ensures var pc := E2(q, v, p);
            OwnShare(Effect(m, pc, c), Goto(m, pc, c), n) < OwnShare(m, pc, n)
  {
    var i := LastOrLinked(m, p, m.ti);
  }

  lemma StepLowers(s: State, t: nat, c: Call, s': State)
    requires Shape(s.mem) && ThreadsOk(s.mem, s.pcs) && Enabled(s, t, c) && s' == Step(s, t, c)
    requires Returns(s.mem, t, s.pcs[t]) == []
    ensures Potential(s') < Potential(s)
  {
    var d := if Moves(s.mem, s.pcs[t]) then 7 else 0;
    assert Returns(s.mem, 0, s.pcs[t]) == [];
    StepSum(s, t, c, s', d);
    OwnWeight(s.mem, s.pcs[t], c, |s.pcs|);
  }

  /** The sum of the weights changes by the thread's own and by d for each of the others. */
  lemma StepSum(s: State, t: nat, c: Call, s': State, d: nat)
    requires Shape(s.mem) && ThreadsOk(s.mem, s.pcs) && Enabled(s, t, c) && s' == Step(s, t, c)
    requires Returns(s.mem, t, s.pcs[t]) == [] && d == if Moves(s.mem, s.pcs[t]) then 7 else 0
    ensures var n := |s.pcs|;
            Sum(Weights(s'.mem, s'.pcs, n)) + Weight(s.mem, s.pcs[t], n) <=
            Sum(Weights(s.mem, s.pcs, n)) + Weight(s'.mem, s'.pcs[t], n) + d * (n - 1)
  {
    var n := |s.pcs|;
    var ws, ws' := Weights(s.mem, s.pcs, n), Weights(s'.mem, s'.pcs, n);
    forall u | 0 <= u < n && u != t ensures ws'[u] <= ws[u] + d {
      OtherOpen(s.mem, s.pcs[t], c, s.pcs[u]);
    }
    SumChange(ws, ws', t, d);
  }

  // ---- Lock-freedom ---------------------------------------------------------------------

  /** The number of calls that have returned. */
  function Returned(reports: seq<seq<Event>>): nat {
    if reports == [] then 0 else |reports[0]| + Returned(reports[1..])
  }

  lemma {:induction false} ReturnedUpdate(reports: seq<seq<Event>>, t: nat, e: seq<Event>)
    requires t < |reports|
    ensures Returned(reports[t := reports[t] + e]) == Returned(reports) + |e|
  {
    var reports' := reports[t := reports[t] + e];
    if t == 0 {
      assert reports'[1..] == reports[1..];
    } else {
      assert reports'[1..] == reports[1..][t - 1 := reports[1..][t - 1] + e];
      ReturnedUpdate(reports[1..], t - 1, e);
    }
  }

  /** The most steps n threads can take before a call returns. */
  function Limit(n: nat): nat {
    n * (Move(n) + 15) + Move(n)
  }

  lemma PotentialBound(s: State)
    ensures Potential(s) <= Limit(|s.pcs|)
  {
    SumUpper(Weights(s.mem, s.pcs, |s.pcs|), Move(|s.pcs|) + 15);
  }

  lemma NextLowers(run: seq<State>, junk: int, j: nat)
    requires Run(run, junk) && j + 1 < |run|
    ensures |run[j + 1].pcs| == |run[j].pcs| && Returned(run[j + 1].reports) >= Returned(run[j].reports)
    ensures Returned(run[j + 1].reports) == Returned(run[j].reports) ==> Potential(run[j + 1]) < Potential(run[j])
  {
    RunInv(run, junk, j);
    assert Next(run[j], run[j + 1]);
    var t: nat, c: Call :| Enabled(run[j], t, c) && run[j + 1] == Step(run[j], t, c);
    ReturnedUpdate(run[j].reports, t, Returns(run[j].mem, t, run[j].pcs[t]));
    if Returns(run[j].mem, t, run[j].pcs[t]) == [] {
      StepLowers(run[j], t, c, run[j + 1]);
    }
  }

  lemma {:induction false} PotentialFalls(run: seq<State>, junk: int, i: nat, j: nat)
    requires Run(run, junk) && i <= j < |run|
    ensures |run[j].pcs| == |run[i].pcs| && Returned(run[j].reports) >= Returned(run[i].reports)
    ensures Returned(run[j].reports) == Returned(run[i].reports) ==> Potential(run[j]) + (j - i) <= Potential(run[i])
    decreases j - i
  {
    if i == j {
    } else {
      PotentialFalls(run, junk, i, j - 1);
      NextLowers(run, junk, j - 1);
    }
  }

  /** On every run, in any stretch of more than 7n^2 + 30n + 8 steps of n threads some call
      returns. */
  lemma LockFree(run: seq<State>, junk: int, i: nat, j: nat)
    requires Run(run, junk) && i <= j < |run| && j - i > Limit(|run[i].pcs|)
    ensures Returned(run[j].reports) > Returned(run[i].reports)
  {
    PotentialFalls(run, junk, i, j);
    PotentialBound(run[i]);
  }
}
