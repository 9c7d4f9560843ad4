/** Counting the threads that satisfy a condition, sums over threads, and bounds. */
module Counting {

  function Count(p: seq<bool>): nat {
    if p == [] then 0 else (if p[0] then 1 else 0) + Count(p[1..])
  }

  lemma {:induction false} CountUpdate(p: seq<bool>, i: nat, v: bool)
    requires i < |p|
    ensures Count(p[i := v]) == Count(p) - (if p[i] then 1 else 0) + (if v then 1 else 0)
  {
    if i == 0 {
      assert p[i := v][1..] == p[1..];
    } else {
      assert p[i := v][1..] == p[1..][i - 1 := v];
      CountUpdate(p[1..], i - 1, v);
    }
  }

  lemma {:induction false} CountBounds(p: seq<bool>)
    ensures Count(p) <= |p|
    ensures Count(p) == |p| <==> forall i :: 0 <= i < |p| ==> p[i]
    ensures Count(p) == 0 <==> forall i :: 0 <= i < |p| ==> !p[i]
  {
    if p == [] {
    } else {
      CountBounds(p[1..]);
      assert forall i :: 0 < i < |p| ==> p[i] == p[1..][i - 1];
      assert forall i :: 0 <= i < |p| - 1 ==> p[1..][i] == p[i + 1];
    }
  }

  /** At most one position is set if the count is at most one. */
  lemma CountOne(p: seq<bool>, i: nat, j: nat)
    requires i < j < |p| && p[i] && p[j]
    ensures Count(p) >= 2
  {
    var q := p[i := false];
    CountUpdate(p, i, false);
    CountBounds(q);
    assert q[j];
  }

  function Sum(d: seq<nat>): nat {
    if d == [] then 0 else d[0] + Sum(d[1..])
  }

  lemma {:induction false} SumUpdate(d: seq<nat>, i: nat, v: nat)
    requires i < |d|
    ensures Sum(d[i := v]) == Sum(d) - d[i] + v
  {
    if i == 0 {
      assert d[i := v][1..] == d[1..];
    } else {
      assert d[i := v][1..] == d[1..][i - 1 := v];
      SumUpdate(d[1..], i - 1, v);
    }
  }

  lemma {:induction false} SumSame(d: seq<nat>, b: nat)
    requires forall i :: 0 <= i < |d| ==> d[i] == b
    ensures Sum(d) == |d| * b
  {
    if d == [] {
    } else {
      SumSame(d[1..], b);
      assert |d| * b == b + |d[1..]| * b;
    }
  }

  lemma {:induction false} SumUpper(ws: seq<nat>, b: nat)
    requires forall t :: 0 <= t < |ws| ==> ws[t] <= b
    ensures Sum(ws) <= |ws| * b
  {
    if ws == [] {
    } else {
      SumUpper(ws[1..], b);
      assert |ws| * b == b + |ws[1..]| * b;
    }
  }

  /** One weight changes as it does, and every other grows by at most d. */
  lemma {:induction false} SumChange(ws: seq<nat>, ws': seq<nat>, t: nat, d: nat)
    requires |ws'| == |ws| && t < |ws|
    requires forall u :: 0 <= u < |ws| && u != t ==> ws'[u] <= ws[u] + d
    ensures Sum(ws') + ws[t] <= Sum(ws) + ws'[t] + d * (|ws| - 1)
  {
    if t == 0 {
      SumGrows(ws[1..], ws'[1..], d);
    } else {
      SumChange(ws[1..], ws'[1..], t - 1, d);
      assert d * (|ws| - 1) == d + d * (|ws[1..]| - 1);
    }
  }

  lemma {:induction false} SumGrows(ws: seq<nat>, ws': seq<nat>, d: nat)
    requires |ws'| == |ws| && forall u :: 0 <= u < |ws| ==> ws'[u] <= ws[u] + d
    ensures Sum(ws') <= Sum(ws) + d * |ws|
  {
    if ws == [] {
    } else {
      SumGrows(ws[1..], ws'[1..], d);
      assert d * |ws| == d + d * |ws[1..]|;
    }
  }

  /** A number that none of the set exceeds. */
  lemma {:induction false} Above(used: set<nat>) returns (m: nat)
    ensures forall x :: x in used ==> x <= m
    decreases |used|
  {
    if used == {} {
      m := 0;
    } else {
      var x :| x in used;
      m := Above(used - {x});
      assert forall y :: y in used ==> y == x || y in used - {x};
      m := m + x;
    }
  }
}
