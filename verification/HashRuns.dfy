/** Whole runs of calls on a hash table (user_threads/pet_hashtable.c), against a plain map. */
module HashRuns {
  import opened Options
  import opened HashChains
  import opened HashTable
  import opened Counting
  import opened Powers

  /** A call of the table's interface; `memory` tells whether calloc has some for the new entry. */
  datatype Op =
    | Insert(key: Word, value: Word, memory: bool)
    | Change(key: Word, value: Word)
    | Inc(key: Word, value: Word)
    | Dec(key: Word, value: Word)
    | Remove(key: Word)
    | Search(key: Word)

  /** What each key is mapped to. */
  type Model = Word -> Option<Word>

  function With(eqFn: (Word, Word) -> bool, m: Model, key: Word, v: Option<Word>): Model {
    (x: Word) => if eqFn(key, x) then v else m(x)
  }

  function Empty(): Model {
    x => None
  }

  /** The map after a call. */
  function After(eqFn: (Word, Word) -> bool, m: Model, op: Op): Model {
    match op
    case Insert(k, v, memory) => if memory then With(eqFn, m, k, Some(v)) else m
    case Change(k, v) => if m(k).Some? then With(eqFn, m, k, Some(v)) else m
    case Inc(k, v) =>
      if m(k).None? then m
      else
        var w := m(k).value + v;
        var u: Word := if w < TWO64 then w else w - TWO64;
        With(eqFn, m, k, Some(u))
    case Dec(k, v) =>
      if m(k).None? then m
      else
        var w := m(k).value - v;
        var u: Word := if w >= 0 then w else w + TWO64;
        With(eqFn, m, k, Some(u))
    case Remove(k) => With(eqFn, m, k, None)
    case Search(k) => m
  }

  /** What the call returns: 1 or 0 for done or not, and the value or 0 for remove and search. */
  function Answer(m: Model, op: Op): Word {
    match op
    case Insert(k, v, memory) => if memory then 1 else 0
    case Remove(k) => Held(m, k)
    case Search(k) => Held(m, k)
    case _ => if m(op.key).Some? then 1 else 0
  }

  function Held(m: Model, k: Word): Word {
    match m(k) case Some(v) => v case None => 0
  }

  function AfterAll(eqFn: (Word, Word) -> bool, m: Model, ops: seq<Op>): Model {
    if ops == [] then m else After(eqFn, AfterAll(eqFn, m, ops[..|ops| - 1]), ops[|ops| - 1])
  }

  /** Only keys that are not in the map are inserted. */
  ghost predicate NewKeys(eqFn: (Word, Word) -> bool, m: Model, ops: seq<Op>) {
    forall i :: 0 <= i < |ops| && ops[i].Insert? && ops[i].memory ==> AfterAll(eqFn, m, ops[..i])(ops[i].key).None?
  }

  /** The table stands for the map. */
  ghost predicate Stands(heap: Heap, eqFn: (Word, Word) -> bool, m: Model) {
    forall x {:trigger Get(heap, eqFn, x)} :: Get(heap, eqFn, x) == m(x)
  }

  lemma StandsUpdated(heap: Heap, heap': Heap, eqFn: (Word, Word) -> bool, m: Model, k: Word, v: Option<Word>)
    requires Stands(heap, eqFn, m) && Updated(heap, heap', eqFn, k, v)
    ensures Stands(heap', eqFn, With(eqFn, m, k, v))
  {
  }

  lemma StandsInc(heap: Heap, heap': Heap, eqFn: (Word, Word) -> bool, m: Model, k: Word, v: Word, u: Word)
    requires Stands(heap, eqFn, m) && m(k).Some?
    requires u == if m(k).value + v < TWO64 then m(k).value + v else m(k).value + v - TWO64
    requires Get(heap', eqFn, k) == Some(u) && Updated(heap, heap', eqFn, k, Get(heap', eqFn, k))
    ensures Stands(heap', eqFn, After(eqFn, m, Inc(k, v)))
  {
    StandsUpdated(heap, heap', eqFn, m, k, Some(u));
  }

  lemma StandsDec(heap: Heap, heap': Heap, eqFn: (Word, Word) -> bool, m: Model, k: Word, v: Word, u: Word)
    requires Stands(heap, eqFn, m) && m(k).Some?
    requires u == if m(k).value >= v then m(k).value - v else m(k).value - v + TWO64
    requires Get(heap', eqFn, k) == Some(u) && Updated(heap, heap', eqFn, k, Get(heap', eqFn, k))
    ensures Stands(heap', eqFn, After(eqFn, m, Dec(k, v)))
  {
    StandsUpdated(heap, heap', eqFn, m, k, Some(u));
  }

  /** Some address is free. */
  lemma SomeRef(heap: Heap) returns (r: Ref)
    ensures r != 0 && r !in heap
  {
    var m := Above(heap.Keys);
    r := m + 1;
  }

  /** calloc: any address not in use. */
  method Allocate(t: Table) returns (at: Ref)
    ensures at != 0 && at !in t.heap
  {
    ghost var r := SomeRef(t.heap);
    at :| at != 0 && at !in t.heap;
  }

  method PerformInsert(t: Table, key: Word, value: Word, memory: bool, ghost m: Model) returns (a: Word)
    requires t.Valid() && t.IsMap() && Stands(t.heap, t.eqFn, m) && (memory ==> m(key).None?)
    modifies t, t.table
    ensures t.Valid() && t.IsMap() && (t.table == old(t.table) || fresh(t.table))
    ensures a == (if memory then 1 else 0) && Stands(t.heap, t.eqFn, After(t.eqFn, m, Insert(key, value, memory)))
  {
    var at := 0;
    if memory {
      at := Allocate(t);
    }
    ghost var heap := t.heap;
    var ok := t.Insert(key, value, at);
    if memory {
      assert Get(heap, t.eqFn, key).None?;
      StandsUpdated(heap, t.heap, t.eqFn, m, key, Some(value));
    }
    a := if ok then 1 else 0;
  }

  method PerformUpdate(t: Table, op: Op, ghost m: Model) returns (a: Word)
    requires t.Valid() && t.IsMap() && Stands(t.heap, t.eqFn, m) && (op.Change? || op.Inc? || op.Dec?)
    modifies t`heap
    ensures t.Valid() && t.IsMap() && a == Answer(m, op) && Stands(t.heap, t.eqFn, After(t.eqFn, m, op))
  {
    ghost var heap := t.heap;
    assert Get(heap, t.eqFn, op.key) == m(op.key);
    var found;
    match op {
      case Change(k, v) =>
        found := t.Change(k, v);
        if found {
          StandsUpdated(heap, t.heap, t.eqFn, m, k, Some(v));
        }
      case Inc(k, v) =>
        found := t.Inc(k, v);
        if found {
          StandsInc(heap, t.heap, t.eqFn, m, k, v, t.Lookup(k).value);
        }
      case Dec(k, v) =>
        found := t.Dec(k, v);
        if found {
          StandsDec(heap, t.heap, t.eqFn, m, k, v, t.Lookup(k).value);
        }
    }
    a := if found then 1 else 0;
  }

  method Perform(t: Table, op: Op, ghost m: Model) returns (a: Word)
    requires t.Valid() && t.IsMap() && Stands(t.heap, t.eqFn, m)
    requires op.Insert? && op.memory ==> m(op.key).None?
    modifies t, t.table
    ensures t.Valid() && t.IsMap() && (t.table == old(t.table) || fresh(t.table))
    ensures a == Answer(m, op) && Stands(t.heap, t.eqFn, After(t.eqFn, m, op))
  {
    ghost var heap := t.heap;
    match op
    case Insert(k, v, memory) => a := PerformInsert(t, k, v, memory, m);
    case Remove(k) =>
      assert Get(heap, t.eqFn, k) == m(k);
      a := t.Remove(k);
      StandsUpdated(heap, t.heap, t.eqFn, m, k, None);
    case Search(k) =>
      assert Get(heap, t.eqFn, k) == m(k);
      a := t.Search(k);
    case _ => a := PerformUpdate(t, op, m);
  }

  /** From pet_create_htable on: whatever calls are made, with growth and wrap-around as they come,
      every answer is the plain map's and the table ends up standing for it. */
  method Replay(minSize: nat, hashFn: Word -> nat, eqFn: (Word, Word) -> bool, ops: seq<Op>)
    returns (t: Table?, answers: seq<Word>)
    requires Consistent(hashFn, eqFn) && NewKeys(eqFn, Empty(), ops)
    ensures t == null <==> minSize > 0x4000_0000
    ensures t != null ==> t.Valid() && t.IsMap() && Stands(t.heap, eqFn, AfterAll(eqFn, Empty(), ops))
    ensures t != null ==> |answers| == |ops| && Answered(eqFn, ops, answers)
  {
    answers := [];
    t := Table.Create(minSize, hashFn, eqFn);
    if t == null {
      return;
    }
    ghost var m := Empty();
    for i := 0 to |ops|
      invariant fresh(t) && fresh(t.table) && t.hashFn == hashFn && t.eqFn == eqFn
      invariant t.Valid() && t.IsMap() && Stands(t.heap, eqFn, m)
      invariant m == AfterAll(eqFn, Empty(), ops[..i]) && |answers| == i && Answered(eqFn, ops, answers)
    {
      var a := Perform(t, ops[i], m);
      answers := answers + [a];
      OneOpMore(eqFn, ops, i);
      m := After(eqFn, m, ops[i]);
    }
    assert ops[..|ops|] == ops;
  }

  /** The answers so far are the plain map's. */
  ghost predicate Answered(eqFn: (Word, Word) -> bool, ops: seq<Op>, answers: seq<Word>) {
    && |answers| <= |ops|
    && forall i :: 0 <= i < |answers| ==> answers[i] == Answer(AfterAll(eqFn, Empty(), ops[..i]), ops[i])
  }

  lemma OneOpMore(eqFn: (Word, Word) -> bool, ops: seq<Op>, i: nat)
    requires i < |ops|
    ensures AfterAll(eqFn, Empty(), ops[..i + 1]) == After(eqFn, AfterAll(eqFn, Empty(), ops[..i]), ops[i])
  {
    assert ops[..i + 1][..i] == ops[..i];
  }
}
