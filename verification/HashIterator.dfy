/** The iterator of user_threads/pet_hashtable.c, which may remove the entry it stands on. */
module HashIterator {
  import opened Options
  import opened Lists
  import opened HashChains
  import opened HashTable

  // ---- A sweep over the table -----------------------------------------------------------

  datatype IterOp = Advance | Remove

  /** What an iteration is about: the entries the table holds, and those still to come, the one
      the iterator stands on first. */
  datatype Sweep = Sweep(held: set<Ref>, ahead: seq<Ref>)

  function SweepStep(s: Sweep, op: IterOp): Sweep
    requires s.ahead != []
  {
    Sweep(if op.Remove? then s.held - {s.ahead[0]} else s.held, s.ahead[1..])
  }

  /** The entries removed. */
  ghost function Gone(ahead: seq<Ref>, ops: seq<IterOp>): set<Ref>
    requires |ops| <= |ahead|
  {
    set i | 0 <= i < |ops| && ops[i].Remove? :: ahead[i]
  }

  /** Empty slots contribute nothing. */
  lemma {:induction false} FlattenSkips(heap: Heap, on: set<Ref>, table: seq<Ref>, chains: seq<seq<Ref>>, b: nat,
                                        d: nat)
    requires Shape(heap, on, table, chains) && b <= d <= |table| && forall j :: b <= j < d ==> table[j] == 0
    ensures Flatten(chains, b) == Flatten(chains, d)
    decreases d - b
  {
    if b == d {
    } else {
      assert Bucket(heap, on, table[b], chains[b], b, |table|);
      FlattenSkips(heap, on, table, chains, b + 1, d);
    }
  }

  /** What is ahead after the entry at i of chain b, by the link in that entry. */
  lemma AheadNext(heap: Heap, table: seq<Ref>, chains: seq<seq<Ref>>, b: nat, i: nat)
    requires Shape(heap, heap.Keys, table, chains) && b < |chains| && i < |chains[b]|
    ensures var c := chains[b];
            && c[i] in heap && Distinct(c) && (forall r :: r in c ==> r != 0 && r in heap)
            && From(chains, b, i)[0] == c[i]
            && heap[c[i]].next == At(c, i + 1)
            && From(chains, b, i)[1..] == From(chains, b, i + 1)
  {
    var c := chains[b];
    assert Bucket(heap, heap.Keys, table[b], c, b, |table|);
    assert c[i] in c && heap[c[i]].next == At(c, i + 1);
    assert c[i..] == [c[i]] + c[i + 1..];
  }

  /** What is ahead from slot b on, when its first entry was found at slot i. */
  lemma AheadForward(heap: Heap, table: seq<Ref>, chains: seq<seq<Ref>>, b: nat, i: nat, entry: Ref)
    requires Shape(heap, heap.Keys, table, chains) && Forward(table, b, i, entry)
    ensures entry == 0 ==> Flatten(chains, b) == []
    ensures entry != 0 ==> chains[i] != [] && entry == chains[i][0] && Flatten(chains, b) == From(chains, i, 0)
  {
    FlattenSkips(heap, heap.Keys, table, chains, b, i);
    if i < |table| {
      assert Bucket(heap, heap.Keys, table[i], chains[i], i, |table|);
    }
  }

  /** What is ahead after entry i of chain b is dropped. */
  lemma AheadDropped(chains: seq<seq<Ref>>, b: nat, i: nat)
    requires b < |chains| && i < |chains[b]|
    ensures From(chains[b := Dropped(chains[b], i)], b, i) == From(chains, b, i + 1)
    ensures Flatten(chains[b := Dropped(chains[b], i)], b + 1) == Flatten(chains, b + 1)
  {
    FlattenSuffix(chains, chains[b := Dropped(chains[b], i)], b + 1);
  }

  ghost function From(chains: seq<seq<Ref>>, b: nat, i: nat): seq<Ref>
    requires b < |chains| && i <= |chains[b]|
  {
    chains[b][i..] + Flatten(chains, b + 1)
  }

  /** The iterator stands on entry i of chain b, which `parent` links to; or it has ended. */
  ghost predicate StandsOn(chains: seq<seq<Ref>>, b: nat, i: nat, entry: Ref, parent: Ref) {
    entry != 0 ==>
      && b < |chains| && i < |chains[b]| && entry == chains[b][i] && parent == (if i == 0 then 0 else chains[b][i - 1])
  }

  ghost function AheadOf(chains: seq<seq<Ref>>, b: nat, i: nat, entry: Ref, parent: Ref): seq<Ref>
    requires StandsOn(chains, b, i, entry, parent)
  {
    if entry == 0 then [] else From(chains, b, i)
  }

  /** Where the links lead from entry i of chain b: along the chain, or to the first slot that
      has one. */
  ghost predicate Followed(table: seq<Ref>, c: seq<Ref>, b: nat, i: nat, b': nat, entry: Ref) {
    if At(c, i + 1) != 0 then entry == At(c, i + 1) && b' == b else Forward(table, b + 1, b', entry)
  }

  /** Following the link of an entry leaves the iterator on what was next. */
  lemma AdvancedAhead(heap: Heap, table: seq<Ref>, chains: seq<seq<Ref>>, b: nat, i: nat,
                      b': nat, i': nat, entry: Ref, parent: Ref)
    requires Shape(heap, heap.Keys, table, chains) && b < |chains| && i < |chains[b]|
    requires forall r :: r in chains[b] ==> r != 0
    requires Followed(table, chains[b], b, i, b', entry)
    requires if b' == b then i' == i + 1 && parent == chains[b][i] else i' == 0 && parent == 0
    ensures StandsOn(chains, b', i', entry, parent)
    ensures AheadOf(chains, b', i', entry, parent) == From(chains, b, i + 1)
  {
    if i + 1 < |chains[b]| {
      assert chains[b][i + 1] in chains[b];
    } else {
      AheadForward(heap, table, chains, b + 1, b', entry);
    }
  }

  /** Removing entry i of chain b and following its link along the chain. */
  lemma RemovedWithin(chains0: seq<seq<Ref>>, chains: seq<seq<Ref>>, b: nat, i: nat, entry: Ref, parent: Ref)
    requires b < |chains0| && i + 1 < |chains0[b]| && entry == chains0[b][i + 1]
    requires StandsOn(chains0, b, i, chains0[b][i], parent) && chains0[b][i] != 0
    requires chains == chains0[b := Dropped(chains0[b], i)]
    ensures StandsOn(chains, b, i, entry, parent) && From(chains, b, i) == From(chains0, b, i + 1)
  {
    AheadDropped(chains0, b, i);
    var c, d := chains0[b], Dropped(chains0[b], i);
    assert |d| == |c| - 1 && (i > 0 ==> d[i - 1] == c[i - 1]) && d[i] == c[i + 1];
  }

  /** Removing the last entry of chain b and going to the next slot that has one. */
  lemma RemovedLast(heap: Heap, table: seq<Ref>, chains0: seq<seq<Ref>>, chains: seq<seq<Ref>>, b: nat, i: nat,
                    b': nat, entry: Ref)
    requires b < |chains0| && i + 1 == |chains0[b]|
    requires chains == chains0[b := Dropped(chains0[b], i)] && Shape(heap, heap.Keys, table, chains)
    requires Forward(table, b + 1, b', entry)
    ensures StandsOn(chains, b', 0, entry, 0) && AheadOf(chains, b', 0, entry, 0) == From(chains0, b, i + 1)
  {
    AheadDropped(chains0, b, i);
    AheadForward(heap, table, chains, b + 1, b', entry);
  }

  /** Removing an entry and following its link leaves the iterator on what was next. */
  lemma RemovedAhead(heap: Heap, table: seq<Ref>, chains0: seq<seq<Ref>>, chains: seq<seq<Ref>>, b: nat, i: nat,
                     parent0: Ref, b': nat, i': nat, entry: Ref, parent: Ref)
    requires b < |chains0| && i < |chains0[b]| && StandsOn(chains0, b, i, chains0[b][i], parent0)
    requires forall r :: r in chains0[b] ==> r != 0
    requires chains == chains0[b := Dropped(chains0[b], i)] && Shape(heap, heap.Keys, table, chains)
    requires Followed(table, chains0[b], b, i, b', entry)
    requires if b' == b then i' == i && parent == parent0 else i' == 0 && parent == 0
    ensures StandsOn(chains, b', i', entry, parent)
    ensures AheadOf(chains, b', i', entry, parent) == From(chains0, b, i + 1)
  {
    assert chains0[b][i] in chains0[b];
    if i + 1 < |chains0[b]| {
      assert chains0[b][i + 1] in chains0[b];
      RemovedWithin(chains0, chains, b, i, entry, parent0);
    } else {
      RemovedLast(heap, table, chains0, chains, b, i, b', entry);
    }
  }

  class Iter {
    var htable: Table
    var entry: Ref
    var parent: Ref
    var index: nat
    /** How far along its chain the iterator stands. */
    ghost var pos: nat

    ghost predicate Standing()
      reads this, htable
    {
      StandsOn(htable.chains, index, pos, entry, parent)
    }

    ghost predicate Valid()
      reads this, htable, htable.table
    {
      htable.Valid() && Standing()
    }

    ghost function Ahead(): seq<Ref>
      requires Standing()
      reads this, htable
    {
      AheadOf(htable.chains, index, pos, entry, parent)
    }

    ghost function View(): Sweep
      requires Standing()
      reads this, htable
    {
      Sweep(htable.heap.Keys, Ahead())
    }

    /** pet_htable_create_iter. A count that has wrapped to 0 makes a full table look empty. */
    constructor (htable: Table)
      requires htable.Valid()
      ensures this.htable == htable && Valid()
      ensures Ahead() == if |htable.heap| % 0x1_0000_0000 == 0 then [] else Flatten(htable.chains, 0)
    {
      this.htable, entry, parent, index, pos := htable, 0, 0, htable.table.Length, 0;
      new;
      if htable.entryCount == 0 {
        return;
      }
      var i := 0;
      while i < htable.table.Length && htable.table[i] == 0
        invariant 0 <= i <= htable.table.Length && forall j :: 0 <= j < i ==> htable.table[j] == 0
      {
        i := i + 1;
      }
      FlattenSkips(htable.heap, htable.heap.Keys, htable.table[..], htable.chains, 0, i);
      if i < htable.table.Length {
        assert Bucket(htable.heap, htable.heap.Keys, htable.table[..][i], htable.chains[i], i, htable.table.Length);
        entry, index := htable.table[i], i;
      }
    }

    /** pet_htable_iter_advance in terms of the links it reads; removal calls it while the entry
        stood on is off its chain but not yet freed. */
    method Follow() returns (more: bool)
      requires entry != 0 && entry in htable.heap && index < htable.table.Length
      modifies this`entry, this`parent, this`index
      ensures more == (entry != 0)
      ensures var next := htable.heap[old(entry)].next;
        if next != 0 then entry == next && parent == old(entry) && index == old(index)
        else parent == 0 && Forward(htable.table[..], old(index) + 1, index, entry)
    {
      var next := htable.heap[entry].next;
      if next != 0 {
        parent, entry := entry, next;
        return true;
      }
      parent := 0;
      index := index + 1;
      var j := index;
      if htable.table.Length <= j {
        entry := 0;
        return false;
      }
      while htable.table[j] == 0
        invariant index <= j < htable.table.Length && forall d :: index <= d < j ==> htable.table[d] == 0
        decreases htable.table.Length - j
      {
        j := j + 1;
        if j >= htable.table.Length {
          index, entry := htable.table.Length, 0;
          return false;
        }
      }
      index, entry := j, htable.table[j];
      more := true;
    }

    /** pet_htable_iter_advance. */
    method Advance() returns (more: bool)
      requires Valid()
      modifies this
      ensures Valid() && htable == old(htable) && more == (entry != 0)
      ensures old(entry) == 0 ==> unchanged(this)
      ensures old(entry) != 0 ==> View() == SweepStep(old(View()), IterOp.Advance)
    {
      if entry == 0 {
        return false;
      }
      ghost var b, i := index, pos;
      AheadNext(htable.heap, htable.table[..], htable.chains, b, i);
      more := Follow();
      pos := if index == b then pos + 1 else 0;
      AdvancedAhead(htable.heap, htable.table[..], htable.chains, b, i, index, pos, entry, parent);
    }

    /** pet_htable_iter_remove up to the release: the entry unlinked, the iterator moved on. */
    method Detach() returns (more: bool)
      requires Valid() && entry != 0
      modifies this, htable`heap, htable`entryCount, htable.table
      ensures htable == old(htable) && more == (entry != 0)
      ensures htable.entryCount == Down(old(htable.entryCount))
      ensures Skipped(old(htable.heap), old(htable.table[..]), htable.chains[old(index)], old(index), old(pos),
                      htable.heap, htable.table[..])
      ensures Followed(htable.table[..], htable.chains[old(index)], old(index), old(pos), index, entry)
      ensures if index == old(index) then pos == old(pos) && parent == old(parent) else pos == 0 && parent == 0
    {
      AheadNext(htable.heap, htable.table[..], htable.chains, index, pos);
      htable.Unlink(index, entry, parent, pos);
      var rememberEntry, rememberParent := entry, parent;
      more := Follow();
      if parent == rememberEntry {
        parent := rememberParent;
      } else {
        pos := 0;
      }
    }

    /** pet_htable_iter_remove. */
    method Remove() returns (more: bool)
      requires Valid() && entry != 0
      modifies this, htable, htable.table
      ensures Valid() && htable == old(htable) && htable.table == old(htable.table) && more == (entry != 0)
      ensures SameData(old(htable.heap) - {old(entry)}, htable.heap)
      ensures View() == SweepStep(old(View()), IterOp.Remove)
      ensures old(htable.IsMap()) ==>
        htable.IsMap() && Updated(old(htable.heap), htable.heap, htable.eqFn, old(htable.heap[entry].key), None)
    {
      ghost var heap0, gone := htable.heap, entry;
      AheadNext(heap0, htable.table[..], htable.chains, index, pos);
      more := RemoveEntry();
      if old(htable.IsMap()) {
        LostGet(heap0, htable.heap, htable.hashFn, htable.eqFn, gone, heap0[gone].key);
      }
    }

    /** What removal does to the entries. */
    method RemoveEntry() returns (more: bool)
      requires Valid() && entry != 0
      modifies this, htable, htable.table
      ensures Valid() && htable == old(htable) && htable.table == old(htable.table) && more == (entry != 0)
      ensures SameData(old(htable.heap) - {old(entry)}, htable.heap)
      ensures View() == SweepStep(old(View()), IterOp.Remove)
    {
      ghost var b, i, p := index, pos, parent;
      ghost var heap0, table0, chains0 := htable.heap, htable.table[..], htable.chains;
      var rememberEntry := entry;
      AheadNext(heap0, table0, chains0, b, i);
      more := Detach();
      htable.Release(rememberEntry, heap0, table0, old(htable.entryCount), b, i);
      RemovedAhead(htable.heap, htable.table[..], chains0, htable.chains, b, i, p, index, pos, entry, parent);
    }

    /** pet_htable_iter_search: found, the iterator stands on the first entry with the key. */
    method Find(t: Table, key: Word) returns (found: bool)
      requires t.Valid()
      modifies this
      ensures !found ==> unchanged(this)
      ensures found ==> htable == t && Valid() && entry != 0 && t.eqFn(key, t.heap[entry].key)
      ensures t.IsMap() ==> found == t.Lookup(key).Some?
    {
      var i, e, p, at := t.Walk(key);
      if e == 0 {
        return false;
      }
      htable, index, entry, parent, pos := t, i, e, p, at;
      found := true;
    }
  }

  // ---- From a new iterator to its end ---------------------------------------------------

  /** One advance or removal. */
  method TakeStep(it: Iter, op: IterOp) returns (r: Ref)
    requires it.Valid() && it.entry != 0
    modifies it, it.htable, it.htable.table
    ensures it.Valid() && it.htable == old(it.htable) && it.htable.table == old(it.htable.table)
    ensures r == old(it.entry) && old(it.Ahead()) == [r] + it.Ahead()
    ensures SameData(old(it.htable.heap) - (if op.Remove? then {r} else {}), it.htable.heap)
    ensures old(it.htable.IsMap()) ==> it.htable.IsMap()
  {
    r := it.entry;
    AheadNext(it.htable.heap, it.htable.table[..], it.htable.chains, it.index, it.pos);
    var more;
    match op
    case Advance => more := it.Advance();
    case Remove => more := it.Remove();
  }

  method TakeSteps(it: Iter, ops: seq<IterOp>) returns (visited: seq<Ref>)
    requires it.Valid() && |ops| == |it.Ahead()|
    modifies it, it.htable, it.htable.table
    ensures it.htable == old(it.htable) && it.Valid() && it.entry == 0
    ensures visited == old(it.Ahead()) && SameData(old(it.htable.heap) - Gone(visited, ops), it.htable.heap)
    ensures old(it.htable.IsMap()) ==> it.htable.IsMap()
    decreases |ops|
  {
    if it.entry == 0 {
      assert it.htable.heap - {} == it.htable.heap;
      return [];
    }
    ghost var heap0 := it.htable.heap;
    var r := TakeStep(it, ops[0]);
    ghost var heap1 := it.htable.heap;
    visited := TakeSteps(it, ops[1..]);
    SweptData(heap0, heap1, it.htable.heap, r, visited, ops);
    visited := [r] + visited;
  }

  /** What the first step and the others leave is what all of them leave. */
  lemma SweptData(heap0: Heap, heap1: Heap, heap2: Heap, r: Ref, visited: seq<Ref>, ops: seq<IterOp>)
    requires |ops| == |visited| + 1
    requires SameData(heap0 - (if ops[0].Remove? then {r} else {}), heap1)
    requires SameData(heap1 - Gone(visited, ops[1..]), heap2)
    ensures SameData(heap0 - Gone([r] + visited, ops), heap2)
  {
    assert ([r] + visited)[1..] == visited;
    var one: set<Ref>, rest := if ops[0].Remove? then {r} else {}, Gone(visited, ops[1..]);
    assert heap0 - (rest + one) == heap0 - one - rest;
  }

  /** pet_htable_create_iter and then advances and removals in any mix until the end: every entry
      is stood on exactly once, the entries removed are gone, and the others are as they were. */
  method Iterate(t: Table, ops: seq<IterOp>) returns (visited: seq<Ref>)
    requires t.Valid() && (|t.heap| == 0 || |t.heap| % 0x1_0000_0000 != 0) && |ops| == |t.heap|
    modifies t, t.table
    ensures t.Valid() && Distinct(visited) && forall r :: r in visited <==> r in old(t.heap)
    ensures |visited| == |ops| && SameData(old(t.heap) - Gone(visited, ops), t.heap)
    ensures old(t.IsMap()) ==> t.IsMap()
  {
    ChainsHoldAll(t.heap, t.table[..], t.chains);
    var it := new Iter(t);
    visited := TakeSteps(it, ops);
  }

  /** Slots from b on are empty until slot i, whose first entry it is; or all are. */
  ghost predicate Forward(table: seq<Ref>, b: nat, i: nat, entry: Ref) {
    && b <= i <= |table| && (forall d :: b <= d < i ==> table[d] == 0)
    && (if i < |table| then entry == table[i] != 0 else entry == 0)
  }
}
