/** The chained hash table of user_threads/pet_hashtable.c: a map kept through growth and removal. */
module HashTable {
  import opened Options
  import opened Lists
  import opened HashChains
  import opened Powers

  const PRIMES: seq<nat> := [
    53, 97, 193, 389, 769, 1543, 3079, 6151, 12289, 24593, 49157, 98317, 196613, 393241, 786433, 1572869,
    3145739, 6291469, 12582917, 25165843, 50331653, 100663319, 201326611, 402653189, 805306457, 1610612741]

  const LOAD_FACTORS: seq<nat> := [
    35, 64, 126, 253, 500, 1003, 2002, 3999, 7988, 15986, 31953, 63907, 127799, 255607, 511182, 1022365,
    2044731, 4089455, 8178897, 16357798, 32715575, 65431158, 130862298, 261724573, 523449198, 1046898282]

  const LAST: nat := 25

  /** Both lists grow, and each load limit is the first whole number at or above .65 of its prime. */
  lemma SizesGrow(i: nat)
    requires i <= LAST
    ensures |PRIMES| == |LOAD_FACTORS| == LAST + 1 && 0 < PRIMES[i] < TWO32
    ensures 100 * (LOAD_FACTORS[i] - 1) < 65 * PRIMES[i] <= 100 * LOAD_FACTORS[i]
    ensures i < LAST ==> PRIMES[i] < PRIMES[i + 1] && LOAD_FACTORS[i] < LOAD_FACTORS[i + 1]
  {
  }

  /** The count is n at 32 bits, and the table is within its load limit for n entries unless it
      has the largest size. */
  ghost predicate Fits(primeIndex: nat, length: nat, loadLimit: nat, count: nat, n: nat) {
    && primeIndex <= LAST && |PRIMES| == |LOAD_FACTORS| == LAST + 1
    && length == PRIMES[primeIndex] && loadLimit == LOAD_FACTORS[primeIndex]
    && count == Low32(n) && (primeIndex < LAST ==> n <= loadLimit)
  }

  /** The table of n entries is full, and a larger size is left. */
  predicate GrowsAt(primeIndex: nat, n: nat) {
    primeIndex < LAST && primeIndex < |LOAD_FACTORS| && n == LOAD_FACTORS[primeIndex]
  }

  lemma GrowthPoint(primeIndex: nat, length: nat, loadLimit: nat, count: nat, n: nat)
    requires Fits(primeIndex, length, loadLimit, count, n) && primeIndex < LAST
    ensures Up(count) > loadLimit <==> GrowsAt(primeIndex, n)
  {
    SizesGrow(primeIndex);
    assert loadLimit < TWO32 - 1;
    assert count == n;
  }

  /** One entry more, before any growth. */
  lemma OneMore(primeIndex: nat, length: nat, loadLimit: nat, count: nat, n: nat)
    requires Fits(primeIndex, length, loadLimit, count, n)
    ensures Low32(n + 1) == Up(count) && primeIndex <= LAST
    ensures Up(count) <= loadLimit || primeIndex == LAST ==> Fits(primeIndex, length, loadLimit, Up(count), n + 1)
  {
    SizesGrow(primeIndex);
  }

  /** One entry more, after growth. */
  lemma OneMoreGrown(primeIndex: nat, length: nat, loadLimit: nat, count: nat, n: nat, length': nat, loadLimit': nat)
    requires Fits(primeIndex, length, loadLimit, count, n) && primeIndex < LAST
    requires length' == PRIMES[primeIndex + 1] && loadLimit' == LOAD_FACTORS[primeIndex + 1]
    ensures Fits(primeIndex + 1, length', loadLimit', Up(count), n + 1)
  {
    SizesGrow(primeIndex);
  }

  lemma OneLess(primeIndex: nat, length: nat, loadLimit: nat, count: nat, n: nat)
    requires Fits(primeIndex, length, loadLimit, count, n) && n > 0
    ensures Fits(primeIndex, length, loadLimit, Down(count), n - 1)
  {
  }

  /** The entry a walk along chain c for a key stops at: the first with its hash and an equal key. */
  ghost predicate StopsAt(heap: Heap, c: seq<Ref>, hashFn: Word -> nat, eqFn: (Word, Word) -> bool, key: Word, i: nat)
    requires forall r :: r in c ==> r in heap
  {
    && i <= |c|
    && (forall j :: 0 <= j < i ==> !Matches(heap[c[j]], hashFn, eqFn, key))
    && (i < |c| ==> Matches(heap[c[i]], hashFn, eqFn, key))
  }

  predicate Matches(e: HashEntry, hashFn: Word -> nat, eqFn: (Word, Word) -> bool, key: Word) {
    hashFn(key) == e.hash && eqFn(key, e.key)
  }

  class Table {
    var table: array<Ref>
    var entryCount: nat
    var loadLimit: nat
    var primeIndex: nat
    /** do_hash over the caller's hash function, and the caller's equality. */
    const hashFn: Word -> nat
    const eqFn: (Word, Word) -> bool
    /** The entries in memory. */
    var heap: Heap
    /** What each slot leads to. */
    ghost var chains: seq<seq<Ref>>

    /** Every entry carries its key's hash and is on the one chain that names. */
    ghost predicate Linked()
      reads this, table
    {
      Shape(heap, heap.Keys, table[..], chains) && Hashed(heap, hashFn)
    }

    ghost predicate Loaded(n: nat)
      reads this
    {
      Fits(primeIndex, table.Length, loadLimit, entryCount, n)
    }

    ghost predicate Valid()
      reads this, table
    {
      Linked() && Loaded(|heap|)
    }

    /** The caller's functions agree and no key is in twice: then the table stands for a map. */
    ghost predicate IsMap()
      reads this
    {
      Keyed(heap, hashFn, eqFn)
    }

    ghost function Lookup(key: Word): Option<Word>
      reads this
    {
      Get(heap, eqFn, key)
    }

    constructor Sized(index: nat, hashFn: Word -> nat, eqFn: (Word, Word) -> bool)
      requires index <= LAST
      ensures Valid() && fresh(table) && heap == map[] && primeIndex == index
      ensures this.hashFn == hashFn && this.eqFn == eqFn
    {
      SizesGrow(index);
      table := new Ref[PRIMES[index]](i => 0);
      primeIndex, loadLimit, entryCount := index, LOAD_FACTORS[index], 0;
      this.hashFn, this.eqFn := hashFn, eqFn;
      heap := map[];
      chains := seq(PRIMES[index], i => []);
    }

    /** pet_create_htable: NULL for a size above 1u << 30, else the first prime above the size. */
    static method Create(minSize: nat, hashFn: Word -> nat, eqFn: (Word, Word) -> bool) returns (t: Table?)
      ensures t == null <==> minSize > 0x4000_0000
      ensures t != null ==>
        && fresh(t) && fresh(t.table) && t.Valid() && t.heap == map[] && t.hashFn == hashFn && t.eqFn == eqFn
        && t.table.Length > minSize
        && (forall j :: 0 <= j < t.primeIndex ==> PRIMES[j] <= minSize)
    {
      if minSize > 0x4000_0000 {
        return null;
      }
      var i := 0;
      while PRIMES[i] <= minSize
        invariant 0 <= i <= LAST
        invariant forall j :: 0 <= j < i ==> PRIMES[j] <= minSize
        decreases LAST - i
      {
        i := i + 1;
      }
      t := new Table.Sized(i, hashFn, eqFn);
    }

    // ---- Growth -------------------------------------------------------------------------

    /** The body of the inner loop of hashtable_expand. */
    method MoveHead(i: nat, newTable: array<Ref>, ghost heap0: Heap, ghost there: set<Ref>,
                    ghost newChains: seq<seq<Ref>>)
      returns (ghost there': set<Ref>, ghost newChains': seq<seq<Ref>>)
      requires newTable != table && i < table.Length && table[i] != 0
      requires Rehashing(heap0, heap, there, table[..], chains, newTable[..], newChains)
      modifies this`heap, this`chains, table, newTable
      ensures Rehashing(heap0, heap, there', table[..], chains, newTable[..], newChains')
      ensures heap.Keys - there' < old(heap.Keys) - there
      ensures forall b :: 0 <= b < i ==> table[b] == old(table[b])
    {
      var r := table[i];
      ghost var old0, new0, before := table[..], newTable[..], heap;
      ghost var j0 := MoveOne(heap0, heap, there, old0, chains, new0, newChains, i);
      table[i] := heap[r].next;
      var j := Slot(heap[r].hash, newTable.Length);
      heap := heap[r := heap[r].(next := newTable[j])];
      newTable[j] := r;
      chains, newChains' := chains[i := chains[i][1..]], newChains[j := [r] + newChains[j]];
      there' := there + {r};
      assert table[..] == old0[i := before[r].next] && newTable[..] == new0[j := r];
    }

    /** The two loops of hashtable_expand: every entry moves to the new table. */
    method Rehash(newTable: array<Ref>)
      requires Shape(heap, heap.Keys, table[..], chains)
      requires newTable != table && newTable.Length > 0 && forall b :: 0 <= b < newTable.Length ==> newTable[b] == 0
      modifies this`heap, this`chains, table, newTable
      ensures Shape(heap, heap.Keys, newTable[..], chains) && SameData(old(heap), heap)
    {
      ghost var newChains: seq<seq<Ref>> := seq(newTable.Length, i => []);
      ghost var there: set<Ref> := {};
      for i := 0 to table.Length
        invariant Rehashing(old(heap), heap, there, table[..], chains, newTable[..], newChains)
        invariant forall b :: 0 <= b < i ==> table[b] == 0
      {
        while table[i] != 0
          invariant Rehashing(old(heap), heap, there, table[..], chains, newTable[..], newChains)
          invariant forall b :: 0 <= b < i ==> table[b] == 0
          decreases heap.Keys - there
        {
          there, newChains := MoveHead(i, newTable, old(heap), there, newChains);
        }
      }
      AllMoved(old(heap), heap, there, table[..], chains, newTable[..], newChains);
      chains := newChains;
    }

    /** hashtable_expand with memory for the new table. */
    method Expand() returns (grown: bool)
      requires Shape(heap, heap.Keys, table[..], chains) && primeIndex <= LAST
      modifies this, table
      ensures grown == (old(primeIndex) < LAST)
      ensures !grown ==> unchanged(this) && unchanged(table)
      ensures grown ==> primeIndex == old(primeIndex) + 1 && fresh(table) && table.Length == PRIMES[primeIndex]
      ensures grown ==> loadLimit == LOAD_FACTORS[primeIndex] && entryCount == old(entryCount)
      ensures Shape(heap, heap.Keys, table[..], chains) && SameData(old(heap), heap)
    {
      if primeIndex == LAST {
        return false;
      }
      primeIndex := primeIndex + 1;
      SizesGrow(primeIndex);
      var newTable := new Ref[PRIMES[primeIndex]](i => 0);
      Rehash(newTable);
      table := newTable;
      loadLimit := LOAD_FACTORS[primeIndex];
      grown := true;
    }

    // ---- Operations ---------------------------------------------------------------------

    /** The count and the growth that pet_htable_insert begins with. */
    method Reserve()
      requires Valid()
      modifies this, table
      ensures Linked() && Loaded(|heap| + 1) && SameData(old(heap), heap)
      ensures primeIndex == if GrowsAt(old(primeIndex), |old(heap)|) then old(primeIndex) + 1 else old(primeIndex)
      ensures table == old(table) || fresh(table)
    {
      ghost var i, n, limit, count, k := primeIndex, table.Length, loadLimit, entryCount, |heap|;
      OneMore(i, n, limit, count, k);
      if i < LAST {
        GrowthPoint(i, n, limit, count, k);
      }
      entryCount := Up(entryCount);
      if entryCount > loadLimit {
        var grown := Expand();
        if grown {
          OneMoreGrown(i, n, limit, count, k, table.Length, loadLimit);
        }
      }
    }

    /** The new entry in front of its chain. */
    method Push(key: Word, value: Word, at: Ref)
      requires Linked() && at != 0 && at !in heap
      modifies this`heap, this`chains, table
      ensures Linked() && at in heap && heap - {at} == old(heap)
      ensures heap[at].key == key && heap[at].value == value && |heap| == |old(heap)| + 1
      ensures |old(chains)| > 0
      ensures var b := Slot(hashFn(key), |old(chains)|); chains == old(chains)[b := [at] + old(chains)[b]]
    {
      var e := HashEntry(key, value, hashFn(key), 0);
      var index := Slot(e.hash, table.Length);
      e := e.(next := table[index]);
      ghost var heads := table[..];
      ShapePush(heap, heap.Keys, heads, chains, at, e, index);
      heap := heap[at := e];
      table[index] := at;
      chains := chains[index := [at] + chains[index]];
      assert table[..] == heads[index := at];
      assert heap.Keys == old(heap).Keys + {at};
      assert heap - {at} == old(heap);
    }

    /** pet_htable_insert. The entry's address `at` is what calloc returned, 0 when it failed. */
    method Insert(key: Word, value: Word, at: Ref) returns (ok: bool)
      requires Valid() && (at != 0 ==> at !in heap)
      modifies this, table
      ensures Valid() && ok == (at != 0) && (table == old(table) || fresh(table))
      ensures !ok ==> SameData(old(heap), heap)
      ensures ok ==> at in heap && heap[at].key == key && heap[at].value == value && SameData(old(heap), heap - {at})
      ensures old(IsMap()) && !ok ==> IsMap() && SameMap(old(heap), heap, eqFn)
      ensures old(IsMap()) && ok ==> (IsMap() <==> old(Lookup(key)).None?)
      ensures old(IsMap()) && ok && IsMap() ==> Updated(old(heap), heap, eqFn, key, Some(value))
    {
      ok := Add(key, value, at);
      if old(IsMap()) {
        if ok {
          InsertedGet(old(heap), heap - {at}, heap, hashFn, eqFn, at, key, value);
        } else {
          SameGet(old(heap), heap, hashFn, eqFn);
        }
      }
    }

    /** The entries after pet_htable_insert. */
    method Add(key: Word, value: Word, at: Ref) returns (ok: bool)
      requires Valid() && (at != 0 ==> at !in heap)
      modifies this, table
      ensures Valid() && ok == (at != 0) && (table == old(table) || fresh(table))
      ensures !ok ==> SameData(old(heap), heap)
      ensures ok ==> at in heap && heap[at].key == key && heap[at].value == value && SameData(old(heap), heap - {at})
    {
      Reserve();
      if at == 0 {
        OneLess(primeIndex, table.Length, loadLimit, entryCount, |heap| + 1);
        entryCount := Down(entryCount);
        return false;
      }
      Push(key, value, at);
      ok := true;
    }

    /** The walk that change, inc, dec, search, remove and iter_search each begin with. */
    method Walk(key: Word) returns (index: nat, entry: Ref, parent: Ref, ghost pos: nat)
      requires Valid()
      ensures index == Slot(hashFn(key), table.Length) && StopsAt(heap, chains[index], hashFn, eqFn, key, pos)
      ensures entry == At(chains[index], pos) && parent == (if pos == 0 then 0 else chains[index][pos - 1])
      ensures IsMap() ==> Lookup(key) == if entry == 0 then None else Some(heap[entry].value)
    {
      index := Slot(hashFn(key), table.Length);
      entry, parent, pos := table[index], 0, 0;
      ghost var c := chains[index];
      assert Bucket(heap, heap.Keys, table[..][index], c, index, table.Length);
      while entry != 0 && !Matches(heap[entry], hashFn, eqFn, key)
        invariant pos <= |c| && entry == At(c, pos) && parent == (if pos == 0 then 0 else c[pos - 1])
        invariant forall j :: 0 <= j < pos ==> !Matches(heap[c[j]], hashFn, eqFn, key)
        decreases |c| - pos
      {
        parent := entry;
        entry := heap[entry].next;
        pos := pos + 1;
      }
      if IsMap() {
        StopsAtGet(heap, table[..], chains, hashFn, eqFn, key, index, pos);
      }
    }

    /** pet_htable_search. */
    method Search(key: Word) returns (value: Word)
      requires Valid()
      ensures value == 0 || exists r :: r in heap && eqFn(key, heap[r].key) && value == heap[r].value
      ensures IsMap() ==> value == match Lookup(key) { case Some(v) => v case None => 0 }
    {
      var _, entry, _, _ := Walk(key);
      value := if entry != 0 then heap[entry].value else 0;
    }

    /** The store to an entry's value. */
    method SetValue(entry: Ref, ghost key: Word, v: Word)
      requires Valid() && entry in heap && eqFn(key, heap[entry].key)
      modifies this`heap
      ensures Valid() && heap == old(heap)[entry := old(heap)[entry].(value := v)]
      ensures old(IsMap()) ==> IsMap() && Lookup(key) == Some(v) && Updated(old(heap), heap, eqFn, key, Some(v))
    {
      if IsMap() {
        SetGet(heap, heap[entry := heap[entry].(value := v)], hashFn, eqFn, entry, key, v);
      }
      heap := heap[entry := heap[entry].(value := v)];
      assert heap.Keys == old(heap).Keys;
    }

    /** pet_htable_change. */
    method Change(key: Word, value: Word) returns (found: bool)
      requires Valid()
      modifies this`heap
      ensures Valid() && (!found ==> unchanged(this))
      ensures found ==>
        exists r :: r in old(heap) && eqFn(key, old(heap)[r].key) &&
          heap == old(heap)[r := old(heap)[r].(value := value)]
      ensures old(IsMap()) ==> IsMap() && found == old(Lookup(key)).Some?
      ensures old(IsMap()) && found ==> Updated(old(heap), heap, eqFn, key, Some(value))
    {
      var _, entry, _, _ := Walk(key);
      if entry == 0 {
        return false;
      }
      var v := value;
      SetValue(entry, key, v);
      found := true;
    }

    /** pet_htable_inc, at 64 bits. */
    method Inc(key: Word, value: Word) returns (found: bool)
      requires Valid()
      modifies this`heap
      ensures Valid() && (!found ==> unchanged(this))
      ensures found ==>
        exists r :: r in old(heap) && eqFn(key, old(heap)[r].key) &&
          heap == old(heap)[r := old(heap)[r].(value := Plus(old(heap)[r].value, value))]
      ensures old(IsMap()) ==> IsMap() && found == old(Lookup(key)).Some?
      ensures old(IsMap()) && found ==>
        var w := old(Lookup(key)).value + value;
        && Lookup(key).Some? && Lookup(key).value == (if w < TWO64 then w else w - TWO64)
        && Updated(old(heap), heap, eqFn, key, Lookup(key))
    {
      var _, entry, _, _ := Walk(key);
      if entry == 0 {
        return false;
      }
      var v := Plus(heap[entry].value, value);
      SetValue(entry, key, v);
      found := true;
    }

    /** pet_htable_dec, at 64 bits. */
    method Dec(key: Word, value: Word) returns (found: bool)
      requires Valid()
      modifies this`heap
      ensures Valid() && (!found ==> unchanged(this))
      ensures found ==>
        exists r :: r in old(heap) && eqFn(key, old(heap)[r].key) &&
          heap == old(heap)[r := old(heap)[r].(value := Minus(old(heap)[r].value, value))]
      ensures old(IsMap()) ==> IsMap() && found == old(Lookup(key)).Some?
      ensures old(IsMap()) && found ==>
        var w := old(Lookup(key)).value - value;
        && Lookup(key).Some? && Lookup(key).value == (if w >= 0 then w else w + TWO64)
        && Updated(old(heap), heap, eqFn, key, Lookup(key))
    {
      var _, entry, _, _ := Walk(key);
      if entry == 0 {
        return false;
      }
      var v := Minus(heap[entry].value, value);
      SetValue(entry, key, v);
      found := true;
    }

    /** pet_htable_remove. */
    method Remove(key: Word) returns (value: Word)
      requires Valid()
      modifies this, table
      ensures Valid() && table == old(table)
      ensures (unchanged(this) && unchanged(table)) ||
        exists r :: r in old(heap) && eqFn(key, old(heap)[r].key) && value == old(heap)[r].value &&
          SameData(old(heap) - {r}, heap)
      ensures old(IsMap()) ==> IsMap() && Updated(old(heap), heap, eqFn, key, None)
      ensures old(IsMap()) ==> value == match old(Lookup(key)) { case Some(v) => v case None => 0 }
    {
      var index, entry, parent, pos := Walk(key);
      if entry == 0 {
        return 0;
      }
      value := heap[entry].value;
      Take(index, entry, parent, pos);
      if old(IsMap()) {
        LostGet(old(heap), heap, hashFn, eqFn, entry, key);
      }
    }

    /** An entry found by Walk is unlinked and released. */
    method Take(index: nat, entry: Ref, parent: Ref, ghost pos: nat)
      requires Valid() && index < table.Length && pos < |chains[index]| && entry == chains[index][pos]
      requires parent == (if pos == 0 then 0 else chains[index][pos - 1])
      modifies this`heap, this`entryCount, this`chains, table
      ensures Valid() && entry in old(heap) && SameData(old(heap) - {entry}, heap)
    {
      Unlink(index, entry, parent, pos);
      Release(entry, old(heap), old(table[..]), old(entryCount), index, pos);
    }

    /** The link to an entry led past it, and the count. */
    method Unlink(index: nat, entry: Ref, parent: Ref, ghost pos: nat)
      requires Linked() && index < table.Length && pos < |chains[index]| && entry == chains[index][pos]
      requires parent == (if pos == 0 then 0 else chains[index][pos - 1])
      modifies this`heap, this`entryCount, table
      ensures entryCount == Down(old(entryCount))
      ensures Skipped(old(heap), old(table[..]), chains[index], index, pos, heap, table[..])
    {
      assert Bucket(heap, heap.Keys, table[..][index], chains[index], index, table.Length);
      if parent == 0 {
        table[index] := heap[entry].next;
      } else {
        heap := heap[parent := heap[parent].(next := heap[entry].next)];
      }
      entryCount := Down(entryCount);
    }

    /** The release of an unlinked entry that is counted no more. */
    method Release(entry: Ref, ghost heap0: Heap, ghost table0: seq<Ref>, ghost count0: nat, ghost index: nat,
                   ghost pos: nat)
      requires Shape(heap0, heap0.Keys, table0, chains) && Hashed(heap0, hashFn)
      requires index < |chains| && pos < |chains[index]| && entry == chains[index][pos]
      requires Skipped(heap0, table0, chains[index], index, pos, heap, table[..])
      requires Fits(primeIndex, table.Length, loadLimit, count0, |heap0|) && entryCount == Down(count0)
      modifies this`heap, this`chains
      ensures Valid() && SameData(heap0 - {entry}, heap) && entry in heap0
      ensures chains == old(chains)[index := Dropped(old(chains)[index], pos)]
    {
      OnChain(heap0, table0, chains, index, pos);
      OneLess(primeIndex, table.Length, loadLimit, count0, |heap0|);
      Free(entry, heap0, table0, index, pos);
    }

    /** The entry's memory given back. */
    method Free(entry: Ref, ghost heap0: Heap, ghost table0: seq<Ref>, ghost index: nat, ghost pos: nat)
      requires Shape(heap0, heap0.Keys, table0, chains) && Hashed(heap0, hashFn)
      requires index < |chains| && pos < |chains[index]| && entry == chains[index][pos]
      requires Skipped(heap0, table0, chains[index], index, pos, heap, table[..])
      modifies this`heap, this`chains
      ensures Linked() && SameData(heap0 - {entry}, heap) && entry in heap0
      ensures |heap| == |heap0| - 1
      ensures chains == old(chains)[index := Dropped(old(chains)[index], pos)]
    {
      ShapeDrop(heap0, table0, chains, index, pos, heap, table[..]);
      assert Bucket(heap0, heap0.Keys, table0[index], chains[index], index, |table0|);
      assert entry in chains[index];
      DroppedData(heap0, heap, chains[index], pos);
      chains := chains[index := Dropped(chains[index], pos)];
      heap := heap - {entry};
    }
  }

  lemma OnChain(heap: Heap, table: seq<Ref>, chains: seq<seq<Ref>>, b: nat, i: nat)
    requires Shape(heap, heap.Keys, table, chains) && b < |chains| && i < |chains[b]|
    ensures chains[b][i] in heap && |heap| > 0
  {
    assert Bucket(heap, heap.Keys, table[b], chains[b], b, |table|);
    assert chains[b][i] in chains[b];
    assert |heap.Keys| == |heap|;
  }

  /** The link to entry i of chain c, which starts from slot b, led past the entry. */
  ghost predicate Skipped(heap: Heap, table: seq<Ref>, c: seq<Ref>, b: nat, i: nat, heap': Heap, table': seq<Ref>)
    requires b < |table| && i < |c| && forall r :: r in c ==> r in heap
  {
    if i == 0 then table' == table[b := heap[c[0]].next] && heap' == heap
    else table' == table && heap' == heap[c[i - 1] := heap[c[i - 1]].(next := heap[c[i]].next)]
  }

  lemma DroppedData(heap: Heap, heap': Heap, c: seq<Ref>, i: nat)
    requires Distinct(c) && i < |c| && forall r :: r in c ==> r in heap
    requires if i == 0 then heap' == heap
             else heap' == heap[c[i - 1] := heap[c[i - 1]].(next := heap[c[i]].next)]
    ensures SameData(heap - {c[i]}, heap' - {c[i]}) && |heap' - {c[i]}| == |heap| - 1
  {
    assert i > 0 ==> c[i - 1] in c;
    assert (heap' - {c[i]}).Keys == heap.Keys - {c[i]};
    assert |(heap' - {c[i]}).Keys| == |heap.Keys| - 1;
  }

  /** += on a uintptr_t. */
  function Plus(a: Word, b: Word): (r: Word)
    ensures r == a + b || r == a + b - TWO64
  {
    if a + b < TWO64 then a + b else a + b - TWO64
  }

  /** -= on a uintptr_t. */
  function Minus(a: Word, b: Word): (r: Word)
    ensures r == a - b || r == a - b + TWO64
  {
    if a >= b then a - b else a - b + TWO64
  }

  /** An increment and a decrement by the same amount leave the map as it was, whether or not the
      sum wraps. */
  method IncThenDec(t: Table, key: Word, value: Word) returns (found: bool)
    requires t.Valid() && t.IsMap()
    modifies t`heap
    ensures t.Valid() && t.IsMap() && SameMap(old(t.heap), t.heap, t.eqFn) && found == old(t.Lookup(key)).Some?
  {
    ghost var before := t.heap;
    found := t.Inc(key, value);
    if found {
      ghost var between := t.heap;
      assert found == Get(before, t.eqFn, key).Some?;
      found := t.Dec(key, value);
      assert t.Lookup(key).value == Get(before, t.eqFn, key).value;
      Restored(before, between, t.heap, t.hashFn, t.eqFn, key);
    }
  }

  function Low32(n: nat): nat {
    n % TWO32
  }

  /** ++ and -- on a uint32_t. */
  function Up(c: nat): nat {
    if c + 1 == TWO32 then 0 else c + 1
  }

  function Down(c: nat): nat {
    if c == 0 then TWO32 - 1 else c - 1
  }

  /** A new key joins the map; one that is already in is then in twice. */
  lemma InsertedGet(heap0: Heap, before: Heap, heap: Heap, hashFn: Word -> nat, eqFn: (Word, Word) -> bool,
                    at: Ref, key: Word, value: Word)
    requires Keyed(heap0, hashFn, eqFn) && SameData(heap0, before)
    requires at !in before && at in heap && heap - {at} == before && heap[at].key == key && heap[at].value == value
    ensures Keyed(heap, hashFn, eqFn) <==> Get(heap0, eqFn, key).None?
    ensures Keyed(heap, hashFn, eqFn) ==> Updated(heap0, heap, eqFn, key, Some(value))
  {
    SameGet(heap0, before, hashFn, eqFn);
    assert heap == before[at := heap[at]];
    if r :| r in heap0 && eqFn(key, heap0[r].key) {
      GetIs(heap0, hashFn, eqFn, key, r);
      assert r in before && r in heap && eqFn(heap[at].key, heap[r].key);
    } else {
      AddedGet(before, heap, hashFn, eqFn, at, heap[at]);
    }
  }

  /** Where the walk stops is what the map holds at the key. */
  lemma StopsAtGet(heap: Heap, table: seq<Ref>, chains: seq<seq<Ref>>, hashFn: Word -> nat, eqFn: (Word, Word) -> bool,
                   key: Word, b: nat, pos: nat)
    requires Shape(heap, heap.Keys, table, chains) && Hashed(heap, hashFn) && Keyed(heap, hashFn, eqFn)
    requires b == Slot(hashFn(key), |table|) && Bucket(heap, heap.Keys, table[b], chains[b], b, |table|)
    requires StopsAt(heap, chains[b], hashFn, eqFn, key, pos)
    ensures Get(heap, eqFn, key) == if pos < |chains[b]| then Some(heap[chains[b][pos]].value) else None
  {
    var c := chains[b];
    if pos < |c| {
      GetIs(heap, hashFn, eqFn, key, c[pos]);
    } else {
      assert forall r :: r in heap && eqFn(key, heap[r].key) ==> r in c;
    }
  }

  /** Half way through a rehash: the entries `there` are on the new table and the rest on the old. */
  ghost predicate Rehashing(heap0: Heap, heap: Heap, there: set<Ref>, table: seq<Ref>, chains: seq<seq<Ref>>,
                            newTable: seq<Ref>, newChains: seq<seq<Ref>>) {
    && there <= heap.Keys && SameData(heap0, heap)
    && Shape(heap, heap.Keys - there, table, chains) && Shape(heap, there, newTable, newChains)
  }

  /** The first entry of old chain i goes to the front of its new chain. */
  lemma MoveOne(heap0: Heap, heap: Heap, there: set<Ref>, table: seq<Ref>, chains: seq<seq<Ref>>,
                newTable: seq<Ref>, newChains: seq<seq<Ref>>, i: nat) returns (j: nat)
    requires Rehashing(heap0, heap, there, table, chains, newTable, newChains)
    requires i < |table| && table[i] != 0
    ensures var r := table[i];
            && chains[i] != [] && r in heap && r !in there && j == Slot(heap[r].hash, |newTable|)
            && Rehashing(heap0, heap[r := heap[r].(next := newTable[j])], there + {r},
                         table[i := heap[r].next], chains[i := chains[i][1..]],
                         newTable[j := r], newChains[j := [r] + newChains[j]])
  {
    var r := table[i];
    var here := heap.Keys - there;
    assert Bucket(heap, here, table[i], chains[i], i, |table|);
    assert r in chains[i];
    j := Slot(heap[r].hash, |newTable|);
    ShapePop(heap, here, table, chains, i, r, newTable[j]);
    ShapePush(heap, there, newTable, newChains, r, heap[r].(next := newTable[j]), j);
    var heap' := heap[r := heap[r].(next := newTable[j])];
    assert heap'.Keys == heap.Keys && heap'.Keys - (there + {r}) == here - {r};
  }

  lemma AllMoved(heap0: Heap, heap: Heap, there: set<Ref>, table: seq<Ref>, chains: seq<seq<Ref>>,
                 newTable: seq<Ref>, newChains: seq<seq<Ref>>)
    requires Rehashing(heap0, heap, there, table, chains, newTable, newChains)
    requires forall b :: 0 <= b < |table| ==> table[b] == 0
    ensures Shape(heap, heap.Keys, newTable, newChains)
  {
    var here := heap.Keys - there;
    assert forall b :: 0 <= b < |table| ==> Bucket(heap, here, table[b], chains[b], b, |table|) && chains[b] == [];
    assert forall r :: r in here ==> r in chains[Slot(heap[r].hash, |table|)];
    assert forall r :: r in heap.Keys ==> r in there;
    assert there == heap.Keys;
  }
}
