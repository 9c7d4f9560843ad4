/** The chains of the hash table in user_threads/pet_hashtable.c: entries in memory linked from
    the slots of a table, and what the links stand for. */
module HashChains {
  import opened Options
  import opened Lists

  /** An address; 0 is NULL. */
  type Ref = nat
  /** A uintptr_t. */
  type Word = x: int | 0 <= x < 0x1_0000_0000_0000_0000
  datatype HashEntry = HashEntry(key: Word, value: Word, hash: nat, next: Ref)
  type Heap = map<Ref, HashEntry>

  function At(c: seq<Ref>, i: nat): Ref {
    if i < |c| then c[i] else 0
  }

  /** indexFor. */
  function Slot(hash: nat, n: nat): (r: nat)
    requires n > 0
    ensures r < n
  {
    hash % n
  }

  // ---- Chains ---------------------------------------------------------------------------

  /** From head the next links lead along c and then to NULL. */
  ghost predicate LinkedAt(heap: Heap, head: Ref, c: seq<Ref>) {
    && head == At(c, 0) && Distinct(c)
    && (forall i :: 0 <= i < |c| ==> c[i] != 0 && c[i] in heap)
    && (forall i, j {:trigger c[i], At(c, j)} :: 0 <= i < |c| && j == i + 1 ==> heap[c[i]].next == At(c, j))
  }

  /** Writing entries that are not on the chain does not touch the chain. */
  lemma LinkedElsewhere(heap: Heap, heap': Heap, head: Ref, c: seq<Ref>)
    requires LinkedAt(heap, head, c)
    requires forall s :: s in c ==> s in heap' && heap'[s].next == heap[s].next
    ensures LinkedAt(heap', head, c)
  {
  }

  /** A new entry in front of a chain. */
  lemma LinkedPush(heap: Heap, heap': Heap, head: Ref, c: seq<Ref>, r: Ref)
    requires LinkedAt(heap, head, c) && r !in c && r != 0 && r in heap' && heap'[r].next == head
    requires forall s :: s in c ==> s in heap' && heap'[s].next == heap[s].next
    ensures LinkedAt(heap', r, [r] + c)
  {
    var d := [r] + c;
    forall i, j | 0 <= i < |d| && j == i + 1 ensures heap'[d[i]].next == At(d, j) {
      assert At(d, j) == At(c, i);
      assert i > 0 ==> d[i] == c[i - 1];
    }
  }

  /** The chain without its first entry. */
  lemma LinkedPop(heap: Heap, head: Ref, c: seq<Ref>)
    requires LinkedAt(heap, head, c) && c != []
    ensures head == c[0] && head in heap && head !in c[1..] && LinkedAt(heap, heap[head].next, c[1..])
  {
    var d := c[1..];
    assert At(d, 0) == At(c, 1);
    forall i, j | 0 <= i < |d| && j == i + 1 ensures heap[d[i]].next == At(d, j) {
      assert d[i] == c[i + 1] && At(d, j) == At(c, j + 1);
    }
  }

  function Dropped(c: seq<Ref>, i: nat): seq<Ref>
    requires i < |c|
  {
    c[..i] + c[i + 1..]
  }

  /** The chain without its entry i: the link before it is led past it. */
  lemma LinkedDrop(heap: Heap, heap': Heap, head: Ref, head': Ref, c: seq<Ref>, i: nat)
    requires LinkedAt(heap, head, c) && i < |c|
    requires if i == 0 then head' == heap[c[0]].next && heap' == heap
             else head' == head && heap' == heap[c[i - 1] := heap[c[i - 1]].(next := heap[c[i]].next)]
    ensures LinkedAt(heap', head', Dropped(c, i))
  {
    var d := Dropped(c, i);
    assert forall j :: 0 <= j < |d| ==> d[j] == if j < i then c[j] else c[j + 1];
    assert At(d, 0) == (if i == 0 then At(c, 1) else At(c, 0));
    forall j, k | 0 <= j < |d| && k == j + 1 ensures heap'[d[j]].next == At(d, k) {
      assert At(d, k) == if k < i then At(c, k) else At(c, k + 1);
      assert heap[c[i]].next == At(c, i + 1);
    }
  }

  // ---- Tables ---------------------------------------------------------------------------

  /** The chain from slot b of n holds exactly the entries among `on` whose hash names slot b. */
  ghost predicate Bucket(heap: Heap, on: set<Ref>, head: Ref, c: seq<Ref>, b: nat, n: nat)
    requires n > 0
  {
    && LinkedAt(heap, head, c) && on <= heap.Keys
    && forall r {:trigger r in c} {:trigger r in on} :: r in c <==> r in on && Slot(heap[r].hash, n) == b
  }

  /** The table links exactly the entries `on`, each from the slot its hash names. */
  ghost predicate Shape(heap: Heap, on: set<Ref>, table: seq<Ref>, chains: seq<seq<Ref>>) {
    |table| == |chains| > 0 && on <= heap.Keys &&
    forall b :: 0 <= b < |table| ==> Bucket(heap, on, table[b], chains[b], b, |table|)
  }

  /** One chain changes, and no entry of another slot does. */
  lemma ShapeAt(heap: Heap, on: set<Ref>, table: seq<Ref>, chains: seq<seq<Ref>>,
                heap': Heap, on': set<Ref>, b: nat, head: Ref, c: seq<Ref>)
    requires Shape(heap, on, table, chains) && b < |table| && Bucket(heap', on', head, c, b, |table|)
    requires forall s :: s in on && Slot(heap[s].hash, |table|) != b ==> s in on' && heap'[s] == heap[s]
    requires forall s :: s in on' && Slot(heap'[s].hash, |table|) != b ==> s in on && heap'[s] == heap[s]
    ensures Shape(heap', on', table[b := head], chains[b := c])
  {
    var table', chains' := table[b := head], chains[b := c];
    forall d | 0 <= d < |table| ensures Bucket(heap', on', table'[d], chains'[d], d, |table|) {
      if d != b {
        assert Bucket(heap, on, table[d], chains[d], d, |table|);
        LinkedElsewhere(heap, heap', table[d], chains[d]);
      }
    }
  }

  /** Entry r joins the front of its chain; it may have been on another table before. */
  lemma ShapePush(heap: Heap, on: set<Ref>, table: seq<Ref>, chains: seq<seq<Ref>>, r: Ref, e: HashEntry, b: nat)
    requires Shape(heap, on, table, chains) && r !in on && r != 0 && b == Slot(e.hash, |table|) && e.next == table[b]
    ensures Shape(heap[r := e], on + {r}, table[b := r], chains[b := [r] + chains[b]])
  {
    var heap', c := heap[r := e], chains[b];
    assert Bucket(heap, on, table[b], c, b, |table|);
    LinkedPush(heap, heap', table[b], c, r);
    assert forall s :: s in [r] + c <==> s == r || s in c;
    ShapeAt(heap, on, table, chains, heap', on + {r}, b, r, [r] + c);
  }

  /** The first entry of a chain leaves it, and its own link may be overwritten. */
  lemma ShapePop(heap: Heap, on: set<Ref>, table: seq<Ref>, chains: seq<seq<Ref>>, b: nat, r: Ref, next: Ref)
    requires Shape(heap, on, table, chains) && b < |table| && r == table[b] != 0
    ensures chains[b] != [] && r in on && Slot(heap[r].hash, |table|) == b
    ensures Shape(heap[r := heap[r].(next := next)], on - {r}, table[b := heap[r].next], chains[b := chains[b][1..]])
  {
    var heap', c := heap[r := heap[r].(next := next)], chains[b];
    assert Bucket(heap, on, table[b], c, b, |table|);
    LinkedPop(heap, r, c);
    assert c == [r] + c[1..];
    LinkedElsewhere(heap, heap', heap[r].next, c[1..]);
    ShapeAt(heap, on, table, chains, heap', on - {r}, b, heap[r].next, c[1..]);
  }

  /** The head or the link before entry i of chain b is led past it, and the entry is freed. */
  lemma ShapeDrop(heap: Heap, table: seq<Ref>, chains: seq<seq<Ref>>, b: nat, i: nat, heap1: Heap, table': seq<Ref>)
    requires Shape(heap, heap.Keys, table, chains) && b < |table| && i < |chains[b]|
    requires var c := chains[b];
             if i == 0 then table' == table[b := heap[c[0]].next] && heap1 == heap
             else table' == table && heap1 == heap[c[i - 1] := heap[c[i - 1]].(next := heap[c[i]].next)]
    ensures var heap' := heap1 - {chains[b][i]};
            Shape(heap', heap'.Keys, table', chains[b := Dropped(chains[b], i)])
  {
    var c, r := chains[b], chains[b][i];
    var heap', c' := heap1 - {r}, Dropped(c, i);
    assert Bucket(heap, heap.Keys, table[b], c, b, |table|);
    LinkedDrop(heap, heap1, table[b], table'[b], c, i);
    assert r in c && (i > 0 ==> c[i - 1] in c);
    LinkedElsewhere(heap1, heap', table'[b], c');
    DropBucket(heap, heap1, table[b], table'[b], c, i, b, |table|);
    ShapeAt(heap, heap.Keys, table, chains, heap', heap'.Keys, b, table'[b], c');
    assert table' == table[b := table'[b]];
  }

  lemma DropBucket(heap: Heap, heap1: Heap, head: Ref, head': Ref, c: seq<Ref>, i: nat, b: nat, n: nat)
    requires n > 0 && Bucket(heap, heap.Keys, head, c, b, n) && i < |c|
    requires if i == 0 then heap1 == heap
             else heap1 == heap[c[i - 1] := heap[c[i - 1]].(next := heap[c[i]].next)]
    requires LinkedAt(heap1 - {c[i]}, head', Dropped(c, i))
    ensures var heap' := heap1 - {c[i]}; Bucket(heap', heap'.Keys, head', Dropped(c, i), b, n)
  {
    assert i > 0 ==> c[i - 1] in c;
  }

  // ---- Keys -----------------------------------------------------------------------------

  /** The equality is one, and equal keys have equal hashes. */
  ghost predicate Consistent(hashFn: Word -> nat, eqFn: (Word, Word) -> bool) {
    && (forall a :: eqFn(a, a))
    && (forall a, b :: eqFn(a, b) ==> eqFn(b, a) && hashFn(a) == hashFn(b))
    && (forall a, b, c :: eqFn(a, b) && eqFn(b, c) ==> eqFn(a, c))
  }

  /** Entries carry their key's hash. */
  ghost predicate Hashed(heap: Heap, hashFn: Word -> nat) {
    forall r :: r in heap ==> heap[r].hash == hashFn(heap[r].key)
  }

  /** No two entries have equal keys. */
  ghost predicate Unique(heap: Heap, eqFn: (Word, Word) -> bool) {
    forall r, s :: r in heap && s in heap && eqFn(heap[r].key, heap[s].key) ==> r == s
  }

  ghost predicate Keyed(heap: Heap, hashFn: Word -> nat, eqFn: (Word, Word) -> bool) {
    Consistent(hashFn, eqFn) && Unique(heap, eqFn)
  }

  /** The map the table stands for. */
  ghost function Get(heap: Heap, eqFn: (Word, Word) -> bool, k: Word): Option<Word> {
    if r :| r in heap && eqFn(k, heap[r].key) then Some(heap[r].value) else None
  }

  lemma GetIs(heap: Heap, hashFn: Word -> nat, eqFn: (Word, Word) -> bool, k: Word, r: Ref)
    requires Keyed(heap, hashFn, eqFn) && r in heap && eqFn(k, heap[r].key)
    ensures Get(heap, eqFn, k) == Some(heap[r].value)
  {
    var s :| s in heap && eqFn(k, heap[s].key) && Get(heap, eqFn, k) == Some(heap[s].value);
    assert eqFn(heap[s].key, k);
    assert eqFn(heap[s].key, heap[r].key);
  }

  /** Equal keys are mapped alike. */
  lemma EqualKeys(heap: Heap, hashFn: Word -> nat, eqFn: (Word, Word) -> bool, k: Word, x: Word)
    requires Keyed(heap, hashFn, eqFn) && eqFn(k, x)
    ensures Get(heap, eqFn, x) == Get(heap, eqFn, k)
  {
    if r :| r in heap && eqFn(x, heap[r].key) {
      GetIs(heap, hashFn, eqFn, x, r);
      GetIs(heap, hashFn, eqFn, k, r);
    } else {
      assert forall r :: r in heap && eqFn(k, heap[r].key) ==> eqFn(x, heap[r].key);
    }
  }

  /** The map with what it holds at k replaced by v, and nothing else changed. */
  ghost predicate Updated(heap: Heap, heap': Heap, eqFn: (Word, Word) -> bool, k: Word, v: Option<Word>) {
    forall x {:trigger Get(heap', eqFn, x)} :: Get(heap', eqFn, x) == if eqFn(k, x) then v else Get(heap, eqFn, x)
  }

  ghost predicate SameMap(heap: Heap, heap': Heap, eqFn: (Word, Word) -> bool) {
    forall x {:trigger Get(heap', eqFn, x)} :: Get(heap', eqFn, x) == Get(heap, eqFn, x)
  }

  /** The map changes at one key and then holds there what it held before. */
  lemma Restored(heap: Heap, heap1: Heap, heap2: Heap, hashFn: Word -> nat, eqFn: (Word, Word) -> bool, k: Word)
    requires Keyed(heap, hashFn, eqFn) && Get(heap2, eqFn, k) == Get(heap, eqFn, k)
    requires Updated(heap, heap1, eqFn, k, Get(heap1, eqFn, k)) && Updated(heap1, heap2, eqFn, k, Get(heap2, eqFn, k))
    ensures SameMap(heap, heap2, eqFn)
  {
    forall x ensures Get(heap2, eqFn, x) == Get(heap, eqFn, x) {
      if eqFn(k, x) {
        EqualKeys(heap, hashFn, eqFn, k, x);
      } else {
        assert Get(heap1, eqFn, x) == Get(heap, eqFn, x);
      }
    }
  }

  /** The same entries; only their links may differ. */
  ghost predicate SameData(heap: Heap, heap': Heap) {
    heap'.Keys == heap.Keys &&
    forall r :: r in heap ==> heap'[r] == heap[r].(next := heap'[r].next)
  }

  lemma SameGet(heap: Heap, heap': Heap, hashFn: Word -> nat, eqFn: (Word, Word) -> bool)
    requires Keyed(heap, hashFn, eqFn) && SameData(heap, heap')
    ensures Keyed(heap', hashFn, eqFn) && SameMap(heap, heap', eqFn)
  {
    forall x ensures Get(heap', eqFn, x) == Get(heap, eqFn, x) {
      if r :| r in heap && eqFn(x, heap[r].key) {
        GetIs(heap, hashFn, eqFn, x, r);
        GetIs(heap', hashFn, eqFn, x, r);
      }
    }
  }

  /** An entry with a new key. */
  lemma AddedGet(heap: Heap, heap': Heap, hashFn: Word -> nat, eqFn: (Word, Word) -> bool, r: Ref, e: HashEntry)
    requires Keyed(heap, hashFn, eqFn) && r !in heap && heap' == heap[r := e] && Get(heap, eqFn, e.key).None?
    ensures Keyed(heap', hashFn, eqFn) && Updated(heap, heap', eqFn, e.key, Some(e.value))
  {
    assert forall s :: s in heap ==> !eqFn(e.key, heap[s].key);
    forall x ensures Get(heap', eqFn, x) == if eqFn(e.key, x) then Some(e.value) else Get(heap, eqFn, x) {
      if eqFn(e.key, x) {
        GetIs(heap', hashFn, eqFn, x, r);
      } else if s :| s in heap && eqFn(x, heap[s].key) {
        GetIs(heap, hashFn, eqFn, x, s);
        GetIs(heap', hashFn, eqFn, x, s);
      }
    }
  }

  /** Entry r gone, for any key equal to its own. */
  lemma LostGet(heap: Heap, heap': Heap, hashFn: Word -> nat, eqFn: (Word, Word) -> bool, r: Ref, k: Word)
    requires Keyed(heap, hashFn, eqFn) && r in heap && eqFn(k, heap[r].key) && SameData(heap - {r}, heap')
    ensures Keyed(heap', hashFn, eqFn) && Updated(heap, heap', eqFn, k, None)
  {
    forall x ensures Get(heap', eqFn, x) == if eqFn(k, x) then None else Get(heap, eqFn, x) {
      if s :| s in heap && eqFn(x, heap[s].key) {
        GetIs(heap, hashFn, eqFn, x, s);
        assert eqFn(k, x) ==> eqFn(k, heap[s].key) && eqFn(heap[s].key, heap[r].key) && s == r;
        assert s == r ==> eqFn(k, x);
        if s != r {
          GetIs(heap', hashFn, eqFn, x, s);
        }
      }
    }
  }

  /** A new value in entry r, for any key equal to its own. */
  lemma SetGet(heap: Heap, heap': Heap, hashFn: Word -> nat, eqFn: (Word, Word) -> bool, r: Ref, k: Word, v: Word)
    requires Keyed(heap, hashFn, eqFn) && r in heap && eqFn(k, heap[r].key)
    requires heap' == heap[r := heap[r].(value := v)]
    ensures Keyed(heap', hashFn, eqFn) && Get(heap', eqFn, k) == Some(v) && Updated(heap, heap', eqFn, k, Some(v))
  {
    GetIs(heap', hashFn, eqFn, k, r);
    forall x ensures Get(heap', eqFn, x) == if eqFn(k, x) then Some(v) else Get(heap, eqFn, x) {
      if eqFn(k, x) {
        GetIs(heap', hashFn, eqFn, x, r);
      } else if s :| s in heap && eqFn(x, heap[s].key) {
        assert s != r;
        GetIs(heap, hashFn, eqFn, x, s);
        GetIs(heap', hashFn, eqFn, x, s);
      }
    }
  }

  // ---- The table as one sequence --------------------------------------------------------

  /** The chains from slot b on, one after another. */
  ghost function Flatten(chains: seq<seq<Ref>>, b: nat): seq<Ref>
    decreases |chains| - b
  {
    if b >= |chains| then [] else chains[b] + Flatten(chains, b + 1)
  }

  lemma {:induction false} FlattenFacts(heap: Heap, on: set<Ref>, table: seq<Ref>, chains: seq<seq<Ref>>, b: nat)
    requires Shape(heap, on, table, chains)
    ensures Distinct(Flatten(chains, b))
    ensures forall r :: r in Flatten(chains, b) <==> r in on && Slot(heap[r].hash, |table|) >= b
    decreases |chains| - b
  {
    if b >= |chains| {
    } else {
      var rest := Flatten(chains, b + 1);
      FlattenFacts(heap, on, table, chains, b + 1);
      assert Bucket(heap, on, table[b], chains[b], b, |table|);
      DistinctConcat(chains[b], rest);
      assert forall r :: r in chains[b] + rest <==> r in chains[b] || r in rest;
    }
  }

  lemma {:induction false} Cardinality(s: seq<Ref>, t: set<Ref>)
    requires Distinct(s) && forall r :: r in s <==> r in t
    ensures |s| == |t|
  {
    if s == [] {
      assert t == {};
    } else {
      assert s == [s[0]] + s[1..];
      Cardinality(s[1..], t - {s[0]});
    }
  }

  /** The chains together hold each entry once. */
  lemma ChainsHoldAll(heap: Heap, table: seq<Ref>, chains: seq<seq<Ref>>)
    requires Shape(heap, heap.Keys, table, chains)
    ensures var all := Flatten(chains, 0);
            Distinct(all) && (forall r :: r in all <==> r in heap) && |all| == |heap|
  {
    FlattenFacts(heap, heap.Keys, table, chains, 0);
    Cardinality(Flatten(chains, 0), heap.Keys);
  }

  /** Chains that differ only before slot b. */
  lemma {:induction false} FlattenSuffix(chains: seq<seq<Ref>>, chains': seq<seq<Ref>>, b: nat)
    requires |chains| == |chains'| && forall d :: b <= d < |chains| ==> chains[d] == chains'[d]
    ensures Flatten(chains, b) == Flatten(chains', b)
    decreases |chains| - b
  {
    if b >= |chains| {
    } else {
      FlattenSuffix(chains, chains', b + 1);
    }
  }
}
