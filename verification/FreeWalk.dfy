/** The cursor of petmem_free_vspace (virtual_memory/on_demand.c): four indices that count like a
    number in base 512, a page counter beside them, and what the walk has cleared so far. */
module FreeWalk {
  import opened Options
  import opened RegionMap
  import opened PageTables

  datatype Cursor = Cursor(i4: nat, i3: nat, i2: nat, i1: nat)

  ghost predicate Ok(c: Cursor) {
    c.i4 < 64 && c.i3 < 512 && c.i2 < 512 && c.i1 < 512
  }

  /** The number of the page the cursor stands at. */
  function Lin(c: Cursor): nat {
    ((c.i4 * 512 + c.i3) * 512 + c.i2) * 512 + c.i1
  }

  /** The entries the code looks at; the first index is scaled by the entry size twice. */
  function At1(c: Cursor): Path { Sub(Root, 8 * c.i4) }
  function At2(c: Cursor): Path { Sub(At1(c), c.i3) }
  function At3(c: Cursor): Path { Sub(At2(c), c.i2) }
  function At4(c: Cursor): Path { Sub(At3(c), c.i1) }

  lemma AtDepths(c: Cursor)
    ensures Depth(At1(c)) == 1 && Depth(At2(c)) == 2 && Depth(At3(c)) == 3 && Depth(At4(c)) == 4
  {
    assert Depth(At1(c)) == 1;
    assert Depth(At2(c)) == 2;
    assert Depth(At3(c)) == 3;
  }

  lemma LinInjective(c: Cursor, d: Cursor)
    requires Ok(c) && Ok(d) && Lin(c) == Lin(d)
    ensures c == d
  {
    SameDigits(c.i4, c.i3, c.i2, c.i1, d.i4, d.i3, d.i2, d.i1);
  }

  /** For an address of the region the cursor starts at the address's own page. */
  function Start(vaddr: nat): (c: Cursor)
    ensures c.i3 < 512 && c.i2 < 512 && c.i1 < 512
  {
    Cursor(Index4(vaddr), Index3(vaddr), Index2(vaddr), Index1(vaddr))
  }

  lemma StartAtPage(vaddr: nat)
    requires REGION_START <= vaddr <= REGION_END
    ensures Ok(Start(vaddr)) && Start(vaddr).i4 == 0 && Lin(Start(vaddr)) == vaddr / 4096 &&
            At4(Start(vaddr)) == PathOf(vaddr)
  {
    IndexDigits(vaddr);
  }

  // ---- Spans ----------------------------------------------------------------------------

  /** q is the entry of a page from lo up to hi. */
  ghost predicate Spanned(q: Path, lo: nat, hi: nat) {
    exists c :: Ok(c) && q == At4(c) && lo <= Lin(c) < hi
  }

  /** Since the start the pages from lo to hi have been unmapped, and no other. */
  ghost predicate Cleared(before: Tables, tables: Tables, root: Frame, lo: nat, hi: nat) {
    forall q {:trigger Walk(tables, root, q)} :: Depth(q) == 4 ==>
      Walk(tables, root, q) == if Spanned(q, lo, hi) then None else Walk(before, root, q)
  }

  /** No page from lo to hi is mapped. */
  ghost predicate Unmapped(tables: Tables, root: Frame, lo: nat, hi: nat) {
    forall c {:trigger At4(c)} :: Ok(c) && lo <= Lin(c) < hi ==> Walk(tables, root, At4(c)).None?
  }

  lemma SpannedAt(c: Cursor, lo: nat, hi: nat)
    requires Ok(c)
    ensures Spanned(At4(c), lo, hi) <==> lo <= Lin(c) < hi
  {
  }

  /** One page further. */
  lemma ClearOne(before: Tables, t: Tables, t': Tables, root: Frame, lo: nat, c: Cursor)
    requires Cleared(before, t, root, lo, Lin(c)) && Ok(c) && lo <= Lin(c)
    requires forall q {:trigger Walk(t', root, q)} :: Depth(q) == 4 ==>
               Walk(t', root, q) == if q == At4(c) then None else Walk(t, root, q)
    ensures Cleared(before, t', root, lo, Lin(c) + 1)
  {
    forall q | Depth(q) == 4
      ensures Walk(t', root, q) == if Spanned(q, lo, Lin(c) + 1) then None else Walk(before, root, q)
    {
      assert Walk(t, root, q) == if Spanned(q, lo, Lin(c)) then None else Walk(before, root, q);
      SpanOne(q, lo, c);
    }
  }

  lemma SpanOne(q: Path, lo: nat, c: Cursor)
    requires Ok(c) && lo <= Lin(c)
    ensures Spanned(q, lo, Lin(c) + 1) <==> Spanned(q, lo, Lin(c)) || q == At4(c)
  {
    if Spanned(q, lo, Lin(c) + 1) {
      var d :| Ok(d) && q == At4(d) && lo <= Lin(d) < Lin(c) + 1;
      if Lin(d) == Lin(c) {
        LinInjective(c, d);
      }
    }
  }

  /** Passing over pages that are not mapped. */
  lemma ClearNone(before: Tables, t: Tables, root: Frame, lo: nat, mid: nat, hi: nat)
    requires Cleared(before, t, root, lo, mid) && lo <= mid <= hi && Unmapped(t, root, mid, hi)
    ensures Cleared(before, t, root, lo, hi) && Unmapped(before, root, mid, hi)
  {
    forall q | Depth(q) == 4 ensures Walk(t, root, q) == if Spanned(q, lo, hi) then None else Walk(before, root, q) {
      assert Walk(t, root, q) == if Spanned(q, lo, mid) then None else Walk(before, root, q);
      if Spanned(q, lo, hi) && !Spanned(q, lo, mid) {
        var c :| Ok(c) && q == At4(c) && lo <= Lin(c) < hi;
        assert mid <= Lin(c);
      }
    }
    forall c | Ok(c) && mid <= Lin(c) < hi ensures Walk(before, root, At4(c)).None? {
      AtDepths(c);
      SpannedAt(c, lo, mid);
      assert Walk(t, root, At4(c)).None?;
    }
  }

  // ---- Skips ----------------------------------------------------------------------------

  /** An absent first-level entry: everything up to the next one is unmapped. */
  lemma Absent1(t: Tables, root: Frame, c: Cursor, c': Cursor)
    requires Ok(c) && Walk(t, root, At1(c)).None? && c' == Cursor(c.i4 + 1, 0, 0, 0)
    ensures Unmapped(t, root, Lin(c), Lin(c'))
  {
    forall d | Ok(d) && Lin(c) <= Lin(d) < Lin(c') ensures Walk(t, root, At4(d)).None? {
      assert d.i4 == c.i4;
      assert Under(At2(d), At1(c));
      assert Under(At3(d), At1(c));
      NothingBelow(t, root, At1(c), At4(d));
    }
  }

  lemma Absent2(t: Tables, root: Frame, c: Cursor, c': Cursor)
    requires Ok(c) && Walk(t, root, At2(c)).None? && c'.i2 == 0 && c'.i1 == 0
    requires Lin(c') == Lin(Cursor(c.i4, c.i3, 0, 0)) + 0x4_0000
    ensures Unmapped(t, root, Lin(c), Lin(c'))
  {
    forall d | Ok(d) && Lin(c) <= Lin(d) < Lin(c') ensures Walk(t, root, At4(d)).None? {
      assert d.i4 == c.i4 && d.i3 == c.i3;
      assert Under(At3(d), At2(c));
      NothingBelow(t, root, At2(c), At4(d));
    }
  }

  lemma Absent3(t: Tables, root: Frame, c: Cursor, c': Cursor)
    requires Ok(c) && Walk(t, root, At3(c)).None? && c'.i1 == 0
    requires Lin(c') == Lin(Cursor(c.i4, c.i3, c.i2, 0)) + 512
    ensures Unmapped(t, root, Lin(c), Lin(c'))
  {
    forall d | Ok(d) && Lin(c) <= Lin(d) < Lin(c') ensures Walk(t, root, At4(d)).None? {
      assert d.i4 == c.i4 && d.i3 == c.i3 && d.i2 == c.i2;
      NothingBelow(t, root, At3(c), At4(d));
    }
  }

  /** What the code adds to its page counter for an absent second-level entry, against the
      distance the cursor moves. */
  lemma Product2(b: nat, c: nat)
    requires 1 <= b <= 512 && 1 <= c <= 512
    ensures 1 <= b * c <= (b - 1) * 512 + c && (b - 1) * 512 + c - b * c == (b - 1) * (512 - c)
    ensures b * c == (b - 1) * 512 + c <==> b == 1 || c == 512
  {
    Gap(b, c, 512);
  }

  /** Short by m - k for each step but the last that is counted as k instead of m. */
  lemma Gap(b: nat, k: nat, m: nat)
    requires 1 <= k <= m && b >= 1
    ensures 1 <= b * k <= (b - 1) * m + k && (b - 1) * m + k - b * k == (b - 1) * (m - k)
    ensures b * k == (b - 1) * m + k <==> b == 1 || k == m
  {
    var n := b - 1;
    assert n * (m - k) == n * m - n * k;
    assert b * k == n * k + k;
  }

  /** The same for an absent first-level entry. */
  lemma Product3(a: nat, b: nat, c: nat)
    requires 1 <= a <= 512 && 1 <= b <= 512 && 1 <= c <= 512
    ensures 1 <= a * b * c <= (a - 1) * 0x4_0000 + (b - 1) * 512 + c
    ensures (a - 1) * 0x4_0000 + (b - 1) * 512 + c - a * b * c == (a - 1) * (0x4_0000 - b * c) + (b - 1) * (512 - c)
    ensures a * b * c == (a - 1) * 0x4_0000 + (b - 1) * 512 + c <==>
            (a == 1 || (b == 512 && c == 512)) && (b == 1 || c == 512)
  {
    Product2(b, c);
    Gap(a, b * c, 0x4_0000);
    assert a * b * c == a * (b * c);
  }

  // ---- One turn of the walk -------------------------------------------------------------

  /** What a turn adds to the page counter. */
  ghost function Count(t: Tables, root: Frame, c: Cursor): int {
    if Walk(t, root, At1(c)).None? then (512 - c.i3) * (512 - c.i2) * (512 - c.i1)
    else if Walk(t, root, At2(c)).None? then (512 - c.i2) * (512 - c.i1)
    else if Walk(t, root, At3(c)).None? then 512 - c.i1
    else 1
  }

  /** How far a turn moves the cursor. */
  ghost function Distance(t: Tables, root: Frame, c: Cursor): int {
    if Walk(t, root, At1(c)).None? then (511 - c.i3) * 0x4_0000 + (511 - c.i2) * 512 + 512 - c.i1
    else if Walk(t, root, At2(c)).None? then (511 - c.i2) * 512 + 512 - c.i1
    else if Walk(t, root, At3(c)).None? then 512 - c.i1
    else 1
  }

  /** Inside a table, the entries above it are present. */
  ghost predicate Settled(t: Tables, root: Frame, c: Cursor) {
    (c.i1 > 0 ==> Walk(t, root, At3(c)).Some?) && (c.i2 > 0 ==> Walk(t, root, At2(c)).Some?)
  }

  /** The counter never runs ahead of the cursor, and keeps up with it but for a turn that starts
      inside a table whose first- or second-level entry is absent. */
  lemma CountWithin(t: Tables, root: Frame, c: Cursor)
    requires Ok(c)
    ensures 1 <= Count(t, root, c) <= Distance(t, root, c) <= 0x800_0000
    ensures Settled(t, root, c) ==> Count(t, root, c) == Distance(t, root, c)
    ensures Walk(t, root, At2(c)).Some? ==> Count(t, root, c) == Distance(t, root, c)
  {
    assert Walk(t, root, At1(c)).None? ==> Walk(t, root, At2(c)).None?;
    assert Walk(t, root, At2(c)).None? ==> Walk(t, root, At3(c)).None?;
    Product3(512 - c.i3, 512 - c.i2, 512 - c.i1);
    Product2(512 - c.i2, 512 - c.i1);
  }

  /** By how much the walk of n pages from c goes beyond them. Only its first turn can count fewer
      pages than it passes: when the entry for c's second-level table is absent, and the n pages are
      more than it counts. Each third-level entry after c's then counts c.i1 pages too few, and if
      the first-level entry is absent too, each second-level entry after c's counts what a whole one
      has more than c's. */
  ghost function Excess(t: Tables, root: Frame, c: Cursor, n: nat): (e: nat)
    requires Ok(c)
    ensures e < 0x800_0000
  {
    Product2(512 - c.i2, 512 - c.i1);
    Product3(512 - c.i3, 512 - c.i2, 512 - c.i1);
    if Walk(t, root, At2(c)).Some? then 0
    else if Walk(t, root, At1(c)).Some? then
      if n > (512 - c.i2) * (512 - c.i1) then (511 - c.i2) * c.i1 else 0
    else if n > (512 - c.i3) * (512 - c.i2) * (512 - c.i1) then
      (511 - c.i3) * (0x4_0000 - (512 - c.i2) * (512 - c.i1)) + (511 - c.i2) * c.i1
    else 0
  }

  /** That is what the cursor gains on the counter. */
  lemma ExcessIsLead(t: Tables, root: Frame, c: Cursor, n: nat)
    requires Ok(c)
    ensures Excess(t, root, c, n) == if Count(t, root, c) < n then Distance(t, root, c) - Count(t, root, c) else 0
  {
    Product2(512 - c.i2, 512 - c.i1);
    Product3(512 - c.i3, 512 - c.i2, 512 - c.i1);
    assert Walk(t, root, At1(c)).None? ==> Walk(t, root, At2(c)).None?;
    assert Walk(t, root, At2(c)).None? ==> Walk(t, root, At3(c)).None?;
  }

  /** When the walk goes no further than asked: when the first turn suffices, or the table of the
      first page is there, or the product counted is the distance. */
  lemma NoExcessIff(t: Tables, root: Frame, c: Cursor, n: nat)
    requires Ok(c)
    ensures Excess(t, root, c, n) == 0 <==>
      || n <= Count(t, root, c)
      || Walk(t, root, At2(c)).Some?
      || ((c.i2 == 511 || c.i1 == 0) && (Walk(t, root, At1(c)).Some? || c.i3 == 511 || (c.i2 == 0 && c.i1 == 0)))
  {
    ExcessIsLead(t, root, c, n);
    CountWithin(t, root, c);
    Product3(512 - c.i3, 512 - c.i2, 512 - c.i1);
    Product2(512 - c.i2, 512 - c.i1);
    assert Walk(t, root, At1(c)).None? ==> Walk(t, root, At2(c)).None?;
  }

  ghost predicate SamePages(t: Tables, t': Tables, root: Frame) {
    forall q {:trigger Walk(t', root, q)} :: Depth(q) == 4 ==> Walk(t', root, q) == Walk(t, root, q)
  }

  /** A turn passes over unmapped pages, or unmaps the page it stands at and hands it back. */
  ghost predicate Turned(t: Tables, t': Tables, root: Frame, c: Cursor, c': Cursor, page: Option<Frame>) {
    && Lin(c') == Lin(c) + Distance(t, root, c)
    && match page
       case None => Unmapped(t, root, Lin(c), Lin(c')) && SamePages(t, t', root)
       case Some(f) =>
         && Walk(t, root, At4(c)) == Some(f) && Distance(t, root, c) == 1
         && forall q {:trigger Walk(t', root, q)} :: Depth(q) == 4 ==>
              Walk(t', root, q) == if q == At4(c) then None else Walk(t, root, q)
  }

  lemma TurnCleared(before: Tables, t: Tables, t': Tables, root: Frame, lo: nat, c: Cursor, c': Cursor,
                    page: Option<Frame>)
    requires Cleared(before, t, root, lo, Lin(c)) && Ok(c) && lo <= Lin(c) && Turned(t, t', root, c, c', page)
    ensures Cleared(before, t', root, lo, Lin(c'))
    ensures page.None? ==> Unmapped(before, root, Lin(c), Lin(c'))
    ensures page.Some? ==> Walk(before, root, At4(c)) == page
  {
    CountWithin(t, root, c);
    match page
    case None =>
      ClearNone(before, t, root, lo, Lin(c), Lin(c'));
    case Some(f) =>
      ClearOne(before, t, t', root, lo, c);
      AtDepths(c);
      SpannedAt(c, lo, Lin(c));
      assert Walk(t, root, At4(c)).Some?;
  }

  // ---- The whole walk -------------------------------------------------------------------

  /** After the first turn, and while pages remain to be counted, the cursor is ahead of the
      counter by the excess exactly. */
  ghost predicate InStep(first: bool, lo: nat, n: nat, e: nat, freed: nat, lin: nat) {
    && lin >= lo + freed
    && (first ==> freed == 0 && lin == lo)
    && (!first && freed < n ==> lin == lo + freed + e)
    && (!first && freed >= n ==> lin >= lo + n + e)
  }

  lemma TurnInStep(t: Tables, root: Frame, c: Cursor, first: bool, lo: nat, n: nat, e: nat, freed: nat, k: nat,
                   lin': nat)
    requires Ok(c) && InStep(first, lo, n, e, freed, Lin(c)) && freed < n
    requires if first then e == Excess(t, root, c, n) else Settled(t, root, c)
    requires k == Count(t, root, c) && lin' == Lin(c) + Distance(t, root, c)
    ensures InStep(false, lo, n, e, freed + k, lin') && k >= 1 && Lin(c) < lo + n + e
    ensures Distance(t, root, c) == 1 ==> lin' <= lo + n + e
  {
    if first {
      ExcessIsLead(t, root, c, n);
    }
    CountWithin(t, root, c);
  }

  lemma NoExcess(t: Tables, root: Frame, c: Cursor)
    requires Ok(c)
    ensures Excess(t, root, c, 0) == 0
  {
    ExcessIsLead(t, root, c, 0);
    CountWithin(t, root, c);
  }

  /** The walk touches no page outside the n asked for exactly if none is mapped in the excess. */
  lemma ExactIff(before: Tables, t: Tables, root: Frame, lo: nat, n: nat, e: nat)
    requires Cleared(before, t, root, lo, lo + n + e) && lo + n + e <= 0x1000_0000
    ensures Cleared(before, t, root, lo, lo + n) <==> Unmapped(before, root, lo + n, lo + n + e)
  {
    if Cleared(before, t, root, lo, lo + n) {
      forall c | Ok(c) && lo + n <= Lin(c) < lo + n + e ensures Walk(before, root, At4(c)).None? {
        AtDepths(c);
        SpannedAt(c, lo, lo + n);
        SpannedAt(c, lo, lo + n + e);
        assert Walk(t, root, At4(c)).None?;
      }
    }
  }
}
