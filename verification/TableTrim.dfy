/** Which tables petmem_free_vspace (virtual_memory/on_demand.c) gives back: each time the walk passes
    the last page a table covers, it looks whether the table is empty. */
module TableTrim {
  import opened Options
  import opened PageTables
  import opened FreeWalk

  /** c is the last page that table q covers. */
  ghost predicate LastPage(q: Path, c: Cursor) {
    || (q == At3(c) && c.i1 == 511)
    || (q == At2(c) && c.i2 == c.i1 == 511)
    || (q == At1(c) && c.i3 == c.i2 == c.i1 == 511)
  }

  /** The last page of table q is one from lo up to hi. */
  ghost predicate Passed(q: Path, lo: nat, hi: nat) {
    exists c :: Ok(c) && LastPage(q, c) && lo <= Lin(c) < hi
  }

  ghost predicate Childless(t: Tables, root: Frame, q: Path) {
    forall i {:trigger Sub(q, i)} :: 0 <= i < 512 ==> Walk(t, root, Sub(q, i)).None?
  }

  /** A table is gone if its last page has been passed and nothing is left in it; every other is
      where it was. */
  ghost predicate Trimmed(before: Tables, t: Tables, root: Frame, lo: nat, hi: nat) {
    forall q {:trigger Walk(t, root, q)} :: 1 <= Depth(q) <= 3 ==>
      Walk(t, root, q) == if Passed(q, lo, hi) && Childless(t, root, q) then None else Walk(before, root, q)
  }

  /** The same for the tables of a set. */
  ghost predicate Trims(before: Tables, t: Tables, root: Frame, ends: set<Path>) {
    forall q {:trigger Walk(t, root, q)} :: 1 <= Depth(q) <= 3 ==>
      Walk(t, root, q) == if q in ends && Childless(t, root, q) then None else Walk(before, root, q)
  }

  /** The tables that end when the third, the second or the first index passes 511. */
  ghost function Ends1(c: Cursor): set<Path> { if c.i3 == 511 then {At1(c)} else {} }
  ghost function Ends2(c: Cursor): set<Path> { if c.i2 == 511 then {At2(c)} + Ends1(c) else {} }
  ghost function Ends3(c: Cursor): set<Path> { if c.i1 == 511 then {At3(c)} + Ends2(c) else {} }

  lemma LastPageOnce(q: Path, c: Cursor, d: Cursor)
    requires LastPage(q, c) && LastPage(q, d)
    ensures c == d
  {
    AtDepths(c);
    AtDepths(d);
  }

  lemma PassedAt(q: Path, c: Cursor, lo: nat, hi: nat)
    requires Ok(c) && LastPage(q, c)
    ensures Passed(q, lo, hi) <==> lo <= Lin(c) < hi
  {
    if Passed(q, lo, hi) {
      var d :| Ok(d) && LastPage(q, d) && lo <= Lin(d) < hi;
      LastPageOnce(q, c, d);
    }
  }

  // ---- One table ------------------------------------------------------------------------

  lemma DropTrims(before: Tables, t: Tables, root: Frame, q: Path)
    requires 1 <= Depth(q) <= 3 && Differ(before, t, root, q, None)
    ensures Trims(before, t, root, {q})
  {
    assert Walk(t, root, q).None?;
    assert Childless(t, root, q);
  }

  lemma KeepTrims(t: Tables, root: Frame, q: Path, f: Frame)
    requires Walk(t, root, q) == Some(f) && f in t && |t[f]| == 512 && exists e :: e in t[f] && e.present
    ensures Trims(t, t, root, {q})
  {
    var i :| 0 <= i < |t[f]| && t[f][i].present;
    assert Walk(t, root, Sub(q, i)).Some?;
  }

  /** One table more, and what is done to the others leaves its entries alone. */
  lemma TrimsTwo(a: Tables, b: Tables, d: Tables, root: Frame, q: Path, ends: set<Path>)
    requires Trims(a, b, root, {q}) && Trims(b, d, root, ends) && SamePages(b, d, root)
    requires 1 <= Depth(q) <= 3 && q !in ends && forall i :: Sub(q, i) !in ends
    ensures Trims(a, d, root, {q} + ends)
  {
    assert Walk(d, root, q) == Walk(b, root, q);
    SameChildren(b, d, root, q, ends);
  }

  lemma SameChildren(b: Tables, d: Tables, root: Frame, q: Path, ends: set<Path>)
    requires Trims(b, d, root, ends) && SamePages(b, d, root) && 1 <= Depth(q) <= 3 && forall i :: Sub(q, i) !in ends
    ensures Childless(d, root, q) <==> Childless(b, root, q)
  {
    forall i | 0 <= i < 512 ensures Walk(d, root, Sub(q, i)) == Walk(b, root, Sub(q, i)) {
      assert Depth(Sub(q, i)) == Depth(q) + 1;
    }
  }

  lemma TrimsPde(a: Tables, b: Tables, d: Tables, root: Frame, c: Cursor)
    requires Trims(a, b, root, {At2(c)}) && Trims(b, d, root, Ends1(c)) && SamePages(b, d, root) && c.i2 == 511
    ensures Trims(a, d, root, Ends2(c))
  {
    AtDepths(c);
    assert forall i :: Sub(At2(c), i) !in Ends1(c);
    TrimsTwo(a, b, d, root, At2(c), Ends1(c));
  }

  lemma TrimsPte(a: Tables, b: Tables, d: Tables, root: Frame, c: Cursor)
    requires Trims(a, b, root, {At3(c)}) && Trims(b, d, root, Ends2(c)) && SamePages(b, d, root) && c.i1 == 511
    ensures Trims(a, d, root, Ends3(c))
  {
    AtDepths(c);
    assert forall i :: Sub(At3(c), i) !in Ends2(c);
    TrimsTwo(a, b, d, root, At3(c), Ends2(c));
  }

  // ---- One turn -------------------------------------------------------------------------

  /** What ends in a turn was given back if it was empty, or was not there. */
  lemma TurnTrims(t: Tables, t': Tables, root: Frame, lo: nat, hi: nat, ends: set<Path>)
    requires Trims(t, t', root, ends) && forall q :: q in ends ==> Passed(q, lo, hi)
    requires forall q :: Passed(q, lo, hi) ==> q in ends || Walk(t, root, q).None?
    ensures Trimmed(t, t', root, lo, hi)
  {
  }

  lemma PageTrims(t: Tables, t': Tables, root: Frame, c: Cursor)
    requires Ok(c) && Trims(t, t', root, Ends3(c))
    ensures Trimmed(t, t', root, Lin(c), Lin(c) + 1)
  {
    forall q ensures q in Ends3(c) <==> Passed(q, Lin(c), Lin(c) + 1) {
      if Passed(q, Lin(c), Lin(c) + 1) {
        var d :| Ok(d) && LastPage(q, d) && Lin(c) <= Lin(d) < Lin(c) + 1;
        LinInjective(c, d);
      }
      assert q in Ends3(c) ==> LastPage(q, c);
    }
    TurnTrims(t, t', root, Lin(c), Lin(c) + 1, Ends3(c));
  }

  lemma Absent3Trims(t: Tables, t': Tables, root: Frame, c: Cursor)
    requires Ok(c) && Walk(t, root, At3(c)).None? && Trims(t, t', root, Ends2(c))
    ensures Trimmed(t, t', root, Lin(c), Lin(Cursor(c.i4, c.i3, c.i2, 0)) + 512)
  {
    var hi, last := Lin(Cursor(c.i4, c.i3, c.i2, 0)) + 512, c.(i1 := 511);
    forall q | Passed(q, Lin(c), hi) ensures q in Ends2(c) || Walk(t, root, q).None? {
      var d :| Ok(d) && LastPage(q, d) && Lin(c) <= Lin(d) < hi;
      assert d.i4 == c.i4 && d.i3 == c.i3 && d.i2 == c.i2;
    }
    forall q | q in Ends2(c) ensures Passed(q, Lin(c), hi) {
      assert LastPage(q, last);
    }
    TurnTrims(t, t', root, Lin(c), hi, Ends2(c));
  }

  lemma Absent2Trims(t: Tables, t': Tables, root: Frame, c: Cursor)
    requires Ok(c) && Walk(t, root, At2(c)).None? && Trims(t, t', root, Ends1(c))
    ensures Trimmed(t, t', root, Lin(c), Lin(Cursor(c.i4, c.i3, 0, 0)) + 0x4_0000)
  {
    var hi, last := Lin(Cursor(c.i4, c.i3, 0, 0)) + 0x4_0000, c.(i2 := 511, i1 := 511);
    forall q | Passed(q, Lin(c), hi) ensures q in Ends1(c) || Walk(t, root, q).None? {
      var d :| Ok(d) && LastPage(q, d) && Lin(c) <= Lin(d) < hi;
      assert d.i4 == c.i4 && d.i3 == c.i3;
      assert Walk(t, root, At3(d)).None?;
    }
    forall q | q in Ends1(c) ensures Passed(q, Lin(c), hi) {
      assert LastPage(q, last);
    }
    TurnTrims(t, t', root, Lin(c), hi, Ends1(c));
  }

  lemma Absent1Trims(t: Tables, root: Frame, c: Cursor)
    requires Ok(c) && Walk(t, root, At1(c)).None?
    ensures Trimmed(t, t, root, Lin(c), Lin(Cursor(c.i4 + 1, 0, 0, 0)))
  {
    var hi := Lin(Cursor(c.i4 + 1, 0, 0, 0));
    forall q | Passed(q, Lin(c), hi) ensures Walk(t, root, q).None? {
      var d :| Ok(d) && LastPage(q, d) && Lin(c) <= Lin(d) < hi;
      assert d.i4 == c.i4;
      assert Walk(t, root, At2(d)).None? && Walk(t, root, At3(d)).None?;
    }
    TurnTrims(t, t, root, Lin(c), hi, {});
  }

  // ---- The whole walk -------------------------------------------------------------------

  /** The pages and tables of a table end no later than it does. */
  lemma ChildEnds(q: Path, c: Cursor, i: nat) returns (d: Cursor)
    requires Ok(c) && LastPage(q, c) && i < 512
    ensures Ok(d) && Lin(d) <= Lin(c) && if Depth(q) == 3 then Sub(q, i) == At4(d) else LastPage(Sub(q, i), d)
  {
    AtDepths(c);
    d := if Depth(q) == 3 then c.(i1 := i) else if Depth(q) == 2 then c.(i2 := i) else c.(i3 := i);
  }

  /** Once a table has been passed its entries do not change. */
  lemma PassedStays(b: Tables, d: Tables, root: Frame, mid: nat, hi: nat, q: Path, c: Cursor)
    requires Trimmed(b, d, root, mid, hi) && Ok(c) && LastPage(q, c) && Lin(c) < mid
    requires forall x :: Ok(x) && Lin(x) < mid ==> Walk(d, root, At4(x)) == Walk(b, root, At4(x))
    ensures Walk(d, root, q) == Walk(b, root, q) && (Childless(d, root, q) <==> Childless(b, root, q))
  {
    AtDepths(c);
    PassedAt(q, c, mid, hi);
    forall i | 0 <= i < 512 ensures Walk(d, root, Sub(q, i)) == Walk(b, root, Sub(q, i)) {
      var x := ChildEnds(q, c, i);
      assert Depth(Sub(q, i)) == Depth(q) + 1;
      if Depth(q) < 3 {
        PassedAt(Sub(q, i), x, mid, hi);
      }
    }
  }

  lemma TrimmedOn(a: Tables, b: Tables, d: Tables, root: Frame, lo: nat, mid: nat, hi: nat)
    requires lo <= mid <= hi && Trimmed(a, b, root, lo, mid) && Trimmed(b, d, root, mid, hi)
    requires forall x :: Ok(x) && Lin(x) < mid ==> Walk(d, root, At4(x)) == Walk(b, root, At4(x))
    ensures Trimmed(a, d, root, lo, hi)
  {
    forall q | 1 <= Depth(q) <= 3
      ensures Walk(d, root, q) == if Passed(q, lo, hi) && Childless(d, root, q) then None else Walk(a, root, q)
    {
      assert Passed(q, lo, hi) <==> Passed(q, lo, mid) || Passed(q, mid, hi);
      if Passed(q, lo, mid) {
        var c :| Ok(c) && LastPage(q, c) && lo <= Lin(c) < mid;
        PassedStays(b, d, root, mid, hi, q, c);
      }
    }
  }

  /** Where a walk comes to that ends with page c: just after it, or at the end of what is absent
      there. */
  ghost function Reach(t: Tables, root: Frame, c: Cursor): nat {
    if Walk(t, root, At1(c)).None? then Lin(Cursor(c.i4 + 1, 0, 0, 0))
    else if Walk(t, root, At2(c)).None? then Lin(Cursor(c.i4, c.i3, 0, 0)) + 0x4_0000
    else if Walk(t, root, At3(c)).None? then Lin(Cursor(c.i4, c.i3, c.i2, 0)) + 512
    else Lin(c) + 1
  }

  lemma ReachIsNext(t: Tables, root: Frame, c: Cursor)
    requires Ok(c)
    ensures Reach(t, root, c) == Lin(c) + Distance(t, root, c)
  {
  }

  lemma NotYetPassed(c: Cursor, lo: nat)
    requires Ok(c)
    ensures !Passed(At1(c), lo, Lin(c)) && !Passed(At2(c), lo, Lin(c)) && !Passed(At3(c), lo, Lin(c))
  {
    PassedAt(At1(c), c.(i3 := 511, i2 := 511, i1 := 511), lo, Lin(c));
    PassedAt(At2(c), c.(i2 := 511, i1 := 511), lo, Lin(c));
    PassedAt(At3(c), c.(i1 := 511), lo, Lin(c));
  }

  /** The last turn ends there, wherever in it the last page is. */
  lemma ReachThere(before: Tables, t: Tables, root: Frame, lo: nat, c: Cursor, d: Cursor)
    requires Ok(c) && Ok(d) && lo <= Lin(c) <= Lin(d) < Reach(t, root, c) && Trimmed(before, t, root, lo, Lin(c))
    ensures Reach(before, root, d) == Reach(t, root, c)
  {
    AtDepths(c);
    NotYetPassed(c, lo);
    assert Walk(t, root, At1(c)) == Walk(before, root, At1(c));
    assert Walk(t, root, At2(c)) == Walk(before, root, At2(c));
    assert Walk(t, root, At3(c)) == Walk(before, root, At3(c));
    ReachFrom(before, root, c, d);
  }

  lemma ReachFrom(t: Tables, root: Frame, c: Cursor, d: Cursor)
    requires Ok(c) && Ok(d) && Lin(c) <= Lin(d) < Reach(t, root, c)
    ensures Reach(t, root, d) == Reach(t, root, c)
  {
    if Walk(t, root, At1(c)).None? {
      assert d.i4 == c.i4;
    } else if Walk(t, root, At2(c)).None? {
      assert d.i4 == c.i4 && d.i3 == c.i3;
    } else if Walk(t, root, At3(c)).None? {
      assert d.i4 == c.i4 && d.i3 == c.i3 && d.i2 == c.i2;
    } else {
      LinInjective(c, d);
    }
  }

  /** The tables after a release of the pages from lo up to hi. */
  ghost predicate TablesFreed(before: Tables, t: Tables, root: Frame, lo: nat, hi: nat) {
    forall d {:trigger Reach(before, root, d)} :: Ok(d) && Lin(d) + 1 == hi ==>
      Trimmed(before, t, root, lo, Reach(before, root, d))
  }

  /** The table of the first level outlives every release within its first 511 second-level entries:
      the walk does not come to its last page. */
  lemma FirstLevelStays(before: Tables, t: Tables, root: Frame, lo: nat, d: Cursor)
    requires Ok(d) && d.i3 < 511 && Walk(before, root, At1(d)).Some?
    requires Trimmed(before, t, root, lo, Reach(before, root, d))
    ensures Walk(t, root, At1(d)) == Walk(before, root, At1(d))
  {
    AtDepths(d);
    PassedAt(At1(d), d.(i3 := 511, i2 := 511, i1 := 511), lo, Reach(before, root, d));
  }

  ghost predicate NoTables(t: Tables, root: Frame) {
    forall q {:trigger Walk(t, root, q)} :: 1 <= Depth(q) <= 3 ==> Walk(t, root, q).None?
  }

  ghost predicate NoPages(t: Tables, root: Frame) {
    forall q {:trigger Walk(t, root, q)} :: Depth(q) == 4 ==> Walk(t, root, q).None?
  }

  ghost predicate AllPassed(t: Tables, root: Frame, lo: nat, hi: nat) {
    forall q {:trigger Walk(t, root, q)} :: 1 <= Depth(q) <= 3 && Walk(t, root, q).Some? ==> Passed(q, lo, hi)
  }

  /** All tables are given back if and only if no page is left mapped and the walk has passed the last
      page of every table there was. */
  lemma NoTablesIff(before: Tables, t: Tables, root: Frame, lo: nat, hi: nat)
    requires Trimmed(before, t, root, lo, hi)
    ensures NoTables(t, root) <==> NoPages(t, root) && AllPassed(before, root, lo, hi)
  {
    if NoTables(t, root) {
      forall q | Depth(q) == 4 ensures Walk(t, root, q).None? {
        assert Depth(q.parent) == 3;
      }
      forall q | 1 <= Depth(q) <= 3 && Walk(before, root, q).Some? ensures Passed(q, lo, hi) {
        assert Walk(t, root, q).None?;
      }
    } else if NoPages(t, root) && AllPassed(before, root, lo, hi) {
      forall q | 1 <= Depth(q) <= 3 ensures Walk(t, root, q).None? {
        NoTableThere(before, t, root, lo, hi, q);
      }
    }
  }

  /** Bottom up: a table that was passed and whose tables are gone is gone. */
  lemma {:induction false} NoTableThere(before: Tables, t: Tables, root: Frame, lo: nat, hi: nat, q: Path)
    requires Trimmed(before, t, root, lo, hi) && NoPages(t, root) && AllPassed(before, root, lo, hi)
    requires 1 <= Depth(q) <= 4
    ensures Walk(t, root, q).None?
    decreases 4 - Depth(q)
  {
    if Depth(q) == 4 {
    } else {
      forall i | 0 <= i < 512 ensures Walk(t, root, Sub(q, i)).None? {
        assert Depth(Sub(q, i)) == Depth(q) + 1;
        NoTableThere(before, t, root, lo, hi, Sub(q, i));
      }
      assert Childless(t, root, q);
    }
  }
}
