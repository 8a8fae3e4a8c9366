/** How many page tables a mapping takes, counted on the tables as they are before it (k64_vmm.c:98-191). */
module TableNeeds {
  import opened Blocks
  import opened PageTables

  /** The entry for page p of table f. */
  ghost predicate Leads(t: Tables, f: nat, level: nat, p: Page) {
    f in t && |t[f].entries| == ENTRIES && ValidPage(p) && Points(t[f].entries[Index(p, level)], level)
  }

  /** How many tables the walk of p lacks below table f. */
  ghost function Missing(t: Tables, f: nat, level: nat, p: Page): (n: nat)
    ensures level >= 1 ==> n < level
    decreases level
  {
    if level <= 1 then 0
    else if Leads(t, f, level, p) then Missing(t, t[f].entries[Index(p, level)].frame, level - 1, p)
    else level - 1
  }

  /** A large entry in the root is no page that could be split: mapping gives up there. */
  ghost predicate Blocked(t: Tables, root: nat, p: Page) {
    && root in t && |t[root].entries| == ENTRIES && ValidPage(p)
    && t[root].entries[p.i4].flags.present && t[root].entries[p.i4].flags.large
  }

  // ---------------------------------------------------------------------------------------
  // Several pages, each table counted once
  // ---------------------------------------------------------------------------------------

  /** One of the pages lies under the same table of level l as p. */
  ghost predicate Under(ps: seq<Page>, p: Page, l: nat) { exists i :: 0 <= i < |ps| && SameAbove(ps[i], p, l) }

  ghost predicate AllValid(ps: seq<Page>) { forall i :: 0 <= i < |ps| ==> ValidPage(ps[i]) }

  /** The table of level l for page p is neither there nor made for one of the pages. */
  ghost function New(t: Tables, root: nat, ps: seq<Page>, p: Page, l: nat): nat {
    if TableOn(t, root, 4, p, l).None? && !Under(ps, p, l) then 1 else 0
  }

  ghost function NewFor(t: Tables, root: nat, ps: seq<Page>, p: Page): nat {
    New(t, root, ps, p, 3) + New(t, root, ps, p, 2) + New(t, root, ps, p, 1)
  }

  /** How many tables the walks of the pages lack together. */
  ghost function Needed(t: Tables, root: nat, ps: seq<Page>): nat {
    if ps == [] then 0 else Needed(t, root, ps[..|ps| - 1]) + NewFor(t, root, ps[..|ps| - 1], ps[|ps| - 1])
  }

  /** From root y through t' a table is reached exactly if it was from x through t or lies on the walk of one of the pages. */
  ghost predicate Covers(t: Tables, x: nat, t': Tables, y: nat, ps: seq<Page>) { forall q, l :: CoversAt(t, x, t', y, ps, q, l) }

  ghost predicate CoversAt(t: Tables, x: nat, t': Tables, y: nat, ps: seq<Page>, q: Page, l: nat) {
    ValidPage(q) && 1 <= l <= 3 ==> (TableOn(t', y, 4, q, l).Some? <==> TableOn(t, x, 4, q, l).Some? || Under(ps, q, l))
  }

  lemma {:induction false} UnderJoin(ps: seq<Page>, qs: seq<Page>, p: Page, l: nat)
    ensures Under(ps + qs, p, l) <==> Under(ps, p, l) || Under(qs, p, l)
  {
    var all := ps + qs;
    if Under(ps, p, l) {
      var i :| 0 <= i < |ps| && SameAbove(ps[i], p, l);
      assert SameAbove(all[i], p, l);
    }
    if Under(qs, p, l) {
      var i :| 0 <= i < |qs| && SameAbove(qs[i], p, l);
      assert SameAbove(all[|ps| + i], p, l);
    }
  }

  lemma {:induction false} MissingIs(t: Tables, root: nat, p: Page)
    requires ValidPage(p)
    ensures Missing(t, root, 4, p) == NewFor(t, root, [], p)
  {
    forall l ensures !Under([], p, l) {
    }
    MissingUp(t, root, 4, p);
  }

  /** The tables that are there are those above the ones that are missing. */
  lemma {:induction false} MissingUp(t: Tables, f: nat, level: nat, p: Page)
    requires ValidPage(p) && 1 <= level <= 4
    ensures forall l :: 1 <= l <= level ==> (TableOn(t, f, level, p, l).None? <==> l <= Missing(t, f, level, p))
    decreases level
  {
    if level > 1 && Leads(t, f, level, p) {
      MissingUp(t, t[f].entries[Index(p, level)].frame, level - 1, p);
    }
  }

  lemma {:induction false} CoversMissing(t: Tables, x: nat, t': Tables, y: nat, ps: seq<Page>, p: Page)
    requires Covers(t, x, t', y, ps) && ValidPage(p)
    ensures Missing(t', y, 4, p) == NewFor(t, x, ps, p)
  {
    MissingIs(t', y, p);
    forall l ensures !Under([], p, l) {
    }
    assert CoversAt(t, x, t', y, ps, p, 3) && CoversAt(t, x, t', y, ps, p, 2) && CoversAt(t, x, t', y, ps, p, 1);
  }

  lemma {:induction false} CoversJoin(t: Tables, x: nat, t': Tables, y: nat, t'': Tables, z: nat, ps: seq<Page>, qs: seq<Page>)
    requires Covers(t, x, t', y, ps) && Covers(t', y, t'', z, qs)
    ensures Covers(t, x, t'', z, ps + qs)
  {
    forall q, l ensures CoversAt(t, x, t'', z, ps + qs, q, l) {
      assert CoversAt(t, x, t', y, ps, q, l) && CoversAt(t', y, t'', z, qs, q, l);
      UnderJoin(ps, qs, q, l);
    }
  }

  lemma {:induction false} CoversNothing(t: Tables, x: nat)
    ensures Covers(t, x, t, x, [])
  {
    forall q, l ensures CoversAt(t, x, t, x, [], q, l) {
    }
  }

  lemma {:induction false} NewJoin(t: Tables, x: nat, t': Tables, y: nat, ps: seq<Page>, qs: seq<Page>, q: Page)
    requires Covers(t, x, t', y, ps) && ValidPage(q)
    ensures NewFor(t, x, ps + qs, q) == NewFor(t', y, qs, q)
  {
    forall l | 1 <= l <= 3 ensures New(t, x, ps + qs, q, l) == New(t', y, qs, q, l) {
      assert CoversAt(t, x, t', y, ps, q, l);
      UnderJoin(ps, qs, q, l);
    }
  }

  /** What two lists of pages take together is what the first takes, and then the second. */
  lemma {:induction false} NeededJoin(t: Tables, x: nat, t': Tables, y: nat, ps: seq<Page>, qs: seq<Page>)
    requires Covers(t, x, t', y, ps) && AllValid(qs)
    ensures Needed(t, x, ps + qs) == Needed(t, x, ps) + Needed(t', y, qs)
  {
    if qs == [] {
      assert ps + qs == ps;
    } else {
      var n := |qs| - 1;
      NeededJoin(t, x, t', y, ps, qs[..n]);
      NewJoin(t, x, t', y, ps, qs[..n], qs[n]);
      var all := ps + qs;
      assert all[..|all| - 1] == ps + qs[..n] && all[|all| - 1] == qs[n];
    }
  }

  lemma {:induction false} NeededPrefix(t: Tables, x: nat, ps: seq<Page>, qs: seq<Page>)
    ensures Needed(t, x, ps) <= Needed(t, x, ps + qs)
    decreases |qs|
  {
    if qs == [] {
      assert ps + qs == ps;
    } else {
      var n := |qs| - 1;
      NeededPrefix(t, x, ps, qs[..n]);
      var all := ps + qs;
      assert all[..|all| - 1] == ps + qs[..n];
    }
  }

  lemma {:induction false} NeededOne(t: Tables, x: nat, p: Page)
    requires ValidPage(p)
    ensures Needed(t, x, [p]) == Missing(t, x, 4, p)
  {
    MissingIs(t, x, p);
    assert [p][..0] == [];
  }

  /** Pages under one last table take what the first of them takes. */
  lemma {:induction false} NeededTogether(t: Tables, x: nat, ps: seq<Page>)
    requires ps != [] && AllValid(ps) && forall i :: 0 <= i < |ps| ==> SameAbove(ps[0], ps[i], 1)
    ensures Needed(t, x, ps) == Missing(t, x, 4, ps[0])
  {
    var n := |ps| - 1;
    if n == 0 {
      assert ps == [ps[0]];
      NeededOne(t, x, ps[0]);
    } else {
      NeededTogether(t, x, ps[..n]);
      forall l | 1 <= l <= 3 ensures Under(ps[..n], ps[n], l) {
        assert SameAbove(ps[..n][0], ps[n], l);
      }
    }
  }

  /** A page takes three tables at most. */
  lemma {:induction false} NeededAtMost(t: Tables, x: nat, ps: seq<Page>, qs: seq<Page>)
    ensures Needed(t, x, ps + qs) <= Needed(t, x, ps) + 3 * |qs|
    decreases |qs|
  {
    if qs == [] {
      assert ps + qs == ps;
    } else {
      var n := |qs| - 1;
      NeededAtMost(t, x, ps, qs[..n]);
      var all := ps + qs;
      assert all[..|all| - 1] == ps + qs[..n];
    }
  }

  // ---------------------------------------------------------------------------------------
  // New tables on one walk
  // ---------------------------------------------------------------------------------------

  /** Table f is on the walk of p from this root, and on no other walk but those that agree with it down to there. */
  ghost predicate OnWalk(t: Tables, root: nat, p: Page, f: nat, level: nat) {
    Unaliased(t, root) && TableOn(t, root, 4, p, level) == Some(f)
  }

  /** Only walks that share a table with the walk of p have become longer. */
  ghost predicate Along(t: Tables, t': Tables, root: nat, p: Page) { forall q, l :: AlongAt(t, t', root, p, q, l) }

  ghost predicate AlongAt(t: Tables, t': Tables, root: nat, p: Page, q: Page, l: nat) {
    ValidPage(q) && 1 <= l <= 3 ==>
      && (TableOn(t', root, 4, q, l).Some? ==> TableOn(t, root, 4, q, l).Some? || SameAbove(p, q, l))
      && (Blocked(t', root, q) <==> Blocked(t, root, q))
  }

  lemma {:induction false} AlongSame(t: Tables, root: nat, p: Page)
    ensures Along(t, t, root, p)
  {
    forall q, l ensures AlongAt(t, t, root, p, q, l) {
    }
  }

  lemma {:induction false} AlongTwice(t: Tables, t': Tables, t'': Tables, root: nat, p: Page)
    requires Along(t, t', root, p) && Along(t', t'', root, p)
    ensures Along(t, t'', root, p)
  {
    forall q, l ensures AlongAt(t, t'', root, p, q, l) {
      assert AlongAt(t, t', root, p, q, l) && AlongAt(t', t'', root, p, q, l);
    }
  }

  /** A table made at the entry for p of a table on its walk. */
  lemma {:induction false} ExtendAlong(t: Tables, t': Tables, f: nat, n: nat, flags: Flags, root: nat, p: Page)
    requires Typed(t) && f in t && Extends(t, t', f, Index(p, t[f].level), n, flags) && ValidPage(p) && OnWalk(t, root, p, f, t[f].level)
    ensures Along(t, t', root, p)
  {
    var level, i := t[f].level, Index(p, t[f].level);
    forall q, l | ValidPage(q) && 1 <= l <= 3 ensures AlongAt(t, t', root, p, q, l) {
      ExtendTableOn(t, t', f, i, n, flags, root, q, l);
      ExtendBlocked(t, t', f, i, n, flags, root, q);
      if TableOn(t, root, 4, q, level) == Some(f) && level < 4 {
        assert SameAbove(p, q, level);
      }
    }
    forall q, l ensures AlongAt(t, t', root, p, q, l) {
    }
  }

  lemma {:induction false} ExtendBlocked(t: Tables, t': Tables, f: nat, i: nat, n: nat, flags: Flags, root: nat, q: Page)
    requires Typed(t) && Extends(t, t', f, i, n, flags) && root in t && t[root].level == 4 && ValidPage(q)
    ensures Blocked(t', root, q) <==> Blocked(t, root, q)
  {
    if root == f && q.i4 == i {
      assert !IsLarge(t[f].entries[i], 4);
    }
  }

  /** From a table on, the walks of pages that agree down to it go through it together. */
  lemma {:induction false} SameWay(t: Tables, root: nat, p: Page, q: Page, l: nat)
    requires ValidPage(p) && ValidPage(q) && 1 <= l <= 3 && SameAbove(p, q, l)
    ensures TableOn(t, root, 4, q, l) == TableOn(t, root, 4, p, l)
  {
    SameWayFrom(t, root, 4, p, q, l);
  }

  lemma {:induction false} SameWayFrom(t: Tables, f: nat, level: nat, p: Page, q: Page, l: nat)
    requires ValidPage(p) && ValidPage(q) && 1 <= l <= level <= 4 && SameAbove(p, q, l)
    ensures TableOn(t, f, level, q, l) == TableOn(t, f, level, p, l)
    decreases level
  {
    if l < level {
      assert Index(p, level) == Index(q, level);
      if Leads(t, f, level, p) {
        SameWayFrom(t, t[f].entries[Index(p, level)].frame, level - 1, p, q, l);
      }
    }
  }

  /** A walk that reaches its last table passes one of every level. */
  lemma {:induction false} ReachesAll(t: Tables, f: nat, level: nat, p: Page, l: nat)
    requires 1 <= l <= level && TableOn(t, f, level, p, 1).Some?
    ensures TableOn(t, f, level, p, l).Some?
    decreases level
  {
    if l < level {
      ReachesAll(t, t[f].entries[Index(p, level)].frame, level - 1, p, l);
    }
  }

  /** All that is new on the way of p, and its walk complete: exactly p is covered. */
  lemma {:induction false} AlongCovers(t: Tables, t': Tables, root: nat, p: Page)
    requires Along(t, t', root, p) && PathsKept(t, t') && root in t && t[root].level == 4 && ValidPage(p)
    requires TableOn(t', root, 4, p, 1).Some?
    ensures Covers(t, root, t', root, [p])
  {
    forall q, l ensures CoversAt(t, root, t', root, [p], q, l) {
      if ValidPage(q) && 1 <= l <= 3 {
        assert AlongAt(t, t', root, p, q, l);
        assert Under([p], q, l) <==> SameAbove(p, q, l) by {
          assert [p][0] == p;
        }
        ReachesAll(t', root, 4, p, l);
        if SameAbove(p, q, l) {
          SameWay(t', root, p, q, l);
        }
      }
    }
  }

  /** The large root entries are the same. */
  ghost predicate SameBlocks(t: Tables, x: nat, t': Tables, y: nat) { forall q :: ValidPage(q) ==> (Blocked(t', y, q) <==> Blocked(t, x, q)) }

  lemma {:induction false} AlongBlocks(t: Tables, t': Tables, root: nat, p: Page)
    requires Along(t, t', root, p)
    ensures SameBlocks(t, root, t', root)
  {
    forall q | ValidPage(q) ensures Blocked(t', root, q) <==> Blocked(t, root, q) {
      assert AlongAt(t, t', root, p, q, 1);
    }
  }

  lemma {:induction false} LeafAlong(t: Tables, pt: nat, i: nat, e: Entry, root: nat, p: Page)
    requires Typed(t) && pt in t && t[pt].level == 1 && i < ENTRIES && root in t && t[root].level == 4
    ensures Along(t, LeafSet(t, pt, i, e), root, p)
  {
    forall q, l ensures AlongAt(t, LeafSet(t, pt, i, e), root, p, q, l) {
      if ValidPage(q) && 1 <= l <= 3 {
        LeafKeepsPaths(t, pt, i, e, root, q, l);
      }
    }
  }

  // ---------------------------------------------------------------------------------------
  // What there is to take
  // ---------------------------------------------------------------------------------------

  /** Free frames, and how many more tables and data frames the lists of a space hold. */
  datatype Supply = Supply(free: nat, tables: nat, frames: nat)

  predicate Suffices(s: Supply, tables: int, frames: int) { tables <= s.tables && frames <= s.frames && tables + frames <= s.free }

  predicate Spends(s: Supply, s': Supply, tables: int, frames: int) {
    s.free == s'.free + tables + frames && s.tables == s'.tables + tables && s.frames == s'.frames + frames
  }

  /** How many tables can be had. */
  function Budget(s: Supply): nat { if s.tables < s.free then s.tables else s.free }
}
