/** Four-level page tables with 1 GiB and 2 MiB pages, and what changing them does to translation (k64_vmm.c). */
module PageTables {
  import opened Blocks

  const ENTRIES: nat := 512

  /** The low twelve bits of an entry; `other` stands for the bits the kernel only copies. */
  datatype Flags = Flags(present: bool, writable: bool, user: bool, large: bool, other: nat)

  /** An entry word: the address bits from 12 up, as a frame number, and the flags. */
  datatype Entry = Entry(frame: nat, flags: Flags)

  /** A table frame; its level (4 for the root) is bookkeeping of the model. */
  datatype Table = Table(level: nat, entries: seq<Entry>)

  type Tables = map<nat, Table>

  /** A virtual page, as the four table indices of its address. */
  datatype Page = Page(i4: nat, i3: nat, i2: nat, i1: nat)

  predicate ValidPage(p: Page) { p.i4 < ENTRIES && p.i3 < ENTRIES && p.i2 < ENTRIES && p.i1 < ENTRIES }

  function Index(p: Page, level: nat): nat {
    match level
    case 4 => p.i4
    case 3 => p.i3
    case 2 => p.i2
    case _ => p.i1
  }

  const EMPTY: Entry := Entry(0, Flags(false, false, false, false, 0))

  // Address bits a large page keeps: 30..51 of a 1 GiB entry, but only 21..47 of a 2 MiB entry
  const GIB_FRAMES: nat := 0x40000
  const GIB_COUNT: nat := 0x400000
  const MIB2_FRAMES: nat := 512
  const MIB2_COUNT: nat := 0x8000000
  const MIB2_LIMIT: nat := MIB2_FRAMES * MIB2_COUNT

  function LargeBase(e: Entry, level: nat): nat {
    if level == 3 then e.frame / GIB_FRAMES % GIB_COUNT * GIB_FRAMES
    else e.frame / MIB2_FRAMES % MIB2_COUNT * MIB2_FRAMES
  }

  function LargeOffset(p: Page, level: nat): nat {
    if level == 3 then p.i2 * ENTRIES + p.i1 else p.i1
  }

  predicate IsLarge(e: Entry, level: nat) { (level == 2 || level == 3) && e.flags.large }

  /** The entry leads to a table of the next level. */
  predicate Points(e: Entry, level: nat) { level > 1 && e.flags.present && !IsLarge(e, level) }

  predicate Passes(e: Entry, user: bool) { e.flags.present && (user ==> e.flags.user) }

  /** The translation walk from table f of the given level: the physical frame of page p. */
  function Walk(t: Tables, f: nat, level: nat, p: Page, user: bool): Option<nat>
    decreases level
  {
    if level == 0 || f !in t || |t[f].entries| != ENTRIES || !ValidPage(p) then None else
    var e := t[f].entries[Index(p, level)];
    if !Passes(e, user) then None
    else if level == 1 then Some(e.frame)
    else if IsLarge(e, level) then Some(LargeBase(e, level) + LargeOffset(p, level))
    else Walk(t, e.frame, level - 1, p, user)
  }

  /** A pointer leads to a table of the next level, and a 1 GiB page lies below 2^48. */
  predicate GoodEntry(t: Tables, e: Entry, level: nat) {
    && (Points(e, level) ==> e.frame in t && t[e.frame].level == level - 1)
    && (level == 3 && e.flags.large ==> LargeBase(e, 3) < MIB2_LIMIT)
  }

  predicate Typed(t: Tables) {
    && (forall f :: f in t ==> 1 <= t[f].level <= 4 && |t[f].entries| == ENTRIES)
    && (forall f, i :: f in t && 0 <= i < ENTRIES ==> GoodEntry(t, t[f].entries[i], t[f].level))
  }

  /** Whoever translated through t translates the same through t'. */
  ghost predicate SameWalks(t: Tables, t': Tables) {
    forall f, p, user :: f in t ==> Walk(t', f, t[f].level, p, user) == Walk(t, f, t[f].level, p, user)
  }

  // ---------------------------------------------------------------------------------------
  // Replacing an entry by a new table that says the same
  // ---------------------------------------------------------------------------------------

  function PointerFlags(user: bool): Flags { Flags(true, true, user, false, 0) }

  /** What table entry i becomes when a large page is split. */
  function Child(e: Entry, level: nat, i: nat): Entry {
    if level == 3 then Entry(LargeBase(e, 3) + i * MIB2_FRAMES, e.flags)
    else Entry(LargeBase(e, 2) + i, e.flags.(large := false))
  }

  function Children(e: Entry, level: nat): (cs: seq<Entry>)
    ensures |cs| == ENTRIES && forall i :: 0 <= i < ENTRIES ==> cs[i] == Child(e, level, i)
  {
    seq(ENTRIES, i requires 0 <= i < ENTRIES => Child(e, level, i))
  }

  function EmptyTable(): (es: seq<Entry>)
    ensures |es| == ENTRIES && forall i :: 0 <= i < ENTRIES ==> es[i] == EMPTY
  {
    seq(ENTRIES, _ => EMPTY)
  }

  /** t with entry i of table f replaced by a pointer to the new table n with these entries. */
  function Inserted(t: Tables, f: nat, i: nat, n: nat, entries: seq<Entry>, user: bool): Tables
    requires f in t && i < |t[f].entries| && t[f].level > 0
  {
    t[f := t[f].(entries := t[f].entries[i := Entry(n, PointerFlags(user))])][n := Table(t[f].level - 1, entries)]
  }

  /** The two ways the kernel extends the tables: an absent entry gets an empty table, a large page its pieces. */
  ghost predicate Extends(t: Tables, t': Tables, f: nat, i: nat, n: nat, flags: Flags) {
    && f in t && n !in t && i < |t[f].entries| && t[f].level > 1
    && var e := t[f].entries[i];
       if !e.flags.present then t' == Inserted(t, f, i, n, EmptyTable(), flags.user)
       else IsLarge(e, t[f].level) && t' == Inserted(t, f, i, n, Children(e, t[f].level), e.flags.user || flags.user)
  }

  lemma {:induction false} GibSplitBase(e: Entry, i: nat)
    requires i < ENTRIES
    ensures LargeBase(Child(e, 3, i), 2) == LargeBase(e, 3) + i * MIB2_FRAMES <==> LargeBase(e, 3) < MIB2_LIMIT
  {
    var base := LargeBase(e, 3);
    var q := e.frame / GIB_FRAMES % GIB_COUNT;
    assert base == q * GIB_FRAMES;
    assert (base + i * MIB2_FRAMES) / MIB2_FRAMES == q * 512 + i;
    assert base < MIB2_LIMIT <==> q * 512 + i < MIB2_COUNT;
  }

  /** The entries of a new table lead no further. */
  lemma NewEntries(t: Tables, t': Tables, f: nat, i: nat, n: nat, flags: Flags, k: nat)
    requires Extends(t, t', f, i, n, flags) && k < ENTRIES && t[f].level <= 4
    ensures n in t' && |t'[n].entries| == ENTRIES && t'[n].level == t[f].level - 1
    ensures t'[n].entries[k] == if t[f].entries[i].flags.present then Child(t[f].entries[i], t[f].level, k) else EMPTY
    ensures !Points(t'[n].entries[k], t[f].level - 1)
    ensures t[f].level == 4 ==> !t'[n].entries[k].flags.large
  {
  }

  lemma {:induction false} ExtendKeepsTyped(t: Tables, t': Tables, f: nat, i: nat, n: nat, flags: Flags)
    requires Typed(t) && Extends(t, t', f, i, n, flags)
    ensures Typed(t')
  {
    forall x, k | x in t' && 0 <= k < ENTRIES ensures GoodEntry(t', t'[x].entries[k], t'[x].level) {
      if x == n {
        NewEntries(t, t', f, i, n, flags, k);
      } else if x == f && k == i {
        assert t'[f].entries[i].frame == n;
      } else {
        assert t'[x].entries[k] == t[x].entries[k];
        assert GoodEntry(t, t[x].entries[k], t[x].level);
      }
    }
  }

  /** The new table translates what the entry it replaces translated. */
  lemma {:induction false} NewTableWalk(t: Tables, t': Tables, f: nat, i: nat, n: nat, flags: Flags, p: Page, user: bool)
    requires Typed(t) && Extends(t, t', f, i, n, flags) && ValidPage(p)
    ensures var e, level := t[f].entries[i], t[f].level;
            Walk(t', n, level - 1, p, user) == if Passes(e, user) then Some(LargeBase(e, level) + LargeOffset(p, level)) else None
  {
    var e, level := t[f].entries[i], t[f].level;
    NewEntries(t, t', f, i, n, flags, Index(p, level - 1));
    if e.flags.present && level == 3 {
      assert GoodEntry(t, e, 3);
      GibSplitBase(e, p.i2);
    }
  }

  /** The page under a replaced entry. */
  lemma {:induction false} ExtendWalkHere(t: Tables, t': Tables, f: nat, i: nat, n: nat, flags: Flags, p: Page, user: bool)
    requires Typed(t) && Extends(t, t', f, i, n, flags) && ValidPage(p) && Index(p, t[f].level) == i
    ensures Walk(t', f, t[f].level, p, user) == Walk(t, f, t[f].level, p, user)
  {
    NewTableWalk(t, t', f, i, n, flags, p, user);
    NewTableWalk(t, t', f, i, n, flags, p, false);
    assert t'[f].entries[i].frame == n;
  }

  /** A walk that does not use the replaced entry here. */
  lemma {:induction false} ExtendWalkPast(t: Tables, t': Tables, f: nat, i: nat, n: nat, flags: Flags, x: nat, p: Page, user: bool)
    requires Typed(t) && Extends(t, t', f, i, n, flags) && x in t && ValidPage(p) && !(x == f && Index(p, t[x].level) == i)
    requires var e := t[x].entries[Index(p, t[x].level)];
             Points(e, t[x].level) ==> Walk(t', e.frame, t[x].level - 1, p, user) == Walk(t, e.frame, t[x].level - 1, p, user)
    ensures Walk(t', x, t[x].level, p, user) == Walk(t, x, t[x].level, p, user)
  {
    var j := Index(p, t[x].level);
    assert t'[x].entries[j] == t[x].entries[j];
  }

  lemma {:induction false} ExtendWalk(t: Tables, t': Tables, f: nat, i: nat, n: nat, flags: Flags, x: nat, p: Page, user: bool)
    requires Typed(t) && Extends(t, t', f, i, n, flags) && x in t
    ensures Walk(t', x, t[x].level, p, user) == Walk(t, x, t[x].level, p, user)
    decreases t[x].level
  {
    if ValidPage(p) {
      var j := Index(p, t[x].level);
      if x == f && j == i {
        ExtendWalkHere(t, t', f, i, n, flags, p, user);
      } else {
        var e := t[x].entries[j];
        if Points(e, t[x].level) {
          ExtendWalk(t, t', f, i, n, flags, e.frame, p, user);
        }
        ExtendWalkPast(t, t', f, i, n, flags, x, p, user);
      }
    }
  }

  /** Giving an absent entry an empty table, or splitting a large page, changes no translation of anyone. */
  lemma {:induction false} ExtendKeepsWalks(t: Tables, t': Tables, f: nat, i: nat, n: nat, flags: Flags)
    requires Typed(t) && Extends(t, t', f, i, n, flags)
    ensures SameWalks(t, t')
  {
    forall x, p, user | x in t ensures Walk(t', x, t[x].level, p, user) == Walk(t, x, t[x].level, p, user) {
      ExtendWalk(t, t', f, i, n, flags, x, p, user);
    }
  }

  /** Splitting a 1 GiB page at or above 2^48 does change translation: the pieces lose the high address bits. */
  lemma {:induction false} HighGibSplitChangesWalk(t: Tables, t': Tables, f: nat, i: nat, n: nat, flags: Flags, p: Page)
    requires f in t && t[f].level == 3 && |t[f].entries| == ENTRIES && ValidPage(p) && p.i3 == i
    requires Extends(t, t', f, i, n, flags) && t[f].entries[i].flags.present
    ensures Walk(t', f, 3, p, false) == Walk(t, f, 3, p, false) <==> LargeBase(t[f].entries[i], 3) < MIB2_LIMIT
  {
    GibSplitBase(t[f].entries[i], p.i2);
    assert t'[n].entries[p.i2] == Child(t[f].entries[i], 3, p.i2);
  }

  // ---------------------------------------------------------------------------------------
  // Which tables a walk goes through
  // ---------------------------------------------------------------------------------------

  /** The table of level `to` that the walk of page p goes through. */
  function TableOn(t: Tables, f: nat, level: nat, p: Page, to: nat): Option<nat>
    decreases level
  {
    if level == to then Some(f)
    else if level < to || f !in t || |t[f].entries| != ENTRIES || !ValidPage(p) then None
    else
      var e := t[f].entries[Index(p, level)];
      if Points(e, level) then TableOn(t, e.frame, level - 1, p, to) else None
  }

  /** The last table on the walk of page p. */
  function Bottom(t: Tables, f: nat, level: nat, p: Page): nat
    decreases level
  {
    if level == 0 || f !in t || |t[f].entries| != ENTRIES || !ValidPage(p) || !Points(t[f].entries[Index(p, level)], level) then f
    else Bottom(t, t[f].entries[Index(p, level)].frame, level - 1, p)
  }

  predicate SameAbove(p: Page, q: Page, level: nat) {
    (level < 4 ==> p.i4 == q.i4) && (level < 3 ==> p.i3 == q.i3) && (level < 2 ==> p.i2 == q.i2)
  }

  /** From this root no table is reached in two ways. */
  ghost predicate Unaliased(t: Tables, root: nat) {
    && root in t && t[root].level == 4
    && forall p, q, l | ValidPage(p) && ValidPage(q) && 1 <= l <= 3 && TableOn(t, root, 4, p, l).Some? ::
         TableOn(t, root, 4, p, l) == TableOn(t, root, 4, q, l) ==> SameAbove(p, q, l)
  }

  lemma {:induction false} TableOnTyped(t: Tables, f: nat, p: Page, to: nat)
    requires Typed(t) && f in t && 1 <= to <= t[f].level
    ensures var r := TableOn(t, f, t[f].level, p, to); r.Some? ==> r.value in t && t[r.value].level == to
    decreases t[f].level
  {
    if to < t[f].level && ValidPage(p) {
      var e := t[f].entries[Index(p, t[f].level)];
      if Points(e, t[f].level) {
        TableOnTyped(t, e.frame, p, to);
      }
    }
  }

  /** An extension adds table n to the walks through the replaced entry. */
  lemma {:induction false} ExtendTableOn(t: Tables, t': Tables, f: nat, i: nat, n: nat, flags: Flags, x: nat, q: Page, to: nat)
    requires Typed(t) && Extends(t, t', f, i, n, flags) && x in t && ValidPage(q) && 1 <= to
    ensures TableOn(t', x, t[x].level, q, to) ==
              if to < t[f].level <= t[x].level && TableOn(t, x, t[x].level, q, t[f].level) == Some(f) && Index(q, t[f].level) == i then
                if to == t[f].level - 1 then Some(n) else None
              else TableOn(t, x, t[x].level, q, to)
    decreases t[x].level
  {
    var level, j := t[x].level, Index(q, t[x].level);
    if to < level {
      var e := t[x].entries[j];
      if x == f && j == i {
        NewEntries(t, t', f, i, n, flags, Index(q, level - 1));
      } else {
        assert t'[x].entries[j] == e;
        if Points(e, level) {
          ExtendTableOn(t, t', f, i, n, flags, e.frame, q, to);
        }
      }
    }
  }

  lemma {:induction false} ExtendKeepsUnaliased(t: Tables, t': Tables, f: nat, i: nat, n: nat, flags: Flags, root: nat)
    requires Typed(t) && Extends(t, t', f, i, n, flags) && Unaliased(t, root)
    ensures Unaliased(t', root)
  {
    forall p, q, l | ValidPage(p) && ValidPage(q) && 1 <= l <= 3 && TableOn(t', root, 4, p, l).Some? &&
                     TableOn(t', root, 4, p, l) == TableOn(t', root, 4, q, l)
      ensures SameAbove(p, q, l)
    {
      ExtendTableOn(t, t', f, i, n, flags, root, p, l);
      ExtendTableOn(t, t', f, i, n, flags, root, q, l);
      TableOnTyped(t, root, p, l);
      TableOnTyped(t, root, q, l);
    }
  }

  // ---------------------------------------------------------------------------------------
  // The user bit, and writing the last entry
  // ---------------------------------------------------------------------------------------

  /** Every pointer on the walk of p admits the user. */
  predicate UserReady(t: Tables, f: nat, level: nat, p: Page)
    decreases level
  {
    f in t && |t[f].entries| == ENTRIES && level > 1 && ValidPage(p) && Points(t[f].entries[Index(p, level)], level) ==>
      t[f].entries[Index(p, level)].flags.user && UserReady(t, t[f].entries[Index(p, level)].frame, level - 1, p)
  }

  lemma {:induction false} ExtendUserReady(t: Tables, t': Tables, f: nat, i: nat, n: nat, flags: Flags, x: nat, p: Page)
    requires Typed(t) && Extends(t, t', f, i, n, flags) && flags.user && x in t
    ensures UserReady(t', x, t[x].level, p) == UserReady(t, x, t[x].level, p)
    decreases t[x].level
  {
    var level := t[x].level;
    if ValidPage(p) && level > 1 {
      var j := Index(p, level);
      if x == f && j == i {
        NewEntries(t, t', f, i, n, flags, Index(p, level - 1));
        assert UserReady(t', n, level - 1, p);
      } else {
        var e := t[x].entries[j];
        assert t'[x].entries[j] == e;
        if Points(e, level) {
          ExtendUserReady(t, t', f, i, n, flags, e.frame, p);
        }
      }
    }
  }

  function LeafSet(t: Tables, pt: nat, i: nat, e: Entry): Tables
    requires pt in t && i < |t[pt].entries|
  {
    t[pt := t[pt].(entries := t[pt].entries[i := e])]
  }

  /** Writing an entry of a level-1 table leaves every pointer alone. */
  lemma {:induction false} LeafKeepsPaths(t: Tables, pt: nat, i: nat, e: Entry, x: nat, q: Page, to: nat)
    requires Typed(t) && pt in t && t[pt].level == 1 && i < ENTRIES && x in t && 1 <= to
    ensures TableOn(LeafSet(t, pt, i, e), x, t[x].level, q, to) == TableOn(t, x, t[x].level, q, to)
    ensures UserReady(LeafSet(t, pt, i, e), x, t[x].level, q) == UserReady(t, x, t[x].level, q)
    decreases t[x].level
  {
    var level := t[x].level;
    if ValidPage(q) && level > 1 {
      var c := t[x].entries[Index(q, level)];
      if Points(c, level) {
        LeafKeepsPaths(t, pt, i, e, c.frame, q, to);
      }
    }
  }

  /** Who sees the new entry: exactly the walks that reach that table and that index. */
  lemma {:induction false} LeafWalk(t: Tables, pt: nat, i: nat, e: Entry, x: nat, q: Page, user: bool)
    requires Typed(t) && pt in t && t[pt].level == 1 && i < ENTRIES && x in t
    ensures Walk(LeafSet(t, pt, i, e), x, t[x].level, q, user) ==
              if ValidPage(q) && TableOn(t, x, t[x].level, q, 1) == Some(pt) && q.i1 == i then
                if Passes(e, user) && (user ==> UserReady(t, x, t[x].level, q)) then Some(e.frame) else None
              else Walk(t, x, t[x].level, q, user)
    decreases t[x].level
  {
    var level := t[x].level;
    if ValidPage(q) && level > 1 {
      var c := t[x].entries[Index(q, level)];
      if Points(c, level) {
        LeafWalk(t, pt, i, e, c.frame, q, user);
      }
    }
  }

  lemma {:induction false} LeafKeepsTyped(t: Tables, pt: nat, i: nat, e: Entry)
    requires Typed(t) && pt in t && t[pt].level == 1 && i < ENTRIES
    ensures Typed(LeafSet(t, pt, i, e))
  {
    var t' := LeafSet(t, pt, i, e);
    forall x, k | x in t' && 0 <= k < ENTRIES ensures GoodEntry(t', t'[x].entries[k], t'[x].level) {
      if x != pt {
        assert GoodEntry(t, t[x].entries[k], t[x].level);
      }
    }
  }

  // ---------------------------------------------------------------------------------------
  // Mapping one page
  // ---------------------------------------------------------------------------------------

  /** Every table that was on the way somewhere still is. */
  ghost predicate PathsKept(t: Tables, t': Tables) {
    forall x, p, to :: x in t && ValidPage(p) && 1 <= to <= t[x].level && TableOn(t, x, t[x].level, p, to).Some? ==>
      TableOn(t', x, t[x].level, p, to) == TableOn(t, x, t[x].level, p, to)
  }

  /** From a table on the way on, a walk is the walk from that table. */
  lemma {:induction false} TableOnFrom(t: Tables, f: nat, level: nat, p: Page, l: nat, to: nat)
    requires to <= l <= level && TableOn(t, f, level, p, l).Some?
    ensures TableOn(t, f, level, p, to) == TableOn(t, TableOn(t, f, level, p, l).value, l, p, to)
    decreases level
  {
    if l < level {
      TableOnFrom(t, t[f].entries[Index(p, level)].frame, level - 1, p, l, to);
    }
  }

  /** The last table on a walk is one of those on it. */
  lemma {:induction false} BottomOn(t: Tables, f: nat, level: nat, p: Page) returns (l: nat)
    requires Typed(t) && ValidPage(p) && f in t && t[f].level == level
    ensures 1 <= l <= level && TableOn(t, f, level, p, l) == Some(Bottom(t, f, level, p))
    decreases level
  {
    l := level;
    var e := t[f].entries[Index(p, level)];
    if Points(e, level) {
      assert GoodEntry(t, e, level);
      l := BottomOn(t, e.frame, level - 1, p);
    }
  }

  lemma {:induction false} BottomFrom(t: Tables, f: nat, level: nat, p: Page, l: nat)
    requires 1 <= l <= level && TableOn(t, f, level, p, l).Some?
    ensures Bottom(t, f, level, p) == Bottom(t, TableOn(t, f, level, p, l).value, l, p)
    decreases level
  {
    if l < level {
      BottomFrom(t, t[f].entries[Index(p, level)].frame, level - 1, p, l);
    }
  }

  /** What mapping may do on the way to the last table: more tables, nobody's translation changed. */
  ghost predicate Grown(t: Tables, t': Tables) {
    && Typed(t') && SameWalks(t, t') && PathsKept(t, t')
    && (forall f :: f in t ==> f in t' && t'[f].level == t[f].level)
    && (forall root :: Unaliased(t, root) ==> Unaliased(t', root))
  }

  lemma GrownTwice(t: Tables, t': Tables, t'': Tables)
    requires Grown(t, t') && Grown(t', t'')
    ensures Grown(t, t'')
  {
  }

  lemma {:induction false} ExtendKeepsPath(t: Tables, t': Tables, f: nat, i: nat, n: nat, flags: Flags, x: nat, p: Page, to: nat)
    requires Typed(t) && Extends(t, t', f, i, n, flags) && x in t && ValidPage(p) && 1 <= to <= t[x].level
    requires TableOn(t, x, t[x].level, p, to).Some?
    ensures TableOn(t', x, t[x].level, p, to) == TableOn(t, x, t[x].level, p, to)
  {
    ExtendTableOn(t, t', f, i, n, flags, x, p, to);
    if to < t[f].level <= t[x].level && TableOn(t, x, t[x].level, p, t[f].level) == Some(f) && Index(p, t[f].level) == i {
      TableOnFrom(t, x, t[x].level, p, t[f].level, to);
    }
  }

  lemma {:induction false} ExtendGrows(t: Tables, t': Tables, f: nat, i: nat, n: nat, flags: Flags)
    requires Typed(t) && Extends(t, t', f, i, n, flags)
    ensures Grown(t, t')
  {
    ExtendKeepsTyped(t, t', f, i, n, flags);
    ExtendKeepsWalks(t, t', f, i, n, flags);
    forall x, p, to | x in t && ValidPage(p) && 1 <= to <= t[x].level && TableOn(t, x, t[x].level, p, to).Some?
      ensures TableOn(t', x, t[x].level, p, to) == TableOn(t, x, t[x].level, p, to)
    {
      ExtendKeepsPath(t, t', f, i, n, flags, x, p, to);
    }
    forall root | Unaliased(t, root) ensures Unaliased(t', root) {
      ExtendKeepsUnaliased(t, t', f, i, n, flags, root);
    }
  }

  /** The last entry on the walk of p is this one. */
  ghost predicate LastEntry(t: Tables, root: nat, p: Page, e: Entry) {
    var pt := TableOn(t, root, 4, p, 1);
    pt.Some? && pt.value in t && |t[pt.value].entries| == ENTRIES && ValidPage(p) && t[pt.value].entries[p.i1] == e
  }

  /** The outcome of a successful mapping: page p of this root, and no other page of it, has the new entry and translation. */
  ghost predicate Maps(t: Tables, t': Tables, root: nat, p: Page, frame: nat, flags: Flags) {
    && Walk(t', root, 4, p, false) == Some(frame)
    && Walk(t', root, 4, p, true) == (if flags.user && UserReady(t, root, 4, p) then Some(frame) else None)
    && LastEntry(t', root, p, Entry(frame, flags.(present := true)))
    && forall q, user :: ValidPage(q) && q != p ==> Walk(t', root, 4, q, user) == Walk(t, root, 4, q, user)
  }
}
