/** Address spaces: which frames each holds, and whose tables a walk may pass (k64_vmm.c). */
module AddressSpaces {
  import opened Blocks
  import opened PageTables

  const TABLE_CAPACITY: nat := 64
  const FRAME_CAPACITY: nat := 4096
  const SLOTS: nat := 256
  const VM_BASE: nat := 0x1_0000_0000
  const VM_STRIDE: nat := 0x100_0000
  const ROOT_SIZE: nat := 0x100_0000
  const STACK_SIZE: nat := 0x4_0000

  /** A live space; `root` is the frame in cr3 (0: none yet) and `base` the start of its window. */
  datatype Space = Space(userMode: bool, root: nat, base: nat, tables: seq<nat>, frames: seq<nat>)

  type Spaces = map<nat, Space>

  /** Where a held frame is listed. */
  datatype Place = Place(space: nat, table: bool, index: nat)

  type Places = map<nat, Place>

  function Listed(s: Space, table: bool): seq<nat> { if table then s.tables else s.frames }

  predicate ListedAt(spaces: Spaces, f: nat, at: Place) {
    && at.space in spaces && at.index < |Listed(spaces[at.space], at.table)|
    && Listed(spaces[at.space], at.table)[at.index] == f
  }

  /** The lists of all spaces together name each frame in `place` once, and no other frame. */
  ghost predicate Recorded(spaces: Spaces, place: Places) {
    && (forall f, at :: ListedAt(spaces, f, at) ==> f in place && place[f] == at)
    && (forall f :: PlacedWell(spaces, place, f))
  }

  ghost predicate PlacedWell(spaces: Spaces, place: Places, f: nat) {
    f in place ==> ListedAt(spaces, f, place[f])
  }

  function WithFrame(s: Space, table: bool, n: nat): Space {
    if table then s.(tables := s.tables + [n]) else s.(frames := s.frames + [n])
  }

  lemma {:induction false} OneMoreRecorded(spaces: Spaces, place: Places, h: nat, table: bool, n: nat)
    requires Recorded(spaces, place) && h in spaces && n !in place
    ensures Recorded(spaces[h := WithFrame(spaces[h], table, n)], place[n := Place(h, table, |Listed(spaces[h], table)|)])
  {
    var s := WithFrame(spaces[h], table, n);
    assert Listed(s, table) == Listed(spaces[h], table) + [n] && Listed(s, !table) == Listed(spaces[h], !table);
    var spaces', place' := spaces[h := s], place[n := Place(h, table, |Listed(spaces[h], table)|)];
    forall f: nat, at: Place | ListedAt(spaces', f, at) ensures f in place' && place'[f] == at {
      if at != place'[n] {
        assert ListedAt(spaces, f, at);
      }
    }
    forall f ensures PlacedWell(spaces', place', f) {
      assert PlacedWell(spaces, place, f);
    }
  }

  ghost predicate InCapacity(spaces: Spaces, h: nat) {
    h in spaces ==> |spaces[h].tables| <= TABLE_CAPACITY && |spaces[h].frames| <= FRAME_CAPACITY
  }

  ghost predicate AllInCapacity(spaces: Spaces) { forall h :: InCapacity(spaces, h) }

  /** A set bit is a frame reserved by the rest of the kernel or held by a space, never both. */
  ghost predicate Accounted(bits: seq<bool>, reserved: set<nat>, place: Places) {
    0 in reserved && forall f :: AccountedFrame(bits, reserved, place, f)
  }

  ghost predicate AccountedFrame(bits: seq<bool>, reserved: set<nat>, place: Places, f: nat) {
    && (f < |bits| ==> (bits[f] <==> f in reserved || f in place))
    && (f in place ==> f < |bits| && f !in reserved)
  }

  lemma {:induction false} OneMoreAccounted(bits: seq<bool>, reserved: set<nat>, place: Places, n: nat, at: Place)
    requires Accounted(bits, reserved, place) && n < |bits| && !bits[n]
    ensures n != 0 && n !in reserved && n !in place && Accounted(bits[n := true], reserved, place[n := at])
  {
    assert AccountedFrame(bits, reserved, place, n);
    assert AccountedFrame(bits, reserved, place, 0);
    var bits', place' := bits[n := true], place[n := at];
    forall f ensures AccountedFrame(bits', reserved, place', f) {
      assert AccountedFrame(bits, reserved, place, f);
    }
  }

  function Slot(base: nat): nat
    requires base >= VM_BASE
  {
    (base - VM_BASE) / VM_STRIDE
  }

  function Base(slot: nat): nat { VM_BASE + slot * VM_STRIDE }

  lemma SlotBase(slot: nat)
    ensures Base(slot) >= VM_BASE && Slot(Base(slot)) == slot
  {
  }

  /** The slots in use are exactly the windows of the live spaces, one space each. */
  ghost predicate SlotsGood(slotUsed: seq<bool>, spaces: Spaces, holders: map<nat, nat>) {
    |slotUsed| == SLOTS && (forall k :: SlotGood(slotUsed, spaces, holders, k)) && (forall h :: WindowGood(spaces, holders, h))
  }

  ghost predicate SlotGood(slotUsed: seq<bool>, spaces: Spaces, holders: map<nat, nat>, k: nat) {
    && (k < |slotUsed| ==> (slotUsed[k] <==> k in holders))
    && (k in holders ==> k < |slotUsed| && holders[k] in spaces && spaces[holders[k]].base == Base(k))
  }

  ghost predicate WindowGood(spaces: Spaces, holders: map<nat, nat>, h: nat) {
    h in spaces && spaces[h].base != 0 ==>
      spaces[h].base >= VM_BASE && Slot(spaces[h].base) in holders && holders[Slot(spaces[h].base)] == h
  }

  lemma {:induction false} SameBasesSlotsGood(slotUsed: seq<bool>, spaces: Spaces, spaces': Spaces, holders: map<nat, nat>)
    requires SlotsGood(slotUsed, spaces, holders) && spaces'.Keys == spaces.Keys
    requires forall h :: h in spaces ==> spaces'[h].base == spaces[h].base
    ensures SlotsGood(slotUsed, spaces', holders)
  {
    forall k ensures SlotGood(slotUsed, spaces', holders, k) {
      assert SlotGood(slotUsed, spaces, holders, k);
    }
    forall h ensures WindowGood(spaces', holders, h) {
      assert WindowGood(spaces, holders, h);
    }
  }

  lemma {:induction false} WindowsDisjoint(slotUsed: seq<bool>, spaces: Spaces, holders: map<nat, nat>, a: nat, b: nat)
    requires SlotsGood(slotUsed, spaces, holders) && a in spaces && b in spaces && a != b
    requires spaces[a].base != 0 && spaces[b].base != 0
    ensures spaces[a].base + ROOT_SIZE <= spaces[b].base || spaces[b].base + ROOT_SIZE <= spaces[a].base
    ensures VM_BASE <= spaces[a].base && spaces[a].base + ROOT_SIZE <= VM_BASE + SLOTS * VM_STRIDE
  {
    assert WindowGood(spaces, holders, a) && WindowGood(spaces, holders, b);
    var i, j := Slot(spaces[a].base), Slot(spaces[b].base);
    assert SlotGood(slotUsed, spaces, holders, i) && SlotGood(slotUsed, spaces, holders, j);
    assert i != j;
  }

  // ---------------------------------------------------------------------------------------
  // Whose tables point where
  // ---------------------------------------------------------------------------------------

  /** None is the kernel. */
  function Owner(place: Places, f: nat): Option<nat> {
    if f in place then Some(place[f].space) else None
  }

  /** The tables, the spaces, what is held and what is the rest of the kernel's. */
  datatype World = World(tables: Tables, spaces: Spaces, place: Places, reserved: set<nat>, kernel: nat)

  ghost predicate KernelReady(w: World) {
    && w.kernel != 0 && w.kernel in w.tables && w.tables[w.kernel].level == 4
    && |w.tables[w.kernel].entries| == ENTRIES && Points(w.tables[w.kernel].entries[0], 4)
  }

  ghost function KernelPdpt(w: World): nat
    requires KernelReady(w)
  {
    w.tables[w.kernel].entries[0].frame
  }

  /** Table f is the one behind the first root entry of the space that holds it. */
  ghost predicate FirstDirectory(w: World, f: nat) {
    && f in w.place && w.place[f].space in w.spaces
    && var r := w.spaces[w.place[f].space].root;
       r != 0 && r in w.tables && w.tables[r].level == 4 && |w.tables[r].entries| == ENTRIES && w.tables[r].entries[0].frame == f
  }

  /** Entry i of table f leads where the kernel's entry leads that it was copied from. */
  ghost predicate Copied(w: World, f: nat, i: nat)
    requires KernelReady(w) && f in w.tables && i < |w.tables[f].entries|
  {
    var e, level := w.tables[f].entries[i], w.tables[f].level;
    || (level == 4 && 0 < i < ENTRIES && Points(w.tables[w.kernel].entries[i], 4) && w.tables[w.kernel].entries[i].frame == e.frame)
    || (level == 3 && FirstDirectory(w, f) && KernelPdpt(w) in w.tables && i < |w.tables[KernelPdpt(w)].entries| &&
          Points(w.tables[KernelPdpt(w)].entries[i], 3) && w.tables[KernelPdpt(w)].entries[i].frame == e.frame)
  }

  /** A space's table points to its own tables, or to the kernel's where it was copied from the kernel's. */
  ghost predicate GoodEdge(w: World, f: nat, i: nat)
    requires KernelReady(w) && f in w.tables && i < |w.tables[f].entries|
  {
    var e := w.tables[f].entries[i];
    Points(e, w.tables[f].level) ==>
      || Owner(w.place, e.frame) == Owner(w.place, f)
      || (Owner(w.place, e.frame) == None && Copied(w, f, i))
  }

  /** No table of a space is reached from another space or from the kernel. */
  ghost predicate Isolation(w: World) {
    && KernelReady(w) && Owner(w.place, w.kernel) == None && Typed(w.tables)
    && forall f, i :: f in w.tables && 0 <= i < ENTRIES ==> GoodEdge(w, f, i)
  }

  lemma {:induction false} KernelDirectory(w: World)
    requires Isolation(w)
    ensures KernelPdpt(w) in w.tables && w.tables[KernelPdpt(w)].level == 3 && Owner(w.place, KernelPdpt(w)) == None
  {
    assert GoodEdge(w, w.kernel, 0) && GoodEntry(w.tables, w.tables[w.kernel].entries[0], 4);
  }

  /** A walk passes only through the tables of the root's owner and the kernel's. */
  lemma {:induction false} StaysInside(w: World, x: nat, q: Page, to: nat)
    requires Isolation(w) && x in w.tables && 1 <= to
    ensures var r := TableOn(w.tables, x, w.tables[x].level, q, to);
            r.Some? ==> Owner(w.place, r.value) == Owner(w.place, x) || Owner(w.place, r.value) == None
    decreases w.tables[x].level
  {
    var level := w.tables[x].level;
    if to < level && ValidPage(q) {
      var i := Index(q, level);
      assert GoodEdge(w, x, i) && GoodEntry(w.tables, w.tables[x].entries[i], level);
      if Points(w.tables[x].entries[i], level) {
        StaysInside(w, w.tables[x].entries[i].frame, q, to);
      }
    }
  }

  /** Writing an entry of one space's table is invisible from every root it does not own. */
  lemma {:induction false} LeafElsewhere(w: World, pt: nat, i: nat, e: Entry, x: nat, q: Page, user: bool)
    requires Isolation(w) && pt in w.tables && w.tables[pt].level == 1 && i < ENTRIES && x in w.tables
    requires Owner(w.place, pt).Some? && Owner(w.place, x) != Owner(w.place, pt)
    ensures Walk(LeafSet(w.tables, pt, i, e), x, w.tables[x].level, q, user) == Walk(w.tables, x, w.tables[x].level, q, user)
  {
    StaysInside(w, x, q, 1);
    LeafWalk(w.tables, pt, i, e, x, q, user);
  }

  lemma {:induction false} LeafKeepsIsolated(w: World, pt: nat, i: nat, e: Entry)
    requires Isolation(w) && pt in w.tables && w.tables[pt].level == 1 && i < ENTRIES
    ensures Isolation(w.(tables := LeafSet(w.tables, pt, i, e)))
  {
    var w' := w.(tables := LeafSet(w.tables, pt, i, e));
    LeafKeepsTyped(w.tables, pt, i, e);
    KernelDirectory(w);
    forall f, k | f in w'.tables && 0 <= k < ENTRIES ensures GoodEdge(w', f, k) {
      assert GoodEdge(w, f, k);
    }
  }

  /** An entry of a table that is not the space's points to a table that is. */
  ghost predicate Hooked(w: World, h: nat) {
    exists f, i :: f in w.tables && 0 <= i < |w.tables[f].entries| && Owner(w.place, f) != Some(h) &&
      Points(w.tables[f].entries[i], w.tables[f].level) && Owner(w.place, w.tables[f].entries[i].frame) == Some(h)
  }

  /** Taking a space's tables away changes no walk from the roots of others. */
  lemma {:induction false} WithoutSpace(w: World, t': Tables, h: nat, x: nat, q: Page, user: bool)
    requires Typed(w.tables) && !Hooked(w, h) && x in w.tables && Owner(w.place, x) != Some(h)
    requires forall f :: f in w.tables && Owner(w.place, f) != Some(h) ==> f in t' && t'[f] == w.tables[f]
    ensures Walk(t', x, w.tables[x].level, q, user) == Walk(w.tables, x, w.tables[x].level, q, user)
    decreases w.tables[x].level
  {
    if ValidPage(q) {
      var i := Index(q, w.tables[x].level);
      assert GoodEntry(w.tables, w.tables[x].entries[i], w.tables[x].level);
      if Points(w.tables[x].entries[i], w.tables[x].level) {
        WithoutSpace(w, t', h, w.tables[x].entries[i].frame, q, user);
      }
    }
  }

  lemma {:induction false} WithoutSpacePaths(w: World, t': Tables, h: nat, x: nat, q: Page, to: nat)
    requires Typed(w.tables) && !Hooked(w, h) && x in w.tables && Owner(w.place, x) != Some(h) && 1 <= to
    requires forall f :: f in w.tables && Owner(w.place, f) != Some(h) ==> f in t' && t'[f] == w.tables[f]
    ensures TableOn(t', x, w.tables[x].level, q, to) == TableOn(w.tables, x, w.tables[x].level, q, to)
    decreases w.tables[x].level
  {
    if ValidPage(q) && to < w.tables[x].level {
      var i := Index(q, w.tables[x].level);
      assert GoodEntry(w.tables, w.tables[x].entries[i], w.tables[x].level);
      if Points(w.tables[x].entries[i], w.tables[x].level) {
        WithoutSpacePaths(w, t', h, w.tables[x].entries[i].frame, q, to);
      }
    }
  }

  // ---------------------------------------------------------------------------------------
  // Pages without a table of the kernel on their walk
  // ---------------------------------------------------------------------------------------

  /** Every table there is on the walk of p from table f belongs to space h. */
  ghost predicate FreeBelow(w: World, f: nat, level: nat, p: Page, h: nat) {
    forall l :: 1 <= l <= level && TableOn(w.tables, f, level, p, l).Some? ==>
      Owner(w.place, TableOn(w.tables, f, level, p, l).value) == Some(h)
  }

  /** The page is free to be mapped by the space alone: every table on its walk is the space's own. */
  ghost predicate FreePage(w: World, h: nat, p: Page) {
    ValidPage(p) && h in w.spaces && w.spaces[h].root != 0 && FreeBelow(w, w.spaces[h].root, 4, p, h)
  }

  /** Every pointer between two tables of the space admits the user. */
  ghost predicate UserClean(t: Tables, place: Places, h: nat) {
    forall f, i | f in t && 0 <= i < |t[f].entries| && Owner(place, f) == Some(h) ::
      Points(t[f].entries[i], t[f].level) && Owner(place, t[f].entries[i].frame) == Some(h) ==> t[f].entries[i].flags.user
  }

  lemma {:induction false} FreeStep(w: World, f: nat, p: Page, h: nat)
    requires Typed(w.tables) && ValidPage(p) && f in w.tables && FreeBelow(w, f, w.tables[f].level, p, h)
    ensures Owner(w.place, f) == Some(h)
    ensures w.tables[f].level > 1 && Points(w.tables[f].entries[Index(p, w.tables[f].level)], w.tables[f].level) ==>
              FreeBelow(w, w.tables[f].entries[Index(p, w.tables[f].level)].frame, w.tables[f].level - 1, p, h)
  {
    var level := w.tables[f].level;
    assert TableOn(w.tables, f, level, p, level) == Some(f);
    if level > 1 && Points(w.tables[f].entries[Index(p, level)], level) {
      var c := w.tables[f].entries[Index(p, level)].frame;
      var below := level - 1;
      forall l | 1 <= l <= below && TableOn(w.tables, c, below, p, l).Some?
        ensures Owner(w.place, TableOn(w.tables, c, below, p, l).value) == Some(h)
      {
        assert TableOn(w.tables, f, level, p, l) == TableOn(w.tables, c, below, p, l);
      }
    }
  }

  /** A free page of a space whose tables admit the user is open to the user once mapped for it. */
  lemma {:induction false} FreeUserReady(w: World, h: nat, f: nat, p: Page)
    requires Typed(w.tables) && UserClean(w.tables, w.place, h) && ValidPage(p)
    requires f in w.tables && FreeBelow(w, f, w.tables[f].level, p, h)
    ensures UserReady(w.tables, f, w.tables[f].level, p)
    decreases w.tables[f].level
  {
    var level := w.tables[f].level;
    FreeStep(w, f, p, h);
    if level > 1 {
      var e := w.tables[f].entries[Index(p, level)];
      assert GoodEntry(w.tables, e, level);
      if Points(e, level) {
        FreeStep(w, e.frame, p, h);
        FreeUserReady(w, h, e.frame, p);
      }
    }
  }

  /** Where the kernel keeps no table of its own: what can be told from the kernel's tables alone. */
  ghost predicate Private(w: World, p: Page) {
    && ValidPage(p) && KernelReady(w)
    && (if p.i4 == 0 then KernelPdpt(w) in w.tables && |w.tables[KernelPdpt(w)].entries| == ENTRIES && !Points(w.tables[KernelPdpt(w)].entries[p.i3], 3)
        else !Points(w.tables[w.kernel].entries[p.i4], 4))
  }

  // ---------------------------------------------------------------------------------------
  // A new root
  // ---------------------------------------------------------------------------------------

  /** The kernel's root and first directory copied to r and d. */
  function Cloned(t: Tables, kernel: nat, r: nat, d: nat, user: bool): Tables
    requires kernel in t && |t[kernel].entries| == ENTRIES && t[kernel].entries[0].frame in t
  {
    t[d := Table(3, t[t[kernel].entries[0].frame].entries)]
     [r := Table(4, t[kernel].entries[0 := Entry(d, PointerFlags(user))])]
  }

  ghost predicate CanClone(t: Tables, kernel: nat, r: nat, d: nat) {
    && Typed(t) && kernel in t && t[kernel].level == 4 && Points(t[kernel].entries[0], 4)
    && r !in t && d !in t && r != d
  }

  lemma {:induction false} CloneKeepsTyped(t: Tables, kernel: nat, r: nat, d: nat, user: bool)
    requires CanClone(t, kernel, r, d)
    ensures GoodEntry(t, t[kernel].entries[0], 4) && Typed(Cloned(t, kernel, r, d, user))
  {
    assert GoodEntry(t, t[kernel].entries[0], 4);
    var t' := Cloned(t, kernel, r, d, user);
    forall x, k | x in t' && 0 <= k < ENTRIES ensures GoodEntry(t', t'[x].entries[k], t'[x].level) {
      var y := if x == r then kernel else if x == d then t[kernel].entries[0].frame else x;
      assert GoodEntry(t, t[y].entries[k], t[y].level);
    }
  }

  /** Tables that were there are walked as before. */
  lemma {:induction false} CloneOld(t: Tables, kernel: nat, r: nat, d: nat, user: bool, x: nat, q: Page, u: bool, to: nat)
    requires CanClone(t, kernel, r, d) && x in t && GoodEntry(t, t[kernel].entries[0], 4)
    ensures Walk(Cloned(t, kernel, r, d, user), x, t[x].level, q, u) == Walk(t, x, t[x].level, q, u)
    ensures TableOn(Cloned(t, kernel, r, d, user), x, t[x].level, q, to) == TableOn(t, x, t[x].level, q, to)
    decreases t[x].level
  {
    if ValidPage(q) {
      var i := Index(q, t[x].level);
      assert GoodEntry(t, t[x].entries[i], t[x].level);
      if Points(t[x].entries[i], t[x].level) {
        CloneOld(t, kernel, r, d, user, t[x].entries[i].frame, q, u, to);
      }
    }
  }

  /** The new root goes where the kernel's goes, through its own first directory. */
  lemma {:induction false} CloneNew(t: Tables, kernel: nat, r: nat, d: nat, user: bool, q: Page, to: nat)
    requires CanClone(t, kernel, r, d) && ValidPage(q) && GoodEntry(t, t[kernel].entries[0], 4) && 1 <= to <= 3
    ensures Walk(Cloned(t, kernel, r, d, user), r, 4, q, false) == Walk(t, kernel, 4, q, false)
    ensures TableOn(Cloned(t, kernel, r, d, user), r, 4, q, to) ==
              if q.i4 == 0 && to == 3 then Some(d) else TableOn(t, kernel, 4, q, to)
  {
    var t' := Cloned(t, kernel, r, d, user);
    var e := t[kernel].entries[q.i4];
    assert GoodEntry(t, e, 4);
    if q.i4 == 0 {
      assert t'[r].entries[0] == Entry(d, PointerFlags(user));
      var c := t[e.frame].entries[q.i3];
      assert GoodEntry(t, c, 3);
      if Points(c, 3) {
        CloneOld(t, kernel, r, d, user, c.frame, q, false, to);
      }
    } else {
      assert t'[r].entries[q.i4] == e;
      if Points(e, 4) {
        CloneOld(t, kernel, r, d, user, e.frame, q, false, to);
      }
    }
  }

  lemma {:induction false} CloneKeepsUnaliased(t: Tables, kernel: nat, r: nat, d: nat, user: bool, root: nat)
    requires CanClone(t, kernel, r, d) && GoodEntry(t, t[kernel].entries[0], 4) && Unaliased(t, root)
    ensures Unaliased(Cloned(t, kernel, r, d, user), root)
  {
    var t' := Cloned(t, kernel, r, d, user);
    forall p, q, l | ValidPage(p) && ValidPage(q) && 1 <= l <= 3 && TableOn(t', root, 4, p, l).Some? &&
                     TableOn(t', root, 4, p, l) == TableOn(t', root, 4, q, l)
      ensures SameAbove(p, q, l)
    {
      CloneOld(t, kernel, r, d, user, root, p, false, l);
      CloneOld(t, kernel, r, d, user, root, q, false, l);
    }
  }

  lemma {:induction false} CloneUnaliased(t: Tables, kernel: nat, r: nat, d: nat, user: bool)
    requires CanClone(t, kernel, r, d) && GoodEntry(t, t[kernel].entries[0], 4) && Unaliased(t, kernel)
    ensures Unaliased(Cloned(t, kernel, r, d, user), r)
  {
    var t' := Cloned(t, kernel, r, d, user);
    forall p, q, l | ValidPage(p) && ValidPage(q) && 1 <= l <= 3 && TableOn(t', r, 4, p, l).Some? &&
                     TableOn(t', r, 4, p, l) == TableOn(t', r, 4, q, l)
      ensures SameAbove(p, q, l)
    {
      CloneNew(t, kernel, r, d, user, p, l);
      CloneNew(t, kernel, r, d, user, q, l);
      TableOnTyped(t, kernel, p, l);
      TableOnTyped(t, kernel, q, l);
    }
  }

  // ---------------------------------------------------------------------------------------
  // A space's tables taken away
  // ---------------------------------------------------------------------------------------

  function Without(t: Tables, place: Places, h: nat): Tables {
    map f | f in t && Owner(place, f) != Some(h) :: t[f]
  }

  lemma {:induction false} WithoutKeepsUnaliased(w: World, h: nat, root: nat)
    requires Typed(w.tables) && !Hooked(w, h) && Unaliased(w.tables, root) && Owner(w.place, root) != Some(h)
    ensures Unaliased(Without(w.tables, w.place, h), root)
  {
    var t' := Without(w.tables, w.place, h);
    forall p, q, l | ValidPage(p) && ValidPage(q) && 1 <= l <= 3 && TableOn(t', root, 4, p, l).Some? &&
                     TableOn(t', root, 4, p, l) == TableOn(t', root, 4, q, l)
      ensures SameAbove(p, q, l)
    {
      WithoutSpacePaths(w, t', h, root, p, l);
      WithoutSpacePaths(w, t', h, root, q, l);
    }
  }
}
