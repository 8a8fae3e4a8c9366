/** New spaces in their windows, and what whole runs of operations keep (k64_vmm.c:243-294). */
module SpaceRuns {
  import opened Blocks
  import opened PageTables
  import opened AddressSpaces
  import opened Worlds
  import opened UserMemory

  // ---------------------------------------------------------------------------------------
  // The window of a new space
  // ---------------------------------------------------------------------------------------

  /** The kernel has no table of its own below the windows. */
  ghost predicate WindowsPrivate(w: World) {
    KernelReady(w) && forall v :: Base(0) / PAGE <= v < Base(SLOTS) / PAGE ==> Private(w, PageOf(v))
  }

  /** That is: its first directory has no pointer at 4 to 7. */
  lemma {:induction false} WindowsPrivateIff(w: World)
    requires Structured(w) && KernelReady(w) && KernelPdpt(w) in w.tables
    ensures WindowsPrivate(w) <==> forall j :: 4 <= j < 8 ==> !Points(w.tables[KernelPdpt(w)].entries[j], 3)
  {
    if WindowsPrivate(w) {
      forall j | 4 <= j < 8 ensures !Points(w.tables[KernelPdpt(w)].entries[j], 3) {
        assert PageOf(j * 0x4_0000) == Page(0, j, 0, 0);
      }
    }
    if forall j :: 4 <= j < 8 ==> !Points(w.tables[KernelPdpt(w)].entries[j], 3) {
      forall v | Base(0) / PAGE <= v < Base(SLOTS) / PAGE ensures Private(w, PageOf(v)) {
        assert PageOf(v).i4 == 0 && 4 <= PageOf(v).i3 < 8;
      }
    }
  }

  function StackPage(slot: nat): nat { (Base(slot) + ROOT_SIZE - STACK_SIZE) / PAGE }

  /** How many windows a search that starts at one passes before it comes to another. */
  function Ahead(start: nat, slot: nat): int { if start <= slot then slot - start else slot - start + SLOTS }

  lemma StackInWindows(slot: nat)
    requires slot < SLOTS
    ensures Base(0) / PAGE <= StackPage(slot) && StackPage(slot) + 64 <= Base(SLOTS) / PAGE
    ensures StackPage(slot) * PAGE == Base(slot) + ROOT_SIZE - STACK_SIZE
  {
  }

  function FreshSpace(slot: nat, user: bool): Space { Space(user, 0, Base(slot), [], []) }

  lemma {:induction false} NewSpaceRecords(slotUsed: seq<bool>, spaces: Spaces, place: Places, holders: map<nat, nat>, h: nat, s: Space, slot: nat)
    requires Recorded(spaces, place) && SlotsGood(slotUsed, spaces, holders) && AllInCapacity(spaces)
    requires h !in spaces && s.tables == [] && s.frames == []
    requires s.base == 0 || (slot < SLOTS && !slotUsed[slot] && s.base == Base(slot))
    ensures Recorded(spaces[h := s], place) && AllInCapacity(spaces[h := s])
    ensures s.base == 0 ==> SlotsGood(slotUsed, spaces[h := s], holders)
    ensures s.base != 0 ==> SlotsGood(slotUsed[slot := true], spaces[h := s], holders[slot := h])
  {
    var spaces' := spaces[h := s];
    forall g ensures InCapacity(spaces', g) {
      assert InCapacity(spaces, g);
    }
    forall f: nat, at: Place | ListedAt(spaces', f, at) ensures f in place && place[f] == at {
      assert ListedAt(spaces, f, at);
    }
    forall f ensures PlacedWell(spaces', place, f) {
      assert PlacedWell(spaces, place, f);
    }
    var used', holders' := if s.base == 0 then slotUsed else slotUsed[slot := true], if s.base == 0 then holders else holders[slot := h];
    forall k ensures SlotGood(used', spaces', holders', k) {
      assert SlotGood(slotUsed, spaces, holders, k);
    }
    forall g ensures WindowGood(spaces', holders', g) {
      assert WindowGood(spaces, holders, g);
      if g in spaces && spaces[g].base != 0 {
        assert SlotGood(slotUsed, spaces, holders, Slot(spaces[g].base));
        if s.base != 0 {
          assert SlotGood(slotUsed, spaces, holders, slot);
        }
      }
    }
  }

  lemma {:induction false} JoinStructured(w: World, h: nat, s: Space)
    requires Structured(w) && h !in w.spaces && (s.root == 0 || s.root == w.kernel)
    ensures Structured(w.(spaces := w.spaces[h := s]))
  {
    var w' := w.(spaces := w.spaces[h := s]);
    forall x ensures TableHeld(w', x) {
      assert TableHeld(w, x);
    }
    forall g ensures RootGood(w', g) {
      assert RootGood(w, g);
    }
  }

  /** A space without frames joins: nothing else moves. */
  lemma {:induction false} MadeEmpty(w: World, w': World, h: nat, s: Space)
    requires Structured(w) && Recorded(w.spaces, w.place) && h !in w.spaces && w' == w.(spaces := w.spaces[h := s])
    requires s.root == 0 || s.root == w.kernel
    ensures Made(w, w', h, true, true)
  {
    forall x ensures TableHeld(w', x) {
      assert TableHeld(w, x);
    }
    forall g ensures RootGood(w', g) {
      assert RootGood(w, g);
    }
    forall f | f in w.place ensures w.place[f].space != h {
      assert PlacedWell(w.spaces, w.place, f);
    }
    if Isolation(w) {
      KernelDirectory(w);
      forall f, i | f in w'.tables && 0 <= i < ENTRIES ensures GoodEdge(w', f, i) {
        assert GoodEdge(w, f, i);
        if FirstDirectory(w, f) {
          assert FirstDirectory(w', f);
        }
      }
    }
  }

  /** The new space gets its root, or just holds the frames that were to become it. */
  lemma {:induction false} MadeRoot(w: World, w1: World, w': World, h: nat, r: nat, d: nat, user: bool)
    requires Made(w, w1, h, true, user) && NewRoot(w1, w', h, r, d) && (user ==> w1.spaces[h].userMode)
    requires w1.place == w.place && w1.tables == w.tables && (forall f :: f in w1.place ==> w1.place[f].space != h)
    ensures Made(w, w', h, true, user)
  {
    NewRootStructured(w1, w', h, r, d);
    if Isolation(w) {
      NewRootSeparated(w1, w', h, r, d);
    }
    if user {
      NewRootUser(w1, w', h, r, d);
    }
  }

  lemma {:induction false} ListedProgress(w: World, w': World, h: nat)
    requires Structured(w) && MoreListed(w, w', h) && (forall f :: f in w.place ==> w.place[f].space != h)
    ensures Progress(w, w', h, true, true)
  {
    forall f | f in w.tables ensures Owner(w'.place, f) == Owner(w.place, f) {
      assert TableHeld(w, f);
    }
    forall x ensures TableHeld(w', x) {
      assert TableHeld(w, x);
    }
    forall g ensures RootGood(w', g) {
      assert RootGood(w, g);
    }
    if Isolation(w) {
      forall f | f in w'.place && f !in w.place ensures f !in w.tables {
        assert TableHeld(w, f);
      }
      SameTablesSeparated(w, w', h);
    }
  }

  lemma {:induction false} StackPrivate(w: World, w': World, h: nat, slot: nat)
    requires slot < SLOTS && WindowsPrivate(w) && Isolation(w) && Separated(w, w', h) && w'.kernel == w.kernel
    requires h in w'.spaces && w'.spaces[h].root != 0 && w'.spaces[h].root != w'.kernel
    requires Structured(w')
    ensures AllFree(w', h, StackPage(slot), StackPage(slot) + 64)
  {
    StackInWindows(slot);
    forall v | StackPage(slot) <= v < StackPage(slot) + 64 ensures FreePage(w', h, PageOf(v)) {
      assert Private(w, PageOf(v));
      PrivateIsFree(w', h, PageOf(v));
    }
  }

  // ---------------------------------------------------------------------------------------
  // Whole runs
  // ---------------------------------------------------------------------------------------

  /** What holds between operations as long as only private pages are mapped. */
  ghost predicate Healthy(w: World) {
    Structured(w) && Isolation(w) && WindowsPrivate(w) && forall h :: OwnRoot(w, h)
  }

  ghost predicate OwnRoot(w: World, h: nat) {
    h in w.spaces ==> w.spaces[h].root != 0 && w.spaces[h].root != w.kernel
  }

  lemma {:induction false} UndisturbedTwice(w: World, w': World, w'': World, touched: set<nat>, more: set<nat>)
    requires Undisturbed(w, w', touched) && Undisturbed(w', w'', more)
    ensures Undisturbed(w, w'', touched + more)
  {
    forall x | Foreign(w, x, touched + more) ensures Untouched(w, w'', x) {
      assert Foreign(w, x, touched);
      assert Foreign(w', x, more);
    }
  }

  lemma {:induction false} UndisturbedMore(w: World, w': World, h: nat)
    requires Undisturbed(w, w', {})
    ensures Undisturbed(w, w', {h})
  {
    forall x | Foreign(w, x, {h}) ensures Untouched(w, w', x) {
      assert Foreign(w, x, {});
    }
  }

  lemma PrivateKept(w: World, w': World, touched: set<nat>, p: Page)
    requires Undisturbed(w, w', touched) && Private(w, p)
    ensures Private(w', p)
  {
  }

  lemma {:induction false} HealthyKept(w: World, w': World, h: nat)
    requires Healthy(w) && Structured(w') && Isolation(w') && Undisturbed(w, w', {h}) && (forall g :: OwnRoot(w', g))
    ensures Healthy(w')
  {
    forall v | Base(0) / PAGE <= v < Base(SLOTS) / PAGE ensures Private(w', PageOf(v)) {
      PrivateKept(w, w', {h}, PageOf(v));
    }
  }

  lemma SeparatedUndisturbed(w: World, w': World, h: nat)
    requires Isolation(w) && Separated(w, w', h) && w'.kernel == w.kernel
    requires forall f :: f in w.tables ==> f in w'.tables && w'.tables[f].level == w.tables[f].level
    requires forall f :: f in w.tables ==> Owner(w'.place, f) == Owner(w.place, f)
    ensures Undisturbed(w, w', {h})
  {
  }

  lemma {:induction false} MadeHealthy(w: World, w': World, h: nat, user: bool)
    requires Healthy(w) && Made(w, w', h, true, user) && OwnRoot(w', h)
    ensures Healthy(w') && Undisturbed(w, w', {h})
  {
    forall f | f in w.tables ensures Owner(w'.place, f) == Owner(w.place, f) {
      assert HeldKept(w, w', h, f);
    }
    SeparatedUndisturbed(w, w', h);
    forall g ensures OwnRoot(w', g) {
      assert OwnRoot(w, g);
    }
    HealthyKept(w, w', h);
  }

  lemma {:induction false} ProgressHealthy(w: World, w': World, h: nat, user: bool)
    requires Healthy(w) && Progress(w, w', h, true, user)
    ensures Healthy(w') && Undisturbed(w, w', {h})
  {
    forall f | f in w.tables ensures Owner(w'.place, f) == Owner(w.place, f) {
      assert HeldKept(w, w', h, f);
    }
    SeparatedUndisturbed(w, w', h);
    forall g ensures OwnRoot(w', g) {
      assert OwnRoot(w, g);
    }
    HealthyKept(w, w', h);
  }

  lemma {:induction false} ReleasedHealthy(w: World, h: nat)
    requires Healthy(w) && h in w.spaces
    ensures Healthy(Released(w, h)) && Undisturbed(w, Released(w, h), {h})
  {
    var w' := Released(w, h);
    ReleasedIsolated(w, h);
    ReleasedStructured(w, h);
    forall x | Foreign(w, x, {h}) ensures Untouched(w, w', x) {
    }
    forall g ensures OwnRoot(w', g) {
      assert OwnRoot(w, g);
    }
    HealthyKept(w, w', h);
  }

  /** A failed attempt to make a space. */
  lemma {:induction false} UnmadeHealthy(w: World, w': World)
    requires Healthy(w) && Structured(w') && Isolation(w') && Undisturbed(w, w', {}) && w'.spaces == w.spaces
    ensures Healthy(w')
  {
    forall g ensures OwnRoot(w', g) {
      assert OwnRoot(w, g);
    }
    forall v | Base(0) / PAGE <= v < Base(SLOTS) / PAGE ensures Private(w', PageOf(v)) {
      PrivateKept(w, w', {}, PageOf(v));
    }
  }

  // ---------------------------------------------------------------------------------------
  // Pid 0, at one address
  // ---------------------------------------------------------------------------------------

  const RW: Flags := Flags(true, true, false, false, 0)
  const GIB_PAGE: Entry := Entry(4 * GIB_FRAMES, Flags(true, true, false, true, 0))

  /** Boot tables with one 1 GiB page at 4 GiB, and space 7 of pid 0 on their root. */
  function ZeroWorld(): World {
    World(map[1 := Table(4, EmptyTable()[0 := Entry(2, PointerFlags(false))]), 2 := Table(3, EmptyTable()[4 := GIB_PAGE])],
          map[7 := Space(false, 1, 0, [], [])], map[], {0, 1, 2}, 1)
  }

  /** Mapping page (0, 4, 0, 0) splits the 1 GiB page into frame 8 ... */
  function ZeroSplit(): World {
    var w := ZeroWorld();
    World(Inserted(w.tables, 2, 4, 8, Children(GIB_PAGE, 3), false), map[7 := Space(false, 1, 0, [8], [])],
          map[8 := Place(7, true, 0)], w.reserved, 1)
  }

  /** ... then its first 2 MiB page into frame 9, and writes the entry. */
  function ZeroMapped(frame: nat): World {
    var w := ZeroSplit();
    var t := Inserted(w.tables, 8, 0, 9, Children(Child(GIB_PAGE, 3, 0), 2), false);
    World(LeafSet(t, 9, 0, Entry(frame, RW)), map[7 := Space(false, 1, 0, [8, 9], [])],
          map[8 := Place(7, true, 0), 9 := Place(7, true, 1)], w.reserved, 1)
  }

  lemma {:induction false} ZeroStructured()
    ensures Structured(ZeroWorld()) && ZeroWorld().spaces[7].root == ZeroWorld().kernel
  {
    var w := ZeroWorld();
    assert LargeBase(GIB_PAGE, 3) == 4 * GIB_FRAMES;
    assert Typed(w.tables) && Unaliased(w.tables, 1);
    forall f ensures TableHeld(w, f) && RootGood(w, f) {
    }
  }

  lemma {:induction false} ZeroSplits()
    ensures NewTable(ZeroWorld(), ZeroSplit(), 7, 2, 4, 8, RW) && Typed(ZeroSplit().tables) && ZeroSplit().tables[8].entries[0] == Child(GIB_PAGE, 3, 0)
  {
    ZeroStructured();
    ExtendKeepsTyped(ZeroWorld().tables, ZeroSplit().tables, 2, 4, 8, RW);
  }

  lemma {:induction false} ZeroMaps(frame: nat)
    ensures Typed(ZeroMapped(frame).tables) && Walk(ZeroMapped(frame).tables, 1, 4, Page(0, 4, 0, 0), false) == Some(frame)
  {
    var t := Inserted(ZeroSplit().tables, 8, 0, 9, Children(Child(GIB_PAGE, 3, 0), 2), false);
    ZeroSplits();
    ExtendKeepsTyped(ZeroSplit().tables, t, 8, 0, 9, RW);
    LeafKeepsTyped(t, 9, 0, Entry(frame, RW));
    assert t[1].entries[0].frame == 2 && t[2].entries[4].frame == 8 && t[8].entries[0].frame == 9;
  }

  /** Releasing space 7 now leaves the kernel's directory pointing to frame 8, which was given back. */
  lemma {:induction false} PidZeroLeavesDangling(frame: nat)
    ensures Structured(ZeroWorld()) && NewTable(ZeroWorld(), ZeroSplit(), 7, 2, 4, 8, RW)
    ensures Walk(ZeroMapped(frame).tables, 1, 4, Page(0, 4, 0, 0), false) == Some(frame)
    ensures Typed(ZeroMapped(frame).tables) && Hooked(ZeroMapped(frame), 7) && !Typed(Released(ZeroMapped(frame), 7).tables)
  {
    var w := ZeroMapped(frame);
    ZeroStructured();
    ZeroSplits();
    ZeroMaps(frame);
    assert w.tables[2].entries[4].frame == 8 && Points(w.tables[2].entries[4], 3);
    ReleaseKeepsTypedIff(w, 7);
  }
}
