/** Ranges of user pages: what is laid out in them, and loads and stores through the user's translation (k64_vmm.c:375-434, 551-605). */
module UserMemory {
  import opened Blocks
  import opened PageTables
  import opened AddressSpaces
  import opened Worlds

  // ---------------------------------------------------------------------------------------
  // Addresses
  // ---------------------------------------------------------------------------------------

  const PAGE: nat := 4096
  const WORD: nat := 0x1_0000_0000_0000_0000

  /** The table indices of virtual page number v; the high bits of the address are not looked at. */
  function PageOf(v: nat): (p: Page)
    ensures ValidPage(p)
  {
    Page(v / 512 / 512 / 512 % 512, v / 512 / 512 % 512, v / 512 % 512, v % 512)
  }

  lemma {:induction false} PageNumber(v: nat)
    ensures var p := PageOf(v);
            v == (((v / 512 / 512 / 512 / 512 * 512 + p.i4) * 512 + p.i3) * 512 + p.i2) * 512 + p.i1
  {
    var a := v / 512;
    var b := a / 512;
    var c := b / 512;
    assert v == a * 512 + v % 512 && a == b * 512 + a % 512 && b == c * 512 + b % 512 && c == c / 512 * 512 + c % 512;
  }

  lemma {:induction false} PagesDiffer(a: nat, b: nat)
    requires a < b < a + 0x10_0000_0000
    ensures PageOf(a) != PageOf(b)
  {
    PageNumber(a);
    PageNumber(b);
  }

  /** Space h holds one more data frame. */
  lemma {:induction false} DataFrameProgress(w: World, w': World, h: nat, n: nat, user: bool)
    requires Structured(w) && w'.tables == w.tables && w'.reserved == w.reserved && w'.kernel == w.kernel
    requires n !in w.place && n !in w.reserved && n in w'.place && w'.place[n].space == h && w'.place == w.place[n := w'.place[n]]
    requires OnlyLists(w.spaces, w'.spaces, h) && n != 0
    ensures Progress(w, w', h, true, user)
  {
    NotATable(w, n);
    assert forall f :: f in w.tables ==> Owner(w'.place, f) == Owner(w.place, f);
    forall x ensures TableHeld(w', x) {
      assert TableHeld(w, x);
    }
    forall g ensures RootGood(w', g) {
      assert RootGood(w, g);
    }
    if UserSpace(w, h) {
      forall f, i | f in w.tables && 0 <= i < |w.tables[f].entries| && Owner(w'.place, f) == Some(h) &&
                    Points(w.tables[f].entries[i], w.tables[f].level) && Owner(w'.place, w.tables[f].entries[i].frame) == Some(h)
        ensures w.tables[f].entries[i].flags.user
      {
        assert GoodEntry(w.tables, w.tables[f].entries[i], w.tables[f].level);
      }
    }
    if Isolation(w) {
      SameTablesSeparated(w, w', h);
    }
  }

  function Bytes(memory: map<nat, Block>, f: nat): Block { if f in memory then memory[f] else ZeroBlock() }

  type View = nat -> Option<nat>

  /** The frame the user reaches at each page number. */
  function UserView(t: Tables, root: nat): View { v => Walk(t, root, 4, PageOf(v), true) }

  /** The byte seen at an address. */
  function Load(view: View, memory: map<nat, Block>, a: nat): Option<Byte> {
    var f := view(a / PAGE);
    if f.Some? then Some(Bytes(memory, f.value)[a % PAGE]) else None
  }

  // ---------------------------------------------------------------------------------------
  // A range of pages
  // ---------------------------------------------------------------------------------------

  /** What belongs at address a when `size` bytes of data start at virt; the end is a 64-bit sum. */
  function FileByte(virt: nat, data: Option<seq<Byte>>, size: nat, a: int): Byte {
    if data.Some? && virt <= a < (virt + size) % WORD && a < virt + |data.value| then data.value[a - virt] else 0
  }

  function Tabulated(byte: int -> Byte): (page: Block)
    ensures forall i :: 0 <= i < PAGE ==> page[i] == byte(i)
  {
    var page: seq<Byte> := seq(PAGE, i => byte(i));
    page
  }

  function PageContent(virt: nat, data: Option<seq<Byte>>, size: nat, v: nat): Block {
    Tabulated(i => FileByte(virt, data, size, v * PAGE + i))
  }

  /** Every page of the range [first, last) is free for the space to map alone. */
  ghost predicate AllFree(w: World, h: nat, first: nat, last: nat) {
    forall v :: first <= v < last ==> FreePage(w, h, PageOf(v))
  }

  /** Page v is mapped to a frame with this content. */
  ghost predicate LaidPage(t: Tables, memory: map<nat, Block>, root: nat, v: nat, frame: nat, content: Block, user: bool) {
    Walk(t, root, 4, PageOf(v), user) == Some(frame) && Bytes(memory, frame) == content
  }

  /** The pages [first, last) are mapped to the frames listed from n on, with the contents of the range. */
  ghost predicate Laid(t: Tables, memory: map<nat, Block>, root: nat, frames: seq<nat>, n: nat, first: nat, last: nat,
                       virt: nat, data: Option<seq<Byte>>, size: nat, user: bool) {
    && first <= last && |frames| == n + (last - first)
    && forall v :: first <= v < last ==>
         LaidPage(t, memory, root, v, frames[n + v - first], PageContent(virt, data, size, v), user)
  }

  lemma {:induction false} LaidMore(t: Tables, t': Tables, memory: map<nat, Block>, root: nat, frames: seq<nat>, n: nat, first: nat, last: nat,
                 virt: nat, data: Option<seq<Byte>>, size: nat, user: bool, frame: nat, flags: Flags)
    requires Laid(t, memory, root, frames, n, first, last, virt, data, size, user) && last - first < 0x10_0000_0000
    requires Maps(t, t', root, PageOf(last), frame, flags) && frame !in frames
    requires user ==> flags.user && UserReady(t, root, 4, PageOf(last))
    ensures Laid(t', memory[frame := PageContent(virt, data, size, last)], root, frames + [frame], n, first, last + 1, virt, data, size, user)
  {
    var memory' := memory[frame := PageContent(virt, data, size, last)];
    forall v | first <= v < last
      ensures LaidPage(t', memory', root, v, frames[n + v - first], PageContent(virt, data, size, v), user)
    {
      PagesDiffer(v, last);
      assert LaidPage(t, memory, root, v, frames[n + v - first], PageContent(virt, data, size, v), user);
    }
    assert LaidPage(t', memory', root, last, frame, PageContent(virt, data, size, last), user);
  }

  lemma {:induction false} ProgressNext(w: World, w': World, w'': World, h: nat, p: Page, private: bool, user: bool)
    requires Progress(w, w', h, private, user) && Progress(w', w'', h, FreePage(w', h, p), user)
    requires private ==> FreePage(w, h, p)
    ensures Progress(w, w'', h, private, user)
  {
    if private && Isolation(w) {
      ProgressTwice(w, w', w'', h, private, user);
    } else {
      ProgressTwice(w, w', w'', h, false, user);
    }
  }

  /** A fresh frame is on nobody's list. */
  lemma {:induction false} FreshNotListed(spaces: Spaces, place: Places, h: nat, frame: nat)
    requires Recorded(spaces, place) && h in spaces && frame !in place
    ensures frame !in spaces[h].frames
  {
    if frame in spaces[h].frames {
      var k :| 0 <= k < |spaces[h].frames| && spaces[h].frames[k] == frame;
      assert ListedAt(spaces, frame, Place(h, false, k));
    }
  }

  /** In a user space, free pages are open to the user. */
  lemma {:induction false} OpenPage(w0: World, w: World, h: nat, p: Page)
    requires Isolation(w0) && UserSpace(w0, h) && FreePage(w0, h, p) && Progress(w0, w, h, true, true)
    ensures h in w.spaces && UserReady(w.tables, w.spaces[h].root, 4, p)
  {
    assert FreePage(w, h, p);
    RootOwned(w, h);
    FreeUserReady(w, h, w.spaces[h].root, p);
  }

  lemma {:induction false} LaidLoads(t: Tables, memory: map<nat, Block>, root: nat, frames: seq<nat>, n: nat, first: nat, last: nat,
                  virt: nat, data: Option<seq<Byte>>, size: nat, a: nat)
    requires Laid(t, memory, root, frames, n, first, last, virt, data, size, true)
    requires first <= a / PAGE < last
    ensures Load(UserView(t, root), memory, a) == Some(FileByte(virt, data, size, a))
  {
    var v := a / PAGE;
    assert LaidPage(t, memory, root, v, frames[n + v - first], PageContent(virt, data, size, v), true);
    assert v * PAGE + a % PAGE == a;
  }

  function LastPage(virt: nat, size: nat): nat { (virt + size + PAGE - 1) % WORD / PAGE }

  // ---------------------------------------------------------------------------------------
  // Storing through the user's eyes
  // ---------------------------------------------------------------------------------------

  lemma InChunk(a: nat, i: nat)
    requires a % PAGE + i < PAGE
    ensures (a + i) / PAGE == a / PAGE && (a + i) % PAGE == a % PAGE + i
  {
  }

  /** The block with these bytes in place of its own from off on. */
  function Spliced(b: Block, off: nat, bytes: seq<Byte>): (r: Block)
    requires off + |bytes| <= PAGE
    ensures forall i :: 0 <= i < PAGE ==> r[i] == if off <= i < off + |bytes| then bytes[i - off] else b[i]
  {
    b[..off] + bytes + b[off + |bytes|..]
  }

  /** Storing data from a place on, page by page, up to the first page that is not reached; true when none is missed. */
  function Stored(view: View, memory: map<nat, Block>, page: nat, off: nat, data: seq<Byte>): (bool, map<nat, Block>)
    requires off < PAGE
    decreases |data|
  {
    if |data| == 0 then (true, memory) else
    var n, f := if PAGE - off > |data| then |data| else PAGE - off, view(page);
    if f.None? then (false, memory)
    else Stored(view, memory[f.value := Spliced(Bytes(memory, f.value), off, data[..n])], page + 1, 0, data[n..])
  }

  lemma NextPage(a: nat, n: nat)
    requires a % PAGE + n == PAGE
    ensures (a + n) / PAGE == a / PAGE + 1 && (a + n) % PAGE == 0
  {
  }

  /** The same from an address on. */
  function StoredFrom(view: View, memory: map<nat, Block>, a: nat, data: seq<Byte>): (bool, map<nat, Block>) {
    Stored(view, memory, a / PAGE, a % PAGE, data)
  }

  /** How much of n bytes at address a lies in the page of a. */
  function ChunkAt(a: nat, n: nat): (c: nat)
    ensures c <= n && a % PAGE + c <= PAGE && (n > 0 ==> c > 0)
  {
    if PAGE - a % PAGE > n then n else PAGE - a % PAGE
  }

  /** Storing the part that lies in one page, and then the rest. */
  lemma {:induction false} StoreStep(view: View, memory: map<nat, Block>, a: nat, data: seq<Byte>)
    requires data != []
    ensures var n, frame := ChunkAt(a, |data|), view(a / PAGE);
            StoredFrom(view, memory, a, data) ==
              if frame.None? then (false, memory)
              else StoredFrom(view, memory[frame.value := Spliced(Bytes(memory, frame.value), a % PAGE, data[..n])], a + n, data[n..])
  {
    var n := ChunkAt(a, |data|);
    if a % PAGE + n == PAGE {
      NextPage(a, n);
    } else if view(a / PAGE).Some? {
      var f := view(a / PAGE).value;
      var m := memory[f := Spliced(Bytes(memory, f), a % PAGE, data[..n])];
      assert |data[n..]| == 0;
      assert Stored(view, m, a / PAGE + 1, 0, data[n..]) == (true, m) == StoredFrom(view, m, a + n, data[n..]);
    }
  }

  /** No other page of the range has the frame of page p. */
  ghost predicate Apart(view: View, first: nat, last: nat, p: nat) {
    forall v :: first <= v <= last && v != p ==> view(v).None? || view(v) != view(p)
  }

  function LoadAt(view: View, memory: map<nat, Block>, page: nat, off: nat): Option<Byte>
    requires off < PAGE
  {
    if view(page).Some? then Some(Bytes(memory, view(page).value)[off]) else None
  }

  /** Where byte o of page p is, counted from byte off of the given page. */
  function Distance(page: nat, off: nat, p: nat, o: nat): int { (p - page) * 4096 + o - off }

  lemma {:induction false} ChunkLoads(view: View, memory: map<nat, Block>, page: nat, off: nat, bytes: seq<Byte>, p: nat, o: nat)
    requires off + |bytes| <= PAGE && o < PAGE && view(page).Some? && (p == page || view(p) != view(page))
    ensures var f, at := view(page).value, Distance(page, off, p, o);
            LoadAt(view, memory[f := Spliced(Bytes(memory, f), off, bytes)], p, o) ==
              if 0 <= at < |bytes| then Some(bytes[at]) else LoadAt(view, memory, p, o)
  {
    assert p < page ==> Distance(page, off, p, o) < 0;
    assert p > page ==> Distance(page, off, p, o) >= |bytes|;
  }

  lemma {:induction false} NextDistance(page: nat, off: nat, n: nat, size: nat, p: nat, o: nat)
    requires off < PAGE && n == if PAGE - off > size then size else PAGE - off
    ensures n < size ==> Distance(page + 1, 0, p, o) == Distance(page, off, p, o) - n
    ensures forall last :: Within(page, off, size, last) ==> Within(page + 1, 0, size - n, last)
  {
  }

  /** This many bytes from a place on end in a page up to the last. */
  predicate Within(page: nat, off: nat, size: nat, last: nat) { size > 0 ==> page <= last && off + size <= (last - page + 1) * 4096 }

  /** Where no frame is shared, what was stored is read back, and every other byte is as before. */
  lemma {:induction false} StoredLoads(view: View, memory: map<nat, Block>, page: nat, off: nat, data: seq<Byte>, last: nat, p: nat, o: nat)
    requires off < PAGE && o < PAGE && Stored(view, memory, page, off, data).0
    requires Within(page, off, |data|, last) && Apart(view, page, last, p)
    ensures var at := Distance(page, off, p, o);
            LoadAt(view, Stored(view, memory, page, off, data).1, p, o) ==
              if 0 <= at < |data| then Some(data[at]) else LoadAt(view, memory, p, o)
    decreases |data|
  {
    if |data| > 0 {
      var n, f := if PAGE - off > |data| then |data| else PAGE - off, view(page).value;
      var memory' := memory[f := Spliced(Bytes(memory, f), off, data[..n])];
      ChunkLoads(view, memory, page, off, data[..n], p, o);
      assert Stored(view, memory, page, off, data) == Stored(view, memory', page + 1, 0, data[n..]);
      NextDistance(page, off, n, |data|, p, o);
      assert view(p) != view(page) || p == page by {
        assert Apart(view, page, last, p);
      }
      StoredLoads(view, memory', page + 1, 0, data[n..], last, p, o);
      TwoParts(data, n, Distance(page, off, p, o), LoadAt(view, memory, p, o), LoadAt(view, memory', p, o),
               LoadAt(view, Stored(view, memory, page, off, data).1, p, o));
    }
  }

  /** A byte set by the first n bytes of data and then by the rest is set by data. */
  lemma TwoParts(data: seq<Byte>, n: nat, at: int, before: Option<Byte>, between: Option<Byte>, after: Option<Byte>)
    requires n <= |data|
    requires between == if 0 <= at < n then Some(data[..n][at]) else before
    requires after == if 0 <= at - n < |data| - n then Some(data[n..][at - n]) else between
    ensures after == if 0 <= at < |data| then Some(data[at]) else before
  {
  }

  /** A page of a laid range is reached at its frame. */
  lemma {:induction false} LaidAtFrame(spaces: Spaces, t: Tables, memory: map<nat, Block>, h: nat, n: nat, first: nat, last: nat,
                  virt: nat, data: Option<seq<Byte>>, size: nat, p: nat)
    requires h in spaces && first <= p < last
    requires Laid(t, memory, spaces[h].root, spaces[h].frames, n, first, last, virt, data, size, true)
    ensures n + p - first < |spaces[h].frames| && UserView(t, spaces[h].root)(p) == Some(spaces[h].frames[n + p - first])
  {
    assert LaidPage(t, memory, spaces[h].root, p, spaces[h].frames[n + p - first], PageContent(virt, data, size, p), true);
  }

  /** A space lists no frame twice. */
  lemma {:induction false} FramesDiffer(spaces: Spaces, place: Places, h: nat, i: nat, j: nat)
    requires Recorded(spaces, place) && h in spaces && i < |spaces[h].frames| && j < |spaces[h].frames| && i != j
    ensures spaces[h].frames[i] != spaces[h].frames[j]
  {
    assert ListedAt(spaces, spaces[h].frames[i], Place(h, false, i));
    assert ListedAt(spaces, spaces[h].frames[j], Place(h, false, j));
  }

  /** The frames of a mapped range are all different. */
  lemma {:induction false} LaidApart(spaces: Spaces, place: Places, t: Tables, memory: map<nat, Block>, h: nat, n: nat, first: nat, last: nat,
                  virt: nat, data: Option<seq<Byte>>, size: nat, p: nat)
    requires Recorded(spaces, place) && h in spaces && first <= p < last
    requires Laid(t, memory, spaces[h].root, spaces[h].frames, n, first, last, virt, data, size, true)
    ensures Apart(UserView(t, spaces[h].root), first, last - 1, p)
  {
    forall v | first <= v < last && v != p ensures UserView(t, spaces[h].root)(v) != UserView(t, spaces[h].root)(p) {
      LaidAtFrame(spaces, t, memory, h, n, first, last, virt, data, size, p);
      LaidAtFrame(spaces, t, memory, h, n, first, last, virt, data, size, v);
      FramesDiffer(spaces, place, h, n + p - first, n + v - first);
    }
  }

  /** A store reaches every byte of pages that are all reached. */
  lemma {:induction false} StoredSucceeds(view: View, memory: map<nat, Block>, page: nat, off: nat, data: seq<Byte>, last: nat)
    requires off < PAGE && (forall v :: page <= v < last ==> view(v).Some?) && off + |data| <= (last - page) * 4096
    ensures Stored(view, memory, page, off, data).0
    decreases |data|
  {
    if |data| > 0 {
      var n, f := if PAGE - off > |data| then |data| else PAGE - off, view(page).value;
      StoredSucceeds(view, memory[f := Spliced(Bytes(memory, f), off, data[..n])], page + 1, 0, data[n..], last);
    }
  }

  lemma {:induction false} LaidReached(t: Tables, memory: map<nat, Block>, root: nat, frames: seq<nat>, n: nat, first: nat, last: nat,
                                       virt: nat, data: Option<seq<Byte>>, size: nat)
    requires Laid(t, memory, root, frames, n, first, last, virt, data, size, true)
    ensures forall v :: first <= v < last ==> UserView(t, root)(v).Some?
  {
    forall v | first <= v < last ensures UserView(t, root)(v).Some? {
      assert LaidPage(t, memory, root, v, frames[n + v - first], PageContent(virt, data, size, v), true);
    }
  }

  /** In a mapped range: what is stored is read back, and every other byte of the range stays. */
  lemma {:induction false} RangeReadsBack(spaces: Spaces, place: Places, t: Tables, memory: map<nat, Block>, h: nat, n: nat, first: nat, last: nat,
                       virt: nat, data: Option<seq<Byte>>, size: nat, at: nat, bytes: seq<Byte>, a: nat)
    requires Recorded(spaces, place) && h in spaces && Laid(t, memory, spaces[h].root, spaces[h].frames, n, first, last, virt, data, size, true)
    requires first <= at / PAGE && at + |bytes| <= last * PAGE && first <= a / PAGE < last
    ensures var view := UserView(t, spaces[h].root);
            Stored(view, memory, at / PAGE, at % PAGE, bytes).0 &&
            Load(view, Stored(view, memory, at / PAGE, at % PAGE, bytes).1, a) ==
              if at <= a < at + |bytes| then Some(bytes[a - at]) else Load(view, memory, a)
  {
    var view, page, off, p, o := UserView(t, spaces[h].root), at / PAGE, at % PAGE, a / PAGE, a % PAGE;
    assert at == page * 4096 + off && a == p * 4096 + o;
    LaidReached(t, memory, spaces[h].root, spaces[h].frames, n, first, last, virt, data, size);
    StoredSucceeds(view, memory, page, off, bytes, last);
    LaidApart(spaces, place, t, memory, h, n, first, last, virt, data, size, p);
    ApartSmaller(view, first, last - 1, page, p);
    StoredInRange(view, memory, page, off, bytes, last, p, o);
    LoadsAgree(view, Stored(view, memory, page, off, bytes).1, a);
    LoadsAgree(view, memory, a);
  }

  lemma ApartSmaller(view: View, first: nat, last: nat, page: nat, p: nat)
    requires Apart(view, first, last, p) && first <= page
    ensures Apart(view, page, last, p)
  {
  }

  lemma {:induction false} StoredInRange(view: View, memory: map<nat, Block>, page: nat, off: nat, bytes: seq<Byte>, last: nat, p: nat, o: nat)
    requires off < PAGE && o < PAGE && last > 0 && page * 4096 + off + |bytes| <= last * 4096 && Apart(view, page, last - 1, p)
    requires Stored(view, memory, page, off, bytes).0
    ensures var d := Distance(page, off, p, o);
            LoadAt(view, Stored(view, memory, page, off, bytes).1, p, o) == if 0 <= d < |bytes| then Some(bytes[d]) else LoadAt(view, memory, p, o)
  {
    StoredLoads(view, memory, page, off, bytes, last - 1, p, o);
  }

  lemma LoadsAgree(view: View, memory: map<nat, Block>, a: nat)
    ensures Load(view, memory, a) == LoadAt(view, memory, a / PAGE, a % PAGE)
  {
  }

  /** Page v holds one of the bytes from a place on. */
  predicate Touched(page: nat, off: nat, size: nat, v: nat) { size > 0 && page <= v && (v - page) * 4096 < off + size }

  /** A store succeeds exactly if every page it touches is reached, and no frame of another page changes. */
  lemma {:induction false} StoredIff(view: View, memory: map<nat, Block>, page: nat, off: nat, data: seq<Byte>, f: nat)
    requires off < PAGE
    ensures Stored(view, memory, page, off, data).0 <==> forall v :: Touched(page, off, |data|, v) ==> view(v).Some?
    ensures (forall v :: Touched(page, off, |data|, v) ==> view(v) != Some(f)) ==> Bytes(Stored(view, memory, page, off, data).1, f) == Bytes(memory, f)
    decreases |data|
  {
    if |data| > 0 {
      assert Touched(page, off, |data|, page);
      if view(page).Some? {
        var n := if PAGE - off > |data| then |data| else PAGE - off;
        var memory' := memory[view(page).value := Spliced(Bytes(memory, view(page).value), off, data[..n])];
        forall v ensures Touched(page, off, |data|, v) <==> v == page || Touched(page + 1, 0, |data| - n, v) {
        }
        StoredIff(view, memory', page + 1, 0, data[n..], f);
      }
    }
  }

  /** A store that fails has stored what goes to the pages before the first one that is not reached, and nothing more. */
  lemma {:induction false} StoredUpTo(view: View, memory: map<nat, Block>, page: nat, off: nat, data: seq<Byte>, v: nat)
    requires off < PAGE && Touched(page, off, |data|, v) && view(v).None? && forall u :: page <= u < v ==> view(u).Some?
    ensures var n := if v == page then 0 else (v - page) * 4096 - off;
            && n < |data| && Stored(view, memory, page, off, data[..n]).0
            && Stored(view, memory, page, off, data) == (false, Stored(view, memory, page, off, data[..n]).1)
    decreases |data|
  {
    if v > page {
      var n, m := (v - page) * 4096 - off, PAGE - off;
      var f := view(page).value;
      var memory' := memory[f := Spliced(Bytes(memory, f), off, data[..m])];
      StoredUpTo(view, memory', page + 1, 0, data[m..], v);
      assert data[..n][..m] == data[..m] && data[..n][m..] == data[m..][..n - m];
    }
  }

  lemma {:induction false} TouchedBytes(virt: nat, size: nat, view: View, memory: map<nat, Block>)
    ensures (forall v :: Touched(virt / PAGE, virt % PAGE, size, v) ==> view(v).Some?) <==>
              forall a :: virt <= a < virt + size ==> Load(view, memory, a).Some?
  {
    if forall v :: Touched(virt / PAGE, virt % PAGE, size, v) ==> view(v).Some? {
      forall a | virt <= a < virt + size ensures Load(view, memory, a).Some? {
        assert Touched(virt / PAGE, virt % PAGE, size, a / PAGE);
      }
    } else {
      var v: nat :| Touched(virt / PAGE, virt % PAGE, size, v) && view(v).None?;
      var a := if v == virt / PAGE then virt else v * 4096;
      assert a / PAGE == v;
      assert virt <= a < virt + size && Load(view, memory, a).None?;
    }
  }
}
