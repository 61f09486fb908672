/** The shared memory of the ring allocator of utils/buffer/ring_alloc.go: the slot table, the
    three cursors, and what a region of the slab being "free" means.
    Nothing here says who reads or writes it; RingProtocol.dfy interleaves one producer and any
    number of releasing threads over it, RingAlloc.dfy runs it from one thread. */
module RingTable {
  /** The slot table has this many entries; index i of the unbounded slot sequence lives in
      entry i % 4096. */
  const SLOTS: nat := 4096

  /** waste marks the entries Alloc inserts for the dead bytes before the slab end. */
  datatype Slot = Slot(start: int, end: int, refs: int, waste: bool)

  /** lastWaste is the index of the newest waste entry published so far, -1 before the first. */
  datatype Ring = Ring(cap: int, slots: seq<Slot>, head: nat, tail: nat, write: int, lastWaste: int) {
    predicate WellSized() {
      |slots| == SLOTS
    }

    function At(i: nat): Slot
      requires WellSized()
    {
      slots[i % SLOTS]
    }

    function Put(i: nat, x: Slot): Ring
      requires WellSized()
    {
      this.(slots := slots[i % SLOTS := x])
    }

    /** Index i is in the window: published and not yet passed by head. */
    predicate InWindow(i: nat) {
      head <= i < tail
    }
  }

  function Empty(cap: nat): Ring {
    Ring(cap, seq(SLOTS, _ => Slot(0, 0, 0, false)), 0, 0, 0, -1)
  }

  /** Entries less than a full table apart are different entries. */
  lemma EntriesDiffer(i: nat, j: nat)
    requires i < j < i + SLOTS
    ensures i % SLOTS != j % SLOTS
  {
  }

  /** Writing index i leaves every other index of a window no longer than the table alone. */
  lemma PutFrame(r: Ring, i: nat, x: Slot, lo: nat, hi: nat)
    requires r.WellSized()
    requires lo <= hi <= lo + SLOTS && lo <= i < lo + SLOTS
    ensures r.Put(i, x).WellSized() && r.Put(i, x).At(i) == x
    ensures forall j: nat {:trigger r.Put(i, x).At(j)} :: lo <= j < hi && j != i ==> r.Put(i, x).At(j) == r.At(j)
  {
    forall j: nat | lo <= j < hi && j != i ensures r.Put(i, x).At(j) == r.At(j) {
      if j < i { EntriesDiffer(j, i); } else { EntriesDiffer(i, j); }
    }
  }

  /** regionFree: [lo, hi) lies in the part of the slab that read and write say is unused. */
  predicate RegionFree(write: int, lo: int, hi: int, read: int) {
    if write >= read then hi <= read || lo >= write else lo >= write && hi <= read
  }

  /** [a, b) and [c, d) share no byte. */
  predicate Apart(a: int, b: int, c: int, d: int) {
    b <= c || d <= a
  }

  // ----- The byte layout of a window -----

  /** What an entry says about the slab, without its count. */
  datatype Region = Region(start: int, end: int, waste: bool)

  function Bounds(x: Slot): Region {
    Region(x.start, x.end, x.waste)
  }

  /** The entries from index lo up to the tail. */
  function Window(r: Ring, lo: nat): (w: seq<Region>)
    requires r.WellSized() && lo <= r.tail
    ensures |w| == r.tail - lo
    decreases r.tail - lo
  {
    if lo == r.tail then [] else [Bounds(r.At(lo))] + Window(r, lo + 1)
  }

  lemma {:induction false} WindowAt(r: Ring, lo: nat, k: nat)
    requires r.WellSized() && lo <= lo + k < r.tail
    ensures Window(r, lo)[k] == Bounds(r.At(lo + k))
    decreases k
  {
    if k > 0 { WindowAt(r, lo + 1, k - 1); }
  }

  /** The regions of a window, the slab size, the write cursor, and where the waste region sits. */
  datatype Layout = Layout(w: seq<Region>, cap: int, write: int, k: int)

  function LayoutOf(r: Ring, lo: nat): Layout
    requires r.WellSized() && lo <= r.tail
  {
    Layout(Window(r, lo), r.cap, r.write, r.lastWaste - lo)
  }

  predicate Before(i: int, j: int) {
    i < j
  }

  /** The regions of w lie one after the other in a slab of cap bytes, interrupted at most once,
      by a waste region at position k that ends at the slab end, after which they continue at
      byte 0 below the first of them; write is the byte after the last. */
  ghost predicate Laid(l: Layout) {
    var Layout(w, cap, write, k) := l;
    var bounded := forall i :: 0 <= i < |w| ==>
      && (w[i].waste <==> i == k)
      && (if w[i].waste then 0 < w[i].start <= w[i].end == cap else 0 <= w[i].start < w[i].end <= cap)
      && (0 <= k < i ==> w[i].end <= w[0].start);
    var ordered := forall i, j {:trigger Before(i, j)} :: 0 <= i && Before(i, j) && j < |w| ==>
      && (j == i + 1 ==> w[j].start == if w[i].waste then 0 else w[i].end)
      && (!(i <= k < j) ==> w[i].end <= w[j].start);
    && 0 <= write <= cap && k < |w|
    && bounded && ordered
    && (w != [] ==> write == if w[|w| - 1].waste then 0 else w[|w| - 1].end)
  }

  /** n more bytes at the write cursor stay clear of the regions of w. */
  ghost predicate Clear(w: seq<Region>, cap: int, write: int, k: int, n: int) {
    0 < n && write + n <= cap && (0 <= k && w != [] ==> write + n <= w[0].start)
  }

  lemma ClearDrop(w: seq<Region>, cap: int, write: int, k: int, n: int, d: nat)
    requires Laid(Layout(w, cap, write, k)) && d <= |w| && Clear(w, cap, write, k, n)
    ensures Clear(w[d..], cap, write, k - d, n)
  {
    if 0 < d < |w| && d <= k {
      assert Before(0, d);
      assert w[0].start < w[0].end;
    }
  }

  lemma LaidBeforeWrite(w: seq<Region>, cap: int, write: int, k: int, i: nat)
    requires Laid(Layout(w, cap, write, k)) && i < |w| && !(i <= k)
    ensures w[i].end <= write
  {
    if i < |w| - 1 { assert Before(i, |w| - 1); }
  }

  /** Publishing a clear allocation at the write cursor keeps the layout. */
  lemma LaidPlace(w: seq<Region>, cap: int, write: int, k: int, n: int)
    requires Laid(Layout(w, cap, write, k)) && Clear(w, cap, write, k, n)
    ensures Laid(Layout(w + [Region(write, write + n, false)], cap, write + n, k))
  {
    forall i | 0 <= i < |w| && !(i <= k) ensures w[i].end <= write { LaidBeforeWrite(w, cap, write, k, i); }
  }

  /** Publishing a waste region keeps the layout when there is none yet. */
  lemma LaidWaste(w: seq<Region>, cap: int, write: int, k: int)
    requires Laid(Layout(w, cap, write, k)) && k < 0 < write
    ensures Laid(Layout(w + [Region(write, cap, true)], cap, 0, |w|))
  {
    forall i | 0 <= i < |w| ensures w[i].end <= write { LaidBeforeWrite(w, cap, write, k, i); }
  }

  /** Growing the last allocation in place keeps the layout. */
  lemma LaidGrow(w: seq<Region>, cap: int, write: int, k: int, n: int)
    requires Laid(Layout(w, cap, write, k)) && Clear(w, cap, write, k, n) && w != [] && !w[|w| - 1].waste
    ensures Laid(Layout(w[|w| - 1 := Region(w[|w| - 1].start, write + n, false)], cap, write + n, k))
  {
    var w' := w[|w| - 1 := Region(w[|w| - 1].start, write + n, false)];
    assert w'[0].start == w[0].start;
  }

  /** Dropping regions at the front keeps the layout. */
  lemma LaidDrop(w: seq<Region>, cap: int, write: int, k: int, d: nat)
    requires Laid(Layout(w, cap, write, k)) && d <= |w|
    ensures Laid(Layout(w[d..], cap, write, k - d))
  {
    var w' := w[d..];
    if 0 < d < |w| && d <= k {
      assert Before(0, d);
      assert w[0].start < w[0].end;
    }
    forall i, j | 0 <= i && Before(i, j) && j < |w'|
      ensures (j == i + 1 ==> w'[j].start == if w'[i].waste then 0 else w'[i].end) &&
                (!(i <= k - d < j) ==> w'[i].end <= w'[j].start)
    {
      assert Before(i + d, j + d);
    }
  }

  /** No two allocations share a byte. */
  lemma LaidDisjoint(w: seq<Region>, cap: int, write: int, k: int, i: nat, j: nat)
    requires Laid(Layout(w, cap, write, k)) && i < j < |w| && !w[i].waste && !w[j].waste
    ensures Apart(w[i].start, w[i].end, w[j].start, w[j].end)
  {
    assert Before(i, j) && (0 < i ==> Before(0, i));
  }

  /** The region test of Alloc and Extend, taken from any cursor that is the start of w. */
  lemma RegionTestSound(w: seq<Region>, cap: int, write: int, k: int, read: int, n: int)
    requires Laid(Layout(w, cap, write, k))
    requires read == if w == [] then write else w[0].start
    requires 0 < n && write + n <= cap
    requires w != [] ==> write != read
    requires RegionFree(write, write, write + n, read)
    ensures Clear(w, cap, write, k, n)
  {
    if 0 <= k && w != [] {
      assert w[|w| - 1].waste <==> |w| - 1 == k;
      assert write <= read;
    }
  }

  /** ... and it refuses only what is not clear. */
  lemma RegionTestComplete(w: seq<Region>, cap: int, write: int, k: int, read: int, n: int)
    requires Laid(Layout(w, cap, write, k)) && w != [] && read == w[0].start
    requires Clear(w, cap, write, k, n)
    ensures write != read && RegionFree(write, write, write + n, read)
  {
    if k < 0 { LaidBeforeWrite(w, cap, write, k, 0); }
  }

  /** Only the last region can end at the write cursor. */
  lemma EndAtWriteIsLast(w: seq<Region>, cap: int, write: int, k: int, i: nat)
    requires Laid(Layout(w, cap, write, k)) && i < |w| && !w[i].waste && w[i].end == write
    ensures i == |w| - 1
  {
    assert w[|w| - 1].waste <==> |w| - 1 == k;
    assert i < |w| - 1 ==> Before(i, |w| - 1);
    assert 0 < i ==> Before(0, i) && (w[0].waste || w[0].start < w[0].end);
  }

  /** The window from lo on is laid out. */
  ghost predicate Chain(r: Ring, lo: nat) {
    r.WellSized() && lo <= r.tail <= lo + SLOTS && Laid(LayoutOf(r, lo))
  }

  ghost predicate Fits(r: Ring, lo: nat, n: int) {
    r.WellSized() && lo <= r.tail && Clear(Window(r, lo), r.cap, r.write, r.lastWaste - lo, n)
  }

  lemma {:induction false} WindowDrop(r: Ring, lo: nat, lo': nat)
    requires r.WellSized() && lo <= lo' <= r.tail
    ensures Window(r, lo') == Window(r, lo)[lo' - lo..]
    decreases lo' - lo
  {
    if lo < lo' {
      WindowDrop(r, lo + 1, lo');
      assert Window(r, lo)[lo' - lo..] == Window(r, lo + 1)[lo' - (lo + 1)..];
    }
  }

  lemma ChainSuffix(r: Ring, lo: nat, lo': nat)
    requires Chain(r, lo) && lo <= lo' <= r.tail
    ensures Chain(r, lo')
  {
    var w, k, d := Window(r, lo), r.lastWaste - lo, lo' - lo;
    WindowDrop(r, lo, lo');
    LaidDrop(w, r.cap, r.write, k, d);
    assert LayoutOf(r, lo') == Layout(w[d..], r.cap, r.write, k - d);
  }

  lemma FitsSuffix(r: Ring, lo: nat, lo': nat, n: int)
    requires Chain(r, lo) && Fits(r, lo, n) && lo <= lo' <= r.tail
    ensures Fits(r, lo', n)
  {
    WindowDrop(r, lo, lo');
    ClearDrop(Window(r, lo), r.cap, r.write, r.lastWaste - lo, n, lo' - lo);
    assert r.lastWaste - lo - (lo' - lo) == r.lastWaste - lo';
  }

  /** A window depends on the bounds of its entries alone. */
  lemma {:induction false} WindowFrame(r: Ring, r': Ring, lo: nat)
    requires r.WellSized() && r'.WellSized() && lo <= r.tail == r'.tail
    requires forall j: nat {:trigger r'.At(j)} :: lo <= j < r.tail ==> Bounds(r'.At(j)) == Bounds(r.At(j))
    ensures Window(r', lo) == Window(r, lo)
    decreases r.tail - lo
  {
    if lo < r.tail { WindowFrame(r, r', lo + 1); }
  }

  lemma {:induction false} WindowGrows(r: Ring, r': Ring, lo: nat)
    requires r.WellSized() && r'.WellSized() && lo <= r.tail && r'.tail == r.tail + 1 && r'.slots == r.slots
    ensures Window(r', lo) == Window(r, lo) + [Bounds(r.At(r.tail))]
    decreases r.tail - lo
  {
    assert r'.At(lo) == r.At(lo);
    if lo < r.tail { WindowGrows(r, r', lo + 1); }
  }

  lemma {:induction false} WindowLast(r: Ring, lo: nat, x: Slot, write: int)
    requires r.WellSized() && lo < r.tail <= lo + SLOTS
    ensures Window(r.Put(r.tail - 1, x).(write := write), lo) == Window(r, lo)[r.tail - 1 - lo := Bounds(x)]
    decreases r.tail - lo
  {
    var r' := r.Put(r.tail - 1, x).(write := write);
    if lo + 1 < r.tail {
      EntriesDiffer(lo, r.tail - 1);
      assert r'.At(lo) == r.At(lo);
      WindowLast(r, lo + 1, x, write);
    } else {
      assert r'.At(lo) == x && Window(r', lo + 1) == [];
    }
  }

  lemma CursorIsFirst(r: Ring, cur: nat)
    requires r.WellSized() && cur <= r.tail
    ensures Window(r, cur) != [] <==> cur < r.tail
    ensures cur < r.tail ==> Window(r, cur)[0].start == r.At(cur).start
  {
  }

  /** The region test, for the window as it was when head was cur, against the window as it is. */
  lemma TestedFits(r: Ring, cur: nat, read: int, n: int)
    requires Chain(r, cur) && read == (if cur == r.tail then r.write else r.At(cur).start)
    requires 0 < n && r.write + n <= r.cap && (cur < r.tail ==> r.write != read)
    requires RegionFree(r.write, r.write, r.write + n, read)
    ensures Fits(r, cur, n)
  {
    CursorIsFirst(r, cur);
    RegionTestSound(Window(r, cur), r.cap, r.write, r.lastWaste - cur, read, n);
  }

  lemma PlacedChain(r: Ring, lo: nat, n: int, r': Ring)
    requires Chain(r, lo) && Fits(r, lo, n) && r.tail < lo + SLOTS
    requires r' == r.(tail := r.tail + 1, write := r.write + n)
    requires Bounds(r.At(r.tail)) == Region(r.write, r.write + n, false)
    ensures Chain(r', lo)
  {
    var w, k := Window(r, lo), r.lastWaste - lo;
    WindowGrows(r, r', lo);
    LaidPlace(w, r.cap, r.write, k, n);
    assert LayoutOf(r', lo) == Layout(w + [Region(r.write, r.write + n, false)], r.cap, r.write + n, k);
  }

  lemma WastedChain(r: Ring, lo: nat, r': Ring)
    requires Chain(r, lo) && r.lastWaste < lo && 0 < r.write && r.tail < lo + SLOTS
    requires r' == r.(tail := r.tail + 1, write := 0, lastWaste := r.tail)
    requires Bounds(r.At(r.tail)) == Region(r.write, r.cap, true)
    ensures Chain(r', lo)
  {
    var w := Window(r, lo);
    WindowGrows(r, r', lo);
    LaidWaste(w, r.cap, r.write, r.lastWaste - lo);
    assert LayoutOf(r', lo) == Layout(w + [Region(r.write, r.cap, true)], r.cap, 0, |w|);
  }

  /** Of a laid-out window only the newest index can end at the write cursor. */
  lemma EndAtWriteIsNewest(r: Ring, lo: nat, idx: nat)
    requires Chain(r, lo) && lo <= idx < r.tail && !r.At(idx).waste && r.At(idx).end == r.write
    ensures idx == r.tail - 1
  {
    WindowAt(r, lo, idx - lo);
    EndAtWriteIsLast(Window(r, lo), r.cap, r.write, r.lastWaste - lo, idx - lo);
  }

  lemma GrownWindow(r: Ring, lo: nat, n: int, r': Ring)
    requires r.WellSized() && lo < r.tail <= lo + SLOTS && !r.At(r.tail - 1).waste
    requires r' == r.Put(r.tail - 1, r.At(r.tail - 1).(end := r.write + n)).(write := r.write + n)
    ensures var w := Window(r, lo);
            !w[|w| - 1].waste && Window(r', lo) == w[|w| - 1 := Region(w[|w| - 1].start, r.write + n, false)]
  {
    WindowAt(r, lo, r.tail - 1 - lo);
    WindowLast(r, lo, r.At(r.tail - 1).(end := r.write + n), r.write + n);
  }

  lemma GrownChain(r: Ring, lo: nat, n: int, r': Ring)
    requires Chain(r, lo) && Fits(r, lo, n) && lo < r.tail && !r.At(r.tail - 1).waste
    requires r' == r.Put(r.tail - 1, r.At(r.tail - 1).(end := r.write + n)).(write := r.write + n)
    ensures Chain(r', lo)
  {
    var w, k := Window(r, lo), r.lastWaste - lo;
    GrownWindow(r, lo, n, r');
    LaidGrow(w, r.cap, r.write, k, n);
    assert LayoutOf(r', lo) == Layout(w[|w| - 1 := Region(w[|w| - 1].start, r.write + n, false)], r.cap, r.write + n,
                                      k);
  }

  /** Two allocations of a laid-out window share no byte and lie in the slab. */
  lemma ChainApart(r: Ring, lo: nat, i: nat, j: nat)
    requires Chain(r, lo) && lo <= i < j < r.tail && !r.At(i).waste && !r.At(j).waste
    ensures Apart(r.At(i).start, r.At(i).end, r.At(j).start, r.At(j).end)
    ensures 0 <= r.At(i).start < r.At(i).end <= r.cap && 0 <= r.At(j).start < r.At(j).end <= r.cap
  {
    WindowAt(r, lo, i - lo);
    WindowAt(r, lo, j - lo);
    LaidDisjoint(Window(r, lo), r.cap, r.write, r.lastWaste - lo, i - lo, j - lo);
  }

  lemma ChainInside(r: Ring, lo: nat, i: nat)
    requires Chain(r, lo) && lo <= i < r.tail && !r.At(i).waste
    ensures 0 <= r.At(i).start < r.At(i).end <= r.cap
  {
    WindowAt(r, lo, i - lo);
  }
}
