/** The allocator of utils/buffer/ring_alloc.go run from one thread: what each call does to the
    table as a whole, exactly when Alloc hands out bytes that are still in use, and the classes
    RingAlloc and GrowingRingAlloc with their fields updated in place. */
module RingAllocator {
  import opened Bytes
  import opened RingTable
  import opened RingProtocol
  import opened RingRuns

  // ----- Whole calls -----

  function Wrapped(r: Ring): Ring
    requires r.WellSized()
  {
    r.Put(r.tail, Slot(r.write, r.cap, 0, true)).(tail := r.tail + 1, write := 0, lastWaste := r.tail)
  }

  lemma WrappedFields(r: Ring)
    requires r.WellSized()
    ensures Wrapped(r).WellSized() && Wrapped(r).cap == r.cap && Wrapped(r).head == r.head
    ensures Wrapped(r).tail == r.tail + 1 && Wrapped(r).write == 0
  {
  }

  /** Alloc once the wrap, if any, is done; the new entry, if any, is the newest. */
  function PlaceSolo(r: Ring, n: int): (Ring, bool)
    requires r.WellSized() && r.head <= r.tail
  {
    if DecidePlace(r, n, r.head, r.tail, Cursor(r, r.head)).Place1? then
      (r.Put(r.tail, Slot(r.write, r.write + n, 1, false)).(tail := r.tail + 1, write := r.write + n), true)
    else
      (r, false)
  }

  function AllocSolo(r: Ring, n: int): (Ring, bool)
    requires r.WellSized() && r.head <= r.tail
  {
    if n <= 0 || n > r.cap then (r, false)
    else if r.write + n <= r.cap then PlaceSolo(r, n)
    else if r.tail - r.head >= SLOTS - 1 then (r, false)
    else PlaceSolo(Wrapped(r), n)
  }

  function ExtendSolo(r: Ring, idx: nat, n: int): (Ring, bool)
    requires r.WellSized() && r.head <= r.tail
  {
    if n <= 0 || r.write != r.At(idx).end || r.write + n > r.cap then (r, false)
    else if r.write == Cursor(r, r.head) && r.head < r.tail then (r, false)
    else if !RegionFree(r.write, r.write, r.write + n, Cursor(r, r.head)) then (r, false)
    else (r.Put(idx, r.At(idx).(end := r.write + n)).(write := r.write + n), true)
  }

  /** head after it has passed every released index in front of it. */
  function AdvanceHead(r: Ring): (r': Ring)
    requires r.WellSized() && r.head <= r.tail
    ensures r' == r.(head := r'.head) && r.head <= r'.head <= r.tail
    ensures r'.head < r.tail ==> r.At(r'.head).refs != 0
    ensures forall i: nat {:trigger r.At(i)} :: r.head <= i < r'.head ==> r.At(i).refs == 0
    decreases r.tail - r.head
  {
    if r.head < r.tail && r.At(r.head).refs == 0 then
      var r' := AdvanceHead(r.(head := r.head + 1));
      assert forall i: nat {:trigger r.At(i)} :: r.At(i) == r.(head := r.head + 1).At(i);
      r'
    else r
  }

  function ReleaseSolo(r: Ring, idx: nat): Ring
    requires r.WellSized() && r.head <= r.tail
  {
    AdvanceHead(r.Put(idx, r.At(idx).(refs := r.At(idx).refs - 1)))
  }

  /** Alloc leaves every entry of the window alone. */
  lemma AllocKeeps(r: Ring, n: int, idx: nat)
    requires r.WellSized() && r.InWindow(idx) && r.tail <= r.head + SLOTS
    ensures var r' := AllocSolo(r, n).0;
            r'.At(idx) == r.At(idx) && r'.InWindow(idx) && r'.head == r.head && r'.tail <= r'.head + SLOTS
  {
    if r.tail < r.head + SLOTS { PutFrame(r, r.tail, Slot(r.write, r.write + n, 1, false), r.head, r.tail); }
    if 0 < n <= r.cap && r.write + n > r.cap && r.tail - r.head < SLOTS - 1 {
      var w := Wrapped(r);
      PutFrame(r, r.tail, Slot(r.write, r.cap, 0, true), r.head, r.tail);
      assert w.At(idx) == r.At(idx);
      PutFrame(w, w.tail, Slot(0, n, 1, false), w.head, w.tail);
    }
  }

  /** Releasing one index leaves the other indices of the window that are in use alone. */
  lemma ReleaseKeeps(r: Ring, idx: nat, j: nat)
    requires r.WellSized() && r.tail <= r.head + SLOTS && r.InWindow(idx) && r.InWindow(j) && j != idx &&
               r.At(j).refs > 0
    ensures ReleaseSolo(r, idx).InWindow(j) && ReleaseSolo(r, idx).At(j) == r.At(j)
  {
    var x := r.At(idx).(refs := r.At(idx).refs - 1);
    PutFrame(r, idx, x, r.head, r.tail);
    var r' := AdvanceHead(r.Put(idx, x));
    assert r'.At(j) == r.Put(idx, x).At(j);
  }

  // ----- Whole calls are what the steps add up to when nothing interleaves -----

  /** The producer's steps until it is idle again. */
  function Drive(s: State, fuel: nat): State
    requires s.ring.WellSized()
    decreases fuel
  {
    if s.prod.Idle? || fuel == 0 then s else Drive(ProducerStep(s), fuel - 1)
  }

  lemma DriveFromCursor(s: State, n: int, head: nat, tail: nat, fuel: nat)
    requires s.ring.WellSized() && s.ring.head == head <= s.ring.tail == tail && fuel >= 3
    requires (s.prod == Alloc4(n, head, tail, head) && s.ring.write + n <= s.ring.cap) ||
               s.prod == Wrap5(n, tail, head, head)
    ensures Drive(s, fuel).prod == Idle && Drive(s, fuel).ring == PlaceSolo(s.ring, n).0
    ensures Drive(s, fuel).owners == if PlaceSolo(s.ring, n).1 then s.owners + multiset{tail} else s.owners
  {
    var s1 := ProducerStep(s);
    assert s1 == s.(prod := DecidePlace(s.ring, n, head, tail, Cursor(s.ring, head)));
    if s1.prod.Place1? {
      var s2 := ProducerStep(s1);
      var s3 := ProducerStep(s2);
      assert Drive(s, fuel) == Drive(s1, fuel - 1) == Drive(s2, fuel - 2) == Drive(s3, fuel - 3) == s3;
    } else {
      assert Drive(s, fuel) == Drive(s1, fuel - 1) == s1;
    }
  }

  lemma DriveWrap(s: State, n: int, fuel: nat)
    requires s.ring.WellSized() && s.ring.head <= s.ring.tail && s.ring.tail - s.ring.head < SLOTS - 1 && fuel >= 5
    requires s.ring.write + n > s.ring.cap && s.prod == Alloc4(n, s.ring.head, s.ring.tail, s.ring.head)
    ensures Drive(s, fuel) == Drive(s.(ring := Wrapped(s.ring),
                                       prod := Wrap5(n, s.ring.tail + 1, s.ring.head, s.ring.head)), fuel - 5)
  {
    var r, w := s.ring, Wrapped(s.ring);
    var s1 := s.(prod := Wrap1(n, r.tail));
    var s2 := ProducerStep(s1);
    var s3 := ProducerStep(s2);
    assert s3 == s.(ring := w, prod := Wrap3(n, r.tail + 1));
    var s4 := s.(ring := w, prod := Wrap4(n, r.tail + 1, r.head));
    assert ProducerStep(s) == s1 && ProducerStep(s3) == s4;
    assert Drive(s, fuel) == Drive(s1, fuel - 1) == Drive(s2, fuel - 2) == Drive(s3, fuel - 3) == Drive(s4, fuel - 4);
  }

  lemma DriveLoads(s: State, n: int, fuel: nat)
    requires s.ring.WellSized() && s.prod == Alloc1(n) && fuel >= 3
    ensures Drive(s, fuel) == Drive(s.(prod := Alloc4(n, s.ring.head, s.ring.tail, s.ring.head)), fuel - 3)
  {
    var r := s.ring;
    var s1, s2 := s.(prod := Alloc2(n, r.head)), s.(prod := Alloc3(n, r.head, r.tail));
    assert ProducerStep(s) == s1 && ProducerStep(s1) == s2;
    assert Drive(s, fuel) == Drive(s1, fuel - 1) == Drive(s2, fuel - 2);
  }

  lemma DriveAllocPlain(s: State, n: int, fuel: nat)
    requires s.ring.WellSized() && s.ring.head <= s.ring.tail && s.prod == Alloc1(n) && fuel >= 11
    requires s.ring.write + n <= s.ring.cap
    ensures Drive(s, fuel).prod == Idle && Drive(s, fuel).ring == PlaceSolo(s.ring, n).0
    ensures Drive(s, fuel).owners == if PlaceSolo(s.ring, n).1 then s.owners + multiset{s.ring.tail} else s.owners
  {
    DriveLoads(s, n, fuel);
    DriveFromCursor(s.(prod := Alloc4(n, s.ring.head, s.ring.tail, s.ring.head)), n, s.ring.head, s.ring.tail,
                    fuel - 3);
  }

  lemma DriveAllocWrapping(s: State, n: int, fuel: nat)
    requires s.ring.WellSized() && s.ring.head <= s.ring.tail && s.prod == Alloc1(n) && fuel >= 11
    requires s.ring.write + n > s.ring.cap && s.ring.tail - s.ring.head < SLOTS - 1
    ensures var w := Wrapped(s.ring);
            Drive(s, fuel).prod == Idle && Drive(s, fuel).ring == PlaceSolo(w, n).0 &&
            Drive(s, fuel).owners == if PlaceSolo(w, n).1 then s.owners + multiset{w.tail} else s.owners
  {
    var r := s.ring;
    DriveLoads(s, n, fuel);
    DriveWrap(s.(prod := Alloc4(n, r.head, r.tail, r.head)), n, fuel - 3);
    DriveFromCursor(s.(ring := Wrapped(r), prod := Wrap5(n, r.tail + 1, r.head, r.head)), n, r.head, r.tail + 1,
                    fuel - 8);
  }

  lemma DriveAllocFull(s: State, n: int, fuel: nat)
    requires s.ring.WellSized() && s.ring.head <= s.ring.tail && s.prod == Alloc1(n) && fuel >= 11
    requires s.ring.write + n > s.ring.cap && s.ring.tail - s.ring.head >= SLOTS - 1
    ensures Drive(s, fuel) == s.(prod := Idle)
  {
    DriveLoads(s, n, fuel);
    var s3 := s.(prod := Alloc4(n, s.ring.head, s.ring.tail, s.ring.head));
    assert ProducerStep(s3) == s.(prod := Idle);
    assert Drive(s3, fuel - 3) == Drive(s.(prod := Idle), fuel - 4);
  }

  /** Alloc as the protocol runs it, undisturbed for its at most eleven steps, is AllocSolo, and
      gives the new index its first owner exactly on success. */
  lemma SoloAllocIsDriven(s: State, n: int, fuel: nat)
    requires s.ring.WellSized() && s.ring.head <= s.ring.tail && s.prod.Idle? && fuel >= 11
    ensures var d := Drive(Act(s, BeginAlloc(n)), fuel);
            d.prod == Idle && d.ring == AllocSolo(s.ring, n).0 &&
            d.owners == if AllocSolo(s.ring, n).1 then s.owners + multiset{d.ring.tail - 1} else s.owners
  {
    var r := s.ring;
    if 0 < n <= r.cap {
      var s0 := s.(prod := Alloc1(n));
      if r.write + n <= r.cap { DriveAllocPlain(s0, n, fuel); }
      else if r.tail - r.head < SLOTS - 1 { DriveAllocWrapping(s0, n, fuel); }
      else { DriveAllocFull(s0, n, fuel); }
    }
  }

  // ----- Exactly when Alloc hands out bytes still in use -----

  /** [start, end) shares no byte with any allocation of the window of r. */
  ghost predicate ApartFromWindow(r: Ring, start: int, end: int)
    requires r.WellSized()
  {
    forall i: nat {:trigger r.At(i)} ::
      r.InWindow(i) && !r.At(i).waste ==> Apart(r.At(i).start, r.At(i).end, start, end)
  }

  /** The request does not fit before the slab end while the window already spans it. */
  predicate WrapsWhileSpanning(r: Ring, n: int) {
    r.write + n > r.cap && r.head <= r.lastWaste
  }

  lemma StoredAtTail(r: Ring, x: Slot)
    requires r.WellSized() && r.head <= r.tail < r.head + SLOTS
    ensures r.Put(r.tail, x).At(r.tail) == x
    ensures forall i: nat {:trigger r.Put(r.tail, x).At(i)} :: r.InWindow(i) ==> r.Put(r.tail, x).At(i) == r.At(i)
  {
    PutFrame(r, r.tail, x, r.head, r.tail);
  }

  lemma WrappedChain(r: Ring)
    requires Chain(r, r.head) && r.lastWaste < r.head && 0 < r.write && r.tail < r.head + SLOTS
    ensures Chain(Wrapped(r), r.head)
  {
    var x := Slot(r.write, r.cap, 0, true);
    StoredAtTail(r, x);
    var r1 := r.Put(r.tail, x);
    WindowFrame(r, r1, r.head);
    assert LayoutOf(r1, r.head) == LayoutOf(r, r.head);
    WastedChain(r1, r.head, Wrapped(r));
  }

  lemma PlaceSoloChain(r: Ring, n: int)
    requires Chain(r, r.head) && 0 < n && r.write + n <= r.cap && PlaceSolo(r, n).1
    ensures Chain(PlaceSolo(r, n).0, r.head)
    ensures PlaceSolo(r, n).0.At(r.tail) == Slot(r.write, r.write + n, 1, false)
  {
    var x := Slot(r.write, r.write + n, 1, false);
    StoredAtTail(r, x);
    var r1 := r.Put(r.tail, x);
    TestedFits(r, r.head, Cursor(r, r.head), n);
    WindowFrame(r, r1, r.head);
    assert LayoutOf(r1, r.head) == LayoutOf(r, r.head);
    PlacedChain(r1, r.head, n, PlaceSolo(r, n).0);
    assert PlaceSolo(r, n).0.At(r.tail) == r1.At(r.tail);
  }

  lemma PlaceSoloApart(r: Ring, n: int)
    requires Chain(r, r.head) && 0 < n && r.write + n <= r.cap && PlaceSolo(r, n).1
    ensures ApartFromWindow(r, r.write, r.write + n)
  {
    PlaceSoloChain(r, n);
    var r' := PlaceSolo(r, n).0;
    StoredAtTail(r, Slot(r.write, r.write + n, 1, false));
    forall i: nat | r.InWindow(i) && !r.At(i).waste ensures Apart(r.At(i).start, r.At(i).end, r.write, r.write + n) {
      assert r'.At(i) == r.At(i);
      ChainApart(r', r.head, i, r.tail);
    }
  }

  /** When the window spans the wrap point, byte 0 is in use. */
  lemma SpanningUsesByteZero(r: Ring) returns (i: nat)
    requires Chain(r, r.head) && r.head <= r.lastWaste && 0 < r.write
    ensures r.InWindow(i) && !r.At(i).waste && r.At(i).start == 0 < r.At(i).end
  {
    i := r.lastWaste + 1;
    var w, k := Window(r, r.head), r.lastWaste - r.head;
    assert w[k].waste;
    assert Before(k, k + 1);
    WindowAt(r, r.head, k + 1);
  }

  /** Main result: from a laid-out window, the bytes of a successful Alloc are apart from every
      allocation of the window if and only if the request did not have to wrap while the window
      already spanned the wrap point. */
  lemma AllocApartIff(r: Ring, n: int)
    requires Chain(r, r.head) && AllocSolo(r, n).1
    ensures var x := AllocSolo(r, n).0.At(AllocSolo(r, n).0.tail - 1);
            x.end == x.start + n && (ApartFromWindow(r, x.start, x.end) <==> !WrapsWhileSpanning(r, n))
  {
    if r.write + n <= r.cap {
      PlaceSoloChain(r, n);
      PlaceSoloApart(r, n);
    } else {
      var w := Wrapped(r);
      StoredAtTail(w, Slot(0, n, 1, false));
      assert AllocSolo(r, n).0.At(w.tail) == Slot(0, n, 1, false);
      if r.head <= r.lastWaste {
        var i := SpanningUsesByteZero(r);
        assert !Apart(r.At(i).start, r.At(i).end, 0, n);
      } else {
        WrappedChain(r);
        PlaceSoloApart(w, n);
        StoredAtTail(r, Slot(r.write, r.cap, 0, true));
        forall i: nat | r.InWindow(i) && !r.At(i).waste ensures Apart(r.At(i).start, r.At(i).end, 0, n) {
          assert w.At(i) == r.Put(r.tail, Slot(r.write, r.cap, 0, true)).At(i);
        }
      }
    }
  }

  lemma AdvanceStops(r: Ring)
    requires r.WellSized() && r.head < r.tail && r.At(r.head).refs == 0
    requires r.head + 1 < r.tail && r.At(r.head + 1).refs != 0
    ensures AdvanceHead(r) == r.(head := r.head + 1)
  {
    var r1 := r.(head := r.head + 1);
    assert r1.At(r1.head) == r.At(r.head + 1);
    assert AdvanceHead(r) == AdvanceHead(r1);
  }

  /** The trace that shows it: in a slab of 100 bytes, Alloc 90, Alloc 10, release the first,
      Alloc 50, Alloc 60; every call succeeds, nothing else is released, and the last result
      shares bytes with the 50 that are still owned. */
  lemma OverlapTrace()
    ensures var (r1, ok1) := AllocSolo(Empty(100), 90);
            var (r2, ok2) := AllocSolo(r1, 10);
            var r3 := ReleaseSolo(r2, 0);
            var (r4, ok4) := AllocSolo(r3, 50);
            var (r5, ok5) := AllocSolo(r4, 60);
            ok1 && ok2 && ok4 && ok5 && WrapsWhileSpanning(r4, 60) &&
            var x, y := r5.At(r4.tail - 1), r5.At(r5.tail - 1);
            x.refs == 1 && y.refs == 1 && !Apart(x.start, x.end, y.start, y.end)
  {
    var r0 := Empty(100);
    var r1 := AllocSolo(r0, 90).0;
    assert r1 == r0.Put(0, Slot(0, 90, 1, false)).(tail := 1, write := 90);
    var r2 := AllocSolo(r1, 10).0;
    assert r2 == r1.Put(1, Slot(90, 100, 1, false)).(tail := 2, write := 100);
    var r2' := r2.Put(0, Slot(0, 90, 0, false));
    AdvanceStops(r2');
    var r3 := ReleaseSolo(r2, 0);
    assert r3 == r2'.(head := 1);
    var w3 := Wrapped(r3);
    assert w3.At(1) == Slot(90, 100, 1, false);
    var r4 := AllocSolo(r3, 50).0;
    assert r4 == w3.Put(3, Slot(0, 50, 1, false)).(tail := 4, write := 50);
    var w4 := Wrapped(r4);
    assert w4.At(1) == Slot(90, 100, 1, false) && w4.At(3) == Slot(0, 50, 1, false);
    var r5 := AllocSolo(r4, 60).0;
    assert r5 == w4.Put(5, Slot(0, 60, 1, false)).(tail := 6, write := 60);
    assert r5.At(3) == Slot(0, 50, 1, false);
  }

  // ----- The classes -----

  /** RingAlloc with its slab, and its table and cursors updated in place. */
  class RingAlloc {
    const cap: nat
    const slab: array<byte>
    const slots: array<Slot>
    var head: nat
    var tail: nat
    var write: int
    var lastWaste: int

    ghost predicate Valid()
      reads this, slots
    {
      slots.Length == SLOTS && head <= tail <= head + SLOTS && slab.Length == cap && 0 <= write <= cap
    }

    ghost function View(): (r: Ring)
      reads this, slots
      requires Valid()
      ensures r.WellSized()
    {
      Ring(cap, slots[..], head, tail, write, lastWaste)
    }

    constructor (size: nat)
      ensures Valid() && fresh(slots) && fresh(slab) && View() == Empty(size) && cap == size
    {
      cap := size;
      slab := new byte[size](_ => 0);
      slots := new Slot[SLOTS](_ => Slot(0, 0, 0, false));
      head, tail, write, lastWaste := 0, 0, 0, -1;
      new;
      assert slots[..] == Empty(size).slots;
    }

    method ReadCursor() returns (read: int)
      requires Valid()
      ensures read == Cursor(View(), head)
    {
      if head == tail { read := write; } else { read := slots[head % SLOTS].start; }
    }

    /** The dead bytes before the slab end become a waste entry. */
    method Wrap()
      requires Valid() && tail - head < SLOTS
      modifies this, slots
      ensures Valid() && View() == Wrapped(old(View()))
    {
      slots[tail % SLOTS] := Slot(write, cap, 0, true);
      lastWaste := tail;
      tail := tail + 1;
      write := 0;
    }

    /** Takes the n bytes from the write cursor on, if they are free. */
    method Place(n: int) returns (ok: bool, start: int)
      requires Valid() && 0 < n && write + n <= cap
      modifies this, slots
      ensures Valid() && (View(), ok) == PlaceSolo(old(View()), n)
      ensures 0 <= start && start + n <= cap
      ensures ok ==> tail == old(tail) + 1 && View().At(tail - 1) == Slot(start, start + n, 1, false)
    {
      hide RegionFree;
      ok, start := false, write;
      var read := ReadCursor();
      if start == read && head < tail { return; }
      if !RegionFree(write, start, start + n, read) { return; }
      if tail - head >= SLOTS { return; }
      slots[tail % SLOTS] := Slot(start, start + n, 1, false);
      write := start + n;
      tail := tail + 1;
      ok := true;
    }

    /** On success the new index is tail - 1 and its bytes are [start, start + n). */
    method Alloc(n: int) returns (ok: bool, start: int)
      requires Valid()
      modifies this, slots
      ensures Valid()
      ensures (View(), ok) == AllocSolo(old(View()), n)
      ensures ok ==> tail > old(tail) && View().At(tail - 1) == Slot(start, start + n, 1, false)
      ensures ok ==> 0 <= start && start + n <= cap
    {
      hide PlaceSolo, Wrapped;
      ok, start := false, 0;
      if n <= 0 || n > cap { return; }
      if write + n > cap {
        if tail - head >= SLOTS - 1 { return; }
        Wrap();
        WrappedFields(old(View()));
      }
      ok, start := Place(n);
    }

    method Extend(idx: nat, n: int) returns (ok: bool)
      requires Valid()
      modifies this, slots
      ensures Valid()
      ensures (View(), ok) == ExtendSolo(old(View()), idx, n)
    {
      ok := false;
      if n <= 0 { return; }
      var x := slots[idx % SLOTS];
      if write != x.end || x.end + n > cap { return; }
      var read := ReadCursor();
      if x.end == read && head < tail { return; }
      if !RegionFree(write, x.end, x.end + n, read) { return; }
      slots[idx % SLOTS] := x.(end := x.end + n);
      write := x.end + n;
      ok := true;
    }

    method Retain(idx: nat)
      requires Valid()
      modifies slots
      ensures Valid() && View() == old(View()).Put(idx, old(View()).At(idx).(refs := old(View()).At(idx).refs + 1))
    {
      slots[idx % SLOTS] := slots[idx % SLOTS].(refs := slots[idx % SLOTS].refs + 1);
    }

    /** The source panics when the count is already 0. */
    method Release(idx: nat) returns (panics: bool)
      requires Valid()
      modifies this, slots
      ensures Valid()
      ensures panics == (old(View()).At(idx).refs <= 0)
      ensures !panics ==> View() == ReleaseSolo(old(View()), idx)
    {
      slots[idx % SLOTS] := slots[idx % SLOTS].(refs := slots[idx % SLOTS].refs - 1);
      panics := slots[idx % SLOTS].refs < 0;
      if panics { return; }
      ghost var done := View();
      while true
        invariant Valid()
        invariant AdvanceHead(View()) == AdvanceHead(done)
        decreases tail - head
      {
        if head >= tail { break; }
        if slots[head % SLOTS].refs != 0 { break; }
        head := head + 1;
      }
    }
  }
}
