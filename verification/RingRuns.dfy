/** What holds in every run of the ring protocol, and what holds in every run in which no
    allocation wraps while the window already spans the wrap point. */
module RingRuns {
  import opened RingTable
  import opened RingProtocol

  /** acts is a run from s: every action is enabled where it happens. */
  ghost predicate IsRun(s: State, acts: seq<Action>)
    decreases |acts|
  {
    acts != [] ==> s.ring.WellSized() && Enabled(s, acts[0]) && IsRun(Act(s, acts[0]), acts[1..])
  }

  function After(s: State, acts: seq<Action>): State
    requires IsRun(s, acts)
    decreases |acts|
  {
    if acts == [] then s else After(Act(s, acts[0]), acts[1..])
  }

  lemma InitSafe(cap: nat)
    ensures SlotSafe(Init(cap))
  {
  }

  /** Main result, all interleavings: after any run of one producer and any number of threads
      that each release once, every count in the window equals its outstanding owners, every
      owned index is in the window, the window fits the table, and no Release saw a negative
      count. */
  lemma {:induction false} RunsKeepSlots(s: State, acts: seq<Action>)
    requires SlotSafe(s) && IsRun(s, acts)
    ensures SlotSafe(After(s, acts))
    decreases |acts|
  {
    if acts != [] {
      StepKeepsSlots(s, acts[0]);
      RunsKeepSlots(Act(s, acts[0]), acts[1..]);
    }
  }

  /** head moves past an index only when that index has no owner and count 0. */
  lemma HeadPassesOnlyReleased(s: State, a: Action)
    requires SlotSafe(s) && Enabled(s, a)
    ensures Act(s, a).ring.head == s.ring.head ||
            (Act(s, a).ring.head == s.ring.head + 1 && s.ring.InWindow(s.ring.head) &&
             s.owners[s.ring.head] == 0 && s.ring.At(s.ring.head).refs == 0)
  {
    if a.Proceed? {
      assert ReleaserOk(s.ring, s.rel[a.t]);
    }
  }

  /** The entry a step writes, if any, and what it writes there. */
  lemma WriteFrame(r: Ring, i: nat, x: Slot, idx: nat)
    requires r.WellSized() && r.head <= r.tail <= r.head + SLOTS
    requires r.InWindow(idx) && idx != i && r.head <= i <= r.tail && i < r.head + SLOTS
    ensures r.Put(i, x).At(idx) == r.At(idx)
  {
    PutFrame(r, i, x, r.head, r.tail);
  }

  lemma ProducerLeavesOwned(s: State, idx: nat)
    requires SlotSafe(s) && !s.prod.Idle? && s.owners[idx] > 0
    ensures var x, x' := s.ring.At(idx), ProducerStep(s).ring.At(idx);
            x' == x || (Held(s.prod, idx) == 1 && x' == x.(end := x.end + s.prod.n))
  {
    var r := s.ring;
    assert r.InWindow(idx);
    if s.prod.Wrap1? { WriteFrame(r, r.tail, Slot(r.write, r.cap, 0, true), idx); }
    if s.prod.Place1? { WriteFrame(r, r.tail, Slot(r.write, r.write + s.prod.n, 1, false), idx); }
    if s.prod.Extend2? || s.prod.Extend4? {
      var i := s.prod.idx;
      assert r.InWindow(i);
      if i != idx { WriteFrame(r, i, r.At(i).(end := r.write + s.prod.n), idx); }
    }
  }

  /** An entry with an owner is never rewritten: its start stays, and its end moves only when the
      producer extends that very entry. */
  lemma OwnedEntryStays(s: State, a: Action, idx: nat)
    requires SlotSafe(s) && Enabled(s, a) && s.owners[idx] > 0
    ensures var x, x' := s.ring.At(idx), Act(s, a).ring.At(idx);
            x'.start == x.start && x'.waste == x.waste &&
            (x'.end == x.end || (a.Produce? && Held(s.prod, idx) == 1 && x'.end == x.end + s.prod.n))
  {
    var r := s.ring;
    assert r.InWindow(idx);
    match a
    case Retain(i) => assert r.InWindow(i); if i != idx { WriteFrame(r, i, r.At(i).(refs := r.At(i).refs + 1), idx); }
    case BeginRelease(t, i) => assert r.InWindow(i);
    if i != idx { WriteFrame(r, i, r.At(i).(refs := r.At(i).refs - 1), idx); }
    case Produce => ProducerLeavesOwned(s, idx);
    case _ =>
  }

  // ----- Bytes -----

  /** The assumption of byte-level safety, as a guard on one step: a waste entry is published
      only while the window holds none. */
  predicate Calm(s: State, a: Action) {
    a.Produce? && s.prod.Wrap2? ==> s.ring.lastWaste < s.ring.head
  }

  ghost predicate CalmRun(s: State, acts: seq<Action>)
    requires IsRun(s, acts)
    decreases |acts|
  {
    acts != [] ==> Calm(s, acts[0]) && CalmRun(Act(s, acts[0]), acts[1..])
  }

  /** Where the layout the producer relies on begins: at the head it loaded for its read cursor. */
  function Anchor(prod: Producer, head: nat): nat {
    match prod
    case Alloc4(_, _, _, cur) => cur
    case Wrap5(_, _, _, cur) => cur
    case Extend2(_, _, cur) => cur
    case Extend3(_, _, cur, _) => cur
    case Extend4(_, _, cur, _, _) => cur
    case _ => head
  }

  /** The window is laid out without overlap as seen from the producer's cursor, however stale,
      and what the producer is about to place fits. */
  ghost predicate Sound(r: Ring, prod: Producer) {
    && Chain(r, Anchor(prod, r.head))
    && (prod.Place1? || prod.Place2? ==> Fits(r, r.head, prod.n))
  }

  ghost predicate BytesSafe(s: State) {
    SlotSafe(s) && Sound(s.ring, s.prod)
  }

  /** The producer's anchor is at or before head. */
  lemma AnchorBehind(s: State)
    requires SlotSafe(s)
    ensures Anchor(s.prod, s.ring.head) <= s.ring.head
  {
  }

  /** Layout and fit depend on the bounds of the window alone. */
  lemma SoundFrame(r: Ring, r': Ring, prod: Producer)
    requires Sound(r, prod) && r'.WellSized() && Anchor(prod, r.head) <= r.head <= r.tail
    requires r'.cap == r.cap && r'.head == r.head && r'.tail == r.tail && r'.write == r.write &&
               r'.lastWaste == r.lastWaste
    requires forall j: nat {:trigger r'.At(j)} ::
               Anchor(prod, r.head) <= j < r.tail ==> Bounds(r'.At(j)) == Bounds(r.At(j))
    ensures Sound(r', prod)
  {
    WindowFrame(r, r', Anchor(prod, r.head));
    WindowFrame(r, r', r.head);
    assert LayoutOf(r', Anchor(prod, r.head)) == LayoutOf(r, Anchor(prod, r.head));
    assert LayoutOf(r', r.head) == LayoutOf(r, r.head);
  }

  lemma CountKeepsBytes(s: State, a: Action)
    requires BytesSafe(s) && Enabled(s, a) && (a.Retain? || a.BeginRelease?)
    ensures BytesSafe(Act(s, a))
  {
    CountStep(s, a);
    AnchorBehind(s);
    var r := s.ring;
    assert r.InWindow(a.idx);
    var x := r.At(a.idx).(refs := r.At(a.idx).refs + (if a.Retain? then 1 else -1));
    PutFrame(r, a.idx, x, Anchor(s.prod, r.head), r.tail);
    SoundFrame(r, r.Put(a.idx, x), s.prod);
    assert Act(s, a).ring == r.Put(a.idx, x) && Act(s, a).prod == s.prod;
  }

  lemma HeadMovesKeepsChain(r: Ring, anchor: nat)
    requires Chain(r, anchor) && anchor <= r.head < r.tail
    ensures Chain(r.(head := r.head + 1), anchor)
    ensures Chain(r.(head := r.head + 1), r.head + 1)
  {
    var r' := r.(head := r.head + 1);
    WindowFrame(r, r', anchor);
    assert LayoutOf(r', anchor) == LayoutOf(r, anchor);
    ChainSuffix(r', anchor, r.head + 1);
  }

  lemma HeadMovesKeepsFits(r: Ring, n: int)
    requires Chain(r, r.head) && Fits(r, r.head, n) && r.head < r.tail
    ensures Fits(r.(head := r.head + 1), r.head + 1, n)
  {
    FitsSuffix(r, r.head, r.head + 1, n);
    WindowFrame(r, r.(head := r.head + 1), r.head + 1);
  }

  lemma HeadMovesKeepsSound(r: Ring, prod: Producer)
    requires Sound(r, prod) && Anchor(prod, r.head) <= r.head < r.tail
    ensures Sound(r.(head := r.head + 1), prod)
  {
    HeadMovesKeepsChain(r, Anchor(prod, r.head));
    if prod.Place1? || prod.Place2? { HeadMovesKeepsFits(r, prod.n); }
  }

  lemma SwapKeepsBytes(s: State, t: nat)
    requires BytesSafe(s) && t in s.rel && s.rel[t].Swap? && s.ring.head == s.rel[t].h
    ensures BytesSafe(Act(s, Proceed(t)))
  {
    SwapWins(s, t);
    AnchorBehind(s);
    assert ReleaserOk(s.ring, s.rel[t]);
    HeadMovesKeepsSound(s.ring, s.prod);
    assert Act(s, Proceed(t)) == s.(ring := s.ring.(head := s.ring.head + 1), rel := s.rel[t := Top]);
  }

  lemma LookKeepsBytes(s: State, t: nat)
    requires BytesSafe(s) && t in s.rel && !(s.rel[t].Swap? && s.ring.head == s.rel[t].h)
    ensures BytesSafe(Act(s, Proceed(t)))
  {
    ReleaserLooks(s, t);
    assert Act(s, Proceed(t)) == s.(rel := Act(s, Proceed(t)).rel);
  }

  /** A placement decided from a stale cursor fits the window as it is now. */
  lemma PlaceDecisionFits(s: State, n: int, head: nat, tail: nat, cur: nat)
    requires SlotSafe(s) && Chain(s.ring, cur) && cur <= s.ring.head
    requires head <= cur && tail == s.ring.tail
    requires 0 < n && s.ring.write + n <= s.ring.cap
    requires DecidePlace(s.ring, n, head, tail, Cursor(s.ring, cur)).Place1?
    ensures Fits(s.ring, s.ring.head, n)
  {
    TestedFits(s.ring, cur, Cursor(s.ring, cur), n);
    FitsSuffix(s.ring, cur, s.ring.head, n);
  }

  lemma LoadKeepsBytes(s: State)
    requires BytesSafe(s) && !s.prod.Idle? && IsLocal(s.prod)
    ensures BytesSafe(ProducerStep(s))
  {
    ProducerKeepsSlots(s);
    LocalStep(s);
    AnchorBehind(s);
    var s' := ProducerStep(s);
    if s.prod.Alloc4? || s.prod.Wrap5? {
      ChainSuffix(s.ring, s.prod.cur, s.ring.head);
      if s'.prod.Place1? { PlaceDecisionFits(s, s.prod.n, s.prod.head, s.prod.tail, s.prod.cur); }
    }
  }

  lemma StoreKeepsBytes(s: State)
    requires BytesSafe(s) && (s.prod.Wrap1? || s.prod.Place1?)
    ensures BytesSafe(ProducerStep(s))
  {
    StoreStep(s);
    var r := s.ring;
    var x := if s.prod.Wrap1? then Slot(r.write, r.cap, 0, true) else Slot(r.write, r.write + s.prod.n, 1, false);
    PutFrame(r, r.tail, x, r.head, r.tail);
    SoundFrame(r, r.Put(r.tail, x), s.prod);
    assert ProducerStep(s).ring == r.Put(r.tail, x);
  }

  lemma PublishKeepsBytes(s: State)
    requires BytesSafe(s) && (s.prod.Wrap2? || s.prod.Place2?) && Calm(s, Produce)
    ensures BytesSafe(ProducerStep(s))
  {
    PublishStep(s);
    var r := s.ring;
    if s.prod.Wrap2? {
      WastedChain(r, r.head, r.(tail := r.tail + 1, write := 0, lastWaste := r.tail));
    } else {
      PlacedChain(r, r.head, s.prod.n, r.(tail := r.tail + 1, write := r.write + s.prod.n));
    }
  }

  /** The extended entry is the newest, and growing it keeps the window laid out. */
  lemma GrowKeepsChain(s: State, idx: nat, n: int, cur: nat)
    requires SlotSafe(s) && ExtendOk(s, idx, n) && cur <= s.ring.head && Chain(s.ring, cur)
    requires var read := Cursor(s.ring, cur);
             s.ring.write != read && RegionFree(s.ring.write, s.ring.write, s.ring.write + n, read)
    ensures idx == s.ring.tail - 1
    ensures Chain(s.ring.Put(idx, s.ring.At(idx).(end := s.ring.write + n)).(write := s.ring.write + n), s.ring.head)
  {
    var r := s.ring;
    assert r.InWindow(idx) && !r.At(idx).waste;
    ChainSuffix(r, cur, r.head);
    EndAtWriteIsNewest(r, r.head, idx);
    TestedFits(r, cur, Cursor(r, cur), n);
    FitsSuffix(r, cur, r.head, n);
    GrownChain(r, r.head, n, r.Put(idx, r.At(idx).(end := r.write + n)).(write := r.write + n));
  }

  /** What Extend decides: nothing changes, or the entry grows because the region test held in a
      ring that is not full. */
  lemma ExtendDecides(s: State)
    requires SlotSafe(s) && (s.prod.Extend2? || s.prod.Extend4?)
    ensures var r, idx, n, read, s' := s.ring, s.prod.idx, s.prod.n, Cursor(s.ring, s.prod.cur), ProducerStep(s);
            || (s'.ring == r && (s'.prod.Idle? || (s'.prod.Extend3? && s'.prod.cur == s.prod.cur)))
            || (&& s'.prod.Idle? && s'.ring == r.Put(idx, r.At(idx).(end := r.write + n)).(write := r.write + n)
                && r.write != read && RegionFree(r.write, r.write, r.write + n, read))
  {
    assert s.ring.InWindow(s.prod.idx);
  }

  lemma ExtendKeepsBytes(s: State)
    requires BytesSafe(s) && (s.prod.Extend2? || s.prod.Extend4?)
    ensures BytesSafe(ProducerStep(s))
  {
    ExtendStep(s);
    ExtendDecides(s);
    var s' := ProducerStep(s);
    hide Chain, Fits, ProducerStep, TableSafe;
    if s'.ring == s.ring {
      ChainSuffix(s.ring, s.prod.cur, s.ring.head);
    } else {
      GrowKeepsChain(s, s.prod.idx, s.prod.n, s.prod.cur);
    }
  }

  lemma BeginKeepsBytes(s: State, a: Action)
    requires BytesSafe(s) && Enabled(s, a) && (a.BeginAlloc? || a.BeginExtend?)
    ensures BytesSafe(Act(s, a))
  {
    BeginStep(s, a);
    assert Act(s, a).ring == s.ring;
  }

  /** Main byte-level result, one step: a calm step of any thread keeps the window laid out. */
  lemma StepKeepsBytes(s: State, a: Action)
    requires BytesSafe(s) && Enabled(s, a) && Calm(s, a)
    ensures BytesSafe(Act(s, a))
  {
    match a
    case Produce =>
      if IsLocal(s.prod) { LoadKeepsBytes(s); }
      else if s.prod.Wrap1? || s.prod.Place1? { StoreKeepsBytes(s); }
      else if s.prod.Wrap2? || s.prod.Place2? { PublishKeepsBytes(s); }
      else { ExtendKeepsBytes(s); }
    case Proceed(t) =>
      if s.rel[t].Swap? && s.ring.head == s.rel[t].h { SwapKeepsBytes(s, t); } else { LookKeepsBytes(s, t); }
    case Retain(_) => CountKeepsBytes(s, a);
    case BeginRelease(_, _) => CountKeepsBytes(s, a);
    case _ => BeginKeepsBytes(s, a);
  }

  lemma InitBytesSafe(cap: nat)
    ensures BytesSafe(Init(cap))
  {
  }

  lemma {:induction false} CalmRunsKeepBytes(s: State, acts: seq<Action>)
    requires BytesSafe(s) && IsRun(s, acts) && CalmRun(s, acts)
    ensures BytesSafe(After(s, acts))
    decreases |acts|
  {
    if acts != [] {
      StepKeepsBytes(s, acts[0]);
      CalmRunsKeepBytes(Act(s, acts[0]), acts[1..]);
    }
  }

  lemma OwnedApart(s: State, i: nat, j: nat)
    requires BytesSafe(s) && i < j && s.owners[i] > 0 && s.owners[j] > 0
    ensures var r := s.ring;
            0 <= r.At(i).start < r.At(i).end <= r.cap && 0 <= r.At(j).start < r.At(j).end <= r.cap &&
            Apart(r.At(i).start, r.At(i).end, r.At(j).start, r.At(j).end)
  {
    var r := s.ring;
    AnchorBehind(s);
    assert r.InWindow(i) && r.InWindow(j) && !r.At(i).waste && !r.At(j).waste;
    ChainApart(r, Anchor(s.prod, r.head), i, j);
  }

  /** Main result: after every calm run, two allocations that still have owners share no byte
      and lie inside the slab, however stale the cursors the producer decided from. */
  lemma OwnedBytesAreDisjoint(cap: nat, acts: seq<Action>, i: nat, j: nat)
    requires IsRun(Init(cap), acts) && CalmRun(Init(cap), acts)
    requires i < j && After(Init(cap), acts).owners[i] > 0 && After(Init(cap), acts).owners[j] > 0
    ensures var r := After(Init(cap), acts).ring;
            r.WellSized() &&
            0 <= r.At(i).start < r.At(i).end <= cap && 0 <= r.At(j).start < r.At(j).end <= cap &&
            Apart(r.At(i).start, r.At(i).end, r.At(j).start, r.At(j).end)
  {
    InitBytesSafe(cap);
    CalmRunsKeepBytes(Init(cap), acts);
    CapStays(Init(cap), acts);
    OwnedApart(After(Init(cap), acts), i, j);
  }

  lemma {:induction false} CapStays(s: State, acts: seq<Action>)
    requires IsRun(s, acts)
    ensures After(s, acts).ring.cap == s.ring.cap
    decreases |acts|
  {
    if acts != [] { CapStays(Act(s, acts[0]), acts[1..]); }
  }

  // ----- No reclaim is lost -----

  /** The thread will still look at index head before it leaves Release. */
  predicate WillLook(c: Releaser, head: nat) {
    match c
    case Top => true
    case Loaded(h) => h == head
    case Checked(h) => h == head
    case Swap(h) => h == head
  }

  /** Index i is an allocation that nothing in front of it holds back any more: it and all before it
      are released. */
  ghost predicate Due(r: Ring, i: nat)
    requires r.WellSized()
  {
    r.InWindow(i) && !r.At(i).waste && forall j: nat {:trigger r.At(j)} :: r.head <= j <= i ==> r.At(j).refs == 0
  }

  ghost predicate Watched(rel: map<nat, Releaser>, head: nat) {
    exists t: nat :: t in rel && WillLook(rel[t], head)
  }

  /** While an allocation is due some thread in Release will still look at head. */
  ghost predicate NoneLost(s: State)
    requires s.ring.WellSized()
  {
    (exists i: nat :: Due(s.ring, i)) ==> Watched(s.rel, s.ring.head)
  }

  /** What one step does to an entry of the window when it does not move head. */
  lemma EntryFrame(s: State, a: Action, j: nat)
    requires SlotSafe(s) && Enabled(s, a) && Act(s, a).ring.head == s.ring.head && s.ring.InWindow(j)
    ensures s.ring.tail <= Act(s, a).ring.tail
    ensures var x, x' := s.ring.At(j), Act(s, a).ring.At(j);
            x'.waste == x.waste &&
            (x'.refs == x.refs || (a.Retain? && x'.refs == x.refs + 1) || (a.BeginRelease? && x'.refs == x.refs - 1))
  {
    var r := s.ring;
    match a
    case Retain(i) => assert r.InWindow(i); PutFrame(r, i, r.At(i).(refs := r.At(i).refs + 1), r.head, r.tail);
    case BeginRelease(t, i) => assert r.InWindow(i); PutFrame(r, i, r.At(i).(refs := r.At(i).refs - 1), r.head, r.tail);
    case Produce =>
      if s.prod.Wrap1? { PutFrame(r, r.tail, Slot(r.write, r.cap, 0, true), r.head, r.tail); }
      if s.prod.Place1? { PutFrame(r, r.tail, Slot(r.write, r.write + s.prod.n, 1, false), r.head, r.tail); }
      if s.prod.Extend2? || s.prod.Extend4? {
        var i := s.prod.idx;
        assert r.InWindow(i);
        PutFrame(r, i, r.At(i).(end := r.write + s.prod.n), r.head, r.tail);
      }
    case _ =>
  }

  lemma ReleaseKeepsWatch(s: State, t: nat, u: nat)
    requires SlotSafe(s) && t in s.rel && Act(s, Proceed(t)).ring.head == s.ring.head < s.ring.tail
    requires s.ring.At(s.ring.head).refs == 0
    requires u in s.rel && WillLook(s.rel[u], s.ring.head)
    ensures u in Act(s, Proceed(t)).rel && WillLook(Act(s, Proceed(t)).rel[u], s.ring.head)
  {
    assert ReleaserOk(s.ring, s.rel[t]);
  }

  /** A Release in flight is still in flight, and still going to look, after anything but its own step. */
  lemma OthersKeepWatch(s: State, a: Action, u: nat)
    requires SlotSafe(s) && Enabled(s, a) && !a.Proceed?
    requires u in s.rel && WillLook(s.rel[u], s.ring.head)
    ensures Act(s, a).panicked || (u in Act(s, a).rel && WillLook(Act(s, a).rel[u], s.ring.head))
  {
  }

  /** What a step publishes has an owner or is waste, so it is not due. */
  lemma PublishedIsNotDue(s: State, a: Action, i: nat)
    requires SlotSafe(s) && Enabled(s, a) && Act(s, a).ring.head == s.ring.head
    requires Act(s, a).ring.WellSized() && Due(Act(s, a).ring, i)
    ensures s.ring.InWindow(i)
  {
    if Act(s, a).ring.tail != s.ring.tail {
      assert Act(s, a).ring.At(s.ring.tail) == s.ring.At(s.ring.tail);
    }
  }

  /** An allocation becomes due by a decrement alone. */
  lemma WasDue(s: State, a: Action, i: nat)
    requires SlotSafe(s) && Enabled(s, a) && Act(s, a).ring.head == s.ring.head && !a.BeginRelease?
    requires Act(s, a).ring.WellSized() && Due(Act(s, a).ring, i) && s.ring.InWindow(i)
    requires SlotSafe(Act(s, a))
    ensures Due(s.ring, i)
  {
    var r, r' := s.ring, Act(s, a).ring;
    forall j: nat | r.head <= j <= i ensures r.At(j).refs == 0 && r'.At(j).waste == r.At(j).waste {
      EntryFrame(s, a, j);
      assert r'.At(j).refs == 0 && r.InWindow(j);
    }
  }

  lemma HeadStaysKeepsNoneLost(s: State, a: Action, i: nat)
    requires SlotSafe(s) && NoneLost(s) && Enabled(s, a) && SlotSafe(Act(s, a))
    requires Act(s, a).ring.head == s.ring.head && Due(Act(s, a).ring, i)
    ensures Watched(Act(s, a).rel, s.ring.head)
  {
    var s' := Act(s, a);
    PublishedIsNotDue(s, a, i);
    if a.BeginRelease? {
      assert a.t in s'.rel && WillLook(s'.rel[a.t], s'.ring.head);
    } else {
      WasDue(s, a, i);
      var u: nat :| u in s.rel && WillLook(s.rel[u], s.ring.head);
      if a.Proceed? {
        assert s.ring.At(s.ring.head).refs == 0;
        ReleaseKeepsWatch(s, a.t, u);
      } else {
        OthersKeepWatch(s, a, u);
      }
      assert u in s'.rel && WillLook(s'.rel[u], s'.ring.head);
    }
  }

  lemma StepKeepsNoneLost(s: State, a: Action)
    requires SlotSafe(s) && NoneLost(s) && Enabled(s, a)
    ensures SlotSafe(Act(s, a)) && NoneLost(Act(s, a))
  {
    hide SlotSafe, Due;
    SafeIsSized(s);
    StepKeepsSlots(s, a);
    SafeIsSized(Act(s, a));
    HeadPassesOnlyReleased(s, a);
    var s' := Act(s, a);
    if s'.ring.head != s.ring.head {
      OnlyReleaseMovesHead(s, a);
    } else {
      forall i: nat | Due(s'.ring, i) ensures Watched(s'.rel, s'.ring.head) {
        HeadStaysKeepsNoneLost(s, a, i);
      }
    }
  }

  lemma SafeIsSized(s: State)
    requires SlotSafe(s)
    ensures s.ring.WellSized()
  {
  }

  lemma OnlyReleaseMovesHead(s: State, a: Action)
    requires SlotSafe(s) && Enabled(s, a) && Act(s, a).ring.head != s.ring.head
    ensures Watched(Act(s, a).rel, Act(s, a).ring.head)
  {
    assert a.t in Act(s, a).rel && WillLook(Act(s, a).rel[a.t], Act(s, a).ring.head);
  }

  lemma {:induction false} RunsLoseNothing(s: State, acts: seq<Action>)
    requires SlotSafe(s) && NoneLost(s) && IsRun(s, acts)
    ensures SlotSafe(After(s, acts)) && NoneLost(After(s, acts))
    decreases |acts|
  {
    if acts != [] {
      StepKeepsNoneLost(s, acts[0]);
      RunsLoseNothing(Act(s, acts[0]), acts[1..]);
    }
  }

  /** An index from head to i has an owner. */
  ghost predicate OwnedUpTo(s: State, i: nat) {
    exists j: nat :: s.ring.head <= j <= i && s.owners[j] > 0
  }

  /** Main result: whenever no Release is in flight, an index in front of every allocation still in the
      window, or its own, has an owner; whatever order the decrements and swaps took. So no released
      allocation stands in front of the first that is owned. */
  lemma QuietMeansReclaimed(cap: nat, acts: seq<Action>)
    requires IsRun(Init(cap), acts) && After(Init(cap), acts).rel == map[]
    ensures var s := After(Init(cap), acts);
            s.ring.WellSized() &&
            (forall i: nat {:trigger s.ring.At(i)} :: s.ring.InWindow(i) && !s.ring.At(i).waste ==>
               OwnedUpTo(s, i))
    ensures var s := After(Init(cap), acts);
            s.ring.head == s.ring.tail || s.owners[s.ring.head] > 0 || s.ring.At(s.ring.head).waste
  {
    hide SlotSafe, NoneLost, After, IsRun;
    InitSafe(cap);
    InitLosesNothing(cap);
    RunsLoseNothing(Init(cap), acts);
    QuietClears(After(Init(cap), acts));
  }

  lemma QuietClears(s: State)
    requires SlotSafe(s) && NoneLost(s) && s.rel == map[]
    ensures s.ring.WellSized()
    ensures forall i: nat {:trigger s.ring.At(i)} :: s.ring.InWindow(i) && !s.ring.At(i).waste ==>
              OwnedUpTo(s, i)
    ensures s.ring.head == s.ring.tail || s.owners[s.ring.head] > 0 || s.ring.At(s.ring.head).waste
  {
    SafeIsSized(s);
    hide SlotSafe, NoneLost;
    forall i: nat | s.ring.InWindow(i) && !s.ring.At(i).waste ensures OwnedUpTo(s, i) {
      var j := QuietOwned(s, i);
    }
    HeadOwned(s);
    WindowStarts(s);
  }

  lemma HeadOwned(s: State)
    requires SlotSafe(s)
    ensures s.ring.head < s.ring.tail && OwnedUpTo(s, s.ring.head) ==> s.owners[s.ring.head] > 0
  {
  }

  lemma WindowStarts(s: State)
    requires SlotSafe(s)
    ensures s.ring.head <= s.ring.tail
  {
  }

  lemma InitLosesNothing(cap: nat)
    ensures NoneLost(Init(cap))
  {
  }

  lemma QuietOwned(s: State, i: nat) returns (j: nat)
    requires SlotSafe(s) && NoneLost(s) && s.rel == map[] && s.ring.InWindow(i) && !s.ring.At(i).waste
    ensures s.ring.head <= j <= i && s.owners[j] > 0
  {
    assert !Due(s.ring, i);
    j :| s.ring.head <= j <= i && s.ring.At(j).refs != 0;
    assert s.ring.InWindow(j);
  }
}
