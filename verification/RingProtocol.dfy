/** utils/buffer/ring_alloc.go as a concurrent protocol: one producer inside Alloc or Extend, any
    number of threads inside Release, and every atomic load, store, add and compare-and-swap a
    step of its own. The producer alone reads and writes write and the byte bounds of entries, so
    those plain accesses ride along with the atomic step next to them. */
module RingProtocol {
  import opened RingTable

  /** Where the producer stands; each value carries the locals that are still needed. */
  datatype Producer =
    | Idle
    | Alloc1(n: int)                                        // next: load head
    | Alloc2(n: int, head: nat)                             // next: load tail
    | Alloc3(n: int, head: nat, tail: nat)                  // readCursor, next: load head
    | Alloc4(n: int, head: nat, tail: nat, cur: nat)        // readCursor, next: load tail, decide
    | Wrap1(n: int, tail: nat)                              // next: store the waste entry
    | Wrap2(n: int, tail: nat)                              // next: publish it
    | Wrap3(n: int, tail: nat)                              // next: reload head
    | Wrap4(n: int, tail: nat, head: nat)                   // readCursor, next: load head
    | Wrap5(n: int, tail: nat, head: nat, cur: nat)         // readCursor, next: load tail, decide
    | Place1(n: int, tail: nat)                             // next: store the entry
    | Place2(n: int, tail: nat)                             // next: publish it, return the handle
    | Extend1(idx: nat, n: int)                             // readCursor, next: load head
    | Extend2(idx: nat, n: int, cur: nat)                   // readCursor, next: load tail
    | Extend3(idx: nat, n: int, cur: nat, read: int)        // full-ring guard, next: load head
    | Extend4(idx: nat, n: int, cur: nat, read: int, head: nat) // next: load tail, decide

  /** Where a thread stands in the loop of Release, after its decrement. */
  datatype Releaser =
    | Top              // next: load head
    | Loaded(h: nat)   // next: load tail
    | Checked(h: nat)  // next: load the refs of h
    | Swap(h: nat)     // next: compare-and-swap head from h to h + 1

  /** owners counts the owners of every allocation that have not begun their Release; panicked
      records that a Release saw a negative count. */
  datatype State = State(ring: Ring, prod: Producer, rel: map<nat, Releaser>, owners: multiset<nat>, panicked: bool)

  datatype Action =
    | BeginAlloc(n: int)
    | BeginExtend(idx: nat, n: int)
    | Produce                        // the producer's next step
    | Retain(idx: nat)
    | BeginRelease(t: nat, idx: nat) // thread t's decrement
    | Proceed(t: nat)                // thread t's next step in the loop

  function Init(cap: nat): State {
    State(Empty(cap), Idle, map[], multiset{}, false)
  }

  /** The producer keeps its own handle of the packet it is extending. */
  function Held(p: Producer, idx: nat): nat {
    if IsExtending(p) && p.idx == idx then 1 else 0
  }

  /** Every owner releases once, a clone is made by an owner, and the producer is one thread. */
  predicate Enabled(s: State, a: Action) {
    match a
    case BeginAlloc(n) => s.prod.Idle?
    case BeginExtend(idx, n) => s.prod.Idle? && s.owners[idx] > 0
    case Produce => !s.prod.Idle?
    case Retain(idx) => s.owners[idx] > 0
    case BeginRelease(t, idx) => t !in s.rel && s.owners[idx] > Held(s.prod, idx)
    case Proceed(t) => t in s.rel
  }

  // ----- The steps -----

  /** The rest of Alloc once the read cursor is known: the full-ring guard, the region test and
      the slot-count test, none of which touches shared memory. */
  function DecidePlace(r: Ring, n: int, head: nat, tail: nat, read: int): Producer {
    if r.write == read && head < tail then Idle
    else if !RegionFree(r.write, r.write, r.write + n, read) then Idle
    else if tail - head >= SLOTS then Idle
    else Place1(n, tail)
  }

  function Cursor(r: Ring, cur: nat): int
    requires r.WellSized()
  {
    if cur == r.tail then r.write else r.At(cur).start
  }

  function ProducerStep(s: State): State
    requires s.ring.WellSized()
  {
    var r := s.ring;
    match s.prod
    case Idle => s
    case Alloc1(n) => s.(prod := Alloc2(n, r.head))
    case Alloc2(n, head) => s.(prod := Alloc3(n, head, r.tail))
    case Alloc3(n, head, tail) => s.(prod := Alloc4(n, head, tail, r.head))
    case Alloc4(n, head, tail, cur) =>
      if r.write + n > r.cap then
        if tail - head >= SLOTS - 1 then s.(prod := Idle) else s.(prod := Wrap1(n, tail))
      else
        s.(prod := DecidePlace(r, n, head, tail, Cursor(r, cur)))
    case Wrap1(n, tail) =>
      s.(ring := r.Put(tail, Slot(r.write, r.cap, 0, true)), prod := Wrap2(n, tail))
    case Wrap2(n, tail) =>
      s.(ring := r.(tail := r.tail + 1, write := 0, lastWaste := r.tail), prod := Wrap3(n, tail + 1))
    case Wrap3(n, tail) => s.(prod := Wrap4(n, tail, r.head))
    case Wrap4(n, tail, head) => s.(prod := Wrap5(n, tail, head, r.head))
    case Wrap5(n, tail, head, cur) => s.(prod := DecidePlace(r, n, head, tail, Cursor(r, cur)))
    case Place1(n, tail) =>
      s.(ring := r.Put(tail, Slot(r.write, r.write + n, 1, false)), prod := Place2(n, tail))
    case Place2(n, tail) =>
      s.(ring := r.(tail := r.tail + 1, write := r.write + n), prod := Idle, owners := s.owners + multiset{tail})
    case Extend1(idx, n) => s.(prod := Extend2(idx, n, r.head))
    case Extend2(idx, n, cur) =>
      var read := Cursor(r, cur);
      if r.write == read then s.(prod := Extend3(idx, n, cur, read)) else ExtendDecide(s, idx, n, read)
    case Extend3(idx, n, cur, read) => s.(prod := Extend4(idx, n, cur, read, r.head))
    case Extend4(idx, n, cur, read, head) =>
      if head < r.tail then s.(prod := Idle) else ExtendDecide(s, idx, n, read)
  }

  function ExtendDecide(s: State, idx: nat, n: int, read: int): State
    requires s.ring.WellSized()
  {
    var r := s.ring;
    if !RegionFree(r.write, r.write, r.write + n, read) then s.(prod := Idle)
    else s.(ring := r.Put(idx, r.At(idx).(end := r.write + n)).(write := r.write + n), prod := Idle)
  }

  function Act(s: State, a: Action): State
    requires s.ring.WellSized() && Enabled(s, a)
  {
    var r := s.ring;
    match a
    case BeginAlloc(n) => if n <= 0 || n > r.cap then s else s.(prod := Alloc1(n))
    case BeginExtend(idx, n) =>
      if n <= 0 || r.write != r.At(idx).end || r.At(idx).end + n > r.cap then s else s.(prod := Extend1(idx, n))
    case Produce => ProducerStep(s)
    case Retain(idx) =>
      s.(ring := r.Put(idx, r.At(idx).(refs := r.At(idx).refs + 1)), owners := s.owners + multiset{idx})
    case BeginRelease(t, idx) =>
      var refs := r.At(idx).refs - 1;
      var s' := s.(ring := r.Put(idx, r.At(idx).(refs := refs)), owners := s.owners - multiset{idx});
      if refs < 0 then s'.(panicked := true) else s'.(rel := s.rel[t := Top])
    case Proceed(t) =>
      match s.rel[t]
      case Top => s.(rel := s.rel[t := Loaded(r.head)])
      case Loaded(h) => s.(rel := if h >= r.tail then s.rel - {t} else s.rel[t := Checked(h)])
      case Checked(h) => s.(rel := if r.At(h).refs != 0 then s.rel - {t} else s.rel[t := Swap(h)])
      case Swap(h) =>
        var s' := s.(rel := s.rel[t := Top]);
        if r.head == h then s'.(ring := r.(head := h + 1)) else s'
  }

  // ----- Slot-level safety, for every interleaving -----

  /** What the producer's locals say about the shared memory now, however stale they are. */
  predicate ProducerOk(s: State)
    requires s.ring.WellSized()
  {
    var r := s.ring;
    match s.prod
    case Idle => true
    case Alloc1(n) => 0 < n <= r.cap
    case Alloc2(n, head) => 0 < n <= r.cap && head <= r.head
    case Alloc3(n, head, tail) => 0 < n <= r.cap && head <= r.head && tail == r.tail
    case Alloc4(n, head, tail, cur) => 0 < n <= r.cap && head <= cur <= r.head && tail == r.tail <= cur + SLOTS
    case Wrap1(n, tail) => 0 < n <= r.cap < r.write + n && tail == r.tail && tail - r.head < SLOTS - 1
    case Wrap2(n, tail) => 0 < n <= r.cap < r.write + n && tail == r.tail && tail - r.head < SLOTS - 1 &&
      r.At(tail) == Slot(r.write, r.cap, 0, true)
    case Wrap3(n, tail) => 0 < n <= r.cap && r.write == 0 && tail == r.tail
    case Wrap4(n, tail, head) => 0 < n <= r.cap && r.write == 0 && tail == r.tail && head <= r.head
    case Wrap5(n, tail, head, cur) => 0 < n <= r.cap && r.write == 0 && tail == r.tail && head <= cur <= r.head &&
      r.tail <= cur + SLOTS
    case Place1(n, tail) => 0 < n && r.write + n <= r.cap && tail == r.tail && tail - r.head < SLOTS
    case Place2(n, tail) => 0 < n && r.write + n <= r.cap && tail == r.tail && tail - r.head < SLOTS &&
      r.At(tail) == Slot(r.write, r.write + n, 1, false)
    case Extend1(idx, n) => ExtendOk(s, idx, n)
    case Extend2(idx, n, cur) => ExtendOk(s, idx, n) && cur <= r.head && r.tail <= cur + SLOTS
    case Extend3(idx, n, cur, read) => ExtendOk(s, idx, n) && cur <= r.head && r.tail <= cur + SLOTS && read == r.write
    case Extend4(idx, n, cur, read, head) =>
      ExtendOk(s, idx, n) && cur <= r.head && r.tail <= cur + SLOTS && read == r.write && head <= r.head
  }

  predicate ExtendOk(s: State, idx: nat, n: int)
    requires s.ring.WellSized()
  {
    s.owners[idx] > 0 && 0 < n && s.ring.write == s.ring.At(idx).end && s.ring.write + n <= s.ring.cap
  }

  predicate ReleaserOk(r: Ring, c: Releaser)
    requires r.WellSized()
  {
    match c
    case Top => true
    case Loaded(h) => h <= r.head
    case Checked(h) => h <= r.head && h < r.tail
    case Swap(h) => h <= r.head && h < r.tail && (h == r.head ==> r.At(h).refs == 0)
  }

  /** The reference count of every index in the window is its number of outstanding owners, no
      index outside the window has an owner, and the window never outgrows the table. */
  ghost predicate TableSafe(r: Ring, rel: map<nat, Releaser>, owners: multiset<nat>) {
    && r.WellSized()
    && r.head <= r.tail <= r.head + SLOTS
    && var counted := forall i: nat {:trigger r.At(i)} :: r.InWindow(i) ==>
         r.At(i).refs == owners[i] && (r.At(i).waste ==> owners[i] == 0);
       var confined := forall i: nat {:trigger owners[i]} :: owners[i] > 0 ==> r.InWindow(i);
       var sane := forall t: nat {:trigger rel[t]} :: t in rel ==> ReleaserOk(r, rel[t]);
       counted && confined && sane
  }

  ghost predicate SlotSafe(s: State) {
    TableSafe(s.ring, s.rel, s.owners) && !s.panicked && ProducerOk(s)
  }

  /** Storing into the entry the tail points at disturbs no index of the window. */
  lemma StoreAtTail(s: State, x: Slot)
    requires TableSafe(s.ring, s.rel, s.owners) && s.ring.tail < s.ring.head + SLOTS
    ensures TableSafe(s.ring.Put(s.ring.tail, x), s.rel, s.owners)
    ensures s.ring.Put(s.ring.tail, x).At(s.ring.tail) == x
  {
    PutFrame(s.ring, s.ring.tail, x, s.ring.head, s.ring.tail);
  }

  lemma Publish(s: State, r': Ring, owners': multiset<nat>)
    requires TableSafe(s.ring, s.rel, s.owners)
    requires s.ring.tail < s.ring.head + SLOTS
    requires r'.slots == s.ring.slots && r'.head == s.ring.head && r'.tail == s.ring.tail + 1
    requires var x := s.ring.At(s.ring.tail);
             if x.waste then x.refs == 0 && owners' == s.owners
             else x.refs == 1 && owners' == s.owners + multiset{s.ring.tail}
    ensures TableSafe(r', s.rel, owners')
  {
    var tail := s.ring.tail;
    assert s.owners[tail] == 0;
    assert forall i: nat {:trigger r'.At(i)} :: r'.At(i) == s.ring.At(i);
  }

  /** Changing only the byte bounds of an entry in the window disturbs no count. */
  lemma Rebound(s: State, idx: nat, end: int, write: int)
    requires TableSafe(s.ring, s.rel, s.owners) && s.ring.InWindow(idx)
    ensures TableSafe(s.ring.Put(idx, s.ring.At(idx).(end := end)).(write := write), s.rel, s.owners)
  {
    var r := s.ring;
    var x := r.At(idx).(end := end);
    PutFrame(r, idx, x, r.head, r.tail);
    var r' := r.Put(idx, x).(write := write);
    assert forall j: nat {:trigger r'.At(j)} :: r'.At(j) == r.Put(idx, x).At(j);
  }

  predicate IsLocal(p: Producer) {
    !(p.Wrap1? || p.Wrap2? || p.Place1? || p.Place2? || p.Extend2? || p.Extend4?)
  }

  predicate IsExtending(p: Producer) {
    p.Extend1? || p.Extend2? || p.Extend3? || p.Extend4?
  }

  /** A step that only loads keeps what the producer knows. */
  lemma AllocLocalStep(s: State)
    requires s.ring.WellSized() && s.ring.head <= s.ring.tail <= s.ring.head + SLOTS
    requires ProducerOk(s) && IsLocal(s.prod) && !IsExtending(s.prod)
    ensures ProducerOk(ProducerStep(s)) && ProducerStep(s) == s.(prod := ProducerStep(s).prod)
  {
  }

  lemma ExtendLocalStep(s: State)
    requires s.ring.WellSized() && s.ring.head <= s.ring.tail <= s.ring.head + SLOTS
    requires ProducerOk(s) && IsLocal(s.prod) && IsExtending(s.prod)
    ensures ProducerOk(ProducerStep(s)) && ProducerStep(s) == s.(prod := ProducerStep(s).prod)
  {
  }

  lemma LocalStep(s: State)
    requires s.ring.WellSized() && s.ring.head <= s.ring.tail <= s.ring.head + SLOTS
    requires ProducerOk(s) && IsLocal(s.prod)
    ensures ProducerOk(ProducerStep(s)) && ProducerStep(s) == s.(prod := ProducerStep(s).prod)
  {
    if IsExtending(s.prod) { ExtendLocalStep(s); } else { AllocLocalStep(s); }
  }

  lemma StoreStep(s: State)
    requires SlotSafe(s) && (s.prod.Wrap1? || s.prod.Place1?)
    ensures SlotSafe(ProducerStep(s))
  {
    if s.prod.Wrap1? {
      StoreAtTail(s, Slot(s.ring.write, s.ring.cap, 0, true));
    } else {
      StoreAtTail(s, Slot(s.ring.write, s.ring.write + s.prod.n, 1, false));
    }
  }

  lemma PublishStep(s: State)
    requires SlotSafe(s) && (s.prod.Wrap2? || s.prod.Place2?)
    ensures SlotSafe(ProducerStep(s))
  {
    var s' := ProducerStep(s);
    Publish(s, s'.ring, s'.owners);
  }

  lemma ExtendStep(s: State)
    requires SlotSafe(s) && (s.prod.Extend2? || s.prod.Extend4?)
    ensures SlotSafe(ProducerStep(s))
  {
    assert s.ring.InWindow(s.prod.idx);
    Rebound(s, s.prod.idx, s.ring.write + s.prod.n, s.ring.write + s.prod.n);
  }

  lemma ProducerKeepsSlots(s: State)
    requires SlotSafe(s)
    ensures SlotSafe(ProducerStep(s))
  {
    if IsLocal(s.prod) { LocalStep(s); }
    else if s.prod.Wrap1? || s.prod.Place1? { StoreStep(s); }
    else if s.prod.Wrap2? || s.prod.Place2? { PublishStep(s); }
    else { ExtendStep(s); }
  }

  /** The effect of adding d to the count of an owned index. */
  lemma Recount(s: State, idx: nat, d: int, owners': multiset<nat>)
    requires TableSafe(s.ring, s.rel, s.owners) && s.owners[idx] > 0
    requires (d == 1 && owners' == s.owners + multiset{idx}) || (d == -1 && owners' == s.owners - multiset{idx})
    ensures TableSafe(s.ring.Put(idx, s.ring.At(idx).(refs := s.ring.At(idx).refs + d)), s.rel, owners')
    ensures s.ring.At(idx).refs + d >= 0
  {
    var r := s.ring;
    assert r.InWindow(idx) && r.At(idx).refs == s.owners[idx];
    PutFrame(r, idx, r.At(idx).(refs := r.At(idx).refs + d), r.head, r.tail);
    assert forall i: nat :: i != idx ==> owners'[i] == s.owners[i];
  }

  /** Recounting keeps what the producer knows: it relies on no count of a published entry. */
  lemma RecountProducer(s: State, idx: nat, d: int, owners': multiset<nat>)
    requires SlotSafe(s) && s.owners[idx] > 0
    requires (d == 1 && owners' == s.owners + multiset{idx}) ||
             (d == -1 && owners' == s.owners - multiset{idx} && s.owners[idx] > Held(s.prod, idx))
    ensures ProducerOk(s.(ring := s.ring.Put(idx, s.ring.At(idx).(refs := s.ring.At(idx).refs + d)), owners := owners'))
  {
    var r := s.ring;
    assert r.InWindow(idx);
    if s.prod.Wrap2? || s.prod.Place2? {
      PutFrame(r, idx, r.At(idx).(refs := r.At(idx).refs + d), r.head, r.tail + 1);
    } else {
      PutFrame(r, idx, r.At(idx).(refs := r.At(idx).refs + d), r.head, r.tail);
    }
    assert forall i: nat :: i != idx ==> owners'[i] == s.owners[i];
    match s.prod
    case Extend1(i, n) => assert r.InWindow(i);
    case Extend2(i, n, cur) => assert r.InWindow(i);
    case Extend3(i, n, cur, read) => assert r.InWindow(i);
    case Extend4(i, n, cur, read, head) => assert r.InWindow(i);
    case _ =>
  }

  lemma ReleaserMoves(s: State, rel': map<nat, Releaser>, t: nat)
    requires TableSafe(s.ring, s.rel, s.owners)
    requires rel' == s.rel - {t} || (t in rel' && rel' == s.rel[t := rel'[t]] && ReleaserOk(s.ring, rel'[t]))
    ensures TableSafe(s.ring, rel', s.owners)
  {
    forall u: nat | u in rel' ensures ReleaserOk(s.ring, rel'[u]) {
      if u != t { assert rel'[u] == s.rel[u]; }
    }
  }

  /** head passes an index only when no owner is left. */
  lemma HeadAdvances(s: State, r': Ring)
    requires SlotSafe(s) && s.ring.head < s.ring.tail && s.ring.At(s.ring.head).refs == 0
    requires r' == s.ring.(head := s.ring.head + 1)
    ensures TableSafe(r', s.rel, s.owners)
  {
    var r := s.ring;
    assert s.owners[r.head] == 0;
    assert forall i: nat {:trigger r'.At(i)} :: r'.At(i) == r.At(i);
    forall u: nat | u in s.rel ensures ReleaserOk(r', s.rel[u]) {
      assert ReleaserOk(r, s.rel[u]);
    }
  }

  /** The producer's knowledge survives head moving on. */
  lemma HeadAdvancesProducer(s: State, r': Ring)
    requires SlotSafe(s) && s.ring.head < s.ring.tail
    requires r' == s.ring.(head := s.ring.head + 1)
    ensures ProducerOk(s.(ring := r'))
  {
    assert forall i: nat {:trigger r'.At(i)} :: r'.At(i) == s.ring.At(i);
  }

  lemma SwapWins(s: State, t: nat)
    requires SlotSafe(s) && t in s.rel && s.rel[t].Swap? && s.ring.head == s.rel[t].h
    ensures SlotSafe(Act(s, Proceed(t)))
  {
    var r' := s.ring.(head := s.ring.head + 1);
    assert ReleaserOk(s.ring, s.rel[t]);
    HeadAdvances(s, r');
    HeadAdvancesProducer(s, r');
    var mid := s.(ring := r');
    ReleaserMoves(mid, s.rel[t := Top], t);
    assert Act(s, Proceed(t)) == mid.(rel := s.rel[t := Top]);
  }

  lemma ReleaserLooks(s: State, t: nat)
    requires SlotSafe(s) && t in s.rel && !(s.rel[t].Swap? && s.ring.head == s.rel[t].h)
    ensures SlotSafe(Act(s, Proceed(t)))
  {
    assert ReleaserOk(s.ring, s.rel[t]);
    var s' := Act(s, Proceed(t));
    ReleaserMoves(s, s'.rel, t);
    assert s' == s.(rel := s'.rel);
  }

  lemma CountStep(s: State, a: Action)
    requires SlotSafe(s) && Enabled(s, a) && (a.Retain? || a.BeginRelease?)
    ensures SlotSafe(Act(s, a))
  {
    var d := if a.Retain? then 1 else -1;
    var owners' := if a.Retain? then s.owners + multiset{a.idx} else s.owners - multiset{a.idx};
    Recount(s, a.idx, d, owners');
    RecountProducer(s, a.idx, d, owners');
    var s' := Act(s, a);
    assert s'.ring == s.ring.Put(a.idx, s.ring.At(a.idx).(refs := s.ring.At(a.idx).refs + d));
    if a.BeginRelease? {
      ReleaserMoves(s.(ring := s'.ring, owners := owners'), s'.rel, a.t);
    }
  }

  lemma BeginStep(s: State, a: Action)
    requires SlotSafe(s) && Enabled(s, a) && (a.BeginAlloc? || a.BeginExtend?)
    ensures SlotSafe(Act(s, a))
  {
  }

  /** Main safety result, one step: no action of any thread breaks slot safety. */
  lemma StepKeepsSlots(s: State, a: Action)
    requires SlotSafe(s) && Enabled(s, a)
    ensures SlotSafe(Act(s, a))
  {
    match a
    case Produce => ProducerKeepsSlots(s);
    case Proceed(t) =>
      if s.rel[t].Swap? && s.ring.head == s.rel[t].h { SwapWins(s, t); } else { ReleaserLooks(s, t); }
    case Retain(_) => CountStep(s, a);
    case BeginRelease(_, _) => CountStep(s, a);
    case _ => BeginStep(s, a);
  }
}
