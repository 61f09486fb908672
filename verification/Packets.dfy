/** codec/packet.go: packets whose data lies in the ring, as the clients of the allocator handle them.
    The producer fills an allocation and emits it as a packet; packets are cloned, with the data or
    sharing it, and each is released once; all of it interleaved with the steps of RingProtocol. */
module Packets {
  import opened Bytes
  import opened RingTable
  import opened RingProtocol
  import opened RingRuns
  import opened Wrappers

  /** data is what was put into the packet; with a slot it lies in the slab from start on, and is the
      packet's only there. info stands for the other fields. */
  datatype Packet = Packet(info: nat, slot: Option<nat>, start: int, data: seq<byte>)

  /** hand: allocations the producer still fills, with what it has put in; live: the packets not yet
      released. */
  datatype World = World(s: State, slab: seq<byte>, hand: map<nat, seq<byte>>, live: map<nat, Packet>)

  datatype Move =
    | Internal(a: Action)                       // a step inside Alloc, Extend or Release, or the start of one
    | Fill(idx: nat, bytes: seq<byte>)          // the producer writes more bytes into its allocation
    | Emit(idx: nat, k: nat, info: nat)         // it makes packet k of it
    | NewHeap(k: nat, info: nat, data: seq<byte>)
    | Clone(k: nat, k2: nat, copyData: bool)
    | Release(t: nat, k: nat)
    | Drop(t: nat, idx: nat)                    // the producer gives its allocation up

  function Start(cap: nat): World {
    World(Init(cap), seq(cap, _ => 0), map[], map[])
  }

  /** What Data() returns. */
  function Read(slab: seq<byte>, p: Packet): seq<byte> {
    if p.slot.None? then p.data
    else if 0 <= p.start && p.start + |p.data| <= |slab| then slab[p.start..p.start + |p.data|]
    else []
  }

  /** The rules a client keeps: only packets not yet released are cloned and released, and only the
      producer touches what it has not emitted. */
  predicate Possible(w: World, m: Move)
    requires w.s.ring.WellSized()
  {
    match m
    case Internal(a) =>
      (match a
       case BeginAlloc(_) => w.s.prod.Idle?
       case BeginExtend(idx, _) => w.s.prod.Idle? && idx in w.hand
       case Produce => !w.s.prod.Idle?
       case Proceed(t) => t in w.s.rel
       case _ => false)
    case Fill(idx, bytes) =>
      w.s.prod.Idle? && idx in w.hand && |w.hand[idx]| + |bytes| <= w.s.ring.At(idx).end - w.s.ring.At(idx).start
    case Emit(idx, k, _) => w.s.prod.Idle? && idx in w.hand && k !in w.live
    case NewHeap(k, _, _) => k !in w.live
    case Clone(k, k2, _) => k in w.live && k2 !in w.live
    case Release(t, k) => k in w.live && (w.live[k].slot.Some? ==> t !in w.s.rel)
    case Drop(t, idx) => w.s.prod.Idle? && idx in w.hand && t !in w.s.rel
  }

  /** What a move does to the ring. */
  function RingAction(w: World, m: Move): Option<Action> {
    match m
    case Internal(a) => Some(a)
    case Clone(k, _, copyData) =>
      if k in w.live && !copyData && w.live[k].slot.Some? then Some(Retain(w.live[k].slot.value)) else None
    case Release(t, k) =>
      if k in w.live && w.live[k].slot.Some? then Some(BeginRelease(t, w.live[k].slot.value)) else None
    case Drop(t, idx) => Some(BeginRelease(t, idx))
    case _ => None
  }

  function Overwrite(slab: seq<byte>, pos: int, bytes: seq<byte>): (r: seq<byte>)
    ensures |r| == |slab|
  {
    if 0 <= pos && pos + |bytes| <= |slab| then slab[..pos] + bytes + slab[pos + |bytes|..] else slab
  }

  /** The clients' side of a move. */
  function Hands(w: World, m: Move): World
    requires w.s.ring.WellSized() && Possible(w, m)
  {
    match m
    case Internal(a) =>
      if a.Produce? && w.s.prod.Place2? then w.(hand := w.hand[w.s.prod.tail := []]) else w
    case Fill(idx, bytes) =>
      w.(slab := Overwrite(w.slab, w.s.ring.At(idx).start + |w.hand[idx]|, bytes),
         hand := w.hand[idx := w.hand[idx] + bytes])
    case Emit(idx, k, info) =>
      w.(hand := w.hand - {idx}, live := w.live[k := Packet(info, Some(idx), w.s.ring.At(idx).start, w.hand[idx])])
    case NewHeap(k, info, data) => w.(live := w.live[k := Packet(info, None, 0, data)])
    case Clone(k, k2, copyData) =>
      var p := w.live[k];
      w.(live := w.live[k2 := if copyData then Packet(p.info, None, 0, Read(w.slab, p)) else p])
    case Release(_, k) => w.(live := w.live - {k})
    case Drop(_, idx) => w.(hand := w.hand - {idx})
  }

  // ----- Owners are packets -----

  /** The packets that share slot i. */
  function Sharers(live: map<nat, Packet>, i: nat): set<nat> {
    set k | k in live && live[k].slot == Some(i)
  }

  function InHand(hand: map<nat, seq<byte>>, i: nat): nat {
    if i in hand then 1 else 0
  }

  /** The owners the protocol counts are the packets not yet released and the producer's allocations;
      these have no packet yet. */
  ghost predicate Accounted(w: World) {
    && (forall i: nat :: w.s.owners[i] == InHand(w.hand, i) + |Sharers(w.live, i)|)
    && (forall i :: i in w.hand ==> Sharers(w.live, i) == {})
    && (IsExtending(w.s.prod) ==> w.s.prod.idx in w.hand)
  }

  lemma SharersAdd(live: map<nat, Packet>, k: nat, p: Packet, i: nat)
    requires k !in live
    ensures |Sharers(live[k := p], i)| == |Sharers(live, i)| + if p.slot == Some(i) then 1 else 0
    ensures p.slot != Some(i) ==> Sharers(live[k := p], i) == Sharers(live, i)
  {
    if p.slot == Some(i) {
      assert Sharers(live[k := p], i) == Sharers(live, i) + {k};
    } else {
      assert Sharers(live[k := p], i) == Sharers(live, i);
    }
  }

  lemma SharersRemove(live: map<nat, Packet>, k: nat, i: nat)
    requires k in live
    ensures |Sharers(live - {k}, i)| == |Sharers(live, i)| - if live[k].slot == Some(i) then 1 else 0
    ensures live[k].slot == Some(i) ==> k in Sharers(live, i)
    ensures live[k].slot != Some(i) ==> Sharers(live - {k}, i) == Sharers(live, i)
  {
    assert Sharers(live - {k}, i) == Sharers(live, i) - {k};
  }

  /** Main result: clients that release each packet once never break the rules of the protocol: every
      ring action of a possible move is enabled, because its slot has an owner. */
  lemma MoveIsEnabled(w: World, m: Move)
    requires SlotSafe(w.s) && Accounted(w) && Possible(w, m)
    ensures RingAction(w, m).Some? ==> Enabled(w.s, RingAction(w, m).value)
  {
    match m
    case Clone(k, _, _) => if w.live[k].slot.Some? { SharersRemove(w.live, k, w.live[k].slot.value); }
    case Release(_, k) => if w.live[k].slot.Some? { SharersRemove(w.live, k, w.live[k].slot.value); }
    case _ =>
  }

  function Step(w: World, m: Move): World
    requires w.s.ring.WellSized() && Possible(w, m)
    requires RingAction(w, m).Some? ==> Enabled(w.s, RingAction(w, m).value)
  {
    var s' := if RingAction(w, m).Some? then Act(w.s, RingAction(w, m).value) else w.s;
    Hands(w, m).(s := s')
  }

  /** Inside the ring only the last step of Alloc makes an owner. */
  lemma ProduceOwners(s: State)
    requires s.ring.WellSized() && !s.prod.Idle?
    ensures var s' := ProducerStep(s);
            s'.owners == (if s.prod.Place2? then s.owners + multiset{s.prod.tail} else s.owners) &&
            (IsExtending(s'.prod) ==> IsExtending(s.prod) && s'.prod.idx == s.prod.idx)
  {
  }

  lemma PlaceAccounts(w: World)
    requires SlotSafe(w.s) && Accounted(w) && w.s.prod.Place2?
    ensures Accounted(Step(w, Internal(Produce)))
  {
    var w' := Step(w, Internal(Produce));
    ProduceOwners(w.s);
    hide ProducerStep;
    var tail := w.s.prod.tail;
    assert tail == w.s.ring.tail && w.s.owners[tail] == 0;
    assert w'.s.owners == w.s.owners + multiset{tail} && w'.hand == w.hand[tail := []];
  }

  lemma InternalAccounts(w: World, m: Move)
    requires SlotSafe(w.s) && Accounted(w) && Possible(w, m) && m.Internal?
    ensures Enabled(w.s, m.a) && Accounted(Step(w, m))
  {
    MoveIsEnabled(w, m);
    if m.a.Produce? {
      ProduceOwners(w.s);
      if w.s.prod.Place2? { PlaceAccounts(w); }
    }
    hide SlotSafe, ProducerStep;
  }

  lemma ProducerAccounts(w: World, m: Move)
    requires SlotSafe(w.s) && Accounted(w) && Possible(w, m) && (m.Fill? || m.Emit? || m.Drop?)
    ensures RingAction(w, m).Some? ==> Enabled(w.s, RingAction(w, m).value)
    ensures Accounted(Step(w, m))
  {
    MoveIsEnabled(w, m);
    var w' := Step(w, m);
    if m.Emit? {
      forall i: nat ensures |Sharers(w'.live, i)| == |Sharers(w.live, i)| + if i == m.idx then 1 else 0 {
        SharersAdd(w.live, m.k, w'.live[m.k], i);
      }
      forall i | i in w'.hand ensures Sharers(w'.live, i) == {} { SharersAdd(w.live, m.k, w'.live[m.k], i); }
    }
  }

  lemma PacketAccounts(w: World, m: Move)
    requires SlotSafe(w.s) && Accounted(w) && Possible(w, m) && (m.NewHeap? || m.Clone?)
    ensures RingAction(w, m).Some? ==> Enabled(w.s, RingAction(w, m).value)
    ensures Accounted(Step(w, m))
  {
    MoveIsEnabled(w, m);
    var w' := Step(w, m);
    var k := if m.NewHeap? then m.k else m.k2;
    var p := w'.live[k];
    assert w'.live == w.live[k := p];
    if m.Clone? && p.slot.Some? { SharersRemove(w.live, m.k, p.slot.value); }
    forall i: nat ensures |Sharers(w'.live, i)| == |Sharers(w.live, i)| + if p.slot == Some(i) then 1 else 0 {
      SharersAdd(w.live, k, p, i);
    }
    forall i | i in w'.hand ensures Sharers(w'.live, i) == {} { SharersAdd(w.live, k, p, i); }
  }

  lemma ReleaseAccounts(w: World, m: Move)
    requires SlotSafe(w.s) && Accounted(w) && Possible(w, m) && m.Release?
    ensures RingAction(w, m).Some? ==> Enabled(w.s, RingAction(w, m).value)
    ensures Accounted(Step(w, m))
  {
    MoveIsEnabled(w, m);
    var w' := Step(w, m);
    var p := w.live[m.k];
    forall i: nat ensures |Sharers(w'.live, i)| == |Sharers(w.live, i)| - if p.slot == Some(i) then 1 else 0 {
      SharersRemove(w.live, m.k, i);
    }
    forall i | i in w'.hand ensures Sharers(w'.live, i) == {} { SharersRemove(w.live, m.k, i); }
  }

  /** Every possible move keeps the accounts and the safety of the slots. */
  lemma StepAccounts(w: World, m: Move)
    requires SlotSafe(w.s) && Accounted(w) && Possible(w, m)
    ensures RingAction(w, m).Some? ==> Enabled(w.s, RingAction(w, m).value)
    ensures Accounted(Step(w, m)) && SlotSafe(Step(w, m).s)
  {
    hide Accounted, SlotSafe, Possible, Enabled, Act, Hands;
    match m {
      case Internal(_) => InternalAccounts(w, m);
      case Fill(_, _) => ProducerAccounts(w, m);
      case Emit(_, _, _) => ProducerAccounts(w, m);
      case Drop(_, _) => ProducerAccounts(w, m);
      case NewHeap(_, _, _) => PacketAccounts(w, m);
      case Clone(_, _, _) => PacketAccounts(w, m);
      case Release(_, _) => ReleaseAccounts(w, m);
    }
    if RingAction(w, m).Some? { StepKeepsSlots(w.s, RingAction(w, m).value); }
  }

  // ----- What a packet reads -----

  predicate Holds(slab: seq<byte>, start: int, end: int, data: seq<byte>) {
    0 <= start && start + |data| <= end <= |slab| && slab[start..start + |data|] == data
  }

  ghost predicate HandHolds(w: World, i: nat)
    requires w.s.ring.WellSized() && i in w.hand
  {
    Holds(w.slab, w.s.ring.At(i).start, w.s.ring.At(i).end, w.hand[i])
  }

  ghost predicate LiveHolds(w: World, k: nat)
    requires w.s.ring.WellSized() && k in w.live
  {
    w.live[k].slot.Some? ==>
      var x := w.s.ring.At(w.live[k].slot.value);
      w.live[k].start == x.start && Holds(w.slab, x.start, x.end, w.live[k].data)
  }

  ghost predicate Intact(w: World)
    requires w.s.ring.WellSized()
  {
    && |w.slab| == w.s.ring.cap
    && (forall i :: i in w.hand ==> HandHolds(w, i))
    && (forall k :: k in w.live ==> LiveHolds(w, k))
  }

  ghost predicate Inv(w: World) {
    BytesSafe(w.s) && Accounted(w) && Intact(w)
  }

  /** The ring action of a move, if it has one, is calm. */
  predicate CalmMove(w: World, m: Move) {
    RingAction(w, m).Some? ==> Calm(w.s, RingAction(w, m).value)
  }

  lemma OwnedInside(s: State, i: nat)
    requires BytesSafe(s) && s.owners[i] > 0
    ensures 0 <= s.ring.At(i).start < s.ring.At(i).end <= s.ring.cap
  {
    AnchorBehind(s);
    assert s.ring.InWindow(i) && !s.ring.At(i).waste;
    ChainInside(s.ring, Anchor(s.prod, s.ring.head), i);
  }

  /** A step moves the end of an owned allocation only forward, and leaves its start and the slab size. */
  lemma OwnedBounds(s: State, a: Action, i: nat)
    requires BytesSafe(s) && Enabled(s, a) && s.owners[i] > 0
    ensures var x, x' := s.ring.At(i), Act(s, a).ring.At(i);
            Act(s, a).ring.cap == s.ring.cap && x'.start == x.start && x'.end >= x.end
  {
    OwnedEntryStays(s, a, i);
    CapKept(s, a);
    if a.Produce? && Held(s.prod, i) == 1 { ExtendsForward(s); }
  }

  lemma CapKept(s: State, a: Action)
    requires s.ring.WellSized() && Enabled(s, a)
    ensures Act(s, a).ring.cap == s.ring.cap
  {
  }

  lemma ExtendsForward(s: State)
    requires SlotSafe(s) && IsExtending(s.prod)
    ensures s.prod.n > 0
  {
  }

  /** What an owned allocation holds it still holds after a step in the ring, if it still has an owner. */
  lemma StillHolds(s: State, a: Action, i: nat, slab: seq<byte>, data: seq<byte>)
    requires BytesSafe(s) && Enabled(s, a) && BytesSafe(Act(s, a)) && s.owners[i] > 0 && Act(s, a).owners[i] > 0
    requires |slab| == s.ring.cap && Holds(slab, s.ring.At(i).start, s.ring.At(i).end, data)
    ensures Act(s, a).ring.At(i).start == s.ring.At(i).start
    ensures Holds(slab, Act(s, a).ring.At(i).start, Act(s, a).ring.At(i).end, data)
  {
    OwnedBounds(s, a, i);
    hide Enabled, Act, BytesSafe;
    OwnedInside(Act(s, a), i);
  }

  lemma HandOwned(w: World, i: nat)
    requires Accounted(w) && i in w.hand
    ensures w.s.owners[i] > 0
  {
  }

  lemma LiveOwned(w: World, k: nat)
    requires Accounted(w) && k in w.live && w.live[k].slot.Some?
    ensures w.s.owners[w.live[k].slot.value] > 0
  {
    SharersRemove(w.live, k, w.live[k].slot.value);
  }

  /** Hands and packets that a ring action leaves alone stay as they are. */
  lemma RingMoveKeeps(w: World, w': World, a: Action)
    requires Inv(w) && Enabled(w.s, a) && w'.s == Act(w.s, a) && BytesSafe(w'.s) && Accounted(w') && w'.slab == w.slab
    ensures forall i :: i in w.hand && i in w'.hand && w'.hand[i] == w.hand[i] ==> HandHolds(w', i)
    ensures forall k :: k in w.live && k in w'.live && w'.live[k] == w.live[k] ==> LiveHolds(w', k)
    ensures |w'.slab| == w'.s.ring.cap
  {
    CapKept(w.s, a);
    hide BytesSafe, Accounted, Enabled, Act;
    forall i | i in w.hand && i in w'.hand && w'.hand[i] == w.hand[i] ensures HandHolds(w', i) {
      assert HandHolds(w, i);
      HandOwned(w, i);
      HandOwned(w', i);
      StillHolds(w.s, a, i, w.slab, w.hand[i]);
    }
    forall k | k in w.live && k in w'.live && w'.live[k] == w.live[k] ensures LiveHolds(w', k) {
      assert LiveHolds(w, k);
      if w.live[k].slot.Some? {
        LiveOwned(w, k);
        LiveOwned(w', k);
        StillHolds(w.s, a, w.live[k].slot.value, w.slab, w.live[k].data);
      }
    }
  }

  lemma NewHand(w: World, i: nat)
    requires BytesSafe(w.s) && Accounted(w) && i in w.hand && w.hand[i] == [] && |w.slab| == w.s.ring.cap
    ensures HandHolds(w, i)
  {
    HandOwned(w, i);
    OwnedInside(w.s, i);
  }

  /** What a move with a ring action does to hands and packets. */
  lemma RingMoveShape(w: World, m: Move)
    requires w.s.ring.WellSized() && Possible(w, m) && RingAction(w, m).Some?
    ensures var h := Hands(w, m);
            && h.slab == w.slab
            && (forall i :: i in h.hand && (i !in w.hand || h.hand[i] != w.hand[i]) ==> h.hand[i] == [])
            && (forall k :: k in h.live && (k !in w.live || h.live[k] != w.live[k]) ==>
                m.Clone? && k == m.k2 && h.live[k] == w.live[m.k])
            && (m.Clone? ==> m.k in w.live && m.k in h.live && h.live[m.k] == w.live[m.k])
  {
  }

  lemma RingMoveIntact(w: World, m: Move)
    requires Inv(w) && Possible(w, m) && RingAction(w, m).Some? && Enabled(w.s, RingAction(w, m).value)
    requires BytesSafe(Step(w, m).s) && Accounted(Step(w, m))
    ensures Intact(Step(w, m))
  {
    assert w.s.ring.WellSized();
    RingMoveShape(w, m);
    hide BytesSafe, Accounted, Enabled, Act, HandHolds, LiveHolds, Hands, Possible;
    var w' := Step(w, m);
    RingMoveKeeps(w, w', RingAction(w, m).value);
    forall i | i in w'.hand ensures HandHolds(w', i) {
      if i !in w.hand || w'.hand[i] != w.hand[i] { NewHand(w', i); }
    }
    forall k | k in w'.live ensures LiveHolds(w', k) {
      if k !in w.live || w'.live[k] != w.live[k] { SameHolds(w', m.k, k); }
    }
  }

  lemma SameHolds(w: World, k: nat, k2: nat)
    requires w.s.ring.WellSized() && k in w.live && k2 in w.live && w.live[k] == w.live[k2] && LiveHolds(w, k)
    ensures LiveHolds(w, k2)
  {
  }

  lemma EmitIntact(w: World, m: Move)
    requires Inv(w) && Possible(w, m) && m.Emit?
    ensures Intact(Step(w, m))
  {
    assert w.s.ring.WellSized();
    hide BytesSafe, Accounted;
    var w' := Step(w, m);
    assert HandHolds(w, m.idx);
    forall i | i in w'.hand ensures HandHolds(w', i) { assert HandHolds(w, i); }
    forall k | k in w'.live ensures LiveHolds(w', k) { if k != m.k { assert LiveHolds(w, k); } }
  }

  lemma HeapIntact(w: World, m: Move)
    requires Inv(w) && Possible(w, m) && RingAction(w, m).None? && (m.NewHeap? || m.Clone? || m.Release?)
    ensures Intact(Step(w, m))
  {
    assert w.s.ring.WellSized();
    hide BytesSafe, Accounted;
    var w' := Step(w, m);
    forall i | i in w'.hand ensures HandHolds(w', i) { assert HandHolds(w, i); }
    forall k | k in w'.live ensures LiveHolds(w', k) { if k in w.live { assert LiveHolds(w, k); } }
  }

  // ----- Filling -----

  /** Bytes written behind what an allocation holds are added to it. */
  lemma OverwriteAdds(slab: seq<byte>, start: int, end: int, data: seq<byte>, bytes: seq<byte>)
    requires Holds(slab, start, end, data) && |data| + |bytes| <= end - start
    ensures Holds(Overwrite(slab, start + |data|, bytes), start, end, data + bytes)
  {
    var s' := Overwrite(slab, start + |data|, bytes);
    assert s'[start..start + |data + bytes|] == slab[start..start + |data|] + bytes;
  }

  /** ... and leave what lies apart. */
  lemma OverwriteApart(slab: seq<byte>, pos: int, bytes: seq<byte>, lo: int, hi: int, start: int, end: int,
                       data: seq<byte>)
    requires Holds(slab, start, end, data) && lo <= pos && pos + |bytes| <= hi && Apart(lo, hi, start, end)
    ensures Holds(Overwrite(slab, pos, bytes), start, end, data)
  {
    var s' := Overwrite(slab, pos, bytes);
    assert s'[start..start + |data|] == slab[start..start + |data|];
  }

  lemma OthersApart(s: State, i: nat, j: nat)
    requires BytesSafe(s) && i != j && s.owners[i] > 0 && s.owners[j] > 0
    ensures Apart(s.ring.At(i).start, s.ring.At(i).end, s.ring.At(j).start, s.ring.At(j).end)
  {
    if i < j { OwnedApart(s, i, j); } else { OwnedApart(s, j, i); }
  }

  /** Filling leaves every other owned allocation alone. */
  lemma FillLeaves(w: World, m: Move, i: nat, data: seq<byte>)
    requires Inv(w) && Possible(w, m) && m.Fill? && i != m.idx && w.s.owners[i] > 0
    requires Holds(w.slab, w.s.ring.At(i).start, w.s.ring.At(i).end, data)
    ensures Holds(Step(w, m).slab, w.s.ring.At(i).start, w.s.ring.At(i).end, data)
  {
    var x, y := w.s.ring.At(m.idx), w.s.ring.At(i);
    HandOwned(w, m.idx);
    OthersApart(w.s, m.idx, i);
    assert HandHolds(w, m.idx);
    OverwriteApart(w.slab, x.start + |w.hand[m.idx]|, m.bytes, x.start, x.end, y.start, y.end, data);
  }

  lemma FillIntact(w: World, m: Move)
    requires Inv(w) && Possible(w, m) && m.Fill?
    ensures Intact(Step(w, m))
  {
    assert w.s.ring.WellSized();
    hide BytesSafe, Accounted, Overwrite, Holds;
    var w' := Step(w, m);
    var x := w.s.ring.At(m.idx);
    forall i | i in w'.hand ensures HandHolds(w', i) {
      assert HandHolds(w, i);
      if i == m.idx {
        OverwriteAdds(w.slab, x.start, x.end, w.hand[i], m.bytes);
      } else {
        HandOwned(w, i);
        FillLeaves(w, m, i, w.hand[i]);
      }
    }
    forall k | k in w'.live ensures LiveHolds(w', k) {
      assert LiveHolds(w, k);
      if w.live[k].slot.Some? {
        LiveOwned(w, k);
        SharersRemove(w.live, k, w.live[k].slot.value);
        NotInHand(w, k);
        FillLeaves(w, m, w.live[k].slot.value, w.live[k].data);
      }
    }
  }

  lemma NotInHand(w: World, k: nat)
    requires Accounted(w) && k in w.live && w.live[k].slot.Some?
    ensures w.live[k].slot.value !in w.hand
  {
    SharersRemove(w.live, k, w.live[k].slot.value);
  }

  // ----- Main results -----

  lemma StepKeeps(w: World, m: Move)
    requires Inv(w) && Possible(w, m) && CalmMove(w, m)
    ensures RingAction(w, m).Some? ==> Enabled(w.s, RingAction(w, m).value)
    ensures Inv(Step(w, m))
  {
    assert SlotSafe(w.s);
    StepAccounts(w, m);
    hide BytesSafe, Accounted, Enabled, Act, Possible, Calm, Intact;
    if RingAction(w, m).Some? {
      StepKeepsBytes(w.s, RingAction(w, m).value);
      RingMoveIntact(w, m);
    } else if m.Fill? {
      FillIntact(w, m);
    } else if m.Emit? {
      EmitIntact(w, m);
    } else {
      HeapIntact(w, m);
    }
  }

  /** Every move was possible when it was made. */
  ghost predicate IsRunOf(w: World, moves: seq<Move>)
    decreases |moves|
  {
    moves != [] ==>
      && w.s.ring.WellSized() && Possible(w, moves[0])
      && (RingAction(w, moves[0]).Some? ==> Enabled(w.s, RingAction(w, moves[0]).value))
      && IsRunOf(Step(w, moves[0]), moves[1..])
  }

  ghost predicate CalmMoves(w: World, moves: seq<Move>)
    requires IsRunOf(w, moves)
    decreases |moves|
  {
    moves != [] ==> CalmMove(w, moves[0]) && CalmMoves(Step(w, moves[0]), moves[1..])
  }

  function Run(w: World, moves: seq<Move>): World
    requires IsRunOf(w, moves)
    decreases |moves|
  {
    if moves == [] then w else Run(Step(w, moves[0]), moves[1..])
  }

  lemma {:induction false} RunKeeps(w: World, moves: seq<Move>)
    requires Inv(w) && IsRunOf(w, moves) && CalmMoves(w, moves)
    ensures Inv(Run(w, moves))
    decreases |moves|
  {
    hide Inv, Possible, CalmMove, Enabled;
    if moves != [] {
      StepKeeps(w, moves[0]);
      RunKeeps(Step(w, moves[0]), moves[1..]);
    }
  }

  lemma StartKeeps(cap: nat)
    ensures Inv(Start(cap)) && NoneLost(Start(cap).s)
  {
    InitBytesSafe(cap);
  }

  /** Main result: in every calm run of one producer, any number of clients and all their Release
      calls, a packet that has not been released reads what was put into it, and so does every clone,
      whatever happened to the packet it was made from. */
  lemma PacketsReadTheirData(cap: nat, moves: seq<Move>, k: nat)
    requires IsRunOf(Start(cap), moves) && CalmMoves(Start(cap), moves) && k in Run(Start(cap), moves).live
    ensures var w := Run(Start(cap), moves); Read(w.slab, w.live[k]) == w.live[k].data
  {
    hide Inv;
    StartKeeps(cap);
    RunKeeps(Start(cap), moves);
    ReadsData(Run(Start(cap), moves), k);
  }

  lemma ReadsData(w: World, k: nat)
    requires Inv(w) && k in w.live
    ensures Read(w.slab, w.live[k]) == w.live[k].data
  {
    assert LiveHolds(w, k);
  }

  /** A clone has the data and the fields of its original; a copy has them to itself. */
  lemma CloneHasTheData(w: World, k: nat, k2: nat, copyData: bool)
    requires Inv(w) && Possible(w, Clone(k, k2, copyData))
    ensures RingAction(w, Clone(k, k2, copyData)).Some? ==> Enabled(w.s, RingAction(w, Clone(k, k2, copyData)).value)
    ensures var w' := Step(w, Clone(k, k2, copyData));
            && k2 in w'.live && w'.live[k2].data == w.live[k].data && w'.live[k2].info == w.live[k].info
            && (copyData ==> w'.live[k2].slot.None? && w'.s == w.s)
  {
    assert SlotSafe(w.s);
    MoveIsEnabled(w, Clone(k, k2, copyData));
    ReadsData(w, k);
  }

  lemma {:induction false} RunAccounts(w: World, moves: seq<Move>)
    requires SlotSafe(w.s) && Accounted(w) && NoneLost(w.s) && IsRunOf(w, moves)
    ensures var r := Run(w, moves); SlotSafe(r.s) && Accounted(r) && NoneLost(r.s)
    decreases |moves|
  {
    hide Accounted, Possible, Enabled, NoneLost, Hands;
    if moves != [] {
      StepAccounts(w, moves[0]);
      if RingAction(w, moves[0]).Some? { StepKeepsNoneLost(w.s, RingAction(w, moves[0]).value); }
      RunAccounts(Step(w, moves[0]), moves[1..]);
    }
  }

  /** Main result, over every run, calm or not: the owners of a slot are the packets not yet released
      that share it and the producer's hand; and when all are released and no Release is in flight, no
      allocation is left in the window: what is left is waste. */
  lemma AllReleasedIsReclaimed(cap: nat, moves: seq<Move>)
    requires IsRunOf(Start(cap), moves)
    ensures var w := Run(Start(cap), moves);
            && w.s.ring.WellSized() && Accounted(w)
            && (w.live == map[] && w.hand == map[] && w.s.rel == map[] ==>
                  forall i: nat {:trigger w.s.ring.At(i)} :: w.s.ring.InWindow(i) ==> w.s.ring.At(i).waste)
  {
    StartKeeps(cap);
    RunAccounts(Start(cap), moves);
    EmptyIsReclaimed(Run(Start(cap), moves));
  }

  lemma EmptyIsReclaimed(w: World)
    requires SlotSafe(w.s) && Accounted(w) && NoneLost(w.s)
    ensures w.live == map[] && w.hand == map[] && w.s.rel == map[] ==>
              forall i: nat {:trigger w.s.ring.At(i)} :: w.s.ring.InWindow(i) ==> w.s.ring.At(i).waste
  {
    var r := w.s.ring;
    if w.live == map[] && w.hand == map[] && w.s.rel == map[] {
      assert forall j: nat :: w.s.owners[j] == 0 by {
        forall j: nat ensures w.s.owners[j] == 0 { assert Sharers(w.live, j) == {}; }
      }
      forall i: nat | r.InWindow(i) ensures r.At(i).waste {
        if !r.At(i).waste {
          var j := QuietOwned(w.s, i);
          assert false;
        }
      }
    }
  }
}
