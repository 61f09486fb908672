/** GrowingRingAlloc of utils/buffer/ring_alloc.go: a ring that is replaced by a larger one when it
    cannot serve a request, up to a cap. Handles keep pointing at the ring they came from. */
module GrowingRing {
  import opened RingTable
  import opened RingProtocol
  import opened RingAllocator

  const MIB: int := 1024 * 1024
  const DEFAULT_MAX: int := 32 * MIB

  function Min(a: int, b: int): int { if a < b then a else b }
  function Max(a: int, b: int): int { if a < b then b else a }

  /** Growth factor in tenths. */
  function Factor(cap: int): int {
    if cap > 8 * MIB then 11 else if cap > 4 * MIB then 13 else if cap > MIB then 14 else 16
  }

  function CalcGrowth(cap: nat, n: int, maxCap: nat): nat {
    Min(Max(cap * Factor(cap) / 10, n * 2), maxCap)
  }

  /** Growing makes room: below the cap the new ring is strictly larger, never above the cap, and
      takes the request unless the request exceeds the cap. */
  lemma GrowthMakesRoom(cap: nat, n: int, maxCap: nat)
    requires 0 < n && cap < maxCap
    ensures cap < CalcGrowth(cap, n, maxCap) <= maxCap
    ensures n <= CalcGrowth(cap, n, maxCap) <==> n <= maxCap
  {
    if cap >= 2 {
      assert cap * Factor(cap) / 10 >= (if cap < 8 * MIB + 1 then cap * 13 / 10 else cap * 11 / 10);
    }
  }

  /** A fresh ring takes any request that fits its slab. */
  lemma FreshTakes(size: nat, n: int)
    ensures AllocSolo(Empty(size), n).1 <==> 0 < n <= size
    ensures 0 < n <= size ==> AllocSolo(Empty(size), n).0.At(0) == Slot(0, n, 1, false)
  {
  }

  datatype Handle = Handle(ring: RingAlloc, idx: nat)

  /** SlotsExhausted is the source's panic. */
  datatype Outcome = Granted(handle: Handle, start: int) | Refused | SlotsExhausted

  class GrowingRingAlloc {
    var current: RingAlloc
    var maxCap: int

    ghost predicate Valid()
      reads this, current, current.slots
    {
      current.Valid()
    }

    constructor (initSize: nat)
      ensures Valid() && fresh(current) && fresh(current.slots) && fresh(current.slab)
      ensures current.View() == Empty(initSize) && MaxRingCap() == DEFAULT_MAX
    {
      current := new RingAlloc(initSize);
      maxCap := 0;
    }

    function MaxRingCap(): (m: nat)
      reads this
      ensures m > 0
    {
      if maxCap > 0 then maxCap else DEFAULT_MAX
    }

    /** Either the current ring serves the request; or it stays as the failed attempt left it and
        the call panics, refuses, or moves to a fresh larger ring, from which it fails only when
        the request can never fit. The old ring, its slab and its handles are untouched by that. */
    method Alloc(n: int) returns (out: Outcome)
      requires Valid()
      modifies this, current, current.slots
      ensures Valid() && maxCap == old(maxCap)
      ensures old(current).Valid() && old(current).View() == AllocSolo(old(current.View()), n).0
      ensures AllocSolo(old(current.View()), n).1 ==>
                current == old(current) && out.Granted? && out.handle == Handle(current, current.tail - 1) &&
                current.View().At(current.tail - 1) == Slot(out.start, out.start + n, 1, false)
      ensures !AllocSolo(old(current.View()), n).1 && old(current).tail - old(current).head >= SLOTS ==>
                out.SlotsExhausted? && current == old(current)
      ensures !AllocSolo(old(current.View()), n).1 && old(current).tail - old(current).head < SLOTS ==>
                if old(current).cap >= MaxRingCap() then out.Refused? && current == old(current)
                else fresh(current) && fresh(current.slots) && fresh(current.slab) &&
                     current.cap == CalcGrowth(old(current).cap, n, MaxRingCap()) &&
                     current.View() == AllocSolo(Empty(current.cap), n).0 &&
                     out == (if 0 < n <= current.cap then Granted(Handle(current, 0), 0) else Refused)
      ensures out.Granted? ==>
                && out.handle.ring == current && 0 <= out.start && out.start + n <= current.cap
                && current.View().InWindow(out.handle.idx)
                && current.View().At(out.handle.idx) == Slot(out.start, out.start + n, 1, false)
                && (current == old(current) ==> out.handle.idx >= old(current.tail))
      ensures current == old(current) || (fresh(current) && fresh(current.slots) && fresh(current.slab))
    {
      var ok, start := current.Alloc(n);
      if ok { return Granted(Handle(current, current.tail - 1), start); }
      if current.tail - current.head >= SLOTS { return SlotsExhausted; }
      if current.cap >= MaxRingCap() { return Refused; }
      var size := CalcGrowth(current.cap, n, MaxRingCap());
      var bigger := new RingAlloc(size);
      current := bigger;
      FreshTakes(size, n);
      ok, start := current.Alloc(n);
      out := if ok then Granted(Handle(current, current.tail - 1), start) else Refused;
    }

    /** Only an allocation of the current ring can grow. */
    method Extend(h: Handle, n: int) returns (ok: bool)
      requires Valid()
      modifies current, current.slots
      ensures Valid()
      ensures h.ring != current ==> !ok && current.View() == old(current.View())
      ensures h.ring == current ==> (current.View(), ok) == ExtendSolo(old(current.View()), h.idx, n)
    {
      if h.ring != current { return false; }
      ok := current.Extend(h.idx, n);
    }
  }
}
