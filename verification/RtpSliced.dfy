/** format/rtp/h265.go, appendToPacket: the picture being put together grows in the slab of the ring
    allocator where it is, moves to another slot, or moves to a slice of its own. */
module RtpSliced {
  import opened Bytes
  import opened Nal
  import R = RingTable
  import opened RingAllocator
  import opened GrowingRing
  import opened Wrappers

  /** A stretch of memory. */
  datatype Region = Region(mem: array<byte>, off: nat, len: nat)
  {
    ghost predicate Inside() {
      off + len <= mem.Length
    }

    ghost function Content(): seq<byte>
      requires Inside()
      reads mem
    {
      mem[off..off + len]
    }
  }

  /** Writes b into mem at pos. */
  method Put(mem: array<byte>, pos: nat, b: seq<byte>)
    requires pos + |b| <= mem.Length
    modifies mem
    ensures mem[pos..pos + |b|] == b
    ensures forall i :: 0 <= i < mem.Length && !(pos <= i < pos + |b|) ==> mem[i] == old(mem[i])
  {
    var k := 0;
    while k < |b|
      invariant 0 <= k <= |b|
      invariant forall i :: 0 <= i < k ==> mem[pos + i] == b[i]
      invariant forall i :: 0 <= i < mem.Length && !(pos <= i < pos + k) ==> mem[i] == old(mem[i])
    {
      mem[pos + k] := b[k];
      k := k + 1;
    }
  }

  /** The unit behind its length, written behind the first len bytes of a region. */
  method WriteUnit(r: Region, len: nat, nalu: Nalu)
    requires r.Inside() && len + 4 + |nalu| == r.len
    modifies r.mem
    ensures r.Content() == old(r.mem[r.off..r.off + len]) + Prefixed(nalu)
    ensures forall i :: 0 <= i < r.mem.Length && !(r.off + len <= i < r.off + r.len) ==> r.mem[i] == old(r.mem[i])
  {
    hide U32;
    Put(r.mem, r.off + len, U32(|nalu|));
    Put(r.mem, r.off + len + 4, nalu);
    assert r.mem[r.off..r.off + len] == old(r.mem[r.off..r.off + len]);
    assert r.mem[r.off + len..r.off + len + 4] == U32(|nalu|);
    assert r.Content() == r.mem[r.off..r.off + len] +
           (r.mem[r.off + len..r.off + len + 4] + r.mem[r.off + len + 4..r.off + r.len]);
  }

  /** The handle's slot is in use and holds exactly the bytes of b. */
  ghost predicate Owns(h: Handle, b: Region)
    reads h.ring, h.ring.slots
  {
    && h.ring.Valid() && b.mem == h.ring.slab && h.ring.View().InWindow(h.idx)
    && var x := h.ring.View().At(h.idx);
       x.start == b.off && x.end == b.off + b.len && x.refs > 0
  }

  /** Different rings share no memory. */
  ghost predicate Separate(a: RingAlloc, b: RingAlloc)
    reads a, b
  {
    a != b ==> a.slots != b.slots && a.slab != b.slab
  }

  /** slicedPacket with the memory of its data, and slicedHandle, its slot in a ring. Without a ring
      there is never a handle. */
  class SlicedPacket {
    const ring: GrowingRingAlloc
    var buf: Region
    var handle: Option<Handle>

    constructor (ring: GrowingRingAlloc, buf: Region, handle: Option<Handle>)
      ensures this.ring == ring && this.buf == buf && this.handle == handle
    {
      this.ring, this.buf, this.handle := ring, buf, handle;
    }

    ghost function HandleRing(): set<object>
      reads this
    {
      match handle
      case None => {}
      case Some(h) => {h.ring, h.ring.slots}
    }

    ghost predicate Valid()
      reads this, ring, ring.current, ring.current.slots, HandleRing()
    {
      ring.Valid() && buf.Inside() &&
        (handle.Some? ==> Owns(handle.value, buf) && Separate(handle.value.ring, ring.current))
    }

    /** The slot can grow where it is: it is the newest of the current ring, and there is room. */
    ghost predicate Grows(n: nat)
      requires Valid() && handle.Some?
      reads this, ring, ring.current, ring.current.slots, HandleRing()
    {
      handle.value.ring == ring.current && ExtendSolo(ring.current.View(), handle.value.idx, n).1
    }

    /** slab changed at most where the buffer now is, from byte start on. */
    twostate predicate Untouched(slab: array<byte>, start: nat)
      reads this, slab
    {
      forall i :: 0 <= i < slab.Length && !(buf.mem == slab && start <= i < buf.off + buf.len) ==>
        slab[i] == old(slab[i])
    }

    /** In place: the slot and the buffer grow. */
    method Extend(h: Handle, nalU: Nalu) returns (ok: bool)
      requires Valid() && handle == Some(h)
      modifies this, ring.current, ring.current.slots, ring.current.slab
      ensures Valid()
      ensures ok == old(Grows(4 + |nalU|))
      ensures !ok ==> buf == old(buf) && handle == old(handle) && ring.current.View() == old(ring.current.View())
      ensures ok ==> handle == old(handle) && buf == old(buf).(len := old(buf.len) + 4 + |nalU|)
      ensures ok ==> buf.Content() == old(buf.Content()) + Prefixed(nalU)
      ensures Untouched(ring.current.slab, old(buf.off + buf.len))
    {
      hide Prefixed;
      ok := ring.Extend(h, 4 + |nalU|);
      if ok {
        var len := buf.len;
        buf := buf.(len := len + 4 + |nalU|);
        WriteUnit(buf, len, nalU);
      }
    }

    /** The handle's ring once n bytes were asked of the current ring. */
    ghost function Asked(n: nat): R.Ring
      requires Valid() && handle.Some?
      reads this, ring, ring.current, ring.current.slots, HandleRing()
    {
      var h := handle.value;
      if h.ring == ring.current then AllocSolo(h.ring.View(), n).0 else h.ring.View()
    }

    /** The current ring cannot serve n bytes, and its table is full: the source panics. */
    ghost predicate Exhausted(n: nat)
      requires Valid()
      reads this, ring, ring.current, ring.current.slots, HandleRing()
    {
      var (r, ok) := AllocSolo(ring.current.View(), n);
      !ok && r.tail - r.head >= R.SLOTS
    }

    /** Room elsewhere: a new slot, or a slice of its own when the ring refuses. */
    method FindRoom(h: Handle, needed: nat) returns (panics: bool, newBuf: Region, newHandle: Option<Handle>)
      requires Valid() && handle == Some(h)
      modifies ring, ring.current, ring.current.slots
      ensures ring.Valid() && Owns(h, buf) && h.ring.View() == old(Asked(needed)) && Separate(h.ring, ring.current)
      ensures panics == old(Exhausted(needed))
      ensures !panics ==> newBuf.Inside() && newBuf.len == needed
      ensures !panics && newHandle.Some? ==>
                Owns(newHandle.value, newBuf) && newHandle.value != h && newHandle.value.ring == ring.current
      ensures !panics && newHandle.None? ==> fresh(newBuf.mem)
      ensures !panics && newHandle.Some? ==> newBuf.mem == old(ring.current).slab || fresh(newBuf.mem)
    {
      hide AllocSolo;
      AllocKeeps(h.ring.View(), needed, h.idx);
      var out := ring.Alloc(needed);
      panics, newBuf, newHandle := out.SlotsExhausted?, buf, None;
      if out.Granted? {
        newBuf, newHandle := Region(out.handle.ring.slab, out.start, needed), Some(out.handle);
      } else if !panics {
        var made := new byte[needed](_ => 0);
        newBuf := Region(made, 0, needed);
      }
    }

    /** Releases the slot of h; the slot that takes its place stays as it is. */
    method Drop(h: Handle, old_: Region, newHandle: Option<Handle>, newBuf: Region)
      requires ring.Valid() && Owns(h, old_) && Separate(h.ring, ring.current)
      requires newHandle.Some? ==>
                 Owns(newHandle.value, newBuf) && newHandle.value != h && newHandle.value.ring == ring.current
      modifies h.ring, h.ring.slots
      ensures ring.Valid() && h.ring.Valid() && h.ring.View() == ReleaseSolo(old(h.ring.View()), h.idx)
      ensures newHandle.Some? ==> Owns(newHandle.value, newBuf)
    {
      hide ReleaseSolo;
      ghost var r := h.ring.View();
      if newHandle.Some? && newHandle.value.ring == h.ring { ReleaseKeeps(r, h.idx, newHandle.value.idx); }
      var panics := h.ring.Release(h.idx);
      assert !panics;
    }

    /** The old bytes and the new unit behind them. */
    method Fill(newBuf: Region, data: seq<byte>, nalU: Nalu)
      requires newBuf.Inside() && newBuf.len == |data| + 4 + |nalU|
      modifies newBuf.mem
      ensures newBuf.Content() == data + Prefixed(nalU)
      ensures forall i :: 0 <= i < newBuf.mem.Length && !(newBuf.off <= i < newBuf.off + newBuf.len) ==>
                newBuf.mem[i] == old(newBuf.mem[i])
    {
      hide Prefixed;
      Put(newBuf.mem, newBuf.off, data);
      WriteUnit(newBuf, |data|, nalU);
    }

    /** Elsewhere: the bytes move, and the old slot is released. */
    method Move(h: Handle, nalU: Nalu) returns (panics: bool)
      requires Valid() && handle == Some(h)
      modifies this, ring, ring.current, ring.current.slots, ring.current.slab, h.ring, h.ring.slots
      ensures panics == old(Exhausted(buf.len + 4 + |nalU|))
      ensures panics ==> buf == old(buf) && handle == old(handle)
      ensures !panics ==> Valid() && buf.len == old(buf.len) + 4 + |nalU| && handle != old(handle)
      ensures !panics ==> buf.Content() == old(buf.Content()) + Prefixed(nalU)
      ensures !panics ==> h.ring.Valid() && h.ring.View() == ReleaseSolo(old(Asked(buf.len + 4 + |nalU|)), h.idx)
      ensures !panics && handle.None? ==> fresh(buf.mem)
      ensures !panics ==> Untouched(old(ring.current).slab, buf.off)
    {
      hide Prefixed, AllocSolo, ReleaseSolo, Owns, Exhausted;
      var oldData := buf.mem[buf.off..buf.off + buf.len];
      var newBuf, newHandle;
      panics, newBuf, newHandle := FindRoom(h, buf.len + 4 + |nalU|);
      if panics { return; }
      Fill(newBuf, oldData, nalU);
      Drop(h, buf, newHandle, newBuf);
      buf, handle := newBuf, newHandle;
    }

    /** appendToPacket: the picture's bytes are followed by the unit behind its length. The slot grows
        in place exactly when Grows says so; else the bytes move and the old slot is released. No
        other byte of the ring changes. */
    method AppendToPacket(nalU: Nalu) returns (panics: bool)
      requires Valid()
      modifies this, ring, ring.current, ring.current.slots, ring.current.slab, HandleRing()
      ensures panics == (old(handle).Some? && !old(Grows(4 + |nalU|)) && old(Exhausted(buf.len + 4 + |nalU|)))
      ensures panics ==> buf == old(buf) && handle == old(handle)
      ensures !panics ==> Valid() && buf.Content() == old(buf.Content()) + Prefixed(nalU)
      ensures old(handle).Some? && old(Grows(4 + |nalU|)) ==>
                handle == old(handle) && (buf.mem, buf.off) == old((buf.mem, buf.off)) &&
                Untouched(old(ring.current).slab, old(buf.off + buf.len))
      ensures old(handle).Some? && !old(Grows(4 + |nalU|)) && !panics ==>
                var h := old(handle).value;
                handle != old(handle) && h.ring.Valid() && (handle.None? ==> fresh(buf.mem)) &&
                h.ring.View() == ReleaseSolo(old(Asked(buf.len + 4 + |nalU|)), h.idx) &&
                Untouched(old(ring.current).slab, buf.off)
      ensures old(handle).None? ==> handle.None? && fresh(buf.mem) && Untouched(old(ring.current).slab, 0)
    {
      hide Prefixed, AllocSolo, ReleaseSolo, ExtendSolo, Owns;
      panics := false;
      if handle.Some? {
        var h := handle.value;
        var ok := Extend(h, nalU);
        if !ok { panics := Move(h, nalU); }
      } else {
        var made := new byte[buf.len + 4 + |nalU|](_ => 0);
        var newBuf := Region(made, 0, made.Length);
        Fill(newBuf, buf.mem[buf.off..buf.off + buf.len], nalU);
        buf := newBuf;
      }
    }
  }
}
