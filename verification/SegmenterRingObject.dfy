/** writer/segmenter/segmenter.go: the pre-buffer as an object, its packets shifted in place. */
module SegmenterRingObject {
  import opened SegmenterRing
  import R = SegmenterRing

  class RingBuffer {
    const limits: Limits
    var packets: seq<Packet>
    var duration: int
    var bytes: int
    ghost var released: seq<Packet>

    constructor (limits: Limits)
      ensures this.limits == limits && View() == EMPTY && released == []
    {
      this.limits, packets, duration, bytes, released := limits, [], 0, 0, [];
    }

    ghost function View(): Ring
      reads this
    {
      Ring(packets, duration, bytes)
    }

    /** The packets behind idx move down by one place. */
    method DropPacketAt(idx: nat)
      requires idx < |packets|
      modifies this
      ensures View() == DropAt(old(View()), idx) && released == old(released) + [old(packets)[idx]]
    {
      var dropped := packets[idx];
      bytes := bytes - dropped.size;
      if bytes < 0 { bytes := 0; }
      if dropped.video {
        duration := duration - dropped.duration;
        if duration < 0 { duration := 0; }
      }
      released := released + [dropped];
      ghost var ps := packets;
      var i := idx;
      while i + 1 < |packets|
        invariant idx <= i < |packets| == |ps|
        invariant (forall k :: 0 <= k < idx ==> packets[k] == ps[k]) &&
                    (forall k :: idx <= k < i ==> packets[k] == ps[k + 1])
        invariant forall k :: i <= k < |ps| ==> packets[k] == ps[k]
        modifies `packets
      {
        packets := packets[i := packets[i + 1]];
        i := i + 1;
      }
      packets := packets[..|packets| - 1];
      assert packets == ps[..idx] + ps[idx + 1..];
    }

    method DropOver(limit: Limit)
      modifies this
      ensures var (r, dropped) := DropWhile(limits, old(View()), limit);
              View() == r && released == old(released) + dropped
    {
      hide DropAt;
      ghost var start, before := View(), released;
      while Over(limits, Ring(packets, duration, bytes), limit) && |packets| > 1
        invariant DropWhile(limits, start, limit).0 == DropWhile(limits, View(), limit).0
        invariant released + DropWhile(limits, View(), limit).1 == before + DropWhile(limits, start, limit).1
        decreases |packets|
      {
        ghost var r, rel := View(), released;
        DropShorter(r, 1);
        DropPacketAt(1);
        assert rel + ([r.packets[1]] + DropWhile(limits, View(), limit).1) ==
               released + DropWhile(limits, View(), limit).1;
      }
      assert released + [] == released;
    }

    method EnforceLimits()
      modifies this
      ensures var (r, dropped) := R.EnforceLimits(limits, old(View()));
              View() == r && released == old(released) + dropped
    {
      hide DropWhile;
      DropOver(Bytes);
      DropOver(Duration);
      DropOver(Count);
    }

    method Add(p: Packet)
      modifies this
      ensures var (r, dropped) := R.Add(limits, old(View()), p);
              View() == r && released == old(released) + dropped
    {
      packets := packets + [p];
      bytes := bytes + p.size;
      if p.video { duration := duration + p.duration; }
      EnforceLimits();
    }

    /** The first keyframe behind the first packet, or -1. */
    method FindTrim() returns (trimIdx: int)
      requires |packets| >= 1
      ensures trimIdx == (if NextKey(packets, 1) == |packets| then -1 else NextKey(packets, 1))
    {
      var i := 1;
      while i < |packets|
        invariant 1 <= i <= |packets| && NextKey(packets, 1) == NextKey(packets, i)
      {
        if packets[i].video && packets[i].key { return i; }
        i := i + 1;
      }
      return -1;
    }

    method Trim()
      modifies this
      ensures var (r, dropped) := R.Trim(limits, old(View()));
              View() == r && released == old(released) + dropped
    {
      hide R.EnforceLimits, TrimWindow;
      ghost var before := released;
      TrimToKey();
      ghost var (w, cut) := TrimWindow(limits, old(View()));
      EnforceLimits();
      Associate(before, cut, R.EnforceLimits(limits, w).1);
    }

    method TrimToKey()
      modifies this
      ensures var (r, dropped) := TrimWindow(limits, old(View()));
              View() == r && released == old(released) + dropped
    {
      hide CutAt;
      ghost var start, before := View(), released;
      while |packets| > 1 && duration > limits.maxDur
        invariant TrimWindow(limits, start).0 == TrimWindow(limits, View()).0
        invariant released + TrimWindow(limits, View()).1 == before + TrimWindow(limits, start).1
        decreases |packets|
      {
        var trimIdx := FindTrim();
        if trimIdx == -1 { break; }
        ghost var r, rel := View(), released;
        CutIs(r, trimIdx);
        CutFront(trimIdx);
        Associate(rel, r.packets[..trimIdx], TrimWindow(limits, View()).1);
      }
      assert released + [] == released;
    }

    method CutFront(k: nat)
      requires k <= |packets|
      modifies this
      ensures View() == CutAt(old(View()), k)
      ensures released == old(released) + old(packets)[..k]
    {
      var trimDur, i := 0, 0;
      ghost var size := bytes;
      while i < k
        invariant packets == old(packets) && duration == old(duration) && 0 <= i <= k
        invariant trimDur == Time(packets[..i]) && bytes == size - Size(packets[..i]) &&
                    released == old(released) + packets[..i]
      {
        assert packets[..i + 1] == packets[..i] + [packets[i]];
        SumsAppend(packets[..i], [packets[i]]);
        SumsOne(packets[i]);
        if packets[i].video { trimDur := trimDur + packets[i].duration; }
        bytes := bytes - packets[i].size;
        released := released + [packets[i]];
        i := i + 1;
      }
      packets := packets[k..];
      duration := duration - trimDur;
    }

    method Clear()
      modifies this
      ensures View() == EMPTY && released == old(released) + old(packets)
    {
      released := released + packets;
      packets, duration, bytes := [], 0, 0;
    }

    method Drain() returns (pkts: seq<Packet>)
      modifies this
      ensures View() == EMPTY && pkts == old(packets) && released == old(released)
    {
      pkts := packets;
      packets, duration, bytes := [], 0, 0;
    }
  }
}
