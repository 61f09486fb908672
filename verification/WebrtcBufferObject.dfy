/** writer/webrtc/buffer.go as an object: groups and counters changed in place. */
module WebrtcBufferObject {
  import opened WebrtcBuffer

  class Buffer {
    const config: Config
    var gops: seq<Gop>
    var duration: int
    ghost var released: seq<Packet>

    constructor (config: Config)
      ensures this.config == config && View() == State([], 0, [])
    {
      this.config, gops, duration, released := config, [], 0, [];
    }

    ghost function View(): State
      reads this
    {
      State(gops, duration, released)
    }

    method DropOldestGOP()
      requires gops != []
      modifies this
      ensures View() == DropOldest(old(View()))
    {
      released := released + gops[0].packets;
      duration := duration - gops[0].duration;
      gops := gops[1..];
    }

    /** Moves the packets behind the second one down by one place; false when there are none. */
    method ShiftSingleGOP() returns (shifted: bool)
      requires Counted(View()) && |gops| == 1
      modifies this
      ensures shifted == (|old(gops)[0].packets| >= 2)
      ensures Counted(View()) && |gops| == 1
      ensures shifted ==>
                TimeOf(old(gops)[0].packets[1]) <= old(gops)[0].duration && View() == ShiftSingle(old(View()))
      ensures !shifted ==> View() == old(View())
    {
      var ps := gops[0].packets;
      if |ps| < 2 { return false; }
      ShiftCounted(View());
      var dropped := ps[1];
      var droppedDur := if dropped.video then dropped.duration else 0;
      released := released + [dropped];
      var kept := ps;
      var i := 1;
      while i + 1 < |kept|
        invariant 1 <= i <= |kept| - 1 && |kept| == |ps|
        invariant kept[0] == ps[0] && (forall k :: 1 <= k < i ==> kept[k] == ps[k + 1]) && forall k ::
                    i <= k < |ps| ==> kept[k] == ps[k]
      {
        kept := kept[i := kept[i + 1]];
        i := i + 1;
      }
      kept := kept[..|kept| - 1];
      assert kept == [ps[0]] + ps[2..];
      gops := [Gop(kept, gops[0].duration - droppedDur)];
      duration := duration - droppedDur;
      return true;
    }

    method AdjustHardCap()
      requires Counted(View())
      modifies this
      ensures View() == HardCap(config, old(View()))
    {
      hide Counted, DropOldest, ShiftSingle;
      if config.hardCap == 0 { return; }
      ghost var s := View();
      while |gops| > 1 && duration > config.hardCap && duration - gops[0].duration >= config.hardCap
        invariant Counted(View()) && DropWhileOver(View(), config.hardCap) == DropWhileOver(s, config.hardCap)
        decreases |gops|
      {
        DropCounted(View());
        DropFewer(View());
        DropOldestGOP();
      }
      ghost var d := View();
      while |gops| == 1 && duration > config.hardCap
        invariant Counted(View()) && ShiftWhileOver(View(), config.hardCap) == ShiftWhileOver(d, config.hardCap)
        decreases if |gops| == 1 then |gops[0].packets| else 0
      {
        ShiftFewer(View());
        var shifted := ShiftSingleGOP();
        if !shifted { return; }
      }
    }

    static lemma DropFewer(s: State)
      requires s.gops != []
      ensures |DropOldest(s).gops| == |s.gops| - 1
    {
    }

    static lemma ShiftFewer(s: State)
      requires Counted(s)
      ensures |s.gops| == 1 && |s.gops[0].packets| >= 2 ==>
                TimeOf(s.gops[0].packets[1]) <= s.gops[0].duration && |ShiftSingle(s).gops| == 1 &&
                |ShiftSingle(s).gops[0].packets| == |s.gops[0].packets| - 1
    {
      if |s.gops| == 1 && |s.gops[0].packets| >= 2 { ShiftCounted(s); }
    }

    method AdjustSize()
      requires gops != []
      modifies this
      ensures View() == WebrtcBuffer.AdjustSize(config, old(View()))
    {
      if duration < config.target || duration - gops[0].duration < config.target { return; }
      DropOldestGOP();
    }

    method AddPacket(p: Packet) returns (kept: bool)
      requires Counted(View())
      modifies this
      ensures Counted(View()) && (View(), kept) == WebrtcBuffer.AddPacket(config, old(View()), p)
    {
      hide HardCap, WebrtcBuffer.AdjustSize, Counted;
      ghost var s := View();
      AddCounted(config, s, p);
      var opens := p.video && p.key;
      if opens { gops := gops + [Gop([], 0)]; }
      if |gops| == 0 { return false; }
      var last := |gops| - 1;
      gops := gops[last := gops[last].(packets := gops[last].packets + [p])];
      if p.video {
        gops := gops[last := gops[last].(duration := gops[last].duration + p.duration)];
        duration := duration + p.duration;
      }
      GroupCounted(s);
      ghost var grouped := if Opens(p) then s.(gops := s.gops + [Gop([], 0)]) else s;
      AppendCounted(grouped, p);
      assert View() == Append(grouped, p);
      HardCapCounted(config, View());
      AdjustHardCap();
      if opens { AdjustSize(); }
      return true;
    }

    static lemma RestNone()
      ensures forall ts :: Seed([], ts) == [] && Rest([], ts) == []
      ensures Flatten([]) == []
    {
    }

    static lemma RestStep(ps: seq<Packet>, ts: int, i: nat, seed: seq<Packet>, rest: seq<Packet>)
      requires i < |ps|
      ensures seed + Seed(ps[i..], ts) ==
                (if ps[i].start < ts && ps[i].video then seed + [ps[i]] else seed) + Seed(ps[i + 1..], ts)
      ensures rest + Rest(ps[i..], ts) == (if ps[i].start < ts then rest else rest + [ps[i]]) + Rest(ps[i + 1..], ts)
    {
      assert ps[i..][1..] == ps[i + 1..];
    }

    method GetBuffer(ts: int) returns (seedBuf: seq<Packet>, restBuf: seq<Packet>)
      ensures (seedBuf, restBuf) == WebrtcBuffer.GetBuffer(gops, ts)
    {
      hide Flatten, Seed, Rest;
      RestNone();
      seedBuf, restBuf := [], [];
      var gopsID := 0;
      while gopsID < |gops| && (|gops[gopsID].packets| == 0 || gops[gopsID].packets[0].start <= ts)
        invariant 0 <= gopsID <= |gops| && FirstAfter(gops, ts, gopsID) == FirstAfter(gops, ts, 0)
      {
        gopsID := gopsID + 1;
      }
      assert FirstAfter(gops, ts, 0) == gopsID;
      if gopsID > 0 {
        var ps := gops[gopsID - 1].packets;
        var i := 0;
        assert ps[0..] == ps;
        while i < |ps|
          invariant 0 <= i <= |ps|
          invariant seedBuf + Seed(ps[i..], ts) == Seed(ps, ts) && restBuf + Rest(ps[i..], ts) == Rest(ps, ts)
        {
          RestStep(ps, ts, i, seedBuf, restBuf);
          if ps[i].start < ts {
            if ps[i].video { seedBuf := seedBuf + [ps[i]]; }
          } else {
            restBuf := restBuf + [ps[i]];
          }
          i := i + 1;
        }
        assert ps[i..] == [] && seedBuf + [] == seedBuf && restBuf + [] == restBuf;
      }
      ghost var first, head := gopsID, restBuf;
      var i := gopsID;
      while i < |gops|
        invariant first <= i <= |gops|
        invariant restBuf + Flatten(gops[i..]) == head + Flatten(gops[first..])
      {
        FlattenFrom(gops, i);
        assert restBuf + (gops[i].packets + Flatten(gops[i + 1..])) ==
               (restBuf + gops[i].packets) + Flatten(gops[i + 1..]);
        restBuf := restBuf + gops[i].packets;
        i := i + 1;
      }
      assert gops[0..] == gops && gops[i..] == [] && restBuf + [] == restBuf;
      assert restBuf == head + Flatten(gops[first..]);
      assert first == 0 ==> head == [] && restBuf == Flatten(gops);
    }

    /** Reset and Close. */
    method Reset()
      modifies this
      ensures View() == Clear(old(View()))
    {
      released := released + Flatten(gops);
      gops, duration := [], 0;
    }
  }
}
