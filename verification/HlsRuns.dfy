/** format/hls: consequences of the invariant over whole runs: timelines, ownership of packets,
    segment lengths and what eviction keeps. */
module HlsRuns {
  import opened HlsModel
  import opened HlsInvariants

  // ----- Timelines -----

  /** Without a discontinuity in between, two segments share their epoch. */
  lemma {:induction false} EpochStays(all: seq<Segment>, i: nat, j: nat)
    requires Linked(all) && i <= j < |all| && Discs(all[..i + 1]) == Discs(all[..j + 1])
    ensures all[i].epoch == all[j].epoch
    decreases j - i
  {
    hide SegmentOk, WellClosed;
    if i < j {
      DiscsStep(all, j);
      DiscsGrow(all, i + 1, j);
      assert Link(all[j - 1], all[j]);
      EpochStays(all, i, j - 1);
    }
  }

  lemma {:induction false} DiscsGrow(all: seq<Segment>, i: nat, j: nat)
    requires i <= j <= |all|
    ensures Discs(all[..i]) <= Discs(all[..j])
    decreases j - i
  {
    if i < j {
      DiscsStep(all, j - 1);
      DiscsGrow(all, i, j - 1);
    }
  }

  /** Main result: in segments with the same discontinuity number timestamps are relative to one
      epoch, never negative, and ordered as they came in. */
  lemma TimelineIsOrdered(c: Config, codec: Codec, cmds: seq<Command>, i: nat, j: nat, p: Stored, q: Stored)
    requires var all := Run(c, codec, cmds).all;
             i <= j < |all| && p in PacketsIn(all[i].fragments) && q in PacketsIn(all[j].fragments) &&
             Discs(all[..i + 1]) == Discs(all[..j + 1])
    ensures p.offset == q.offset && p.ts >= 0 && q.ts >= 0
    ensures p.packet.ts <= q.packet.ts ==> p.ts <= q.ts
  {
    hide Run, Discs, PacketsIn, LastOpen, Numbered, Linked;
    Reachable(c, codec, cmds);
    var all := Run(c, codec, cmds).all;
    EpochStays(all, i, j);
    assert Timed(all[i]) && Timed(all[j]);
  }

  // ----- Packets -----

  lemma PacketsOfLast(all: seq<Segment>, s: Segment)
    requires all != []
    ensures AllPackets(all[|all| - 1 := s]) == AllPackets(all[..|all| - 1]) + PacketsIn(s.fragments)
  {
    assert all[|all| - 1 := s][..|all| - 1] == all[..|all| - 1];
  }

  lemma PacketsOfSucceeded(all: seq<Segment>, closed: Segment, next: Segment)
    requires all != [] && PacketsIn(closed.fragments) == PacketsIn(all[|all| - 1].fragments) &&
               PacketsIn(next.fragments) == []
    ensures AllPackets(all[..|all| - 1] + [closed, next]) == AllPackets(all)
  {
    var front := all[..|all| - 1];
    var all' := front + [closed, next];
    assert all'[..|all'| - 1] == front + [closed];
    assert (front + [closed])[..|front|] == front;
  }

  lemma RotateStores(c: Config, m: Muxer, discontinuity: bool)
    requires CanRotate(m, discontinuity) && AllTimed(m.all)
    ensures AllPackets(Rotate(c, m, discontinuity).all) == AllPackets(m.all)
  {
    hide PacketsIn, AllPackets, Rotate, SegmentOk, Linked, AllTimed, Numbered;
    RotateKeeps(c, m, discontinuity);
    CloseOk(HlsModel.Current(m));
    PacketsOfSucceeded(m.all, CloseSegment(HlsModel.Current(m)), NextSegment(m, discontinuity));
  }

  lemma StoreStores(c: Config, m: Muxer, p: Packet)
    requires Started(m) && LastOpen(m)
    ensures AllPackets(Store(c, m, p).all) == AllPackets(m.all) + [Place(m, p)]
  {
    hide PacketsIn, SegmentOk, WriteSegment;
    var s, n := HlsModel.Current(m), |m.all|;
    StoredSegment(c, m, p);
    PacketsOfLast(m.all, WriteSegment(s, c.fragmentDuration, Place(m, p)));
    PacketsOfLast(m.all, s);
    assert m.all[n - 1 := s] == m.all;
    assert AllPackets(m.all[..n - 1]) + PacketsIn(s.fragments) + [Place(m, p)] ==
           AllPackets(m.all[..n - 1]) + (PacketsIn(s.fragments) + [Place(m, p)]);
  }

  /** WritePacket stores the packet behind all others, or drops it at the gate. */
  lemma WriteStoresOnce(c: Config, m: Muxer, p: Packet)
    requires Inv(c, m) && Started(m)
    ensures var stored := AllPackets(WritePacket(c, m, p).all);
            if Gated(c, m, p) then stored == AllPackets(m.all)
            else |stored| == |AllPackets(m.all)| + 1 && stored[..|stored| - 1] == AllPackets(m.all) &&
                 stored[|stored| - 1].packet == p
  {
    hide PacketsIn, AllPackets, Rotate, SegmentOk, Linked, AllTimed, Numbered, Store, AllOpenOnKeyframe;
    if !Gated(c, m, p) {
      var g := OpenGate(c, m);
      RebaseKeeps(c, m, g, p);
      if Wraps(c, g, p) {
        StayNumberedAt(m, g.(tsOffset := p.ts));
        RotateStores(c, g.(tsOffset := p.ts), true);
      }
      SplitStores(c, Rebase(c, g, p), p);
      SplitKeeps(c, Rebase(c, g, p), p);
      StoreStores(c, Split(c, Rebase(c, g, p), p), p);
    }
  }

  lemma StayNumberedAt(m: Muxer, r: Muxer)
    requires Numbered(m) && r.all == m.all && r.first == m.first && r.mediaSequence == m.mediaSequence
    requires r.discontinuitySequence == m.discontinuitySequence && r.initCache == m.initCache
    ensures Numbered(r)
  {
    hide Ids, CacheCovers, Discs;
    assert Live(m) == Live(r);
  }

  lemma SplitStores(c: Config, m: Muxer, p: Packet)
    requires Started(m) && Ready(c, m, p)
    ensures AllPackets(Split(c, m, p).all) == AllPackets(m.all)
  {
    hide PacketsIn, AllPackets, Rotate, SegmentOk, Linked, AllTimed, Numbered, AllOpenOnKeyframe;
    RotateStores(c, m, false);
    var capped := m.(capSplitSeen := true, headerIndependent := false);
    StayNumberedAt(m, capped);
    RotateStores(c, capped, false);
  }

  lemma UpdateStores(c: Config, m: Muxer, codec: Codec)
    requires Inv(c, m) && Started(m)
    ensures AllPackets(UpdateCodec(c, m, codec).all) == AllPackets(m.all)
  {
    hide PacketsIn, AllPackets, SegmentOk, Linked, AllTimed, Numbered, Succeed, AllOpenOnKeyframe, Render, CanSucceed;
    if codec.video || codec.audio {
      var version, s := m.initVersion + 1, HlsModel.Current(m);
      var m1 := m.(codecPars := codec, initVersion := version, initCache := m.initCache[version := codec]);
      UpdateSucceeds(c, m, codec);
      SucceedKeeps(c, m1, ForceClose(s), true);
      ForceCloseSame(s);
      NewOk(s.id + 1, codec, version, true, m.tsOffset);
      PacketsOfSucceeded(m.all, ForceClose(s), NextSegment(m1, true));
    }
  }

  /** The packets accepted over a run, in order. */
  function Accepted(c: Config, codec: Codec, cmds: seq<Command>): seq<Packet> {
    if cmds == [] then [] else
    var front, m := cmds[..|cmds| - 1], Run(c, codec, cmds[..|cmds| - 1]);
    match cmds[|cmds| - 1]
    case Write(p) => if Gated(c, m, p) then Accepted(c, codec, front) else Accepted(c, codec, front) + [p]
    case Update(_) => Accepted(c, codec, front)
  }

  function Inputs(ps: seq<Stored>): seq<Packet> {
    seq(|ps|, i requires 0 <= i < |ps| => ps[i].packet)
  }

  lemma {:induction false} PacketsSplit(all: seq<Segment>, k: nat)
    requires k <= |all|
    ensures AllPackets(all) == AllPackets(all[..k]) + AllPackets(all[k..])
    decreases |all|
  {
    if k == |all| {
      assert all[..k] == all;
    } else {
      var front := all[..|all| - 1];
      PacketsSplit(front, k);
      assert front[..k] == all[..k] && front[k..] == all[k..][..|all[k..]| - 1];
    }
  }

  /** Main result: every accepted packet is held by exactly one segment, in the order of arrival:
      released with the evicted segments or still retained by the live ones. */
  lemma {:induction false} NothingLost(c: Config, codec: Codec, cmds: seq<Command>)
    ensures var m := Run(c, codec, cmds);
            && m.first <= |m.all|
            && Accepted(c, codec, cmds) == Inputs(AllPackets(m.all[..m.first])) + Inputs(AllPackets(Live(m)))
  {
    hide AllPackets, WritePacket, UpdateCodec, LastOpen, Linked, AllTimed, GateOk;
    var m := Run(c, codec, cmds);
    Reachable(c, codec, cmds);
    PacketsSplit(m.all, m.first);
    AcceptedStored(c, codec, cmds);
    assert Inputs(AllPackets(m.all[..m.first]) + AllPackets(Live(m))) ==
           Inputs(AllPackets(m.all[..m.first])) + Inputs(AllPackets(Live(m)));
  }

  lemma {:induction false} AcceptedStored(c: Config, codec: Codec, cmds: seq<Command>)
    ensures Accepted(c, codec, cmds) == Inputs(AllPackets(Run(c, codec, cmds).all))
  {
    hide AllPackets, WritePacket, UpdateCodec, Inv, Gated;
    if cmds == [] {
      NewOk(0, codec, 0, false, 0);
      AllPacketsNone(Init(c, codec).all[0]);
    } else {
      var front := cmds[..|cmds| - 1];
      var m := Run(c, codec, front);
      AcceptedStored(c, codec, front);
      Reachable(c, codec, front);
      match cmds[|cmds| - 1]
      case Write(p) => WriteStoresOnce(c, m, p);
      case Update(codec') => UpdateStores(c, m, codec');
    }
  }

  lemma AllPacketsNone(s: Segment)
    requires PacketsIn(s.fragments) == []
    ensures AllPackets([s]) == []
  {
    assert [s][..0] == [];
  }

  // ----- Lengths -----

  /** The length no segment may pass: the target, or the cap under keyframeSplit. */
  predicate Limited(c: Config) {
    !c.keyframeSplit || c.maxSegmentDuration > 0
  }

  function Limit(c: Config): nat {
    if c.keyframeSplit then c.maxSegmentDuration else c.segmentDuration
  }

  /** EXT-X-TARGETDURATION before it is rounded up to seconds. */
  function TargetDuration(c: Config): nat {
    if c.maxSegmentDuration > 0 then c.maxSegmentDuration else c.segmentDuration
  }

  ghost predicate AllWithin(all: seq<Segment>, limit: nat) {
    forall i :: 0 <= i < |all| ==> all[i].fragments != [] && Length(all[i]) <= limit
  }

  lemma RotateWithin(c: Config, m: Muxer, discontinuity: bool, limit: nat)
    requires CanRotate(m, discontinuity) && AllTimed(m.all) && AllWithin(m.all, limit)
    ensures var r := Rotate(c, m, discontinuity);
            AllWithin(r.all, limit) && Started(r) && !HasContent(HlsModel.Current(r))
  {
    hide PacketsIn, Rotate, SegmentOk, Linked, AllTimed, Counted, Ids, CacheCovers;
    RotateKeeps(c, m, discontinuity);
    var s := HlsModel.Current(m);
    CloseOk(s);
    assert CloseSegment(s).Current().finished;
  }

  lemma SplitWithin(c: Config, m: Muxer, p: Packet)
    requires Started(m) && Ready(c, m, p) && Limited(c) && AllWithin(m.all, Limit(c)) &&
               (p.video ==> p.duration <= Limit(c))
    ensures var r := Split(c, m, p);
            Started(r) && AllWithin(r.all, Limit(c)) && (p.video ==> Projected(HlsModel.Current(r), p) <= Limit(c))
  {
    hide PacketsIn, Rotate, SegmentOk, Linked, AllTimed, Numbered, AllOpenOnKeyframe;
    RotateWithin(c, m, false, Limit(c));
    var capped := m.(capSplitSeen := true, headerIndependent := false);
    StayNumberedAt(m, capped);
    RotateWithin(c, capped, false, Limit(c));
  }

  lemma StoreWithin(c: Config, m: Muxer, p: Packet, limit: nat)
    requires Started(m) && LastOpen(m) && AllWithin(m.all, limit) &&
               (p.video ==> Projected(HlsModel.Current(m), p) <= limit)
    ensures AllWithin(Store(c, m, p).all, limit)
  {
    hide SegmentOk, WriteSegment;
    StoredSegment(c, m, p);
    var s := WriteSegment(HlsModel.Current(m), c.fragmentDuration, Place(m, p));
    NonEmpty(s);
    WriteLength(HlsModel.Current(m), c.fragmentDuration, Place(m, p));
    LastIsOpen(HlsModel.Current(m));
  }

  lemma LastIsOpen(s: Segment)
    requires SegmentOk(s) && !s.finished
    ensures !s.Current().finished
  {
  }

  lemma WriteWithin(c: Config, m: Muxer, p: Packet)
    requires Inv(c, m) && Started(m) && Limited(c) && AllWithin(m.all, Limit(c)) && (p.video ==> p.duration <= Limit(c))
    ensures AllWithin(WritePacket(c, m, p).all, Limit(c))
  {
    hide PacketsIn, Rotate, SegmentOk, Linked, AllTimed, Numbered, AllOpenOnKeyframe, AllWithin, Split, Store, LastOpen;
    if !Gated(c, m, p) {
      var g := OpenGate(c, m);
      RebaseKeeps(c, m, g, p);
      var based := Rebase(c, g, p);
      if Wraps(c, g, p) {
        RebaseRotates(c, m, g, p);
        RotateWithin(c, g.(tsOffset := p.ts), true, Limit(c));
      }
      SplitWithin(c, based, p);
      SplitKeeps(c, based, p);
      StoreWithin(c, Split(c, based, p), p, Limit(c));
    }
  }

  lemma RebaseRotates(c: Config, m: Muxer, g: Muxer, p: Packet)
    requires Inv(c, m) && g == OpenGate(c, m)
    ensures CanRotate(g.(tsOffset := p.ts), true)
  {
    hide SegmentOk, Linked;
    StayNumberedAt(m, g.(tsOffset := p.ts));
    NonEmpty(m.all[|m.all| - 1]);
  }

  lemma UpdateWithin(c: Config, m: Muxer, codec: Codec, limit: nat)
    requires Inv(c, m) && Started(m) && AllWithin(m.all, limit)
    ensures AllWithin(UpdateCodec(c, m, codec).all, limit)
  {
    hide PacketsIn, SegmentOk, Linked, AllTimed, Numbered, Succeed, AllOpenOnKeyframe, Render, CanSucceed;
    if codec.video || codec.audio {
      var version, s := m.initVersion + 1, HlsModel.Current(m);
      var m1 := m.(codecPars := codec, initVersion := version, initCache := m.initCache[version := codec]);
      UpdateSucceeds(c, m, codec);
      SucceedKeeps(c, m1, ForceClose(s), true);
      ForceCloseOk(s);
    }
  }

  /** No video packet is longer than the limit. */
  ghost predicate Short(cmds: seq<Command>, limit: nat) {
    forall i :: 0 <= i < |cmds| ==> cmds[i].Write? ==> cmds[i].packet.video ==> cmds[i].packet.duration <= limit
  }

  /** Main result: when no video packet alone exceeds the limit, no segment ever does, and so none
      exceeds the advertised target duration. */
  lemma {:induction false} SegmentsStayWithin(c0: Config, codec: Codec, cmds: seq<Command>)
    requires var c := NewConfig(c0); Limited(c) && Short(cmds, Limit(c))
    ensures var c := NewConfig(c0);
            AllWithin(Run(c, codec, cmds).all, Limit(c)) && Limit(c) <= TargetDuration(c)
  {
    hide Inv, WritePacket, UpdateCodec;
    var c := NewConfig(c0);
    if cmds != [] {
      var m := Run(c, codec, cmds[..|cmds| - 1]);
      SegmentsStayWithin(c0, codec, cmds[..|cmds| - 1]);
      Reachable(c, codec, cmds[..|cmds| - 1]);
      match cmds[|cmds| - 1]
      case Write(p) => WriteWithin(c, m, p);
      case Update(codec') => UpdateWithin(c, m, codec', Limit(c));
    }
  }

  // ----- Eviction -----

  function ClosedTime(m: Muxer): nat
    requires m.first < |m.all|
  {
    Durations(m.all[m.first..|m.all| - 1])
  }

  lemma ClosedTimeStep(m: Muxer)
    requires m.first + 1 < |m.all|
    ensures ClosedTime(EvictOldest(m)) == ClosedTime(m) - m.all[m.first].duration
  {
    assert m.all[m.first..|m.all| - 1][1..] == m.all[m.first + 1..|m.all| - 1];
  }

  /** Eviction by duration leaves at least the minimum closed, and less than the oldest segment
      more than that, or at most one closed segment. */
  lemma {:induction false} DurationEvictionBounds(c: Config, m: Muxer)
    requires m.first < |m.all|
    ensures var r := EvictByDuration(c, m);
            && r.all == m.all
            && (r.first != m.first ==> ClosedTime(r) >= c.minPlaylistDuration && |r.all| - r.first >= 2)
            && (|r.all| - r.first <= 2 || ClosedTime(r) < c.minPlaylistDuration + r.all[r.first].duration)
    decreases |m.all| - m.first
  {
    hide Durations;
    if |m.all| - m.first > 2 && ClosedTime(m) - m.all[m.first].duration >= c.minPlaylistDuration {
      ClosedTimeStep(m);
      DurationEvictionBounds(c, EvictOldest(m));
    }
  }

  /** More segments, and more time, than a playlist should hold. */
  predicate Exceeds(c: Config, segs: seq<Segment>) {
    |segs| > c.segmentCount && Durations(segs) > MaxPlaylist(c)
  }

  /** Eviction by count stops at segmentCount segments or when those left no longer exceed the
      playlist length; it never takes a segment while they did not. */
  lemma {:induction false} CountEvictionBounds(c: Config, m: Muxer)
    requires m.first <= |m.all|
    ensures var r := EvictByCount(c, m);
            && r.all == m.all && m.first <= r.first
            && !Exceeds(c, Live(r))
            && (forall k :: m.first <= k < r.first ==> Exceeds(c, m.all[k..]))
    decreases |m.all| - m.first
  {
    hide Durations, MaxPlaylist;
    if |m.all| - m.first > c.segmentCount && Durations(Live(m)) > MaxPlaylist(c) {
      CountEvictionBounds(c, EvictOldest(m));
    }
  }
}
