/** format/hls: segments, fragments and the muxer's state as values, and what each operation does to
    them. Evicted segments stay in the history, so that properties can speak of the whole run. */
module HlsModel {
  /** Codec parameters of a stream pair, as far as the muxer looks at them. */
  datatype Codec = Codec(video: bool, audio: bool, details: nat)

  datatype Packet = Packet(id: nat, video: bool, key: bool, ts: int, duration: nat)

  /** A packet as written: its new timestamp and the timeline epoch it was written under. */
  datatype Stored = Stored(packet: Packet, ts: int, offset: int)

  /** Lines of a playlist, the fixed header aside. */
  datatype Line =
    | PartLine(seg: nat, frag: nat, duration: nat, independent: bool)
    | HintLine(seg: nat, frag: nat)
    | InfLine(seg: nat, duration: nat)
    | DiscontinuityLine
    | MapLine(version: nat)

  datatype Fragment = Fragment(id: nat, independent: bool, duration: nat, finished: bool, packets: seq<Stored>)

  /** parts is the text cached for closed fragments, lines the segment's current playlist text;
      epoch records the timeline epoch the segment was opened in. */
  datatype Segment = Segment(
    id: nat, codec: Codec, initVersion: nat, discontinuity: bool, epoch: int,
    duration: nat, fragments: seq<Fragment>, finished: bool, parts: seq<Line>, lines: seq<Line>)
  {
    function Current(): Fragment
      requires fragments != []
    {
      fragments[|fragments| - 1]
    }
  }

  /** maxSegmentDuration 0: no cap; minPlaylistDuration 0: eviction by count. */
  datatype Config = Config(
    keyframeSplit: bool, segmentCount: nat, segmentDuration: nat, maxSegmentDuration: nat,
    minPlaylistDuration: nat, fragmentDuration: nat, maxTS: int)

  /** NewHLSMuxer raises a cap below the target to the target. */
  function NewConfig(c: Config): (r: Config)
    ensures r.maxSegmentDuration == 0 || r.maxSegmentDuration >= r.segmentDuration
  {
    if c.maxSegmentDuration != 0 && c.maxSegmentDuration < c.segmentDuration
      then c.(maxSegmentDuration := c.segmentDuration) else c
  }

  datatype Playlist = Playlist(independent: bool, mediaSequence: nat, discontinuitySequence: nat, lines: seq<Line>)

  /** The muxer: all segments ever opened, those before first evicted. */
  datatype Muxer = Muxer(
    all: seq<Segment>, first: nat, mediaSequence: nat, discontinuitySequence: nat,
    codecPars: Codec, initVersion: nat, initCache: map<nat, Codec>,
    headerIndependent: bool, capSplitSeen: bool, tsOffset: int, gateOpen: bool,
    manifestDirty: bool, manifest: Playlist)

  // ----- Fragments and segments -----

  function NewFragment(id: nat): Fragment {
    Fragment(id, false, 0, false, [])
  }

  function NewSegment(id: nat, codec: Codec, initVersion: nat, discontinuity: bool, epoch: int): Segment {
    Segment(id, codec, initVersion, discontinuity, epoch, 0, [NewFragment(0)], false, [], [HintLine(id, 0)])
  }

  function WriteFragment(f: Fragment, target: nat, p: Stored): Fragment {
    var stored := f.packets + [p];
    if !p.packet.video then f.(packets := stored) else
    var duration := f.duration + p.packet.duration;
    Fragment(f.id, f.independent || p.packet.key, duration, f.finished || duration >= target, stored)
  }

  function PartOf(seg: nat, f: Fragment): Line {
    PartLine(seg, f.id, f.duration, f.independent)
  }

  /** The fragment takes the packet; a full one is succeeded by a new one. Fragment ids are bytes. */
  function WriteSegment(s: Segment, target: nat, p: Stored): Segment
    requires s.fragments != []
  {
    var f := WriteFragment(s.Current(), target, p);
    var fragments := s.fragments[|s.fragments| - 1 := f];
    if !f.finished then s.(fragments := fragments) else
    var next := NewFragment((f.id + 1) % 256);
    var parts := s.parts + [PartOf(s.id, f)];
    s.(duration := s.duration + f.duration, fragments := fragments + [next], parts := parts,
       lines := parts + [HintLine(s.id, next.id)])
  }

  /** The current fragment with its duration counted, or dropped, and its channel closed. */
  function Finish(s: Segment, f: Fragment): Segment
    requires s.fragments != []
  {
    s.(fragments := s.fragments[|s.fragments| - 1 := f.(finished := true)], finished := true)
  }

  function CloseSegment(s: Segment): Segment
    requires s.fragments != []
  {
    var f := s.Current();
    var counted := !f.finished && f.duration > 0;
    var duration := if counted then s.duration + f.duration else s.duration;
    var parts := if counted then s.parts + [PartOf(s.id, f)] else s.parts;
    Finish(s, f).(duration := duration, parts := parts, lines := parts + [InfLine(s.id, duration)])
  }

  /** What UpdateCodecParameters does instead: the time of an open fragment is dropped, and a
      segment without closed fragments gets no EXTINF. */
  function ForceClose(s: Segment): Segment
    requires s.fragments != []
  {
    var f := s.Current();
    var closed := Finish(s, if f.finished then f else f.(duration := 0));
    if !s.finished && s.duration > 0 then closed.(lines := s.parts + [InfLine(s.id, s.duration)]) else closed
  }

  // ----- The muxer -----

  function Live(m: Muxer): seq<Segment>
    requires m.first <= |m.all|
  {
    m.all[m.first..]
  }

  predicate Started(m: Muxer) {
    m.first < |m.all| && m.all[|m.all| - 1].fragments != []
  }

  function Current(m: Muxer): Segment
    requires Started(m)
  {
    m.all[|m.all| - 1]
  }

  function Durations(segs: seq<Segment>): nat {
    if segs == [] then 0 else segs[0].duration + Durations(segs[1..])
  }

  function EvictOldest(m: Muxer): Muxer
    requires m.first < |m.all|
  {
    m.(first := m.first + 1, mediaSequence := m.mediaSequence + 1,
       discontinuitySequence := m.discontinuitySequence + if m.all[m.first].discontinuity then 1 else 0)
  }

  /** The oldest segment can go while the other closed ones still last minPlaylistDuration. */
  function EvictByDuration(c: Config, m: Muxer): (r: Muxer)
    requires m.first < |m.all|
    ensures r.first < |r.all|
    decreases |m.all| - m.first
  {
    if |m.all| - m.first <= 2 then m
    else if Durations(m.all[m.first..|m.all| - 1]) - m.all[m.first].duration < c.minPlaylistDuration then m
    else EvictByDuration(c, EvictOldest(m))
  }

  function MaxPlaylist(c: Config): nat {
    if c.segmentCount * c.segmentDuration < 3 * c.segmentDuration then 3 * c.segmentDuration
      else c.segmentCount * c.segmentDuration
  }

  function EvictByCount(c: Config, m: Muxer): (r: Muxer)
    requires m.first <= |m.all|
    ensures r.first <= |r.all|
    decreases |m.all| - m.first
  {
    if |m.all| - m.first <= c.segmentCount then m
    else if Durations(Live(m)) <= MaxPlaylist(c) then m
    else EvictByCount(c, EvictOldest(m))
  }

  function Versions(segs: seq<Segment>): set<nat> {
    set s | s in segs :: s.initVersion
  }

  function CleanupInitCache(m: Muxer): Muxer
    requires m.first <= |m.all|
  {
    var used := Versions(Live(m));
    m.(initCache := map v | v in m.initCache && v in used :: m.initCache[v])
  }

  function Evict(c: Config, m: Muxer): (r: Muxer)
    requires m.first < |m.all|
    ensures r.first <= |r.all|
  {
    if c.minPlaylistDuration > 0 then EvictByDuration(c, m) else EvictByCount(c, m)
  }

  function EvictOldSegments(c: Config, m: Muxer): Muxer
    requires m.first < |m.all|
  {
    CleanupInitCache(Evict(c, m))
  }

  /** The current segment closed as given and a new one opened behind it. */
  function Succeed(c: Config, m: Muxer, closed: Segment, discontinuity: bool): Muxer
    requires Started(m)
  {
    var next := NewSegment(Current(m).id + 1, m.codecPars, m.initVersion, discontinuity, m.tsOffset);
    EvictOldSegments(c, m.(all := m.all[..|m.all| - 1] + [closed, next]))
  }

  function Rotate(c: Config, m: Muxer, discontinuity: bool): Muxer
    requires Started(m)
  {
    Succeed(c, m, CloseSegment(Current(m)), discontinuity).(manifestDirty := true)
  }

  predicate CanOpenEpoch(m: Muxer, p: Packet) {
    !m.codecPars.video || (p.video && p.key)
  }

  /** Packets before the first keyframe are dropped under keyframeSplit. */
  predicate Gated(c: Config, m: Muxer, p: Packet) {
    c.keyframeSplit && !m.gateOpen && !CanOpenEpoch(m, p)
  }

  predicate Wraps(c: Config, m: Muxer, p: Packet) {
    p.ts - m.tsOffset >= c.maxTS && CanOpenEpoch(m, p)
  }

  function OpenGate(c: Config, m: Muxer): Muxer {
    if c.keyframeSplit then m.(gateOpen := true) else m
  }

  /** The timeline starts again at a packet past maxTS that may open a segment. */
  function Rebase(c: Config, m: Muxer, p: Packet): Muxer
    requires Started(m)
  {
    if Wraps(c, m, p) then Rotate(c, m.(tsOffset := p.ts), true) else m
  }

  function Place(m: Muxer, p: Packet): Stored {
    Stored(p, if p.ts - m.tsOffset < 0 then 0 else p.ts - m.tsOffset, m.tsOffset)
  }

  predicate HasContent(s: Segment)
    requires s.fragments != []
  {
    s.duration > 0 || s.Current().duration > 0
  }

  function Projected(s: Segment, p: Packet): nat
    requires s.fragments != []
  {
    s.duration + s.Current().duration + p.duration
  }

  predicate AtKeyframe(c: Config, s: Segment, p: Packet) {
    p.key && s.duration >= c.segmentDuration
  }

  /** keyframeSplit: the cap is reached before a keyframe came. */
  predicate AtCap(c: Config, s: Segment, p: Packet)
    requires s.fragments != []
  {
    c.maxSegmentDuration > 0 && HasContent(s) && Projected(s, p) > c.maxSegmentDuration
  }

  function Split(c: Config, m: Muxer, p: Packet): Muxer
    requires Started(m)
  {
    var s := Current(m);
    if !p.video then m
    else if !c.keyframeSplit then (if HasContent(s) && Projected(s, p) > c.segmentDuration then Rotate(c, m, false)
                                   else m)
    else if AtKeyframe(c, s, p) then Rotate(c, m, false)
    else if AtCap(c, s, p) then Rotate(c, m.(capSplitSeen := true, headerIndependent := false), false)
    else m
  }

  function Store(c: Config, m: Muxer, p: Packet): Muxer
    requires Started(m)
  {
    var s := WriteSegment(Current(m), c.fragmentDuration, Place(m, p));
    m.(all := m.all[|m.all| - 1 := s],
       manifestDirty := m.manifestDirty || (p.video && |s.fragments| > |Current(m).fragments|))
  }

  // ----- The playlist -----

  /** updateIndexM3u8 over the live segments; version is the one of the last map line. */
  function Render(segs: seq<Segment>, version: int): seq<Line> {
    if segs == [] then [] else
    var s := segs[0];
    (if s.discontinuity then [DiscontinuityLine] else []) +
    (if s.initVersion != version then [MapLine(s.initVersion)] else []) + s.lines + Render(segs[1..], s.initVersion)
  }

  function PlaylistOf(m: Muxer): Playlist
    requires m.first <= |m.all|
  {
    Playlist(m.headerIndependent, m.mediaSequence, m.discontinuitySequence, Render(Live(m), -1))
  }

  function Publish(m: Muxer): Muxer
    requires m.first <= |m.all|
  {
    m.(manifestDirty := false, manifest := PlaylistOf(m))
  }

  // ----- Steps and runs -----

  /** Mux; the two parameters may not both be absent. */
  function Init(c: Config, codec: Codec): (m: Muxer)
    ensures Started(m)
  {
    Muxer([NewSegment(0, codec, 0, false, 0)], 0, 0, 0, codec, 0, map[0 := codec],
          c.keyframeSplit, false, 0, false, true,
          Playlist(false, 0, 0, []))
  }

  function Accept(c: Config, m: Muxer, p: Packet): Muxer
    requires Started(m)
  {
    RebaseStarted(c, OpenGate(c, m), p);
    var based := Rebase(c, OpenGate(c, m), p);
    SplitStarted(c, based, p);
    Store(c, Split(c, based, p), p)
  }

  function WritePacket(c: Config, m: Muxer, p: Packet): Muxer
    requires Started(m)
  {
    if Gated(c, m, p) then m else
    StoredStarted(c, m, p);
    var stored := Accept(c, m, p);
    if p.video && stored.manifestDirty then Publish(stored) else stored
  }

  function UpdateCodec(c: Config, m: Muxer, codec: Codec): Muxer
    requires Started(m)
  {
    if !codec.video && !codec.audio then m else
    var version := m.initVersion + 1;
    SucceedStarted(c, m.(codecPars := codec, initVersion := version, initCache := m.initCache[version := codec]),
                   ForceClose(Current(m)), true);
    var next := Succeed(c, m.(codecPars := codec, initVersion := version, initCache := m.initCache[version := codec]),
                        ForceClose(Current(m)), true);
    next.(gateOpen := false, manifest := PlaylistOf(next))
  }

  datatype Command = Write(packet: Packet) | Update(codec: Codec)

  function Step(c: Config, m: Muxer, cmd: Command): Muxer
    requires Started(m)
  {
    match cmd
    case Write(p) => WritePacket(c, m, p)
    case Update(codec) => UpdateCodec(c, m, codec)
  }

  function Run(c: Config, codec: Codec, cmds: seq<Command>): (m: Muxer)
    ensures Started(m)
  {
    if cmds == [] then Init(c, codec) else
    var m := Run(c, codec, cmds[..|cmds| - 1]);
    StepStarted(c, m, cmds[|cmds| - 1]);
    Step(c, m, cmds[|cmds| - 1])
  }

  // ----- Eviction always leaves the current segment -----

  /** Eviction moves the start of the live segments and the two counters, and nothing else. */
  ghost predicate OnlyEvicted(m: Muxer, r: Muxer) {
    && m.first <= r.first <= |m.all|
    && r == m.(first := r.first, mediaSequence := r.mediaSequence, discontinuitySequence := r.discontinuitySequence,
               initCache := r.initCache)
  }

  lemma {:induction false} DurationEvicts(c: Config, m: Muxer)
    requires m.first < |m.all|
    ensures OnlyEvicted(m, EvictByDuration(c, m)) && EvictByDuration(c, m).initCache == m.initCache
    decreases |m.all| - m.first
  {
    if |m.all| - m.first > 2 &&
      Durations(m.all[m.first..|m.all| - 1]) - m.all[m.first].duration >= c.minPlaylistDuration {
      DurationEvicts(c, EvictOldest(m));
    }
  }

  /** Even with segmentCount 0 the new, still empty segment stays: alone it lasts no time. */
  lemma {:induction false} CountEvicts(c: Config, m: Muxer)
    requires m.first < |m.all| && m.all[|m.all| - 1].duration == 0
    ensures OnlyEvicted(m, EvictByCount(c, m)) && EvictByCount(c, m).initCache == m.initCache
    ensures EvictByCount(c, m).first < |m.all|
    decreases |m.all| - m.first
  {
    if m.first + 1 == |m.all| {
      assert Live(m)[1..] == [];
      assert Durations(Live(m)) == 0;
    } else if |m.all| - m.first > c.segmentCount && Durations(Live(m)) > MaxPlaylist(c) {
      CountEvicts(c, EvictOldest(m));
    }
  }

  lemma EvictStarted(c: Config, m: Muxer)
    requires Started(m) && Current(m).duration == 0
    ensures Started(EvictOldSegments(c, m)) && OnlyEvicted(m, EvictOldSegments(c, m))
  {
    if c.minPlaylistDuration > 0 { DurationEvicts(c, m); } else { CountEvicts(c, m); }
  }

  lemma SucceedStarted(c: Config, m: Muxer, closed: Segment, discontinuity: bool)
    requires Started(m)
    ensures Started(Succeed(c, m, closed, discontinuity))
    ensures var next := NewSegment(Current(m).id + 1, m.codecPars, m.initVersion, discontinuity, m.tsOffset);
            OnlyEvicted(m.(all := m.all[..|m.all| - 1] + [closed, next]), Succeed(c, m, closed, discontinuity))
  {
    var next := NewSegment(Current(m).id + 1, m.codecPars, m.initVersion, discontinuity, m.tsOffset);
    EvictStarted(c, m.(all := m.all[..|m.all| - 1] + [closed, next]));
  }

  lemma RebaseStarted(c: Config, m: Muxer, p: Packet)
    requires Started(m)
    ensures Started(Rebase(c, m, p))
  {
    hide Succeed;
    if Wraps(c, m, p) { SucceedStarted(c, m.(tsOffset := p.ts), CloseSegment(Current(m)), true); }
  }

  lemma SplitStarted(c: Config, m: Muxer, p: Packet)
    requires Started(m)
    ensures Started(Split(c, m, p))
  {
    hide Succeed;
    SucceedStarted(c, m, CloseSegment(Current(m)), false);
    SucceedStarted(c, m.(capSplitSeen := true, headerIndependent := false), CloseSegment(Current(m)), false);
  }

  lemma StoredStarted(c: Config, m: Muxer, p: Packet)
    requires Started(m)
    ensures Started(Accept(c, m, p))
  {
    hide Rebase, Split;
    RebaseStarted(c, OpenGate(c, m), p);
    SplitStarted(c, Rebase(c, OpenGate(c, m), p), p);
  }

  lemma StepStarted(c: Config, m: Muxer, cmd: Command)
    requires Started(m)
    ensures Started(Step(c, m, cmd))
  {
    hide Accept, Succeed;
    match cmd
    case Write(p) => if !Gated(c, m, p) { StoredStarted(c, m, p); }
    case Update(codec) =>
      var version := m.initVersion + 1;
      SucceedStarted(c, m.(codecPars := codec, initVersion := version, initCache := m.initCache[version := codec]),
                     ForceClose(Current(m)), true);
  }
}
