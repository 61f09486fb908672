/** format/hls: what holds in every state the muxer can reach. */
module HlsInvariants {
  import opened HlsModel

  // ----- Contents of fragments and segments -----

  function VideoTime(ps: seq<Stored>): nat {
    if ps == [] then 0 else
    var p := ps[|ps| - 1].packet;
    VideoTime(ps[..|ps| - 1]) + if p.video then p.duration else 0
  }

  function PacketsIn(fs: seq<Fragment>): seq<Stored> {
    if fs == [] then [] else PacketsIn(fs[..|fs| - 1]) + fs[|fs| - 1].packets
  }

  function AllPackets(segs: seq<Segment>): seq<Stored> {
    if segs == [] then [] else AllPackets(segs[..|segs| - 1]) + PacketsIn(segs[|segs| - 1].fragments)
  }

  function FragmentTime(fs: seq<Fragment>): nat {
    if fs == [] then 0 else FragmentTime(fs[..|fs| - 1]) + fs[|fs| - 1].duration
  }

  function PartsOf(seg: nat, fs: seq<Fragment>): seq<Line> {
    if fs == [] then [] else PartsOf(seg, fs[..|fs| - 1]) + [PartOf(seg, fs[|fs| - 1])]
  }

  /** The time a segment has reached, its open fragment included. */
  function Length(s: Segment): nat
    requires s.fragments != []
  {
    s.duration + if s.Current().finished then 0 else s.Current().duration
  }

  predicate HasInf(s: Segment) {
    s.lines == s.parts + [InfLine(s.id, s.duration)]
  }

  ghost predicate EarlierFull(fs: seq<Fragment>) {
    forall k :: 0 <= k < |fs| - 1 ==> fs[k].finished && fs[k].duration == VideoTime(fs[k].packets)
  }

  ghost predicate FragmentIds(fs: seq<Fragment>) {
    forall k :: 0 <= k < |fs| ==> fs[k].id == k % 256
  }

  /** All fragments but the last are closed with their exact time; the last is open exactly when
      the segment is, and may have had its time dropped when it was closed. The segment's time
      and text are those of its closed fragments. */
  ghost predicate SegmentOk(s: Segment) {
    var fs, n := s.fragments, |s.fragments|;
    && n > 0 && EarlierFull(fs) && FragmentIds(fs)
    && fs[n - 1].finished == s.finished
    && (fs[n - 1].duration == VideoTime(fs[n - 1].packets) || (s.finished && fs[n - 1].duration == 0))
    && s.duration == FragmentTime(fs[..n - 1]) + (if s.finished then fs[n - 1].duration else 0)
    && s.parts == PartsOf(s.id, fs[..n - 1]) +
      (if s.finished && fs[n - 1].duration > 0 then [PartOf(s.id, fs[n - 1])] else [])
    && (if s.finished then HasInf(s) || s.duration == 0 else s.lines == s.parts + [HintLine(s.id, fs[n - 1].id)])
  }

  /** Closed by closeSeg: the full time of its packets, and an EXTINF line. */
  ghost predicate WellClosed(s: Segment) {
    s.finished && HasInf(s) && s.duration == VideoTime(PacketsIn(s.fragments))
  }

  lemma VideoTimeAppend(a: seq<Stored>, b: seq<Stored>)
    ensures VideoTime(a + b) == VideoTime(a) + VideoTime(b)
  {
    if b == [] {
      assert a + b == a;
    } else {
      VideoTimeAppend(a, b[..|b| - 1]);
      assert (a + b)[..|a + b| - 1] == a + b[..|b| - 1];
    }
  }

  lemma VideoTimeOne(ps: seq<Stored>, p: Stored)
    ensures VideoTime(ps + [p]) == VideoTime(ps) + if p.packet.video then p.packet.duration else 0
  {
    assert (ps + [p])[..|ps|] == ps;
  }

  lemma {:induction false} FullTime(fs: seq<Fragment>)
    requires forall k :: 0 <= k < |fs| ==> fs[k].duration == VideoTime(fs[k].packets)
    ensures FragmentTime(fs) == VideoTime(PacketsIn(fs))
  {
    if fs != [] {
      FullTime(fs[..|fs| - 1]);
      VideoTimeAppend(PacketsIn(fs[..|fs| - 1]), fs[|fs| - 1].packets);
    }
  }

  // ----- Each operation on a segment keeps it in order -----

  lemma NewOk(id: nat, codec: Codec, version: nat, discontinuity: bool, epoch: int)
    ensures SegmentOk(NewSegment(id, codec, version, discontinuity, epoch))
    ensures PacketsIn(NewSegment(id, codec, version, discontinuity, epoch).fragments) == []
  {
    var s := NewSegment(id, codec, version, discontinuity, epoch);
    assert s.fragments[..0] == [];
    assert s.parts == PartsOf(s.id, s.fragments[..0]);
  }

  lemma WriteKeepsOk(s: Segment, target: nat, p: Stored)
    requires SegmentOk(s) && !s.finished
    ensures SegmentOk(WriteSegment(s, target, p)) && !WriteSegment(s, target, p).finished
  {
    hide VideoTime, PartsOf, FragmentTime;
    var s', n := WriteSegment(s, target, p), |s.fragments|;
    var f := WriteFragment(s.Current(), target, p);
    VideoTimeOne(s.Current().packets, p);
    assert f.duration == VideoTime(f.packets);
    if f.finished {
      WriteFullOk(s, f);
    } else {
      assert s'.fragments[..n - 1] == s.fragments[..n - 1];
    }
  }

  lemma WriteFullOk(s: Segment, f: Fragment)
    requires SegmentOk(s) && !s.finished && f.finished && f.duration == VideoTime(f.packets) && f.id == s.Current().id
    ensures var next, parts := NewFragment((f.id + 1) % 256), s.parts + [PartOf(s.id, f)];
            SegmentOk(s.(duration := s.duration + f.duration, fragments := s.fragments[|s.fragments| - 1 := f] + [next],
                         parts := parts, lines := parts + [HintLine(s.id, next.id)]))
  {
    hide VideoTime, EarlierFull, FragmentIds;
    var n := |s.fragments|;
    var next := NewFragment((f.id + 1) % 256);
    var fs := s.fragments[n - 1 := f] + [next];
    assert fs[..n][..n - 1] == s.fragments[..n - 1] && fs[..n][n - 1] == f;
    assert FragmentTime(fs[..n]) == FragmentTime(s.fragments[..n - 1]) + f.duration;
    assert PartsOf(s.id, fs[..n]) == PartsOf(s.id, s.fragments[..n - 1]) + [PartOf(s.id, f)];
    assert next.duration == VideoTime(next.packets) by { VideoTimeNone(); }
    var front := s.parts + [PartOf(s.id, f)];
    assert front + [] == front;
    FragmentsGrow(s.fragments, f, next);
  }

  lemma FragmentsGrow(fs: seq<Fragment>, f: Fragment, next: Fragment)
    requires fs != [] && EarlierFull(fs) && FragmentIds(fs) && f.finished && f.duration == VideoTime(f.packets)
    requires f.id == fs[|fs| - 1].id && next.id == (f.id + 1) % 256
    ensures EarlierFull(fs[|fs| - 1 := f] + [next]) && FragmentIds(fs[|fs| - 1 := f] + [next])
  {
    hide VideoTime;
  }

  lemma VideoTimeNone()
    ensures VideoTime([]) == 0
  {
  }

  lemma CloseOk(s: Segment)
    requires SegmentOk(s) && !s.finished
    ensures SegmentOk(CloseSegment(s)) && WellClosed(CloseSegment(s))
    ensures CloseSegment(s).duration == Length(s)
    ensures PacketsIn(CloseSegment(s).fragments) == PacketsIn(s.fragments)
  {
    hide VideoTime;
    var s', n := CloseSegment(s), |s.fragments|;
    assert s'.fragments[..n - 1] == s.fragments[..n - 1];
    FullTime(s.fragments);
    assert PacketsIn(s'.fragments) == PacketsIn(s.fragments);
  }

  lemma ForceCloseOk(s: Segment)
    requires SegmentOk(s) && !s.finished
    ensures SegmentOk(ForceClose(s)) && ForceClose(s).finished
    ensures ForceClose(s).duration == s.duration && (HasInf(ForceClose(s)) <==> s.duration > 0)
    ensures PacketsIn(ForceClose(s).fragments) == PacketsIn(s.fragments)
  {
    hide VideoTime;
    var s', n := ForceClose(s), |s.fragments|;
    assert s'.fragments[..n - 1] == s.fragments[..n - 1];
    assert PacketsIn(s'.fragments) == PacketsIn(s.fragments);
    assert s'.parts == s.parts && (s.parts + [HintLine(s.id, s.Current().id)])[|s.parts|].HintLine?;
    assert (s.parts + [InfLine(s.id, s.duration)])[|s.parts|].InfLine?;
  }

  lemma WriteStores(s: Segment, target: nat, p: Stored)
    requires s.fragments != []
    ensures PacketsIn(WriteSegment(s, target, p).fragments) == PacketsIn(s.fragments) + [p]
  {
    var s', n := WriteSegment(s, target, p), |s.fragments|;
    var f := WriteFragment(s.Current(), target, p);
    var fs := s.fragments[n - 1 := f];
    assert fs[..n - 1] == s.fragments[..n - 1];
    assert PacketsIn(fs) == PacketsIn(s.fragments) + [p];
    if f.finished { assert s'.fragments[..n] == fs; }
  }

  lemma WriteLength(s: Segment, target: nat, p: Stored)
    requires SegmentOk(s) && !s.finished
    ensures Length(WriteSegment(s, target, p)) == Length(s) + if p.packet.video then p.packet.duration else 0
  {
  }

  // ----- The invariant -----

  function Discs(segs: seq<Segment>): nat {
    if segs == [] then 0 else Discs(segs[..|segs| - 1]) + if segs[|segs| - 1].discontinuity then 1 else 0
  }

  ghost predicate Counted(m: Muxer) {
    m.first <= |m.all| && m.mediaSequence == m.first && m.discontinuitySequence == Discs(m.all[..m.first])
  }

  ghost predicate Ids(all: seq<Segment>) {
    forall i :: 0 <= i < |all| ==> all[i].id == i
  }

  ghost predicate CacheCovers(segs: seq<Segment>, cache: map<nat, Codec>) {
    forall i :: 0 <= i < |segs| ==> segs[i].initVersion in cache && cache[segs[i].initVersion] == segs[i].codec
  }

  /** Segment ids count from 0; the two sequence numbers count what was evicted; the init cache
      holds exactly the versions of the live segments. */
  ghost predicate Numbered(m: Muxer) {
    && m.first < |m.all| && Counted(m) && Ids(m.all)
    && CacheCovers(Live(m), m.initCache) && m.initCache.Keys == Versions(Live(m))
  }

  /** The current segment is the open one, under the current codec parameters and epoch. */
  ghost predicate LastOpen(m: Muxer) {
    |m.all| > 0 &&
    var s := m.all[|m.all| - 1];
    SegmentOk(s) && !s.finished && s.codec == m.codecPars && s.initVersion == m.initVersion && s.epoch == m.tsOffset
  }

  /** How a segment relates to its successor: closed in full, or cut short by new codec parameters;
      a change of either version or epoch is announced by a discontinuity. */
  ghost predicate Link(s: Segment, next: Segment) {
    && SegmentOk(s) && s.finished
    && (next.initVersion == s.initVersion || (next.initVersion == s.initVersion + 1 && next.discontinuity))
    && (next.initVersion == s.initVersion ==> WellClosed(s) && next.codec == s.codec)
    && (next.epoch != s.epoch ==> next.discontinuity)
  }

  ghost predicate Linked(all: seq<Segment>) {
    forall i :: 0 <= i < |all| - 1 ==> Link(all[i], all[i + 1])
  }

  /** Every packet carries its timestamp relative to its epoch, and never a negative one. */
  ghost predicate Timed(s: Segment) {
    forall p :: p in PacketsIn(s.fragments) ==>
      p.offset == s.epoch && p.ts == if p.packet.ts < s.epoch then 0 else p.packet.ts - s.epoch
  }

  ghost predicate OpensOnKeyframe(s: Segment) {
    var ps := PacketsIn(s.fragments);
    s.codec.video && ps != [] ==> ps[0].packet.video && ps[0].packet.key
  }

  ghost predicate AllTimed(all: seq<Segment>) {
    forall i :: 0 <= i < |all| ==> Timed(all[i])
  }

  ghost predicate AllOpenOnKeyframe(all: seq<Segment>) {
    forall i :: 0 <= i < |all| ==> OpensOnKeyframe(all[i])
  }

  ghost predicate GateOk(c: Config, m: Muxer) {
    && |m.all| > 0
    && m.headerIndependent == (c.keyframeSplit && !m.capSplitSeen)
    && (m.headerIndependent ==> AllOpenOnKeyframe(m.all))
    && (c.keyframeSplit ==> (m.gateOpen <==> PacketsIn(m.all[|m.all| - 1].fragments) != []))
  }

  ghost predicate Inv(c: Config, m: Muxer) {
    Numbered(m) && LastOpen(m) && Linked(m.all) && AllTimed(m.all) && GateOk(c, m)
  }

  // ----- Eviction -----

  lemma DiscsStep(all: seq<Segment>, k: nat)
    requires k < |all|
    ensures Discs(all[..k + 1]) == Discs(all[..k]) + if all[k].discontinuity then 1 else 0
  {
    assert all[..k + 1][..k] == all[..k];
  }

  lemma OldestCounted(m: Muxer)
    requires Counted(m) && m.first < |m.all|
    ensures Counted(EvictOldest(m))
  {
    DiscsStep(m.all, m.first);
  }

  lemma {:induction false} DurationCounted(c: Config, m: Muxer)
    requires Counted(m) && m.first < |m.all|
    ensures Counted(EvictByDuration(c, m))
    decreases |m.all| - m.first
  {
    hide Discs, Durations;
    if |m.all| - m.first > 2 &&
      Durations(m.all[m.first..|m.all| - 1]) - m.all[m.first].duration >= c.minPlaylistDuration {
      OldestCounted(m);
      DurationCounted(c, EvictOldest(m));
    }
  }

  lemma {:induction false} CountCounted(c: Config, m: Muxer)
    requires Counted(m)
    ensures Counted(EvictByCount(c, m))
    decreases |m.all| - m.first
  {
    hide Discs, Durations;
    if |m.all| - m.first > c.segmentCount && Durations(Live(m)) > MaxPlaylist(c) {
      OldestCounted(m);
      CountCounted(c, EvictOldest(m));
    }
  }

  lemma EvictCounts(c: Config, m: Muxer)
    requires Started(m) && HlsModel.Current(m).duration == 0 && Counted(m)
    ensures var r := Evict(c, m);
            Counted(r) && OnlyEvicted(m, r) && r.initCache == m.initCache && r.first < |r.all|
  {
    hide Discs, Durations;
    if c.minPlaylistDuration > 0 {
      DurationCounted(c, m);
      DurationEvicts(c, m);
    } else {
      CountCounted(c, m);
      CountEvicts(c, m);
    }
  }

  /** After eviction the numbers fit the live segments and the cache holds just their versions. */
  lemma EvictNumbers(c: Config, m: Muxer)
    requires Started(m) && HlsModel.Current(m).duration == 0 && Counted(m) && Ids(m.all) &&
               CacheCovers(Live(m), m.initCache)
    ensures Numbered(EvictOldSegments(c, m)) && OnlyEvicted(m, EvictOldSegments(c, m))
  {
    hide Discs, Durations, Ids, CleanupInitCache, CacheCovers, Evict, Versions;
    EvictCounts(c, m);
    var r := Evict(c, m);
    assert Live(r) == Live(m)[r.first - m.first..];
    CoversFewer(Live(m), m.initCache, r.first - m.first);
    CleanupKeeps(r);
    assert Live(CleanupInitCache(r)) == Live(r);
  }

  lemma CoversFewer(segs: seq<Segment>, cache: map<nat, Codec>, k: nat)
    requires CacheCovers(segs, cache) && k <= |segs|
    ensures CacheCovers(segs[k..], cache)
  {
  }

  lemma CleanupKeeps(r: Muxer)
    requires r.first < |r.all| && CacheCovers(Live(r), r.initCache)
    ensures var k := CleanupInitCache(r);
            k.initCache.Keys == Versions(Live(r)) && CacheCovers(Live(r), k.initCache) &&
              k == r.(initCache := k.initCache)
  {
    var k := CleanupInitCache(r);
    forall i | 0 <= i < |Live(r)| ensures Live(r)[i].initVersion in Versions(Live(r)) {
      assert Live(r)[i] in Live(r);
    }
    forall v | v in Versions(Live(r)) ensures v in r.initCache {
      var s :| s in Live(r) && s.initVersion == v;
      var j :| 0 <= j < |Live(r)| && Live(r)[j] == s;
    }
  }

  // ----- Opening the next segment -----

  ghost predicate SameSegment(s: Segment, closed: Segment) {
    && closed.id == s.id && closed.codec == s.codec && closed.initVersion == s.initVersion
    && closed.discontinuity == s.discontinuity && closed.epoch == s.epoch
    && PacketsIn(closed.fragments) == PacketsIn(s.fragments)
  }

  function NextSegment(m: Muxer, discontinuity: bool): Segment
    requires Started(m)
  {
    NewSegment(HlsModel.Current(m).id + 1, m.codecPars, m.initVersion, discontinuity, m.tsOffset)
  }

  /** What Succeed needs: everything in order but the last segment, which closed can replace. */
  ghost predicate CanSucceed(m: Muxer, closed: Segment, discontinuity: bool) {
    && Started(m) && Counted(m) && Linked(m.all) && Ids(m.all) && CacheCovers(Live(m), m.initCache)
    && m.initVersion in m.initCache && m.initCache[m.initVersion] == m.codecPars
    && SameSegment(HlsModel.Current(m), closed) && Link(closed, NextSegment(m, discontinuity))
  }

  lemma LinkAppend(all: seq<Segment>, closed: Segment, next: Segment)
    requires all != [] && Linked(all) && SameSegment(all[|all| - 1], closed) && Link(closed, next)
    ensures Linked(all[..|all| - 1] + [closed, next])
  {
    hide SegmentOk, WellClosed;
    var all', n := all[..|all| - 1] + [closed, next], |all|;
    forall i | 0 <= i < |all'| - 1 ensures Link(all'[i], all'[i + 1]) {
      if i < n - 1 { assert Link(all[i], all[i + 1]); }
    }
  }

  lemma CoversAppend(all: seq<Segment>, first: nat, cache: map<nat, Codec>, closed: Segment, next: Segment)
    requires first < |all| && CacheCovers(all[first..], cache) && next.initVersion in cache &&
               cache[next.initVersion] == next.codec
    requires closed.initVersion == all[|all| - 1].initVersion && closed.codec == all[|all| - 1].codec
    ensures CacheCovers((all[..|all| - 1] + [closed, next])[first..], cache)
  {
    var segs, segs' := all[first..], (all[..|all| - 1] + [closed, next])[first..];
    assert segs' == segs[..|segs| - 1] + [closed, next];
    assert segs[|segs| - 1] == all[|all| - 1];
  }

  lemma SucceedKeeps(c: Config, m: Muxer, closed: Segment, discontinuity: bool)
    requires CanSucceed(m, closed, discontinuity)
    ensures var r := Succeed(c, m, closed, discontinuity);
            Numbered(r) && LastOpen(r) && Linked(r.all) &&
            r == m.(all := m.all[..|m.all| - 1] + [closed, NextSegment(m, discontinuity)], first := r.first,
                    mediaSequence := r.mediaSequence, discontinuitySequence := r.discontinuitySequence, initCache :=
                      r.initCache)
  {
    hide SegmentOk, Link, PacketsIn, EvictOldSegments, Linked, Discs, CacheCovers;
    var next := NextSegment(m, discontinuity);
    var grown := m.(all := m.all[..|m.all| - 1] + [closed, next]);
    LinkAppend(m.all, closed, next);
    NewOk(next.id, m.codecPars, m.initVersion, discontinuity, m.tsOffset);
    CoversAppend(m.all, m.first, m.initCache, closed, next);
    assert grown.all[..m.first] == m.all[..m.first];
    EvictNumbers(c, grown);
  }

  lemma TimedSucceeds(all: seq<Segment>, closed: Segment, next: Segment)
    requires all != [] && AllTimed(all) && SameSegment(all[|all| - 1], closed) && PacketsIn(next.fragments) == []
    ensures AllTimed(all[..|all| - 1] + [closed, next])
  {
    hide PacketsIn;
    var all' := all[..|all| - 1] + [closed, next];
    assert Timed(all[|all| - 1]);
    forall i | 0 <= i < |all'| ensures Timed(all'[i]) {
      if i < |all| - 1 { assert all'[i] == all[i]; }
    }
  }

  lemma OpensSucceeds(all: seq<Segment>, closed: Segment, next: Segment)
    requires all != [] && AllOpenOnKeyframe(all) && SameSegment(all[|all| - 1], closed) &&
               PacketsIn(next.fragments) == []
    ensures AllOpenOnKeyframe(all[..|all| - 1] + [closed, next])
  {
    hide PacketsIn;
    assert OpensOnKeyframe(all[|all| - 1]);
  }

  /** Before a packet is stored: as between steps, except that the gate may stand open in front of
      an empty segment whose first packet may be any that opens an epoch. */
  ghost predicate Ready(c: Config, m: Muxer, p: Packet) {
    && Numbered(m) && LastOpen(m) && Linked(m.all) && AllTimed(m.all)
    && m.headerIndependent == (c.keyframeSplit && !m.capSplitSeen)
    && (c.keyframeSplit ==> m.gateOpen)
    && (m.headerIndependent ==>
          AllOpenOnKeyframe(m.all) && (PacketsIn(m.all[|m.all| - 1].fragments) == [] ==> CanOpenEpoch(m, p)))
  }

  ghost predicate CanRotate(m: Muxer, discontinuity: bool) {
    && Numbered(m) && Linked(m.all) && Started(m)
    && var s := HlsModel.Current(m);
       SegmentOk(s) && !s.finished && s.codec == m.codecPars && s.initVersion == m.initVersion &&
         (s.epoch != m.tsOffset ==> discontinuity)
  }

  lemma RotateSucceeds(m: Muxer, discontinuity: bool)
    requires CanRotate(m, discontinuity)
    ensures CanSucceed(m, CloseSegment(HlsModel.Current(m)), discontinuity)
  {
    hide SegmentOk, PacketsIn, Linked, Ids, CloseSegment, WellClosed, Discs;
    CloseOk(HlsModel.Current(m));
    CloseSame(HlsModel.Current(m));
    assert Live(m)[|Live(m)| - 1] == HlsModel.Current(m);
  }

  lemma CloseSame(s: Segment)
    requires SegmentOk(s) && !s.finished
    ensures SameSegment(s, CloseSegment(s)) && CloseSegment(s).finished
  {
    hide SegmentOk, PacketsIn;
    CloseOk(s);
  }

  lemma RotateKeeps(c: Config, m: Muxer, discontinuity: bool)
    requires CanRotate(m, discontinuity) && AllTimed(m.all)
    ensures var r := Rotate(c, m, discontinuity);
            && Numbered(r) && LastOpen(r) && Linked(r.all) && AllTimed(r.all)
            && r == m.(all := r.all, first := r.first, manifestDirty := true,
                       mediaSequence := r.mediaSequence, discontinuitySequence := r.discontinuitySequence, initCache :=
                         r.initCache)
            && r.all == m.all[..|m.all| - 1] + [CloseSegment(HlsModel.Current(m)), NextSegment(m, discontinuity)]
    ensures AllOpenOnKeyframe(m.all) ==> AllOpenOnKeyframe(Rotate(c, m, discontinuity).all)
    ensures PacketsIn(NextSegment(m, discontinuity).fragments) == []
  {
    hide SegmentOk, PacketsIn, Linked, AllTimed, AllOpenOnKeyframe, Succeed, CloseSegment, NewSegment, Counted, Ids,
         CacheCovers, CanSucceed, Link;
    var s := HlsModel.Current(m);
    var closed, next := CloseSegment(s), NextSegment(m, discontinuity);
    CloseSame(s);
    NewOk(HlsModel.Current(m).id + 1, m.codecPars, m.initVersion, discontinuity, m.tsOffset);
    RotateSucceeds(m, discontinuity);
    SucceedKeeps(c, m, closed, discontinuity);
    StayNumbered(Succeed(c, m, closed, discontinuity));
    TimedSucceeds(m.all, closed, next);
    if AllOpenOnKeyframe(m.all) { OpensSucceeds(m.all, closed, next); }
  }

  /** The invariant does not look at the dirty flag. */
  lemma StayNumbered(m: Muxer)
    requires Numbered(m)
    ensures Numbered(m.(manifestDirty := true))
  {
    hide Ids, CacheCovers, Discs;
    assert Live(m) == Live(m.(manifestDirty := true));
  }

  lemma RebaseKeeps(c: Config, m: Muxer, g: Muxer, p: Packet)
    requires Inv(c, m) && !Gated(c, m, p) && g == OpenGate(c, m) && Started(g)
    ensures Started(Rebase(c, g, p)) && Ready(c, Rebase(c, g, p), p)
  {
    hide SegmentOk, PacketsIn, Linked, AllTimed, AllOpenOnKeyframe, Rotate, Discs, Ids, CacheCovers, CloseSegment,
         NewSegment;
    assert Live(g) == Live(m);
    RebaseStarted(c, g, p);
    if Wraps(c, g, p) {
      var g' := g.(tsOffset := p.ts);
      assert Live(g') == Live(m);
      RotateKeeps(c, g', true);
    }
  }

  lemma SplitKeeps(c: Config, m: Muxer, p: Packet)
    requires Ready(c, m, p) && Started(m)
    ensures Started(Split(c, m, p)) && Ready(c, Split(c, m, p), p)
  {
    hide SegmentOk, PacketsIn, Linked, AllTimed, AllOpenOnKeyframe, Rotate, Discs, Ids, CacheCovers, CloseSegment,
         NewSegment;
    SplitStarted(c, m, p);
    RotateKeeps(c, m, false);
    var capped := m.(capSplitSeen := true, headerIndependent := false);
    assert Live(capped) == Live(m);
    RotateKeeps(c, capped, false);
  }

  lemma LinksStay(all: seq<Segment>, s: Segment)
    requires Linked(all) && all != []
    requires var t := all[|all| - 1];
             s.codec == t.codec && s.initVersion == t.initVersion && s.discontinuity == t.discontinuity &&
               s.epoch == t.epoch
    ensures Linked(all[|all| - 1 := s])
  {
    hide SegmentOk, WellClosed;
    var all' := all[|all| - 1 := s];
    forall i | 0 <= i < |all| - 1 ensures Link(all'[i], all'[i + 1]) {
      assert Link(all[i], all[i + 1]);
    }
  }

  lemma TimedStay(all: seq<Segment>, s: Segment, p: Stored)
    requires AllTimed(all) && all != [] && s.epoch == all[|all| - 1].epoch
    requires PacketsIn(s.fragments) == PacketsIn(all[|all| - 1].fragments) + [p]
    requires p.offset == s.epoch && p.ts == if p.packet.ts < s.epoch then 0 else p.packet.ts - s.epoch
    ensures AllTimed(all[|all| - 1 := s])
  {
    hide PacketsIn;
    assert Timed(all[|all| - 1]);
    var all' := all[|all| - 1 := s];
    forall i | 0 <= i < |all| ensures Timed(all'[i]) {
      if i < |all| - 1 { assert Timed(all[i]); }
    }
  }

  lemma NumbersStay(m: Muxer, s: Segment)
    requires Numbered(m)
    requires var t := m.all[|m.all| - 1];
             s.id == t.id && s.codec == t.codec && s.initVersion == t.initVersion
    ensures Numbered(m.(all := m.all[|m.all| - 1 := s]))
  {
    hide Discs;
    var r := m.(all := m.all[|m.all| - 1 := s]);
    VersionsStay(m, s);
    assert r.all[..m.first] == m.all[..m.first];
    assert Live(r) == Live(m)[|Live(m)| - 1 := s];
  }

  lemma StoreKeepsSegments(c: Config, m: Muxer, p: Packet)
    requires Ready(c, m, p) && Started(m)
    ensures var r := Store(c, m, p);
            Started(r) && Numbered(r) && LastOpen(r) && Linked(r.all) && AllTimed(r.all)
  {
    hide PacketsIn, Discs, WriteSegment, Ids, CacheCovers, Linked, AllTimed, SegmentOk, AllOpenOnKeyframe;
    var s' := WriteSegment(HlsModel.Current(m), c.fragmentDuration, Place(m, p));
    StoredSegment(c, m, p);
    LinksStay(m.all, s');
    TimedStay(m.all, s', Place(m, p));
    NumbersStay(m, s');
    StayLive(m.(all := m.all[|m.all| - 1 := s']), Store(c, m, p));
    NonEmpty(s');
  }

  lemma NonEmpty(s: Segment)
    requires SegmentOk(s)
    ensures s.fragments != []
  {
  }

  lemma StayLive(m: Muxer, r: Muxer)
    requires Numbered(m) && r == m.(manifestDirty := r.manifestDirty)
    ensures Numbered(r)
  {
    hide Ids, CacheCovers, Discs;
    assert Live(m) == Live(r);
  }

  lemma StoredSegment(c: Config, m: Muxer, p: Packet)
    requires LastOpen(m) && Started(m)
    ensures var s, s' := HlsModel.Current(m), WriteSegment(HlsModel.Current(m), c.fragmentDuration, Place(m, p));
            && SegmentOk(s') && !s'.finished
            && s'.id == s.id && s'.codec == s.codec && s'.initVersion == s.initVersion &&
              s'.discontinuity == s.discontinuity && s'.epoch == s.epoch
            && PacketsIn(s'.fragments) == PacketsIn(s.fragments) + [Place(m, p)]
  {
    hide SegmentOk, PacketsIn;
    WriteKeepsOk(HlsModel.Current(m), c.fragmentDuration, Place(m, p));
    WriteStores(HlsModel.Current(m), c.fragmentDuration, Place(m, p));
  }

  lemma VersionsStay(m: Muxer, s: Segment)
    requires m.first < |m.all| && s.initVersion == m.all[|m.all| - 1].initVersion
    ensures Versions(m.all[|m.all| - 1 := s][m.first..]) == Versions(Live(m))
  {
    var a, b, n := m.all[|m.all| - 1 := s][m.first..], Live(m), |m.all| - m.first;
    assert a[..n - 1] == b[..n - 1];
    assert a == a[..n - 1] + [s] && b == b[..n - 1] + [m.all[|m.all| - 1]];
    assert b[n - 1] in b && a[n - 1] in a;
  }

  lemma StoreKeepsGate(c: Config, m: Muxer, p: Packet)
    requires Ready(c, m, p) && Started(m)
    ensures GateOk(c, Store(c, m, p))
  {
    hide PacketsIn, WriteSegment, SegmentOk, Numbered, Linked, AllTimed;
    StoredSegment(c, m, p);
    var r, n := Store(c, m, p), |m.all|;
    if m.headerIndependent {
      assert OpensOnKeyframe(m.all[n - 1]);
      forall i | 0 <= i < n ensures OpensOnKeyframe(r.all[i]) {
        if i < n - 1 { assert r.all[i] == m.all[i] && OpensOnKeyframe(m.all[i]); }
      }
    }
  }

  lemma WriteKeeps(c: Config, m: Muxer, p: Packet)
    requires Inv(c, m) && Started(m)
    ensures Inv(c, WritePacket(c, m, p))
  {
    hide Numbered, LastOpen, Linked, AllTimed, Ready, Store, Split, Rebase, AllOpenOnKeyframe;
    if !Gated(c, m, p) {
      RebaseKeeps(c, m, OpenGate(c, m), p);
      var based := Rebase(c, OpenGate(c, m), p);
      SplitKeeps(c, based, p);
      var split := Split(c, based, p);
      StoreKeepsSegments(c, split, p);
      StoreKeepsGate(c, split, p);
      PublishKeeps(c, Store(c, split, p));
    }
  }

  lemma PublishKeeps(c: Config, m: Muxer)
    requires Inv(c, m)
    ensures Inv(c, Publish(m))
  {
    hide SegmentOk, Linked, AllTimed, AllOpenOnKeyframe, PacketsIn, Discs, Ids, CacheCovers, Render;
    assert Live(Publish(m)) == Live(m);
  }

  lemma UpdateSucceeds(c: Config, m: Muxer, codec: Codec)
    requires Inv(c, m) && Started(m)
    ensures CanSucceed(m.(codecPars := codec, initVersion := m.initVersion + 1,
                          initCache := m.initCache[m.initVersion + 1 := codec]),
                       ForceClose(HlsModel.Current(m)), true)
  {
    hide SegmentOk, Linked, AllTimed, AllOpenOnKeyframe, PacketsIn, Discs, Ids, ForceClose;
    var m1 := m.(codecPars := codec, initVersion := m.initVersion + 1,
                 initCache := m.initCache[m.initVersion + 1 := codec]);
    ForceCloseOk(HlsModel.Current(m));
    ForceCloseSame(HlsModel.Current(m));
    VersionsAscend(m.all, m.initVersion);
    assert Live(m1) == Live(m);
  }

  lemma ForceCloseSame(s: Segment)
    requires SegmentOk(s) && !s.finished
    ensures SameSegment(s, ForceClose(s)) && ForceClose(s).finished
  {
    hide SegmentOk, PacketsIn;
    ForceCloseOk(s);
  }

  lemma UpdateKeeps(c: Config, m: Muxer, codec: Codec)
    requires Inv(c, m) && Started(m)
    ensures Inv(c, UpdateCodec(c, m, codec))
  {
    hide SegmentOk, Linked, AllTimed, AllOpenOnKeyframe, PacketsIn, Succeed, Discs, Ids, CacheCovers, ForceClose,
         NewSegment, CanSucceed, Render;
    if codec.video || codec.audio {
      var version, s := m.initVersion + 1, HlsModel.Current(m);
      var m1 := m.(codecPars := codec, initVersion := version, initCache := m.initCache[version := codec]);
      var closed, next := ForceClose(s), NextSegment(m1, true);
      ForceCloseSame(s);
      NewOk(s.id + 1, codec, version, true, m.tsOffset);
      UpdateSucceeds(c, m, codec);
      SucceedKeeps(c, m1, closed, true);
      TimedSucceeds(m.all, closed, next);
      if m.headerIndependent { OpensSucceeds(m.all, closed, next); }
      assert Live(UpdateCodec(c, m, codec)) == Live(Succeed(c, m1, closed, true));
    }
  }

  /** No live segment has a version above the current one. */
  lemma {:induction false} VersionsAscend(all: seq<Segment>, version: nat)
    requires Linked(all) && all != [] && all[|all| - 1].initVersion <= version
    ensures forall i :: 0 <= i < |all| ==> all[i].initVersion <= version
  {
    hide SegmentOk, WellClosed;
    if |all| > 1 {
      var front := all[..|all| - 1];
      assert Link(all[|all| - 2], all[|all| - 1]);
      forall i | 0 <= i < |front| - 1 ensures Link(front[i], front[i + 1]) {
        assert Link(all[i], all[i + 1]);
      }
      VersionsAscend(front, version);
    }
  }

  lemma InitKeeps(c: Config, codec: Codec)
    ensures Inv(c, Init(c, codec))
  {
    NewOk(0, codec, 0, false, 0);
    var m := Init(c, codec);
    assert m.all[..0] == [] && Live(m) == m.all;
    assert m.initCache.Keys == Versions(m.all) by {
      assert m.all[0] in m.all;
    }
  }

  /** Main result: in every state the muxer can reach, whatever packets and codec changes came, the
      live segments are numbered without gap from the media sequence number and never none, the
      discontinuity number counts the evicted discontinuities, the init cache holds exactly the
      versions in use, all segments but the last are closed, timestamps are relative to their
      epoch, and while the header says so every segment opens on a keyframe. */
  lemma {:induction false} Reachable(c: Config, codec: Codec, cmds: seq<Command>)
    ensures Inv(c, Run(c, codec, cmds))
  {
    hide Inv, WritePacket, UpdateCodec;
    if cmds == [] {
      InitKeeps(c, codec);
    } else {
      var m := Run(c, codec, cmds[..|cmds| - 1]);
      Reachable(c, codec, cmds[..|cmds| - 1]);
      match cmds[|cmds| - 1]
      case Write(p) => WriteKeeps(c, m, p);
      case Update(codec') => UpdateKeeps(c, m, codec');
    }
  }
}
