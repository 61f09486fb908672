/** format/hls/muxer.go as an object: the segment map, the list of live ids and the counters, changed
    step by step. Every method does to its fields what the function of the same name in HlsModel
    does to the state it stands for. */
module HlsMuxer {
  import opened HlsModel
  import HlsInvariants

  // ----- The segment map and the id list -----

  /** The list and the map hold the same segments, each once and under its own id. */
  ghost predicate AgreeOn(segments: map<nat, Segment>, ids: seq<nat>) {
    && (forall i :: 0 <= i < |ids| ==> ids[i] in segments && segments[ids[i]].id == ids[i])
    && (forall i, j :: 0 <= i < j < |ids| ==> ids[i] != ids[j])
    && (forall id :: id in segments ==> id in ids)
  }

  ghost function Listed(segments: map<nat, Segment>, ids: seq<nat>): (s: seq<Segment>)
    requires AgreeOn(segments, ids)
    ensures |s| == |ids| && forall i :: 0 <= i < |ids| ==> ids[i] in segments && s[i] == segments[ids[i]]
  {
    seq(|ids|, i requires 0 <= i < |ids| => segments[ids[i]])
  }

  lemma OneAgrees(s: Segment)
    requires s.id == 0
    ensures AgreeOn(map[0 := s], [0]) && Listed(map[0 := s], [0]) == [s] && [] + Listed(map[0 := s], [0]) == [s]
  {
  }

  lemma AddAgrees(segments: map<nat, Segment>, ids: seq<nat>, s: Segment)
    requires AgreeOn(segments, ids) && s.id !in segments
    ensures AgreeOn(segments[s.id := s], ids + [s.id])
    ensures Listed(segments[s.id := s], ids + [s.id]) == Listed(segments, ids) + [s]
  {
    var ids' := ids + [s.id];
    assert ids'[|ids|] == s.id;
    assert forall id :: id in ids ==> id in ids';
  }

  lemma RemoveAgrees(segments: map<nat, Segment>, ids: seq<nat>)
    requires AgreeOn(segments, ids) && ids != []
    ensures AgreeOn(segments - {ids[0]}, ids[1..])
    ensures Listed(segments - {ids[0]}, ids[1..]) == Listed(segments, ids)[1..]
  {
    var rest := ids[1..];
    assert forall k :: 0 <= k < |rest| ==> rest[k] == ids[k + 1];
    forall id | id in segments - {ids[0]} ensures id in rest {
      var k :| 0 <= k < |ids| && ids[k] == id;
      assert rest[k - 1] == id;
    }
  }

  lemma SetAgrees(segments: map<nat, Segment>, ids: seq<nat>, s: Segment)
    requires AgreeOn(segments, ids) && ids != [] && s.id == ids[|ids| - 1]
    ensures AgreeOn(segments[s.id := s], ids)
    ensures Listed(segments[s.id := s], ids) == Listed(segments, ids)[|ids| - 1 := s]
  {
  }

  /** The ids move up by one place, and the last place is dropped. */
  method ShiftDown(ids: seq<nat>) returns (shifted: seq<nat>)
    requires ids != []
    ensures shifted == ids[1..]
  {
    shifted := ids;
    var i := 1;
    while i < |shifted|
      invariant 1 <= i <= |shifted| == |ids|
      invariant forall k :: 0 <= k < i - 1 ==> shifted[k] == ids[k + 1]
      invariant forall k :: i <= k < |ids| ==> shifted[k] == ids[k]
    {
      shifted := shifted[i - 1 := shifted[i]];
      i := i + 1;
    }
    shifted := shifted[..|shifted| - 1];
  }

  lemma VersionsAppend(segs: seq<Segment>, s: Segment)
    ensures Versions(segs + [s]) == Versions(segs) + {s.initVersion}
  {
    assert s == (segs + [s])[|segs|];
    forall v | v in Versions(segs) ensures v in Versions(segs + [s]) {
      var t :| t in segs && t.initVersion == v;
      assert t in segs + [s];
    }
  }

  // ----- The muxer -----

  class HlsMuxer {
    const config: Config
    var segments: map<nat, Segment>
    var segIDs: seq<nat>
    var mediaSequence: nat
    var discontinuitySequence: nat
    var codecPars: Codec
    var initVersion: nat
    var initCache: map<nat, Codec>
    var headerIndependent: bool
    var capSplitSeen: bool
    var tsOffset: int
    var gateOpen: bool
    var manifestDirty: bool
    var manifest: Playlist
    /** The evicted segments, whose packets have been released. */
    ghost var gone: seq<Segment>

    ghost predicate Agree()
      reads this
    {
      AgreeOn(segments, segIDs)
    }

    ghost function View(): Muxer
      requires Agree()
      reads this
    {
      Muxer(gone + Listed(segments, segIDs), |gone|, mediaSequence, discontinuitySequence, codecPars,
            initVersion, initCache,
            headerIndependent, capSplitSeen, tsOffset, gateOpen, manifestDirty, manifest)
    }

    /** The muxer between calls. */
    ghost predicate Valid()
      reads this
    {
      Agree() && HlsInvariants.Inv(config, View()) && Started(View())
    }

    constructor (config: Config, codecPars: Codec)
      ensures Valid() && this.config == NewConfig(config) && View() == Init(NewConfig(config), codecPars)
    {
      this.config := NewConfig(config);
      segments, segIDs := map[0 := NewSegment(0, codecPars, 0, false, 0)], [0];
      mediaSequence, discontinuitySequence, this.codecPars, initVersion := 0, 0, codecPars, 0;
      initCache := map[0 := codecPars];
      headerIndependent, capSplitSeen := NewConfig(config).keyframeSplit, false;
      tsOffset, gateOpen, manifestDirty, manifest := 0, false, true, Playlist(false, 0, 0, []);
      gone := [];
      new;
      OneAgrees(NewSegment(0, codecPars, 0, false, 0));
      hide AgreeOn, Listed, NewSegment, HlsInvariants.Inv;
      HlsInvariants.InitKeeps(this.config, codecPars);
      assert View() == Init(this.config, codecPars);
    }

    method EvictOldest()
      requires Agree() && segIDs != []
      modifies this
      ensures Agree() && |segIDs| == |old(segIDs)| - 1 && View() == HlsModel.EvictOldest(old(View()))
    {
      hide AgreeOn;
      ghost var before, segs := gone, Listed(segments, segIDs);
      var id := segIDs[0];
      RemoveAgrees(segments, segIDs);
      var oldest := segments[id];
      MoveFirst(before, segs);
      if oldest.discontinuity { discontinuitySequence := discontinuitySequence + 1; }
      gone := gone + [oldest];
      segments := segments - {id};
      segIDs := ShiftDown(segIDs);
      mediaSequence := mediaSequence + 1;
    }

    static lemma MoveFirst(gone: seq<Segment>, segs: seq<Segment>)
      requires segs != []
      ensures gone + [segs[0]] + segs[1..] == gone + segs && (gone + segs)[|gone|] == segs[0]
    {
    }

    /** The time of the first n live segments. */
    method TotalDuration(n: nat) returns (d: nat)
      requires Agree() && n <= |segIDs|
      ensures d == Durations(Listed(segments, segIDs)[..n])
    {
      hide AgreeOn;
      d := 0;
      var i := n;
      ghost var segs := Listed(segments, segIDs);
      assert segs[n..n] == [];
      while i > 0
        invariant 0 <= i <= n && d == Durations(segs[i..n])
      {
        i := i - 1;
        assert segs[i..n][1..] == segs[i + 1..n];
        d := d + segments[segIDs[i]].duration;
      }
      assert segs[0..n] == segs[..n];
    }

    method EvictByDuration()
      requires Agree() && segIDs != []
      modifies this
      ensures Agree() && segIDs != [] && View() == HlsModel.EvictByDuration(config, old(View()))
    {
      hide AgreeOn, Durations, HlsModel.EvictOldest;
      while |segIDs| > 2
        invariant Agree() && segIDs != []
        invariant HlsModel.EvictByDuration(config, View()) == HlsModel.EvictByDuration(config, old(View()))
        decreases |segIDs|
      {
        ghost var m, segs := View(), Listed(segments, segIDs);
        var closedDuration := TotalDuration(|segIDs| - 1);
        assert segs[..|segIDs| - 1] == m.all[m.first..|m.all| - 1];
        var oldest := segments[segIDs[0]];
        assert oldest == segs[0] == m.all[m.first];
        if closedDuration - oldest.duration < config.minPlaylistDuration { break; }
        EvictOldest();
      }
    }

    method EvictByCount()
      requires Agree()
      modifies this
      ensures Agree() && View() == HlsModel.EvictByCount(config, old(View()))
    {
      hide AgreeOn, Durations, HlsModel.EvictOldest;
      var maxDuration := config.segmentCount * config.segmentDuration;
      var minDuration := 3 * config.segmentDuration;
      if maxDuration < minDuration { maxDuration := minDuration; }
      while |segIDs| > config.segmentCount
        invariant Agree()
        invariant HlsModel.EvictByCount(config, View()) == HlsModel.EvictByCount(config, old(View()))
        decreases |segIDs|
      {
        ghost var m, segs := View(), Listed(segments, segIDs);
        var totalDuration := TotalDuration(|segIDs|);
        assert segs[..|segIDs|] == Live(m);
        if totalDuration <= maxDuration { break; }
        EvictOldest();
      }
    }

    method CleanupInitCache()
      requires Agree()
      modifies `initCache
      ensures Agree() && View() == HlsModel.CleanupInitCache(old(View()))
    {
      hide AgreeOn, Versions;
      ghost var segs := Listed(segments, segIDs);
      var used: set<nat> := {};
      var i := 0;
      NoVersions();
      while i < |segIDs|
        invariant 0 <= i <= |segIDs| && used == Versions(segs[..i]) && initCache == old(initCache)
      {
        assert segs[..i + 1] == segs[..i] + [segs[i]];
        VersionsAppend(segs[..i], segs[i]);
        used := used + {segments[segIDs[i]].initVersion};
        i := i + 1;
      }
      assert segs[..i] == Live(View());
      var cache := initCache;
      initCache := map v | v in cache && v in used :: cache[v];
      assert initCache == HlsModel.CleanupInitCache(old(View())).initCache;
    }

    static lemma NoVersions()
      ensures Versions([]) == {}
      ensures forall segs: seq<Segment> :: segs[..0] == []
    {
    }

    method EvictOldSegments()
      requires Agree() && segIDs != []
      modifies this
      ensures Agree() && View() == HlsModel.EvictOldSegments(config, old(View()))
    {
      hide AgreeOn, HlsModel.EvictByDuration, HlsModel.EvictByCount, HlsModel.CleanupInitCache;
      if config.minPlaylistDuration > 0 { EvictByDuration(); } else { EvictByCount(); }
      CleanupInitCache();
    }

    /** Between the steps of one call. */
    ghost predicate Ready()
      reads this
    {
      Agree() && Started(View()) && HlsInvariants.Ids(View().all) &&
        headerIndependent == (config.keyframeSplit && !capSplitSeen)
    }

    static lemma CurrentIsLast(segments: map<nat, Segment>, ids: seq<nat>, gone: seq<Segment>)
      requires AgreeOn(segments, ids) && ids != []
      requires HlsInvariants.Ids(gone + Listed(segments, ids))
      ensures var all, last := gone + Listed(segments, ids), ids[|ids| - 1];
              last in segments && segments[last] == all[|all| - 1] && segments[last].id == last && last + 1 !in segments
    {
      var all := gone + Listed(segments, ids);
      forall i | 0 <= i < |ids| ensures ids[i] == |gone| + i {
        assert all[|gone| + i] == Listed(segments, ids)[i];
      }
    }

    method GetCurSegment() returns (s: Segment)
      requires Ready()
      ensures s == Current(View()) && segIDs != [] && s.id == segIDs[|segIDs| - 1] && s.id + 1 !in segments
    {
      hide AgreeOn, HlsInvariants.Ids;
      CurrentIsLast(segments, segIDs, gone);
      s := segments[segIDs[|segIDs| - 1]];
    }

    /** closed takes the place of the current segment, and the next one is opened behind it. */
    method Succeed(closed: Segment, discontinuity: bool)
      requires Ready() && closed.id == Current(View()).id
      modifies this
      ensures Ready() && View() == HlsModel.Succeed(config, old(View()), closed, discontinuity)
      ensures tsOffset == old(tsOffset)
    {
      hide HlsModel.EvictOldSegments, AgreeOn, HlsInvariants.Ids, NewSegment;
      ghost var m, segs := View(), Listed(segments, segIDs);
      NextIds(m, closed, discontinuity);
      ReplaceLast(gone, segs, closed, NewSegment(closed.id + 1, codecPars, initVersion, discontinuity, tsOffset));
      CurrentIsLast(segments, segIDs, gone);
      var next := NewSegment(closed.id + 1, codecPars, initVersion, discontinuity, tsOffset);
      SetAgrees(segments, segIDs, closed);
      segments := segments[closed.id := closed];
      AddAgrees(segments, segIDs, next);
      segments, segIDs := segments[next.id := next], segIDs + [next.id];
      EvictOldSegments();
      SucceedStarted(config, m, closed, discontinuity);
    }

    static lemma ReplaceLast(gone: seq<Segment>, segs: seq<Segment>, closed: Segment, next: Segment)
      requires segs != []
      ensures var all := gone + segs;
              gone + (segs[|segs| - 1 := closed] + [next]) == all[..|all| - 1] + [closed, next]
    {
    }

    static lemma NextIds(m: Muxer, closed: Segment, discontinuity: bool)
      requires Started(m) && HlsInvariants.Ids(m.all) && closed.id == Current(m).id
      ensures var next := NewSegment(closed.id + 1, m.codecPars, m.initVersion, discontinuity, m.tsOffset);
              next.id == closed.id + 1 && HlsInvariants.Ids(m.all[..|m.all| - 1] + [closed, next])
    {
    }

    /** Counts the current segment closed and flags its successor as a discontinuity or not. */
    method Rotate(discontinuity: bool)
      requires Ready()
      modifies this
      ensures Ready() && View() == HlsModel.Rotate(config, old(View()), discontinuity)
      ensures tsOffset == old(tsOffset)
    {
      hide AgreeOn, HlsModel.Succeed, HlsInvariants.Ids;
      var s := GetCurSegment();
      Succeed(CloseSegment(s), discontinuity);
      manifestDirty := true;
    }

    predicate CanOpenTimelineEpoch(p: Packet)
      reads this
    {
      !codecPars.video || (p.video && p.key)
    }

    /** Rotation of the segment in front of a video packet, by keyframe, cap or target. */
    method SplitSegment(p: Packet)
      requires Ready()
      modifies this
      ensures Ready() && View() == Split(config, old(View()), p)
      ensures tsOffset == old(tsOffset)
    {
      hide AgreeOn, HlsModel.Rotate, HlsInvariants.Ids;
      if !p.video { return; }
      var curSeg := GetCurSegment();
      var projected := curSeg.duration + curSeg.Current().duration + p.duration;
      var hasContent := curSeg.duration > 0 || curSeg.Current().duration > 0;
      var rotate;
      if config.keyframeSplit {
        rotate := p.key && curSeg.duration >= config.segmentDuration;
        if !rotate && config.maxSegmentDuration > 0 && hasContent && projected > config.maxSegmentDuration {
          rotate := true;
          if !capSplitSeen {
            capSplitSeen := true;
            headerIndependent := config.keyframeSplit && !capSplitSeen;
          }
        }
      } else {
        rotate := hasContent && projected > config.segmentDuration;
      }
      if rotate { Rotate(false); }
    }

    method StorePacket(p: Packet, ts: int)
      requires Ready() && ts == Place(View(), p).ts
      modifies this
      ensures Ready() && View() == Store(config, old(View()), p)
    {
      hide AgreeOn;
      ghost var m, segs := View(), Listed(segments, segIDs);
      var curSeg := GetCurSegment();
      var written := WriteSegment(curSeg, config.fragmentDuration, Stored(p, ts, tsOffset));
      SetAgrees(segments, segIDs, written);
      segments := segments[written.id := written];
      var changed := |written.fragments| > |curSeg.fragments|;
      if p.video && changed { manifestDirty := true; }
      assert View().all == m.all[|m.all| - 1 := written];
    }

    /** updateIndexM3u8 walks the ids and writes a map line where the version changes. */
    method UpdateIndexM3u8() returns (playlist: Playlist)
      requires Agree()
      ensures playlist == PlaylistOf(View())
    {
      hide AgreeOn;
      ghost var segs := Listed(segments, segIDs);
      var lines: seq<Line> := [];
      var curInitVersion: int := -1;
      var i := 0;
      assert segs[0..] == segs;
      while i < |segIDs|
        invariant 0 <= i <= |segIDs|
        invariant lines + Render(segs[i..], curInitVersion) == Render(segs, -1)
      {
        var s := segments[segIDs[i]];
        ghost var before, version := lines, curInitVersion;
        assert segs[i..][0] == s && segs[i..][1..] == segs[i + 1..];
        if s.discontinuity { lines := lines + [DiscontinuityLine]; }
        if s.initVersion != curInitVersion {
          curInitVersion := s.initVersion;
          lines := lines + [MapLine(curInitVersion)];
        }
        lines := lines + s.lines;
        RenderNext(segs[i..], version, before);
        i := i + 1;
      }
      assert Render(segs[i..], curInitVersion) == [];
      assert segs == Live(View());
      playlist := Playlist(headerIndependent, mediaSequence, discontinuitySequence, lines);
    }

    static lemma RenderNext(segs: seq<Segment>, version: int, before: seq<Line>)
      requires segs != []
      ensures var s := segs[0];
              var tagged := if s.discontinuity then before + [DiscontinuityLine] else before;
              var mapped := if s.initVersion != version then tagged + [MapLine(s.initVersion)] else tagged;
              before + Render(segs, version) == mapped + s.lines + Render(segs[1..], s.initVersion)
    {
      var s := segs[0];
      var tag := if s.discontinuity then [DiscontinuityLine] else [];
      var mapLine := if s.initVersion != version then [MapLine(s.initVersion)] else [];
      RenderStep(segs, version);
      hide Render;
      Regroup(before, tag, mapLine, s.lines, Render(segs[1..], s.initVersion));
      assert before + [] == before && before + tag + [] == before + tag;
    }

    static lemma RenderStep(segs: seq<Segment>, version: int)
      requires segs != []
      ensures var s := segs[0];
              Render(segs, version) == (if s.discontinuity then [DiscontinuityLine] else [])
                + (if s.initVersion != version then [MapLine(s.initVersion)] else []) + s.lines +
                  Render(segs[1..], s.initVersion)
    {
    }

    static lemma Regroup(a: seq<Line>, b: seq<Line>, c: seq<Line>, d: seq<Line>, e: seq<Line>)
      ensures a + (b + c + d + e) == a + b + c + d + e
    {
    }

    /** The timestamp relative to the epoch; a new epoch starts past maxTS with a packet that may
        open one. */
    method AlignTimeline(p: Packet) returns (ts: int)
      requires Ready()
      modifies this
      ensures Ready() && View() == Rebase(config, old(View()), p) && ts == Place(View(), p).ts
    {
      hide AgreeOn, HlsModel.Rotate, HlsInvariants.Ids;
      ts := p.ts - tsOffset;
      if ts >= config.maxTS && CanOpenTimelineEpoch(p) {
        tsOffset := tsOffset + ts;
        ts := 0;
        Rotate(true);
      }
      if ts < 0 { ts := 0; }
    }

    /** WritePacket with a packet: the gate, the timeline, the rotation, the write, the playlist. */
    method WritePacket(p: Packet)
      requires Valid()
      modifies this
      ensures Valid() && View() == HlsModel.WritePacket(config, old(View()), p)
    {
      hide AgreeOn, Rebase, Split, Store, HlsInvariants.Ids, HlsInvariants.Inv, PlaylistOf;
      ghost var m := View();
      InvReady(config, m);
      HlsInvariants.WriteKeeps(config, m, p);
      StepStarted(config, m, Write(p));
      if config.keyframeSplit && !gateOpen {
        if !CanOpenTimelineEpoch(p) { return; }
        gateOpen := true;
      }
      assert View() == OpenGate(config, m);
      var ts := AlignTimeline(p);
      SplitSegment(p);
      StoreAndPublish(p, ts);
    }

    method StoreAndPublish(p: Packet, ts: int)
      requires Ready() && ts == Place(View(), p).ts
      modifies this
      ensures Agree() && View() == var stored := Store(config, old(View()), p);
                if p.video && stored.manifestDirty then Publish(stored) else stored
    {
      hide AgreeOn, Store, HlsInvariants.Ids, Place, PlaylistOf;
      StorePacket(p, ts);
      if p.video && manifestDirty {
        manifestDirty := false;
        manifest := UpdateIndexM3u8();
        SamePlaylist(Store(config, old(View()), p), false);
      }
    }

    static lemma SamePlaylist(m: Muxer, dirty: bool)
      requires m.first <= |m.all|
      ensures PlaylistOf(m.(manifestDirty := dirty)) == PlaylistOf(m)
    {
      assert Live(m.(manifestDirty := dirty)) == Live(m);
    }

    /** The current segment is cut, and the next one opened under the new parameters. */
    method SwitchCodec(codec: Codec)
      requires Ready()
      modifies this
      ensures Ready()
      ensures var m := old(View());
              View() == HlsModel.Succeed(config,
                                         m.(codecPars := codec, initVersion := m.initVersion + 1,
                                            initCache := m.initCache[m.initVersion + 1 := codec]),
                                         ForceClose(Current(m)), true)
    {
      hide AgreeOn, HlsModel.Succeed, HlsInvariants.Ids, ForceClose;
      ForcedId(Current(View()));
      var curSeg := GetCurSegment();
      codecPars := codec;
      initVersion := initVersion + 1;
      initCache := initCache[initVersion := codec];
      Succeed(ForceClose(curSeg), true);
    }

    /** New codec parameters; false when there are none. */
    method UpdateCodecParameters(codec: Codec) returns (ok: bool)
      requires Valid()
      modifies this
      ensures Valid() && View() == UpdateCodec(config, old(View()), codec)
      ensures ok == (codec.video || codec.audio)
    {
      hide AgreeOn, HlsModel.Succeed, HlsInvariants.Ids, HlsInvariants.Inv, PlaylistOf, ForceClose,
           HlsModel.WritePacket;
      if !codec.video && !codec.audio { return false; }
      ghost var m := View();
      InvReady(config, m);
      HlsInvariants.UpdateKeeps(config, m, codec);
      StepStarted(config, m, Update(codec));
      SwitchCodec(codec);
      ghost var next := View();
      gateOpen := false;
      assert View() == next.(gateOpen := false);
      SamePlaylistGate(next);
      manifest := UpdateIndexM3u8();
      assert View() == next.(gateOpen := false, manifest := PlaylistOf(next));
      return true;
    }

    static lemma SamePlaylistGate(m: Muxer)
      requires m.first <= |m.all|
      ensures PlaylistOf(m.(gateOpen := false)) == PlaylistOf(m)
    {
      assert Live(m.(gateOpen := false)) == Live(m);
    }

    static lemma ForcedId(s: Segment)
      requires s.fragments != []
      ensures ForceClose(s).id == s.id
    {
    }

    static lemma InvReady(c: Config, m: Muxer)
      requires HlsInvariants.Inv(c, m)
      ensures HlsInvariants.Ids(m.all) && m.headerIndependent == (c.keyframeSplit && !m.capSplitSeen)
    {
    }
  }
}
