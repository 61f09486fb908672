/** format/hls: what a client reads from a rendered playlist (sections 4.3.2 and 4.3.3 of RFC 8216),
    and when the numbers it counts stay with a segment for life. */
module HlsPlaylist {
  import opened HlsModel
  import opened HlsInvariants
  import opened HlsRuns

  /** A media segment as a client sees it: its media and discontinuity sequence numbers, the map
      in force and its EXTINF duration. */
  datatype Listed = Listed(seg: nat, media: nat, disc: nat, map_: int, duration: nat)

  /** The client's reading: a media segment is an EXTINF entry; its number is that of the entry
      before it plus one; discontinuity tags are counted. */
  function Read(lines: seq<Line>, media: nat, disc: nat, version: int): seq<Listed> {
    if lines == [] then [] else
    match lines[0]
    case DiscontinuityLine => Read(lines[1..], media, disc + 1, version)
    case MapLine(v) => Read(lines[1..], media, disc, v)
    case InfLine(seg, duration) => [Listed(seg, media, disc, version, duration)] +
      Read(lines[1..], media + 1, disc, version)
    case _ => Read(lines[1..], media, disc, version)
  }

  function ReadPlaylist(p: Playlist): seq<Listed> {
    Read(p.lines, p.mediaSequence, p.discontinuitySequence, -1)
  }

  /** What a client should find of the given segments. */
  function Listing(segs: seq<Segment>, media: nat, disc: nat): seq<Listed> {
    if segs == [] then [] else
    var s := segs[0];
    var d := disc + if s.discontinuity then 1 else 0;
    if HasInf(s) then [Listed(s.id, media, d, s.initVersion, s.duration)] + Listing(segs[1..], media + 1, d)
    else Listing(segs[1..], media, d)
  }

  ghost predicate OnlyParts(lines: seq<Line>) {
    forall i :: 0 <= i < |lines| ==> lines[i].PartLine?
  }

  /** A segment's text is its parts and one more line, a hint or its EXTINF. */
  ghost predicate TextOk(s: Segment) {
    && OnlyParts(s.parts) && |s.lines| == |s.parts| + 1 && s.lines[..|s.parts|] == s.parts
    && (HasInf(s) || s.lines[|s.parts|].HintLine?)
  }

  lemma {:induction false} ReadParts(parts: seq<Line>, rest: seq<Line>, media: nat, disc: nat, version: int)
    requires OnlyParts(parts)
    ensures Read(parts + rest, media, disc, version) == Read(rest, media, disc, version)
  {
    if parts == [] {
      assert parts + rest == rest;
    } else {
      assert (parts + rest)[1..] == parts[1..] + rest;
      ReadParts(parts[1..], rest, media, disc, version);
    }
  }

  lemma ReadText(s: Segment, rest: seq<Line>, media: nat, disc: nat, version: int)
    requires TextOk(s)
    ensures Read(s.lines + rest, media, disc, version) ==
            if HasInf(s) then [Listed(s.id, media, disc, version, s.duration)] + Read(rest, media + 1, disc, version)
            else Read(rest, media, disc, version)
  {
    hide OnlyParts;
    var last := s.lines[|s.parts|];
    assert s.lines + rest == s.parts + ([last] + rest);
    ReadParts(s.parts, [last] + rest, media, disc, version);
    assert ([last] + rest)[1..] == rest;
    if HasInf(s) { assert last == (s.parts + [InfLine(s.id, s.duration)])[|s.parts|]; }
  }

  lemma ReadTag(tag: Line, rest: seq<Line>, media: nat, disc: nat, version: int)
    requires tag.DiscontinuityLine? || tag.MapLine?
    ensures Read([tag] + rest, media, disc, version) ==
            if tag.MapLine? then Read(rest, media, disc, tag.version) else Read(rest, media, disc + 1, version)
  {
    assert ([tag] + rest)[1..] == rest;
  }

  /** Reading what was rendered gives the segments, each under its own map. */
  lemma {:induction false} ReadRender(segs: seq<Segment>, version: int, media: nat, disc: nat)
    requires forall i :: 0 <= i < |segs| ==> TextOk(segs[i])
    ensures Read(Render(segs, version), media, disc, version) == Listing(segs, media, disc)
  {
    hide Read, TextOk, HasInf;
    if segs == [] {
      ReadNone(media, disc, version);
    } else {
      var s, rest := segs[0], Render(segs[1..], segs[0].initVersion);
      var d := disc + if s.discontinuity then 1 else 0;
      var text := s.lines + rest;
      var mapped := if s.initVersion != version then [MapLine(s.initVersion)] + text else text;
      var tagged := if s.discontinuity then [DiscontinuityLine] + mapped else mapped;
      assert Render(segs, version) == tagged;
      if s.discontinuity { ReadTag(DiscontinuityLine, mapped, media, disc, version); }
      if s.initVersion != version { ReadTag(MapLine(s.initVersion), text, media, d, version); }
      ReadText(s, rest, media, d, s.initVersion);
      ReadRender(segs[1..], s.initVersion, media + if HasInf(s) then 1 else 0, d);
    }
  }

  lemma ReadNone(media: nat, disc: nat, version: int)
    ensures Read([], media, disc, version) == []
  {
  }

  lemma {:induction false} PartsAre(seg: nat, fs: seq<Fragment>)
    ensures OnlyParts(PartsOf(seg, fs))
  {
    if fs != [] { PartsAre(seg, fs[..|fs| - 1]); }
  }

  // ----- The text invariant -----

  ghost predicate AllTextOk(all: seq<Segment>) {
    forall i :: 0 <= i < |all| ==> TextOk(all[i])
  }

  lemma OpenText(s: Segment)
    requires SegmentOk(s) && !s.finished
    ensures TextOk(s) && !HasInf(s)
  {
    hide PartsOf, FragmentTime, VideoTime;
    PartsAre(s.id, s.fragments[..|s.fragments| - 1]);
    assert (s.parts + [InfLine(s.id, s.duration)])[|s.parts|] == InfLine(s.id, s.duration);
  }

  lemma ClosedText(s: Segment)
    requires SegmentOk(s) && s.finished && HasInf(s)
    ensures TextOk(s)
  {
    hide PartsOf, FragmentTime, VideoTime;
    PartsAre(s.id, s.fragments[..|s.fragments| - 1]);
  }

  /** A segment cut by new codec parameters before any of its fragments closed keeps its hint. */
  lemma ForcedText(s: Segment)
    requires SegmentOk(s) && !s.finished
    ensures TextOk(ForceClose(s)) && (HasInf(ForceClose(s)) <==> s.duration > 0)
  {
    hide PartsOf, FragmentTime, VideoTime, SegmentOk, PacketsIn;
    ForceCloseOk(s);
    OpenText(s);
    NonEmpty(s);
    if s.duration > 0 { ClosedText(ForceClose(s)); }
  }

  lemma RotateText(c: Config, m: Muxer, discontinuity: bool)
    requires CanRotate(m, discontinuity) && AllTimed(m.all) && AllTextOk(m.all)
    ensures AllTextOk(Rotate(c, m, discontinuity).all)
  {
    hide PacketsIn, Rotate, SegmentOk, Linked, AllTimed, Numbered, TextOk, HasInf, CloseSegment, NewSegment;
    RotateKeeps(c, m, discontinuity);
    var s := HlsModel.Current(m);
    CloseOk(s);
    CloseSame(s);
    ClosedText(CloseSegment(s));
    OpenText(NextSegment(m, discontinuity))
      by { NewOpen(s.id + 1, m.codecPars, m.initVersion, discontinuity, m.tsOffset); }
  }

  lemma NewOpen(id: nat, codec: Codec, version: nat, discontinuity: bool, epoch: int)
    ensures SegmentOk(NewSegment(id, codec, version, discontinuity, epoch)) &&
              !NewSegment(id, codec, version, discontinuity, epoch).finished
  {
    NewOk(id, codec, version, discontinuity, epoch);
  }

  lemma StoreText(c: Config, m: Muxer, p: Packet)
    requires Started(m) && LastOpen(m) && AllTextOk(m.all)
    ensures AllTextOk(Store(c, m, p).all)
  {
    hide SegmentOk, WriteSegment, TextOk, PacketsIn;
    StoredSegment(c, m, p);
    OpenText(WriteSegment(HlsModel.Current(m), c.fragmentDuration, Place(m, p)));
  }

  lemma WriteText(c: Config, m: Muxer, p: Packet)
    requires Inv(c, m) && Started(m) && AllTextOk(m.all)
    ensures AllTextOk(WritePacket(c, m, p).all)
  {
    hide PacketsIn, Rotate, SegmentOk, Linked, AllTimed, Numbered, AllOpenOnKeyframe, AllTextOk, Store, LastOpen;
    if !Gated(c, m, p) {
      var g := OpenGate(c, m);
      RebaseKeeps(c, m, g, p);
      var based := Rebase(c, g, p);
      if Wraps(c, g, p) {
        RebaseRotates(c, m, g, p);
        RotateText(c, g.(tsOffset := p.ts), true);
      }
      SplitText(c, based, p);
      SplitKeeps(c, based, p);
      StoreText(c, Split(c, based, p), p);
    }
  }

  lemma SplitText(c: Config, m: Muxer, p: Packet)
    requires Started(m) && Ready(c, m, p) && AllTextOk(m.all)
    ensures AllTextOk(Split(c, m, p).all)
  {
    hide PacketsIn, Rotate, SegmentOk, Linked, AllTimed, Numbered, AllOpenOnKeyframe, AllTextOk;
    RotateText(c, m, false);
    var capped := m.(capSplitSeen := true, headerIndependent := false);
    StayNumberedAt(m, capped);
    RotateText(c, capped, false);
  }

  lemma UpdateText(c: Config, m: Muxer, codec: Codec)
    requires Inv(c, m) && Started(m) && AllTextOk(m.all)
    ensures AllTextOk(UpdateCodec(c, m, codec).all)
  {
    hide PacketsIn, SegmentOk, Linked, AllTimed, Numbered, Succeed, AllOpenOnKeyframe, Render, CanSucceed, TextOk,
         NewSegment, ForceClose;
    if codec.video || codec.audio {
      var version, s := m.initVersion + 1, HlsModel.Current(m);
      var m1 := m.(codecPars := codec, initVersion := version, initCache := m.initCache[version := codec]);
      UpdateSucceeds(c, m, codec);
      SucceedKeeps(c, m1, ForceClose(s), true);
      ForcedText(s);
      NewOpen(s.id + 1, codec, version, true, m.tsOffset);
      OpenText(NextSegment(m1, true));
    }
  }

  lemma {:induction false} ReachableText(c: Config, codec: Codec, cmds: seq<Command>)
    ensures AllTextOk(Run(c, codec, cmds).all)
  {
    hide Inv, WritePacket, UpdateCodec, TextOk;
    if cmds == [] {
      NewOpen(0, codec, 0, false, 0);
      OpenText(NewSegment(0, codec, 0, false, 0));
    } else {
      var m := Run(c, codec, cmds[..|cmds| - 1]);
      ReachableText(c, codec, cmds[..|cmds| - 1]);
      Reachable(c, codec, cmds[..|cmds| - 1]);
      match cmds[|cmds| - 1]
      case Write(p) => WriteText(c, m, p);
      case Update(codec') => UpdateText(c, m, codec');
    }
  }

  // ----- The numbers -----

  predicate IsUnlisted(s: Segment) {
    s.finished && !HasInf(s)
  }

  /** Closed segments without EXTINF among the first k. */
  function Unlisted(all: seq<Segment>, k: nat): (n: nat)
    requires k <= |all|
    ensures n <= k
  {
    if k == 0 then 0 else Unlisted(all, k - 1) + if IsUnlisted(all[k - 1]) then 1 else 0
  }

  lemma {:induction false} UnlistedGrows(all: seq<Segment>, i: nat, k: nat)
    requires i <= k <= |all|
    ensures Unlisted(all, i) <= Unlisted(all, k) <= Unlisted(all, i) + k - i
    decreases k
  {
    if i < k { UnlistedGrows(all, i, k - 1); }
  }

  /** The media sequence number of segment i in a playlist that starts at segment first: one less
      for every segment before it that is not listed. */
  function NumberIn(all: seq<Segment>, first: nat, i: nat): (n: nat)
    requires first <= i <= |all|
    ensures n <= i
  {
    UnlistedGrows(all, first, i);
    i - (Unlisted(all, i) - Unlisted(all, first))
  }

  /** The playlist's media segments from segment k on, in closed form. */
  function Expected(all: seq<Segment>, first: nat, k: nat): seq<Listed>
    requires first <= k <= |all|
    decreases |all| - k
  {
    if k == |all| then []
    else if HasInf(all[k]) then
      [Listed(all[k].id, NumberIn(all, first, k), Discs(all[..k + 1]), all[k].initVersion, all[k].duration)] +
        Expected(all, first, k + 1)
    else Expected(all, first, k + 1)
  }

  lemma {:induction false} ListingIs(all: seq<Segment>, first: nat, k: nat)
    requires first <= k <= |all|
    requires forall i :: 0 <= i < |all| - 1 ==> all[i].finished
    ensures Listing(all[k..], NumberIn(all, first, k), Discs(all[..k])) == Expected(all, first, k)
    decreases |all| - k
  {
    hide HasInf, Discs;
    if k < |all| {
      assert all[k..][1..] == all[k + 1..];
      DiscsStep(all, k);
      if k + 1 < |all| || all[k].finished {
        ListingIs(all, first, k + 1);
        assert HasInf(all[k]) ==> NumberIn(all, first, k + 1) == NumberIn(all, first, k) + 1;
      } else {
        assert all[k + 1..] == [];
      }
    }
  }

  /** Main result: a client that reads the current playlist finds every live segment that has an
      EXTINF, with its own map and duration, its discontinuity number the count of all
      discontinuities up to it, and its media number its id less the unlisted live ones before it. */
  lemma PlaylistReads(c: Config, codec: Codec, cmds: seq<Command>)
    ensures var m := Run(c, codec, cmds);
            m.first <= |m.all| && ReadPlaylist(PlaylistOf(m)) == Expected(m.all, m.first, m.first)
  {
    hide Run, TextOk, Discs, SegmentOk, Listing, Expected, WellClosed, Render, Read;
    var m := Run(c, codec, cmds);
    Reachable(c, codec, cmds);
    ReachableText(c, codec, cmds);
    ReadRender(Live(m), -1, m.mediaSequence, m.discontinuitySequence);
    forall i | 0 <= i < |m.all| - 1 ensures m.all[i].finished {
      assert Link(m.all[i], m.all[i + 1]);
    }
    ListingIs(m.all, m.first, m.first);
  }

  // ----- Segments closed without an EXTINF -----

  /** What a segment was opened with. */
  predicate SameOpening(s: Segment, t: Segment) {
    t.discontinuity == s.discontinuity && t.initVersion == s.initVersion
  }

  /** Closed segments never change, the open one keeps what it was opened with, and the live window only
      moves on. */
  ghost predicate Grows(m: Muxer, r: Muxer) {
    && 0 < |m.all| <= |r.all| && m.first <= r.first < |r.all|
    && (forall i :: 0 <= i < |m.all| - 1 ==> r.all[i] == m.all[i])
    && SameOpening(m.all[|m.all| - 1], r.all[|m.all| - 1])
  }

  lemma GrowsTrans(a: Muxer, b: Muxer, c: Muxer)
    requires Grows(a, b) && Grows(b, c)
    ensures Grows(a, c)
  {
  }

  lemma {:induction false} SameUnlisted(a: seq<Segment>, b: seq<Segment>, k: nat)
    requires k <= |a| && k <= |b| && forall i :: 0 <= i < k ==> a[i] == b[i]
    ensures Unlisted(a, k) == Unlisted(b, k)
    decreases k
  {
    if k > 0 { SameUnlisted(a, b, k - 1); }
  }

  /** The unlisted segments grow by one when closed, the last one, is unlisted. */
  lemma UnlistedAppend(all: seq<Segment>, closed: Segment, next: Segment)
    requires all != [] && !all[|all| - 1].finished && !next.finished
    ensures var all' := all[..|all| - 1] + [closed, next];
            Unlisted(all', |all'|) == Unlisted(all, |all|) + if IsUnlisted(closed) then 1 else 0
  {
    hide HasInf;
    var all', n := all[..|all| - 1] + [closed, next], |all|;
    SameUnlisted(all, all', n - 1);
    assert Unlisted(all', n + 1) == Unlisted(all', n);
    assert Unlisted(all', n) == Unlisted(all', n - 1) + if IsUnlisted(closed) then 1 else 0;
  }

  ghost predicate GrowsListed(m: Muxer, r: Muxer) {
    Grows(m, r) && Unlisted(r.all, |r.all|) == Unlisted(m.all, |m.all|)
  }

  lemma RotateGrows(c: Config, m: Muxer, discontinuity: bool)
    requires CanRotate(m, discontinuity) && AllTimed(m.all)
    ensures Numbered(Rotate(c, m, discontinuity)) && LastOpen(Rotate(c, m, discontinuity))
    ensures Grows(m, Rotate(c, m, discontinuity))
    ensures Unlisted(Rotate(c, m, discontinuity).all, |Rotate(c, m, discontinuity).all|) == Unlisted(m.all, |m.all|)
  {
    hide PacketsIn, SegmentOk, Linked, AllTimed, HasInf, Unlisted, CloseSegment, NewSegment, Counted, Ids, CacheCovers,
         Succeed;
    RotateKeeps(c, m, discontinuity);
    RotateSucceeds(m, discontinuity);
    var s := HlsModel.Current(m);
    var closed, next := CloseSegment(s), NextSegment(m, discontinuity);
    CloseOk(s);
    NewOpen(s.id + 1, m.codecPars, m.initVersion, discontinuity, m.tsOffset);
    UnlistedAppend(m.all, closed, next);
    SucceedStarted(c, m, closed, discontinuity);
  }

  lemma StoreGrows(c: Config, m: Muxer, p: Packet)
    requires Started(m) && LastOpen(m)
    ensures GrowsListed(m, Store(c, m, p))
  {
    hide SegmentOk, WriteSegment, PacketsIn, HasInf;
    StoredSegment(c, m, p);
    SameUnlisted(m.all, Store(c, m, p).all, |m.all| - 1);
  }

  lemma RebaseGrows(c: Config, m: Muxer, g: Muxer, p: Packet)
    requires Inv(c, m) && g == OpenGate(c, m) && Started(g)
    ensures GrowsListed(m, Rebase(c, g, p))
  {
    hide PacketsIn, Rotate, SegmentOk, Linked, AllTimed, Counted, Ids, CacheCovers, AllOpenOnKeyframe, Unlisted;
    RebaseRotates(c, m, g, p);
    RotateGrows(c, g.(tsOffset := p.ts), true);
  }

  lemma WriteGrows(c: Config, m: Muxer, p: Packet)
    requires Inv(c, m) && Started(m)
    ensures GrowsListed(m, WritePacket(c, m, p))
  {
    hide PacketsIn, Rotate, Rebase, Split, SegmentOk, Linked, AllTimed, Numbered, LastOpen, AllOpenOnKeyframe, Store,
         Unlisted;
    if !Gated(c, m, p) {
      var g := OpenGate(c, m);
      RebaseKeeps(c, m, g, p);
      var based := Rebase(c, g, p);
      RebaseGrows(c, m, g, p);
      SplitGrows(c, based, p);
      SplitKeeps(c, based, p);
      StoreGrows(c, Split(c, based, p), p);
      GrowsTrans(m, based, Split(c, based, p));
      GrowsTrans(m, Split(c, based, p), Store(c, Split(c, based, p), p));
    }
  }

  lemma SplitGrows(c: Config, m: Muxer, p: Packet)
    requires Started(m) && Ready(c, m, p)
    ensures GrowsListed(m, Split(c, m, p))
  {
    hide PacketsIn, Rotate, SegmentOk, Linked, AllTimed, Counted, Ids, CacheCovers, AllOpenOnKeyframe, Unlisted;
    RotateGrows(c, m, false);
    var capped := m.(capSplitSeen := true, headerIndependent := false);
    StayNumberedAt(m, capped);
    RotateGrows(c, capped, false);
  }

  /** New codec parameters come while none of the current segment's fragments has closed. */
  predicate CutsShort(m: Muxer, codec: Codec)
    requires Started(m)
  {
    (codec.video || codec.audio) && HlsModel.Current(m).duration == 0
  }

  lemma UpdateGrows(c: Config, m: Muxer, codec: Codec)
    requires Inv(c, m) && Started(m)
    ensures var r := UpdateCodec(c, m, codec);
            Grows(m, r) && Unlisted(r.all, |r.all|) == Unlisted(m.all, |m.all|) + if CutsShort(m, codec) then 1 else 0
  {
    hide PacketsIn, SegmentOk, Linked, AllTimed, Counted, Ids, CacheCovers, Succeed, AllOpenOnKeyframe, Render,
         CanSucceed, HasInf, Unlisted, NewSegment, ForceClose;
    if codec.video || codec.audio {
      var version, s := m.initVersion + 1, HlsModel.Current(m);
      var m1 := m.(codecPars := codec, initVersion := version, initCache := m.initCache[version := codec]);
      UpdateSucceeds(c, m, codec);
      SucceedKeeps(c, m1, ForceClose(s), true);
      SucceedStarted(c, m1, ForceClose(s), true);
      ForceCloseOk(s);
      ForceCloseSame(s);
      NewOpen(s.id + 1, codec, version, true, m.tsOffset);
      UnlistedAppend(m.all, ForceClose(s), NextSegment(m1, true));
    }
  }

  /** The codec changes of a run that cut a segment short. */
  function ShortCuts(c: Config, codec: Codec, cmds: seq<Command>): nat {
    if cmds == [] then 0 else
    var m := Run(c, codec, cmds[..|cmds| - 1]);
    ShortCuts(c, codec, cmds[..|cmds| - 1]) +
    match cmds[|cmds| - 1]
    case Write(_) => 0
    case Update(codec') => if CutsShort(m, codec') then 1 else 0
  }

  /** Segments go unlisted by exactly these codec changes. */
  lemma {:induction false} UnlistedAreShortCuts(c: Config, codec: Codec, cmds: seq<Command>)
    ensures var m := Run(c, codec, cmds);
            Unlisted(m.all, |m.all|) == ShortCuts(c, codec, cmds)
  {
    hide Inv, WritePacket, UpdateCodec, Unlisted;
    if cmds == [] {
      NewOpen(0, codec, 0, false, 0);
      UnlistedOne(NewSegment(0, codec, 0, false, 0));
    } else {
      var m := Run(c, codec, cmds[..|cmds| - 1]);
      UnlistedAreShortCuts(c, codec, cmds[..|cmds| - 1]);
      Reachable(c, codec, cmds[..|cmds| - 1]);
      match cmds[|cmds| - 1]
      case Write(p) => WriteGrows(c, m, p);
      case Update(codec') => UpdateGrows(c, m, codec');
    }
  }

  lemma UnlistedOne(s: Segment)
    requires !s.finished
    ensures Unlisted([s], 1) == 0
  {
    assert Unlisted([s], 0) == 0;
  }

  lemma StepGrows(c: Config, m: Muxer, cmd: Command)
    requires Inv(c, m) && Started(m)
    ensures Grows(m, Step(c, m, cmd))
  {
    hide Inv, WritePacket, UpdateCodec, Unlisted;
    match cmd
    case Write(p) => WriteGrows(c, m, p);
    case Update(codec) => UpdateGrows(c, m, codec);
  }

  lemma {:induction false} RunGrows(c: Config, codec: Codec, cmds: seq<Command>, k: nat)
    requires k <= |cmds|
    ensures Grows(Run(c, codec, cmds[..k]), Run(c, codec, cmds))
    decreases |cmds|
  {
    hide Inv, Step;
    if k == |cmds| {
      assert cmds[..k] == cmds;
    } else {
      var front := cmds[..|cmds| - 1];
      RunGrows(c, codec, front, k);
      assert front[..k] == cmds[..k];
      Reachable(c, codec, front);
      StepGrows(c, Run(c, codec, front), cmds[|cmds| - 1]);
      GrowsTrans(Run(c, codec, cmds[..k]), Run(c, codec, front), Run(c, codec, cmds));
    }
  }

  /** Main result: a segment's media number changes between two moments of a run exactly when an
      unlisted segment is evicted in between. */
  lemma NumberStaysIff(c: Config, codec: Codec, cmds: seq<Command>, k: nat, i: nat)
    requires k <= |cmds|
    requires var m, r := Run(c, codec, cmds[..k]), Run(c, codec, cmds);
             m.first <= i < |m.all| && r.first <= i
    ensures var m, r := Run(c, codec, cmds[..k]), Run(c, codec, cmds);
            && |m.all| <= |r.all| && m.first <= r.first
            && (NumberIn(r.all, r.first, i) == NumberIn(m.all, m.first, i) <==>
                forall j :: m.first <= j < r.first ==> !IsUnlisted(r.all[j]))
  {
    hide Run, HasInf;
    RunGrows(c, codec, cmds, k);
    var m, r := Run(c, codec, cmds[..k]), Run(c, codec, cmds);
    SameUnlisted(m.all, r.all, i);
    SameUnlisted(m.all, r.all, m.first);
    NoneUnlistedIff(r.all, m.first, r.first);
  }

  /** Main result: a segment's discontinuity number, and the map it is under, never change. */
  lemma DiscontinuityNumberStays(c: Config, codec: Codec, cmds: seq<Command>, k: nat, i: nat)
    requires k <= |cmds| && i < |Run(c, codec, cmds[..k]).all|
    ensures var m, r := Run(c, codec, cmds[..k]), Run(c, codec, cmds);
            && |m.all| <= |r.all| && Discs(r.all[..i + 1]) == Discs(m.all[..i + 1]) && SameOpening(m.all[i], r.all[i])
  {
    hide Run, SameOpening;
    RunGrows(c, codec, cmds, k);
    var m, r := Run(c, codec, cmds[..k]), Run(c, codec, cmds);
    OpeningsStay(m, r, i);
    SameDiscs(m.all, r.all, i + 1);
  }

  lemma OpeningsStay(m: Muxer, r: Muxer, i: nat)
    requires Grows(m, r) && i < |m.all|
    ensures forall j :: 0 <= j <= i ==> SameOpening(m.all[j], r.all[j])
  {
  }

  lemma {:induction false} SameDiscs(a: seq<Segment>, b: seq<Segment>, k: nat)
    requires k <= |a| && k <= |b| && forall i :: 0 <= i < k ==> SameOpening(a[i], b[i])
    ensures Discs(a[..k]) == Discs(b[..k])
    decreases k
  {
    hide Discs;
    if k == 0 {
      assert a[..0] == b[..0];
    } else {
      SameDiscs(a, b, k - 1);
      DiscsStep(a, k - 1);
      DiscsStep(b, k - 1);
    }
  }

  lemma {:induction false} ExpectedAt(all: seq<Segment>, first: nat, k: nat, x: Listed) returns (i: nat)
    requires first <= k <= |all| && x in Expected(all, first, k)
    ensures k <= i < |all| && HasInf(all[i])
    ensures x == Listed(all[i].id, NumberIn(all, first, i), Discs(all[..i + 1]), all[i].initVersion, all[i].duration)
    decreases |all| - k
  {
    hide HasInf, Discs, NumberIn;
    var here := Listed(all[k].id, NumberIn(all, first, k), Discs(all[..k + 1]), all[k].initVersion, all[k].duration);
    if HasInf(all[k]) && x == here {
      i := k;
    } else {
      i := ExpectedAt(all, first, k + 1, x);
    }
  }

  /** What a client reads of a segment. */
  lemma EntryIs(c: Config, codec: Codec, cmds: seq<Command>, x: Listed)
    requires Run(c, codec, cmds).first <= |Run(c, codec, cmds).all| &&
               x in ReadPlaylist(PlaylistOf(Run(c, codec, cmds)))
    ensures var m := Run(c, codec, cmds);
            && m.first <= x.seg < |m.all| - 1
            && x == Listed(x.seg, NumberIn(m.all, m.first, x.seg), Discs(m.all[..x.seg + 1]), m.all[x.seg].initVersion,
                           m.all[x.seg].duration)
  {
    hide Run, HasInf, Discs, NumberIn, Expected, ReadPlaylist, LastOpen, Linked, AllTimed, GateOk, PlaylistOf;
    var m := Run(c, codec, cmds);
    PlaylistReads(c, codec, cmds);
    Reachable(c, codec, cmds);
    var i := ExpectedAt(m.all, m.first, m.first, x);
    ListedIsClosed(c, codec, cmds, i);
  }

  /** Main result, as clients see it: two readings of the playlist, at any two moments, agree on the
      discontinuity number, the map and the duration of every segment both list, and on its media number
      exactly when no unlisted segment was evicted in between. */
  lemma ReadingsAgree(c: Config, codec: Codec, cmds: seq<Command>, k: nat, x: Listed, y: Listed)
    requires k <= |cmds| && x.seg == y.seg
    requires Run(c, codec, cmds[..k]).first <= |Run(c, codec, cmds[..k]).all| &&
               Run(c, codec, cmds).first <= |Run(c, codec, cmds).all|
    requires x in ReadPlaylist(PlaylistOf(Run(c, codec, cmds[..k]))) &&
               y in ReadPlaylist(PlaylistOf(Run(c, codec, cmds)))
    ensures y.disc == x.disc && y.map_ == x.map_ && y.duration == x.duration
    ensures var m, r := Run(c, codec, cmds[..k]), Run(c, codec, cmds);
            && m.first <= r.first <= |r.all|
            && (y.media == x.media <==> forall j :: m.first <= j < r.first ==> !IsUnlisted(r.all[j]))
  {
    hide Run, Discs, NumberIn, ReadPlaylist, PlaylistOf, IsUnlisted;
    EntryIs(c, codec, cmds[..k], x);
    EntryIs(c, codec, cmds, y);
    NumberStaysIff(c, codec, cmds, k, x.seg);
    DiscontinuityNumberStays(c, codec, cmds, k, x.seg);
    RunGrows(c, codec, cmds, k);
  }

  /** Only closed segments have an EXTINF. */
  lemma ListedIsClosed(c: Config, codec: Codec, cmds: seq<Command>, i: nat)
    requires i < |Run(c, codec, cmds).all| && HasInf(Run(c, codec, cmds).all[i])
    ensures i < |Run(c, codec, cmds).all| - 1
  {
    hide Run;
    Reachable(c, codec, cmds);
    var m := Run(c, codec, cmds);
    OpenText(m.all[|m.all| - 1]);
  }

  lemma {:induction false} NoneUnlistedIff(all: seq<Segment>, a: nat, b: nat)
    requires a <= b <= |all|
    ensures Unlisted(all, a) == Unlisted(all, b) <==> forall j :: a <= j < b ==> !IsUnlisted(all[j])
    decreases b
  {
    hide HasInf;
    if a < b {
      NoneUnlistedIff(all, a, b - 1);
      UnlistedGrows(all, a, b - 1);
    }
  }

  /** While no codec change cuts a segment short, every segment is listed under its own id for
      its whole life; and every such change leaves a segment that is never listed. */
  lemma NumbersAreIds(c: Config, codec: Codec, cmds: seq<Command>)
    ensures var m := Run(c, codec, cmds);
            ShortCuts(c, codec, cmds) == 0 <==> forall j :: 0 <= j < |m.all| ==> !IsUnlisted(m.all[j])
    ensures var m := Run(c, codec, cmds);
            ShortCuts(c, codec, cmds) == 0 ==>
              forall i :: m.first <= i < |m.all| ==> NumberIn(m.all, m.first, i) == i == m.all[i].id
  {
    hide Run, HasInf, LastOpen, Linked, AllTimed, GateOk, ShortCuts;
    Reachable(c, codec, cmds);
    UnlistedAreShortCuts(c, codec, cmds);
    var m := Run(c, codec, cmds);
    NoneUnlistedIff(m.all, 0, |m.all|);
    forall i | m.first <= i < |m.all|
      ensures Unlisted(m.all, m.first) <= Unlisted(m.all, i) <= Unlisted(m.all, |m.all|) {
      UnlistedGrows(m.all, m.first, i);
      UnlistedGrows(m.all, i, |m.all|);
    }
  }

  // ----- A run in which a number changes -----

  const TRACE_CONFIG: Config := Config(false, 3, 1, 0, 0, 1, 1000)
  const TRACE_CODEC: Codec := Codec(true, false, 0)

  function TracePacket(n: nat): Packet {
    Packet(n, true, true, n, 10)
  }

  const TRACE: seq<Command> := [Update(TRACE_CODEC), Write(TracePacket(0)), Write(TracePacket(1)),
                                Write(TracePacket(2))]

  /** An open segment whose last fragment has no time yet. */
  predicate Fresh(s: Segment) {
    s.fragments != [] && !s.finished && !s.Current().finished && s.Current().duration == 0
  }

  /** With packets as long as a fragment, the written packet fills one. */
  lemma TraceStore(c: Config, m: Muxer, p: Packet)
    requires Inv(c, m) && Started(m) && Fresh(HlsModel.Current(m)) && p.video && p.duration >= c.fragmentDuration
    requires !c.keyframeSplit && !Wraps(c, m, p) && !HasContent(HlsModel.Current(m))
    ensures var r := WritePacket(c, m, p);
            && Started(r) && Inv(c, r) && r.first == m.first && r.all[..|r.all| - 1] == m.all[..|m.all| - 1] &&
              r.tsOffset == m.tsOffset
            && Fresh(HlsModel.Current(r)) && HlsModel.Current(r).duration == HlsModel.Current(m).duration + p.duration
  {
    hide Inv, Render;
    WriteKeeps(c, m, p);
  }

  /** A full segment is closed, and the packet goes to the next one. */
  lemma TraceSplit(c: Config, m: Muxer, p: Packet)
    requires Inv(c, m) && Started(m) && Fresh(HlsModel.Current(m)) && p.video && p.duration >= c.fragmentDuration
    requires !c.keyframeSplit && !Wraps(c, m, p) && c.minPlaylistDuration == 0
    requires HasContent(HlsModel.Current(m)) && Projected(HlsModel.Current(m), p) > c.segmentDuration
    ensures var r, closed := WritePacket(c, m, p), CloseSegment(HlsModel.Current(m));
            && Started(r) && Inv(c, r) && r.all[..|r.all| - 1] == m.all[..|m.all| - 1] + [closed] &&
              r.tsOffset == m.tsOffset
            && Fresh(HlsModel.Current(r)) && HlsModel.Current(r).duration == p.duration
            && HasInf(closed) && closed.duration == HlsModel.Current(m).duration
            && r.first == EvictByCount(c, m.(all := m.all[..|m.all| - 1] + [closed, NextSegment(m, false)])).first
  {
    hide Render, SegmentOk, Linked, AllTimed, Counted, Ids, CacheCovers, AllOpenOnKeyframe, PacketsIn, EvictByCount,
         HasInf, Discs;
    WriteKeeps(c, m, p);
    var closed := CloseSegment(HlsModel.Current(m));
    CloseOk(HlsModel.Current(m));
    RotateKeeps(c, m, false);
    var rotated := Rotate(c, m, false);
    assert rotated.first == EvictByCount(c, m.(all := m.all[..|m.all| - 1] + [closed, NextSegment(m, false)])).first;
    assert HlsModel.Current(rotated) == NextSegment(m, false);
  }

  /** New codec parameters right at the start. */
  lemma TraceStart()
    ensures var m := UpdateCodec(TRACE_CONFIG, Init(TRACE_CONFIG, TRACE_CODEC), TRACE_CODEC);
            && Started(m) && Inv(TRACE_CONFIG, m) && m.first == 0 && |m.all| == 2 && IsUnlisted(m.all[0]) &&
              m.all[0].duration == 0
            && Fresh(m.all[1]) && m.all[1].duration == 0 && m.tsOffset == 0
  {
    hide Render, HasInf, Inv;
    var s := NewSegment(0, TRACE_CODEC, 0, false, 0);
    NewOpen(0, TRACE_CODEC, 0, false, 0);
    ForcedText(s);
    InitKeeps(TRACE_CONFIG, TRACE_CODEC);
    UpdateKeeps(TRACE_CONFIG, Init(TRACE_CONFIG, TRACE_CODEC), TRACE_CODEC);
  }

  lemma Durations4(a: Segment, b: Segment, d: Segment, e: Segment)
    ensures Durations([a, b, d, e]) == a.duration + b.duration + d.duration + e.duration
  {
    assert [a, b, d, e][1..] == [b, d, e] && [b, d, e][1..] == [d, e] && [d, e][1..] == [e] && [e][1..] == [];
    assert Durations([e][1..]) == 0;
    assert Durations([e]) == e.duration;
    assert Durations([d, e]) == d.duration + e.duration;
    assert Durations([b, d, e]) == b.duration + Durations([d, e]);
  }

  lemma EvictThree(m: Muxer)
    requires m.first == 0 && |m.all| == 3
    ensures EvictByCount(TRACE_CONFIG, m).first == 0
  {
  }

  lemma EvictFour(m: Muxer)
    requires m.first == 0 && |m.all| == 4 && m.all[1].duration == 10
    ensures EvictByCount(TRACE_CONFIG, m).first == 1
  {
    hide Durations;
    assert Live(m) == [m.all[0], m.all[1], m.all[2], m.all[3]];
    Durations4(m.all[0], m.all[1], m.all[2], m.all[3]);
    assert EvictByCount(TRACE_CONFIG, m) == EvictByCount(TRACE_CONFIG, EvictOldest(m));
  }

  /** Segment 0 is never listed; when it is evicted segment 1, listed as number 0 so far, is
      listed as number 1. */
  lemma NumberChanges()
    ensures var m, r := Run(TRACE_CONFIG, TRACE_CODEC, TRACE[..3]), Run(TRACE_CONFIG, TRACE_CODEC, TRACE);
            && m.first == 0 && |m.all| == 3 && r.first == 1 && |r.all| == 4
            && HasInf(m.all[1]) && HasInf(r.all[1])
            && NumberIn(m.all, 0, 1) == 0 && NumberIn(r.all, 1, 1) == 1
  {
    hide Render, HasInf, Inv, WritePacket, UpdateCodec, EvictByCount, CloseSegment, NewSegment, Run;
    TraceRun();
    var m0 := Init(TRACE_CONFIG, TRACE_CODEC);
    var m1 := UpdateCodec(TRACE_CONFIG, m0, TRACE_CODEC);
    TraceStart();
    TraceStore(TRACE_CONFIG, m1, TracePacket(0));
    var m2 := WritePacket(TRACE_CONFIG, m1, TracePacket(0));
    TraceSplit(TRACE_CONFIG, m2, TracePacket(1));
    EvictThree(m2.(all := m2.all[..|m2.all| - 1] + [CloseSegment(HlsModel.Current(m2)), NextSegment(m2, false)]));
    var m3 := WritePacket(TRACE_CONFIG, m2, TracePacket(1));
    assert m3.all[..2] == [m2.all[0], CloseSegment(HlsModel.Current(m2))] && m2.all[0] == m1.all[0];
    assert m3.all[0] == m3.all[..2][0] && m3.all[1] == m3.all[..2][1];
    TraceSplit(TRACE_CONFIG, m3, TracePacket(2));
    EvictFour(m3.(all := m3.all[..|m3.all| - 1] + [CloseSegment(HlsModel.Current(m3)), NextSegment(m3, false)]));
    var m4 := WritePacket(TRACE_CONFIG, m3, TracePacket(2));
    assert m4.all[..3] == m3.all[..2] + [CloseSegment(HlsModel.Current(m3))];
    assert m4.all[0] == m4.all[..3][0] && m4.all[1] == m4.all[..3][1];
    assert Unlisted(m3.all, 1) == 1 && Unlisted(m3.all, 0) == 0;
  }

  lemma TraceRun()
    ensures var m1 := UpdateCodec(TRACE_CONFIG, Init(TRACE_CONFIG, TRACE_CODEC), TRACE_CODEC);
            Started(m1) && Started(WritePacket(TRACE_CONFIG, m1, TracePacket(0))) &&
            var m2 := WritePacket(TRACE_CONFIG, m1, TracePacket(0));
            Started(WritePacket(TRACE_CONFIG, m2, TracePacket(1))) &&
            var m3 := WritePacket(TRACE_CONFIG, m2, TracePacket(1));
            Run(TRACE_CONFIG, TRACE_CODEC, TRACE[..3]) == m3 &&
            Run(TRACE_CONFIG, TRACE_CODEC, TRACE) == WritePacket(TRACE_CONFIG, m3, TracePacket(2))
  {
    hide WritePacket, UpdateCodec, Started;
    assert TRACE[..1][..0] == [] && TRACE[..2][..1] == TRACE[..1] && TRACE[..3][..2] == TRACE[..2];
    assert Run(TRACE_CONFIG, TRACE_CODEC, []) == Init(TRACE_CONFIG, TRACE_CODEC);
    assert Run(TRACE_CONFIG, TRACE_CODEC, TRACE[..1]) ==
           UpdateCodec(TRACE_CONFIG, Init(TRACE_CONFIG, TRACE_CODEC), TRACE_CODEC);
    var m1 := Run(TRACE_CONFIG, TRACE_CODEC, TRACE[..1]);
    assert Run(TRACE_CONFIG, TRACE_CODEC, TRACE[..2]) == WritePacket(TRACE_CONFIG, m1, TracePacket(0));
    assert Run(TRACE_CONFIG, TRACE_CODEC, TRACE[..3]) ==
           WritePacket(TRACE_CONFIG, Run(TRACE_CONFIG, TRACE_CODEC, TRACE[..2]), TracePacket(1));
  }
}
