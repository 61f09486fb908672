/** writer/segmenter/segmenter.go: what ends up in the files, and in which order. */
module SegmenterFiles {
  import opened SegmenterRing
  import opened Segmenter
  import opened Wrappers

  // ----- The window stays in order -----

  ghost predicate RingOk(c: Config, s: State) {
    Counted(s.ring) && (Within(c.ring, s.ring) || |s.ring.packets| <= 1)
  }

  lemma KeepRing(c: Config, s: State, p: Packet)
    requires RingOk(c, s)
    ensures RingOk(c, Keep(c, s, p))
  {
    hide Add, Trim, Counted, Within, TrimWindow;
    AddKeeps(c.ring, s.ring, p);
    TrimKeeps(c.ring, Add(c.ring, s.ring, p).0);
  }

  lemma CloseRing(s: State, minDuration: int, f: Faults)
    ensures CloseSegment(s, minDuration, f).0.ring == s.ring
  {
  }

  lemma EndRing(c: Config, s: State, p: Packet, f: Faults)
    requires RingOk(c, s) && s.active.Some?
    ensures RingOk(c, EndSession(c, s, p, f))
  {
    hide Keep, RingOk, CloseSegment;
    CloseRing(s, 0, f);
    var s1 := CloseSegment(s, 0, f).0;
    var stop :=
      if IsKey(p) then Some(p.start)
      else if s.active.value.packets != [] then Some(s.active.value.start + s.active.value.duration)
      else s1.lastStop;
    SameRing(c, s, s1.(lastStop := stop, recordStart := 0, sessionDur := 0));
    SameRing(c, s, Free(s1, [p]));
    KeepRing(c, s1.(lastStop := stop, recordStart := 0, sessionDur := 0), p);
  }

  lemma SameRing(c: Config, s: State, t: State)
    requires RingOk(c, s) && t.ring == s.ring
    ensures RingOk(c, t)
  {
  }

  lemma FileRing(s: State, p: Packet, f: Faults)
    ensures OpenSegment(s, p.start, f).0.ring == s.ring && WritePacket(s, p, f).0.ring == s.ring
  {
  }

  lemma RotateRing(s: State, p: Packet, f: Faults)
    ensures Rotate(s, p.start, f).0.ring == s.ring
  {
    hide CloseSegment, OpenSegment;
    CloseRing(s, 0, f);
    FileRing(CloseSegment(s, 0, f).0, p, f);
  }

  lemma {:induction false} ReplayRing(c: Config, s: State, ps: seq<Packet>, i: nat, faults: nat -> Faults)
    requires i <= |ps|
    ensures Replay(c, s, ps, i, faults).0.ring == s.ring
    decreases |ps| - i
  {
    hide Rotate, WritePacket;
    if i < |ps| {
      var p, f := ps[i], faults(i);
      var rotate := IsKey(p) && s.active.Some? && s.active.value.duration >= c.target;
      RotateRing(s, p, f);
      var s2 := if rotate then Rotate(s, p.start, f).0 else s;
      FileRing(s2, p, f);
      var s3 := WritePacket(s2, p, f).0;
      ReplayRing(c, s3.(sessionDur := s3.sessionDur + TimeOf(p)), ps, i + 1, faults);
    }
  }

  lemma StartRing(c: Config, s: State, now: int, faults: nat -> Faults)
    ensures StartRecording(c, s, now, faults).ring == EMPTY
  {
    hide Replay;
    var ps := s.ring.packets;
    if ps != [] {
      var k := StartIndex(ps, s.lastStop);
      var s1 := OpenSegment(Free(s.(ring := EMPTY), ps[..k]), ps[k].start, faults(0)).0;
      ReplayRing(c, s1.(recordStart := now, sessionDur := 0), ps, k, faults);
    }
  }

  /** Main result: in every run the counters of the window are the sums they stand for, and its
      limits hold unless a single packet is left. */
  lemma {:induction false} WindowStaysBounded(c: Config, start: int, inputs: seq<Input>)
    ensures RingOk(c, Run(c, start, inputs))
  {
    hide Arrive, RingOk;
    if inputs == [] {
      EmptyRing(c, Init(start));
    } else {
      var s := Run(c, start, inputs[..|inputs| - 1]);
      WindowStaysBounded(c, start, inputs[..|inputs| - 1]);
      match inputs[|inputs| - 1]
      case Packets(p, now, faults) => ArriveRing(c, s, p, now, faults);
      case Triggered(now) => SameRing(c, s, Trigger(s, now));
      case Stopped(f) => EmptyRing(c, Stop(s, f));
    }
  }

  lemma EmptyRing(c: Config, s: State)
    requires s.ring == EMPTY
    ensures RingOk(c, s)
  {
  }

  lemma AlwaysRing(c: Config, s: State, p: Packet, f: Faults)
    ensures HandleAlways(c, s, p, f).ring == s.ring
  {
    hide CloseSegment, OpenSegment, WritePacket;
    CloseRing(s, 0, f);
    FileRing(s, p, f);
    var s1 := CloseSegment(s, 0, f).0;
    FileRing(s1, p, f);
    FileRing(OpenSegment(s1, p.start, f).0, p, f);
    FileRing(OpenSegment(s, p.start, f).0, p, f);
  }

  lemma ActiveRing(c: Config, s: State, p: Packet, now: int, f: Faults)
    requires RingOk(c, s) && s.active.Some?
    ensures RingOk(c, HandleActive(c, s, p, now, f))
  {
    hide Rotate, WritePacket, EndSession, RingOk;
    EndRing(c, s, p, f);
    RotateRing(s, p, f);
    FileRing(s, p, f);
    FileRing(Rotate(s, p.start, f).0, p, f);
    var r := HandleActive(c, s, p, now, f);
    if r.ring == s.ring { SameRing(c, s, r); }
  }

  lemma ArriveRing(c: Config, s: State, p: Packet, now: int, faults: nat -> Faults)
    requires RingOk(c, s)
    ensures RingOk(c, Arrive(c, s, p, now, faults))
  {
    hide RingOk, Keep, StartRecording, HandleActive, HandleAlways, CloseSegment;
    CloseRing(SetCodec(s, p), SECOND, faults(0));
    var s1 := if Changes(s, p) then CloseSegment(SetCodec(s, p), SECOND, faults(0)).0 else s;
    SameRing(c, s, s1);
    SameRing(c, s, Free(s1, [p]));
    var s2 := s1.(seenKeyframe := true);
    SameRing(c, s, s2);
    AlwaysRing(c, s2, p, faults(0));
    SameRing(c, s, HandleAlways(c, s2, p, faults(0)));
    if s2.active.Some? {
      ActiveRing(c, s2, p, now, faults(0));
    } else {
      KeepRing(c, s2, p);
      StartRing(c, Keep(c, s2, p), now, faults);
      EmptyRing(c, StartRecording(c, Keep(c, s2, p), now, faults));
    }
  }

  // ----- Always: the files are the input -----

  function Joined(cs: seq<Closed>): seq<Packet> {
    if cs == [] then [] else Joined(cs[..|cs| - 1]) + cs[|cs| - 1].file.packets
  }

  /** Everything written, in order. */
  function Content(s: State): seq<Packet> {
    Joined(s.closed) + if s.active.Some? then s.active.value.packets else []
  }

  /** A file that begins with a keyframe and has not gone past a keyframe at which the target was
      reached. */
  ghost predicate FileOk(f: File, target: int) {
    && f.packets != [] && IsKey(f.packets[0]) && f.duration == Time(f.packets)
    && forall j :: 0 < j < |f.packets| && IsKey(f.packets[j]) ==> Time(f.packets[..j]) < target
  }

  /** All files are kept and were closed once the target was reached. */
  ghost predicate FilesOk(c: Config, s: State) {
    && (forall i :: 0 <= i < |s.closed| ==>
        s.closed[i].kept && FileOk(s.closed[i].file, c.target) && s.closed[i].file.duration >= c.target)
    && (s.active.Some? ==> FileOk(s.active.value, c.target))
  }

  lemma JoinedAppend(cs: seq<Closed>, c: Closed)
    ensures Joined(cs + [c]) == Joined(cs) + c.file.packets
  {
    assert (cs + [c])[..|cs|] == cs;
  }

  lemma AppendFileOk(af: File, p: Packet, target: int)
    requires FileOk(af, target) && (IsKey(p) ==> af.duration < target)
    ensures FileOk(Append(af, p), target)
  {
    SumsAppend(af.packets, [p]);
    SumsOne(p);
    var ps := af.packets + [p];
    forall j | 0 < j < |ps| && IsKey(ps[j]) ensures Time(ps[..j]) < target {
      assert ps[..j] == af.packets[..j];
      if j == |af.packets| { assert af.packets[..j] == af.packets; }
    }
  }

  lemma OpenFileOk(p: Packet, target: int)
    requires IsKey(p)
    ensures FileOk(Append(File([], 0, p.start), p), target)
  {
    SumsOne(p);
    assert [] + [p] == [p];
  }

  /** What one packet does in Always mode, nothing failing. */
  lemma AlwaysDoes(c: Config, s: State, p: Packet)
    requires (s.videoCodec.Some? || !IsKey(p)) && (s.active.Some? ==> s.active.value.packets != [])
    ensures var r := HandleAlways(c, s, p, NO_FAULTS);
            r == if s.active.Some? then
                   if IsKey(p) && s.active.value.duration >= c.target then
                     s.(closed := s.closed + [Closed(s.active.value, true)],
                        active := Some(Append(File([], 0, p.start), p)))
                   else s.(active := Some(Append(s.active.value, p)))
                 else if IsKey(p) then s.(active := Some(Append(File([], 0, p.start), p)))
                 else Free(s, [p])
  {
  }

  /** One packet in Always mode, nothing failing and no new codec parameters for an open file. */
  lemma AlwaysWrites(c: Config, s: State, p: Packet)
    requires FilesOk(c, s) && (s.videoCodec.Some? || !IsKey(p))
    ensures var r := HandleAlways(c, s, p, NO_FAULTS);
            && FilesOk(c, r) && Content(r) == Content(s) + (if s.active.Some? || IsKey(p) then [p] else [])
            && (r.active.Some? <==> s.active.Some? || IsKey(p)) && r.seenKeyframe == s.seenKeyframe
  {
    hide FileOk, Time, HandleAlways, Joined;
    if s.active.Some? {
      var af := s.active.value;
      NotEmptyFile(af, c.target);
      AlwaysDoes(c, s, p);
      if IsKey(p) && af.duration >= c.target {
        JoinedAppend(s.closed, Closed(af, true));
        OpenFileOk(p, c.target);
        assert [] + [p] == [p];
      } else {
        AppendFileOk(af, p, c.target);
        assert Joined(s.closed) + (af.packets + [p]) == Joined(s.closed) + af.packets + [p];
      }
    } else {
      AlwaysDoes(c, s, p);
      if IsKey(p) { OpenFileOk(p, c.target); }
      assert [] + [p] == [p] && Joined(s.closed) + [] == Joined(s.closed);
    }
  }

  lemma NotEmptyFile(f: File, target: int)
    requires FileOk(f, target)
    ensures f.packets != []
  {
  }

  const NONE_FAIL: nat -> Faults := i => NO_FAULTS

  function Quiet(ps: seq<Packet>): seq<Input> {
    seq(|ps|, i requires 0 <= i < |ps| => Packets(ps[i], 0, NONE_FAIL))
  }

  /** No packet brings new codec parameters while a file is open. */
  ghost predicate Undisturbed(c: Config, ps: seq<Packet>) {
    forall i :: 0 <= i < |ps| ==> Changes(Run(c, 0, Quiet(ps[..i])), ps[i]) ==> Run(c, 0, Quiet(ps[..i])).active.None?
  }

  /** Main result: recording always, with no failure and no new codec parameters for an open file,
      the files one after the other are exactly the input from the first keyframe on; each begins
      with a keyframe and ends at the first keyframe past the target. */
  lemma {:induction false} FilesAreTheInput(c: Config, ps: seq<Packet>)
    requires c.mode.Always? && Undisturbed(c, ps)
    ensures var s := Run(c, 0, Quiet(ps));
            && Content(s) == ps[NextKey(ps, 0)..] && FilesOk(c, s)
            && (s.active.Some? <==> NextKey(ps, 0) < |ps|) && (s.seenKeyframe <==> s.active.Some?)
  {
    hide FilesOk, Arrive, Content, Changes, Run;
    if ps == [] {
      RunNothing(c);
      NoFiles(c);
    } else {
      var front, p := ps[..|ps| - 1], ps[|ps| - 1];
      forall i | 0 <= i < |front|
        ensures Changes(Run(c, 0, Quiet(front[..i])), front[i]) ==> Run(c, 0, Quiet(front[..i])).active.None?
      {
        assert front[..i] == ps[..i];
      }
      FilesAreTheInput(c, front);
      var s := Run(c, 0, Quiet(front));
      RunQuiet(c, ps);
      ArriveWrites(c, s, p);
      KeyInFront(front, p);
      assert front + [p] == ps;
    }
  }

  lemma RunNothing(c: Config)
    ensures Run(c, 0, Quiet([])) == Init(0)
  {
  }

  lemma RunQuiet(c: Config, ps: seq<Packet>)
    requires ps != []
    ensures Run(c, 0, Quiet(ps)) == Arrive(c, Run(c, 0, Quiet(ps[..|ps| - 1])), ps[|ps| - 1], 0, NONE_FAIL)
  {
    hide Arrive;
    assert Quiet(ps)[..|ps| - 1] == Quiet(ps[..|ps| - 1]);
  }

  lemma NoFiles(c: Config)
    ensures FilesOk(c, Init(0)) && Content(Init(0)) == []
  {
  }

  lemma ArriveWrites(c: Config, s: State, p: Packet)
    requires c.mode.Always? && FilesOk(c, s) && (Changes(s, p) ==> s.active.None?) &&
               (s.seenKeyframe <==> s.active.Some?)
    ensures var r := Arrive(c, s, p, 0, NONE_FAIL);
            && FilesOk(c, r) && Content(r) == Content(s) + (if s.active.Some? || IsKey(p) then [p] else [])
            && (r.active.Some? <==> s.active.Some? || IsKey(p)) && (r.seenKeyframe <==> r.active.Some?)
  {
    hide FileOk, HandleAlways;
    var s1 := if Changes(s, p) then CloseSegment(SetCodec(s, p), SECOND, NO_FAULTS).0 else s;
    assert FilesOk(c, s1) && Content(s1) == Content(s);
    var s2 := s1.(seenKeyframe := true);
    assert FilesOk(c, s2) && Content(s2) == Content(s);
    AlwaysWrites(c, s2, p);
    assert Content(s) + [] == Content(s) && Content(Free(s1, [p])) == Content(s);
  }

  lemma KeyInFront(front: seq<Packet>, p: Packet)
    ensures var k, ps := NextKey(front, 0), front + [p];
            && (k < |front| ==> NextKey(ps, 0) == k && ps[k..] == front[k..] + [p])
            && (k == |front| ==> (if IsKey(p) then NextKey(ps, 0) == k && ps[k..] == [p] else NextKey(ps, 0) == |ps|))
  {
    var k, ps := NextKey(front, 0), front + [p];
    var n := NextKey(ps, 0);
    assert forall j :: 0 <= j < |front| ==> ps[j] == front[j];
    assert ps[|front|] == p;
  }

  // ----- Event: where a recording starts, and what it holds -----

  /** The start is a keyframe exactly when the window has one; among those at or after the end of
      the last recording it is the first, so that nothing already recorded is repeated. */
  lemma RecordingStart(ps: seq<Packet>, lastStop: Option<int>)
    requires ps != []
    ensures var k := StartIndex(ps, lastStop);
            && (IsKey(ps[k]) <==> NextKey(ps, 0) < |ps|)
            && (lastStop.Some? ==>
                  (exists j :: 0 <= j < |ps| && IsKey(ps[j]) && ps[j].start >= lastStop.value) ==>
                    ps[k].start >= lastStop.value && forall j ::
                      0 <= j < k ==> !(IsKey(ps[j]) && ps[j].start >= lastStop.value))
            && (lastStop.None? ==> forall j :: 0 <= j < k ==> !IsKey(ps[j]))
  {
    var n := NextKey(ps, 0);
    if n == |ps| {
      assert !IsKey(ps[0]);
      assert lastStop.Some? ==> KeyFrom(ps, 0, lastStop.value) == |ps|;
    }
  }

  /** A recording that starts when a keyframe comes in opens on a keyframe, unless the limits left
      only one packet in the window that is none. */
  lemma EventOpensOnKeyframe(c: Config, s: State, p: Packet)
    requires RingOk(c, s) && IsKey(p)
    ensures var ps := Keep(c, s, p).ring.packets;
            && ps != []
            && (IsKey(ps[StartIndex(ps, s.lastStop)]) <==> |ps| > 1 || IsKey(ps[0]))
  {
    hide Add, Trim, StartIndex;
    KeyframeIsThere(c.ring, s.ring, p);
    RecordingStart(Keep(c, s, p).ring.packets, s.lastStop);
  }

  /** One drained packet, nothing failing: written to the open file, or to a new one that it cuts. */
  function ReplayOne(c: Config, s: State, p: Packet): State
    requires s.active.Some?
  {
    var af := s.active.value;
    if IsKey(p) && af.duration >= c.target then
      s.(closed := s.closed + [Closed(af, true)], active := Some(Append(File([], 0, p.start), p)),
         sessionDur := s.sessionDur + TimeOf(p))
    else s.(active := Some(Append(af, p)), sessionDur := s.sessionDur + TimeOf(p))
  }

  lemma ReplayStep(c: Config, s: State, ps: seq<Packet>, i: nat)
    requires i < |ps| && s.active.Some? && s.videoCodec.Some?
    requires s.active.value.packets != [] || s.active.value.duration < c.target || !IsKey(ps[i])
    ensures Replay(c, s, ps, i, NONE_FAIL) == Replay(c, ReplayOne(c, s, ps[i]), ps, i + 1, NONE_FAIL)
  {
    hide Append;
  }

  lemma OneContent(c: Config, s: State, p: Packet)
    requires s.active.Some?
    ensures Content(ReplayOne(c, s, p)) == Content(s) + [p]
  {
    hide Joined;
    var af := s.active.value;
    JoinedAppend(s.closed, Closed(af, true));
    assert [] + [p] == [p];
    assert Joined(s.closed) + (af.packets + [p]) == Joined(s.closed) + af.packets + [p];
  }

  lemma OneKeeps(c: Config, s: State, p: Packet)
    requires s.active.Some?
    ensures var r := ReplayOne(c, s, p);
            && r.active.Some? && r.active.value.packets != [] && r.lost == s.lost && r.released == s.released &&
              r.videoCodec == s.videoCodec
            && AllReached(c, s, r)
  {
  }

  /** The files closed in between are kept and have reached the target. */
  ghost predicate AllReached(c: Config, s: State, r: State) {
    s.closed <= r.closed && forall k ::
      |s.closed| <= k < |r.closed| ==> r.closed[k].kept && r.closed[k].file.duration >= c.target
  }

  lemma ReachedTrans(c: Config, s: State, t: State, r: State)
    requires AllReached(c, s, t) && AllReached(c, t, r)
    ensures AllReached(c, s, r)
  {
  }

  /** Without failures the drained packets are all written, in order, and every file cut off on the
      way has reached the target. */
  lemma {:induction false} ReplayWrites(c: Config, s: State, ps: seq<Packet>, i: nat)
    requires i <= |ps| && s.active.Some? && s.videoCodec.Some?
    requires s.active.value.packets != [] || i == |ps| || s.active.value.duration < c.target || !IsKey(ps[i])
    ensures var (r, ok) := Replay(c, s, ps, i, NONE_FAIL);
            && ok && Content(r) == Content(s) + ps[i..] && r.active.Some? && r.lost == s.lost &&
              r.released == s.released
            && AllReached(c, s, r)
    decreases |ps| - i
  {
    hide Content, ReplayOne, AllReached;
    if i == |ps| {
      assert Content(s) + ps[i..] == Content(s);
      NoneReached(c, s);
    } else {
      hide Replay;
      var s3 := ReplayOne(c, s, ps[i]);
      ReplayStep(c, s, ps, i);
      OneContent(c, s, ps[i]);
      OneKeeps(c, s, ps[i]);
      ReplayWrites(c, s3, ps, i + 1);
      assert [ps[i]] + ps[i + 1..] == ps[i..];
      assert (Content(s) + [ps[i]]) + ps[i + 1..] == Content(s) + ([ps[i]] + ps[i + 1..]);
      ReachedTrans(c, s, s3, Replay(c, s, ps, i, NONE_FAIL).0);
    }
  }

  lemma NoneReached(c: Config, s: State)
    ensures AllReached(c, s, s)
  {
  }
}
