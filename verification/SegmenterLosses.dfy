/** writer/segmenter/segmenter.go: which packets are lost, neither written nor released, when a write or a
    flush fails. */
module SegmenterLosses {
  import opened SegmenterRing
  import opened Segmenter
  import opened Wrappers

  // ----- One file -----

  /** Closing a file and opening the next one fails; a file without packets closes in any case. */
  predicate CutFails(codec: bool, empty: bool, f: Faults) {
    (f.close && !empty) || f.open || !codec
  }

  predicate IsEmpty(s: State) {
    s.active.Some? && s.active.value.packets == []
  }

  predicate HasCodec(s: State) {
    s.videoCodec.Some?
  }

  lemma RotateFails(s: State, start: int, f: Faults)
    requires s.active.Some?
    ensures Rotate(s, start, f).1 <==> !CutFails(HasCodec(s), IsEmpty(s), f)
    ensures var (r, ok) := Rotate(s, start, f);
            r.lost == s.lost && HasCodec(r) == HasCodec(s) && r.ring == s.ring &&
              (ok ==> r.active == Some(File([], 0, start)))
  {
  }

  // ----- Always -----

  predicate CutsAt(c: Config, s: State, p: Packet) {
    IsKey(p) && s.active.Some? && s.active.value.duration >= c.target
  }

  /** There is a file for the packet: the open one, or one that could be opened for it. */
  predicate GetsAFile(c: Config, s: State, p: Packet, f: Faults) {
    if s.active.Some? then CutsAt(c, s, p) ==> !CutFails(HasCodec(s), IsEmpty(s), f)
    else IsKey(p) && HasCodec(s) && !f.open
  }

  /** In Always mode the packet itself is lost, exactly when it gets a file and writing it fails. */
  lemma AlwaysLoses(c: Config, s: State, p: Packet, f: Faults)
    ensures HandleAlways(c, s, p, f).lost == s.lost + if GetsAFile(c, s, p, f) && f.write then [p] else []
  {
    assert s.lost + [] == s.lost;
  }

  // ----- Event: a recording goes on -----

  /** The recording ends in front of the packet. */
  predicate EndsAt(c: Config, s: State, p: Packet, now: int)
    requires s.active.Some?
  {
    var idle, max := Idle(c, s, now), MaxReached(c, s, now);
    s.active.value.duration >= MIN_EVENT_SEGMENT && ((idle && IsKey(p)) || (!idle && max))
  }

  predicate EventCutsAt(c: Config, s: State, p: Packet, now: int) {
    CutsAt(c, s, p) && !Idle(c, s, now) && !MaxReached(c, s, now) && BudgetAllows(c, s, now)
  }

  /** A packet of a recording that goes on is lost exactly when it gets a file and writing it fails. */
  predicate ActiveFails(c: Config, s: State, p: Packet, now: int, f: Faults)
    requires s.active.Some?
  {
    && !EndsAt(c, s, p, now) && f.write
    && (EventCutsAt(c, s, p, now) ==> !CutFails(HasCodec(s), IsEmpty(s), f))
  }

  lemma KeepLosesNothing(c: Config, s: State, p: Packet)
    ensures Keep(c, s, p).lost == s.lost && Keep(c, s, p).active == s.active && HasCodec(Keep(c, s, p)) == HasCodec(s)
  {
  }

  lemma EndLosesNothing(c: Config, s: State, p: Packet, f: Faults)
    requires s.active.Some?
    ensures EndSession(c, s, p, f).lost == s.lost
  {
  }

  lemma ActiveLoses(c: Config, s: State, p: Packet, now: int, f: Faults)
    requires s.active.Some?
    ensures HandleActive(c, s, p, now, f).lost == s.lost + if ActiveFails(c, s, p, now, f) then [p] else []
  {
    hide EndSession, Rotate, Idle, MaxReached, BudgetAllows;
    EndLosesNothing(c, s, p, f);
    RotateFails(s, p.start, f);
    assert s.lost + [] == s.lost;
  }

  // ----- Event: a recording starts -----

  /** How long the open file has become before packet j, if it was empty for d before packet i and every
      packet in between was written: it starts anew at each keyframe past the target. */
  function FileTime(target: int, d: nat, ps: seq<Packet>, i: nat, j: nat): nat
    requires i <= j <= |ps|
    decreases j
  {
    if j == i then d else
    var before := FileTime(target, d, ps, i, j - 1);
    (if IsKey(ps[j - 1]) && before >= target then 0 else before) + TimeOf(ps[j - 1])
  }

  /** The recorded packets: from i on, behind a file of length d. */
  datatype Rest = Rest(target: int, d: nat, ps: seq<Packet>, i: nat, empty: bool, codec: bool)

  predicate CutAtFails(r: Rest, j: nat, f: Faults)
    requires r.i <= j < |r.ps|
  {
    IsKey(r.ps[j]) && FileTime(r.target, r.d, r.ps, r.i, j) >= r.target && CutFails(r.codec, r.empty && j == r.i, f)
  }

  /** Packet j is written and what follows goes on. */
  predicate Passes(r: Rest, j: nat, f: Faults)
    requires r.i <= j < |r.ps|
  {
    !CutAtFails(r, j, f) && !f.write && !f.flush
  }

  /** The first packet from j on at which the recording is given up, or the number of packets. */
  function HaltFrom(r: Rest, j: nat, faults: nat -> Faults): (h: nat)
    requires r.i <= j <= |r.ps|
    ensures j <= h <= |r.ps| && (h < |r.ps| ==> !Passes(r, h, faults(h)))
    ensures forall k :: j <= k < h ==> Passes(r, k, faults(k))
    decreases |r.ps| - j
  {
    if j == |r.ps| || !Passes(r, j, faults(j)) then j else HaltFrom(r, j + 1, faults)
  }

  /** What is lost where the recording is given up: nothing when a file could not be cut, the packet that
      could not be written, or all packets behind one after which flushing failed. */
  function LostAt(r: Rest, h: nat, f: Faults): seq<Packet>
    requires r.i <= h < |r.ps|
  {
    if CutAtFails(r, h, f) then [] else if f.write then [r.ps[h]] else if f.flush then r.ps[h + 1..] else []
  }

  function RestOf(c: Config, s: State, ps: seq<Packet>, i: nat): Rest
    requires s.active.Some?
  {
    Rest(c.target, s.active.value.duration, ps, i, IsEmpty(s), HasCodec(s))
  }

  lemma FileTimeOne(target: int, d: nat, ps: seq<Packet>, i: nat)
    requires i < |ps|
    ensures FileTime(target, d, ps, i, i) == d
    ensures FileTime(target, d, ps, i, i + 1) == (if IsKey(ps[i]) && d >= target then 0 else d) + TimeOf(ps[i])
  {
  }

  /** Passing a packet on moves the rest by one. */
  lemma {:induction false} FileTimeNext(target: int, d: nat, d': nat, ps: seq<Packet>, i: nat, j: nat)
    requires i < j <= |ps| && d' == FileTime(target, d, ps, i, i + 1)
    ensures FileTime(target, d', ps, i + 1, j) == FileTime(target, d, ps, i, j)
    decreases j
  {
    if j > i + 1 { FileTimeNext(target, d, d', ps, i, j - 1); }
  }

  lemma {:induction false} HaltNext(r: Rest, q: Rest, j: nat, faults: nat -> Faults)
    requires r.i < j <= |r.ps| && q ==
               r.(i := r.i + 1, d := FileTime(r.target, r.d, r.ps, r.i, r.i + 1), empty := false)
    ensures HaltFrom(q, j, faults) == HaltFrom(r, j, faults)
    ensures HaltFrom(r, j, faults) < |r.ps| ==>
              LostAt(q, HaltFrom(r, j, faults), faults(HaltFrom(r, j, faults))) ==
                LostAt(r, HaltFrom(r, j, faults), faults(HaltFrom(r, j, faults)))
    decreases |r.ps| - j
  {
    hide FileTime;
    FileTimeNext(r.target, r.d, q.d, r.ps, r.i, j);
    if j < |r.ps| && Passes(r, j, faults(j)) { HaltNext(r, q, j + 1, faults); }
  }

  function ReplayLosses(r: Rest, faults: nat -> Faults): seq<Packet>
    requires r.i <= |r.ps|
  {
    var h := HaltFrom(r, r.i, faults);
    if h == |r.ps| then [] else LostAt(r, h, faults(h))
  }

  lemma ReplayOnce(c: Config, s: State, ps: seq<Packet>, i: nat, faults: nat -> Faults)
    requires i < |ps|
    ensures var p, f := ps[i], faults(i);
            var (s2, open) := if CutsAt(c, s, p) then Rotate(s, p.start, f) else (s, true);
            var (s3, written) := WritePacket(s2, p, f);
            var s4 := s3.(sessionDur := s3.sessionDur + TimeOf(p));
            Replay(c, s, ps, i, faults) ==
              if !open then (Free(s2, ps[i..]), false)
              else if !written then (Free(s3, ps[i + 1..]), false)
              else if f.flush then (s4.(lost := s4.lost + ps[i + 1..]), false)
              else Replay(c, s4, ps, i + 1, faults)
  {
    hide Rotate, WritePacket;
  }

  /** The first packet: written and passed, or given up there. */
  lemma ReplayStep(c: Config, s: State, ps: seq<Packet>, i: nat, faults: nat -> Faults) returns (s': State)
    requires i < |ps| && s.active.Some?
    ensures var r, f := RestOf(c, s, ps, i), faults(i);
            if Passes(r, i, f) then
              && s'.active.Some? && Replay(c, s, ps, i, faults) == Replay(c, s', ps, i + 1, faults) && s'.lost == s.lost
              && RestOf(c, s', ps, i + 1) == r.(i := i + 1, d := FileTime(c.target, r.d, ps, i, i + 1), empty := false)
            else Replay(c, s, ps, i, faults).0.lost == s.lost + LostAt(r, i, f)
  {
    s' := s;
    ReplayOnce(c, s, ps, i, faults);
    hide Rotate, CutFails, FileTime, Replay;
    var p, f := ps[i], faults(i);
    RotateFails(s, p.start, f);
    FileTimeOne(c.target, s.active.value.duration, ps, i);
    var rotate := CutsAt(c, s, p);
    var (s2, open) := if rotate then Rotate(s, p.start, f) else (s, true);
    assert s.lost + [] == s.lost;
    if open && !f.write {
      var s3 := WritePacket(s2, p, f).0;
      var s4 := s3.(sessionDur := s3.sessionDur + TimeOf(p));
      s' := s4;
    }
  }

  /** Main result for a replay: given up at the first packet that does not pass, it loses exactly what is
      lost there. */
  lemma {:induction false} ReplayLoses(c: Config, s: State, ps: seq<Packet>, i: nat, faults: nat -> Faults)
    requires i <= |ps| && s.active.Some?
    ensures Replay(c, s, ps, i, faults).0.lost == s.lost + ReplayLosses(RestOf(c, s, ps, i), faults)
    decreases |ps| - i
  {
    hide Replay, Passes, LostAt, FileTime;
    assert s.lost + [] == s.lost;
    if i == |ps| {
      NothingToReplay(c, s, ps, faults);
    } else {
      var r := RestOf(c, s, ps, i);
      var s' := ReplayStep(c, s, ps, i, faults);
      if Passes(r, i, faults(i)) {
        ReplayLoses(c, s', ps, i + 1, faults);
        HaltNext(r, RestOf(c, s', ps, i + 1), i + 1, faults);
      }
    }
  }

  lemma NothingToReplay(c: Config, s: State, ps: seq<Packet>, faults: nat -> Faults)
    ensures Replay(c, s, ps, |ps|, faults).0 == s
  {
  }

  /** The window is recorded from its start on, once a file is open. */
  predicate Opens(s: State, faults: nat -> Faults) {
    s.ring.packets != [] && HasCodec(s) && !faults(0).open
  }

  function Drained(c: Config, s: State): Rest
    requires s.ring.packets != []
  {
    Rest(c.target, 0, s.ring.packets, StartIndex(s.ring.packets, s.lastStop), true, true)
  }

  lemma StartLoses(c: Config, s: State, now: int, faults: nat -> Faults)
    ensures StartRecording(c, s, now, faults).lost == s.lost + if Opens(s, faults)
              then ReplayLosses(Drained(c, s), faults) else []
  {
    hide Replay, StartIndex, ReplayLosses;
    var ps := s.ring.packets;
    assert s.lost + [] == s.lost;
    if Opens(s, faults) {
      var k := StartIndex(ps, s.lastStop);
      var s1 := OpenSegment(Free(s.(ring := EMPTY), ps[..k]), ps[k].start, faults(0)).0;
      ReplayLoses(c, s1.(recordStart := now, sessionDur := 0), ps, k, faults);
    }
  }

  // ----- A packet arrives -----

  /** New codec parameters close the file, which can fail. */
  predicate CloseFails(s: State, p: Packet, f: Faults) {
    Changes(s, p) && s.active.Some? && s.active.value.packets != [] && s.active.value.duration >= SECOND && f.close
  }

  /** What the packet meets: the file closed if the codec parameters are new. */
  function Met(s: State, p: Packet, f: Faults): State {
    (if Changes(s, p) then CloseSegment(SetCodec(s, p), SECOND, f).0 else s).(seenKeyframe := true)
  }

  /** What is lost when a packet arrives. */
  function Losses(c: Config, s: State, p: Packet, now: int, faults: nat -> Faults): seq<Packet> {
    var m := Met(s, p, faults(0));
    if CloseFails(s, p, faults(0)) || (!s.seenKeyframe && !IsKey(p)) then []
    else if c.mode.Always? then (if GetsAFile(c, m, p, faults(0)) && faults(0).write then [p] else [])
    else if m.active.Some? then (if ActiveFails(c, m, p, now, faults(0)) then [p] else [])
    else
      var kept := Keep(c, m, p);
      if !m.eventSaved && IsKey(p) && Opens(kept, faults) then ReplayLosses(Drained(c, kept), faults) else []
  }

  lemma EventLoses(c: Config, s: State, p: Packet, now: int, faults: nat -> Faults)
    ensures HandleEvent(c, s, p, now, faults).lost == s.lost +
              if s.active.Some? then (if ActiveFails(c, s, p, now, faults(0)) then [p] else [])
              else if !s.eventSaved && IsKey(p) && Opens(Keep(c, s, p), faults)
                then ReplayLosses(Drained(c, Keep(c, s, p)), faults)
              else []
  {
    hide Keep, StartRecording, HandleActive, ActiveFails, ReplayLosses;
    assert s.lost + [] == s.lost;
    if s.active.Some? {
      ActiveLoses(c, s, p, now, faults(0));
    } else {
      KeepLosesNothing(c, s, p);
      StartLoses(c, Keep(c, s, p), now, faults);
    }
  }

  lemma CodecClose(s: State, p: Packet, f: Faults)
    ensures Met(s, p, f).lost == s.lost
    ensures Changes(s, p) ==>
              var (s1, closed) := CloseSegment(SetCodec(s, p), SECOND, f);
              && (closed <==> !CloseFails(s, p, f)) && s1.lost == s.lost && s1.seenKeyframe == s.seenKeyframe
              && Met(s, p, f) == s1.(seenKeyframe := true)
    ensures !Changes(s, p) ==> !CloseFails(s, p, f) && Met(s, p, f) == s.(seenKeyframe := true)
  {
  }

  /** Main result, for both modes, whatever fails: exactly these packets are lost. */
  lemma ArriveLoses(c: Config, s: State, p: Packet, now: int, faults: nat -> Faults)
    ensures Arrive(c, s, p, now, faults).lost == s.lost + Losses(c, s, p, now, faults)
  {
    var m := Met(s, p, faults(0));
    CodecClose(s, p, faults(0));
    hide HandleAlways, HandleEvent, GetsAFile, ActiveFails, ReplayLosses, Keep, CloseSegment, Met, CloseFails, SetCodec,
         Changes, Opens;
    assert s.lost + [] == s.lost;
    AlwaysLoses(c, m, p, faults(0));
    EventLoses(c, m, p, now, faults);
  }

  // ----- Exactly when nothing is lost -----

  /** A write fails that the packet, or the replay of the window, reaches. */
  predicate WriteFails(c: Config, s: State, p: Packet, now: int, faults: nat -> Faults) {
    var m := Met(s, p, faults(0));
    && !CloseFails(s, p, faults(0)) && (s.seenKeyframe || IsKey(p))
    && if c.mode.Always? then GetsAFile(c, m, p, faults(0)) && faults(0).write
       else if m.active.Some? then ActiveFails(c, m, p, now, faults(0))
       else
         && !m.eventSaved && IsKey(p) && Opens(Keep(c, m, p), faults)
         && var r := Drained(c, Keep(c, m, p));
            var h := HaltFrom(r, r.i, faults);
            h < |r.ps| && !CutAtFails(r, h, faults(h)) && faults(h).write
  }

  /** A flush fails that the replay of the window reaches with packets still left. */
  predicate FlushFails(c: Config, s: State, p: Packet, now: int, faults: nat -> Faults) {
    var m := Met(s, p, faults(0));
    && !CloseFails(s, p, faults(0)) && (s.seenKeyframe || IsKey(p))
    && c.mode.Event? && m.active.None? && !m.eventSaved && IsKey(p) && Opens(Keep(c, m, p), faults)
    && var r := Drained(c, Keep(c, m, p));
       var h := HaltFrom(r, r.i, faults);
       h + 1 < |r.ps| && !CutAtFails(r, h, faults(h)) && !faults(h).write
  }

  /** Main result: a packet that arrives makes nothing be lost exactly when neither happens. */
  lemma NothingLostIff(c: Config, s: State, p: Packet, now: int, faults: nat -> Faults)
    ensures Arrive(c, s, p, now, faults).lost == s.lost <==>
              !WriteFails(c, s, p, now, faults) && !FlushFails(c, s, p, now, faults)
  {
    hide Arrive, Met, GetsAFile, ActiveFails, Keep, CloseFails, CutAtFails, StartIndex;
    ArriveLoses(c, s, p, now, faults);
    assert |Arrive(c, s, p, now, faults).lost| == |s.lost| + |Losses(c, s, p, now, faults)|;
    if Losses(c, s, p, now, faults) == [] { assert s.lost + [] == s.lost; }
  }

  ghost predicate Writable(faults: nat -> Faults) {
    forall i :: !faults(i).write && !faults(i).flush
  }

  /** While no write and no flush fails, no packet is lost, whatever else fails. */
  lemma NothingLost(c: Config, s: State, p: Packet, now: int, faults: nat -> Faults)
    requires Writable(faults)
    ensures Arrive(c, s, p, now, faults).lost == s.lost
  {
    hide Arrive, Met, GetsAFile, Keep, CloseFails, StartIndex, CutFails, Idle, MaxReached, BudgetAllows;
    assert !faults(0).write;
    NothingLostIff(c, s, p, now, faults);
  }

  /** What a step of a run loses. */
  function StepLosses(c: Config, s: State, input: Input): seq<Packet> {
    if input.Packets? then Losses(c, s, input.p, input.now, input.faults) else []
  }

  function RunLosses(c: Config, start: int, inputs: seq<Input>): seq<Packet> {
    if inputs == [] then [] else
    var front := inputs[..|inputs| - 1];
    RunLosses(c, start, front) + StepLosses(c, Run(c, start, front), inputs[|inputs| - 1])
  }

  lemma StopLosesNothing(s: State, f: Faults)
    ensures Stop(s, f).lost == s.lost
  {
  }

  /** Main result over every run: what is lost in the end is what each arrival lost. */
  lemma {:induction false} RunLoses(c: Config, start: int, inputs: seq<Input>)
    ensures Run(c, start, inputs).lost == RunLosses(c, start, inputs)
  {
    hide Arrive, Stop, Losses;
    if inputs != [] {
      var s := Run(c, start, inputs[..|inputs| - 1]);
      RunLoses(c, start, inputs[..|inputs| - 1]);
      assert s.lost + [] == s.lost;
      match inputs[|inputs| - 1]
      case Packets(p, now, faults) => ArriveLoses(c, s, p, now, faults);
      case Triggered(_) =>
      case Stopped(f) => StopLosesNothing(s, f);
    }
  }

  /** The arrival of input k, in the state it comes in, reaches a failing write or flush. */
  predicate FailsAt(c: Config, start: int, inputs: seq<Input>, k: nat)
    requires k < |inputs|
  {
    inputs[k].Packets? &&
    var s := Run(c, start, inputs[..k]);
    || WriteFails(c, s, inputs[k].p, inputs[k].now, inputs[k].faults)
    || FlushFails(c, s, inputs[k].p, inputs[k].now, inputs[k].faults)
  }

  /** Main result: a run loses nothing exactly when no arrival reaches a failing write, or a failing flush
      with packets still left. */
  lemma {:induction false} RunLosesNothingIff(c: Config, start: int, inputs: seq<Input>)
    ensures Run(c, start, inputs).lost == [] <==> forall k :: 0 <= k < |inputs| ==> !FailsAt(c, start, inputs, k)
  {
    hide Arrive, Stop, WriteFails, FlushFails;
    if inputs != [] {
      var front, last := inputs[..|inputs| - 1], inputs[|inputs| - 1];
      RunLosesNothingIff(c, start, front);
      forall k | 0 <= k < |front| ensures FailsAt(c, start, inputs, k) <==> FailsAt(c, start, front, k) {
        assert front[..k] == inputs[..k];
      }
      assert inputs[..|front|] == front;
      assert (forall k :: 0 <= k < |inputs| ==> !FailsAt(c, start, inputs, k)) <==>
             (forall k :: 0 <= k < |front| ==> !FailsAt(c, start, front, k)) && !FailsAt(c, start, inputs, |front|) by {
        hide FailsAt;
      }
      LostGrows(c, Run(c, start, front), last);
      match last
      case Packets(p, now, faults) => NothingLostIff(c, Run(c, start, front), p, now, faults);
      case Triggered(_) =>
      case Stopped(f) => StopLosesNothing(Run(c, start, front), f);
    }
  }

  lemma LostGrows(c: Config, s: State, input: Input)
    ensures s.lost <= Step(c, s, input).lost
  {
    hide Arrive, Stop, Losses;
    match input
    case Packets(p, now, faults) => ArriveLoses(c, s, p, now, faults);
    case Triggered(_) =>
    case Stopped(f) => StopLosesNothing(s, f);
  }

  // ----- A failed flush, step by step -----

  const ROOMY: Config := Config(Event, 10 * SECOND, 5 * SECOND, 60 * SECOND, Limits(30 * SECOND, 60 * SECOND, 100, 100))

  function Second(id: nat, key: bool): Packet {
    Packet(id, true, key, SECOND, 1, id * SECOND, 7)
  }

  const QUIET: nat -> Faults := i => NO_FAULTS
  const FIRST_FLUSH: nat -> Faults := i => Faults(false, false, false, i == 0)

  /** A keyframe and one more packet are in the window when a trigger and the next keyframe come. */
  const FLUSH_TRACE: seq<Input> :=
    [Packets(Second(0, true), 0, QUIET), Packets(Second(1, false), SECOND, QUIET), Triggered(2 * SECOND),
     Packets(Second(2, true), 2 * SECOND, FIRST_FLUSH)]

  /** A packet for which there is room joins the window. */
  lemma RoomyKeep(s: State, p: Packet)
    requires |s.ring.packets| < 100 && s.ring.duration + TimeOf(p) <= 30 * SECOND && s.ring.bytes + p.size <= 100
    ensures Keep(ROOMY, s, p) ==
              s.(ring := Ring(s.ring.packets + [p], s.ring.duration + TimeOf(p), s.ring.bytes + p.size),
                 released := s.released + [])
  {
    var r := Ring(s.ring.packets + [p], s.ring.duration + TimeOf(p), s.ring.bytes + p.size);
    assert EnforceLimits(ROOMY.ring, r) == (r, []);
    assert Trim(ROOMY.ring, r) == (r, []);
  }

  lemma TraceKept(s: State, p: Packet, now: int)
    requires |s.ring.packets| < 100 && s.ring.duration + TimeOf(p) <= 30 * SECOND && s.ring.bytes + p.size <= 100
    requires p.video && s.active.None? && (s.seenKeyframe || p.key) && s.eventSaved
    ensures var s' := Arrive(ROOMY, s, p, now, QUIET);
            && s'.ring == Ring(s.ring.packets + [p], s.ring.duration + TimeOf(p), s.ring.bytes + p.size)
            && s'.active.None? && s'.seenKeyframe && s'.eventSaved && s'.videoCodec == Some(p.codec) &&
              s'.lost == s.lost && s'.lastStop == s.lastStop
  {
    hide Keep, StartRecording;
    var s2 := (if Changes(s, p) then CloseSegment(SetCodec(s, p), SECOND, NO_FAULTS).0 else s).(seenKeyframe := true);
    RoomyKeep(s2, p);
  }

  /** The window is drained from its first keyframe on; flushing fails behind that, and the rest is lost. */
  lemma TraceLost(s: State)
    requires s.ring == Ring([Second(0, true), Second(1, false)], 2 * SECOND, 2) && s.active.None? && s.seenKeyframe &&
               !s.eventSaved
    requires s.videoCodec == Some(7) && s.lastStop.None?
    ensures Arrive(ROOMY, s, Second(2, true), 2 * SECOND, FIRST_FLUSH).lost ==
              s.lost + [Second(1, false), Second(2, true)]
  {
    hide Keep, Arrive;
    var p, ps := Second(2, true), [Second(0, true), Second(1, false), Second(2, true)];
    ArriveLoses(ROOMY, s, p, 2 * SECOND, FIRST_FLUSH);
    RoomyKeep(s.(seenKeyframe := true), p);
    assert s.ring.packets + [p] == ps;
    assert StartIndex(ps, None) == 0;
    var r := Rest(ROOMY.target, 0, ps, 0, true, true);
    assert HaltFrom(r, 0, FIRST_FLUSH) == 0;
    assert ps[1..] == [Second(1, false), Second(2, true)];
  }

  /** A concrete run: a flush fails while the window is recorded, and two packets are neither in a file nor
      released. */
  lemma FailedFlushLoses()
    ensures Run(ROOMY, 0, FLUSH_TRACE).lost == [Second(1, false), Second(2, true)]
  {
    hide Arrive, Run;
    var t := FLUSH_TRACE;
    RunStart(ROOMY);
    RunPrefix(ROOMY, t, 0);
    TraceKept(Init(0), Second(0, true), 0);
    RunPrefix(ROOMY, t, 1);
    TraceKept(Run(ROOMY, 0, t[..1]), Second(1, false), SECOND);
    RunPrefix(ROOMY, t, 2);
    RunPrefix(ROOMY, t, 3);
    assert t[..0] == [] && t[..4] == t;
    assert Run(ROOMY, 0, t[..2]).ring.packets == [Second(0, true), Second(1, false)];
    TraceLost(Run(ROOMY, 0, t[..3]));
    assert [] + [Second(1, false), Second(2, true)] == [Second(1, false), Second(2, true)];
  }

  lemma RunStart(c: Config)
    ensures Run(c, 0, []) == Init(0)
  {
  }

  lemma RunPrefix(c: Config, inputs: seq<Input>, k: nat)
    requires k < |inputs|
    ensures Run(c, 0, inputs[..k + 1]) == Step(c, Run(c, 0, inputs[..k]), inputs[k])
  {
    hide Step;
    assert inputs[..k + 1][..k] == inputs[..k];
  }
}
