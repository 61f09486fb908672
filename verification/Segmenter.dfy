/** writer/segmenter/segmenter.go: one source, recorded always or around events. The clock and the
    outcome of file operations are inputs. */
module Segmenter {
  import opened SegmenterRing
  import opened Wrappers

  const SECOND: int := 1_000_000_000
  const MIN_EVENT_SEGMENT: int := 5 * SECOND

  datatype Mode = Always | Event

  datatype Config = Config(mode: Mode, target: int, postEvent: int, maxEvent: int, ring: Limits)

  /** A file being written or closed: the packets handed to its muxer, in order. */
  datatype File = File(packets: seq<Packet>, duration: nat, start: int)

  /** kept: finished with a trailer; otherwise removed again, its packets released by the muxer. */
  datatype Closed = Closed(file: File, kept: bool)

  /** What fails in this step: closing, opening, writing, flushing. */
  datatype Faults = Faults(close: bool, open: bool, write: bool, flush: bool)

  const NO_FAULTS: Faults := Faults(false, false, false, false)

  /** lost are packets nobody owns any more although they were not released. */
  datatype State = State(
    ring: Ring, active: Option<File>, closed: seq<Closed>, released: seq<Packet>, lost: seq<Packet>,
    seenKeyframe: bool, eventSaved: bool, lastEvent: int, recordStart: int, sessionDur: int, lastStop: Option<int>,
    videoCodec: Option<nat>, audioCodec: Option<nat>)

  function Init(now: int): State {
    State(EMPTY, None, [], [], [], false, true, now, 0, 0, None, None, None)
  }

  function Free(s: State, ps: seq<Packet>): State {
    s.(released := s.released + ps)
  }

  // ----- Files -----

  /** closeSegment: an empty file, one shorter than minDuration, or one whose trailer could not be
      written is removed. */
  function CloseSegment(s: State, minDuration: int, f: Faults): (State, bool) {
    match s.active
    case None => (s, true)
    case Some(af) =>
      var short := af.packets == [] || (minDuration > 0 && af.duration < minDuration);
      (s.(active := None, closed := s.closed + [Closed(af, !short && !f.close)]), short || !f.close)
  }

  function OpenSegment(s: State, start: int, f: Faults): (State, bool) {
    if s.videoCodec.None? || f.open then (s, false) else (s.(active := Some(File([], 0, start))), true)
  }

  /** The file is closed and the next one opened. */
  function Rotate(s: State, start: int, f: Faults): (State, bool) {
    var (s1, closed) := CloseSegment(s, 0, f);
    if closed then OpenSegment(s1, start, f) else (s1, false)
  }

  function Append(af: File, p: Packet): File {
    af.(packets := af.packets + [p], duration := af.duration + TimeOf(p))
  }

  /** A packet that cannot be written is not released either. */
  function WritePacket(s: State, p: Packet, f: Faults): (State, bool) {
    if s.active.None? || f.write then (s.(lost := s.lost + [p]), false)
    else (s.(active := Some(Append(s.active.value, p))), true)
  }

  // ----- Always -----

  function HandleAlways(c: Config, s: State, p: Packet, f: Faults): State {
    var rotate := IsKey(p) && s.active.Some? && s.active.value.duration >= c.target;
    var (s1, closed) := if rotate then CloseSegment(s, 0, f) else (s, true);
    if !closed then Free(s1, [p]) else
    var (s2, open) := if s1.active.None? && IsKey(p) then OpenSegment(s1, p.start, f) else (s1, true);
    if !open then Free(s2, [p]) else
    if s2.active.Some? then WritePacket(s2, p, f).0 else Free(s2, [p])
  }

  // ----- Event -----

  predicate Idle(c: Config, s: State, now: int) {
    now - s.lastEvent >= c.postEvent
  }

  predicate MaxReached(c: Config, s: State, now: int) {
    s.sessionDur >= c.maxEvent || now - s.recordStart >= c.maxEvent
  }

  function Keep(c: Config, s: State, p: Packet): State {
    var (added, d1) := Add(c.ring, s.ring, p);
    var (trimmed, d2) := if IsKey(p) then Trim(c.ring, added) else (added, []);
    Free(s.(ring := trimmed), d1 + d2)
  }

  function EndSession(c: Config, s: State, p: Packet, f: Faults): State
    requires s.active.Some?
  {
    var af := s.active.value;
    var (s1, closed) := CloseSegment(s, 0, f);
    if !closed then Free(s1, [p]) else
    var stop :=
      if IsKey(p) then Some(p.start)
      else if af.packets != [] then Some(af.start + af.duration)
      else s1.lastStop;
    Keep(c, s1.(lastStop := stop, recordStart := 0, sessionDur := 0), p)
  }

  predicate BudgetAllows(c: Config, s: State, now: int) {
    var left, wallLeft := c.maxEvent - s.sessionDur, c.maxEvent - (now - s.recordStart);
    (if wallLeft < left then wallLeft else left) >= c.target
  }

  function HandleActive(c: Config, s: State, p: Packet, now: int, f: Faults): State
    requires s.active.Some?
  {
    var idle, max := Idle(c, s, now), MaxReached(c, s, now);
    if s.active.value.duration >= MIN_EVENT_SEGMENT && ((idle && IsKey(p)) || (!idle && max))
      then EndSession(c, s, p, f) else
    var rotate := IsKey(p) && !idle && !max && s.active.value.duration >= c.target && BudgetAllows(c, s, now);
    var (s2, open) := if rotate then Rotate(s, p.start, f) else (s, true);
    if !open then Free(s2, [p]) else
    var (s3, written) := WritePacket(s2, p, f);
    if written then s3.(sessionDur := s3.sessionDur + TimeOf(p)) else s3
  }

  /** Where the recording starts in the drained window: the first keyframe at or after the end of
      the last recording, or the first keyframe, or the first packet. */
  function StartIndex(ps: seq<Packet>, lastStop: Option<int>): (k: nat)
    requires ps != []
    ensures k < |ps|
  {
    var first := if NextKey(ps, 0) == |ps| then 0 else NextKey(ps, 0);
    match lastStop
    case None => first
    case Some(stop) => if KeyFrom(ps, first, stop) == |ps| then first else KeyFrom(ps, first, stop)
  }

  /** The first keyframe from i on that does not start before stop, or the number of packets. */
  function KeyFrom(ps: seq<Packet>, i: nat, stop: int): (k: nat)
    requires i <= |ps|
    ensures i <= k <= |ps| && (k < |ps| ==> IsKey(ps[k]) && ps[k].start >= stop)
    ensures forall j :: i <= j < k ==> !(IsKey(ps[j]) && ps[j].start >= stop)
    decreases |ps| - i
  {
    if i == |ps| || (IsKey(ps[i]) && ps[i].start >= stop) then i else KeyFrom(ps, i + 1, stop)
  }

  /** The drained packets from i on go into files cut at keyframes; faults says what fails at each. A
      failed flush abandons the rest. */
  function Replay(c: Config, s: State, ps: seq<Packet>, i: nat, faults: nat -> Faults): (State, bool)
    requires i <= |ps|
    decreases |ps| - i
  {
    if i == |ps| then (s, true) else
    var p, f := ps[i], faults(i);
    var rotate := IsKey(p) && s.active.Some? && s.active.value.duration >= c.target;
    var (s2, open) := if rotate then Rotate(s, p.start, f) else (s, true);
    if !open then (Free(s2, ps[i..]), false) else
    var (s3, written) := WritePacket(s2, p, f);
    if !written then (Free(s3, ps[i + 1..]), false) else
    var s4 := s3.(sessionDur := s3.sessionDur + TimeOf(p));
    if f.flush then (s4.(lost := s4.lost + ps[i + 1..]), false) else Replay(c, s4, ps, i + 1, faults)
  }

  function StartRecording(c: Config, s: State, now: int, faults: nat -> Faults): State {
    var ps, drained := s.ring.packets, s.(ring := EMPTY);
    if ps == [] then drained else
    var k := StartIndex(ps, s.lastStop);
    var (s1, open) := OpenSegment(Free(drained, ps[..k]), ps[k].start, faults(0));
    if !open then Free(s1, ps[k..]) else
    var (s2, replayed) := Replay(c, s1.(recordStart := now, sessionDur := 0), ps, k, faults);
    if replayed && !faults(|ps|).flush then s2.(eventSaved := true) else s2
  }

  function HandleEvent(c: Config, s: State, p: Packet, now: int, faults: nat -> Faults): State {
    if s.active.Some? then HandleActive(c, s, p, now, faults(0)) else
    var kept := Keep(c, s, p);
    if !s.eventSaved && IsKey(p) then StartRecording(c, kept, now, faults) else kept
  }

  // ----- Steps -----

  predicate Changes(s: State, p: Packet) {
    (if p.video then s.videoCodec else s.audioCodec) != Some(p.codec)
  }

  function SetCodec(s: State, p: Packet): State {
    if p.video then s.(videoCodec := Some(p.codec)) else s.(audioCodec := Some(p.codec))
  }

  /** A packet arrives; new codec parameters close the file, which is dropped if shorter than a
      second; before the first keyframe packets are dropped. */
  function Arrive(c: Config, s: State, p: Packet, now: int, faults: nat -> Faults): State {
    var (s1, closed) := if Changes(s, p) then CloseSegment(SetCodec(s, p), SECOND, faults(0)) else (s, true);
    if !closed then Free(s1, [p])
    else if !s1.seenKeyframe && !IsKey(p) then Free(s1, [p])
    else
      var s2 := s1.(seenKeyframe := true);
      if c.mode.Always? then HandleAlways(c, s2, p, faults(0)) else HandleEvent(c, s2, p, now, faults)
  }

  /** A trigger: an idle stream will record, a recording one gets its window anew. */
  function Trigger(s: State, now: int): State {
    if s.active.None? then s.(lastEvent := now, eventSaved := false)
      else s.(lastEvent := now, recordStart := now, sessionDur := 0)
  }

  /** Mode change, removal of the source and shutdown: the file is closed, the window cleared. */
  function Stop(s: State, f: Faults): State {
    var (s1, _) := CloseSegment(s, 0, f);
    Free(s1.(ring := EMPTY, seenKeyframe := false), s1.ring.packets)
  }

  datatype Input = Packets(p: Packet, now: int, faults: nat -> Faults) | Triggered(now: int) | Stopped(f: Faults)

  function Step(c: Config, s: State, input: Input): State {
    match input
    case Packets(p, now, faults) => Arrive(c, s, p, now, faults)
    case Triggered(now) => Trigger(s, now)
    case Stopped(f) => Stop(s, f)
  }

  function Run(c: Config, start: int, inputs: seq<Input>): State {
    if inputs == [] then Init(start) else Step(c, Run(c, start, inputs[..|inputs| - 1]), inputs[|inputs| - 1])
  }

  // ----- Ownership -----

  function InFiles(cs: seq<Closed>, id: nat): nat {
    if cs == [] then 0 else InFiles(cs[..|cs| - 1], id) + Copies(cs[|cs| - 1].file.packets, id)
  }

  function Owned(s: State, id: nat): nat {
    Copies(s.ring.packets, id) + (if s.active.Some? then Copies(s.active.value.packets, id) else 0) +
    InFiles(s.closed, id) + Copies(s.released, id) + Copies(s.lost, id)
  }

  function One(p: Packet, id: nat): nat {
    if p.id == id then 1 else 0
  }

  lemma InFilesAppend(cs: seq<Closed>, c: Closed, id: nat)
    ensures InFiles(cs + [c], id) == InFiles(cs, id) + Copies(c.file.packets, id)
  {
    assert (cs + [c])[..|cs|] == cs;
  }

  lemma FreeOwns(s: State, ps: seq<Packet>, id: nat)
    ensures Owned(Free(s, ps), id) == Owned(s, id) + Copies(ps, id)
  {
    CopiesAppend(s.released, ps, id);
  }

  lemma FreeOne(s: State, p: Packet, id: nat)
    ensures Owned(Free(s, [p]), id) == Owned(s, id) + One(p, id)
  {
    FreeOwns(s, [p], id);
    CopiesOne(p, id);
  }

  lemma CloseOwns(s: State, minDuration: int, f: Faults, id: nat)
    ensures var (s', _) := CloseSegment(s, minDuration, f);
            Owned(s', id) == Owned(s, id) && s'.active.None? && s'.lost == s.lost && s'.ring == s.ring
  {
    if s.active.Some? {
      InFilesAppend(s.closed, Closed(s.active.value, false), id);
      InFilesAppend(s.closed, Closed(s.active.value, true), id);
    }
  }

  lemma OpenOwns(s: State, start: int, f: Faults, id: nat)
    requires s.active.None?
    ensures Owned(OpenSegment(s, start, f).0, id) == Owned(s, id)
  {
  }

  lemma RotateOwns(s: State, start: int, f: Faults, id: nat)
    ensures Owned(Rotate(s, start, f).0, id) == Owned(s, id)
  {
    hide Owned, CloseSegment, OpenSegment;
    CloseOwns(s, 0, f, id);
    OpenOwns(CloseSegment(s, 0, f).0, start, f, id);
  }

  lemma WriteOwns(s: State, p: Packet, f: Faults, id: nat)
    ensures var (s', ok) := WritePacket(s, p, f);
            Owned(s', id) == Owned(s, id) + One(p, id) && (ok ==> s'.active.Some?) && (s'.lost == s.lost <==> ok)
  {
    CopiesOne(p, id);
    CopiesAppend(s.lost, [p], id);
    if s.active.Some? { CopiesAppend(s.active.value.packets, [p], id); }
  }

  lemma AlwaysOwns(c: Config, s: State, p: Packet, f: Faults, id: nat)
    ensures Owned(HandleAlways(c, s, p, f), id) == Owned(s, id) + One(p, id)
  {
    hide Owned, CloseSegment, OpenSegment, WritePacket, Free;
    var rotate := IsKey(p) && s.active.Some? && s.active.value.duration >= c.target;
    CloseOwns(s, 0, f, id);
    var s1 := if rotate then CloseSegment(s, 0, f).0 else s;
    FreeOne(s1, p, id);
    if s1.active.None? { OpenOwns(s1, p.start, f, id); }
    var s2 := if s1.active.None? && IsKey(p) then OpenSegment(s1, p.start, f).0 else s1;
    FreeOne(s2, p, id);
    WriteOwns(s2, p, f, id);
  }

  lemma RingOwns(s: State, r: Ring, id: nat)
    ensures Owned(s.(ring := r), id) == Owned(s, id) - Copies(s.ring.packets, id) + Copies(r.packets, id)
  {
  }

  lemma KeepOwns(c: Config, s: State, p: Packet, id: nat)
    ensures Owned(Keep(c, s, p), id) == Owned(s, id) + One(p, id) && Keep(c, s, p).active == s.active
  {
    hide Add, Trim, Copies, Owned;
    AddTrimOwns(c.ring, s.ring, p, id);
    var (added, d1) := Add(c.ring, s.ring, p);
    var (trimmed, d2) := if IsKey(p) then Trim(c.ring, added) else (added, []);
    CopiesAppend(d1, d2, id);
    NoCopies(id);
    RingOwns(s, trimmed, id);
    FreeOwns(s.(ring := trimmed), d1 + d2, id);
  }

  lemma NoCopies(id: nat)
    ensures Copies([], id) == 0
  {
  }

  /** The session fields do not hold packets. */
  lemma FieldsOwn(s: State, t: State, id: nat)
    requires s.ring == t.ring && s.active == t.active && s.closed == t.closed && s.released == t.released &&
               s.lost == t.lost
    ensures Owned(s, id) == Owned(t, id)
  {
  }

  lemma EndOwns(c: Config, s: State, p: Packet, f: Faults, id: nat)
    requires s.active.Some?
    ensures Owned(EndSession(c, s, p, f), id) == Owned(s, id) + One(p, id)
  {
    hide Owned, CloseSegment, Keep, Free;
    CloseOwns(s, 0, f, id);
    var s1 := CloseSegment(s, 0, f).0;
    FreeOne(s1, p, id);
    var stop :=
      if IsKey(p) then Some(p.start)
      else if s.active.value.packets != [] then Some(s.active.value.start + s.active.value.duration)
      else s1.lastStop;
    var s2 := s1.(lastStop := stop, recordStart := 0, sessionDur := 0);
    FieldsOwn(s1, s2, id);
    KeepOwns(c, s2, p, id);
  }

  lemma ActiveOwns(c: Config, s: State, p: Packet, now: int, f: Faults, id: nat)
    requires s.active.Some?
    ensures Owned(HandleActive(c, s, p, now, f), id) == Owned(s, id) + One(p, id)
  {
    hide Owned, Rotate, WritePacket, Free, EndSession;
    EndOwns(c, s, p, f, id);
    RotateOwns(s, p.start, f, id);
    var s2 := Rotate(s, p.start, f).0;
    FreeOne(s2, p, id);
    WriteOwns(s2, p, f, id);
    WriteOwns(s, p, f, id);
    var s3, s3' := WritePacket(s2, p, f).0, WritePacket(s, p, f).0;
    FieldsOwn(s3, s3.(sessionDur := s3.sessionDur + TimeOf(p)), id);
    FieldsOwn(s3', s3'.(sessionDur := s3'.sessionDur + TimeOf(p)), id);
  }

  lemma CopiesFrom(ps: seq<Packet>, i: nat, id: nat)
    requires i < |ps|
    ensures Copies(ps[i..], id) == One(ps[i], id) + Copies(ps[i + 1..], id)
  {
    assert ps[i..][1..] == ps[i + 1..];
  }

  lemma LoseOwns(s: State, ps: seq<Packet>, id: nat)
    ensures Owned(s.(lost := s.lost + ps), id) == Owned(s, id) + Copies(ps, id)
  {
    CopiesAppend(s.lost, ps, id);
  }

  lemma {:induction false} ReplayOwns(c: Config, s: State, ps: seq<Packet>, i: nat, faults: nat -> Faults, id: nat)
    requires i <= |ps|
    ensures Owned(Replay(c, s, ps, i, faults).0, id) == Owned(s, id) + Copies(ps[i..], id)
    decreases |ps| - i
  {
    hide Owned, Rotate, WritePacket, Free, Copies;
    if i == |ps| {
      assert ps[i..] == [];
      NoCopies(id);
    } else {
      var p, f := ps[i], faults(i);
      CopiesFrom(ps, i, id);
      var rotate := IsKey(p) && s.active.Some? && s.active.value.duration >= c.target;
      RotateOwns(s, p.start, f, id);
      var s2 := if rotate then Rotate(s, p.start, f).0 else s;
      FreeOwns(s2, ps[i..], id);
      WriteOwns(s2, p, f, id);
      var s3 := WritePacket(s2, p, f).0;
      FreeOwns(s3, ps[i + 1..], id);
      var s4 := s3.(sessionDur := s3.sessionDur + TimeOf(p));
      FieldsOwn(s3, s4, id);
      LoseOwns(s4, ps[i + 1..], id);
      ReplayOwns(c, s4, ps, i + 1, faults, id);
    }
  }

  lemma StartOwns(c: Config, s: State, now: int, faults: nat -> Faults, id: nat)
    requires s.active.None?
    ensures Owned(StartRecording(c, s, now, faults), id) == Owned(s, id)
  {
    hide Owned, OpenSegment, Free, Copies, Replay, StartIndex;
    var ps, drained := s.ring.packets, s.(ring := EMPTY);
    RingOwns(s, EMPTY, id);
    NoCopies(id);
    if ps != [] {
      var k := StartIndex(ps, s.lastStop);
      assert ps[..k] + ps[k..] == ps;
      CopiesAppend(ps[..k], ps[k..], id);
      FreeOwns(drained, ps[..k], id);
      FreedActive(drained, ps[..k]);
      var freed := Free(drained, ps[..k]);
      OpenOwns(freed, ps[k].start, faults(0), id);
      var s1 := OpenSegment(freed, ps[k].start, faults(0)).0;
      FreeOwns(s1, ps[k..], id);
      var begun := s1.(recordStart := now, sessionDur := 0);
      FieldsOwn(s1, begun, id);
      ReplayOwns(c, begun, ps, k, faults, id);
      var s2 := Replay(c, begun, ps, k, faults).0;
      FieldsOwn(s2, s2.(eventSaved := true), id);
    }
  }

  lemma FreedActive(s: State, ps: seq<Packet>)
    ensures Free(s, ps).active == s.active
  {
  }

  /** Main result: every packet that arrived is at all times in exactly one place: the window, a
      file, the released ones, or lost to a failed write. */
  lemma ArriveOwns(c: Config, s: State, p: Packet, now: int, faults: nat -> Faults, id: nat)
    ensures Owned(Arrive(c, s, p, now, faults), id) == Owned(s, id) + One(p, id)
  {
    hide Owned, CloseSegment, HandleAlways, HandleActive, StartRecording, Keep, Free;
    FieldsOwn(s, SetCodec(s, p), id);
    CloseOwns(SetCodec(s, p), SECOND, faults(0), id);
    var s1 := if Changes(s, p) then CloseSegment(SetCodec(s, p), SECOND, faults(0)).0 else s;
    FreeOne(s1, p, id);
    var s2 := s1.(seenKeyframe := true);
    FieldsOwn(s1, s2, id);
    AlwaysOwns(c, s2, p, faults(0), id);
    if s2.active.Some? {
      ActiveOwns(c, s2, p, now, faults(0), id);
    } else {
      KeepOwns(c, s2, p, id);
      StartOwns(c, Keep(c, s2, p), now, faults, id);
    }
  }

  lemma StopOwns(s: State, f: Faults, id: nat)
    ensures Owned(Stop(s, f), id) == Owned(s, id) && Stop(s, f).active.None? && Stop(s, f).ring == EMPTY
  {
    hide Owned, CloseSegment, Copies;
    CloseOwns(s, 0, f, id);
    var s1 := CloseSegment(s, 0, f).0;
    RingOwns(s1, EMPTY, id);
    NoCopies(id);
    var cleared := s1.(ring := EMPTY, seenKeyframe := false);
    FieldsOwn(s1.(ring := EMPTY), cleared, id);
    FreeOwns(cleared, s1.ring.packets, id);
  }

  function Arrivals(inputs: seq<Input>, id: nat): nat {
    if inputs == [] then 0 else
    var i := inputs[|inputs| - 1];
    Arrivals(inputs[..|inputs| - 1], id) + if i.Packets? then One(i.p, id) else 0
  }

  /** Main result over every run. */
  lemma {:induction false} NothingDuplicated(c: Config, start: int, inputs: seq<Input>, id: nat)
    ensures Owned(Run(c, start, inputs), id) == Arrivals(inputs, id)
  {
    hide Owned, Arrive, Stop;
    if inputs == [] {
      InitOwns(start, id);
    } else {
      var s := Run(c, start, inputs[..|inputs| - 1]);
      NothingDuplicated(c, start, inputs[..|inputs| - 1], id);
      match inputs[|inputs| - 1]
      case Packets(p, now, faults) => ArriveOwns(c, s, p, now, faults, id);
      case Triggered(now) => FieldsOwn(s, Trigger(s, now), id);
      case Stopped(f) => StopOwns(s, f, id);
    }
  }

  lemma InitOwns(start: int, id: nat)
    ensures Owned(Init(start), id) == 0
  {
  }
}
