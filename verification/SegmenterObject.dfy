/** writer/segmenter/segmenter.go: the recording of one source as an object. */
module SegmenterObject {
  import opened SegmenterRing
  import opened SegmenterRingObject
  import opened Segmenter
  import R = SegmenterRing
  import S = Segmenter
  import opened Wrappers

  class Recorder {
    const config: Config
    const ringBuf: RingBuffer
    var activeFile: Option<File>
    var seenKeyframe: bool
    var eventSaved: bool
    var lastEvent: int
    var eventRecordStart: int
    var eventSessionDur: int
    var lastRecordStop: Option<int>
    var videoCodec: Option<nat>
    var audioCodec: Option<nat>
    ghost var closed: seq<Closed>
    ghost var released: seq<Packet>
    ghost var lost: seq<Packet>

    constructor (config: Config, now: int)
      ensures this.config == config && Valid() && fresh(ringBuf) && View() == Init(now)
    {
      this.config := config;
      ringBuf := new RingBuffer(config.ring);
      activeFile, seenKeyframe, eventSaved, lastEvent := None, false, true, now;
      eventRecordStart, eventSessionDur, lastRecordStop, videoCodec, audioCodec := 0, 0, None, None, None;
      closed, released, lost := [], [], [];
    }

    ghost predicate Valid()
      reads this
    {
      ringBuf.limits == config.ring
    }

    ghost function View(): State
      reads this, ringBuf
    {
      State(ringBuf.View(), activeFile, closed, released, lost, seenKeyframe, eventSaved, lastEvent,
            eventRecordStart, eventSessionDur, lastRecordStop, videoCodec, audioCodec)
    }

    method CloseSegment(minDuration: int, f: Faults) returns (ok: bool)
      modifies this
      ensures (View(), ok) == S.CloseSegment(old(View()), minDuration, f)
    {
      if activeFile.None? { return true; }
      var af := activeFile.value;
      activeFile := None;
      if |af.packets| == 0 || (minDuration > 0 && af.duration < minDuration) || f.close {
        closed := closed + [Closed(af, false)];
        return |af.packets| == 0 || (minDuration > 0 && af.duration < minDuration);
      }
      closed := closed + [Closed(af, true)];
      return true;
    }

    method OpenSegment(start: int, f: Faults) returns (ok: bool)
      modifies this
      ensures (View(), ok) == S.OpenSegment(old(View()), start, f)
    {
      if videoCodec.None? || f.open { return false; }
      activeFile := Some(File([], 0, start));
      return true;
    }

    method Rotate(start: int, f: Faults) returns (ok: bool)
      modifies this
      ensures (View(), ok) == S.Rotate(old(View()), start, f)
    {
      hide S.CloseSegment, S.OpenSegment;
      ok := CloseSegment(0, f);
      if ok { ok := OpenSegment(start, f); }
    }

    method WritePacket(pkt: Packet, f: Faults) returns (ok: bool)
      modifies this
      ensures (View(), ok) == S.WritePacket(old(View()), pkt, f)
    {
      if activeFile.None? || f.write {
        lost := lost + [pkt];
        return false;
      }
      var af := activeFile.value;
      af := af.(packets := af.packets + [pkt]);
      if pkt.video { af := af.(duration := af.duration + pkt.duration); }
      activeFile := Some(af);
      return true;
    }

    method HandleAlways(pkt: Packet, f: Faults)
      modifies this
      ensures View() == S.HandleAlways(config, old(View()), pkt, f)
    {
      hide S.CloseSegment, S.OpenSegment, S.WritePacket;
      var ok := true;
      if IsKey(pkt) && activeFile.Some? && activeFile.value.duration >= config.target { ok := CloseSegment(0, f); }
      if ok && activeFile.None? && IsKey(pkt) { ok := OpenSegment(pkt.start, f); }
      if !ok || activeFile.None? {
        released := released + [pkt];
        return;
      }
      var _ := WritePacket(pkt, f);
    }

    /** The packet joins the pre-buffer; a keyframe lets it be trimmed. */
    method Keep(pkt: Packet)
      requires Valid()
      modifies this, ringBuf
      ensures Valid() && View() == S.Keep(config, old(View()), pkt)
    {
      hide R.Add, R.Trim;
      ghost var before := ringBuf.released;
      ghost var (added, d1) := R.Add(config.ring, ringBuf.View(), pkt);
      ringBuf.Add(pkt);
      if IsKey(pkt) { ringBuf.Trim(); }
      ghost var d2 := if IsKey(pkt) then R.Trim(config.ring, added).1 else [];
      released := released + (d1 + d2);
    }

    method EndEventSession(pkt: Packet, f: Faults)
      requires Valid() && activeFile.Some?
      modifies this, ringBuf
      ensures Valid() && View() == S.EndSession(config, old(View()), pkt, f)
    {
      hide S.CloseSegment, S.Keep;
      var af := activeFile.value;
      ghost var s := View();
      var ok := CloseSegment(0, f);
      if !ok {
        released := released + [pkt];
        return;
      }
      if IsKey(pkt) {
        lastRecordStop := Some(pkt.start);
      } else if |af.packets| != 0 {
        lastRecordStop := Some(af.start + af.duration);
      }
      eventRecordStart, eventSessionDur := 0, 0;
      Keep(pkt);
    }

    method HandleActiveFile(pkt: Packet, now: int, f: Faults)
      requires Valid() && activeFile.Some?
      modifies this, ringBuf
      ensures Valid() && View() == S.HandleActive(config, old(View()), pkt, now, f)
    {
      hide S.Rotate, S.WritePacket, S.EndSession;
      var idleReached := now - lastEvent >= config.postEvent;
      var maxReached := eventSessionDur >= config.maxEvent || now - eventRecordStart >= config.maxEvent;
      if activeFile.value.duration >= MIN_EVENT_SEGMENT &&
        ((idleReached && IsKey(pkt)) || (!idleReached && maxReached)) {
        EndEventSession(pkt, f);
        return;
      }
      var left, wallLeft := config.maxEvent - eventSessionDur, config.maxEvent - (now - eventRecordStart);
      if wallLeft < left { left := wallLeft; }
      if IsKey(pkt) && !idleReached && !maxReached && activeFile.value.duration >= config.target &&
        left >= config.target {
        var ok := Rotate(pkt.start, f);
        if !ok {
          released := released + [pkt];
          return;
        }
      }
      var written := WritePacket(pkt, f);
      if written && pkt.video { eventSessionDur := eventSessionDur + pkt.duration; }
    }

    /** findFirstKeyframe and findKeyframeAtOrAfter. */
    method FindStart(pkts: seq<Packet>) returns (startIdx: nat)
      requires pkts != []
      ensures startIdx == StartIndex(pkts, lastRecordStop)
    {
      startIdx := 0;
      while startIdx < |pkts| && !IsKey(pkts[startIdx])
        invariant 0 <= startIdx <= |pkts| && NextKey(pkts, startIdx) == NextKey(pkts, 0)
      {
        startIdx := startIdx + 1;
      }
      if startIdx == |pkts| { startIdx := 0; }
      if lastRecordStop.Some? {
        var i := startIdx;
        while i < |pkts|
          invariant startIdx <= i <= |pkts|
          invariant KeyFrom(pkts, i, lastRecordStop.value) == KeyFrom(pkts, startIdx, lastRecordStop.value)
        {
          if IsKey(pkts[i]) && pkts[i].start >= lastRecordStop.value { return i; }
          i := i + 1;
        }
      }
    }

    method StartEventRecording(now: int, faults: nat -> Faults)
      requires Valid()
      modifies this, ringBuf
      ensures Valid() && View() == S.StartRecording(config, old(View()), now, faults)
    {
      hide S.OpenSegment, Replay, StartIndex;
      var pkts := ringBuf.Drain();
      if |pkts| == 0 { return; }
      var startIdx := FindStart(pkts);
      released := released + pkts[..startIdx];
      var ok := OpenSegment(pkts[startIdx].start, faults(0));
      if !ok {
        released := released + pkts[startIdx..];
        return;
      }
      eventRecordStart, eventSessionDur := now, 0;
      ok := ReplayFrom(pkts, startIdx, faults);
      if ok && !faults(|pkts|).flush { eventSaved := true; }
    }

    /** One drained packet; false when the rest was given up. */
    method ReplayPacket(pkts: seq<Packet>, i: nat, faults: nat -> Faults) returns (goOn: bool)
      requires i < |pkts|
      modifies this
      ensures Replay(config, old(View()), pkts, i, faults) == if goOn then Replay(config, View(), pkts, i + 1, faults)
                else (View(), false)
    {
      hide S.Rotate, S.WritePacket;
      var pkt, f := pkts[i], faults(i);
      if IsKey(pkt) && activeFile.Some? && activeFile.value.duration >= config.target {
        var ok := Rotate(pkt.start, f);
        if !ok {
          released := released + pkts[i..];
          return false;
        }
      }
      var ok := WritePacket(pkt, f);
      if !ok {
        released := released + pkts[i + 1..];
        return false;
      }
      if pkt.video { eventSessionDur := eventSessionDur + pkt.duration; }
      if f.flush { lost := lost + pkts[i + 1..]; }
      return !f.flush;
    }

    method ReplayFrom(pkts: seq<Packet>, startIdx: nat, faults: nat -> Faults) returns (ok: bool)
      requires startIdx <= |pkts|
      modifies this
      ensures (View(), ok) == Replay(config, old(View()), pkts, startIdx, faults)
    {
      hide Replay;
      var i := startIdx;
      while i < |pkts|
        invariant startIdx <= i <= |pkts|
        invariant Replay(config, View(), pkts, i, faults) == Replay(config, old(View()), pkts, startIdx, faults)
      {
        ok := ReplayPacket(pkts, i, faults);
        if !ok { return; }
        i := i + 1;
      }
      ReplayNone(config, View(), pkts, faults);
      return true;
    }

    static lemma ReplayNone(c: Config, s: State, pkts: seq<Packet>, faults: nat -> Faults)
      ensures Replay(c, s, pkts, |pkts|, faults) == (s, true)
    {
    }

    method HandleEvent(pkt: Packet, now: int, faults: nat -> Faults)
      requires Valid()
      modifies this, ringBuf
      ensures Valid() && View() == S.HandleEvent(config, old(View()), pkt, now, faults)
    {
      hide S.HandleActive, S.Keep, S.StartRecording;
      if activeFile.Some? {
        HandleActiveFile(pkt, now, faults(0));
        return;
      }
      ghost var s := View();
      KeepFields(config, s, pkt);
      Keep(pkt);
      if !eventSaved && IsKey(pkt) { StartEventRecording(now, faults); }
    }

    static lemma KeepFields(c: Config, s: State, p: Packet)
      ensures S.Keep(c, s, p).eventSaved == s.eventSaved
    {
    }

    /** The part of Step that takes a packet of this source. */
    method Arrive(pkt: Packet, now: int, faults: nat -> Faults)
      requires Valid()
      modifies this, ringBuf
      ensures Valid() && View() == S.Arrive(config, old(View()), pkt, now, faults)
    {
      hide S.HandleAlways, S.HandleEvent, S.CloseSegment;
      if (if pkt.video then videoCodec else audioCodec) != Some(pkt.codec) {
        if pkt.video { videoCodec := Some(pkt.codec); } else { audioCodec := Some(pkt.codec); }
        var ok := CloseSegment(SECOND, faults(0));
        if !ok {
          released := released + [pkt];
          return;
        }
      }
      if !seenKeyframe && !IsKey(pkt) {
        released := released + [pkt];
        return;
      }
      seenKeyframe := true;
      if config.mode.Always? { HandleAlways(pkt, faults(0)); } else { HandleEvent(pkt, now, faults); }
    }
  }
}
