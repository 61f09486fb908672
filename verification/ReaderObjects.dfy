/** reader: the offset handler as an object, and the read loop over the events of one source. */
module ReaderObjects {
  import opened ReaderModel
  import opened ReaderOrder
  import opened Wrappers

  class OffsetHandler {
    var lastPacket: Option<Packet>
    var lastDuration: nat
    var offsetUp: int
    var offsetDown: int

    constructor ()
      ensures View() == NEW_HANDLER
    {
      lastPacket, lastDuration, offsetUp, offsetDown := None, 0, 0, 0;
    }

    ghost function View(): Handler
      reads this
    {
      Handler(lastPacket, lastDuration, offsetUp, offsetDown)
    }

    /** Gives up the held packet, if there is one. */
    method ReleaseLastPacket() returns (released: seq<Packet>)
      modifies `lastPacket
      ensures released == HeldBy(old(View())) && View() == old(View()).(last := None)
    {
      released := [];
      if lastPacket.Some? {
        released := [lastPacket.value];
        lastPacket := None;
      }
    }

    method RecalcForGap(now: int) returns (released: seq<Packet>)
      modifies this
      ensures released == HeldBy(old(View())) && View() == ReaderModel.RecalcForGap(old(View()), now)
    {
      if lastPacket.None? { return []; }
      offsetUp := lastPacket.value.ts + (now - lastPacket.value.start);
      FloorOffset();
      released := [lastPacket.value];
      lastPacket := None;
    }

    method FloorOffset()
      modifies `offsetUp
      ensures offsetUp == Floor(old(offsetUp), lastDuration)
    {
      if lastDuration != 0 {
        offsetUp := Quotient(offsetUp, lastDuration);
        offsetUp := offsetUp * lastDuration;
      }
      offsetUp := Quotient(Quotient(offsetUp, MILLISECOND), 10) * 10 * MILLISECOND;
    }

    /** The first packet of a session starts at offsetUp and is held. */
    method CheckEmptyPacket(pkt: Packet) returns (held: bool)
      modifies this
      ensures held == old(lastPacket).None?
      ensures if held then Take(old(View()), pkt) == (View(), Held) else View() == old(View())
    {
      if lastPacket.Some? { return false; }
      offsetDown := pkt.ts;
      lastPacket := Some(pkt.(ts := pkt.ts + offsetUp - offsetDown));
      return true;
    }

    method CheckTSWrap(pkt: Packet)
      requires lastPacket.Some?
      modifies `offsetUp, `offsetDown
      ensures View() == ReaderModel.CheckTSWrap(old(View()), pkt)
    {
      if lastPacket.value.ts - pkt.ts - offsetUp + offsetDown <= MINUTE { return; }
      offsetDown := pkt.ts - lastDuration;
      offsetUp := lastPacket.value.ts;
      FloorOffset();
    }

    /** The shift keeps every distance between packets of a session; once the wrap was checked, it
        decides about the packet as the whole step does, and is what the step then holds. */
    method ApplyToPkt(pkt: Packet) returns (shifted: Packet, later: bool)
      requires lastPacket.Some?
      ensures shifted == Shift(View(), pkt)
      ensures forall other :: Shift(View(), other).ts - shifted.ts == other.ts - pkt.ts
      ensures forall h: Handler :: h.last.Some? && ReaderModel.CheckTSWrap(h, pkt) == View() ==>
                (later <==> Take(h, pkt).1.Sent?) && (later ==> Take(h, pkt).0.last == Some(shifted))
    {
      shifted := pkt.(ts := pkt.ts + offsetUp - offsetDown);
      later := shifted.ts > lastPacket.value.ts;
    }
  }

  /** repackPackets: one source, from its first packet to the stop signal. */
  class Repacker {
    const video: OffsetHandler
    const audio: OffsetHandler
    var clock: int
    var recInterval: int
    var emitted: seq<Out>
    var released: seq<Packet>
    var gaps: nat
    var done: bool

    constructor ()
      ensures View() == START && video != audio && fresh(video) && fresh(audio)
    {
      video := new OffsetHandler();
      audio := new OffsetHandler();
      clock, recInterval, emitted, released, gaps, done := 0, SECOND, [], [], 0, false;
    }

    ghost function View(): Reader
      reads this, video, audio
    {
      Reader(clock, recInterval, video.View(), audio.View(), emitted, released, gaps, done)
    }

    method ReleaseBoth()
      requires video != audio
      modifies this, video, audio
      ensures View() == ReleaseHeld(old(View()))
    {
      var held := video.ReleaseLastPacket();
      released := released + held;
      held := audio.ReleaseLastPacket();
      released := released + held;
      done := true;
    }

    method HandlePacket(handler: OffsetHandler, pkt: Packet, stopped: bool)
      requires video != audio && !pkt.kind.Other? && handler == if pkt.kind.Video? then video else audio
      modifies this, video, audio
      ensures View() == ReadPacket(old(View()), pkt, stopped)
    {
      hide Floor;
      var held := handler.CheckEmptyPacket(pkt);
      if held { return; }
      handler.CheckTSWrap(pkt);
      var shifted, later := handler.ApplyToPkt(pkt);
      if !later {
        released := released + [shifted];
        return;
      }
      var last := handler.lastPacket.value;
      if pkt.kind.Video? { last := last.(duration := shifted.ts - last.ts); }
      handler.lastDuration := last.duration;
      if stopped {
        released := released + [shifted];
        ReleaseBoth();
      } else {
        emitted := emitted + [Out(last, gaps)];
        handler.lastPacket := Some(shifted);
      }
    }

    /** handleReadError, up to the end of the wait and the attempt to open the source again. */
    method HandleReadError(reopened: bool, now: int)
      requires video != audio && !done
      modifies this, video, audio
      ensures View() == Handle(old(View()), Fail(reopened, now))
    {
      hide Floor;
      if !reopened {
        UpdateReconnectInterval();
      } else {
        var held := video.RecalcForGap(now);
        released := released + held;
        held := audio.RecalcForGap(now);
        released := released + held;
        recInterval := SECOND;
        gaps := gaps + 1;
      }
      clock := now;
    }

    /** One more failure: the wait is the next of 1, 2, 4, 8, 8, ... seconds. */
    method UpdateReconnectInterval()
      modifies `recInterval
      ensures forall n: nat :: old(recInterval) == Backoff(n) ==> recInterval == Backoff(n + 1)
      ensures recInterval == Doubled(old(recInterval))
    {
      if recInterval >= MAX_RECONNECT { return; }
      recInterval := recInterval * 2;
      if recInterval >= MAX_RECONNECT { recInterval := MAX_RECONNECT; }
    }

    method Repack(events: seq<Event>)
      requires video != audio && View() == START
      modifies this, video, audio
      ensures View() == Run(events)
    {
      hide Handle, Floor;
      var i := 0;
      assert events[..0] == [];
      while i < |events| && !done
        invariant 0 <= i <= |events| && View() == Run(events[..i])
      {
        assert events[..i + 1][..i] == events[..i];
        HandleEvent(events[i]);
        i := i + 1;
      }
      DoneStays(events, i);
    }

    method HandleEvent(e: Event)
      requires video != audio && !done
      modifies this, video, audio
      ensures View() == Handle(old(View()), e)
    {
      hide ReadPacket, ReleaseHeld;
      match e {
        case Stop(now) =>
          ReleaseBoth();
          clock := now;
        case Fail(reopened, now) => HandleReadError(reopened, now);
        case Read(pkt, stopped, now) =>
          if pkt.kind.Other? {
            OtherReleased(View(), pkt, stopped);
            released := released + [pkt];
          } else {
            HandlePacket(if pkt.kind.Video? then video else audio, pkt, stopped);
          }
          clock := now;
      }
    }

    static lemma OtherReleased(r: Reader, pkt: Packet, stopped: bool)
      requires pkt.kind.Other?
      ensures ReadPacket(r, pkt, stopped) == r.(released := r.released + [pkt])
    {
    }

    static lemma {:induction false} DoneStays(events: seq<Event>, i: nat)
      requires i <= |events| && (i == |events| || Run(events[..i]).done)
      ensures Run(events) == Run(events[..i])
      decreases |events| - i
    {
      if i == |events| {
        assert events[..i] == events;
      } else {
        assert events[..i + 1][..i] == events[..i];
        DoneStays(events, i + 1);
      }
    }
  }
}
