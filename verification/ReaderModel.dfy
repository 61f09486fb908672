/** reader/offset_handler.go and the read loop of reader/reader.go as functions on values: how the
    timestamps of one source are stitched together over reconnects and clock wraps. Times are in
    nanoseconds. */
module ReaderModel {
  import opened Wrappers

  const MILLISECOND: int := 1_000_000
  const SECOND: int := 1_000_000_000
  const MINUTE: int := 60 * SECOND
  const MAX_RECONNECT: int := 8 * SECOND

  datatype Kind = Video | Audio | Other

  /** start is the wall-clock time of arrival. */
  datatype Packet = Packet(id: nat, kind: Kind, ts: int, start: int, duration: nat)

  datatype Handler = Handler(last: Option<Packet>, lastDuration: nat, offsetUp: int, offsetDown: int)

  const NEW_HANDLER: Handler := Handler(None, 0, 0, 0)

  /** Integer division that truncates toward zero. */
  function Quotient(a: int, b: int): int
    requires b > 0
  {
    if a >= 0 then a / b else -(-a / b)
  }

  /** Down to a multiple of the last duration, if there is one, then to a multiple of 10 ms. */
  function Floor(t: int, duration: nat): int {
    Tens(if duration != 0 then Quotient(t, duration) * duration else t)
  }

  function Tens(t: int): int {
    Quotient(Quotient(t, MILLISECOND), 10) * 10 * MILLISECOND
  }

  /** RecalcForGap at wall-clock time now. */
  function RecalcForGap(h: Handler, now: int): Handler {
    match h.last
    case None => h
    case Some(last) => h.(last := None, offsetUp := Floor(last.ts + (now - last.start), h.lastDuration))
  }

  /** CheckTSWrap: the clock of the source fell back by more than a minute. */
  function CheckTSWrap(h: Handler, p: Packet): Handler
    requires h.last.Some?
  {
    var last := h.last.value;
    if last.ts - p.ts - h.offsetUp + h.offsetDown <= MINUTE then h
    else h.(offsetDown := p.ts - h.lastDuration, offsetUp := Floor(last.ts, h.lastDuration))
  }

  function Shift(h: Handler, p: Packet): Packet {
    p.(ts := p.ts + h.offsetUp - h.offsetDown)
  }

  /** What became of a packet: kept as the held one, or dropped, or kept with the one held so far
      going out. */
  datatype Outcome = Held | Dropped | Sent(packet: Packet)

  function Take(h: Handler, p: Packet): (Handler, Outcome) {
    if h.last.None? then
      var first := h.(offsetDown := p.ts);
      (first.(last := Some(Shift(first, p))), Held)
    else
      var wrapped := CheckTSWrap(h, p);
      var last, next := h.last.value, Shift(wrapped, p);
      if next.ts <= last.ts then (wrapped, Dropped) else
      var sent := if p.kind.Video? then last.(duration := next.ts - last.ts) else last;
      (wrapped.(last := Some(next), lastDuration := sent.duration), Sent(sent))
  }

  // ----- The read loop -----

  /** gap counts the reconnects before the packet went out. */
  datatype Out = Out(packet: Packet, gap: nat)

  datatype Reader = Reader(
    clock: int, interval: int, video: Handler, audio: Handler,
    emitted: seq<Out>, released: seq<Packet>, gaps: nat, done: bool)

  const START: Reader := Reader(0, SECOND, NEW_HANDLER, NEW_HANDLER, [], [], 0, false)

  /** One turn of the loop, ending at wall-clock time now: a packet was read, and stopped says
      whether the stop signal came before it could be passed on; reading failed and opening the
      source again worked or not; or the stop signal was seen first. */
  datatype Event =
    | Read(packet: Packet, stopped: bool, now: int)
    | Fail(reopened: bool, now: int)
    | Stop(now: int)

  /** A packet arrives no later than it is read, and the wait before opening the source again is
      at least the reconnect interval. */
  ghost predicate Possible(r: Reader, e: Event) {
    && r.clock <= e.now
    && (e.Read? ==> e.packet.start <= e.now)
    && (e.Fail? ==> r.clock + r.interval <= e.now)
  }

  function HeldBy(h: Handler): seq<Packet> {
    if h.last.Some? then [h.last.value] else []
  }

  function ReleaseHeld(r: Reader): Reader {
    r.(released := r.released + HeldBy(r.video) + HeldBy(r.audio),
       video := r.video.(last := None), audio := r.audio.(last := None), done := true)
  }

  function Doubled(interval: int): int {
    if interval >= MAX_RECONNECT then interval
    else if interval * 2 >= MAX_RECONNECT then MAX_RECONNECT
    else interval * 2
  }

  function HandlerOf(r: Reader, kind: Kind): Handler {
    if kind.Video? then r.video else r.audio
  }

  function SetHandler(r: Reader, kind: Kind, h: Handler): Reader {
    if kind.Video? then r.(video := h) else r.(audio := h)
  }

  function ReadPacket(r: Reader, p: Packet, stopped: bool): Reader {
    if p.kind.Other? then r.(released := r.released + [p]) else
    var (h, outcome) := Take(HandlerOf(r, p.kind), p);
    match outcome
    case Held => SetHandler(r, p.kind, h)
    case Dropped => SetHandler(r, p.kind, h).(released := r.released + [Shift(h, p)])
    case Sent(packet) =>
      // The packet that was held stays held until it could be passed on.
      if stopped then
        var kept := SetHandler(r, p.kind, h.(last := HandlerOf(r, p.kind).last));
        ReleaseHeld(kept.(released := r.released + [Shift(h, p)]))
      else SetHandler(r, p.kind, h).(emitted := r.emitted + [Out(packet, r.gaps)])
  }

  function Handle(r: Reader, e: Event): Reader {
    if r.done then r else
    (match e
     case Read(p, stopped, _) => ReadPacket(r, p, stopped)
     case Stop(_) => ReleaseHeld(r)
     case Fail(reopened, now) =>
       if reopened then
         r.(interval := SECOND, video := RecalcForGap(r.video, now), audio := RecalcForGap(r.audio, now),
            released := r.released + HeldBy(r.video) + HeldBy(r.audio), gaps := r.gaps + 1)
       else r.(interval := Doubled(r.interval))).(clock := e.now)
  }

  function Run(events: seq<Event>): Reader {
    if events == [] then START else Handle(Run(events[..|events| - 1]), events[|events| - 1])
  }

  /** Every event was possible when it came. */
  ghost predicate IsRun(events: seq<Event>) {
    forall i :: 0 <= i < |events| ==> Possible(Run(events[..i]), events[i])
  }
}
