/** reader: the timestamps that leave the reader. */
module ReaderOrder {
  import opened ReaderModel
  import opened Wrappers

  /** A second, less what the two floors can take away beyond a duration. */
  const LONGEST_AUDIO: int := 990_000_002

  // ----- The two floors -----

  lemma TensIs(t: int)
    requires t >= 0
    ensures 0 <= Tens(t) <= t < Tens(t) + 10 * MILLISECOND
  {
  }

  lemma TensMonotone(a: int, b: int)
    requires 0 <= a <= b
    ensures Tens(a) <= Tens(b)
  {
  }

  lemma MultipleIs(t: int, d: nat)
    requires t >= 0 && d > 0
    ensures 0 <= Quotient(t, d) && Quotient(t, d) * d <= t < Quotient(t, d) * d + d
  {
    assert t == t / d * d + t % d;
    assert t / d >= 0;
  }

  lemma MulMonotone(a: int, b: int, d: nat)
    requires a <= b
    ensures a * d <= b * d
  {
  }

  lemma MulCancel(a: int, b: int, d: nat)
    requires a * d < b * d
    ensures a < b
  {
    if b <= a { MulMonotone(b, a, d); }
  }

  /** No multiple of d up to t is above the one t is floored to. */
  lemma LargestMultiple(t: int, d: nat, k: nat)
    requires t >= 0 && d > 0 && k * d <= t
    ensures k * d <= Quotient(t, d) * d
  {
    MultipleIs(t, d);
    var q := Quotient(t, d);
    assert (q + 1) * d == q * d + d;
    MulCancel(k, q + 1, d);
    MulMonotone(k, q, d);
  }

  /** x is what some multiple of d is floored to. */
  ghost predicate Floored(x: int, d: nat) {
    exists k: nat :: FlooredFrom(x, d, k)
  }

  predicate FlooredFrom(x: int, d: nat, k: nat) {
    x == Tens(k * d)
  }

  lemma FloorBounds(t: int, d: nat)
    requires t >= 0
    ensures 0 <= Floor(t, d) <= t
    ensures t <= Floor(t, d) + 10 * MILLISECOND - 1 + if d > 0 then d - 1 else 0
    ensures d > 0 ==> Floored(Floor(t, d), d)
  {
    if d > 0 {
      MultipleIs(t, d);
      TensIs(Quotient(t, d) * d);
      assert FlooredFrom(Floor(t, d), d, Quotient(t, d));
    } else {
      TensIs(t);
    }
  }

  /** Flooring again, 10 ms or more later, does not go back: whatever the duration. */
  lemma FloorAgain(x: int, d: nat, elapsed: int)
    requires Floored(x, d) && d > 0 && elapsed >= 10 * MILLISECOND
    ensures x <= Floor(x + elapsed, d)
  {
    var k: nat :| FlooredFrom(x, d, k);
    assert k * d >= 0;
    TensIs(k * d);
    LargestMultiple(x + elapsed, d, k);
    MultipleIs(x + elapsed, d);
    TensMonotone(k * d, Quotient(x + elapsed, d) * d);
  }

  // ----- One track -----

  function Track(outs: seq<Out>, kind: Kind): seq<Out> {
    if outs == [] then [] else
    var front, o := Track(outs[..|outs| - 1], kind), outs[|outs| - 1];
    if o.packet.kind == kind then front + [o] else front
  }

  ghost predicate Ascending(track: seq<Out>) {
    forall i, j :: 0 <= i < j < |track| ==> track[i].packet.ts < track[j].packet.ts
  }

  /** Neighbours with no reconnect in between touch. */
  ghost predicate Tiled(track: seq<Out>) {
    forall i :: 0 <= i < |track| - 1 && track[i].gap == track[i + 1].gap ==>
      track[i + 1].packet.ts == track[i].packet.ts + track[i].packet.duration
  }

  /** Where a handler stands after its track has emitted so far: what it holds, or will give the
      next packet, lies behind the last one emitted. Video knows the last duration to be the
      distance to the held packet, or the held packet to lie on a floored multiple of it. */
  ghost predicate Behind(h: Handler, track: seq<Out>, kind: Kind) {
    && (track == [] ==> h.lastDuration == 0)
    && (h.last.Some? ==> h.last.value.kind == kind && h.last.value.ts >= 0)
    && h.offsetUp >= 0
    && (track != [] ==>
          var e := track[|track| - 1].packet;
          var front := if h.last.Some? then h.last.value.ts else h.offsetUp;
          && e.ts < front && e.duration == h.lastDuration
          && (kind.Video? ==>
                h.lastDuration > 0 && (Floored(front, h.lastDuration) || (h.last.Some? && front == e.ts + e.duration))))
  }

  /** While no reconnect has come after the last emitted packet, the held one follows it at once. */
  ghost predicate Adjacent(h: Handler, track: seq<Out>, gaps: nat) {
    track != [] ==>
      var e := track[|track| - 1];
      e.gap <= gaps && (e.gap == gaps ==> h.last.Some? && h.last.value.ts == e.packet.ts + e.packet.duration)
  }

  ghost predicate ShortAudio(h: Handler) {
    h.lastDuration <= LONGEST_AUDIO && (h.last.Some? ==> h.last.value.duration <= LONGEST_AUDIO)
  }

  /** A reconnect at least a second after the held packet came puts the next one behind the last
      emitted, for video of any frame duration and audio up to the longest. */
  lemma GapStaysBehind(h: Handler, track: seq<Out>, kind: Kind, now: int)
    requires Behind(h, track, kind) && !kind.Other? && (kind.Audio? ==> ShortAudio(h))
    requires h.last.Some? ==> now - h.last.value.start >= SECOND
    ensures Behind(RecalcForGap(h, now), track, kind)
  {
    hide Floor, Floored;
    if h.last.Some? {
      var last := h.last.value;
      var elapsed := now - last.start;
      FloorBounds(last.ts + elapsed, h.lastDuration);
      if track != [] && kind.Video? && Floored(last.ts, h.lastDuration) {
        FloorAgain(last.ts, h.lastDuration, elapsed);
      }
    }
  }

  /** A packet that is taken is held behind the last emitted; what goes out lies behind it too. */
  lemma TakeStaysBehind(h: Handler, track: seq<Out>, kind: Kind, p: Packet, gap: nat)
    requires Behind(h, track, kind) && p.kind == kind && !kind.Other?
    ensures var (h', outcome) := Take(h, p);
            match outcome
            case Sent(q) =>
              && Behind(h', track + [Out(q, gap)], kind) && q.kind == kind
              && (track != [] ==> track[|track| - 1].packet.ts < q.ts)
              && h'.last.Some? && (kind.Video? ==> h'.last.value.ts == q.ts + q.duration)
              && h.last.Some? && q.ts == h.last.value.ts && q.id == h.last.value.id
            case _ => Behind(h', track, kind)
  {
    hide Floor, Floored;
    if h.last.Some? { FloorBounds(h.last.value.ts, h.lastDuration); }
  }

  lemma HeldArrival(h: Handler, p: Packet)
    ensures var (h', outcome) := Take(h, p);
            !outcome.Dropped? ==>
              h'.last.Some? && h'.last.value.start == p.start &&
              h'.last.value.duration == p.duration && h'.last.value.kind == p.kind
    ensures Take(h, p).1.Dropped? ==> Take(h, p).0.last == h.last
  {
    hide Floor;
  }

  // ----- The whole run -----

  /** The interval is 1, 2, 4 or 8 seconds, and what is held arrived in the past. */
  ghost predicate Paced(r: Reader) {
    && (r.interval == SECOND || r.interval == 2 * SECOND || r.interval == 4 * SECOND || r.interval == MAX_RECONNECT)
    && (r.video.last.Some? ==> r.video.last.value.start <= r.clock)
    && (r.audio.last.Some? ==> r.audio.last.value.start <= r.clock)
  }

  ghost predicate TrackOk(r: Reader, kind: Kind) {
    var track, h := Track(r.emitted, kind), HandlerOf(r, kind);
    && Ascending(track) && (kind.Video? ==> Tiled(track))
    && (!r.done ==>
          Behind(h, track, kind) && (kind.Video? ==> Adjacent(h, track, r.gaps)) && (kind.Audio? ==> ShortAudio(h)))
  }

  ghost predicate ReaderOk(r: Reader) {
    (!r.done ==> Paced(r)) && TrackOk(r, Video) && TrackOk(r, Audio)
  }

  lemma TrackAppend(outs: seq<Out>, o: Out, kind: Kind)
    ensures Track(outs + [o], kind) == Track(outs, kind) + if o.packet.kind == kind then [o] else []
  {
    assert (outs + [o])[..|outs|] == outs;
  }

  lemma AscendingAppend(track: seq<Out>, o: Out)
    requires Ascending(track) && (track != [] ==> track[|track| - 1].packet.ts < o.packet.ts)
    ensures Ascending(track + [o])
  {
  }

  ghost predicate ShortPacket(e: Event) {
    e.Read? && e.packet.kind.Audio? ==> e.packet.duration <= LONGEST_AUDIO
  }

  lemma ReadKeepsTrack(r: Reader, p: Packet, stopped: bool)
    requires TrackOk(r, p.kind) && !r.done && !p.kind.Other? && (p.kind.Audio? ==> p.duration <= LONGEST_AUDIO)
    ensures TrackOk(ReadPacket(r, p, stopped), p.kind)
  {
    hide Take, Behind, Track;
    var track, h := Track(r.emitted, p.kind), HandlerOf(r, p.kind);
    TakeStaysBehind(h, track, p.kind, p, r.gaps);
    HeldArrival(h, p);
    TakeKeepsAdjacent(h, track, p, r.gaps);
    match Take(h, p).1
    case Sent(q) =>
      TrackAppend(r.emitted, Out(q, r.gaps), p.kind);
      AscendingAppend(track, Out(q, r.gaps));
    case _ =>
  }

  lemma TakeKeepsAdjacent(h: Handler, track: seq<Out>, p: Packet, gaps: nat)
    requires Behind(h, track, p.kind) && !p.kind.Other? &&
               (p.kind.Audio? ==> ShortAudio(h) && p.duration <= LONGEST_AUDIO)
    ensures var (h', outcome) := Take(h, p);
            match outcome
            case Sent(q) =>
              && (p.kind.Video? && Adjacent(h, track, gaps) ==> Adjacent(h', track + [Out(q, gaps)], gaps))
              && (p.kind.Video? && Adjacent(h, track, gaps) && track != [] && track[|track| - 1].gap == gaps ==>
                    q.ts == track[|track| - 1].packet.ts + track[|track| - 1].packet.duration)
              && (p.kind.Audio? ==> ShortAudio(h'))
            case _ =>
              && (p.kind.Video? && Adjacent(h, track, gaps) ==> Adjacent(h', track, gaps))
              && (p.kind.Audio? ==> ShortAudio(h'))
  {
    hide Floor, Floored;
  }

  lemma ReadKeepsOther(r: Reader, p: Packet, stopped: bool, kind: Kind)
    requires TrackOk(r, kind) && !r.done && kind != p.kind && !kind.Other?
    requires !p.kind.Other? ==> (HandlerOf(r, p.kind).last.Some? ==> HandlerOf(r, p.kind).last.value.kind == p.kind)
    ensures TrackOk(ReadPacket(r, p, stopped), kind)
  {
    hide Take, Behind, Track, Adjacent;
    if !p.kind.Other? {
      SentKind(HandlerOf(r, p.kind), p);
      match Take(HandlerOf(r, p.kind), p).1
      case Sent(q) =>
        TrackAppend(r.emitted, Out(q, r.gaps), kind);
        assert Track(r.emitted, kind) + [] == Track(r.emitted, kind);
      case _ =>
    }
  }

  lemma SentKind(h: Handler, p: Packet)
    ensures Take(h, p).1.Sent? ==> h.last.Some? && Take(h, p).1.packet.kind == h.last.value.kind
  {
    hide Floor;
  }

  lemma FailKeepsTrack(r: Reader, now: int, kind: Kind)
    requires TrackOk(r, kind) && !r.done && Paced(r) && !kind.Other? && r.clock + r.interval <= now
    ensures TrackOk(Handle(r, Fail(true, now)), kind)
  {
    hide Track, Floor, Floored;
    GapStaysBehind(HandlerOf(r, kind), Track(r.emitted, kind), kind, now);
  }

  lemma ReadKeepsPace(r: Reader, p: Packet, stopped: bool, now: int)
    requires !r.done && Paced(r) && Possible(r, Read(p, stopped, now))
    ensures var r' := Handle(r, Read(p, stopped, now)); !r'.done ==> Paced(r')
  {
    hide Take;
    if !p.kind.Other? { HeldArrival(HandlerOf(r, p.kind), p); }
  }

  lemma HeldKind(h: Handler, track: seq<Out>, kind: Kind)
    requires Behind(h, track, kind)
    ensures h.last.Some? ==> h.last.value.kind == kind
  {
  }

  lemma StepKeeps(r: Reader, e: Event)
    requires ReaderOk(r) && (!r.done ==> Possible(r, e) && ShortPacket(e))
    ensures ReaderOk(Handle(r, e))
  {
    hide Take, Behind, Track, Adjacent, Ascending, Tiled, ShortAudio, ReadPacket;
    if !r.done {
      match e
      case Read(p, stopped, now) =>
        ReadKeepsPace(r, p, stopped, now);
        HeldKind(r.video, Track(r.emitted, Video), Video);
        HeldKind(r.audio, Track(r.emitted, Audio), Audio);
        if p.kind.Video? { ReadKeepsTrack(r, p, stopped); } else { ReadKeepsOther(r, p, stopped, Video); }
        if p.kind.Audio? { ReadKeepsTrack(r, p, stopped); } else { ReadKeepsOther(r, p, stopped, Audio); }
      case Fail(reopened, now) =>
        if reopened {
          FailKeepsTrack(r, now, Video);
          FailKeepsTrack(r, now, Audio);
        }
      case Stop(now) =>
    }
  }

  lemma {:induction false} RunKeeps(events: seq<Event>)
    requires IsRun(events) && forall i :: 0 <= i < |events| ==> ShortPacket(events[i])
    ensures ReaderOk(Run(events))
  {
    hide Handle, ReaderOk, ShortPacket;
    if events == [] {
      StartOk();
    } else {
      var front := events[..|events| - 1];
      forall i | 0 <= i < |front| ensures Possible(Run(front[..i]), front[i]) {
        assert front[..i] == events[..i] && Possible(Run(events[..i]), events[i]);
      }
      RunKeeps(front);
      StepKeeps(Run(front), events[|events| - 1]);
    }
  }

  lemma StartOk()
    ensures ReaderOk(START)
  {
    assert Track([], Video) == [] && Track([], Audio) == [];
  }

  /** Main result: over every run of packets, rejected packets, clock wraps, reconnects and failed
      attempts, the timestamps that leave the reader strictly increase on each track, when no audio
      packet lasts longer than LONGEST_AUDIO; video needs no bound. The durations of video packets fill the
      time between them exactly, except over a reconnect. */
  lemma {:induction false} TimestampsIncrease(events: seq<Event>)
    requires IsRun(events) && forall i :: 0 <= i < |events| ==> ShortPacket(events[i])
    ensures var emitted := Run(events).emitted;
            Ascending(Track(emitted, Video)) && Ascending(Track(emitted, Audio)) && Tiled(Track(emitted, Video))
  {
    hide Run, Paced, Behind, Adjacent, Track, Ascending, Tiled;
    RunKeeps(events);
  }

  // ----- The waits between attempts -----

  /** The wait before the next attempt after n failed ones. */
  function Backoff(n: nat): int {
    if n == 0 then SECOND else if n == 1 then 2 * SECOND else if n == 2 then 4 * SECOND else 8 * SECOND
  }

  /** Failed attempts to open the source since it was last opened. */
  function Failures(events: seq<Event>): nat {
    if events == [] then 0 else
    var before, e := Failures(events[..|events| - 1]), events[|events| - 1];
    if !e.Fail? then before else if e.reopened then 0 else before + 1
  }

  /** In every run the wait is 1 s after an opened source, doubles with each failed attempt, and stays
      at 8 s from the third on. */
  lemma {:induction false} WaitsDouble(events: seq<Event>)
    ensures !Run(events).done ==> Run(events).interval == Backoff(Failures(events))
  {
    hide ReadPacket;
    if events != [] {
      var front, e := events[..|events| - 1], events[|events| - 1];
      WaitsDouble(front);
      if e.Read? { ReadWaits(Run(front), e.packet, e.stopped); }
    }
  }

  lemma ReadWaits(r: Reader, p: Packet, stopped: bool)
    ensures ReadPacket(r, p, stopped).interval == r.interval && (r.done ==> ReadPacket(r, p, stopped).done)
  {
    hide Take;
  }

  // ----- Ownership -----

  /** How often packet id occurs. */
  function Copies(ps: seq<Packet>, id: nat): nat {
    if ps == [] then 0 else Copies(ps[..|ps| - 1], id) + if ps[|ps| - 1].id == id then 1 else 0
  }

  function OutCopies(outs: seq<Out>, id: nat): nat {
    if outs == [] then 0 else OutCopies(outs[..|outs| - 1], id) + if outs[|outs| - 1].packet.id == id then 1 else 0
  }

  /** How often packet id was read before the stop signal was seen. */
  function TimesRead(events: seq<Event>, id: nat): nat {
    if events == [] then 0 else
    var e := events[|events| - 1];
    TimesRead(events[..|events| - 1], id) + if e.Read? && e.packet.id == id && !Run(events[..|events| - 1]).done then 1
      else 0
  }

  function Owned(r: Reader, id: nat): nat {
    OutCopies(r.emitted, id) + Copies(r.released, id) + Copies(HeldBy(r.video), id) + Copies(HeldBy(r.audio), id)
  }

  lemma {:induction false} CopiesAppend(a: seq<Packet>, b: seq<Packet>, id: nat)
    ensures Copies(a + b, id) == Copies(a, id) + Copies(b, id)
  {
    if b == [] {
      assert a + b == a;
    } else {
      CopiesAppend(a, b[..|b| - 1], id);
      assert (a + b)[..|a + b| - 1] == a + b[..|b| - 1];
    }
  }

  lemma CopiesOne(p: Packet, id: nat)
    ensures Copies([p], id) == (if p.id == id then 1 else 0) && Copies([], id) == 0
  {
    assert [p][..0] == [];
  }

  lemma ReleaseOwns(r: Reader, id: nat)
    ensures Owned(ReleaseHeld(r), id) == Owned(r, id)
  {
    hide OutCopies;
    CopiesAppend(r.released, HeldBy(r.video), id);
    CopiesAppend(r.released + HeldBy(r.video), HeldBy(r.audio), id);
  }

  lemma TakeOwns(h: Handler, p: Packet, id: nat)
    ensures var (h', outcome) := Take(h, p);
            var kept, one := Copies(HeldBy(h'), id) - Copies(HeldBy(h), id), if p.id == id then 1 else 0;
            Shift(h', p).id == p.id &&
            match outcome
            case Held => kept == one
            case Dropped => kept == 0
            case Sent(q) => kept + (if q.id == id then 1 else 0) == one
  {
    hide Floor;
    var (h', outcome) := Take(h, p);
    if h.last.Some? { CopiesOne(h.last.value, id); }
    if h'.last.Some? { CopiesOne(h'.last.value, id); }
  }

  lemma ReadOwns(r: Reader, p: Packet, stopped: bool, id: nat)
    ensures Owned(ReadPacket(r, p, stopped), id) == Owned(r, id) + if p.id == id then 1 else 0
  {
    hide Take, Copies, OutCopies, ReleaseHeld, HeldBy;
    CopiesOne(p, id);
    CopiesAppend(r.released, [p], id);
    if !p.kind.Other? {
      var h := HandlerOf(r, p.kind);
      var (h', outcome) := Take(h, p);
      TakeOwns(h, p, id);
      CopiesOne(Shift(h', p), id);
      CopiesAppend(r.released, [Shift(h', p)], id);
      match outcome
      case Sent(q) =>
        SentOwns(r.emitted, Out(q, r.gaps), id);
        var kept := SetHandler(r, p.kind, h'.(last := h.last)).(released := r.released + [Shift(h', p)]);
        SameHeld(h, h'.(last := h.last));
        ReleaseOwns(kept, id);
      case _ =>
    }
  }

  lemma SameHeld(h: Handler, k: Handler)
    requires h.last == k.last
    ensures HeldBy(h) == HeldBy(k)
  {
  }

  lemma SentOwns(outs: seq<Out>, o: Out, id: nat)
    ensures OutCopies(outs + [o], id) == OutCopies(outs, id) + if o.packet.id == id then 1 else 0
  {
    assert (outs + [o])[..|outs|] == outs;
  }

  /** Main result: at every moment each packet read has gone out once, been released once, or is
      held by its handler, never two of these; once stopped nothing is held. */
  lemma {:induction false} NothingLost(events: seq<Event>, id: nat)
    ensures Owned(Run(events), id) == TimesRead(events, id)
    ensures Run(events).done ==> HeldBy(Run(events).video) == [] && HeldBy(Run(events).audio) == []
  {
    hide Owned, ReadPacket;
    if events == [] {
      StartOwns(id);
    } else {
      var r, e := Run(events[..|events| - 1]), events[|events| - 1];
      NothingLost(events[..|events| - 1], id);
      if !r.done {
        match e
        case Read(p, stopped, now) =>
          ReadOwns(r, p, stopped, id);
          SameOwned(ReadPacket(r, p, stopped), now, id);
          ReadDone(r, p, stopped);
        case Fail(reopened, now) => FailOwns(r, reopened, now, id);
        case Stop(now) =>
          ReleaseOwns(r, id);
          SameOwned(ReleaseHeld(r), now, id);
      }
    }
  }

  lemma StartOwns(id: nat)
    ensures Owned(START, id) == 0
  {
  }

  lemma SameOwned(r: Reader, now: int, id: nat)
    ensures Owned(r.(clock := now), id) == Owned(r, id)
  {
  }

  lemma ReadDone(r: Reader, p: Packet, stopped: bool)
    requires !r.done
    ensures var r' := ReadPacket(r, p, stopped); r'.done ==> HeldBy(r'.video) == [] && HeldBy(r'.audio) == []
  {
    hide Take;
  }

  lemma FailOwns(r: Reader, reopened: bool, now: int, id: nat)
    requires !r.done
    ensures Owned(Handle(r, Fail(reopened, now)), id) == Owned(r, id) && !Handle(r, Fail(reopened, now)).done
  {
    hide OutCopies, Floor;
    if reopened { ReleaseOwns(r, id); }
  }

  // ----- Longer audio packets -----

  ghost predicate AudioWithin(events: seq<Event>, longest: int) {
    forall i :: 0 <= i < |events| && events[i].Read? && events[i].packet.kind.Audio? ==>
      events[i].packet.duration <= longest
  }

  ghost predicate Ascends(events: seq<Event>) {
    Ascending(Track(Run(events).emitted, Video)) && Ascending(Track(Run(events).emitted, Audio))
  }

  /** One nanosecond longer: a multiple of it that 10 ms floor down by as much as they can. */
  const TOO_LONG: nat := 990_000_003
  const FACTOR: nat := 3_333_333

  /** Where the held packet lies when the reconnect comes, a nanosecond behind the emitted one. */
  const HELD_AT: int := FACTOR * TOO_LONG + TOO_LONG - 1 - SECOND

  function LongPacket(id: nat, ts: int, now: int): Event {
    Read(Packet(id, Audio, ts, now, TOO_LONG), false, now)
  }

  const LONG_TRACE: seq<Event> :=
    [LongPacket(0, 0, 0), LongPacket(1, HELD_AT - 1, 0), LongPacket(2, HELD_AT, 0), Fail(true, SECOND),
     LongPacket(3, 0, SECOND), LongPacket(4, 1, SECOND)]

  lemma RunPrefix(events: seq<Event>, k: nat)
    requires k < |events|
    ensures Run(events[..k + 1]) == Handle(Run(events[..k]), events[k])
  {
    hide Handle;
    assert events[..k + 1][..k] == events[..k];
  }

  function LongHandler(id: nat, ts: int, now: int, lastDuration: nat, offsetUp: int): Handler {
    Handler(Some(Packet(id, Audio, ts, now, TOO_LONG)), lastDuration, offsetUp, 0)
  }

  /** In a session that began at source time 0, a later packet sends the held one on. */
  lemma LongNext(r: Reader, id: nat, held: int, start: int, lastDuration: nat, offsetUp: int, ts: int)
    requires r.audio == LongHandler(id, held, start, lastDuration, offsetUp) && !r.done && 0 <= held < ts + offsetUp &&
               offsetUp <= held
    ensures var r' := Handle(r, LongPacket(id + 1, ts, start));
            && r'.audio == LongHandler(id + 1, ts + offsetUp, start, TOO_LONG, offsetUp) && !r'.done &&
              r'.clock == start
            && r'.interval == r.interval && r'.gaps == r.gaps
            && r'.emitted == r.emitted + [Out(Packet(id, Audio, held, start, TOO_LONG), r.gaps)]
  {
    hide Floor, ReleaseHeld;
    assert CheckTSWrap(r.audio, LongPacket(id + 1, ts, start).packet) == r.audio;
  }

  /** The first packet of a session begins at the offset. */
  lemma LongFirst(r: Reader, id: nat, now: int)
    requires r.audio.last.None? && !r.done
    ensures var r' := Handle(r, LongPacket(id, 0, now));
            && r'.audio == LongHandler(id, r.audio.offsetUp, now, r.audio.lastDuration, r.audio.offsetUp) && !r'.done &&
              r'.clock == now
            && r'.interval == r.interval && r'.gaps == r.gaps && r'.emitted == r.emitted
  {
    hide CheckTSWrap, ReleaseHeld;
  }

  /** A second on, the two floors go back behind the held packet. */
  lemma LongFloor()
    ensures Floor(HELD_AT + SECOND, TOO_LONG) == HELD_AT - 1 > 0
  {
    var t := HELD_AT + SECOND;
    assert t == FACTOR * TOO_LONG + (TOO_LONG - 1);
    assert Quotient(t, TOO_LONG) == FACTOR;
  }

  lemma LongGap(r: Reader)
    requires r.audio == LongHandler(2, HELD_AT, 0, TOO_LONG, 0) && !r.done
    ensures var r' := Handle(r, Fail(true, SECOND));
            r'.audio == Handler(None, TOO_LONG, HELD_AT - 1, 0) && r'.clock == SECOND && r'.emitted == r.emitted &&
              !r'.done
  {
    hide Floor;
    LongFloor();
  }

  lemma LongStates()
    ensures IsRun(LONG_TRACE)
    ensures var emitted := Run(LONG_TRACE).emitted;
            |emitted| == 3 && (forall i :: 0 <= i < 3 ==> emitted[i].packet.kind == Audio) &&
            emitted[1].packet.ts == emitted[2].packet.ts
  {
    hide Handle, Run;
    var t := LONG_TRACE;
    assert t[..0] == [] && t[..6] == t;
    RunNone();
    LongFloor();
    RunPrefix(t, 0);
    LongFirst(START, 0, 0);
    RunPrefix(t, 1);
    LongNext(Run(t[..1]), 0, 0, 0, 0, 0, HELD_AT - 1);
    RunPrefix(t, 2);
    LongNext(Run(t[..2]), 1, HELD_AT - 1, 0, TOO_LONG, 0, HELD_AT);
    RunPrefix(t, 3);
    LongGap(Run(t[..3]));
    RunPrefix(t, 4);
    LongFirst(Run(t[..4]), 3, SECOND);
    RunPrefix(t, 5);
    LongNext(Run(t[..5]), 3, HELD_AT - 1, SECOND, TOO_LONG, HELD_AT - 1, 1);
  }

  lemma RunNone()
    ensures Run([]) == START
  {
  }

  /** Audio packets of 990_000_003 ns: two leave with the same timestamp. */
  lemma LongAudioGoesBack()
    ensures IsRun(LONG_TRACE) && AudioWithin(LONG_TRACE, TOO_LONG) && !Ascends(LONG_TRACE)
  {
    hide Run, Handle, IsRun;
    LongStates();
    var emitted := Run(LONG_TRACE).emitted;
    assert emitted == [emitted[0], emitted[1], emitted[2]];
    TrackAppend([], emitted[0], Audio);
    TrackAppend([emitted[0]], emitted[1], Audio);
    TrackAppend([emitted[0], emitted[1]], emitted[2], Audio);
    assert [] + [emitted[0]] == [emitted[0]] && [emitted[0]] + [emitted[1]] == [emitted[0], emitted[1]];
    assert [emitted[0], emitted[1]] + [emitted[2]] == emitted;
    var track := Track(emitted, Audio);
    assert track == emitted;
    assert track[1].packet.ts == track[2].packet.ts;
  }

  /** Main result: audio durations bounded by longest keep every run in order exactly when the bound is
      at most 990_000_002 ns. */
  lemma AscendsIff(longest: int)
    ensures (forall events :: IsRun(events) && AudioWithin(events, longest) ==> Ascends(events)) <==>
              longest <= LONGEST_AUDIO
  {
    hide Run, IsRun, Ascends;
    if longest <= LONGEST_AUDIO {
      forall events | IsRun(events) && AudioWithin(events, longest) ensures Ascends(events) { WithinAscends(events); }
    } else {
      LongAudioGoesBack();
      assert AudioWithin(LONG_TRACE, longest);
    }
  }

  lemma WithinAscends(events: seq<Event>)
    requires IsRun(events) && AudioWithin(events, LONGEST_AUDIO)
    ensures Ascends(events)
  {
    hide Run, IsRun;
    TimestampsIncrease(events);
  }
}
