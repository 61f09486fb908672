/** format/mp4/muxer.go as functions on values: what WritePacket, Flush and WriteTrailer do to the
    queue, the sample tables and the bytes behind the writer, in both I/O modes. */
module Mp4Muxer {
  import opened Bytes
  import opened Nal
  import opened Mp4Tables
  import opened Wrappers

  /** Codec parameters as far as the file depends on them packet by packet. */
  datatype Params = H264(sps: seq<byte>, pps: seq<byte>) | H265(vps: seq<byte>, hsps: seq<byte>, hpps: seq<byte>)
    | Mjpeg | Aac

  datatype Packet = Packet(id: nat, stream: nat, ts: int, data: seq<byte>, key: bool, params: Params)

  predicate IsVideo(p: Packet) {
    !p.params.Aac?
  }

  /** The parameter sets stored in front of a packet. */
  function Extras(p: Packet): seq<seq<byte>> {
    if !(IsVideo(p) && p.key) then [] else
    match p.params
    case H264(sps, pps) => [sps, pps]
    case H265(vps, sps, pps) => [vps, sps, pps]
    case _ => []
  }

  /** The bytes a packet occupies in the file. */
  function Encode(p: Packet): seq<byte> {
    Join(Extras(p)) + p.data
  }

  function Payload(ps: seq<Packet>): seq<byte> {
    if ps == [] then [] else Payload(ps[..|ps| - 1]) + Encode(ps[|ps| - 1])
  }

  lemma PayloadNone()
    ensures Payload([]) == []
  {
  }

  lemma PayloadSnoc(ps: seq<Packet>, p: Packet)
    ensures Payload(ps + [p]) == Payload(ps) + Encode(p)
  {
    hide Encode;
    var all := ps + [p];
    assert all[..|all| - 1] == ps;
  }

  lemma {:induction false} PayloadAppend(a: seq<Packet>, b: seq<Packet>)
    ensures Payload(a + b) == Payload(a) + Payload(b)
  {
    hide Encode;
    if b == [] {
      assert a + b == a;
    } else {
      var front, last := b[..|b| - 1], b[|b| - 1];
      PayloadAppend(a, front);
      PayloadSnoc(a + front, last);
      PayloadSnoc(front, last);
      assert front + [last] == b && a + b == (a + front) + [last];
      assert Payload(a) + Payload(front) + Encode(last) == Payload(a) + (Payload(front) + Encode(last));
    }
  }

  // ----- The writer -----

  /** An io.WriteSeeker: the bytes so far and the position of the next write. */
  datatype File = File(bytes: seq<byte>, pos: nat)

  /** A write past the end leaves zero bytes in between. */
  function Write(f: File, b: seq<byte>): File {
    var base := if f.pos <= |f.bytes| then f.bytes else f.bytes + seq(f.pos - |f.bytes|, _ => 0);
    var end := f.pos + |b|;
    File(base[..f.pos] + b + (if end < |base| then base[end..] else []), end)
  }

  function Seek(f: File, pos: nat): File {
    f.(pos := pos)
  }

  lemma WriteTwice(f: File, a: seq<byte>, b: seq<byte>)
    ensures Write(Write(f, a), b) == Write(f, a + b)
  {
    assert Write(Write(f, a), b).bytes == Write(f, a + b).bytes;
  }

  lemma WriteAtEnd(f: File, b: seq<byte>)
    requires f.pos == |f.bytes|
    ensures Write(f, b) == File(f.bytes + b, |f.bytes + b|)
  {
    assert f.bytes[..f.pos] == f.bytes;
  }

  // ----- The muxer -----

  const HEADER_SIZE: nat := 56
  const MDAT_SIZE_OFFSET: nat := 48
  const MDAT: nat := 0x6d646174

  /** The 40 bytes of the file-type and free boxes are the same in every file. */
  type FileStart = s: seq<byte> | |s| == 40 witness seq(40, _ => 0)

  function Header(start: FileStart, mdatSize: nat): (h: seq<byte>)
    ensures |h| == HEADER_SIZE
  {
    start + U32(1) + U32(MDAT) + U64(mdatSize)
  }

  /** What the movie box says about one stream, its packets aside; video is its kind of media. */
  datatype Track = Track(video: bool, tables: Tables, sampleIndex: nat, duration: nat)

  datatype Stream = Stream(track: Track, last: Option<Packet>)

  datatype Mux = Mux(
    streams: seq<Stream>, pending: seq<Packet>, pendingSize: nat, writePosition: nat,
    flushed: bool, file: File, released: seq<Packet>)

  /** Mux(streams): one stream per codec, empty queue, no I/O yet. */
  function Init(videoTracks: seq<bool>): Mux {
    Mux(seq(|videoTracks|, i requires 0 <= i < |videoTracks| => Stream(Track(videoTracks[i], NewTables(), 0, 0), None)),
        [], 0, HEADER_SIZE, false, File([], 0), [])
  }

  function SampleFor(p: Packet, gap: int, position: nat): Sample {
    Sample(position, |Encode(p)|, IsVideo(p) && p.key, ToTicks(ClampGap(gap)))
  }

  function AddToTrack(t: Track, s: Sample): Track {
    Track(t.video, AddSample(t.tables, t.sampleIndex, s), t.sampleIndex + 1, t.duration + s.ticks)
  }

  /** writePacket of stream s for its held packet p, the next one coming gap later; next becomes
      the held packet. */
  function Record(m: Mux, s: nat, p: Packet, gap: int, next: Option<Packet>): Mux
    requires s < |m.streams|
  {
    m.(streams := m.streams[s := Stream(AddToTrack(m.streams[s].track, SampleFor(p, gap, m.writePosition)), next)],
       pending := m.pending + [p],
       pendingSize := m.pendingSize + |Encode(p)|,
       writePosition := m.writePosition + |Encode(p)|)
  }

  /** A packet for a stream that does not exist is refused and nothing changes. */
  function WritePacket(m: Mux, p: Packet): Mux {
    if p.stream >= |m.streams| then m
    else match m.streams[p.stream].last
      case None => m.(streams := m.streams[p.stream := m.streams[p.stream].(last := Some(p))])
      case Some(q) => Record(m, p.stream, q, p.ts - q.ts, Some(p))
  }

  /** Flush, direct or batched. Batched, it does nothing when there are no bytes to write, even if
      packets without bytes are queued. */
  function Flush(m: Mux, start: FileStart, batched: bool): Mux
  {
    if m.pending == [] && m.flushed then m
    else if batched && m.flushed && m.pendingSize == 0 then m
    else
      var hdr := if m.flushed then [] else Header(start, 0);
      m.(file := Write(m.file, hdr + Payload(m.pending)), flushed := true,
         pending := [], pendingSize := 0, released := m.released + m.pending)
  }

  /** The held packets join the queue, stream by stream. */
  function Drain(m: Mux, s: nat): (d: Mux)
    requires s <= |m.streams|
    ensures d.writePosition >= m.writePosition && |d.streams| == |m.streams|
    decreases |m.streams| - s
  {
    if s == |m.streams| then m
    else match m.streams[s].last
      case None => Drain(m, s + 1)
      case Some(p) => Drain(Record(m, s, p, 0, None), s + 1)
  }

  function Tracks(streams: seq<Stream>): seq<Track> {
    seq(|streams|, i requires 0 <= i < |streams| => streams[i].track)
  }

  /** releasePending: whatever is still queued or held is released unwritten. */
  function ReleasePending(m: Mux): Mux {
    var held := Held(m.streams);
    m.(pending := [], pendingSize := 0, released := m.released + m.pending + held,
       streams := seq(|m.streams|, i requires 0 <= i < |m.streams| => m.streams[i].(last := None)))
  }

  function Held(streams: seq<Stream>): seq<Packet> {
    if streams == [] then [] else
    Held(streams[..|streams| - 1]) + (match streams[|streams| - 1].last case None => [] case Some(p) => [p])
  }

  /** moov serializes the tracks. */
  function WriteTrailer(m: Mux, start: FileStart, batched: bool, moov: seq<Track> -> seq<byte>): Mux
    requires m.writePosition >= HEADER_SIZE
  {
    var d := Drain(m, 0);
    var mdatSize := d.writePosition - 40;
    var trailer := moov(Tracks(d.streams));
    var written :=
      if !d.flushed then
        d.(file := Write(d.file, Header(start, mdatSize) + Payload(d.pending) + trailer),
           pending := [], pendingSize := 0, released := d.released + d.pending)
      else
        var f := Flush(d, start, batched);
        var patched := Write(Seek(f.file, MDAT_SIZE_OFFSET), U64(mdatSize));
        f.(file := Write(Seek(patched, f.writePosition), trailer));
    ReleasePending(written)
  }

  // ----- The specification: the file is a function of the packets -----

  /** One recorded packet: the stream whose table has it, and the gap to the packet after it. */
  datatype Entry = Entry(stream: nat, packet: Packet, gap: int)

  function PacketsIn(log: seq<Entry>): seq<Packet> {
    if log == [] then [] else PacketsIn(log[..|log| - 1]) + [log[|log| - 1].packet]
  }

  /** Where the next recorded packet goes. */
  function EndOf(log: seq<Entry>): nat {
    HEADER_SIZE + |Payload(PacketsIn(log))|
  }

  /** The samples of stream s among the recorded packets. */
  function SamplesOf(log: seq<Entry>, s: nat): seq<Sample> {
    if log == [] then [] else
    var front, e := log[..|log| - 1], log[|log| - 1];
    if e.stream == s then SamplesOf(front, s) + [SampleFor(e.packet, e.gap, EndOf(front))] else SamplesOf(front, s)
  }

  function TrackOf(log: seq<Entry>, s: nat, video: bool): Track {
    var samples := SamplesOf(log, s);
    Track(video, Build(samples), |samples|, Sum(Ticks(samples)))
  }

  function TracksOf(log: seq<Entry>, videoTracks: seq<bool>): seq<Track> {
    seq(|videoTracks|, s requires 0 <= s < |videoTracks| => TrackOf(log, s, videoTracks[s]))
  }

  /** The recorded packets and the held ones after the given calls of WritePacket; which packets
      the muxer has taken does not depend on when Flush was called. */
  datatype Core = Core(log: seq<Entry>, held: seq<Option<Packet>>)

  function CoreInit(n: nat): Core {
    Core([], seq(n, _ => None))
  }

  function CorePacket(c: Core, p: Packet): Core {
    if p.stream >= |c.held| then c
    else match c.held[p.stream]
      case None => c.(held := c.held[p.stream := Some(p)])
      case Some(q) => Core(c.log + [Entry(p.stream, q, p.ts - q.ts)], c.held[p.stream := Some(p)])
  }

  function CoreDrain(c: Core, s: nat): Core
    requires s <= |c.held|
    decreases |c.held| - s
  {
    if s == |c.held| then c
    else match c.held[s]
      case None => CoreDrain(c, s + 1)
      case Some(p) => CoreDrain(Core(c.log + [Entry(s, p, 0)], c.held[s := None]), s + 1)
  }

  function CoreRun(n: nat, ps: seq<Packet>): (c: Core)
    ensures |c.held| == n
  {
    if ps == [] then CoreInit(n) else
    var c := CoreRun(n, ps[..|ps| - 1]);
    CorePacket(c, ps[|ps| - 1])
  }

  /** Everything recorded once the trailer has been written. */
  function FinalLog(videoTracks: seq<bool>, ps: seq<Packet>): seq<Entry> {
    CoreDrain(CoreRun(|videoTracks|, ps), 0).log
  }

  function FileOf(log: seq<Entry>, videoTracks: seq<bool>, start: FileStart, moov: seq<Track> -> seq<byte>): seq<byte> {
    Header(start, EndOf(log) - 40) + Payload(PacketsIn(log)) + moov(TracksOf(log, videoTracks))
  }

  // ----- Every schedule keeps to the specification -----

  datatype Command = Take(packet: Packet) | FlushNow

  function Step(m: Mux, cmd: Command, start: FileStart, batched: bool): Mux {
    match cmd
    case Take(p) => WritePacket(m, p)
    case FlushNow => Flush(m, start, batched)
  }

  function RunAll(m: Mux, cmds: seq<Command>, start: FileStart, batched: bool): Mux {
    if cmds == [] then m else Step(RunAll(m, cmds[..|cmds| - 1], start, batched), cmds[|cmds| - 1], start, batched)
  }

  function PacketsOf(cmds: seq<Command>): seq<Packet> {
    if cmds == [] then [] else
    PacketsOf(cmds[..|cmds| - 1]) + (match cmds[|cmds| - 1] case Take(p) => [p] case FlushNow => [])
  }

  /** The muxer has recorded log: its tables are those of the log, what it wrote followed by what
      it queued is the log's packets in order, what it wrote it released, and the file holds
      exactly the header and what it wrote. */
  ghost predicate Keeps(m: Mux, log: seq<Entry>, videoTracks: seq<bool>, start: FileStart) {
    TracksKept(m.streams, log, videoTracks) && QueueKept(m, log) && BytesKept(m, start)
  }

  ghost predicate TracksKept(streams: seq<Stream>, log: seq<Entry>, videoTracks: seq<bool>) {
    var kept := |streams| == |videoTracks| &&
      forall s :: 0 <= s < |streams| ==> streams[s].track == TrackOf(log, s, videoTracks[s]);
    kept
  }

  ghost predicate QueueKept(m: Mux, log: seq<Entry>) {
    var kept := m.released + m.pending == PacketsIn(log);
    kept && m.pendingSize == |Payload(m.pending)| && m.writePosition == EndOf(log)
  }

  ghost predicate BytesKept(m: Mux, start: FileStart) {
    var bytes := if m.flushed then Header(start, 0) + Payload(m.released) else [];
    m.file == File(bytes, |bytes|) && (!m.flushed ==> m.released == [])
  }

  ghost predicate Holds(m: Mux, held: seq<Option<Packet>>) {
    var same := |m.streams| == |held| && forall s :: 0 <= s < |held| ==> m.streams[s].last == held[s];
    same
  }

  lemma PacketsInAppend(log: seq<Entry>, e: Entry)
    ensures PacketsIn(log + [e]) == PacketsIn(log) + [e.packet]
    ensures EndOf(log + [e]) == EndOf(log) + |Encode(e.packet)|
  {
    assert (log + [e])[..|log + [e]| - 1] == log;
    PayloadSnoc(PacketsIn(log), e.packet);
  }

  lemma TrackAppend(log: seq<Entry>, e: Entry, s: nat, video: bool)
    ensures TrackOf(log + [e], s, video) ==
            if e.stream == s then AddToTrack(TrackOf(log, s, video), SampleFor(e.packet, e.gap, EndOf(log)))
              else TrackOf(log, s, video)
  {
    hide SampleFor, AddSample, Encode, ToTicks, ClampGap, EndOf;
    var log' := log + [e];
    assert log'[..|log'| - 1] == log;
    if e.stream == s {
      var samples, x := SamplesOf(log, s), SampleFor(e.packet, e.gap, EndOf(log));
      var samples' := samples + [x];
      assert samples'[..|samples'| - 1] == samples;
      assert Ticks(samples') == Ticks(samples) + [x.ticks];
      assert Ticks(samples')[..|samples|] == Ticks(samples);
    }
  }

  lemma RecordKeepsTracks(streams: seq<Stream>, log: seq<Entry>, videoTracks: seq<bool>, s: nat, p: Packet, gap: int,
                          next: Option<Packet>)
    requires TracksKept(streams, log, videoTracks) && s < |streams|
    ensures TracksKept(streams[s := Stream(AddToTrack(streams[s].track, SampleFor(p, gap, EndOf(log))), next)],
                       log + [Entry(s, p, gap)], videoTracks)
  {
    hide Encode, SampleFor, TrackOf, AddToTrack;
    forall i | 0 <= i < |streams|
      ensures TrackOf(log + [Entry(s, p, gap)], i, videoTracks[i]) ==
              if i == s then AddToTrack(streams[s].track, SampleFor(p, gap, EndOf(log))) else streams[i].track
    {
      TrackAppend(log, Entry(s, p, gap), i, videoTracks[i]);
    }
  }

  lemma RecordKeepsQueue(m: Mux, log: seq<Entry>, s: nat, p: Packet, gap: int, next: Option<Packet>)
    requires QueueKept(m, log) && s < |m.streams|
    ensures QueueKept(Record(m, s, p, gap, next), log + [Entry(s, p, gap)])
  {
    hide Encode, Payload, PacketsIn, SampleFor, AddToTrack;
    PacketsInAppend(log, Entry(s, p, gap));
    PayloadSnoc(m.pending, p);
    assert m.released + (m.pending + [p]) == (m.released + m.pending) + [p];
  }

  lemma RecordKeeps(m: Mux, log: seq<Entry>, videoTracks: seq<bool>, start: FileStart, s: nat, p: Packet, gap: int,
                    next: Option<Packet>)
    requires Keeps(m, log, videoTracks, start) && s < |m.streams|
    ensures Keeps(Record(m, s, p, gap, next), log + [Entry(s, p, gap)], videoTracks, start)
  {
    hide Encode, SampleFor, TrackOf, AddToTrack;
    RecordKeepsTracks(m.streams, log, videoTracks, s, p, gap, next);
    RecordKeepsQueue(m, log, s, p, gap, next);
  }

  /** Flush moves queued packets to the file and to the released ones; what was recorded, the
      tables and the held packets stay. */
  lemma FlushKeeps(m: Mux, log: seq<Entry>, videoTracks: seq<bool>, start: FileStart, batched: bool)
    requires Keeps(m, log, videoTracks, start)
    ensures Keeps(Flush(m, start, batched), log, videoTracks, start)
    ensures Flush(m, start, batched).streams == m.streams
  {
    hide Encode, Header, TrackOf, PacketsIn;
    PayloadNone();
    var m' := Flush(m, start, batched);
    if m' != m {
      var hdr := if m.flushed then [] else Header(start, 0);
      WriteAtEnd(m.file, hdr + Payload(m.pending));
      PayloadAppend(m.released, m.pending);
      assert m.released + m.pending + [] == m.released + m.pending;
      if m.flushed {
        assert m.file.bytes + (hdr + Payload(m.pending)) ==
               Header(start, 0) + (Payload(m.released) + Payload(m.pending));
      } else {
        assert m.released + m.pending == m.pending;
        assert m.file.bytes + (hdr + Payload(m.pending)) == hdr + Payload(m.pending);
      }
    }
  }

  lemma InitKeeps(videoTracks: seq<bool>, start: FileStart)
    ensures Keeps(Init(videoTracks), [], videoTracks, start)
    ensures Holds(Init(videoTracks), CoreInit(|videoTracks|).held)
  {
    assert Ticks([]) == [];
  }

  lemma TakeKeeps(m: Mux, c: Core, videoTracks: seq<bool>, start: FileStart, p: Packet)
    requires Keeps(m, c.log, videoTracks, start) && Holds(m, c.held)
    ensures Keeps(WritePacket(m, p), CorePacket(c, p).log, videoTracks, start) &&
              Holds(WritePacket(m, p), CorePacket(c, p).held)
  {
    hide Encode, SampleFor, TrackOf, AddToTrack, Payload, PacketsIn;
    if p.stream < |m.streams| {
      match m.streams[p.stream].last
      case None =>
      case Some(q) => RecordKeeps(m, c.log, videoTracks, start, p.stream, q, p.ts - q.ts, Some(p));
    }
  }

  lemma {:induction false} DrainKeeps(m: Mux, c: Core, videoTracks: seq<bool>, start: FileStart, s: nat)
    requires Keeps(m, c.log, videoTracks, start) && Holds(m, c.held) && s <= |m.streams|
    ensures var d := Drain(m, s);
            Keeps(d, CoreDrain(c, s).log, videoTracks, start) && Holds(d, CoreDrain(c, s).held) &&
            d.flushed == m.flushed
    ensures forall i :: s <= i < |m.streams| ==> CoreDrain(c, s).held[i] == None
    ensures forall i :: 0 <= i < s ==> CoreDrain(c, s).held[i] == c.held[i]
    decreases |m.streams| - s
  {
    hide Encode, SampleFor, TrackOf, AddToTrack, Payload, PacketsIn;
    if s < |m.streams| {
      match m.streams[s].last
      case None => DrainKeeps(m, c, videoTracks, start, s + 1);
      case Some(p) =>
        RecordKeeps(m, c.log, videoTracks, start, s, p, 0, None);
        DrainKeeps(Record(m, s, p, 0, None), Core(c.log + [Entry(s, p, 0)], c.held[s := None]), videoTracks, start,
                   s + 1);
    }
  }

  lemma StepKeeps(m: Mux, c: Core, cmd: Command, videoTracks: seq<bool>, start: FileStart, batched: bool)
    requires Keeps(m, c.log, videoTracks, start) && Holds(m, c.held)
    ensures var c' := if cmd.Take? then CorePacket(c, cmd.packet) else c;
            Keeps(Step(m, cmd, start, batched), c'.log, videoTracks, start) &&
              Holds(Step(m, cmd, start, batched), c'.held)
  {
    hide Encode, SampleFor, TrackOf, AddToTrack, Payload, PacketsIn;
    match cmd
    case Take(p) => TakeKeeps(m, c, videoTracks, start, p);
    case FlushNow => FlushKeeps(m, c.log, videoTracks, start, batched);
  }

  /** Every schedule of packets and flushes leaves the muxer where the packets alone put it. */
  lemma {:induction false} RunKeeps(videoTracks: seq<bool>, cmds: seq<Command>, start: FileStart, batched: bool)
    ensures var c := CoreRun(|videoTracks|, PacketsOf(cmds));
            var m := RunAll(Init(videoTracks), cmds, start, batched);
            Keeps(m, c.log, videoTracks, start) && Holds(m, c.held)
  {
    hide Encode, SampleFor, TrackOf, AddToTrack, Payload, PacketsIn, Keeps, Holds, Step;
    if cmds == [] {
      InitKeeps(videoTracks, start);
    } else {
      var front, cmd := cmds[..|cmds| - 1], cmds[|cmds| - 1];
      RunKeeps(videoTracks, front, start, batched);
      StepKeeps(RunAll(Init(videoTracks), front, start, batched), CoreRun(|videoTracks|, PacketsOf(front)), cmd,
                videoTracks, start, batched);
      if cmd.Take? {
        assert PacketsOf(cmds)[..|PacketsOf(cmds)| - 1] == PacketsOf(front);
      } else {
        assert PacketsOf(cmds) == PacketsOf(front);
      }
    }
  }

  // ----- The finished file -----

  lemma PatchSize(start: FileStart, size: nat, body: seq<byte>, pos: nat)
    ensures Write(Seek(File(Header(start, 0) + body, pos), MDAT_SIZE_OFFSET), U64(size)).bytes ==
              Header(start, size) + body
  {
    hide U64, U32;
    var old' := Header(start, 0) + body;
    var front := start + U32(1) + U32(MDAT);
    assert Header(start, 0) == front + U64(0) && |front| == MDAT_SIZE_OFFSET;
    assert old'[..MDAT_SIZE_OFFSET] == front && old'[HEADER_SIZE..] == body;
    assert front + U64(size) + body == Header(start, size) + body;
  }

  /** After a flush the bytes of every recorded packet are in the file. */
  lemma FlushWritesAll(m: Mux, log: seq<Entry>, videoTracks: seq<bool>, start: FileStart, batched: bool)
    requires Keeps(m, log, videoTracks, start) && m.flushed
    ensures var f := Flush(m, start, batched);
            f.flushed && f.writePosition == m.writePosition && Payload(f.released) == Payload(PacketsIn(log))
  {
    hide Encode, Header, TrackOf;
    FlushKeeps(m, log, videoTracks, start, batched);
    var f := Flush(m, start, batched);
    PayloadAppend(f.released, f.pending);
    assert Payload(f.pending) == [];
  }

  lemma TrailerFile(d: Mux, log: seq<Entry>, videoTracks: seq<bool>, start: FileStart, batched: bool,
                    trailer: seq<byte>)
    requires Keeps(d, log, videoTracks, start) && d.flushed
    ensures var f := Flush(d, start, batched);
            var patched := Write(Seek(f.file, MDAT_SIZE_OFFSET), U64(EndOf(log) - 40));
            Write(Seek(patched, f.writePosition), trailer).bytes ==
              Header(start, EndOf(log) - 40) + Payload(PacketsIn(log)) + trailer
  {
    hide Encode, TrackOf, U64;
    var f := Flush(d, start, batched);
    FlushKeeps(d, log, videoTracks, start, batched);
    FlushWritesAll(d, log, videoTracks, start, batched);
    PatchSize(start, EndOf(log) - 40, Payload(f.released), f.file.pos);
    var patched := Write(Seek(f.file, MDAT_SIZE_OFFSET), U64(EndOf(log) - 40));
    assert |patched.bytes| == EndOf(log) == f.writePosition;
    WriteAtEnd(Seek(patched, f.writePosition), trailer);
  }

  lemma TracksAgree(m: Mux, log: seq<Entry>, videoTracks: seq<bool>)
    requires TracksKept(m.streams, log, videoTracks)
    ensures Tracks(m.streams) == TracksOf(log, videoTracks)
  {
    hide TrackOf;
  }

  lemma {:induction false} NoneHeld(streams: seq<Stream>)
    requires forall i :: 0 <= i < |streams| ==> streams[i].last == None
    ensures Held(streams) == []
  {
    if streams != [] { NoneHeld(streams[..|streams| - 1]); }
  }

  lemma TrailerFromKept(m: Mux, c: Core, videoTracks: seq<bool>, start: FileStart, batched: bool,
                        moov: seq<Track> -> seq<byte>)
    requires Keeps(m, c.log, videoTracks, start) && Holds(m, c.held)
    ensures var log := CoreDrain(c, 0).log;
            WriteTrailer(m, start, batched, moov).file.bytes == FileOf(log, videoTracks, start, moov) &&
            WriteTrailer(m, start, batched, moov).released == PacketsIn(log)
  {
    hide Encode, TrackOf, SampleFor, AddToTrack, U64, Header;
    var log := CoreDrain(c, 0).log;
    var d := Drain(m, 0);
    DrainKeeps(m, c, videoTracks, start, 0);
    TracksAgree(d, log, videoTracks);
    NoneHeld(d.streams);
    var trailer := moov(Tracks(d.streams));
    if d.flushed {
      TrailerFile(d, log, videoTracks, start, batched, trailer);
      FlushKeeps(d, log, videoTracks, start, batched);
      NoneHeld(Flush(d, start, batched).streams);
    } else {
      WriteAtEnd(d.file, Header(start, EndOf(log) - 40) + Payload(d.pending) + trailer);
      assert d.released + d.pending == d.pending;
    }
  }

  /** Main result: whatever the placement of Flush calls, batched or direct, and whether the
      trailer is written in one go or by seeking back, the finished file is one function of the
      packet sequence; and every recorded packet is released exactly once, in file order. */
  lemma FileIsAFunctionOfPackets(videoTracks: seq<bool>, cmds: seq<Command>, start: FileStart, batched: bool,
                                 moov: seq<Track> -> seq<byte>)
    ensures var m := RunAll(Init(videoTracks), cmds, start, batched);
            var log := FinalLog(videoTracks, PacketsOf(cmds));
            m.writePosition >= HEADER_SIZE &&
            WriteTrailer(m, start, batched, moov).file.bytes == FileOf(log, videoTracks, start, moov) &&
            WriteTrailer(m, start, batched, moov).released == PacketsIn(log)
  {
    RunKeeps(videoTracks, cmds, start, batched);
    var c := CoreRun(|videoTracks|, PacketsOf(cmds));
    TrailerFromKept(RunAll(Init(videoTracks), cmds, start, batched), c, videoTracks, start, batched, moov);
  }
}
