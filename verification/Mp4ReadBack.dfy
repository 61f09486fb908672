/** format/mp4: what the demuxer reads from the finished file is what was handed to the muxer. */
module Mp4ReadBack {
  import opened Bytes
  import opened Nal
  import opened Mp4Tables
  import opened Mp4Muxer
  import opened Wrappers

  // ----- What is recorded, stream by stream -----

  /** The packets of stream s, in order. */
  function Of(ps: seq<Packet>, s: nat): seq<Packet> {
    if ps == [] then [] else
    var front, p := Of(ps[..|ps| - 1], s), ps[|ps| - 1];
    if p.stream == s then front + [p] else front
  }

  function EntriesOf(log: seq<Entry>, s: nat): seq<Entry> {
    if log == [] then [] else
    var front, e := EntriesOf(log[..|log| - 1], s), log[|log| - 1];
    if e.stream == s then front + [e] else front
  }

  /** All packets but the last, each with the gap to its successor. */
  function Spaced(qs: seq<Packet>, s: nat): seq<Entry> {
    if |qs| <= 1 then [] else
    var n := |qs|;
    Spaced(qs[..n - 1], s) + [Entry(s, qs[n - 2], qs[n - 1].ts - qs[n - 2].ts)]
  }

  function LastOf(qs: seq<Packet>): Option<Packet> {
    if qs == [] then None else Some(qs[|qs| - 1])
  }

  /** The last packet of a stream has no successor: its gap is taken to be 0. */
  function Recorded(qs: seq<Packet>, s: nat): seq<Entry> {
    if qs == [] then [] else Spaced(qs, s) + [Entry(s, qs[|qs| - 1], 0)]
  }

  function GapAfter(qs: seq<Packet>, i: nat): int
    requires i < |qs|
  {
    if i + 1 < |qs| then qs[i + 1].ts - qs[i].ts else 0
  }

  lemma {:induction false} SpacedAt(qs: seq<Packet>, s: nat)
    requires qs != []
    ensures |Spaced(qs, s)| == |qs| - 1
    ensures forall i :: 0 <= i < |qs| - 1 ==> Spaced(qs, s)[i] == Entry(s, qs[i], GapAfter(qs, i))
  {
    if |qs| > 1 {
      var front := qs[..|qs| - 1];
      SpacedAt(front, s);
      assert forall i :: 0 <= i < |front| - 1 ==> GapAfter(front, i) == GapAfter(qs, i);
    }
  }

  lemma RecordedAt(qs: seq<Packet>, s: nat)
    ensures |Recorded(qs, s)| == |qs|
    ensures forall i :: 0 <= i < |qs| ==> Recorded(qs, s)[i] == Entry(s, qs[i], GapAfter(qs, i))
  {
    if qs != [] { SpacedAt(qs, s); }
  }

  lemma EntriesAppend(log: seq<Entry>, e: Entry, s: nat)
    ensures EntriesOf(log + [e], s) == EntriesOf(log, s) + if e.stream == s then [e] else []
  {
    assert (log + [e])[..|log|] == log;
  }

  lemma SpacedAppend(qs: seq<Packet>, p: Packet, s: nat)
    ensures Spaced(qs + [p], s) ==
            match LastOf(qs) case None => [] case Some(q) => Spaced(qs, s) + [Entry(s, q, p.ts - q.ts)]
  {
    assert (qs + [p])[..|qs|] == qs;
  }

  /** After WritePacket on each of ps, stream s has recorded all its packets but the last, which
      it holds. */
  lemma {:induction false} CoreHolds(n: nat, ps: seq<Packet>, s: nat)
    requires s < n
    ensures var c := CoreRun(n, ps);
            EntriesOf(c.log, s) == Spaced(Of(ps, s), s) && c.held[s] == LastOf(Of(ps, s))
  {
    if ps != [] {
      var front, p := ps[..|ps| - 1], ps[|ps| - 1];
      CoreHolds(n, front, s);
      var c, qs := CoreRun(n, front), Of(front, s);
      assert CoreRun(n, ps) == CorePacket(c, p);
      SpacedAppend(qs, p, s);
      if p.stream < n && c.held[p.stream].Some? {
        var q := c.held[p.stream].value;
        EntriesAppend(c.log, Entry(p.stream, q, p.ts - q.ts), s);
      }
    }
  }

  lemma {:induction false} DrainRecords(c: Core, i: nat, s: nat)
    requires i <= |c.held| && s < |c.held|
    ensures EntriesOf(CoreDrain(c, i).log, s) ==
            EntriesOf(c.log, s) + if i <= s && c.held[s].Some? then [Entry(s, c.held[s].value, 0)] else []
    decreases |c.held| - i
  {
    if i < |c.held| {
      match c.held[i]
      case None => DrainRecords(c, i + 1, s);
      case Some(p) =>
        DrainRecords(Core(c.log + [Entry(i, p, 0)], c.held[i := None]), i + 1, s);
        EntriesAppend(c.log, Entry(i, p, 0), s);
    }
  }

  /** The finished file records every packet of every stream, once and in order, with the gap to
      its successor. */
  lemma StreamIsRecorded(videoTracks: seq<bool>, ps: seq<Packet>, s: nat)
    requires s < |videoTracks|
    ensures EntriesOf(FinalLog(videoTracks, ps), s) == Recorded(Of(ps, s), s)
  {
    CoreHolds(|videoTracks|, ps, s);
    DrainRecords(CoreRun(|videoTracks|, ps), 0, s);
  }

  /** What is recorded sits in its own stream's table, which exists. */
  ghost predicate Placed(log: seq<Entry>, n: nat) {
    forall k :: 0 <= k < |log| ==> log[k].stream == log[k].packet.stream < n
  }

  ghost predicate HeldPlaced(held: seq<Option<Packet>>) {
    forall i :: 0 <= i < |held| ==> held[i].Some? ==> held[i].value.stream == i
  }

  lemma {:induction false} RunPlaced(n: nat, ps: seq<Packet>)
    ensures Placed(CoreRun(n, ps).log, n) && HeldPlaced(CoreRun(n, ps).held)
  {
    if ps != [] { RunPlaced(n, ps[..|ps| - 1]); }
  }

  lemma {:induction false} DrainPlaced(c: Core, i: nat)
    requires i <= |c.held| && Placed(c.log, |c.held|) && HeldPlaced(c.held)
    ensures Placed(CoreDrain(c, i).log, |c.held|)
    decreases |c.held| - i
  {
    if i < |c.held| {
      match c.held[i]
      case None => DrainPlaced(c, i + 1);
      case Some(p) => DrainPlaced(Core(c.log + [Entry(i, p, 0)], c.held[i := None]), i + 1);
    }
  }

  lemma {:induction false} PacketsOfStream(log: seq<Entry>, n: nat, s: nat)
    requires Placed(log, n)
    ensures |Of(PacketsIn(log), s)| == |EntriesOf(log, s)|
    ensures forall i :: 0 <= i < |EntriesOf(log, s)| ==> Of(PacketsIn(log), s)[i] == EntriesOf(log, s)[i].packet
    ensures s >= n ==> Of(PacketsIn(log), s) == []
  {
    if log != [] {
      var front := log[..|log| - 1];
      PacketsOfStream(front, n, s);
      var packets := PacketsIn(log);
      assert packets[..|packets| - 1] == PacketsIn(front);
    }
  }

  /** Each accepted packet is in the file exactly once, in its stream's order; a packet for a
      stream that does not exist is not. With FileIsAFunctionOfPackets these are also exactly the
      packets released. */
  lemma AcceptedIsRecorded(videoTracks: seq<bool>, ps: seq<Packet>, s: nat)
    ensures Of(PacketsIn(FinalLog(videoTracks, ps)), s) == if s < |videoTracks| then Of(ps, s) else []
  {
    var n := |videoTracks|;
    RunPlaced(n, ps);
    DrainPlaced(CoreRun(n, ps), 0);
    PacketsOfStream(FinalLog(videoTracks, ps), n, s);
    if s < n {
      StreamIsRecorded(videoTracks, ps, s);
      RecordedAt(Of(ps, s), s);
    }
  }

  // ----- Where it is recorded -----

  /** The i-th sample of stream s describes its i-th entry and says where its bytes are. */
  lemma {:induction false} SampleIs(log: seq<Entry>, s: nat, i: nat)
    ensures |SamplesOf(log, s)| == |EntriesOf(log, s)|
    ensures i < |EntriesOf(log, s)| ==>
              var e, x := EntriesOf(log, s)[i], SamplesOf(log, s)[i];
              && x == SampleFor(e.packet, e.gap, x.offset)
              && HEADER_SIZE <= x.offset && x.offset + x.size <= EndOf(log)
              && Payload(PacketsIn(log))[x.offset - HEADER_SIZE..x.offset - HEADER_SIZE + x.size] == Encode(e.packet)
  {
    hide Encode, Payload, ToTicks, ClampGap;
    if log != [] {
      var front, e := log[..|log| - 1], log[|log| - 1];
      SampleIs(front, s, i);
      PayloadSnoc(PacketsIn(front), e.packet);
      assert PacketsIn(log) == PacketsIn(front) + [e.packet];
    }
  }

  ghost predicate Covers(log: seq<Entry>, s: nat, i: nat, x: nat) {
    i < |SamplesOf(log, s)| && SamplesOf(log, s)[i].offset <= x < SamplesOf(log, s)[i].offset +
      SamplesOf(log, s)[i].size
  }

  lemma EndAppend(front: seq<Entry>, e: Entry, s: nat)
    ensures var log := front + [e];
            EndOf(log) == EndOf(front) + |Encode(e.packet)| &&
            SamplesOf(log, s) == SamplesOf(front, s) + if e.stream == s then [SampleFor(e.packet, e.gap, EndOf(front))]
              else []
  {
    hide Encode, SampleFor;
    PacketsInAppend(front, e);
    assert (front + [e])[..|front|] == front;
  }

  /** The recorded chunks tile the media data: every byte between the header and the write
      position belongs to exactly one sample of one stream. */
  lemma {:induction false} ChunksTile(log: seq<Entry>, x: nat) returns (s: nat, i: nat)
    requires HEADER_SIZE <= x < EndOf(log)
    ensures Covers(log, s, i, x)
    ensures forall t, j :: Covers(log, t, j, x) ==> t == s && j == i
  {
    hide Encode;
    var front, e := log[..|log| - 1], log[|log| - 1];
    assert front + [e] == log;
    forall t | 0 <= t
      ensures EndOf(log) == EndOf(front) + |Encode(e.packet)|
      ensures SamplesOf(log, t) == SamplesOf(front, t) + if e.stream == t
                then [SampleFor(e.packet, e.gap, EndOf(front))] else []
    {
      EndAppend(front, e, t);
    }
    EndAppend(front, e, 0);
    if x >= EndOf(front) {
      s, i := e.stream, |SamplesOf(front, e.stream)|;
      forall t, j | 0 <= t && 0 <= j < |SamplesOf(front, t)|
        ensures !Covers(front, t, j, x)
      {
        SampleIs(front, t, j);
      }
      assert forall t: nat, j: nat :: Covers(log, t, j, x) && j < |SamplesOf(front, t)| ==> Covers(front, t, j, x);
    } else {
      s, i := ChunksTile(front, x);
      assert forall t: nat, j: nat :: Covers(log, t, j, x) ==> Covers(front, t, j, x);
    }
  }

  // ----- What the demuxer reads -----

  function Gaps(qs: seq<Packet>): seq<int> {
    seq(|qs|, i requires 0 <= i < |qs| => GapAfter(qs, i))
  }

  lemma TicksAre(log: seq<Entry>, s: nat, qs: seq<Packet>)
    requires EntriesOf(log, s) == Recorded(qs, s)
    ensures Ticks(SamplesOf(log, s)) == TicksOf(Gaps(qs)) && |SamplesOf(log, s)| == |qs|
  {
    hide Encode, ToTicks, ClampGap, EntriesOf, Recorded, SamplesOf;
    RecordedAt(qs, s);
    forall i | 0 <= i < |qs|
      ensures |SamplesOf(log, s)| == |qs| && SamplesOf(log, s)[i].ticks == ToTicks(ClampGap(GapAfter(qs, i)))
    {
      SampleIs(log, s, i);
    }
    SampleIs(log, s, 0);
  }

  /** The bytes of a sample stand in the finished file where its table says. */
  lemma SliceOfFile(log: seq<Entry>, videoTracks: seq<bool>, start: FileStart, moov: seq<Track> -> seq<byte>, from: nat,
                    to: nat)
    requires HEADER_SIZE <= from <= to <= EndOf(log)
    ensures |FileOf(log, videoTracks, start, moov)| >= to
    ensures FileOf(log, videoTracks, start, moov)[from..to] ==
              Payload(PacketsIn(log))[from - HEADER_SIZE..to - HEADER_SIZE]
  {
    hide Payload, TracksOf, Header;
  }

  /** The tables the demuxer finds for stream s of the finished file. */
  function FoundTables(videoTracks: seq<bool>, ps: seq<Packet>, s: nat): Tables
    requires s < |videoTracks|
  {
    Probe(TrackOf(FinalLog(videoTracks, ps), s, videoTracks[s]).tables)
  }

  /** Main result: walking the tables of stream s visits exactly the packets handed over for it;
      at the i-th the bytes of the file are that packet's, with the parameter sets in front, the
      keyframe flag is its own and the decoding time is the sum of the clamped gaps before it. */
  lemma FileReadsBack(videoTracks: seq<bool>, ps: seq<Packet>, start: FileStart, moov: seq<Track> -> seq<byte>, s: nat,
                      i: nat)
    requires s < |videoTracks|
    ensures var qs, t := Of(ps, s), FoundTables(videoTracks, ps, s);
            var file := FileOf(FinalLog(videoTracks, ps), videoTracks, start, moov);
            && !IsSampleValid(t, CursorAfter(t, |qs|))
            && (i < |qs| ==>
                  var c := CursorAfter(t, i);
                  && IsSampleValid(t, c)
                  && OffsetOf(t, c) + SizeOf(t, c) <= |file|
                  && file[OffsetOf(t, c)..OffsetOf(t, c) + SizeOf(t, c)] == Encode(qs[i])
                  && (IsKey(t, c) <==> IsVideo(qs[i]) && qs[i].key)
                  && c.dts == Sum(TicksOf(Gaps(qs))[..i]))
  {
    hide Encode, EntriesOf, Recorded, SamplesOf, FinalLog, FileOf, ToTicks, ClampGap, Of, Gaps, TicksOf, Payload,
         IsSampleValid, CursorAfter, OffsetOf, SizeOf, IsKey, Sum, Ticks;
    var log, qs := FinalLog(videoTracks, ps), Of(ps, s);
    var samples := SamplesOf(log, s);
    StreamIsRecorded(videoTracks, ps, s);
    TicksAre(log, s, qs);
    WalkReadsWhatWasMuxed(samples, i);
    if i < |qs| {
      RecordedAt(qs, s);
      SampleIs(log, s, i);
      SliceOfFile(log, videoTracks, start, moov, samples[i].offset, samples[i].offset + samples[i].size);
    }
  }

  // ----- From bytes to packets -----

  /** A coded slice (types 1 to 5 of H.264). */
  predicate IsSlice(nalu: Nalu) {
    nalu != [] && 1 <= nalu[0] % 32 <= 5
  }

  function LastSlice(nalus: seq<Nalu>): Option<Nalu> {
    if nalus == [] then None
    else if IsSlice(nalus[|nalus| - 1]) then Some(nalus[|nalus| - 1])
    else LastSlice(nalus[..|nalus| - 1])
  }

  /** The data of the packet readPacket makes from the bytes of a sample: all of them, except that
      of an H.264 sample only the last slice is kept. H.265 samples are cut in Mp4Packets. */
  function DataRead(params: Params, sample: seq<byte>): Option<seq<byte>>
    requires !params.H265?
  {
    match params
    case H264(_, _) =>
      (match LastSlice(Split(sample).0)
       case None => None
       case Some(nalu) => Some(Prefixed(nalu)))
    case _ => Some(sample)
  }

  lemma PlainReadsBack(p: Packet)
    requires p.params.Aac? || p.params.Mjpeg?
    ensures DataRead(p.params, Encode(p)) == Some(p.data)
  {
    assert Join([]) + p.data == p.data;
  }

  lemma {:induction false} DenseAppend(a: seq<Nalu>, b: seq<Nalu>)
    ensures Dense(a + b) == Dense(a) + Dense(b)
  {
    if a == [] {
      assert a + b == b;
    } else {
      DenseAppend(a[1..], b);
      assert (a + b)[1..] == a[1..] + b && (a + b)[0] == a[0];
    }
  }

  lemma {:induction false} LastSliceSkips(a: seq<Nalu>, b: seq<Nalu>)
    requires forall k :: 0 <= k < |a| ==> !IsSlice(a[k])
    ensures LastSlice(a + b) == LastSlice(b)
    decreases |a| + |b|
  {
    var all := a + b;
    if b != [] {
      assert all[..|all| - 1] == a + b[..|b| - 1];
      LastSliceSkips(a, b[..|b| - 1]);
    } else if a != [] {
      assert all == a && a[..|a| - 1] + b == a[..|a| - 1];
      LastSliceSkips(a[..|a| - 1], b);
    }
  }

  /** An H.264 packet is a non-empty list of non-empty units behind their lengths; its parameter
      sets are not slices. */
  ghost predicate IsAccessUnit(p: Packet, nalus: seq<Nalu>) {
    && p.params.H264? && p.data == Join(nalus) && nalus != [] && Countable(nalus)
    && (forall k :: 0 <= k < |nalus| ==> nalus[k] != [])
    && Countable([p.params.sps, p.params.pps]) && !IsSlice(p.params.sps) && !IsSlice(p.params.pps)
  }

  /** The parameter sets in front of a keyframe do not disturb the reading: the last slice of the
      packet itself is found. */
  lemma SliceIsFound(p: Packet, nalus: seq<Nalu>)
    requires IsAccessUnit(p, nalus)
    ensures LastSlice(Split(Encode(p)).0) == LastSlice(nalus)
  {
    hide Split, Join, Dense;
    var sets := Extras(p);
    JoinAppend(sets, nalus);
    SplitJoin(sets + nalus);
    DenseAppend(sets, nalus);
    DenseSame(nalus);
    NoSliceInSets(sets);
    LastSliceSkips(Dense(sets), nalus);
  }

  lemma {:induction false} NoSliceInSets(sets: seq<Nalu>)
    requires forall k :: 0 <= k < |sets| ==> !IsSlice(sets[k])
    ensures forall k :: 0 <= k < |Dense(sets)| ==> !IsSlice(Dense(sets)[k])
  {
    if sets != [] { NoSliceInSets(sets[1..]); }
  }

  lemma {:induction false} LastSliceIsOne(nalus: seq<Nalu>)
    ensures LastSlice(nalus).Some? ==> LastSlice(nalus).value in nalus && IsSlice(LastSlice(nalus).value)
    ensures LastSlice(nalus).None? ==> forall k :: 0 <= k < |nalus| ==> !IsSlice(nalus[k])
  {
    if nalus != [] { LastSliceIsOne(nalus[..|nalus| - 1]); }
  }

  /** The data of an H.264 packet reads back exactly when it is a single slice; of several units
      the last slice alone comes back. */
  lemma SingleSliceReadsBack(p: Packet, nalus: seq<Nalu>)
    requires IsAccessUnit(p, nalus)
    ensures DataRead(p.params, Encode(p)) == Some(p.data) <==> |nalus| == 1 && IsSlice(nalus[0])
  {
    hide Encode, Split, Join, Countable;
    SliceIsFound(p, nalus);
    LastSliceIsOne(nalus);
    if |nalus| == 1 {
      assert nalus == [nalus[0]];
      JoinOne(nalus[0]);
    } else if LastSlice(nalus).Some? {
      var nalu := LastSlice(nalus).value;
      JoinOne(nalu);
      OneIsNotMany(nalu, nalus);
    }
  }

  lemma OneIsNotMany(nalu: Nalu, nalus: seq<Nalu>)
    requires Countable(nalus) && nalus != [] && nalu in nalus && |nalus| != 1
    requires forall k :: 0 <= k < |nalus| ==> nalus[k] != []
    ensures Join([nalu]) != Join(nalus)
  {
    hide Join, Dense, Split;
    SplitJoin(nalus);
    SplitJoin([nalu]);
    DenseSame(nalus);
    DenseSame([nalu]);
  }
}
