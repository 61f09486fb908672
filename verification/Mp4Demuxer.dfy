/** format/mp4/demuxer.go and the reading half of stream.go: streams walked by cursors, merged by
    decoding time. */
module Mp4Demuxer {
  import opened Bytes
  import Hevc
  import opened Mp4Tables
  import opened Mp4Muxer
  import opened Mp4Packets
  import opened Mp4ReadBack
  import opened Nal
  import opened Wrappers

  datatype Reading = Reading(tables: Tables, cursor: Cursor)

  datatype ReadResult = EndOfFile | ReadError | Found(stream: nat, out: Out)

  function TsToTime(dts: nat): nat {
    dts * SECOND / TIMESCALE
  }

  function Time(r: Reading): nat {
    TsToTime(r.cursor.dts)
  }

  predicate HasMore(r: Reading) {
    IsSampleValid(r.tables, r.cursor)
  }

  /** Among the first k streams: the first of those with the least time that have a sample left. */
  function Choose(rs: seq<Reading>, k: nat): (i: Option<nat>)
    requires k <= |rs|
    ensures i.None? ==> forall j :: 0 <= j < k ==> !HasMore(rs[j])
    ensures i.Some? ==> i.value < k && HasMore(rs[i.value])
    ensures i.Some? ==>
              forall j :: 0 <= j < k && HasMore(rs[j]) ==>
                Time(rs[i.value]) <= Time(rs[j]) && (j < i.value ==> Time(rs[i.value]) < Time(rs[j]))
  {
    if k == 0 then None
    else match Choose(rs, k - 1)
      case None => if HasMore(rs[k - 1]) then Some(k - 1) else None
      case Some(i) => if HasMore(rs[k - 1]) && Time(rs[k - 1]) < Time(rs[i]) then Some(k - 1) else Some(i)
  }

  function ReadNext(file: seq<byte>, rs: seq<Reading>): (seq<Reading>, ReadResult) {
    match Choose(rs, |rs|)
    case None => (rs, EndOfFile)
    case Some(i) =>
      var (t, c) := (rs[i].tables, rs[i].cursor);
      var from, size := OffsetOf(t, c), SizeOf(t, c);
      if from + size > |file| then (rs, ReadError) else
      (rs[i := Reading(t, Inc(t, c))], Found(i, Out(Time(rs[i]), file[from..from + size], IsKey(t, c))))
  }

  // ----- Packets -----

  datatype PacketResult = Exhausted | Failed | Panicked | Returned(pkt: Option<Pkt>)

  /** readPacket of one stream, at time tm. */
  function ReadPacketOf(file: seq<byte>, params: Params, r: Reading, sliced: Option<Pkt>, tm: nat)
    : (Reading, Option<Pkt>, PacketResult)
  {
    if !HasMore(r) then
      if sliced.Some? then (r, None, Returned(sliced)) else (r, None, Exhausted)
    else
      var (t, c) := (r.tables, r.cursor);
      var from, size := OffsetOf(t, c), SizeOf(t, c);
      if from + size > |file| then (r, sliced, Failed) else
      var out := Out(tm, file[from..from + size], IsKey(t, c));
      if Panics(params, out.bytes) then (r, sliced, Panicked) else
      var cut := CutSample(params, sliced, out);
      (Reading(t, Inc(t, c)), cut.sliced, Returned(cut.pkt))
  }

  /** ReadPacket of the demuxer: kinds are the streams' codecs, held their gathered pictures. A
      stream without samples left is not chosen, so the picture it holds stays where it is. */
  function NextPacket(file: seq<byte>, kinds: seq<Params>, rs: seq<Reading>, held: seq<Option<Pkt>>)
    : (seq<Reading>, seq<Option<Pkt>>, PacketResult)
    requires |kinds| == |rs| == |held|
  {
    match Choose(rs, |rs|)
    case None => (rs, held, Exhausted)
    case Some(i) =>
      var (r, sliced, answer) := ReadPacketOf(file, kinds[i], rs[i], held[i], Time(rs[i]));
      (rs[i := r], held[i := sliced], answer)
  }

  // ----- Reading a whole file -----

  /** The samples read by the first m calls, and the streams after them. */
  function Run(file: seq<byte>, ts: seq<Tables>, m: nat): (seq<Reading>, seq<(nat, Out)>) {
    if m == 0 then (seq(|ts|, i requires 0 <= i < |ts| => Reading(ts[i], START)), []) else
    var (rs, es) := Run(file, ts, m - 1);
    match ReadNext(file, rs)
    case (rs', Found(s, out)) => (rs', es + [(s, out)])
    case (rs', _) => (rs', es)
  }

  /** Table t, walked over the file, tells exactly outs. */
  ghost predicate Tells(file: seq<byte>, t: Tables, outs: seq<Out>) {
    !IsSampleValid(t, CursorAfter(t, |outs|)) &&
    forall i :: 0 <= i < |outs| ==> TellsAt(file, t, CursorAfter(t, i), outs[i])
  }

  ghost predicate TellsAt(file: seq<byte>, t: Tables, c: Cursor, out: Out) {
    IsSampleValid(t, c) && OffsetOf(t, c) + SizeOf(t, c) <= |file| &&
    out == Out(TsToTime(c.dts), file[OffsetOf(t, c)..OffsetOf(t, c) + SizeOf(t, c)], IsKey(t, c))
  }

  function Select<T>(es: seq<(nat, T)>, s: nat): seq<T> {
    if es == [] then [] else
    var front, e := Select(es[..|es| - 1], s), es[|es| - 1];
    if e.0 == s then front + [e.1] else front
  }

  /** After the calls that read es, each stream stands behind its own samples in es. */
  ghost predicate Merging(rs: seq<Reading>, es: seq<(nat, Out)>, ts: seq<Tables>, outs: seq<seq<Out>>) {
    |rs| == |ts| == |outs| &&
    forall s :: 0 <= s < |ts| ==>
      Select(es, s) <= outs[s] && rs[s] == Reading(ts[s], CursorAfter(ts[s], |Select(es, s)|))
  }

  ghost predicate Sorted(es: seq<(nat, Out)>, rs: seq<Reading>) {
    (forall a, b :: 0 <= a < b < |es| ==> es[a].1.time <= es[b].1.time) &&
    (es != [] ==> forall s :: 0 <= s < |rs| && HasMore(rs[s]) ==> es[|es| - 1].1.time <= Time(rs[s]))
  }

  ghost predicate AllTell(file: seq<byte>, ts: seq<Tables>, outs: seq<seq<Out>>) {
    |ts| == |outs| && forall s :: 0 <= s < |ts| ==> Tells(file, ts[s], outs[s])
  }

  lemma TimeGrows(t: Tables, c: Cursor)
    requires IsSampleValid(t, c)
    ensures TsToTime(c.dts) <= TsToTime(Inc(t, c).dts)
  {
    assert c.dts <= Inc(t, c).dts;
    assert c.dts * SECOND <= Inc(t, c).dts * SECOND;
  }

  lemma SelectAppend<T>(es: seq<(nat, T)>, s: nat, out: T, t: nat)
    ensures Select(es + [(s, out)], t) == Select(es, t) + if s == t then [out] else []
  {
    assert (es + [(s, out)])[..|es|] == es;
  }

  lemma TellsEnd(file: seq<byte>, t: Tables, outs: seq<Out>, k: nat)
    requires Tells(file, t, outs) && k <= |outs|
    ensures IsSampleValid(t, CursorAfter(t, k)) <==> k < |outs|
    ensures k < |outs| ==>
              TellsAt(file, t, CursorAfter(t, k), outs[k]) && CursorAfter(t, k + 1) == Inc(t, CursorAfter(t, k))
  {
    hide IsSampleValid, Inc, OffsetOf, SizeOf, IsKey, TsToTime;
    assert k < |outs| ==> TellsAt(file, t, CursorAfter(t, k), outs[k]);
  }

  lemma ChosenMerges(file: seq<byte>, rs: seq<Reading>, es: seq<(nat, Out)>, ts: seq<Tables>, outs: seq<seq<Out>>,
                     i: nat)
    requires AllTell(file, ts, outs) && Merging(rs, es, ts, outs) && i < |rs| && HasMore(rs[i])
    ensures var k, c := |Select(es, i)|, rs[i].cursor;
            k < |outs[i]| && TellsAt(file, ts[i], c, outs[i][k]) &&
            Merging(rs[i := Reading(ts[i], Inc(ts[i], c))], es + [(i, outs[i][k])], ts, outs)
  {
    hide IsSampleValid, Inc, Select, TellsAt, CursorAfter, Tells;
    TellsEnd(file, ts[i], outs[i], |Select(es, i)|);
    var out := outs[i][|Select(es, i)|];
    var rs' := rs[i := Reading(ts[i], Inc(ts[i], rs[i].cursor))];
    forall s | 0 <= s < |ts|
      ensures Select(es + [(i, out)], s) <= outs[s] &&
                rs'[s] == Reading(ts[s], CursorAfter(ts[s], |Select(es + [(i, out)], s)|))
    {
      SelectAppend(es, i, out, s);
    }
  }

  lemma ChosenSorts(rs: seq<Reading>, es: seq<(nat, Out)>, i: nat, out: Out)
    requires Sorted(es, rs) && i < |rs| && Choose(rs, |rs|) == Some(i) && out.time == Time(rs[i])
    ensures Sorted(es + [(i, out)], rs[i := Reading(rs[i].tables, Inc(rs[i].tables, rs[i].cursor))])
  {
    hide IsSampleValid, Inc, TsToTime;
    TimeGrows(rs[i].tables, rs[i].cursor);
  }

  /** One call reads the next sample of the chosen stream and leaves the others alone. */
  lemma ReadNextMerges(file: seq<byte>, rs: seq<Reading>, es: seq<(nat, Out)>, ts: seq<Tables>, outs: seq<seq<Out>>)
    requires AllTell(file, ts, outs) && Merging(rs, es, ts, outs) && Sorted(es, rs)
    ensures !ReadNext(file, rs).1.ReadError?
    ensures ReadNext(file, rs).1.EndOfFile? ==> ReadNext(file, rs).0 == rs && forall s ::
              0 <= s < |ts| ==> Select(es, s) == outs[s]
    ensures var (rs', r) := ReadNext(file, rs);
            r.Found? ==>
              && r.stream < |ts| && Select(es, r.stream) != outs[r.stream]
              && Merging(rs', es + [(r.stream, r.out)], ts, outs) && Sorted(es + [(r.stream, r.out)], rs')
  {
    hide IsSampleValid, Inc, OffsetOf, SizeOf, IsKey, TsToTime, Select, Merging, Sorted;
    match Choose(rs, |rs|)
    case None => NoneLeft(file, rs, es, ts, outs);
    case Some(i) =>
      ChosenMerges(file, rs, es, ts, outs, i);
      MergingAt(rs, es, ts, outs, i);
      ChosenSorts(rs, es, i, outs[i][|Select(es, i)|]);
  }

  lemma MergingAt(rs: seq<Reading>, es: seq<(nat, Out)>, ts: seq<Tables>, outs: seq<seq<Out>>, i: nat)
    requires Merging(rs, es, ts, outs) && i < |rs|
    ensures |rs| == |ts| == |outs| && rs[i].tables == ts[i]
  {
  }

  lemma NoneLeft(file: seq<byte>, rs: seq<Reading>, es: seq<(nat, Out)>, ts: seq<Tables>, outs: seq<seq<Out>>)
    requires AllTell(file, ts, outs) && Merging(rs, es, ts, outs) && Choose(rs, |rs|).None?
    ensures forall s :: 0 <= s < |ts| ==> Select(es, s) == outs[s]
  {
    forall s | 0 <= s < |ts| ensures Select(es, s) == outs[s] {
      assert !HasMore(rs[s]);
      TellsEnd(file, ts[s], outs[s], |Select(es, s)|);
    }
  }

  /** Main result: over any number of calls the demuxer reads every stream's samples in their own
      order, the streams merged by time, until all have been read; then it reports the end. */
  lemma {:induction false} RunMerges(file: seq<byte>, ts: seq<Tables>, outs: seq<seq<Out>>, m: nat)
    requires AllTell(file, ts, outs)
    ensures var (rs, es) := Run(file, ts, m);
            && (forall a, b :: 0 <= a < b < |es| ==> es[a].1.time <= es[b].1.time)
            && (forall s :: 0 <= s < |ts| ==> Select(es, s) <= outs[s])
            && (|es| < m ==> forall s :: 0 <= s < |ts| ==> Select(es, s) == outs[s])
            && Merging(rs, es, ts, outs) && Sorted(es, rs)
    ensures |Run(file, ts, m).1| <= m
  {
    hide Select, Tells, ReadNext;
    if m == 0 {
      assert forall s :: Select<Out>([], s) == [] by { SelectNone(); }
    } else {
      RunMerges(file, ts, outs, m - 1);
      var (rs, es) := Run(file, ts, m - 1);
      ReadNextMerges(file, rs, es, ts, outs);
    }
  }

  lemma SelectNone()
    ensures forall s :: Select<Out>([], s) == []
  {
  }

  /** What the demuxer should find of the packets of one stream. */
  function OutsOf(qs: seq<Packet>): seq<Out> {
    seq(|qs|, i requires 0 <= i < |qs| =>
      Out(TsToTime(Sum(TicksOf(Gaps(qs))[..i])), Encode(qs[i]), IsVideo(qs[i]) && qs[i].key))
  }

  function AllOuts(n: nat, ps: seq<Packet>): seq<seq<Out>> {
    seq(n, s requires 0 <= s < n => OutsOf(Of(ps, s)))
  }

  function AllTables(videoTracks: seq<bool>, ps: seq<Packet>): seq<Tables> {
    seq(|videoTracks|, s requires 0 <= s < |videoTracks| => FoundTables(videoTracks, ps, s))
  }

  lemma FileTells(videoTracks: seq<bool>, ps: seq<Packet>, start: FileStart, moov: seq<Track> -> seq<byte>, s: nat)
    requires s < |videoTracks|
    ensures Tells(FileOf(FinalLog(videoTracks, ps), videoTracks, start, moov), FoundTables(videoTracks, ps, s),
                  OutsOf(Of(ps, s)))
  {
    hide Encode, FinalLog, FileOf, Of, Gaps, TicksOf, IsSampleValid, CursorAfter, OffsetOf, SizeOf, IsKey, Sum,
         FoundTables, TsToTime;
    var file, t, outs := FileOf(FinalLog(videoTracks, ps), videoTracks, start, moov), FoundTables(videoTracks, ps, s),
      OutsOf(Of(ps, s));
    FileReadsBack(videoTracks, ps, start, moov, s, |outs|);
    forall i | 0 <= i < |outs| ensures TellsAt(file, t, CursorAfter(t, i), outs[i]) {
      FileReadsBack(videoTracks, ps, start, moov, s, i);
    }
  }

  /** Mux, then demux: for every packet sequence and every placement of flushes, reading the
      finished file yields the samples of each stream's packets, each once, in order, merged by
      decoding time. */
  lemma DemuxReadsWhatWasMuxed(videoTracks: seq<bool>, cmds: seq<Command>, start: FileStart, batched: bool,
                               moov: seq<Track> -> seq<byte>, m: nat)
    ensures RunAll(Init(videoTracks), cmds, start, batched).writePosition >= HEADER_SIZE
    ensures var file := WriteTrailer(RunAll(Init(videoTracks), cmds, start, batched), start, batched, moov).file.bytes;
            var ps := PacketsOf(cmds);
            var es := Run(file, AllTables(videoTracks, ps), m).1;
            && (forall a, b :: 0 <= a < b < |es| ==> es[a].1.time <= es[b].1.time)
            && (forall s :: 0 <= s < |videoTracks| ==> Select(es, s) <= OutsOf(Of(ps, s)))
            && (|es| < m ==> forall s :: 0 <= s < |videoTracks| ==> Select(es, s) == OutsOf(Of(ps, s)))
  {
    hide Tells, FileOf, FinalLog, FoundTables, Run, Select, Of, OutsOf, RunAll, WriteTrailer, PacketsOf;
    FileIsAFunctionOfPackets(videoTracks, cmds, start, batched, moov);
    var ps := PacketsOf(cmds);
    var file := FileOf(FinalLog(videoTracks, ps), videoTracks, start, moov);
    forall s | 0 <= s < |videoTracks|
      ensures Tells(file, AllTables(videoTracks, ps)[s], AllOuts(|videoTracks|, ps)[s]) {
      FileTells(videoTracks, ps, start, moov, s);
    }
    RunMerges(file, AllTables(videoTracks, ps), AllOuts(|videoTracks|, ps), m);
  }

  // ----- The objects -----

  /** A stream being read: its tables, the cursor fields and the picture gathered. */
  class Stream {
    const params: Params
    const sample: Tables
    var sliced: Option<Pkt>
    var sampleIndex: nat
    var chunkIndex: nat
    var chunkGroupIndex: nat
    var sampleIndexInChunk: nat
    var sampleOffsetInChunk: nat
    var sttsEntryIndex: nat
    var sampleIndexInSttsEntry: nat
    var cttsEntryIndex: nat
    var sampleIndexInCttsEntry: nat
    var syncSampleIndex: nat
    var dts: nat

    constructor (params: Params, sample: Tables)
      ensures this.params == params && this.sample == sample && Position() == START && sliced == None
    {
      this.params, this.sample, sliced := params, sample, None;
      sampleIndex, chunkIndex, chunkGroupIndex, sampleIndexInChunk, sampleOffsetInChunk := 0, 0, 0, 0, 0;
      sttsEntryIndex, sampleIndexInSttsEntry, cttsEntryIndex, sampleIndexInCttsEntry := 0, 0, 0, 0;
      syncSampleIndex, dts := 0, 0;
    }

    function Position(): Cursor
      reads this
    {
      Cursor(sampleIndex, chunkIndex, chunkGroupIndex, sampleIndexInChunk, sampleOffsetInChunk, sttsEntryIndex,
             sampleIndexInSttsEntry, cttsEntryIndex, sampleIndexInCttsEntry, syncSampleIndex, dts)
    }

    function State(): Reading
      reads this
    {
      Reading(sample, Position())
    }

    method AdvanceChunk()
      requires HasMore(State())
      modifies `chunkIndex, `chunkGroupIndex, `sampleIndexInChunk, `sampleOffsetInChunk
      ensures var next := Inc(sample, old(Position()));
              chunkIndex == next.chunkIndex && chunkGroupIndex == next.chunkGroup &&
              sampleIndexInChunk == next.inChunk && sampleOffsetInChunk == next.offsetInChunk
    {
      hide NextInRun;
      sampleIndexInChunk := sampleIndexInChunk + 1;
      if sampleIndexInChunk == sample.stsc[chunkGroupIndex].perChunk {
        chunkIndex := chunkIndex + 1;
        sampleIndexInChunk := 0;
        sampleOffsetInChunk := 0;
      } else if sample.fixedSize != 0 {
        sampleOffsetInChunk := sampleOffsetInChunk + sample.fixedSize;
      } else {
        sampleOffsetInChunk := sampleOffsetInChunk + sample.stsz[sampleIndex];
      }
      if chunkGroupIndex + 1 < |sample.stsc| && chunkIndex + 1 == sample.stsc[chunkGroupIndex + 1].firstChunk {
        chunkGroupIndex := chunkGroupIndex + 1;
      }
    }

    method AdvanceTime() returns (duration: nat)
      requires sttsEntryIndex < |sample.stts| && (sample.ctts != [] ==> cttsEntryIndex < |sample.ctts|)
      modifies `sttsEntryIndex, `sampleIndexInSttsEntry, `dts, `cttsEntryIndex, `sampleIndexInCttsEntry
      ensures duration == sample.stts[old(sttsEntryIndex)].value && dts == old(dts) + duration
      ensures (sttsEntryIndex, sampleIndexInSttsEntry) ==
                old(NextInRun(sample.stts, sttsEntryIndex, sampleIndexInSttsEntry))
      ensures (cttsEntryIndex, sampleIndexInCttsEntry) ==
              old(if sample.ctts != [] then NextInRun(sample.ctts, cttsEntryIndex, sampleIndexInCttsEntry)
                  else (cttsEntryIndex, sampleIndexInCttsEntry))
    {
      var sttsEntry := sample.stts[sttsEntryIndex];
      duration := sttsEntry.value;
      sampleIndexInSttsEntry := sampleIndexInSttsEntry + 1;
      dts := dts + duration;
      if sampleIndexInSttsEntry == sttsEntry.count {
        sampleIndexInSttsEntry := 0;
        sttsEntryIndex := sttsEntryIndex + 1;
      }
      if sample.ctts != [] {
        sampleIndexInCttsEntry := sampleIndexInCttsEntry + 1;
        if sampleIndexInCttsEntry == sample.ctts[cttsEntryIndex].count {
          sampleIndexInCttsEntry := 0;
          cttsEntryIndex := cttsEntryIndex + 1;
        }
      }
    }

    /** incSampleIndex moves every cursor field to the next sample. */
    method IncSampleIndex() returns (duration: nat)
      requires HasMore(State())
      modifies this
      ensures Position() == Inc(sample, old(Position())) && sliced == old(sliced)
      ensures duration == sample.stts[old(sttsEntryIndex)].value
    {
      hide NextInRun;
      AdvanceChunk();
      duration := AdvanceTime();
      if sample.stss.Sync? && syncSampleIndex + 1 < |sample.stss.entries| &&
        sampleIndex + 2 == sample.stss.entries[syncSampleIndex + 1] {
        syncSampleIndex := syncSampleIndex + 1;
      }
      sampleIndex := sampleIndex + 1;
    }

    /** The H.264 branch: each slice replaces the packet. */
    method ReadSlices(nalus: seq<Nalu>, isKeyFrame: bool, tm: nat) returns (pkt: Option<Pkt>)
      ensures pkt == match LastSlice(nalus) case None => None case Some(v) => Some(Pkt(Prefixed(v), isKeyFrame, tm))
    {
      pkt := None;
      for k := 0 to |nalus|
        invariant pkt == match LastSlice(nalus[..k])
                         case None => None
                         case Some(v) => Some(Pkt(Prefixed(v), isKeyFrame, tm))
      {
        assert nalus[..k + 1][..k] == nalus[..k];
        if IsSlice(nalus[k]) { pkt := Some(Pkt(Prefixed(nalus[k]), isKeyFrame, tm)); }
      }
      assert nalus[..|nalus|] == nalus;
    }

    /** The H.265 branch: side units and slices join the gathered picture, a first slice begins
        the next. */
    method GatherUnits(nalus: seq<Nalu>, isKeyFrame: bool, tm: nat) returns (pkt: Option<Pkt>)
      requires [] !in nalus
      modifies `sliced
      ensures Cut(pkt, sliced) == CutUnits(Cut(None, old(sliced)), nalus, isKeyFrame, tm)
    {
      pkt := None;
      for k := 0 to |nalus|
        invariant CutUnits(Cut(pkt, sliced), nalus[k..], isKeyFrame, tm) ==
                  CutUnits(Cut(None, old(sliced)), nalus, isKeyFrame, tm)
      {
        var nal := nalus[k];
        assert nalus[k..][0] == nal && nalus[k..][1..] == nalus[k + 1..];
        if IsSide(nal) {
          if sliced.Some? {
            sliced := Some(sliced.value.(data := sliced.value.data + Prefixed(nal)));
          } else {
            pkt := Some(Pkt(Prefixed(nal), false, tm));
          }
        } else if IsCoded(nal) {
          var sliceIsKey := isKeyFrame || Hevc.IsKey(Hevc.TypeOf(nal));
          if IsFirst(nal) {
            if sliced.Some? { pkt := sliced; }
            sliced := Some(Pkt(Prefixed(nal), sliceIsKey, tm));
          } else if sliced.Some? {
            var data := sliced.value.data + Prefixed(nal);
            sliced := Some(sliced.value.(data := data, key := sliced.value.key || sliceIsKey));
          } else {
            sliced := Some(Pkt(Prefixed(nal), sliceIsKey, tm));
          }
        }
      }
    }

    /** readPacket. Its loop ends in the first turn: Finish says why. */
    method ReadPacket(file: seq<byte>, tm: nat) returns (r: PacketResult)
      modifies this
      ensures (State(), sliced, r) == ReadPacketOf(file, params, old(State()), old(sliced), tm)
    {
      hide Inc, CutUnits, Split, LastSlice;
      if !HasMore(State()) {
        if sliced.None? { return Exhausted; }
        r := Returned(sliced);
        sliced := None;
        return;
      }
      var c := Position();
      var from, size := OffsetOf(sample, c), SizeOf(sample, c);
      if from + size > |file| { return Failed; }
      var data, isKeyFrame := file[from..from + size], IsKey(sample, c);
      var pkt;
      match params {
      case H264(_, _) =>
        var nalus, _ := SplitNALUs(data);
        if [] in nalus { return Panicked; }
        pkt := ReadSlices(nalus, isKeyFrame, tm);
      case H265(_, _, _) =>
        var nalus, _ := SplitNALUs(data);
        if [] in nalus { return Panicked; }
        pkt := GatherUnits(nalus, isKeyFrame, tm);
        if pkt.None? { pkt, sliced := sliced, None; }
      case Aac => pkt := Some(Pkt(data, false, tm));
      case Mjpeg => pkt := Some(Pkt(data, isKeyFrame, tm));
      }
      var _ := IncSampleIndex();
      r := Returned(pkt);
    }
  }

  class Demuxer {
    const file: seq<byte>
    const streams: seq<Stream>

    constructor (file: seq<byte>, streams: seq<Stream>)
      ensures this.file == file && this.streams == streams
    {
      this.file, this.streams := file, streams;
    }

    ghost predicate Distinct() {
      forall i, j :: 0 <= i < j < |streams| ==> streams[i] != streams[j]
    }

    function State(): seq<Reading>
      reads streams
    {
      seq(|streams|, i requires 0 <= i < |streams| reads streams => streams[i].State())
    }

    function Kinds(): seq<Params> {
      seq(|streams|, i requires 0 <= i < |streams| => streams[i].params)
    }

    function Held(): seq<Option<Pkt>>
      reads streams
    {
      seq(|streams|, i requires 0 <= i < |streams| reads streams => streams[i].sliced)
    }

    /** ReadPacket: choose a stream and let it read. */
    method ReadPacket() returns (r: PacketResult)
      requires Distinct()
      modifies streams
      ensures (State(), Held(), r) == NextPacket(file, Kinds(), old(State()), old(Held()))
    {
      hide ReadPacketOf;
      var chosen := None;
      var k := 0;
      while k < |streams|
        invariant 0 <= k <= |streams|
        invariant chosen == Choose(State(), k)
      {
        assert State()[k] == streams[k].State();
        var stream := streams[k].State();
        if HasMore(stream) && (chosen.None? || TsToTime(stream.cursor.dts) < TsToTime(streams[chosen.value].dts)) {
          chosen := Some(k);
        }
        k := k + 1;
      }
      if chosen.None? { return Exhausted; }
      var stream := streams[chosen.value];
      assert State()[chosen.value] == stream.State() && Held()[chosen.value] == stream.sliced;
      r := stream.ReadPacket(file, TsToTime(stream.dts));
      assert State() == old(State())[chosen.value := stream.State()];
      assert Held() == old(Held())[chosen.value := stream.sliced];
    }
  }
}
