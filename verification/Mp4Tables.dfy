/** The sample tables of format/mp4/stream.go: how writePacket grows them sample by sample, and how
    the demuxer's cursors walk them back. */
module Mp4Tables {
  const SECOND: int := 1_000_000_000
  const TIMESCALE: int := 90_000
  const MAX_SAMPLE: int := 5 * SECOND
  const MILLISECOND: int := 1_000_000

  /** A run of samples with one duration (stts) or one composition offset (ctts). */
  datatype Run = Run(count: nat, value: nat)

  /** One group of chunks of a sample-to-chunk table. */
  datatype ChunkGroup = ChunkGroup(firstChunk: nat, perChunk: nat)

  datatype SyncTable = NoSync | Sync(entries: seq<nat>)

  /** stsz has sizes when fixedSize is 0; an empty ctts stands for an absent one. */
  datatype Tables = Tables(
    stts: seq<Run>, ctts: seq<Run>, stsc: seq<ChunkGroup>, stss: SyncTable,
    stco: seq<nat>, fixedSize: nat, stsz: seq<nat>)

  // ----- Building -----

  /** What the muxer records about one sample; key says it is a keyframe of a video packet. */
  datatype Sample = Sample(offset: nat, size: nat, key: bool, ticks: nat)

  /** Tables of a new stream. */
  function NewTables(): Tables {
    Tables([], [], [ChunkGroup(1, 1)], Sync([]), [], 0, [])
  }

  function AddToRuns(runs: seq<Run>, v: nat): seq<Run> {
    if runs == [] || runs[|runs| - 1].value != v then runs + [Run(1, v)]
    else runs[|runs| - 1 := Run(runs[|runs| - 1].count + 1, v)]
  }

  /** The table part of writePacket; sampleIndex is the number of samples already recorded. Every track has
      a composition table, all of whose offsets are 0. */
  function AddSample(t: Tables, sampleIndex: nat, s: Sample): Tables {
    t.(stts := AddToRuns(t.stts, s.ticks),
       ctts := AddToRuns(t.ctts, 0),
       stss := if s.key && t.stss.Sync? then Sync(t.stss.entries + [sampleIndex + 1]) else t.stss,
       stco := t.stco + [s.offset],
       stsz := t.stsz + [s.size])
  }

  function Build(samples: seq<Sample>): Tables {
    if samples == [] then NewTables()
    else AddSample(Build(samples[..|samples| - 1]), |samples| - 1, samples[|samples| - 1])
  }

  /** What probe does with the tables before the walk. */
  function Probe(t: Tables): Tables {
    if t.stss == Sync([]) then t.(stss := NoSync) else t
  }

  // ----- Walking -----

  datatype Cursor = Cursor(
    sampleIndex: nat, chunkIndex: nat, chunkGroup: nat, inChunk: nat, offsetInChunk: nat,
    sttsEntry: nat, inStts: nat, cttsEntry: nat, inCtts: nat, sync: nat, dts: nat)

  const START: Cursor := Cursor(0, 0, 0, 0, 0, 0, 0, 0, 0, 0, 0)

  predicate IsSampleValid(t: Tables, c: Cursor) {
    && c.chunkIndex < |t.stco|
    && c.chunkGroup < |t.stsc|
    && c.sttsEntry < |t.stts|
    && (t.ctts != [] ==> c.cttsEntry < |t.ctts|)
    && (t.stss.Sync? ==> c.sync < |t.stss.entries|)
    && (t.fixedSize == 0 ==> c.sampleIndex < |t.stsz|)
  }

  function SizeOf(t: Tables, c: Cursor): nat
    requires IsSampleValid(t, c)
  {
    if t.fixedSize != 0 then t.fixedSize else t.stsz[c.sampleIndex]
  }

  function OffsetOf(t: Tables, c: Cursor): nat
    requires IsSampleValid(t, c)
  {
    t.stco[c.chunkIndex] + c.offsetInChunk
  }

  predicate IsKey(t: Tables, c: Cursor)
    requires IsSampleValid(t, c)
  {
    t.stss.Sync? && c.sampleIndex + 1 == t.stss.entries[c.sync]
  }

  /** Position k in run e, one sample later. */
  function NextInRun(runs: seq<Run>, e: nat, k: nat): (nat, nat)
    requires e < |runs|
  {
    if k + 1 == runs[e].count then (e + 1, 0) else (e, k + 1)
  }

  function Inc(t: Tables, c: Cursor): Cursor
    requires IsSampleValid(t, c)
  {
    var chunkDone := c.inChunk + 1 == t.stsc[c.chunkGroup].perChunk;
    var chunkIndex := if chunkDone then c.chunkIndex + 1 else c.chunkIndex;
    var chunkGroup := if c.chunkGroup + 1 < |t.stsc| && chunkIndex + 1 == t.stsc[c.chunkGroup + 1].firstChunk
      then c.chunkGroup + 1 else c.chunkGroup;
    var (sttsEntry, inStts) := NextInRun(t.stts, c.sttsEntry, c.inStts);
    var (cttsEntry, inCtts) := if t.ctts != [] then NextInRun(t.ctts, c.cttsEntry, c.inCtts)
      else (c.cttsEntry, c.inCtts);
    var sync := if t.stss.Sync? && c.sync + 1 < |t.stss.entries| && c.sampleIndex + 2 == t.stss.entries[c.sync + 1]
      then c.sync + 1 else c.sync;
    Cursor(
      c.sampleIndex + 1, chunkIndex, chunkGroup,
      if chunkDone then 0 else c.inChunk + 1,
      if chunkDone then 0 else c.offsetInChunk + SizeOf(t, c),
      sttsEntry, inStts, cttsEntry, inCtts, sync,
      c.dts + t.stts[c.sttsEntry].value)
  }

  // ----- Run-length coding loses nothing -----

  function Repeat(v: nat, n: nat): (s: seq<nat>)
    ensures |s| == n && forall i :: 0 <= i < n ==> s[i] == v
  {
    seq(n, _ => v)
  }

  function Expand(runs: seq<Run>): seq<nat> {
    if runs == [] then [] else Expand(runs[..|runs| - 1]) + Repeat(runs[|runs| - 1].value, runs[|runs| - 1].count)
  }

  /** Recording one more value appends it to the sequence the runs stand for. */
  lemma ExpandAdd(runs: seq<Run>, v: nat)
    ensures Expand(AddToRuns(runs, v)) == Expand(runs) + [v]
  {
    var runs' := AddToRuns(runs, v);
    if runs == [] || runs[|runs| - 1].value != v {
      assert runs'[..|runs'| - 1] == runs;
    } else {
      var last := runs[|runs| - 1];
      assert runs'[..|runs'| - 1] == runs[..|runs| - 1];
      assert Repeat(v, last.count + 1) == Repeat(v, last.count) + [v];
      assert Expand(runs') == (Expand(runs[..|runs| - 1]) + Repeat(v, last.count)) + [v];
    }
  }

  predicate NoEmptyRun(runs: seq<Run>) {
    forall i :: 0 <= i < |runs| ==> runs[i].count > 0
  }

  /** Cursor (e, k) stands at sample i of the runs. */
  ghost predicate RunsAt(runs: seq<Run>, e: nat, k: nat, i: nat) {
    && e <= |runs|
    && |Expand(runs[..e])| + k == i
    && (if e < |runs| then k < runs[e].count else k == 0)
  }

  lemma {:induction false} ExpandPrefix(runs: seq<Run>, e: nat)
    requires e <= |runs|
    ensures Expand(runs[..e]) <= Expand(runs)
    decreases |runs| - e
  {
    if e < |runs| {
      assert runs[..e + 1][..e] == runs[..e];
      ExpandPrefix(runs, e + 1);
    } else {
      assert runs[..e] == runs;
    }
  }

  /** A run cursor at sample i < n reads sample i's value, and its successor stands at i + 1; it
      is past the last run exactly at i == n. */
  lemma RunsStep(runs: seq<Run>, e: nat, k: nat, i: nat)
    requires NoEmptyRun(runs) && RunsAt(runs, e, k, i)
    ensures i <= |Expand(runs)| && (e < |runs| <==> i < |Expand(runs)|)
    ensures e < |runs| ==> Expand(runs)[i] == runs[e].value
    ensures e < |runs| ==> RunsAt(runs, NextInRun(runs, e, k).0, NextInRun(runs, e, k).1, i + 1)
  {
    ExpandPrefix(runs, e);
    if e < |runs| {
      assert runs[..e + 1][..e] == runs[..e] && runs[..e + 1][e] == runs[e];
      ExpandPrefix(runs, e + 1);
      assert Expand(runs[..e + 1]) == Expand(runs[..e]) + Repeat(runs[e].value, runs[e].count);
      assert Expand(runs)[i] == Expand(runs[..e + 1])[i];
    } else {
      assert runs[..e] == runs;
    }
  }

  function Ticks(samples: seq<Sample>): seq<nat> {
    seq(|samples|, i requires 0 <= i < |samples| => samples[i].ticks)
  }

  function SyncList(samples: seq<Sample>): (l: seq<nat>)
    ensures forall j :: 0 <= j < |l| ==> 1 <= l[j] <= |samples|
  {
    if samples == [] then [] else
    var l := SyncList(samples[..|samples| - 1]);
    if samples[|samples| - 1].key then l + [|samples|] else l
  }

  ghost predicate DurationColumn(stts: seq<Run>, samples: seq<Sample>) {
    var same := Expand(stts) == Ticks(samples);
    same && NoEmptyRun(stts)
  }

  ghost predicate CompositionColumn(ctts: seq<Run>, n: nat) {
    var same := Expand(ctts) == Repeat(0, n);
    same && NoEmptyRun(ctts)
  }

  ghost predicate PlaceColumns(stco: seq<nat>, stsz: seq<nat>, samples: seq<Sample>) {
    var places := |stco| == |stsz| == |samples| &&
      forall i :: 0 <= i < |samples| ==> stco[i] == samples[i].offset && stsz[i] == samples[i].size;
    places
  }

  /** The tables hold exactly the recorded samples, in columns. */
  ghost predicate Columns(t: Tables, samples: seq<Sample>) {
    && DurationColumn(t.stts, samples) && CompositionColumn(t.ctts, |samples|)
    && PlaceColumns(t.stco, t.stsz, samples) && t.stss == Sync(SyncList(samples))
    && t.fixedSize == 0 && t.stsc == [ChunkGroup(1, 1)]
  }

  lemma RepeatMore(v: nat, n: nat)
    ensures Repeat(v, n + 1) == Repeat(v, n) + [v]
  {
  }

  lemma StaysFilled(runs: seq<Run>, v: nat)
    requires NoEmptyRun(runs)
    ensures NoEmptyRun(AddToRuns(runs, v))
  {
  }

  lemma DurationsAdd(stts: seq<Run>, front: seq<Sample>, samples: seq<Sample>)
    requires DurationColumn(stts, front) && samples != [] && front == samples[..|samples| - 1]
    ensures DurationColumn(AddToRuns(stts, samples[|samples| - 1].ticks), samples)
  {
    ExpandAdd(stts, samples[|samples| - 1].ticks);
    StaysFilled(stts, samples[|samples| - 1].ticks);
    hide Expand, AddToRuns, NoEmptyRun;
    assert Ticks(samples) == Ticks(front) + [samples[|samples| - 1].ticks];
  }

  lemma CompositionsAdd(ctts: seq<Run>, n: nat)
    requires CompositionColumn(ctts, n)
    ensures CompositionColumn(AddToRuns(ctts, 0), n + 1)
  {
    ExpandAdd(ctts, 0);
    RepeatMore(0, n);
    StaysFilled(ctts, 0);
    hide Expand, Repeat, AddToRuns, NoEmptyRun;
  }

  lemma ColumnsAdd(t: Tables, front: seq<Sample>, samples: seq<Sample>)
    requires Columns(t, front) && samples != [] && front == samples[..|samples| - 1]
    ensures Columns(AddSample(t, |front|, samples[|samples| - 1]), samples)
  {
    DurationsAdd(t.stts, front, samples);
    CompositionsAdd(t.ctts, |front|);
  }

  lemma {:induction false} BuildColumns(samples: seq<Sample>)
    ensures Columns(Build(samples), samples)
  {
    if samples == [] {
      assert Ticks([]) == [] && Repeat(0, 0) == [];
    } else {
      var front := samples[..|samples| - 1];
      BuildColumns(front);
      var t := Build(front);
      assert Build(samples) == AddSample(t, |front|, samples[|samples| - 1]);
      ColumnsAdd(t, front, samples);
    }
  }

  /** The sync list is ascending and holds i + 1 exactly for the keyframes i. */
  lemma {:induction false} SyncListIs(samples: seq<Sample>)
    ensures var l := SyncList(samples);
            && (forall a, b :: 0 <= a < b < |l| ==> l[a] < l[b])
            && (forall i :: 0 <= i < |samples| ==> (samples[i].key <==> i + 1 in l))
  {
    if samples != [] {
      var front := samples[..|samples| - 1];
      SyncListIs(front);
      var l0, l := SyncList(front), SyncList(samples);
      forall i | 0 <= i < |samples| ensures samples[i].key <==> i + 1 in l {
        if i < |front| { assert front[i] == samples[i]; }
      }
    }
  }

  // ----- The walk over built tables -----

  function Sum(s: seq<nat>): nat {
    if s == [] then 0 else Sum(s[..|s| - 1]) + s[|s| - 1]
  }

  /** The sync cursor points at the last keyframe at or before sample i, or at the first one. */
  ghost predicate SyncAt(stss: SyncTable, sync: nat, i: nat) {
    match stss
    case NoSync => true
    case Sync(l) =>
      && sync < |l|
      && (sync == 0 || l[sync] <= i + 1)
      && (sync + 1 < |l| ==> i + 1 < l[sync + 1])
  }

  /** Cursor c stands at sample i of tables t, built one sample per chunk. */
  ghost predicate CursorAt(t: Tables, c: Cursor, i: nat) {
    && c.sampleIndex == c.chunkIndex == i && c.chunkGroup == c.inChunk == c.offsetInChunk == 0
    && RunsAt(t.stts, c.sttsEntry, c.inStts, i)
    && (t.ctts != [] ==> RunsAt(t.ctts, c.cttsEntry, c.inCtts, i))
    && SyncAt(t.stss, c.sync, i)
    && i <= |Expand(t.stts)| && c.dts == Sum(Expand(t.stts)[..i])
  }

  /** The tables the demuxer walks after probing what the muxer built. */
  function Muxed(samples: seq<Sample>): Tables {
    Probe(Build(samples))
  }

  /** The facts about muxed tables the walk needs. */
  lemma MuxedIs(samples: seq<Sample>)
    ensures var t := Muxed(samples);
            && Expand(t.stts) == Ticks(samples) && NoEmptyRun(t.stts)
            && (t.ctts != [] ==> |Expand(t.ctts)| == |samples| && NoEmptyRun(t.ctts))
            && t.stss == (if SyncList(samples) != [] then Sync(SyncList(samples)) else NoSync)
            && t.fixedSize == 0 && t.stsc == [ChunkGroup(1, 1)] && |t.stco| == |t.stsz| == |samples|
    ensures var t := Muxed(samples);
            forall i :: 0 <= i < |samples| ==> t.stco[i] == samples[i].offset && t.stsz[i] == samples[i].size
  {
    BuildColumns(samples);
  }

  lemma StartAt(samples: seq<Sample>)
    ensures CursorAt(Muxed(samples), START, 0)
  {
    var t := Muxed(samples);
    MuxedIs(samples);
    SyncListIs(samples);
    assert Expand(t.stts[..0]) == [] && Expand(t.ctts[..0]) == [];
    if t.stss.Sync? && 1 < |t.stss.entries| { assert t.stss.entries[0] < t.stss.entries[1]; }
  }

  /** The sync cursor finds sample i to be a keyframe exactly when it was recorded as one. */
  lemma SyncReads(samples: seq<Sample>, sync: nat, i: nat)
    requires i < |samples| && SyncList(samples) != [] && SyncAt(Sync(SyncList(samples)), sync, i)
    ensures i + 1 == SyncList(samples)[sync] <==> samples[i].key
  {
    SyncListIs(samples);
    var l := SyncList(samples);
    assert forall a :: 0 <= a < sync ==> l[a] < l[sync];
    assert sync + 1 < |l| ==> forall a :: sync + 1 < a < |l| ==> l[sync + 1] < l[a];
  }

  lemma SyncStep(l: seq<nat>, sync: nat, i: nat)
    requires SyncAt(Sync(l), sync, i) && forall a, b :: 0 <= a < b < |l| ==> l[a] < l[b]
    ensures SyncAt(Sync(l), if sync + 1 < |l| && i + 2 == l[sync + 1] then sync + 1 else sync, i + 1)
  {
    if sync + 2 < |l| { assert l[sync + 1] < l[sync + 2]; }
  }

  lemma WalkCursors(t: Tables, samples: seq<Sample>, c: Cursor, i: nat)
    requires CursorAt(t, c, i) && i < |samples| && IsSampleValid(t, c)
    requires Expand(t.stts) == Ticks(samples) && NoEmptyRun(t.stts)
    requires t.ctts != [] ==> NoEmptyRun(t.ctts)
    requires t.stsc == [ChunkGroup(1, 1)]
    requires t.stss.Sync? ==> forall a, b :: 0 <= a < b < |t.stss.entries| ==> t.stss.entries[a] < t.stss.entries[b]
    ensures CursorAt(t, Inc(t, c), i + 1)
  {
    RunsStep(t.stts, c.sttsEntry, c.inStts, i);
    if t.ctts != [] { RunsStep(t.ctts, c.cttsEntry, c.inCtts, i); }
    if t.stss.Sync? { SyncStep(t.stss.entries, c.sync, i); }
    assert Ticks(samples)[..i + 1][..i] == Ticks(samples)[..i];
  }

  /** One step of the walk: at sample i < n the cursors read what was recorded about sample i and
      move to sample i + 1; at sample n they report the end. */
  lemma WalkStep(samples: seq<Sample>, c: Cursor, i: nat)
    requires CursorAt(Muxed(samples), c, i) && i <= |samples|
    ensures IsSampleValid(Muxed(samples), c) <==> i < |samples|
    ensures var t := Muxed(samples);
            i < |samples| ==>
              && OffsetOf(t, c) == samples[i].offset && SizeOf(t, c) == samples[i].size
              && (IsKey(t, c) <==> samples[i].key)
              && c.dts == Sum(Ticks(samples)[..i])
              && CursorAt(t, Inc(t, c), i + 1)
  {
    var t := Muxed(samples);
    MuxedIs(samples);
    RunsStep(t.stts, c.sttsEntry, c.inStts, i);
    if t.ctts != [] { RunsStep(t.ctts, c.cttsEntry, c.inCtts, i); }
    SyncListIs(samples);
    if i < |samples| {
      if t.stss.Sync? { SyncReads(samples, c.sync, i); }
      WalkCursors(t, samples, c, i);
    }
  }

  /** The cursor after k steps from the start. */
  function CursorAfter(t: Tables, k: nat): (c: Cursor)
  {
    if k == 0 then START else
    var c := CursorAfter(t, k - 1);
    if IsSampleValid(t, c) then Inc(t, c) else c
  }

  lemma {:induction false} CursorReaches(samples: seq<Sample>, i: nat)
    requires i <= |samples|
    ensures CursorAt(Muxed(samples), CursorAfter(Muxed(samples), i), i)
    decreases i
  {
    if i == 0 { StartAt(samples); } else {
      CursorReaches(samples, i - 1);
      WalkStep(samples, CursorAfter(Muxed(samples), i - 1), i - 1);
    }
  }

  /** Main result: for every sequence of recorded samples the walk visits exactly that many, and
      the i-th has the offset, size, keyframe flag and summed duration that were recorded. */
  lemma WalkReadsWhatWasMuxed(samples: seq<Sample>, i: nat)
    ensures var t, n := Muxed(samples), |samples|;
            && !IsSampleValid(t, CursorAfter(t, n))
            && (i < n ==>
                  var c := CursorAfter(t, i);
                  && IsSampleValid(t, c)
                  && OffsetOf(t, c) == samples[i].offset && SizeOf(t, c) == samples[i].size
                  && (IsKey(t, c) <==> samples[i].key)
                  && c.dts == Sum(Ticks(samples)[..i]))
  {
    CursorReaches(samples, |samples|);
    WalkStep(samples, CursorAfter(Muxed(samples), |samples|), |samples|);
    if i < |samples| {
      CursorReaches(samples, i);
      WalkStep(samples, CursorAfter(Muxed(samples), i), i);
    }
  }

  // ----- Durations -----

  /** The duration writePacket gives a sample whose successor comes gap later. */
  function ClampGap(gap: int): (d: int)
    ensures 0 < d <= MAX_SAMPLE
    ensures 0 < gap <= MAX_SAMPLE ==> d == gap
  {
    if gap <= 0 then MILLISECOND else if gap > MAX_SAMPLE then MAX_SAMPLE else gap
  }

  function ToTicks(d: nat): nat {
    d * TIMESCALE / SECOND
  }

  function TicksOf(gaps: seq<int>): seq<nat> {
    seq(|gaps|, i requires 0 <= i < |gaps| => ToTicks(ClampGap(gaps[i])))
  }

  function SumInt(s: seq<int>): int {
    if s == [] then 0 else SumInt(s[..|s| - 1]) + s[|s| - 1]
  }

  lemma FloorAdd(a: nat, b: nat)
    ensures ToTicks(a) + ToTicks(b) <= ToTicks(a + b) <= ToTicks(a) + ToTicks(b) + 1
  {
    assert (a + b) * TIMESCALE == a * TIMESCALE + b * TIMESCALE;
  }

  /** For gaps the muxer does not clamp, the decoding time of sample i lags the true elapsed time
      in ticks by 0 up to less than i ticks. */
  lemma {:induction false} DtsLag(gaps: seq<int>)
    requires forall i :: 0 <= i < |gaps| ==> 0 < gaps[i] <= MAX_SAMPLE
    ensures SumInt(gaps) >= 0
    ensures var lag := ToTicks(SumInt(gaps)) - Sum(TicksOf(gaps));
            0 <= lag && (lag < |gaps| || lag == |gaps| == 0)
  {
    if gaps != [] {
      var front := gaps[..|gaps| - 1];
      DtsLag(front);
      assert TicksOf(gaps)[..|gaps| - 1] == TicksOf(front);
      FloorAdd(SumInt(front), gaps[|gaps| - 1]);
    }
  }
}
