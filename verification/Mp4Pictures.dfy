/** format/mp4: the packets a demuxer makes of a finished file, and which pictures of its H.265
    tracks come back. */
module Mp4Pictures {
  import opened Bytes
  import opened Mp4Tables
  import opened Mp4Muxer
  import opened Mp4ReadBack
  import opened Mp4Packets
  import opened Mp4Demuxer
  import opened Wrappers

  /** m calls of ReadPacket: the streams, their gathered pictures and the answers, each with the
      stream it came from. */
  function PacketRun(file: seq<byte>, kinds: seq<Params>, ts: seq<Tables>, m: nat)
    : (r: (seq<Reading>, seq<Option<Pkt>>, seq<(nat, Option<Pkt>)>))
    requires |kinds| == |ts|
    ensures |r.0| == |r.1| == |ts|
  {
    if m == 0 then
      (seq(|ts|, i requires 0 <= i < |ts| => Reading(ts[i], START)), seq(|ts|, i => None), [])
    else
      var (rs, held, log) := PacketRun(file, kinds, ts, m - 1);
      match NextPacket(file, kinds, rs, held)
      case (rs', held', Returned(pkt)) => (rs', held', log + [(Choose(rs, |rs|).value, pkt)])
      case (rs', held', _) => (rs', held', log)
  }

  ghost predicate Quiet(kinds: seq<Params>, outs: seq<seq<Out>>) {
    |kinds| == |outs| && forall s :: 0 <= s < |outs| ==> NonePanics(kinds[s], outs[s])
  }

  /** Every stream's answers and gathered picture are those of its own samples read so far. */
  ghost predicate Cuts(kinds: seq<Params>, es: seq<(nat, Out)>, held: seq<Option<Pkt>>, log: seq<(nat, Option<Pkt>)>) {
    |held| == |kinds| && |log| == |es| && forall s ::
      0 <= s < |kinds| ==> CutsOf(kinds[s], Select(es, s), held[s], Select(log, s))
  }

  ghost predicate CutsOf(params: Params, outs: seq<Out>, held: Option<Pkt>, answers: seq<Option<Pkt>>) {
    NonePanics(params, outs) && CutRun(params, outs) == (answers, held)
  }

  lemma CutMore(params: Params, outs: seq<Out>, out: Out, held: Option<Pkt>, answers: seq<Option<Pkt>>)
    requires CutsOf(params, outs, held, answers) && !Panics(params, out.bytes)
    ensures var c := CutSample(params, held, out);
            CutsOf(params, outs + [out], c.sliced, answers + [c.pkt])
  {
    hide Panics, CutSample;
    assert (outs + [out])[..|outs|] == outs;
  }

  /** A call on a file that tells outs: both ways of reading choose the same stream and sample. */
  lemma NextCuts(file: seq<byte>, kinds: seq<Params>, rs: seq<Reading>, held: seq<Option<Pkt>>,
                 es: seq<(nat, Out)>, log: seq<(nat, Option<Pkt>)>, ts: seq<Tables>, outs: seq<seq<Out>>)
    requires AllTell(file, ts, outs) && Merging(rs, es, ts, outs) && Quiet(kinds, outs) && Cuts(kinds, es, held, log)
    ensures var (rs', r) := ReadNext(file, rs);
            var (rs'', held', a) := NextPacket(file, kinds, rs, held);
            && rs'' == rs'
            && (r.Found? ==> a.Returned? && Cuts(kinds, es + [(r.stream, r.out)], held', log + [(r.stream, a.pkt)]))
            && (!r.Found? ==> !a.Returned? && held' == held)
  {
    hide IsSampleValid, Inc, OffsetOf, SizeOf, IsKey, TsToTime, Select, Panics, CutSample, CutRun, CutsOf;
    match Choose(rs, |rs|)
    case None =>
    case Some(i) =>
      ChosenMerges(file, rs, es, ts, outs, i);
      var out := outs[i][|Select(es, i)|];
      var c := CutSample(kinds[i], held[i], out);
      CutMore(kinds[i], Select(es, i), out, held[i], Select(log, i));
      forall s | 0 <= s < |kinds|
        ensures CutsOf(kinds[s], Select(es + [(i, out)], s), held[i := c.sliced][s], Select(log + [(i, c.pkt)], s))
      {
        SelectAppend(es, i, out, s);
        SelectAppend(log, i, c.pkt, s);
        assert s != i ==> Select(es, s) + [] == Select(es, s) && Select(log, s) + [] == Select(log, s);
      }
  }

  lemma NothingCut(kinds: seq<Params>)
    ensures Cuts(kinds, [], seq(|kinds|, i => None), [])
  {
  }

  /** The packets of every stream are those its own samples make, whatever the other streams and
      the order of reading. */
  lemma {:induction false} RunCuts(file: seq<byte>, kinds: seq<Params>, ts: seq<Tables>, outs: seq<seq<Out>>, m: nat)
    requires |kinds| == |ts| && AllTell(file, ts, outs) && Quiet(kinds, outs)
    ensures var (rs, es) := Mp4Demuxer.Run(file, ts, m);
            var (rs', held, log) := PacketRun(file, kinds, ts, m);
            rs' == rs && Cuts(kinds, es, held, log)
  {
    hide Tells, Cuts, Quiet, NextPacket, ReadNext, Merging, Sorted, Choose, Select;
    if m == 0 {
      NothingCut(kinds);
    } else {
      RunCuts(file, kinds, ts, outs, m - 1);
      RunMerges(file, ts, outs, m - 1);
      var (rs, es) := Mp4Demuxer.Run(file, ts, m - 1);
      var (_, held, log) := PacketRun(file, kinds, ts, m - 1);
      NextCuts(file, kinds, rs, held, es, log, ts, outs);
      Chosen(file, rs);
    }
  }

  lemma Chosen(file: seq<byte>, rs: seq<Reading>)
    ensures var r := ReadNext(file, rs).1;
            r.Found? ==> Choose(rs, |rs|) == Some(r.stream)
  {
  }

  // ----- H.265 tracks -----

  /** The packets of one stream are the given pictures, each at its decoding time. */
  ghost predicate Describes(qs: seq<Packet>, ps: seq<Picture>) {
    |qs| == |ps| && forall i :: 0 <= i < |qs| ==> DescribesAt(qs, ps[i], i)
  }

  ghost predicate DescribesAt(qs: seq<Packet>, p: Picture, i: nat)
    requires i < |qs|
  {
    && Shaped(p) && qs[i].params.H265? && p.sets == Extras(qs[i]) && DataOf(p) == qs[i].data
    && p.key == qs[i].key && p.time == TsToTime(Sum(TicksOf(Gaps(qs))[..i]))
  }

  lemma {:induction false} SumAscends(ticks: seq<nat>, i: nat, j: nat)
    requires i < j <= |ticks| && forall k :: i <= k < j ==> ticks[k] >= 1
    ensures Sum(ticks[..i]) < Sum(ticks[..j])
  {
    assert ticks[..j][..j - 1] == ticks[..j - 1];
    if i < j - 1 { SumAscends(ticks, i, j - 1); }
  }

  /** Half a tick or less between two packets counts as nothing: those times are the same. */
  ghost predicate Apart(qs: seq<Packet>) {
    forall i :: 0 <= i < |qs| - 1 ==> !(0 < GapAfter(qs, i) < 11_112)
  }

  /** The times of two pictures differ exactly when no gap is above 0 and below a tick. */
  lemma TimesAscendIff(qs: seq<Packet>, ps: seq<Picture>)
    requires Describes(qs, ps)
    ensures AllShaped(ps) && (TimesAscend(ps) <==> Apart(qs))
  {
    hide Shaped, Gaps, Sum, DataOf, Extras, TsToTime, ToTicks;
    var ticks := TicksOf(Gaps(qs));
    GapsAre(qs);
    forall i, j | 0 <= i < j < |ps| && Apart(qs) ensures ps[i].time < ps[j].time {
      assert DescribesAt(qs, ps[i], i) && DescribesAt(qs, ps[j], j);
      forall k | i <= k < j ensures ticks[k] >= 1 {
        TickIff(GapAfter(qs, k));
      }
      SumAscends(ticks, i, j);
      TimeAscends(Sum(ticks[..i]), Sum(ticks[..j]));
    }
    if !Apart(qs) {
      var i :| 0 <= i < |qs| - 1 && 0 < GapAfter(qs, i) < 11_112;
      assert DescribesAt(qs, ps[i], i) && DescribesAt(qs, ps[i + 1], i + 1);
      TickIff(GapAfter(qs, i));
      SumNext(ticks, i);
      assert ps[i].time == ps[i + 1].time;
    }
    assert forall i :: 0 <= i < |ps| ==> DescribesAt(qs, ps[i], i);
  }

  lemma SumNext(ticks: seq<nat>, i: nat)
    requires i < |ticks|
    ensures Sum(ticks[..i + 1]) == Sum(ticks[..i]) + ticks[i]
  {
    assert ticks[..i + 1][..i] == ticks[..i];
  }

  lemma GapsAre(qs: seq<Packet>)
    ensures |Gaps(qs)| == |qs| && forall i :: 0 <= i < |qs| ==> Gaps(qs)[i] == GapAfter(qs, i)
  {
  }

  lemma TickIff(gap: int)
    ensures ToTicks(ClampGap(gap)) == 0 <==> 0 < gap < 11_112
  {
  }

  lemma TimeAscends(a: nat, b: nat)
    requires a < b
    ensures TsToTime(a) < TsToTime(b)
  {
    assert b * SECOND >= a * SECOND + TIMESCALE;
  }

  lemma OutsDescribed(qs: seq<Packet>, ps: seq<Picture>)
    requires Describes(qs, ps)
    ensures OutsOf(qs) == OutsFor(ps)
  {
    hide Shaped, Gaps, Sum, DataOf, Extras, TsToTime, TicksOf;
    forall i | 0 <= i < |qs| ensures OutsOf(qs)[i] == OutsFor(ps)[i] {
      assert DescribesAt(qs, ps[i], i);
    }
  }

  ghost predicate Is(answer: Option<Pkt>, p: Picture) {
    answer.Some? && answer.value.data == DataOf(p) && answer.value.time == p.time
  }

  /** Each picture is answered, at its call, exactly when it survives. */
  ghost predicate AnsweredIff(answers: seq<Option<Pkt>>, ps: seq<Picture>)
    requires AllShaped(ps)
  {
    forall i :: 0 <= i < |ps| && ps[i].body != [] ==>
      (CallOf(ps, i) < |answers| && Is(answers[CallOf(ps, i)], ps[i]) <==> Survives(ps, i))
  }

  /** No picture is answered by a call that is not its own. */
  ghost predicate NoOtherAnswer(answers: seq<Option<Pkt>>, ps: seq<Picture>)
    requires AllShaped(ps)
  {
    forall i, j :: 0 <= i < |ps| && ps[i].body != [] && 0 <= j < |answers| && Is(answers[j], ps[i]) ==>
      j == CallOf(ps, i)
  }

  /** Reading does not panic: no stream of H.264 or H.265 was given an empty packet without
      parameter sets in front. */
  ghost predicate NoneEmpty(kinds: seq<Params>, ps: seq<Packet>) {
    forall s, i :: 0 <= s < |kinds| && (kinds[s].H264? || kinds[s].H265?) && 0 <= i < |Of(ps, s)| ==>
      Encode(Of(ps, s)[i]) != []
  }

  lemma NoneEmptyIsQuiet(kinds: seq<Params>, ps: seq<Packet>)
    requires NoneEmpty(kinds, ps)
    ensures Quiet(kinds, AllOuts(|kinds|, ps))
  {
    hide Panics, Of, Encode, Gaps, TicksOf, Sum, TsToTime;
    var outs: seq<seq<Out>> := AllOuts(|kinds|, ps);
    forall s: nat, i: nat | s < |kinds| && i < |outs[s]| ensures !Panics(kinds[s], outs[s][i].bytes) {
      PanicsIff(kinds[s], outs[s][i].bytes);
      assert outs[s][i].bytes == Encode(Of(ps, s)[i]);
    }
  }

  /** Main result: the answers of a finished file's H.265 track, and which of its pictures are
      among them once the end is reported. */
  lemma H265ReadsBack(videoTracks: seq<bool>, cmds: seq<Command>, start: FileStart, batched: bool,
                      moov: seq<Track> -> seq<byte>, kinds: seq<Params>, s: nat, ps: seq<Picture>, m: nat)
    requires s < |kinds| == |videoTracks| && kinds[s].H265?
    requires Describes(Of(PacketsOf(cmds), s), ps) && NoneEmpty(kinds, PacketsOf(cmds))
    ensures AllShaped(ps) && RunAll(Init(videoTracks), cmds, start, batched).writePosition >= HEADER_SIZE
    ensures var file := WriteTrailer(RunAll(Init(videoTracks), cmds, start, batched), start, batched, moov).file.bytes;
            var (_, held, log) := PacketRun(file, kinds, AllTables(videoTracks, PacketsOf(cmds)), m);
            var answers := Select(log, s);
            && |answers| <= |ps| && (forall j :: 0 <= j < |answers| ==> answers[j] == Answer(ps, j))
            && (|log| < m ==>
                  && |answers| == |ps|
                  && held[s] == (if Behind(ps, |ps|) then Some(Whole(ps[|ps| - 1])) else None)
                  && AnsweredIff(answers, ps)
                  && (Apart(Of(PacketsOf(cmds), s)) ==> NoOtherAnswer(answers, ps)))
  {
    hide RunAll, WriteTrailer, PacketsOf, FileOf, FinalLog, FoundTables, Mp4Demuxer.Run, PacketRun, Select, Of, OutsOf;
    hide Describes, NoneEmpty, AllTell, CutRun, Answer, Behind, Quiet, Shaped, Apart, AnsweredIff, NoOtherAnswer;
    var packets := PacketsOf(cmds);
    FileIsAFunctionOfPackets(videoTracks, cmds, start, batched, moov);
    var file, ts, outs := FileOf(FinalLog(videoTracks, packets), videoTracks, start, moov),
      AllTables(videoTracks, packets), AllOuts(|videoTracks|, packets);
    AllFileTells(videoTracks, packets, start, moov);
    NoneEmptyIsQuiet(kinds, packets);
    RunCuts(file, kinds, ts, outs, m);
    RunMerges(file, ts, outs, m);
    TimesAscendIff(Of(packets, s), ps);
    OutsDescribed(Of(packets, s), ps);
    var es, log := Mp4Demuxer.Run(file, ts, m).1, PacketRun(file, kinds, ts, m).2;
    AnswersOf(kinds[s], ps, Select(es, s), PacketRun(file, kinds, ts, m).1[s], Select(log, s));
    if |log| < m {
      HeldAtEnd(kinds[s], ps, PacketRun(file, kinds, ts, m).1[s], Select(log, s));
      AnsweredWhere(ps, Select(log, s));
    }
  }

  lemma AllFileTells(videoTracks: seq<bool>, ps: seq<Packet>, start: FileStart, moov: seq<Track> -> seq<byte>)
    ensures AllTell(FileOf(FinalLog(videoTracks, ps), videoTracks, start, moov), AllTables(videoTracks, ps),
                    AllOuts(|videoTracks|, ps))
  {
    hide FileOf, FinalLog, FoundTables, Tells, OutsOf, Of;
    forall s | 0 <= s < |videoTracks|
      ensures Tells(FileOf(FinalLog(videoTracks, ps), videoTracks, start, moov), AllTables(videoTracks, ps)[s],
                    AllOuts(|videoTracks|, ps)[s])
    {
      FileTells(videoTracks, ps, start, moov, s);
    }
  }

  lemma AnswersOf(params: Params, ps: seq<Picture>, outs: seq<Out>, held: Option<Pkt>, answers: seq<Option<Pkt>>)
    requires params.H265? && AllShaped(ps) && outs <= OutsFor(ps) && CutsOf(params, outs, held, answers)
    ensures |answers| == |outs| && (forall j :: 0 <= j < |answers| ==> answers[j] == Answer(ps, j))
  {
    hide CutRun, Shaped, Behind, Whole, OutOf, Answer;
    var front := ps[..|outs|];
    assert outs == OutsFor(front);
    RunAnswers(params, front);
    forall j | 0 <= j < |outs| ensures Answer(front, j) == Answer(ps, j) {
      AnswerPrefix(ps, |outs|, j);
    }
  }

  lemma HeldAtEnd(params: Params, ps: seq<Picture>, held: Option<Pkt>, answers: seq<Option<Pkt>>)
    requires params.H265? && AllShaped(ps) && CutsOf(params, OutsFor(ps), held, answers)
    ensures held == if Behind(ps, |ps|) then Some(Whole(ps[|ps| - 1])) else None
  {
    hide CutRun, Shaped, Behind, Whole, OutOf, Answer;
    RunAnswers(params, ps);
  }

  lemma AnswerPrefix(ps: seq<Picture>, m: nat, j: nat)
    requires j < m <= |ps| && AllShaped(ps)
    ensures AllShaped(ps[..m]) && Answer(ps[..m], j) == Answer(ps, j)
  {
    hide Shaped, Front, Gathered, Gives;
    BehindPrefix(ps, m, j);
  }

  lemma AnsweredWhere(ps: seq<Picture>, answers: seq<Option<Pkt>>)
    requires AllShaped(ps) && |answers| == |ps| && forall j :: 0 <= j < |ps| ==> answers[j] == Answer(ps, j)
    ensures AnsweredIff(answers, ps) && (TimesAscend(ps) ==> NoOtherAnswer(answers, ps))
  {
    hide Shaped, Front, Answer, AllKept, DataOf;
    forall i | 0 <= i < |ps| && ps[i].body != []
      ensures CallOf(ps, i) < |answers| && Is(answers[CallOf(ps, i)], ps[i]) <==> Survives(ps, i)
    {
      if CallOf(ps, i) < |ps| { WhichCall(ps, i, CallOf(ps, i)); }
    }
    forall i, j | TimesAscend(ps) && 0 <= i < |ps| && ps[i].body != [] && 0 <= j < |answers| && Is(answers[j], ps[i])
      ensures j == CallOf(ps, i)
    {
      WhichCall(ps, i, j);
    }
  }
}
