/** format/rtp: H.264 over a byte stream, from the packets written to the packets read. */
module RtpH264Stream {
  import opened Bytes
  import opened Nal
  import opened Rtp
  import opened RtpH264

  /** One video packet: its keyframe flag, its units and its timestamp. */
  datatype AccessUnit = AccessUnit(key: bool, nalus: seq<Nalu>, ts: nat)

  function After(s: Sender, n: nat): Sender
    decreases n
  {
    if n == 0 then s else After(Next(s), n - 1)
  }

  lemma {:induction false} StreamAppend(s: Sender, a: seq<Packet>, b: seq<Packet>, ts: int)
    ensures Stream(s, a + b, ts) == Stream(s, a, ts) + Stream(After(s, |a|), b, ts)
    decreases |a|
  {
    hide Frame;
    if a == [] {
      assert a + b == b;
    } else {
      assert (a + b)[1..] == a[1..] + b;
      StreamAppend(Next(s), a[1..], b, ts);
    }
  }

  lemma {:induction false} AfterSame(s: Sender, n: nat)
    ensures After(s, n) == s.(sequence := After(s, n).sequence)
    ensures Next(After(s, n)) == After(s, n + 1)
    decreases n
  {
    if n > 0 { AfterSame(Next(s), n - 1); }
  }

  function PacketsFor(au: AccessUnit, sps: Nalu, pps: Nalu, mtu: nat): seq<Packet> {
    PacketizeAll(Units(au.key, sps, pps, Join(au.nalus)), mtu)
  }

  function Sent(s: Sender, aus: seq<AccessUnit>, sps: Nalu, pps: Nalu, mtu: nat): seq<byte>
    decreases |aus|
  {
    if aus == [] then [] else
    var ps := PacketsFor(aus[0], sps, pps, mtu);
    Stream(s, ps, aus[0].ts) + Sent(After(s, |ps|), aus[1..], sps, pps, mtu)
  }

  lemma ReadShortens(b: seq<byte>)
    ensures ReadFrame(b).Payload? ==> |ReadFrame(b).rest| < |b|
  {
  }

  /** Reads frame after frame until the stream ends or something other than a payload comes. */
  function Receive(d: Demuxer, b: seq<byte>, parse: Parser): (Demuxer, bool)
    decreases |b|
  {
    ReadShortens(b);
    match ReadFrame(b)
    case Payload(data, timestamp, rest) =>
      var (d', ok) := Feed(d, data, timestamp, parse);
      var (end, allOk) := Receive(d', rest, parse);
      (end, ok && allOk)
    case _ => (d, true)
  }

  lemma {:induction false} ReceiveStream(d: Demuxer, s: Sender, ps: seq<Packet>, ts: int, rest: seq<byte>,
                                         parse: Parser)
    requires AllFramable(s, ps)
    ensures var (d', ok) := FeedAll(d, ps, RtpTicks(ts, s.clockRate), parse);
            var (end, ok') := Receive(d', rest, parse);
            Receive(d, Stream(s, ps, ts) + rest, parse) == (end, ok && ok')
    decreases |ps|
  {
    hide Frame, ReadFrame, RtpTicks, Feed;
    if ps == [] {
      assert Stream(s, ps, ts) + rest == rest;
    } else {
      var f, tail := Frame(s, ps[0].payload, ts, ps[0].marker), Stream(Next(s), ps[1..], ts) + rest;
      assert Stream(s, ps, ts) + rest == f + tail;
      FrameRoundTrip(s, ps[0].payload, ts, ps[0].marker, tail);
      assert AllFramable(Next(s), ps[1..]);
      ReceiveStream(Feed(d, ps[0].payload, RtpTicks(ts, s.clockRate), parse).0, Next(s), ps[1..], ts, rest, parse);
    }
  }

  function AllExpected(aus: seq<AccessUnit>, clockRate: nat): seq<Emitted> {
    if aus == [] then [] else Expected(aus[0].nalus, RtpTicks(aus[0].ts, clockRate)) + AllExpected(aus[1..], clockRate)
  }

  /** What the sender is given: units that are slices, and parameter sets that fit one packet. */
  ghost predicate Sendable(s: Sender, aus: seq<AccessUnit>, sps: Nalu, pps: Nalu, mtu: nat) {
    && 0 < mtu < 0x1_0000 && ParameterSets(sps, pps, mtu)
    && (sps != [] && pps != [] ==> Unfragmented(sps, mtu) && Unfragmented(pps, mtu))
    && forall i :: 0 <= i < |aus| ==>
         aus[i].nalus != [] && Slices(aus[i].nalus, mtu) && Countable(aus[i].nalus) &&
           AllFramable(s, PacketsFor(aus[i], sps, pps, mtu))
  }

  /** When nothing needs more than 65523 bytes and the payload type stays clear of RTCP, every
      packet of an access unit can be framed. */
  lemma FramableWhenSmall(s: Sender, au: AccessUnit, sps: Nalu, pps: Nalu, mtu: nat)
    requires s.payloadType != 72 && s.payloadType != 73 && s.payloadType < 128
    requires 2 < mtu <= 65523
    ensures AllFramable(s, PacketsFor(au, sps, pps, mtu))
  {
    hide Units, Fragments;
    SmallPackets(Units(au.key, sps, pps, Join(au.nalus)), mtu);
  }

  lemma {:induction false} SmallPackets(nalus: seq<Nalu>, mtu: nat)
    requires mtu > 2
    ensures forall i :: 0 <= i < |PacketizeAll(nalus, mtu)| ==> |PacketizeAll(nalus, mtu)[i].payload| <= mtu
  {
    hide Fragments;
    if nalus != [] {
      if |nalus[0]| > mtu { CutInTwo(nalus[0], mtu, |nalus| == 1); }
      SmallPackets(nalus[1..], mtu);
    }
  }

  /** Main result: sending any access units over the stream and reading it to the end gives back
      every unit of each, in order, without an error. */
  lemma {:induction false} StreamGivesBack(d: Demuxer, s: Sender, aus: seq<AccessUnit>, mtu: nat, parse: Parser)
    requires Sendable(s, aus, d.sps, d.pps, mtu)
    ensures var (d', ok) := Receive(d, Sent(s, aus, d.sps, d.pps, mtu), parse);
            ok && d'.out == d.out + AllExpected(aus, s.clockRate)
    decreases |aus|
  {
    hide FeedAll, Feed, Stream, RtpTicks, ReadFrame, PacketsFor, Expected, Unfragmented, Slices, AllFramable;
    if aus == [] {
      ReceiveNothing(d, parse);
    } else {
      var au, ps := aus[0], PacketsFor(aus[0], d.sps, d.pps, mtu);
      var ticks := RtpTicks(au.ts, s.clockRate);
      var rest := Sent(After(s, |ps|), aus[1..], d.sps, d.pps, mtu);
      ReceiveStream(d, s, ps, au.ts, rest, parse);
      UnitsFed(d, au, mtu, ticks, parse);
      var d1 := FeedAll(d, ps, ticks, parse).0;
      AfterSame(s, |ps|);
      forall i | 0 <= i < |aus| - 1 ensures AllFramable(After(s, |ps|), PacketsFor(aus[1..][i], d.sps, d.pps, mtu)) {
        SameFramable(s, After(s, |ps|), PacketsFor(aus[i + 1], d.sps, d.pps, mtu));
      }
      StreamGivesBack(d1, After(s, |ps|), aus[1..], mtu, parse);
      assert (d.out + Expected(au.nalus, ticks)) + AllExpected(aus[1..], s.clockRate) ==
             d.out + (Expected(au.nalus, ticks) + AllExpected(aus[1..], s.clockRate));
    }
  }

  lemma SameFramable(s: Sender, t: Sender, ps: seq<Packet>)
    requires t == s.(sequence := t.sequence) && AllFramable(s, ps)
    ensures AllFramable(t, ps)
  {
  }

  lemma ReceiveNothing(d: Demuxer, parse: Parser)
    ensures Receive(d, [], parse) == (d, true)
  {
  }

  lemma UnitsFed(d: Demuxer, au: AccessUnit, mtu: nat, timestamp: nat, parse: Parser)
    requires au.nalus != [] && Slices(au.nalus, mtu) && Countable(au.nalus) && 0 < mtu < 0x1_0000 &&
               ParameterSets(d.sps, d.pps, mtu)
    requires d.sps != [] && d.pps != [] ==> Unfragmented(d.sps, mtu) && Unfragmented(d.pps, mtu)
    ensures var (d', ok) := FeedAll(d, PacketsFor(au, d.sps, d.pps, mtu), timestamp, parse);
            ok && d'.out == d.out + Expected(au.nalus, timestamp) && d'.sps == d.sps && d'.pps == d.pps
  {
    hide FeedAll, PacketizeAll, Expected, Units;
    AccessUnitRoundTrip(d, au.key, au.nalus, mtu, timestamp, parse);
    SetsStay(d, au, mtu, timestamp, parse);
  }

  lemma {:induction false} SlicesKeepSets(d: Demuxer, nalus: seq<Nalu>, mtu: nat, timestamp: nat, parse: Parser)
    requires Slices(nalus, mtu) && 0 < mtu < 0x1_0000
    ensures var d' := FeedAll(d, PacketizeAll(nalus, mtu), timestamp, parse).0;
            d'.sps == d.sps && d'.pps == d.pps
    decreases |nalus|
  {
    hide Feed, Packetize;
    if nalus != [] {
      FeedSlice(d, nalus[0], mtu, |nalus| == 1, timestamp, parse);
      var d' := FeedAll(d, Packetize(nalus[0], mtu, |nalus| == 1), timestamp, parse).0;
      SlicesKeepSets(d', nalus[1..], mtu, timestamp, parse);
      FeedAppend(d, Packetize(nalus[0], mtu, |nalus| == 1), PacketizeAll(nalus[1..], mtu), timestamp, parse);
    }
  }

  lemma SetsStay(d: Demuxer, au: AccessUnit, mtu: nat, timestamp: nat, parse: Parser)
    requires au.nalus != [] && Slices(au.nalus, mtu) && Countable(au.nalus) && 0 < mtu < 0x1_0000 &&
               ParameterSets(d.sps, d.pps, mtu)
    requires d.sps != [] && d.pps != [] ==> Unfragmented(d.sps, mtu) && Unfragmented(d.pps, mtu)
    ensures var d' := FeedAll(d, PacketsFor(au, d.sps, d.pps, mtu), timestamp, parse).0;
            d'.sps == d.sps && d'.pps == d.pps
  {
    hide FeedAll, PacketizeAll, Split, Dense, Unfragmented, Packetize;
    SplitJoin(au.nalus);
    DenseSame(au.nalus);
    JoinNotEmpty(au.nalus);
    SlicesKeepSets(d, au.nalus, mtu, timestamp, parse);
    if au.key && d.sps != [] && d.pps != [] {
      assert [d.sps, d.pps] + au.nalus == [d.sps] + ([d.pps] + au.nalus);
      FeedUnits(d, d.sps, [d.pps] + au.nalus, mtu, timestamp, parse);
      FeedParameterSet(d, d.sps, mtu, timestamp, parse);
      FeedUnits(d, d.pps, au.nalus, mtu, timestamp, parse);
      FeedParameterSet(d, d.pps, mtu, timestamp, parse);
    }
  }
}
