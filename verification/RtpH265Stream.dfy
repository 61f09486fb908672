/** format/rtp: H.265 over a byte stream, from the packets written to the packets read. */
module RtpH265Stream {
  import opened Bytes
  import opened Nal
  import opened Rtp
  import opened RtpH265
  import H264 = RtpH264Stream
  import opened Wrappers

  function PacketsFor(au: AccessUnit, vps: Nalu, sps: Nalu, pps: Nalu, mtu: nat): seq<Packet> {
    PacketizeAll(Units(au.key, vps, sps, pps, Join(au.nalus)), mtu)
  }

  /** The stream of the packets for aus, whose timestamps are times of the source clock. */
  function Sent(s: Sender, aus: seq<AccessUnit>, vps: Nalu, sps: Nalu, pps: Nalu, mtu: nat): seq<byte>
    decreases |aus|
  {
    if aus == [] then [] else
    var ps := PacketsFor(aus[0], vps, sps, pps, mtu);
    Stream(s, ps, aus[0].timestamp) + Sent(H264.After(s, |ps|), aus[1..], vps, sps, pps, mtu)
  }

  /** Reads frame after frame until the stream ends or something other than a payload comes. */
  function Receive(d: Demuxer, b: seq<byte>, parse: Parser): (Demuxer, bool)
    decreases |b|
  {
    H264.ReadShortens(b);
    match ReadFrame(b)
    case Payload(data, timestamp, rest) =>
      var (d', ok) := Feed(d, data, timestamp, parse);
      var (end, allOk) := Receive(d', rest, parse);
      (end, ok && allOk)
    case _ => (d, true)
  }

  lemma {:induction false} ReceiveStream(d: Demuxer, s: Sender, ps: seq<Packet>, ts: int, rest: seq<byte>,
                                         parse: Parser)
    requires AllFramable(s, ps)
    ensures var (d', ok) := FeedAll(d, ps, RtpTicks(ts, s.clockRate), parse);
            var (end, ok') := Receive(d', rest, parse);
            Receive(d, Stream(s, ps, ts) + rest, parse) == (end, ok && ok')
    decreases |ps|
  {
    hide Frame, ReadFrame, RtpTicks, Feed;
    if ps == [] {
      assert Stream(s, ps, ts) + rest == rest;
    } else {
      var f, tail := Frame(s, ps[0].payload, ts, ps[0].marker), Stream(Next(s), ps[1..], ts) + rest;
      assert Stream(s, ps, ts) + rest == f + tail;
      FrameRoundTrip(s, ps[0].payload, ts, ps[0].marker, tail);
      assert AllFramable(Next(s), ps[1..]);
      ReceiveStream(Feed(d, ps[0].payload, RtpTicks(ts, s.clockRate), parse).0, Next(s), ps[1..], ts, rest, parse);
    }
  }

  /** The access units with the timestamps they carry on the wire. */
  function Ticked(aus: seq<AccessUnit>, clockRate: nat): seq<AccessUnit> {
    seq(|aus|, i requires 0 <= i < |aus| => aus[i].(timestamp := RtpTicks(aus[i].timestamp, clockRate)))
  }

  /** What the sender is given: whole pictures whose packets can be framed, and parameter sets that
      fit one packet each. */
  ghost predicate Sendable(s: Sender, d: Demuxer, aus: seq<AccessUnit>, mtu: nat) {
    && 1 < mtu < 0x1_0000 && SetsOk(d, mtu) && SetsUnfragmented(d, mtu)
    && forall i :: 0 <= i < |aus| ==>
         Picture(aus[i].nalus, mtu) && AllFramable(s, PacketsFor(aus[i], d.vps, d.sps, d.pps, mtu))
  }

  lemma {:induction false} SmallPackets(nalus: seq<Nalu>, mtu: nat)
    requires mtu > 3
    ensures forall i :: 0 <= i < |PacketizeAll(nalus, mtu)| ==> |PacketizeAll(nalus, mtu)[i].payload| <= mtu
  {
    hide Fragments, StartBit, EndBit;
    if nalus != [] {
      if |nalus[0]| > mtu { CutInTwo(nalus[0], mtu, |nalus| == 1); }
      SmallPackets(nalus[1..], mtu);
    }
  }

  /** When nothing needs more than 65523 bytes and the payload type stays clear of RTCP, every
      packet of an access unit can be framed. */
  lemma FramableWhenSmall(s: Sender, au: AccessUnit, vps: Nalu, sps: Nalu, pps: Nalu, mtu: nat)
    requires s.payloadType != 72 && s.payloadType != 73 && s.payloadType < 128
    requires 3 < mtu <= 65523
    ensures AllFramable(s, PacketsFor(au, vps, sps, pps, mtu))
  {
    hide Units, Fragments;
    SmallPackets(Units(au.key, vps, sps, pps, Join(au.nalus)), mtu);
  }

  lemma ReceiveNothing(d: Demuxer, parse: Parser)
    ensures Receive(d, [], parse) == (d, true)
  {
  }

  lemma FeedNothing(d: Demuxer, mtu: nat, parse: Parser)
    ensures FeedUnits(d, [], mtu, parse) == (d, true)
  {
  }

  /** Reading the stream feeds the demuxer the packets of every access unit in turn. */
  lemma {:induction false} ReceiveFeeds(d: Demuxer, s: Sender, aus: seq<AccessUnit>, mtu: nat, parse: Parser)
    requires Sendable(s, d, aus, mtu) && !d.bufferHasKey
    ensures Receive(d, Sent(s, aus, d.vps, d.sps, d.pps, mtu), parse) ==
              FeedUnits(d, Ticked(aus, s.clockRate), mtu, parse)
    decreases |aus|
  {
    hide FeedAll, Feed, Stream, RtpTicks, ReadFrame, PacketizeAll, Units, Picture, SetOk, Unfragmented, AllFramable,
         Receive;
    if aus == [] {
      ReceiveNothing(d, parse);
      FeedNothing(d, mtu, parse);
    } else {
      var au, ps := aus[0], PacketsFor(aus[0], d.vps, d.sps, d.pps, mtu);
      var s', ticked := H264.After(s, |ps|), Ticked(aus, s.clockRate);
      var rest := Sent(s', aus[1..], d.vps, d.sps, d.pps, mtu);
      ReceiveStream(d, s, ps, au.timestamp, rest, parse);
      OnePicture(d, ticked[0], mtu, parse);
      var d1 := FeedAll(d, ps, ticked[0].timestamp, parse).0;
      H264.AfterSame(s, |ps|);
      assert ticked[1..] == Ticked(aus[1..], s'.clockRate);
      forall i | 0 <= i < |aus| - 1
        ensures AllFramable(s', PacketsFor(aus[1..][i], d.vps, d.sps, d.pps, mtu))
      {
        H264.SameFramable(s, s', PacketsFor(aus[i + 1], d.vps, d.sps, d.pps, mtu));
      }
      ReceiveFeeds(d1, s', aus[1..], mtu, parse);
    }
  }

  /** Main result: sending pictures over the stream and reading it to the end gives back every
      picture whole, in order and without an error; the last one is still being gathered. */
  lemma StreamGivesBack(d: Demuxer, s: Sender, aus: seq<AccessUnit>, mtu: nat, parse: Parser)
    requires aus != [] && Sendable(s, d, aus, mtu) && !d.bufferHasKey
    ensures var (d', ok) := Receive(d, Sent(s, aus, d.vps, d.sps, d.pps, mtu), parse);
            var all := Ready(d) + Wholes(Ticked(aus, s.clockRate), mtu);
            ok && Ready(d') == all && d'.out == all[..|all| - 1] && d'.sliced == Some(all[|all| - 1])
  {
    hide FeedUnits, Receive, Sent, RtpTicks, PacketsFor, Picture, SetOk, Unfragmented, Wholes, AllFramable;
    ReceiveFeeds(d, s, aus, mtu, parse);
    SequenceRoundTrip(d, Ticked(aus, s.clockRate), mtu, parse);
  }
}
