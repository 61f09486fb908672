/** format/rtp/h264_muxer.go and h264.go: access units cut into RTP payloads (RFC 6184) and put
    together again. */
module RtpH264 {
  import opened Bytes
  import opened Nal
  import opened Rtp

  const SPS: int := 7
  const PPS: int := 8
  const STAP_A: int := 24
  const FU_A: int := 28

  function TypeOf(nalu: Nalu): int
    requires nalu != []
  {
    nalu[0] as int % 32
  }

  // ----- Sending -----

  /** The units of one access unit: before a keyframe's own the parameter sets, if both are known. */
  function Units(key: bool, sps: Nalu, pps: Nalu, data: seq<byte>): seq<Nalu> {
    if data == [] then [] else
    var nalus := Split(data).0;
    if nalus != [] && key && sps != [] && pps != [] then [sps, pps] + nalus else nalus
  }

  function Indicator(header: byte): byte {
    (header as int / 32 * 32 + FU_A) as byte
  }

  function FuHeader(header: byte, start: bool, end: bool): byte {
    (header as int % 32 + (if start then 128 else 0) + if end then 64 else 0) as byte
  }

  function FragmentSize(body: seq<byte>, mtu: nat, offset: nat): nat
    requires offset <= |body| && mtu > 2
  {
    if |body| - offset < mtu - 2 then |body| - offset else mtu - 2
  }

  function FragmentAt(header: byte, body: seq<byte>, mtu: nat, offset: nat, last: bool): Packet
    requires offset < |body| && mtu > 2
  {
    var size := FragmentSize(body, mtu, offset);
    var end := |body| - offset <= mtu - 2;
    Packet([Indicator(header), FuHeader(header, offset == 0, end)] + body[offset..offset + size], last && end)
  }

  /** The FU-A fragments of a unit from offset on. */
  function Fragments(header: byte, body: seq<byte>, mtu: nat, offset: nat, last: bool): seq<Packet>
    requires offset <= |body| && mtu > 2
    decreases |body| - offset
  {
    if offset == |body| then [] else
    [FragmentAt(header, body, mtu, offset, last)] +
      Fragments(header, body, mtu, offset + FragmentSize(body, mtu, offset), last)
  }

  /** A unit that fits is one packet; so is any unit when the MTU leaves no room for fragments. */
  function Packetize(nalu: Nalu, mtu: nat, last: bool): seq<Packet> {
    if |nalu| <= mtu then [Packet(nalu, last)]
    else if |nalu| < 2 then []
    else if mtu <= 2 then [Packet(nalu, last)]
    else Fragments(nalu[0], nalu[1..], mtu, 0, last)
  }

  function PacketizeAll(nalus: seq<Nalu>, mtu: nat): seq<Packet> {
    if nalus == [] then [] else Packetize(nalus[0], mtu, |nalus| == 1) + PacketizeAll(nalus[1..], mtu)
  }

  // ----- Receiving -----

  datatype Emitted = Emitted(data: seq<byte>, key: bool, timestamp: nat)

  datatype Demuxer = Demuxer(sps: Nalu, pps: Nalu, fuStarted: bool, buffer: seq<byte>, out: seq<Emitted>)

  /** Whether codec parameters can be made from the two sets. */
  type Parser = (Nalu, Nalu) -> bool

  function AddPacket(d: Demuxer, nalu: Nalu, key: bool, timestamp: nat): Demuxer {
    d.(out := d.out + [Emitted(Prefixed(nalu), key, timestamp)])
  }

  function UpdateSps(d: Demuxer, nalu: Nalu, parse: Parser): (Demuxer, bool) {
    if nalu == d.sps then (d, true) else (d.(sps := nalu), parse(nalu, d.pps))
  }

  function UpdatePps(d: Demuxer, nalu: Nalu, parse: Parser): (Demuxer, bool) {
    if nalu == d.pps then (d, true) else (d.(pps := nalu), parse(d.sps, nalu))
  }

  function StapA(d: Demuxer, packet: seq<byte>, timestamp: nat, parse: Parser): (Demuxer, bool)
    decreases |packet|
  {
    if |packet| < 2 then (d, true) else
    var size := Get16(packet, 0);
    if size == 0 || size + 2 > |packet| then (d, true) else
    var nalu, rest := packet[2..size + 2], packet[size + 2..];
    var (d', ok) :=
      if 1 <= TypeOf(nalu) <= 5 then (AddPacket(d, nalu, TypeOf(nalu) == 5, timestamp), true)
      else if TypeOf(nalu) == SPS then UpdateSps(d, nalu, parse)
      else if TypeOf(nalu) == PPS then UpdatePps(d, nalu, parse)
      else (d, true);
    if ok then StapA(d', rest, timestamp, parse) else (d', false)
  }

  /** The units nested in a reassembled parameter set: a keyframe slice replaces the buffer, and
      key says so. */
  function Nested(d: Demuxer, nalus: seq<Nalu>, key: bool, parse: Parser): (Demuxer, bool, bool)
    decreases |nalus|
  {
    if nalus == [] then (d, key, true) else
    var v := nalus[0];
    if v == [] then Nested(d, nalus[1..], key, parse)
    else if TypeOf(v) == 5 then Nested(d.(buffer := v), nalus[1..], true, parse)
    else
      var (d', ok) := if TypeOf(v) == SPS then UpdateSps(d, v, parse)
        else if TypeOf(v) == PPS then UpdatePps(d, v, parse) else (d, true);
      if ok then Nested(d', nalus[1..], key, parse) else (d', key, false)
  }

  function Finalize(d: Demuxer, timestamp: nat, parse: Parser): (Demuxer, bool)
    requires d.buffer != []
  {
    var done, t := d.(fuStarted := false), TypeOf(d.buffer);
    if t != 7 && t != 9 then (AddPacket(done, d.buffer, t == 5, timestamp), true) else
    var (d', key, ok) := Nested(done, Split([0, 0, 0, 1] + d.buffer).0, false, parse);
    if ok then (AddPacket(d', d'.buffer, key, timestamp), true) else (d', false)
  }

  /** A FU-A packet; payload is the whole RTP payload. */
  function Fragment(d: Demuxer, payload: seq<byte>, timestamp: nat, parse: Parser): (Demuxer, bool) {
    if |payload| < 2 then (d, false) else
    var header := payload[1] as int;
    var rebuilt := (payload[0] as int / 32 * 32 + header % 32) as byte;
    var begun := if header >= 128 then d.(fuStarted := true, buffer := [rebuilt]) else d;
    if !begun.fuStarted then (begun, true) else
    var grown := begun.(buffer := begun.buffer + payload[2..]);
    if header / 64 % 2 == 1 && grown.buffer != [] then Finalize(grown, timestamp, parse) else (grown, true)
  }

  /** SplitNALUs leaves no empty unit here. */
  function Process(d: Demuxer, nalu: Nalu, payload: seq<byte>, timestamp: nat, parse: Parser): (Demuxer, bool) {
    if nalu == [] then (d, true) else
    var t := TypeOf(nalu);
    if 1 <= t <= 5 then (AddPacket(d, nalu, t == 5, timestamp), true)
    else if t == SPS then UpdateSps(d, nalu, parse)
    else if t == PPS then UpdatePps(d, nalu, parse)
    else if t == STAP_A then StapA(d, nalu[1..], timestamp, parse)
    else if t == FU_A then Fragment(d, payload, timestamp, parse)
    else (d, true)
  }

  function ProcessAll(d: Demuxer, nalus: seq<Nalu>, payload: seq<byte>, timestamp: nat, parse: Parser): (Demuxer, bool)
    decreases |nalus|
  {
    if nalus == [] then (d, true) else
    var (d', ok) := Process(d, nalus[0], payload, timestamp, parse);
    if ok then ProcessAll(d', nalus[1..], payload, timestamp, parse) else (d', false)
  }

  /** One RTP payload; false is an error reported to the caller. */
  function Feed(d: Demuxer, payload: seq<byte>, timestamp: nat, parse: Parser): (Demuxer, bool) {
    var nalus := Split(payload).0;
    if nalus == [] || nalus[0] == [] then (d, false) else ProcessAll(d, nalus, payload, timestamp, parse)
  }

  /** Payload after payload, going on after an error; true when there was none. */
  function FeedAll(d: Demuxer, ps: seq<Packet>, timestamp: nat, parse: Parser): (Demuxer, bool)
    decreases |ps|
  {
    if ps == [] then (d, true) else
    var (d', ok) := Feed(d, ps[0].payload, timestamp, parse);
    var (end, allOk) := FeedAll(d', ps[1..], timestamp, parse);
    (end, ok && allOk)
  }

  lemma {:induction false} FeedAppend(d: Demuxer, a: seq<Packet>, b: seq<Packet>, timestamp: nat, parse: Parser)
    ensures var (mid, ok) := FeedAll(d, a, timestamp, parse);
            var (end, ok') := FeedAll(mid, b, timestamp, parse);
            FeedAll(d, a + b, timestamp, parse) == (end, ok && ok')
    decreases |a|
  {
    hide Feed;
    if a == [] {
      assert a + b == b;
    } else {
      assert (a + b)[1..] == a[1..] + b && (a + b)[0] == a[0];
      FeedAppend(Feed(d, a[0].payload, timestamp, parse).0, a[1..], b, timestamp, parse);
    }
  }

  // ----- One unit -----

  /** A payload that begins with a non-zero byte and is short enough passes the splitter whole. */
  lemma FeedWhole(d: Demuxer, payload: seq<byte>, timestamp: nat, parse: Parser)
    requires 0 < |payload| < 0x100_0000 && payload[0] > 0
    ensures Feed(d, payload, timestamp, parse) == Process(d, payload, payload, timestamp, parse)
  {
    hide Process, Split;
    if |payload| >= 4 { assert Get32(payload, 0) >= 0x100_0000 && Get24(payload, 0) >= 0x1_0000; }
    SplitWhole(payload);
    OneProcessed(d, payload, timestamp, parse);
  }

  lemma OneProcessed(d: Demuxer, payload: seq<byte>, timestamp: nat, parse: Parser)
    ensures ProcessAll(d, [payload], payload, timestamp, parse) == Process(d, payload, payload, timestamp, parse)
  {
    hide Process;
    assert [payload][1..] == [];
    var (d', ok) := Process(d, payload, payload, timestamp, parse);
    assert ProcessAll(d', [], payload, timestamp, parse) == (d', true);
  }

  lemma FeedOne(d: Demuxer, p: Packet, timestamp: nat, parse: Parser)
    ensures FeedAll(d, [p], timestamp, parse) == Feed(d, p.payload, timestamp, parse)
  {
    hide Feed;
    var d' := Feed(d, p.payload, timestamp, parse).0;
    assert [p][1..] == [] && FeedAll(d', [], timestamp, parse) == (d', true);
  }

  /** What has been gathered when the fragments up to offset have come. */
  predicate Gathered(d: Demuxer, header: byte, body: seq<byte>, offset: nat)
    requires offset <= |body|
  {
    offset > 0 ==> d.fuStarted && d.buffer == [header] + body[..offset]
  }

  lemma FragmentBits(header: byte, start: bool, end: bool)
    ensures var h := FuHeader(header, start, end) as int;
            (h >= 128 <==> start) && (h / 64 % 2 == 1 <==> end) && h % 32 == header as int % 32
    ensures Indicator(header) as int / 32 * 32 + header as int % 32 == header as int &&
              Indicator(header) as int % 32 == FU_A
  {
  }

  /** One fragment joins what was gathered; the last one completes the unit. */
  lemma FeedFragment(d: Demuxer, header: byte, body: seq<byte>, mtu: nat, offset: nat, last: bool, timestamp: nat,
                     parse: Parser)
    requires offset < |body| && 2 < mtu < 0x1_0000 && Gathered(d, header, body, offset)
    ensures var next := offset + FragmentSize(body, mtu, offset);
            var (d', ok) := Feed(d, FragmentAt(header, body, mtu, offset, last).payload, timestamp, parse);
            var whole := d.(fuStarted := true, buffer := [header] + body[..next]);
            if next < |body| then d' == whole && ok else (d', ok) == Finalize(whole, timestamp, parse)
  {
    hide Indicator, FuHeader, Finalize, Feed;
    var size := FragmentSize(body, mtu, offset);
    var end := |body| - offset <= mtu - 2;
    var payload := FragmentAt(header, body, mtu, offset, last).payload;
    FragmentBits(header, offset == 0, end);
    assert payload[0] == Indicator(header) && payload[1] == FuHeader(header, offset == 0, end);
    assert payload[2..] == body[offset..offset + size];
    FeedWhole(d, payload, timestamp, parse);
    assert Process(d, payload, payload, timestamp, parse) == Fragment(d, payload, timestamp, parse);
    assert body[..offset] + body[offset..offset + size] == body[..offset + size];
    if offset == 0 {
      assert [header] + payload[2..] == [header] + body[..size];
    } else {
      assert ([header] + body[..offset]) + payload[2..] == [header] + body[..offset + size];
    }
  }

  lemma {:induction false} FeedFragments(d: Demuxer, header: byte, body: seq<byte>, mtu: nat, offset: nat, last: bool,
                                         timestamp: nat, parse: Parser)
    requires offset < |body| && 2 < mtu < 0x1_0000 && Gathered(d, header, body, offset)
    ensures FeedAll(d, Fragments(header, body, mtu, offset, last), timestamp, parse) ==
            Finalize(d.(fuStarted := true, buffer := [header] + body), timestamp, parse)
    decreases |body| - offset
  {
    hide Feed, Finalize, FragmentAt;
    var ps, next := Fragments(header, body, mtu, offset, last), offset + FragmentSize(body, mtu, offset);
    FeedFragment(d, header, body, mtu, offset, last, timestamp, parse);
    var d' := Feed(d, ps[0].payload, timestamp, parse).0;
    assert ps[1..] == Fragments(header, body, mtu, next, last);
    if next < |body| {
      FeedFragments(d', header, body, mtu, next, last, timestamp, parse);
    } else {
      assert body[..next] == body;
      assert FeedAll(d', [], timestamp, parse) == (d', true);
    }
  }

  /** Too long for the splitter is only a unit sent whole for want of room for fragments. */
  predicate Receivable(nalu: Nalu, mtu: nat) {
    |nalu| < 0x100_0000 || mtu > 2
  }

  /** Fragmented or not, a slice comes out as it went in. */
  lemma FeedSlice(d: Demuxer, nalu: Nalu, mtu: nat, last: bool, timestamp: nat, parse: Parser)
    requires nalu != [] && 1 <= TypeOf(nalu) <= 5 && 0 < mtu < 0x1_0000 && Receivable(nalu, mtu)
    ensures var (d', ok) := FeedAll(d, Packetize(nalu, mtu, last), timestamp, parse);
            ok && d'.out == d.out + [Emitted(Prefixed(nalu), TypeOf(nalu) == 5, timestamp)] && d'.sps == d.sps &&
              d'.pps == d.pps
  {
    hide Prefixed;
    if |nalu| <= mtu || mtu <= 2 {
      FeedSingle(d, nalu, last, timestamp, parse);
    } else {
      hide Feed, FeedAll;
      FeedFragments(d, nalu[0], nalu[1..], mtu, 0, last, timestamp, parse);
      assert [nalu[0]] + nalu[1..] == nalu;
    }
  }

  lemma FeedSingle(d: Demuxer, nalu: Nalu, last: bool, timestamp: nat, parse: Parser)
    requires 0 < |nalu| < 0x100_0000 && nalu[0] > 0
    ensures FeedAll(d, [Packet(nalu, last)], timestamp, parse) == Process(d, nalu, nalu, timestamp, parse)
  {
    hide Feed, FeedAll, Process;
    FeedOne(d, Packet(nalu, last), timestamp, parse);
    FeedWhole(d, nalu, timestamp, parse);
  }

  // ----- Whole access units -----

  /** Slices, each of a length a receiver can take. */
  ghost predicate Slices(nalus: seq<Nalu>, mtu: nat) {
    forall i :: 0 <= i < |nalus| ==> nalus[i] != [] && Receivable(nalus[i], mtu) && 1 <= TypeOf(nalus[i]) <= 5
  }

  function Expected(nalus: seq<Nalu>, timestamp: nat): seq<Emitted> {
    if nalus == [] then [] else
    [Emitted(Prefixed(nalus[0]), nalus[0] != [] && TypeOf(nalus[0]) == 5, timestamp)] + Expected(nalus[1..], timestamp)
  }

  lemma {:induction false} ExpectedLength(nalus: seq<Nalu>, timestamp: nat)
    ensures |Expected(nalus, timestamp)| == |nalus|
  {
    if nalus != [] { ExpectedLength(nalus[1..], timestamp); }
  }

  lemma {:induction false} FeedSlices(d: Demuxer, nalus: seq<Nalu>, mtu: nat, timestamp: nat, parse: Parser)
    requires Slices(nalus, mtu) && 0 < mtu < 0x1_0000
    ensures var (d', ok) := FeedAll(d, PacketizeAll(nalus, mtu), timestamp, parse);
            ok && d'.out == d.out + Expected(nalus, timestamp)
    decreases |nalus|
  {
    hide Feed, Packetize, Prefixed;
    if nalus != [] {
      var first, rest := Packetize(nalus[0], mtu, |nalus| == 1), PacketizeAll(nalus[1..], mtu);
      FeedSlice(d, nalus[0], mtu, |nalus| == 1, timestamp, parse);
      var d' := FeedAll(d, first, timestamp, parse).0;
      FeedSlices(d', nalus[1..], mtu, timestamp, parse);
      FeedAppend(d, first, rest, timestamp, parse);
      var e := Emitted(Prefixed(nalus[0]), TypeOf(nalus[0]) == 5, timestamp);
      assert (d.out + [e]) + Expected(nalus[1..], timestamp) == d.out + ([e] + Expected(nalus[1..], timestamp));
    }
  }

  /** The parameter sets need no fragments. */
  predicate Unfragmented(nalu: Nalu, mtu: nat) {
    |nalu| <= mtu || mtu <= 2
  }

  ghost predicate ParameterSets(sps: Nalu, pps: Nalu, mtu: nat) {
    && (sps != [] ==> TypeOf(sps) == SPS && Receivable(sps, mtu))
    && (pps != [] ==> TypeOf(pps) == PPS && Receivable(pps, mtu))
  }

  lemma {:induction false} NestedKeepsOut(d: Demuxer, nalus: seq<Nalu>, key: bool, parse: Parser)
    ensures Nested(d, nalus, key, parse).0.out == d.out
    decreases |nalus|
  {
    if nalus != [] {
      var v := nalus[0];
      if v == [] {
        NestedKeepsOut(d, nalus[1..], key, parse);
      } else if TypeOf(v) == 5 {
        NestedKeepsOut(d.(buffer := v), nalus[1..], true, parse);
      } else {
        NestedKeepsOut(UpdateSps(d, v, parse).0, nalus[1..], key, parse);
        NestedKeepsOut(UpdatePps(d, v, parse).0, nalus[1..], key, parse);
        NestedKeepsOut(d, nalus[1..], key, parse);
      }
    }
  }

  predicate Known(d: Demuxer, nalu: Nalu)
    requires nalu != []
  {
    (TypeOf(nalu) == SPS && nalu == d.sps) || (TypeOf(nalu) == PPS && nalu == d.pps)
  }

  /** A parameter set the receiver knows passes without trace when it is one packet; fragmented it
      is reported as an error or comes out as a packet of its own. */
  lemma FeedParameterSet(d: Demuxer, nalu: Nalu, mtu: nat, timestamp: nat, parse: Parser)
    requires nalu != [] && Receivable(nalu, mtu) && 0 < mtu < 0x1_0000 && (TypeOf(nalu) == SPS || TypeOf(nalu) == PPS)
    ensures var (d', ok) := FeedAll(d, Packetize(nalu, mtu, false), timestamp, parse);
            if Unfragmented(nalu, mtu) then d'.out == d.out && (Known(d, nalu) ==> d' == d && ok)
            else |d'.out| == |d.out| + 1 || !ok
  {
    if Unfragmented(nalu, mtu) {
      FeedSingle(d, nalu, false, timestamp, parse);
    } else {
      hide Feed, FeedAll, Prefixed, Nested;
      FeedFragments(d, nalu[0], nalu[1..], mtu, 0, false, timestamp, parse);
      assert [nalu[0]] + nalu[1..] == nalu;
      NestedKeepsOut(d.(fuStarted := false, buffer := nalu), Split([0, 0, 0, 1] + nalu).0, false, parse);
    }
  }

  lemma FeedUnits(d: Demuxer, nalu: Nalu, rest: seq<Nalu>, mtu: nat, timestamp: nat, parse: Parser)
    requires rest != []
    ensures var (mid, ok) := FeedAll(d, Packetize(nalu, mtu, false), timestamp, parse);
            var (end, ok') := FeedAll(mid, PacketizeAll(rest, mtu), timestamp, parse);
            FeedAll(d, PacketizeAll([nalu] + rest, mtu), timestamp, parse) == (end, ok && ok')
  {
    hide Feed, Packetize;
    assert ([nalu] + rest)[1..] == rest;
    FeedAppend(d, Packetize(nalu, mtu, false), PacketizeAll(rest, mtu), timestamp, parse);
  }

  /** The parameter sets in front of a keyframe leave no trace exactly when neither is fragmented. */
  lemma FeedKeyframe(d: Demuxer, sps: Nalu, pps: Nalu, nalus: seq<Nalu>, mtu: nat, timestamp: nat, parse: Parser)
    requires Slices(nalus, mtu) && nalus != [] && 0 < mtu < 0x1_0000
    requires sps != [] && pps != [] && ParameterSets(sps, pps, mtu) && d.sps == sps && d.pps == pps
    ensures var (d', ok) := FeedAll(d, PacketizeAll([sps, pps] + nalus, mtu), timestamp, parse);
            (ok && d'.out == d.out + Expected(nalus, timestamp)) <==> Unfragmented(sps, mtu) && Unfragmented(pps, mtu)
  {
    hide Feed, FeedAll, Packetize, PacketizeAll, Expected, Unfragmented, Slices;
    assert [sps, pps] + nalus == [sps] + ([pps] + nalus);
    FeedUnits(d, sps, [pps] + nalus, mtu, timestamp, parse);
    FeedParameterSet(d, sps, mtu, timestamp, parse);
    var d1 := FeedAll(d, Packetize(sps, mtu, false), timestamp, parse).0;
    FeedUnits(d1, pps, nalus, mtu, timestamp, parse);
    FeedParameterSet(d1, pps, mtu, timestamp, parse);
    var d2 := FeedAll(d1, Packetize(pps, mtu, false), timestamp, parse).0;
    FeedSlices(d2, nalus, mtu, timestamp, parse);
    ExpectedLength(nalus, timestamp);
    assert |d2.out + Expected(nalus, timestamp)| == |d2.out| + |nalus|;
  }

  /** Main result: for every access unit of slices and every MTU the receiver gives back each unit
      behind its length, in order and with its keyframe flag, and reports no error, exactly when
      no parameter set had to be fragmented for a keyframe. */
  lemma AccessUnitRoundTrip(d: Demuxer, key: bool, nalus: seq<Nalu>, mtu: nat, timestamp: nat, parse: Parser)
    requires Slices(nalus, mtu) && nalus != [] && Countable(nalus) && 0 < mtu < 0x1_0000 &&
               ParameterSets(d.sps, d.pps, mtu)
    ensures var (d', ok) := FeedAll(d, PacketizeAll(Units(key, d.sps, d.pps, Join(nalus)), mtu), timestamp, parse);
            (ok && d'.out == d.out + Expected(nalus, timestamp)) <==>
            (key && d.sps != [] && d.pps != [] ==> Unfragmented(d.sps, mtu) && Unfragmented(d.pps, mtu))
  {
    hide FeedAll, PacketizeAll, Expected, Split, Dense, Unfragmented;
    SplitJoin(nalus);
    DenseSame(nalus);
    assert Join(nalus) != [] by { JoinNotEmpty(nalus); }
    if key && d.sps != [] && d.pps != [] {
      FeedKeyframe(d, d.sps, d.pps, nalus, mtu, timestamp, parse);
    } else {
      FeedSlices(d, nalus, mtu, timestamp, parse);
    }
  }

  /** An input that does not come back: a sequence parameter set of 6 bytes, a keyframe of one
      slice and an MTU of 5. */
  lemma LongSetShows(parse: Parser, timestamp: nat)
    ensures var d, nalus := Demuxer([103, 1, 2, 3, 4, 5], [104, 1], false, [], []), [[101, 1, 2]];
            var (d', ok) := FeedAll(d, PacketizeAll(Units(true, d.sps, d.pps, Join(nalus)), 5), timestamp, parse);
            !ok || d'.out != Expected(nalus, timestamp)
  {
    hide FeedAll, PacketizeAll, Expected, Units, Join;
    var d, nalus: seq<Nalu> := Demuxer([103, 1, 2, 3, 4, 5], [104, 1], false, [], []), [[101, 1, 2]];
    AccessUnitRoundTrip(d, true, nalus, 5, timestamp, parse);
    assert d.out + Expected(nalus, timestamp) == Expected(nalus, timestamp);
  }

  // ----- The shape of the packets (section 5.8 of RFC 6184) -----

  predicate StartBit(p: Packet)
    requires |p.payload| >= 2
  {
    p.payload[1] as int >= 128
  }

  predicate EndBit(p: Packet)
    requires |p.payload| >= 2
  {
    p.payload[1] as int / 64 % 2 == 1
  }

  /** None longer than the MTU, S on the first alone if the unit starts there, E on the last alone,
      the marker where E is if the unit is the last one. */
  ghost predicate Shaped(ps: seq<Packet>, mtu: nat, atStart: bool, last: bool) {
    forall i :: 0 <= i < |ps| ==>
      2 < |ps[i].payload| <= mtu && (StartBit(ps[i]) <==> i == 0 && atStart) && (EndBit(ps[i]) <==> i == |ps| - 1) &&
      (ps[i].marker <==> last && i == |ps| - 1)
  }

  lemma ShapedPrepend(p: Packet, ps: seq<Packet>, mtu: nat, atStart: bool, last: bool)
    requires ps != [] && Shaped(ps, mtu, false, last)
    requires 2 < |p.payload| <= mtu && (StartBit(p) <==> atStart) && !EndBit(p) && !p.marker
    ensures Shaped([p] + ps, mtu, atStart, last)
  {
  }

  /** Fragments from offset on are shaped, and more than one if they do not fit one packet. */
  lemma {:induction false} FragmentShape(header: byte, body: seq<byte>, mtu: nat, offset: nat, last: bool)
    requires offset < |body| && mtu > 2
    ensures var ps := Fragments(header, body, mtu, offset, last);
            && |ps| > 0 && (|ps| >= 2 <==> |body| - offset > mtu - 2)
            && Shaped(ps, mtu, offset == 0, last)
    decreases |body| - offset
  {
    var size := FragmentSize(body, mtu, offset);
    var p, rest := FragmentAt(header, body, mtu, offset, last), Fragments(header, body, mtu, offset + size, last);
    FragmentBits(header, offset == 0, |body| - offset <= mtu - 2);
    hide FuHeader, Indicator;
    assert 2 < |p.payload| <= mtu && (StartBit(p) <==> offset == 0) && (EndBit(p) <==> |body| - offset <= mtu - 2);
    if offset + size < |body| {
      FragmentShape(header, body, mtu, offset + size, last);
      hide FragmentAt, StartBit, EndBit, Shaped;
      ShapedPrepend(p, rest, mtu, offset == 0, last);
    } else {
      assert Fragments(header, body, mtu, offset, last) == [p];
    }
  }

  /** A unit that is cut gives at least two fragments: S on the first, E on the last. */
  lemma CutInTwo(nalu: Nalu, mtu: nat, last: bool)
    requires |nalu| > mtu > 2
    ensures var ps := Packetize(nalu, mtu, last);
            |ps| >= 2 && Shaped(ps, mtu, true, last)
  {
    hide Fragments;
    FragmentShape(nalu[0], nalu[1..], mtu, 0, last);
  }

  lemma {:induction false} MarkerOnLast(nalus: seq<Nalu>, mtu: nat)
    requires nalus != [] && mtu > 0 && forall k :: 0 <= k < |nalus| ==> nalus[k] != []
    ensures var ps := PacketizeAll(nalus, mtu);
            |ps| > 0 && forall i :: 0 <= i < |ps| ==> (ps[i].marker <==> i == |ps| - 1)
  {
    hide Fragments;
    var n := nalus[0];
    if |n| > mtu > 2 { CutInTwo(n, mtu, |nalus| == 1); }
    if |nalus| > 1 { MarkerOnLast(nalus[1..], mtu); } else { assert PacketizeAll(nalus[1..], mtu) == []; }
  }
}
