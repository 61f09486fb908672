/** format/rtp/h265_muxer.go and h265.go: H.265 access units cut into RTP payloads (RFC 7798) and put
    together again, one packet per picture. */
module RtpH265 {
  import opened Bytes
  import opened Hevc
  import opened Nal
  import opened Rtp
  import opened Wrappers

  const AGGREGATION: int := 48
  const FU: int := 49

  // ----- Sending -----

  function Units(key: bool, vps: Nalu, sps: Nalu, pps: Nalu, data: seq<byte>): seq<Nalu> {
    if data == [] then [] else
    var nalus := Split(data).0;
    if nalus != [] && key && vps != [] && sps != [] && pps != [] then [vps, sps, pps] + nalus else nalus
  }

  /** F bit and the high bit of the layer id stay, the type becomes that of a fragment. */
  function Indicator(header: byte): byte {
    (header as int / 128 * 128 + FU * 2 + header as int % 2) as byte
  }

  function FuHeader(header: byte, start: bool, end: bool): byte {
    (header as int / 2 % 64 + (if start then 128 else 0) + if end then 64 else 0) as byte
  }

  function FragmentSize(body: seq<byte>, mtu: nat, offset: nat): nat
    requires offset <= |body| && mtu > 3
  {
    if |body| - offset < mtu - 3 then |body| - offset else mtu - 3
  }

  function FragmentAt(h0: byte, h1: byte, body: seq<byte>, mtu: nat, offset: nat, last: bool): Packet
    requires offset < |body| && mtu > 3
  {
    var size := FragmentSize(body, mtu, offset);
    var end := |body| - offset <= mtu - 3;
    Packet([Indicator(h0), h1, FuHeader(h0, offset == 0, end)] + body[offset..offset + size], last && end)
  }

  function Fragments(h0: byte, h1: byte, body: seq<byte>, mtu: nat, offset: nat, last: bool): seq<Packet>
    requires offset <= |body| && mtu > 3
    decreases |body| - offset
  {
    if offset == |body| then [] else
    [FragmentAt(h0, h1, body, mtu, offset, last)] +
      Fragments(h0, h1, body, mtu, offset + FragmentSize(body, mtu, offset), last)
  }

  function Packetize(nalu: Nalu, mtu: nat, last: bool): seq<Packet> {
    if |nalu| <= mtu then [Packet(nalu, last)]
    else if |nalu| < 3 then []
    else if mtu <= 3 then [Packet(nalu, last)]
    else Fragments(nalu[0], nalu[1], nalu[2..], mtu, 0, last)
  }

  function PacketizeAll(nalus: seq<Nalu>, mtu: nat): seq<Packet> {
    if nalus == [] then [] else Packetize(nalus[0], mtu, |nalus| == 1) + PacketizeAll(nalus[1..], mtu)
  }

  // ----- Receiving -----

  datatype Emitted = Emitted(data: seq<byte>, key: bool, timestamp: nat)

  /** sliced is the picture being put together. */
  datatype Demuxer = Demuxer(vps: Nalu, sps: Nalu, pps: Nalu, buffer: seq<byte>, bufferHasKey: bool,
                             sliced: Option<Emitted>, out: seq<Emitted>)

  type Parser = (Nalu, Nalu, Nalu) -> bool

  /** A new picture begins, and the one so far is ready. */
  function AddPacket(d: Demuxer, nalu: Nalu, key: bool, timestamp: nat): Demuxer {
    d.(sliced := Some(Emitted(Prefixed(nalu), key, timestamp)),
       out := d.out + if d.sliced.Some? then [d.sliced.value] else [])
  }

  function AppendToPacket(d: Demuxer, nalu: Nalu, key: bool): Demuxer {
    match d.sliced
    case None => d
    case Some(p) => d.(sliced := Some(p.(data := p.data + Prefixed(nalu), key := p.key || key)))
  }

  /** first_slice_segment_in_pic_flag is the top bit behind the two header bytes. */
  predicate FirstSlice(nalu: Nalu) {
    |nalu| > 2 && nalu[2] >= 128
  }

  function Place(d: Demuxer, nalu: Nalu, addKey: bool, appendKey: bool, timestamp: nat): Demuxer {
    if FirstSlice(nalu) then AddPacket(d, nalu, addKey, timestamp) else AppendToPacket(d, nalu, appendKey)
  }

  function Fragment(d: Demuxer, nalu: Nalu, timestamp: nat): Demuxer {
    if |nalu| < 3 then d else
    var header, t := nalu[2] as int, nalu[2] as int % 64;
    var keyed := d.(bufferHasKey := d.bufferHasKey || IsKey(t));
    if header >= 128 then
      keyed.(buffer := [(nalu[0] as int / 128 * 128 + t * 2 + nalu[0] as int % 2) as byte, nalu[1]] + nalu[3..])
    else
      var grown := keyed.(buffer := keyed.buffer + nalu[3..]);
      if header / 64 % 2 != 1 then grown else
      Place(grown, grown.buffer, grown.bufferHasKey, grown.bufferHasKey, timestamp).(bufferHasKey := false)
  }

  /** false: the new parameter sets could not be parsed. */
  function Process(d: Demuxer, nalu: Nalu, timestamp: nat, parse: Parser): (Demuxer, bool) {
    if nalu == [] then (d, true) else
    var t := TypeOf(nalu);
    if t == VPS then (d.(vps := nalu), nalu == d.vps || parse(nalu, d.sps, d.pps))
    else if t == SPS then (d.(sps := nalu), nalu == d.sps || parse(d.vps, nalu, d.pps))
    else if t == PPS then (d.(pps := nalu), nalu == d.pps || parse(d.vps, d.sps, nalu))
    else if t == PREFIX_SEI || t == AGGREGATION then (d, true)
    else if t == FU then (Fragment(d, nalu, timestamp), true)
    else (Place(d, nalu, IsKey(t), false, timestamp), true)
  }

  /** All units are processed; the last one that is a parameter set decides about the error. */
  function ProcessAll(d: Demuxer, nalus: seq<Nalu>, ok: bool, timestamp: nat, parse: Parser): (Demuxer, bool)
    decreases |nalus|
  {
    if nalus == [] then (d, ok) else
    var (d', ok') := Process(d, nalus[0], timestamp, parse);
    var set_ := nalus[0] != [] && VPS <= TypeOf(nalus[0]) <= PPS;
    ProcessAll(d', nalus[1..], if set_ then ok' else ok, timestamp, parse)
  }

  function Feed(d: Demuxer, payload: seq<byte>, timestamp: nat, parse: Parser): (Demuxer, bool) {
    var nalus := Split(payload).0;
    if nalus == [] || nalus[0] == [] then (d, false) else ProcessAll(d, nalus, true, timestamp, parse)
  }

  function FeedAll(d: Demuxer, ps: seq<Packet>, timestamp: nat, parse: Parser): (Demuxer, bool)
    decreases |ps|
  {
    if ps == [] then (d, true) else
    var (d', ok) := Feed(d, ps[0].payload, timestamp, parse);
    var (end, allOk) := FeedAll(d', ps[1..], timestamp, parse);
    (end, ok && allOk)
  }

  lemma {:induction false} FeedAppend(d: Demuxer, a: seq<Packet>, b: seq<Packet>, timestamp: nat, parse: Parser)
    ensures var (mid, ok) := FeedAll(d, a, timestamp, parse);
            var (end, ok') := FeedAll(mid, b, timestamp, parse);
            FeedAll(d, a + b, timestamp, parse) == (end, ok && ok')
    decreases |a|
  {
    hide Feed;
    if a == [] {
      assert a + b == b;
    } else {
      assert (a + b)[1..] == a[1..] + b && (a + b)[0] == a[0];
      FeedAppend(Feed(d, a[0].payload, timestamp, parse).0, a[1..], b, timestamp, parse);
    }
  }

  // ----- One unit -----

  /** A header whose two bytes are not both zero keeps a payload of up to 65535 bytes whole. */
  lemma FeedWhole(d: Demuxer, payload: seq<byte>, timestamp: nat, parse: Parser)
    requires 2 <= |payload| < 0x1_0000 && (payload[0] > 0 || payload[1] > 0)
    ensures Feed(d, payload, timestamp, parse) == Process(d, payload, timestamp, parse)
  {
    hide Process, Split;
    if |payload| >= 4 { assert Get32(payload, 0) >= 0x1_0000 && Get24(payload, 0) >= 0x100; }
    SplitWhole(payload);
    OneProcessed(d, payload, timestamp, parse);
  }

  lemma NoSetNoError(d: Demuxer, nalu: Nalu, timestamp: nat, parse: Parser)
    requires nalu != [] && !(VPS <= TypeOf(nalu) <= PPS)
    ensures Process(d, nalu, timestamp, parse).1
  {
    hide Fragment, Place;
  }

  lemma OneProcessed(d: Demuxer, payload: seq<byte>, timestamp: nat, parse: Parser)
    requires payload != []
    ensures ProcessAll(d, [payload], true, timestamp, parse) == Process(d, payload, timestamp, parse)
  {
    hide Process;
    if !(VPS <= TypeOf(payload) <= PPS) { NoSetNoError(d, payload, timestamp, parse); }
    assert [payload][1..] == [];
    var (d', ok) := Process(d, payload, timestamp, parse);
    assert ProcessAll(d', [], ok, timestamp, parse) == (d', ok);
  }

  predicate Gathered(d: Demuxer, h0: byte, h1: byte, body: seq<byte>, offset: nat)
    requires offset <= |body|
  {
    if offset > 0 then d.buffer == [h0, h1] + body[..offset] && d.bufferHasKey == IsKey(h0 as int / 2 % 64)
      else !d.bufferHasKey
  }

  lemma FragmentBits(header: byte, start: bool, end: bool)
    ensures var h := FuHeader(header, start, end) as int;
            (h >= 128 <==> start) && (h / 64 % 2 == 1 <==> end) && h % 64 == header as int / 2 % 64
    ensures var i := Indicator(header) as int;
            i / 128 * 128 + header as int / 2 % 64 * 2 + i % 2 == header as int && i / 2 % 64 == FU && i > 0
  {
  }

  /** The whole unit has come. */
  function Complete(d: Demuxer, nalu: Nalu, timestamp: nat): Demuxer
    requires nalu != []
  {
    var key := IsKey(TypeOf(nalu));
    Place(d.(buffer := nalu, bufferHasKey := key), nalu, key, key, timestamp).(bufferHasKey := false)
  }

  lemma FeedFragment(d: Demuxer, h0: byte, h1: byte, body: seq<byte>, mtu: nat, offset: nat, last: bool, timestamp: nat,
                     parse: Parser)
    requires offset < |body| && 3 < mtu < 0x1_0000 && Gathered(d, h0, h1, body, offset)
    requires offset == 0 ==> |body| > mtu - 3
    ensures var next := offset + FragmentSize(body, mtu, offset);
            var (d', ok) := Feed(d, FragmentAt(h0, h1, body, mtu, offset, last).payload, timestamp, parse);
            var whole := [h0, h1] + body[..next];
            ok && d' == if next < |body| then d.(buffer := whole, bufferHasKey := IsKey(h0 as int / 2 % 64))
              else Complete(d, whole, timestamp)
  {
    hide Indicator, FuHeader, Feed, Place;
    var size := FragmentSize(body, mtu, offset);
    var end := |body| - offset <= mtu - 3;
    var payload := FragmentAt(h0, h1, body, mtu, offset, last).payload;
    FragmentBits(h0, offset == 0, end);
    assert payload[0] == Indicator(h0) && payload[1] == h1 && payload[2] == FuHeader(h0, offset == 0, end);
    assert payload[3..] == body[offset..offset + size];
    FeedWhole(d, payload, timestamp, parse);
    assert Process(d, payload, timestamp, parse) == (Fragment(d, payload, timestamp), true);
    assert body[..offset] + body[offset..offset + size] == body[..offset + size];
    if offset == 0 {
      assert [h0, h1] + payload[3..] == [h0, h1] + body[..size];
    } else {
      assert ([h0, h1] + body[..offset]) + payload[3..] == [h0, h1] + body[..offset + size];
    }
  }

  lemma {:induction false} FeedFragments(d: Demuxer, h0: byte, h1: byte, body: seq<byte>, mtu: nat, offset: nat,
                                         last: bool, timestamp: nat, parse: Parser)
    requires offset < |body| && 3 < mtu < 0x1_0000 && Gathered(d, h0, h1, body, offset)
    requires offset == 0 ==> |body| > mtu - 3
    ensures FeedAll(d, Fragments(h0, h1, body, mtu, offset, last), timestamp, parse) ==
              (Complete(d, [h0, h1] + body, timestamp), true)
    decreases |body| - offset
  {
    hide Feed, FragmentAt, Place;
    var ps, next := Fragments(h0, h1, body, mtu, offset, last), offset + FragmentSize(body, mtu, offset);
    FeedFragment(d, h0, h1, body, mtu, offset, last, timestamp, parse);
    var d' := Feed(d, ps[0].payload, timestamp, parse).0;
    assert ps[1..] == Fragments(h0, h1, body, mtu, next, last);
    if next < |body| {
      FeedFragments(d', h0, h1, body, mtu, next, last, timestamp, parse);
    } else {
      assert body[..next] == body;
      assert FeedAll(d', [], timestamp, parse) == (d', true);
    }
  }

  predicate Unfragmented(nalu: Nalu, mtu: nat) {
    |nalu| <= mtu || mtu <= 3
  }

  /** Too long for the splitter is only a unit sent whole for want of room for fragments. */
  predicate Receivable(nalu: Nalu, mtu: nat) {
    |nalu| < 0x1_0000 || mtu > 3
  }

  /** A unit with a proper header that is neither a parameter set nor part of the packet format. */
  ghost predicate Plain(nalu: Nalu, mtu: nat) {
    && 2 <= |nalu| && Receivable(nalu, mtu) && nalu[1] > 0
    && !(VPS <= TypeOf(nalu) <= PPS) && TypeOf(nalu) != PREFIX_SEI && TypeOf(nalu) != AGGREGATION && TypeOf(nalu) != FU
  }

  /** What a unit does to the picture being put together, fragmented or not. */
  lemma FeedUnit(d: Demuxer, nalu: Nalu, mtu: nat, last: bool, timestamp: nat, parse: Parser)
    requires Plain(nalu, mtu) && 1 < mtu < 0x1_0000 && !d.bufferHasKey
    ensures var (d', ok) := FeedAll(d, Packetize(nalu, mtu, last), timestamp, parse);
            var key := IsKey(TypeOf(nalu));
            ok && d' == Place(d, nalu, key, key && !Unfragmented(nalu, mtu), timestamp).(buffer := d'.buffer)
  {
    hide Prefixed;
    if Unfragmented(nalu, mtu) {
      FeedSingle(d, nalu, last, timestamp, parse);
    } else {
      hide Feed, FeedAll;
      FeedFragments(d, nalu[0], nalu[1], nalu[2..], mtu, 0, last, timestamp, parse);
      assert [nalu[0], nalu[1]] + nalu[2..] == nalu;
    }
  }

  lemma FeedSingle(d: Demuxer, nalu: Nalu, last: bool, timestamp: nat, parse: Parser)
    requires 2 <= |nalu| < 0x1_0000 && nalu[1] > 0
    ensures FeedAll(d, [Packet(nalu, last)], timestamp, parse) == Process(d, nalu, timestamp, parse)
  {
    hide Feed, Process;
    FeedWhole(d, nalu, timestamp, parse);
    var d' := Feed(d, nalu, timestamp, parse).0;
    assert [Packet(nalu, last)][1..] == [] && FeedAll(d', [], timestamp, parse) == (d', true);
  }

  // ----- Whole pictures -----

  /** The units of one picture: the first slice alone carries the flag. */
  ghost predicate Picture(nalus: seq<Nalu>, mtu: nat) {
    && nalus != [] && Countable(nalus) && FirstSlice(nalus[0])
    && (forall i :: 0 <= i < |nalus| ==> Plain(nalus[i], mtu))
    && forall i :: 0 < i < |nalus| ==> !FirstSlice(nalus[i])
  }

  /** The keyframe flag a picture ends up with: its first unit's type counts, and that of every
      fragmented one. */
  function KeyAfter(key: bool, nalus: seq<Nalu>, mtu: nat): bool
    decreases |nalus|
  {
    if nalus == [] then key
    else KeyAfter(key || (nalus[0] != [] && IsKey(TypeOf(nalus[0])) && !Unfragmented(nalus[0], mtu)), nalus[1..], mtu)
  }

  /** Later units of a picture join the ones before. */
  lemma {:induction false} FeedRest(d: Demuxer, rest: seq<Nalu>, mtu: nat, timestamp: nat, parse: Parser)
    requires d.sliced.Some? && !d.bufferHasKey && 1 < mtu < 0x1_0000
    requires forall i :: 0 <= i < |rest| ==> Plain(rest[i], mtu) && !FirstSlice(rest[i])
    ensures var (d', ok) := FeedAll(d, PacketizeAll(rest, mtu), timestamp, parse);
            var p := d.sliced.value;
            ok && d' == d.(buffer := d'.buffer,
                           sliced := Some(p.(data := p.data + Join(rest), key := KeyAfter(p.key, rest, mtu))))
    decreases |rest|
  {
    hide Feed, Packetize, Plain, FirstSlice, Unfragmented, Prefixed;
    if rest == [] {
      assert d.sliced.value.data + [] == d.sliced.value.data;
    } else {
      var first, tail := Packetize(rest[0], mtu, |rest| == 1), PacketizeAll(rest[1..], mtu);
      PlainNotEmpty(rest[0], mtu);
      FeedUnit(d, rest[0], mtu, |rest| == 1, timestamp, parse);
      var d1 := FeedAll(d, first, timestamp, parse).0;
      FeedRest(d1, rest[1..], mtu, timestamp, parse);
      FeedAppend(d, first, tail, timestamp, parse);
      assert (d.sliced.value.data + Prefixed(rest[0])) + Join(rest[1..]) ==
             d.sliced.value.data + (Prefixed(rest[0]) + Join(rest[1..]));
    }
  }

  lemma PlainNotEmpty(nalu: Nalu, mtu: nat)
    requires Plain(nalu, mtu)
    ensures nalu != []
  {
  }

  function Ready(d: Demuxer): seq<Emitted> {
    d.out + if d.sliced.Some? then [d.sliced.value] else []
  }

  function Whole(nalus: seq<Nalu>, mtu: nat, timestamp: nat): Emitted
    requires nalus != [] && nalus[0] != []
  {
    Emitted(Join(nalus), KeyAfter(IsKey(TypeOf(nalus[0])), nalus[1..], mtu), timestamp)
  }

  /** A picture makes the one before it ready and is itself put together, unit by unit. */
  lemma FeedPicture(d: Demuxer, nalus: seq<Nalu>, mtu: nat, timestamp: nat, parse: Parser)
    requires Picture(nalus, mtu) && !d.bufferHasKey && 1 < mtu < 0x1_0000
    ensures nalus[0] != []
    ensures var (d', ok) := FeedAll(d, PacketizeAll(nalus, mtu), timestamp, parse);
            ok && d' == d.(buffer := d'.buffer, out := Ready(d), sliced := Some(Whole(nalus, mtu, timestamp)))
  {
    hide Feed, Packetize, Plain, FeedAll, Unfragmented, Prefixed;
    PlainNotEmpty(nalus[0], mtu);
    FeedUnit(d, nalus[0], mtu, |nalus| == 1, timestamp, parse);
    var d1 := FeedAll(d, Packetize(nalus[0], mtu, |nalus| == 1), timestamp, parse).0;
    FeedRest(d1, nalus[1..], mtu, timestamp, parse);
    FeedAppend(d, Packetize(nalus[0], mtu, |nalus| == 1), PacketizeAll(nalus[1..], mtu), timestamp, parse);
  }

  // ----- Parameter sets in front of a keyframe -----

  /** Bytes gathered so far. */
  function Weight(es: seq<Emitted>): nat {
    if es == [] then 0 else Weight(es[..|es| - 1]) + |es[|es| - 1].data|
  }

  lemma WeightAppend(es: seq<Emitted>, e: Emitted)
    ensures Weight(es + [e]) == Weight(es) + |e.data|
  {
    assert (es + [e])[..|es|] == es;
  }

  ghost predicate SetOk(nalu: Nalu, t: int, mtu: nat) {
    2 <= |nalu| && Receivable(nalu, mtu) && nalu[1] > 0 && TypeOf(nalu) == t && VPS <= t <= PPS
  }

  predicate Known(d: Demuxer, nalu: Nalu)
    requires nalu != []
  {
    var t := TypeOf(nalu);
    if t == VPS then nalu == d.vps else if t == SPS then nalu == d.sps else nalu == d.pps
  }

  /** A known set that is one packet leaves no trace; a fragmented one ends up in a picture. */
  lemma FeedSet(d: Demuxer, nalu: Nalu, mtu: nat, timestamp: nat, parse: Parser)
    requires 2 <= |nalu| && Receivable(nalu, mtu) && VPS <= TypeOf(nalu) <= PPS && nalu[1] > 0
    requires Known(d, nalu) && !d.bufferHasKey && 1 < mtu < 0x1_0000 && d.sliced.Some?
    ensures var (d', ok) := FeedAll(d, Packetize(nalu, mtu, false), timestamp, parse);
            && ok && d'.sliced.Some? && !d'.bufferHasKey && d'.vps == d.vps && d'.sps == d.sps && d'.pps == d.pps
            && (if Unfragmented(nalu, mtu) then d' == d else Weight(Ready(d')) > Weight(Ready(d)))
  {
    if Unfragmented(nalu, mtu) {
      FeedSingle(d, nalu, false, timestamp, parse);
    } else {
      hide Feed, FeedAll, Weight, Prefixed, Ready;
      FeedFragments(d, nalu[0], nalu[1], nalu[2..], mtu, 0, false, timestamp, parse);
      assert [nalu[0], nalu[1]] + nalu[2..] == nalu;
      var key := IsKey(TypeOf(nalu));
      var begun := d.(buffer := nalu, bufferHasKey := key);
      SameReady(d, begun);
      PlaceWeighs(begun, nalu, key, key, timestamp);
      SameReady(Place(begun, nalu, key, key, timestamp), Complete(d, nalu, timestamp));
    }
  }

  lemma SameReady(d: Demuxer, e: Demuxer)
    requires d.out == e.out && d.sliced == e.sliced
    ensures Ready(d) == Ready(e)
  {
  }

  lemma PlaceWeighs(d: Demuxer, nalu: Nalu, addKey: bool, appendKey: bool, timestamp: nat)
    requires d.sliced.Some?
    ensures Weight(Ready(Place(d, nalu, addKey, appendKey, timestamp))) > Weight(Ready(d))
  {
    hide Weight, FirstSlice, Prefixed;
    var p, n := d.sliced.value, Prefixed(nalu);
    PrefixedLength(nalu);
    WeightAppend(d.out, p);
    WeightAppend(d.out + [p], Emitted(n, addKey, timestamp));
    WeightAppend(d.out, p.(data := p.data + n, key := p.key || appendKey));
  }

  lemma PrefixedLength(nalu: Nalu)
    ensures |Prefixed(nalu)| == 4 + |nalu|
  {
  }

  lemma FeedFirst(d: Demuxer, nalu: Nalu, rest: seq<Nalu>, mtu: nat, timestamp: nat, parse: Parser)
    requires rest != []
    ensures var (mid, ok) := FeedAll(d, Packetize(nalu, mtu, false), timestamp, parse);
            var (end, ok') := FeedAll(mid, PacketizeAll(rest, mtu), timestamp, parse);
            FeedAll(d, PacketizeAll([nalu] + rest, mtu), timestamp, parse) == (end, ok && ok')
  {
    hide Feed, Packetize;
    assert ([nalu] + rest)[1..] == rest;
    FeedAppend(d, Packetize(nalu, mtu, false), PacketizeAll(rest, mtu), timestamp, parse);
  }

  ghost predicate SetsOk(d: Demuxer, mtu: nat) {
    SetOk(d.vps, VPS, mtu) && SetOk(d.sps, SPS, mtu) && SetOk(d.pps, PPS, mtu)
  }

  predicate SetsUnfragmented(d: Demuxer, mtu: nat) {
    Unfragmented(d.vps, mtu) && Unfragmented(d.sps, mtu) && Unfragmented(d.pps, mtu)
  }

  /** The parameter sets before a keyframe: nothing is left behind exactly when none is cut. */
  lemma FeedSets(d: Demuxer, nalus: seq<Nalu>, mtu: nat, timestamp: nat, parse: Parser) returns (d3: Demuxer)
    requires nalus != [] && SetsOk(d, mtu) && !d.bufferHasKey && d.sliced.Some? && 1 < mtu < 0x1_0000
    ensures FeedAll(d, PacketizeAll([d.vps, d.sps, d.pps] + nalus, mtu), timestamp, parse) ==
              FeedAll(d3, PacketizeAll(nalus, mtu), timestamp, parse)
    ensures !d3.bufferHasKey && d3.sliced.Some?
    ensures if SetsUnfragmented(d, mtu) then d3 == d else Weight(Ready(d3)) > Weight(Ready(d))
  {
    hide Feed, FeedAll, Packetize, PacketizeAll, Unfragmented, Weight, Ready;
    assert [d.vps, d.sps, d.pps] + nalus == [d.vps] + ([d.sps] + ([d.pps] + nalus));
    FeedFirst(d, d.vps, [d.sps] + ([d.pps] + nalus), mtu, timestamp, parse);
    FeedSet(d, d.vps, mtu, timestamp, parse);
    var d1 := FeedAll(d, Packetize(d.vps, mtu, false), timestamp, parse).0;
    FeedFirst(d1, d.sps, [d.pps] + nalus, mtu, timestamp, parse);
    FeedSet(d1, d.sps, mtu, timestamp, parse);
    var d2 := FeedAll(d1, Packetize(d.sps, mtu, false), timestamp, parse).0;
    FeedFirst(d2, d.pps, nalus, mtu, timestamp, parse);
    FeedSet(d2, d.pps, mtu, timestamp, parse);
    d3 := FeedAll(d2, Packetize(d.pps, mtu, false), timestamp, parse).0;
  }

  /** Main result: after a picture was begun, the next one makes it ready as it is and is itself
      gathered byte for byte behind the lengths of its units, exactly when no parameter set had
      to be fragmented in front of it. */
  lemma PictureRoundTrip(d: Demuxer, key: bool, nalus: seq<Nalu>, mtu: nat, timestamp: nat, parse: Parser)
    requires Picture(nalus, mtu) && SetsOk(d, mtu) && !d.bufferHasKey && d.sliced.Some? && 1 < mtu < 0x1_0000
    ensures nalus[0] != []
    ensures var (d', ok) := FeedAll(d, PacketizeAll(Units(key, d.vps, d.sps, d.pps, Join(nalus)), mtu), timestamp,
                                    parse);
            && ok && !d'.bufferHasKey
            && ((d'.out == Ready(d) && d'.sliced == Some(Whole(nalus, mtu, timestamp))) <==>
                (key ==> SetsUnfragmented(d, mtu)))
  {
    hide FeedAll, PacketizeAll, Split, Dense, Unfragmented, Plain, FirstSlice, Whole, Weight;
    PictureUnits(d, key, nalus, mtu);
    FeedPicture(d, nalus, mtu, timestamp, parse);
    if key {
      var d3 := FeedSets(d, nalus, mtu, timestamp, parse);
      FeedPicture(d3, nalus, mtu, timestamp, parse);
    }
  }

  /** An input that does not come through: a video parameter set of 7 bytes, a keyframe of one
      slice behind another picture and an MTU of 6. */
  lemma LongSetShows(before: Emitted, parse: Parser, timestamp: nat)
    ensures var d := Demuxer([64, 1, 2, 3, 4, 5, 6], [66, 1, 2], [68, 1, 2], [], false, Some(before), []);
            var nalus := [[38, 1, 128]];
            var (d', ok) := FeedAll(d, PacketizeAll(Units(true, d.vps, d.sps, d.pps, Join(nalus)), 6), timestamp,
                                    parse);
            ok && (d'.out != [before] || d'.sliced != Some(Whole(nalus, 6, timestamp)))
  {
    hide FeedAll, PacketizeAll, Units, Join, Whole;
    var d := Demuxer([64, 1, 2, 3, 4, 5, 6], [66, 1, 2], [68, 1, 2], [], false, Some(before), []);
    PictureRoundTrip(d, true, [[38, 1, 128]], 6, timestamp, parse);
  }

  lemma PictureUnits(d: Demuxer, key: bool, nalus: seq<Nalu>, mtu: nat)
    requires Picture(nalus, mtu) && SetsOk(d, mtu)
    ensures Units(key, d.vps, d.sps, d.pps, Join(nalus)) == if key then [d.vps, d.sps, d.pps] + nalus else nalus
  {
    hide Split, Dense, FirstSlice;
    SplitJoin(nalus);
    DenseSame(nalus);
    JoinNotEmpty(nalus);
  }

  // ----- Sequences of pictures -----

  datatype AccessUnit = AccessUnit(key: bool, nalus: seq<Nalu>, timestamp: nat)

  function FeedUnits(d: Demuxer, aus: seq<AccessUnit>, mtu: nat, parse: Parser): (Demuxer, bool)
    decreases |aus|
  {
    if aus == [] then (d, true) else
    var au := aus[0];
    var (d', ok) := FeedAll(d, PacketizeAll(Units(au.key, d.vps, d.sps, d.pps, Join(au.nalus)), mtu), au.timestamp,
                            parse);
    var (end, allOk) := FeedUnits(d', aus[1..], mtu, parse);
    (end, ok && allOk)
  }

  function Wholes(aus: seq<AccessUnit>, mtu: nat): seq<Emitted> {
    if aus == [] then [] else
    [if aus[0].nalus != [] && aus[0].nalus[0] != [] then Whole(aus[0].nalus, mtu, aus[0].timestamp)
     else Emitted([], false, 0)] + Wholes(aus[1..], mtu)
  }

  /** Every picture of a sequence is emitted whole and in order once the next one begins; the last
      one is still being gathered. */
  lemma {:induction false} SequenceRoundTrip(d: Demuxer, aus: seq<AccessUnit>, mtu: nat, parse: Parser)
    requires aus != [] && SetsOk(d, mtu) && SetsUnfragmented(d, mtu) && !d.bufferHasKey && 1 < mtu < 0x1_0000
    requires forall i :: 0 <= i < |aus| ==> Picture(aus[i].nalus, mtu)
    ensures var (d', ok) := FeedUnits(d, aus, mtu, parse);
            ok && Ready(d') == Ready(d) + Wholes(aus, mtu) && d'.sliced.Some? &&
              d'.out == (Ready(d) + Wholes(aus, mtu))[..|Ready(d)| + |Wholes(aus, mtu)| - 1]
    decreases |aus|
  {
    hide FeedAll, PacketizeAll, Unfragmented, Plain, FirstSlice, Whole, Split, Countable, SetOk;
    var au := aus[0];
    OnePicture(d, au, mtu, parse);
    var d1 := FeedAll(d, PacketizeAll(Units(au.key, d.vps, d.sps, d.pps, Join(au.nalus)), mtu), au.timestamp, parse).0;
    var e := Whole(au.nalus, mtu, au.timestamp);
    assert Wholes(aus, mtu) == [e] + Wholes(aus[1..], mtu);
    if |aus| > 1 {
      SequenceRoundTrip(d1, aus[1..], mtu, parse);
      assert (Ready(d) + [e]) + Wholes(aus[1..], mtu) == Ready(d) + ([e] + Wholes(aus[1..], mtu));
    } else {
      assert Wholes(aus[1..], mtu) == [];
      assert FeedUnits(d1, aus[1..], mtu, parse) == (d1, true);
    }
  }

  lemma OnePicture(d: Demuxer, au: AccessUnit, mtu: nat, parse: Parser)
    requires SetsOk(d, mtu) && SetsUnfragmented(d, mtu) && !d.bufferHasKey && 1 < mtu < 0x1_0000 &&
               Picture(au.nalus, mtu)
    ensures au.nalus[0] != []
    ensures var (d', ok) := FeedAll(d, PacketizeAll(Units(au.key, d.vps, d.sps, d.pps, Join(au.nalus)), mtu),
                                    au.timestamp, parse);
            && ok && !d'.bufferHasKey && d'.vps == d.vps && d'.sps == d.sps && d'.pps == d.pps
            && d'.out == Ready(d) && d'.sliced == Some(Whole(au.nalus, mtu, au.timestamp))
  {
    hide FeedAll, PacketizeAll, Split, Dense, Unfragmented, Plain, FirstSlice, Whole;
    PictureUnits(d, au.key, au.nalus, mtu);
    FeedPicture(d, au.nalus, mtu, au.timestamp, parse);
    if au.key { SetsPass(d, au.nalus, mtu, au.timestamp, parse); }
  }

  /** Known sets in single packets change nothing, picture or none. */
  lemma SetsPass(d: Demuxer, nalus: seq<Nalu>, mtu: nat, timestamp: nat, parse: Parser)
    requires nalus != [] && SetsOk(d, mtu) && SetsUnfragmented(d, mtu) && 1 < mtu < 0x1_0000
    ensures FeedAll(d, PacketizeAll([d.vps, d.sps, d.pps] + nalus, mtu), timestamp, parse) ==
              FeedAll(d, PacketizeAll(nalus, mtu), timestamp, parse)
  {
    hide FeedAll, PacketizeAll;
    assert [d.vps, d.sps, d.pps] + nalus == [d.vps] + ([d.sps] + ([d.pps] + nalus));
    FeedFirst(d, d.vps, [d.sps] + ([d.pps] + nalus), mtu, timestamp, parse);
    FeedFirst(d, d.sps, [d.pps] + nalus, mtu, timestamp, parse);
    FeedFirst(d, d.pps, nalus, mtu, timestamp, parse);
    FeedSingle(d, d.vps, false, timestamp, parse);
    FeedSingle(d, d.sps, false, timestamp, parse);
    FeedSingle(d, d.pps, false, timestamp, parse);
  }

  // ----- The shape of the packets (section 4.4.3 of RFC 7798) -----

  predicate StartBit(p: Packet)
    requires |p.payload| >= 3
  {
    p.payload[2] as int >= 128
  }

  predicate EndBit(p: Packet)
    requires |p.payload| >= 3
  {
    p.payload[2] as int / 64 % 2 == 1
  }

  /** None longer than the MTU, S on the first alone if the unit starts there, E on the last alone,
      the marker where E is if the unit is the last one. */
  ghost predicate Shaped(ps: seq<Packet>, mtu: nat, atStart: bool, last: bool) {
    forall i :: 0 <= i < |ps| ==>
      3 < |ps[i].payload| <= mtu && (StartBit(ps[i]) <==> i == 0 && atStart) && (EndBit(ps[i]) <==> i == |ps| - 1) &&
      (ps[i].marker <==> last && i == |ps| - 1)
  }

  lemma ShapedPrepend(p: Packet, ps: seq<Packet>, mtu: nat, atStart: bool, last: bool)
    requires ps != [] && Shaped(ps, mtu, false, last)
    requires 3 < |p.payload| <= mtu && (StartBit(p) <==> atStart) && !EndBit(p) && !p.marker
    ensures Shaped([p] + ps, mtu, atStart, last)
  {
  }

  /** Fragments from offset on are shaped, and more than one if they do not fit one packet. */
  lemma {:induction false} FragmentShape(h0: byte, h1: byte, body: seq<byte>, mtu: nat, offset: nat, last: bool)
    requires offset < |body| && mtu > 3
    ensures var ps := Fragments(h0, h1, body, mtu, offset, last);
            && |ps| > 0 && (|ps| >= 2 <==> |body| - offset > mtu - 3)
            && Shaped(ps, mtu, offset == 0, last)
    decreases |body| - offset
  {
    var size := FragmentSize(body, mtu, offset);
    var p, rest := FragmentAt(h0, h1, body, mtu, offset, last), Fragments(h0, h1, body, mtu, offset + size, last);
    FragmentBits(h0, offset == 0, |body| - offset <= mtu - 3);
    hide FuHeader, Indicator;
    assert 3 < |p.payload| <= mtu && (StartBit(p) <==> offset == 0) && (EndBit(p) <==> |body| - offset <= mtu - 3);
    if offset + size < |body| {
      FragmentShape(h0, h1, body, mtu, offset + size, last);
      hide FragmentAt, StartBit, EndBit, Shaped;
      ShapedPrepend(p, rest, mtu, offset == 0, last);
    } else {
      assert Fragments(h0, h1, body, mtu, offset, last) == [p];
    }
  }

  /** A unit that is cut gives at least two fragments: S on the first, E on the last. */
  lemma CutInTwo(nalu: Nalu, mtu: nat, last: bool)
    requires |nalu| > mtu > 3
    ensures var ps := Packetize(nalu, mtu, last);
            |ps| >= 2 && Shaped(ps, mtu, true, last)
  {
    hide Fragments;
    FragmentShape(nalu[0], nalu[1], nalu[2..], mtu, 0, last);
  }
}
