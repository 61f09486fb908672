/** format/rtp/base_muxer.go and base_demuxer.go: RTP packets inside interleaved frames, written to and
    read from one byte stream. */
module Rtp {
  import opened Bytes

  const RTSP_HEADER: nat := 4
  const RTP_HEADER: nat := 12
  const SENDER_REPORT: nat := 200
  const RECEIVER_REPORT: nat := 201
  const SECOND: nat := 1_000_000_000

  datatype Sender = Sender(payloadType: byte, clockRate: nat, ssrc: nat, sequence: nat, channel: byte)

  /** A presentation time in clock ticks, computed in 64 bits and cut to 32. */
  function RtpTicks(ts: int, clockRate: nat): (t: nat)
    ensures t < 0x1_0000_0000
  {
    (ts % 0x1_0000_0000_0000_0000 * clockRate) % 0x1_0000_0000_0000_0000 / SECOND % 0x1_0000_0000
  }

  /** The second byte of the RTP header: the marker bit over the payload type. */
  function TypeByte(s: Sender, marker: bool): byte {
    if marker && s.payloadType < 128 then (s.payloadType as int + 128) as byte else s.payloadType
  }

  /** The interleaved frame: '$', channel, length; the RTP header without lists; the payload. */
  function Frame(s: Sender, payload: seq<byte>, ts: int, marker: bool): (f: seq<byte>)
    ensures |f| == RTSP_HEADER + RTP_HEADER + |payload|
  {
    [0x24, s.channel] + U16(RTP_HEADER + |payload|) + [0x80, TypeByte(s, marker)] + U16(s.sequence) +
    U32(RtpTicks(ts, s.clockRate)) + U32(s.ssrc) + payload
  }

  datatype Received =
    | ShortRead
    | BadSize(rest: seq<byte>)
    | Control(rest: seq<byte>)
    | OutOfRange(rest: seq<byte>)
    | Payload(data: seq<byte>, timestamp: nat, rest: seq<byte>)

  /** Where the payload of a frame begins and ends. The offset does not count the frame header
      until the end, although the bounds it is compared with do. */
  function Bounds(data: seq<byte>): (nat, int)
    requires |data| >= RTSP_HEADER + RTP_HEADER
  {
    var first := data[4] as int;
    var csrc := 4 * (first % 16);
    var end := |data|;
    var offset := if end - RTP_HEADER >= csrc then RTP_HEADER + csrc else RTP_HEADER;
    if first / 16 % 2 == 1 && end < RTSP_HEADER + offset + 4 then (offset, end) else
    var extended :=
      if first / 16 % 2 == 1 && end - offset >= 4 then
        var length := 4 * Get16(data, RTSP_HEADER + offset + 2);
        if end - (offset + 4) >= length then offset + 4 + length else offset + 4
      else offset;
    var padding := data[end - 1] as int;
    var stop := if first / 32 % 2 == 1 && end - extended > 0 && end - extended >= padding then end - padding else end;
    (extended + RTSP_HEADER, stop)
  }

  function ReadFrame(b: seq<byte>): Received {
    if |b| < RTSP_HEADER then ShortRead else
    var length := Get16(b, 2);
    if length < RTP_HEADER then BadSize(b[RTSP_HEADER..])
    else if |b| < RTSP_HEADER + length then ShortRead else
    var data, rest := b[..RTSP_HEADER + length], b[RTSP_HEADER + length..];
    if data[5] as int == SENDER_REPORT || data[5] as int == RECEIVER_REPORT then Control(rest) else
    var (offset, end) := Bounds(data);
    if offset > end then OutOfRange(rest) else Payload(data[offset..end], Get32(data, 8), rest)
  }

  lemma FrameBytes(s: Sender, payload: seq<byte>, ts: int, marker: bool)
    ensures var f := Frame(s, payload, ts, marker);
            && f[2..4] == U16(RTP_HEADER + |payload|) && f[4] == 0x80 && f[5] == TypeByte(s, marker)
            && f[8..12] == U32(RtpTicks(ts, s.clockRate)) && f[16..] == payload
  {
    hide U16, U32, RtpTicks;
    var f := Frame(s, payload, ts, marker);
    assert f == ([0x24, s.channel] + U16(RTP_HEADER + |payload|)) +
           ([0x80, TypeByte(s, marker)] + U16(s.sequence) + U32(RtpTicks(ts, s.clockRate)) + U32(s.ssrc) + payload);
  }

  /** What lets the receiver find the payload again. */
  predicate Framable(s: Sender, payload: seq<byte>, marker: bool) {
    RTP_HEADER + |payload| < 0x1_0000 && TypeByte(s, marker) as int != SENDER_REPORT &&
      TypeByte(s, marker) as int != RECEIVER_REPORT
  }

  /** Main result: a frame is read back, payload and timestamp, with the stream behind it left,
      exactly when the length fits in 16 bits and the type byte is not taken for RTCP. */
  lemma FrameRoundTrip(s: Sender, payload: seq<byte>, ts: int, marker: bool, rest: seq<byte>)
    ensures ReadFrame(Frame(s, payload, ts, marker) + rest) == Payload(payload, RtpTicks(ts, s.clockRate), rest) <==>
            Framable(s, payload, marker)
  {
    hide U16, U32, RtpTicks, Get32, TypeByte, Frame;
    var f := Frame(s, payload, ts, marker);
    var b := f + rest;
    FrameBytes(s, payload, ts, marker);
    assert b[2..4] == f[2..4] && b[4] == 0x80 && b[5] == f[5];
    LengthField(b, RTP_HEADER + |payload|);
    if RTP_HEADER + |payload| < 0x1_0000 {
      assert b[..|f|] == f && b[|f|..] == rest;
      Get32U32(f, 8, RtpTicks(ts, s.clockRate));
      assert f[16..|f|] == payload;
    }
  }

  lemma LengthField(b: seq<byte>, n: nat)
    requires |b| >= 4 && b[2..4] == U16(n)
    ensures Get16(b, 2) == n % 0x1_0000
  {
    assert b[2] == b[2..4][0] && b[3] == b[2..4][1];
    assert n % 0x1_0000 == n / 0x100 % 0x100 * 0x100 + n % 0x100;
  }

  // ----- A run of packets -----

  datatype Packet = Packet(payload: seq<byte>, marker: bool)

  /** The sequence number counts in 16 bits. */
  function Next(s: Sender): Sender {
    s.(sequence := (s.sequence + 1) % 0x1_0000)
  }

  function Stream(s: Sender, ps: seq<Packet>, ts: int): seq<byte>
    decreases |ps|
  {
    if ps == [] then [] else Frame(s, ps[0].payload, ts, ps[0].marker) + Stream(Next(s), ps[1..], ts)
  }

  predicate AllFramable(s: Sender, ps: seq<Packet>) {
    forall i :: 0 <= i < |ps| ==> Framable(s, ps[i].payload, ps[i].marker)
  }

  /** The payloads at the front of a stream, with their timestamp, n of them. */
  function Payloads(b: seq<byte>, n: nat): (seq<(seq<byte>, nat)>, seq<byte>) {
    if n == 0 then ([], b) else
    match ReadFrame(b)
    case Payload(data, timestamp, rest) =>
      var (tail, left) := Payloads(rest, n - 1);
      ([(data, timestamp)] + tail, left)
    case _ => ([], b)
  }

  function Stamped(ps: seq<Packet>, timestamp: nat): seq<(seq<byte>, nat)> {
    seq(|ps|, i requires 0 <= i < |ps| => (ps[i].payload, timestamp))
  }

  lemma {:induction false} StreamRoundTrip(s: Sender, ps: seq<Packet>, ts: int, rest: seq<byte>)
    requires AllFramable(s, ps)
    ensures Payloads(Stream(s, ps, ts) + rest, |ps|) == (Stamped(ps, RtpTicks(ts, s.clockRate)), rest)
    decreases |ps|
  {
    hide Frame, ReadFrame, RtpTicks;
    if ps == [] {
      assert Stream(s, ps, ts) + rest == rest;
    } else {
      var f := Frame(s, ps[0].payload, ts, ps[0].marker);
      assert Stream(s, ps, ts) + rest == f + (Stream(Next(s), ps[1..], ts) + rest);
      FrameRoundTrip(s, ps[0].payload, ts, ps[0].marker, Stream(Next(s), ps[1..], ts) + rest);
      StreamRoundTrip(Next(s), ps[1..], ts, rest);
      var t := RtpTicks(ts, s.clockRate);
      assert Stamped(ps, t) == [(ps[0].payload, t)] + Stamped(ps[1..], t);
    }
  }

  // ----- Timestamps -----

  /** What the video demuxers make of a timestamp: 90 ticks a millisecond. */
  function TimeOf(timestamp: nat): nat {
    timestamp * 1_000_000 / 90
  }

  /** At 90 kHz a time below 2^32 ticks comes back at most 11112 ns early. */
  lemma TimeLoss(ts: nat)
    requires ts * 90_000 / SECOND < 0x1_0000_0000
    ensures 0 <= ts - TimeOf(RtpTicks(ts, 90_000)) <= 11_112
  {
    var ticks := ts * 90_000 / SECOND;
    assert ts * 90_000 < 0x1_0000_0000_0000_0000 by { assert ts * 90_000 < (ticks + 1) * SECOND; }
    assert ts < 0x1_0000_0000_0000_0000;
    assert RtpTicks(ts, 90_000) == ticks;
    assert ticks * SECOND <= ts * 90_000 < (ticks + 1) * SECOND;
    assert TimeOf(ticks) * 90 <= ticks * 1_000_000 < TimeOf(ticks) * 90 + 90;
  }

  // ----- The objects -----

  /** Writes frames into one reused buffer. */
  class BaseMuxer {
    const payloadType: byte
    const clockRate: nat
    const ssrc: nat
    const channel: byte
    var sequence: nat
    var buf: array<byte>
    var written: seq<byte>

    constructor (s: Sender)
      ensures View() == s && written == [] && fresh(buf)
    {
      payloadType, clockRate, ssrc, channel, sequence := s.payloadType, s.clockRate, s.ssrc, s.channel, s.sequence;
      buf := new byte[1500](_ => 0);
      written := [];
    }

    function View(): Sender
      reads this
    {
      Sender(payloadType, clockRate, ssrc, sequence, channel)
    }

    method WriteRTP(payload: seq<byte>, ts: int, marker: bool)
      modifies this, buf
      ensures written == old(written) + Frame(old(View()), payload, ts, marker)
      ensures View() == Next(old(View())) && (buf == old(buf) || fresh(buf))
    {
      hide RtpTicks, U16, U32;
      ghost var s := View();
      var size := RTSP_HEADER + RTP_HEADER + |payload|;
      if buf.Length < size { buf := new byte[size](_ => 0); }
      buf[0], buf[1] := 0x24, channel;
      assert buf[..2] == [0x24, channel];
      Put(buf, 2, U16(RTP_HEADER + |payload|));
      Put(buf, 4, [0x80, TypeByte(View(), marker)]);
      Put(buf, 6, U16(sequence));
      Put(buf, 8, U32(RtpTicks(ts, clockRate)));
      Put(buf, 12, U32(ssrc));
      Put(buf, 16, payload);
      written := written + buf[..size];
      sequence := (sequence + 1) % 0x1_0000;
    }

    /** Copies b into buf at pos; what stands before it stays. */
    static method Put(buf: array<byte>, pos: nat, b: seq<byte>)
      requires pos + |b| <= buf.Length
      modifies buf
      ensures buf[..pos + |b|] == old(buf[..pos]) + b
    {
      ghost var before := buf[..pos];
      var k := 0;
      while k < |b|
        invariant 0 <= k <= |b| && buf[..pos + k] == before + b[..k]
      {
        buf[pos + k] := b[k];
        assert buf[..pos + k + 1] == buf[..pos + k] + [b[k]];
        k := k + 1;
      }
    }
  }
}
