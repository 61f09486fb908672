/** format/rtp: the H.264 and H.265 muxers with their fragmentation loops, and the reading of frames. */
module RtpMuxers {
  import opened Bytes
  import opened Nal
  import opened Rtp
  import opened RtpH264Stream
  import H264 = RtpH264
  import H265 = RtpH265

  /** One more packet behind those written. */
  lemma StreamNext(s: Sender, ps: seq<Packet>, p: Packet, ts: int)
    ensures Stream(s, ps + [p], ts) == Stream(s, ps, ts) + Frame(After(s, |ps|), p.payload, ts, p.marker)
    ensures After(s, |ps| + 1) == Next(After(s, |ps|))
  {
    hide Frame;
    StreamAppend(s, ps, [p], ts);
    AfterSame(s, |ps|);
    var t := After(s, |ps|);
    assert [p][1..] == [] && Stream(Next(t), [], ts) == [];
    assert Stream(t, [p], ts) == Frame(t, p.payload, ts, p.marker) + [];
  }

  /** The packets sent so far, kept beside the muxer that frames them. */
  class Sent {
    const base: BaseMuxer
    ghost var packets: seq<Packet>
    ghost const start: Sender
    ghost const before: seq<byte>
    ghost const ts: int

    constructor (base: BaseMuxer, ghost ts: int)
      ensures this.base == base && packets == [] && this.ts == ts && start == base.View() && before == base.written &&
                Valid()
    {
      this.base, this.ts, packets, start, before := base, ts, [], base.View(), base.written;
    }

    /** base has framed exactly the packets. */
    ghost predicate Valid()
      reads this, base
    {
      base.written == before + Stream(start, packets, ts) && base.View() == After(start, |packets|)
    }

    method Write(payload: seq<byte>, marker: bool, now: int)
      requires Valid() && now == ts
      modifies this, base, base.buf
      ensures Valid() && packets == old(packets) + [Packet(payload, marker)]
      ensures base.buf == old(base.buf) || fresh(base.buf)
    {
      hide Frame, Stream, After;
      StreamNext(start, packets, Packet(payload, marker), ts);
      base.WriteRTP(payload, now, marker);
      packets := packets + [Packet(payload, marker)];
    }
  }

  /** WritePacket of h264Muxer. */
  class H264Muxer {
    const base: BaseMuxer
    const mtu: nat
    const sps: Nalu
    const pps: Nalu

    constructor (base: BaseMuxer, mtu: int, sps: Nalu, pps: Nalu)
      ensures this.base == base && this.sps == sps && this.pps == pps && this.mtu == if mtu <= 0 then 1200 else mtu
    {
      this.base, this.mtu, this.sps, this.pps := base, if mtu <= 0 then 1200 else mtu, sps, pps;
    }

    method WritePacket(key: bool, data: seq<byte>, ts: int)
      modifies base, base.buf
      ensures var ps := H264.PacketizeAll(H264.Units(key, sps, pps, data), mtu);
              base.written == old(base.written) + Stream(old(base.View()), ps, ts) &&
              base.View() == After(old(base.View()), |ps|)
    {
      hide Stream, After, Split, H264.Packetize;
      var nalus: seq<Nalu> := [];
      if data != [] {
        var typ;
        nalus, typ := SplitNALUs(data);
        if nalus != [] && key && |sps| > 0 && |pps| > 0 { nalus := [sps, pps] + nalus; }
      }
      var sent := new Sent(base, ts);
      assert nalus[0..] == nalus;
      assert sent.packets + H264.PacketizeAll(nalus[0..], mtu) == H264.PacketizeAll(nalus, mtu);
      var i := 0;
      while i < |nalus|
        invariant 0 <= i <= |nalus| && sent.Valid() && fresh(sent) && sent.base == base
        invariant base.buf == old(base.buf) || fresh(base.buf)
        invariant sent.packets + H264.PacketizeAll(nalus[i..], mtu) == H264.PacketizeAll(nalus, mtu)
      {
        ghost var before, first := sent.packets, H264.Packetize(nalus[i], mtu, i == |nalus| - 1);
        assert nalus[i..][1..] == nalus[i + 1..];
        WriteUnit(sent, nalus[i], ts, i == |nalus| - 1);
        assert before + (first + H264.PacketizeAll(nalus[i + 1..], mtu)) ==
               sent.packets + H264.PacketizeAll(nalus[i + 1..], mtu);
        i := i + 1;
      }
      assert nalus[i..] == [] && sent.packets + [] == sent.packets;
    }

    method WriteUnit(sent: Sent, nalu: Nalu, ts: int, isLast: bool)
      requires sent.Valid() && sent.base == base && sent.ts == ts
      modifies sent, base, base.buf
      ensures sent.Valid() && sent.packets == old(sent.packets) + H264.Packetize(nalu, mtu, isLast)
      ensures base.buf == old(base.buf) || fresh(base.buf)
    {
      hide Stream, After, Frame;
      if |nalu| <= mtu {
        sent.Write(nalu, isLast, ts);
        return;
      }
      if |nalu| < 2 {
        assert sent.packets == old(sent.packets) + [];
        return;
      }
      if mtu <= 2 {
        sent.Write(nalu, isLast, ts);
        return;
      }
      var body := nalu[1..];
      var offset := 0;
      ghost var packets := sent.packets;
      while offset < |body|
        invariant offset <= |body| && sent.Valid() && (base.buf == old(base.buf) || fresh(base.buf))
        invariant sent.packets + H264.Fragments(nalu[0], body, mtu, offset, isLast) ==
                    packets + H264.Fragments(nalu[0], body, mtu, 0, isLast)
      {
        var remaining := |body| - offset;
        var fragSize := mtu - 2;
        if remaining < fragSize { fragSize := remaining; }
        var start, end := offset == 0, remaining <= mtu - 2;
        var fuBuf := [H264.Indicator(nalu[0]), H264.FuHeader(nalu[0], start, end)] + body[offset..offset + fragSize];
        ghost var before, rest := sent.packets, H264.Fragments(nalu[0], body, mtu, offset + fragSize, isLast);
        sent.Write(fuBuf, isLast && end, ts);
        assert before + ([Packet(fuBuf, isLast && end)] + rest) == sent.packets + rest;
        offset := offset + fragSize;
      }
      assert sent.packets + [] == sent.packets;
    }
  }

  /** WritePacket of h265Muxer. */
  class H265Muxer {
    const base: BaseMuxer
    const mtu: nat
    const vps: Nalu
    const sps: Nalu
    const pps: Nalu

    constructor (base: BaseMuxer, mtu: int, vps: Nalu, sps: Nalu, pps: Nalu)
      ensures this.base == base && this.vps == vps && this.sps == sps && this.pps == pps && this.mtu == if mtu <= 0
                then 1200 else mtu
    {
      this.base, this.mtu, this.vps, this.sps, this.pps := base, if mtu <= 0 then 1200 else mtu, vps, sps, pps;
    }

    method WritePacket(key: bool, data: seq<byte>, ts: int)
      modifies base, base.buf
      ensures var ps := H265.PacketizeAll(H265.Units(key, vps, sps, pps, data), mtu);
              base.written == old(base.written) + Stream(old(base.View()), ps, ts) &&
              base.View() == After(old(base.View()), |ps|)
    {
      hide Stream, After, Split, H265.Packetize;
      var nalus: seq<Nalu> := [];
      if data != [] {
        var typ;
        nalus, typ := SplitNALUs(data);
        if nalus != [] && key && |vps| > 0 && |sps| > 0 && |pps| > 0 { nalus := [vps, sps, pps] + nalus; }
      }
      var sent := new Sent(base, ts);
      assert nalus[0..] == nalus;
      assert sent.packets + H265.PacketizeAll(nalus[0..], mtu) == H265.PacketizeAll(nalus, mtu);
      var i := 0;
      while i < |nalus|
        invariant 0 <= i <= |nalus| && sent.Valid() && fresh(sent) && sent.base == base
        invariant base.buf == old(base.buf) || fresh(base.buf)
        invariant sent.packets + H265.PacketizeAll(nalus[i..], mtu) == H265.PacketizeAll(nalus, mtu)
      {
        ghost var before, first := sent.packets, H265.Packetize(nalus[i], mtu, i == |nalus| - 1);
        assert nalus[i..][1..] == nalus[i + 1..];
        WriteUnit(sent, nalus[i], ts, i == |nalus| - 1);
        assert before + (first + H265.PacketizeAll(nalus[i + 1..], mtu)) ==
               sent.packets + H265.PacketizeAll(nalus[i + 1..], mtu);
        i := i + 1;
      }
      assert nalus[i..] == [] && sent.packets + [] == sent.packets;
    }

    method WriteUnit(sent: Sent, nalu: Nalu, ts: int, isLast: bool)
      requires sent.Valid() && sent.base == base && sent.ts == ts
      modifies sent, base, base.buf
      ensures sent.Valid() && sent.packets == old(sent.packets) + H265.Packetize(nalu, mtu, isLast)
      ensures base.buf == old(base.buf) || fresh(base.buf)
    {
      hide Stream, After, Frame;
      if |nalu| <= mtu {
        sent.Write(nalu, isLast, ts);
        return;
      }
      if |nalu| < 3 {
        assert sent.packets == old(sent.packets) + [];
        return;
      }
      if mtu <= 3 {
        sent.Write(nalu, isLast, ts);
        return;
      }
      var body := nalu[2..];
      var offset := 0;
      ghost var packets := sent.packets;
      while offset < |body|
        invariant offset <= |body| && sent.Valid() && (base.buf == old(base.buf) || fresh(base.buf))
        invariant sent.packets + H265.Fragments(nalu[0], nalu[1], body, mtu, offset, isLast) ==
                  packets + H265.Fragments(nalu[0], nalu[1], body, mtu, 0, isLast)
      {
        var remaining := |body| - offset;
        var fragSize := mtu - 3;
        if remaining < fragSize { fragSize := remaining; }
        var start, end := offset == 0, remaining <= mtu - 3;
        var fuBuf := [H265.Indicator(nalu[0]), nalu[1], H265.FuHeader(nalu[0], start, end)] +
          body[offset..offset + fragSize];
        ghost var before, rest := sent.packets, H265.Fragments(nalu[0], nalu[1], body, mtu, offset + fragSize, isLast);
        sent.Write(fuBuf, isLast && end, ts);
        assert before + ([Packet(fuBuf, isLast && end)] + rest) == sent.packets + rest;
        offset := offset + fragSize;
      }
      assert sent.packets + [] == sent.packets;
    }
  }

  /** ReadPacket of baseDemuxer: one frame from the stream, and where its payload lies. */
  class BaseDemuxer {
    var rdr: seq<byte>
    var payload: seq<byte>
    var offset: nat
    var end: int
    var timestamp: nat

    constructor (rdr: seq<byte>)
      ensures this.rdr == rdr
    {
      this.rdr, payload, offset, end, timestamp := rdr, [], 0, 0, 0;
    }

    /** Skips the lists and the extension, and cuts the padding. */
    method FindPayload()
      requires |payload| >= RTSP_HEADER + RTP_HEADER
      modifies `offset, `end
      ensures (offset, end) == Bounds(payload)
    {
      hide Get16;
      var firstByte := payload[4] as int;
      var padding, extension, csrcCnt := firstByte / 32 % 2 == 1, firstByte / 16 % 2 == 1, firstByte % 16;
      offset, end := RTP_HEADER, |payload|;
      if end - offset >= 4 * csrcCnt { offset := offset + 4 * csrcCnt; }
      if extension && |payload| < 4 + offset + 2 + 2 { return; }
      if extension && end - offset >= 4 {
        var extLen := 4 * Get16(payload, 4 + offset + 2);
        offset := offset + 4;
        if end - offset >= extLen { offset := offset + extLen; }
      }
      if padding && end - offset > 0 {
        var paddingLen := payload[end - 1] as int;
        if end - offset >= paddingLen { end := end - paddingLen; }
      }
      offset := offset + 4;
    }

    /** Whether a packet was read that is not RTCP. */
    method ReadPacket() returns (ok: bool)
      modifies this
      ensures ok <==> ReadFrame(old(rdr)).Payload? || ReadFrame(old(rdr)).OutOfRange?
      ensures ReadFrame(old(rdr)).Payload? ==>
                0 <= offset <= end <= |payload| && ReadFrame(old(rdr)) == Payload(payload[offset..end], timestamp, rdr)
      ensures ReadFrame(old(rdr)).OutOfRange? ==> offset > end
    {
      hide Get16, Get32, Bounds;
      if |rdr| < RTSP_HEADER { return false; }
      var length := Get16(rdr, 2);
      if length < RTP_HEADER || |rdr| < RTSP_HEADER + length { return false; }
      payload, rdr := rdr[..RTSP_HEADER + length], rdr[RTSP_HEADER + length..];
      if payload[5] as int == SENDER_REPORT || payload[5] as int == RECEIVER_REPORT { return false; }
      timestamp := Get32(payload, 8);
      FindPayload();
      EndInside(payload);
      return true;
    }

    static lemma EndInside(data: seq<byte>)
      requires |data| >= RTSP_HEADER + RTP_HEADER
      ensures Bounds(data).1 <= |data|
    {
      hide Get16;
    }
  }
}
