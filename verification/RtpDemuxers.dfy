/** format/rtp/h264.go and h265.go as objects: reassembly buffers and packet queues changed in place. */
module RtpDemuxers {
  import opened Bytes
  import opened Nal
  import opened Rtp
  import opened RtpMuxers
  import Hevc
  import H264 = RtpH264
  import H265 = RtpH265
  import opened Wrappers

  class H264Demuxer {
    const base: BaseDemuxer
    const parse: H264.Parser
    var sps: Nalu
    var pps: Nalu
    var fuStarted: bool
    var buffer: seq<byte>
    var packets: seq<H264.Emitted>
    /** The packets ReadPacket has handed out. */
    ghost var taken: seq<H264.Emitted>

    constructor (base: BaseDemuxer, parse: H264.Parser, sps: Nalu, pps: Nalu)
      ensures this.base == base && this.parse == parse && View() == H264.Demuxer(sps, pps, false, [], [])
    {
      this.base, this.parse, this.sps, this.pps, fuStarted, buffer, packets, taken :=
        base, parse, sps, pps, false, [], [], [];
    }

    ghost function View(): H264.Demuxer
      reads this
    {
      H264.Demuxer(sps, pps, fuStarted, buffer, taken + packets)
    }

    method AddPacket(nalU: Nalu, isKeyFrame: bool, timestamp: nat)
      modifies `packets
      ensures View() == H264.AddPacket(old(View()), nalU, isKeyFrame, timestamp)
    {
      packets := packets + [H264.Emitted(Prefixed(nalU), isKeyFrame, timestamp)];
    }

    method CodecUpdateSPS(val: Nalu) returns (ok: bool)
      modifies `sps
      ensures (View(), ok) == H264.UpdateSps(old(View()), val, parse)
    {
      if val == sps { return true; }
      sps := val;
      ok := parse(sps, pps);
    }

    method CodecUpdatePPS(val: Nalu) returns (ok: bool)
      modifies `pps
      ensures (View(), ok) == H264.UpdatePps(old(View()), val, parse)
    {
      if val == pps { return true; }
      pps := val;
      ok := parse(sps, pps);
    }

    method ProcessSTAPA(nalU: seq<byte>, timestamp: nat) returns (ok: bool)
      modifies this
      ensures (View(), ok) == H264.StapA(old(View()), nalU, timestamp, parse)
    {
      hide Get16;
      var packet := nalU;
      while |packet| >= 2
        invariant H264.StapA(View(), packet, timestamp, parse) == H264.StapA(old(View()), nalU, timestamp, parse)
        decreases |packet|
      {
        var size := Get16(packet, 0);
        if size == 0 || size + 2 > |packet| { break; }
        var unit := packet[2..size + 2];
        var t := H264.TypeOf(unit);
        ok := true;
        if 1 <= t <= 5 {
          AddPacket(unit, t == 5, timestamp);
        } else if t == H264.SPS {
          ok := CodecUpdateSPS(unit);
        } else if t == H264.PPS {
          ok := CodecUpdatePPS(unit);
        }
        if !ok { return false; }
        packet := packet[size + 2..];
      }
      return true;
    }

    method FinalizeFUAPacket(timestamp: nat) returns (ok: bool)
      requires buffer != []
      modifies this
      ensures (View(), ok) == H264.Finalize(old(View()), timestamp, parse)
    {
      hide Split;
      fuStarted := false;
      var t := H264.TypeOf(buffer);
      var key := t == 5;
      if t == 7 || t == 9 {
        var nested, typ := SplitNALUs([0, 0, 0, 1] + buffer);
        ghost var start := View();
        key := false;
        var i := 0;
        while i < |nested|
          invariant 0 <= i <= |nested|
          invariant H264.Nested(View(), nested[i..], key, parse) == H264.Nested(start, nested, false, parse)
        {
          var v := nested[i];
          assert nested[i..][1..] == nested[i + 1..];
          if v != [] {
            if H264.TypeOf(v) == 5 {
              buffer := v;
              key := true;
            } else if H264.TypeOf(v) == H264.SPS {
              ok := CodecUpdateSPS(v);
              if !ok { return; }
            } else if H264.TypeOf(v) == H264.PPS {
              ok := CodecUpdatePPS(v);
              if !ok { return; }
            }
          }
          i := i + 1;
        }
      }
      AddPacket(buffer, key, timestamp);
      return true;
    }

    method ProcessLFUA(payload: seq<byte>, timestamp: nat) returns (ok: bool)
      modifies this
      ensures (View(), ok) == H264.Fragment(old(View()), payload, timestamp, parse)
    {
      hide H264.Finalize;
      if |payload| < 2 { return false; }
      var fuHeader := payload[1] as int;
      if fuHeader >= 128 {
        fuStarted := true;
        buffer := [(payload[0] as int / 32 * 32 + fuHeader % 32) as byte];
      }
      if fuStarted {
        buffer := buffer + payload[2..];
        if fuHeader / 64 % 2 == 1 && buffer != [] {
          ok := FinalizeFUAPacket(timestamp);
          return;
        }
      }
      return true;
    }

    method ProcessNALUnit(nalU: Nalu, payload: seq<byte>, timestamp: nat) returns (ok: bool)
      modifies this
      ensures (View(), ok) == H264.Process(old(View()), nalU, payload, timestamp, parse)
    {
      hide H264.Fragment, H264.StapA;
      ok := true;
      if nalU == [] { return; }
      var t := H264.TypeOf(nalU);
      if 1 <= t <= 5 {
        AddPacket(nalU, t == 5, timestamp);
      } else if t == H264.SPS {
        ok := CodecUpdateSPS(nalU);
      } else if t == H264.PPS {
        ok := CodecUpdatePPS(nalU);
      } else if t == H264.STAP_A {
        ok := ProcessSTAPA(nalU[1..], timestamp);
      } else if t == H264.FU_A {
        ok := ProcessLFUA(payload, timestamp);
      }
    }

    /** The first packet waiting, or none. */
    method TakePacket() returns (pkt: seq<H264.Emitted>)
      modifies `packets, `taken
      ensures View() == old(View()) && pkt == if old(packets) == [] then [] else [old(packets)[0]]
    {
      pkt := packets[..if packets == [] then 0 else 1];
      taken := taken + pkt;
      packets := packets[|pkt|..];
    }

    /** One call: a packet that waits is handed out first; otherwise one frame is read, its units
        are processed up to the first error, and the first packet now waiting is handed out. */
    method ReadPacket() returns (pkt: seq<H264.Emitted>, ok: bool)
      modifies this, base
      ensures old(packets) != [] ==>
                ok && pkt == [old(packets)[0]] && View() == old(View()) && base.rdr == old(base.rdr)
      ensures old(packets) == [] && ReadFrame(old(base.rdr)).Payload? ==>
                var Payload(data, timestamp, rest) := ReadFrame(old(base.rdr));
                (View(), ok) == H264.Feed(old(View()), data, timestamp, parse) && base.rdr == rest
      ensures old(packets) == [] && !ReadFrame(old(base.rdr)).Payload? ==> !ok && View() == old(View())
    {
      hide ReadFrame, Split, H264.Process;
      if packets != [] {
        pkt := TakePacket();
        return pkt, true;
      }
      ok := base.ReadPacket();
      if !ok || base.offset > base.end { return [], false; }
      var payload := base.payload[base.offset..base.end];
      var nals, typ := SplitNALUs(payload);
      if nals == [] || nals[0] == [] { return [], false; }
      var i := 0;
      while i < |nals|
        invariant 0 <= i <= |nals|
        invariant H264.ProcessAll(View(), nals[i..], payload, base.timestamp, parse) ==
                    H264.ProcessAll(old(View()), nals, payload, base.timestamp, parse)
        modifies this
      {
        assert nals[i..][1..] == nals[i + 1..];
        ok := ProcessNALUnit(nals[i], payload, base.timestamp);
        if !ok { return [], false; }
        i := i + 1;
      }
      pkt := TakePacket();
      return pkt, true;
    }
  }

  class H265Demuxer {
    const base: BaseDemuxer
    const parse: H265.Parser
    var vps: Nalu
    var sps: Nalu
    var pps: Nalu
    var buffer: seq<byte>
    var bufferHasKey: bool
    var slicedPacket: Option<H265.Emitted>
    var packets: seq<H265.Emitted>
    ghost var taken: seq<H265.Emitted>

    constructor (base: BaseDemuxer, parse: H265.Parser, vps: Nalu, sps: Nalu, pps: Nalu)
      ensures this.base == base && this.parse == parse &&
                View() == H265.Demuxer(vps, sps, pps, [], false, None, [])
    {
      this.base, this.parse, this.vps, this.sps, this.pps := base, parse, vps, sps, pps;
      buffer, bufferHasKey, slicedPacket, packets, taken := [], false, None, [], [];
    }

    ghost function View(): H265.Demuxer
      reads this
    {
      H265.Demuxer(vps, sps, pps, buffer, bufferHasKey, slicedPacket, taken + packets)
    }

    /** The picture so far moves to the queue, and a new one begins. */
    method AddPacket(nalU: Nalu, isKeyFrame: bool, timestamp: nat)
      modifies `packets, `slicedPacket
      ensures View() == H265.AddPacket(old(View()), nalU, isKeyFrame, timestamp)
    {
      if slicedPacket.Some? { packets := packets + [slicedPacket.value]; }
      slicedPacket := Some(H265.Emitted(Prefixed(nalU), isKeyFrame, timestamp));
    }

    method AppendToPacket(nalU: Nalu, isKeyFrame: bool)
      modifies `slicedPacket
      ensures View() == H265.AppendToPacket(old(View()), nalU, isKeyFrame)
    {
      if slicedPacket.None? { return; }
      var p := slicedPacket.value;
      slicedPacket := Some(p.(data := p.data + Prefixed(nalU), key := p.key || isKeyFrame));
    }

    method Place(nalU: Nalu, addKey: bool, appendKey: bool, timestamp: nat)
      modifies `packets, `slicedPacket
      ensures View() == H265.Place(old(View()), nalU, addKey, appendKey, timestamp)
    {
      hide Prefixed;
      if |nalU| > 2 && nalU[2] >= 128 {
        AddPacket(nalU, addKey, timestamp);
      } else {
        AppendToPacket(nalU, appendKey);
      }
    }

    method ProcessFU(nal: Nalu, timestamp: nat)
      modifies `buffer, `bufferHasKey, `packets, `slicedPacket
      ensures View() == H265.Fragment(old(View()), nal, timestamp)
    {
      hide H265.Place;
      if |nal| < 3 { return; }
      var header := nal[2] as int;
      var fuNaluType := header % 64;
      bufferHasKey := bufferHasKey || Hevc.IsKey(fuNaluType);
      if header >= 128 {
        buffer := [(nal[0] as int / 128 * 128 + fuNaluType * 2 + nal[0] as int % 2) as byte, nal[1]] + nal[3..];
      } else if header / 64 % 2 == 1 {
        buffer := buffer + nal[3..];
        Place(buffer, bufferHasKey, bufferHasKey, timestamp);
        bufferHasKey := false;
      } else {
        buffer := buffer + nal[3..];
      }
    }

    /** One unit; ok is kept unless the unit is a parameter set. */
    method ProcessNALUnit(nal: Nalu, ok: bool, timestamp: nat) returns (ok': bool)
      modifies this
      ensures var (d, parsed) := H265.Process(old(View()), nal, timestamp, parse);
              View() == d && ok' == if nal != [] && Hevc.VPS <= Hevc.TypeOf(nal) <= Hevc.PPS then parsed else ok
    {
      hide H265.Fragment, H265.Place;
      ok' := ok;
      if nal == [] { return; }
      var t := Hevc.TypeOf(nal);
      if t == Hevc.VPS {
        ok' := nal == vps || parse(nal, sps, pps);
        vps := nal;
      } else if t == Hevc.SPS {
        ok' := nal == sps || parse(vps, nal, pps);
        sps := nal;
      } else if t == Hevc.PPS {
        ok' := nal == pps || parse(vps, sps, nal);
        pps := nal;
      } else if t == H265.FU {
        ProcessFU(nal, timestamp);
      } else if t != Hevc.PREFIX_SEI && t != H265.AGGREGATION {
        Place(nal, Hevc.IsKey(t), false, timestamp);
      }
    }

    method ReadPacket() returns (pkt: seq<H265.Emitted>, ok: bool)
      modifies this, base
      ensures old(packets) != [] ==>
                ok && pkt == [old(packets)[0]] && View() == old(View()) && base.rdr == old(base.rdr)
      ensures old(packets) == [] && ReadFrame(old(base.rdr)).Payload? ==>
                var Payload(data, timestamp, rest) := ReadFrame(old(base.rdr));
                (View(), ok) == H265.Feed(old(View()), data, timestamp, parse) && base.rdr == rest
      ensures old(packets) == [] && !ReadFrame(old(base.rdr)).Payload? ==> !ok && View() == old(View())
    {
      hide ReadFrame, Split, H265.Process;
      pkt := packets[..if packets == [] then 0 else 1];
      if packets == [] {
        ok := base.ReadPacket();
        if !ok || base.offset > base.end { return [], false; }
        var nals, typ := SplitNALUs(base.payload[base.offset..base.end]);
        if nals == [] || nals[0] == [] { return [], false; }
        var i := 0;
        while i < |nals|
          invariant 0 <= i <= |nals|
          invariant H265.ProcessAll(View(), nals[i..], ok, base.timestamp, parse) ==
                      H265.ProcessAll(old(View()), nals, true, base.timestamp, parse)
          modifies this
        {
          assert nals[i..][1..] == nals[i + 1..];
          ok := ProcessNALUnit(nals[i], ok, base.timestamp);
          i := i + 1;
        }
        pkt := packets[..if packets == [] then 0 else 1];
      } else {
        ok := true;
      }
      assert pkt + packets[|pkt|..] == packets;
      assert (taken + pkt) + packets[|pkt|..] == taken + packets;
      taken := taken + pkt;
      packets := packets[|pkt|..];
    }
  }
}
