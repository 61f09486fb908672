/** format/mp4/muxer.go as objects: the muxer with its queue, and the two ways its bytes reach the
    writer. Each method does what the function of the same name in Mp4Muxer says. */
module Mp4Writer {
  import opened Bytes
  import opened Nal
  import opened Mp4Tables
  import opened Mp4Muxer
  import opened Wrappers

  class WriteSeeker {
    var file: File

    constructor ()
      ensures file == File([], 0)
    {
      file := File([], 0);
    }

    method Write(b: seq<byte>)
      modifies this
      ensures file == Mp4Muxer.Write(old(file), b)
    {
      file := Mp4Muxer.Write(file, b);
    }

    method Seek(pos: nat)
      modifies this
      ensures file == Mp4Muxer.Seek(old(file), pos)
    {
      file := Mp4Muxer.Seek(file, pos);
    }
  }

  lemma WriteNothing(f: File)
    requires f.pos <= |f.bytes|
    ensures Write(f, []) == f
  {
    assert f.bytes[..f.pos] + f.bytes[f.pos..] == f.bytes;
  }

  lemma WriteStays(f: File, b: seq<byte>)
    ensures Write(f, b).pos <= |Write(f, b).bytes|
  {
  }

  /** What one more unit adds to a list of prefixed units. */
  lemma JoinNext(nalus: seq<Nalu>, j: nat)
    requires j < |nalus|
    ensures Join(nalus[..j + 1]) == Join(nalus[..j]) + U32(|nalus[j]|) + nalus[j]
  {
    hide U32;
    assert nalus[..j + 1] == nalus[..j] + [nalus[j]];
    JoinAppend(nalus[..j], [nalus[j]]);
    JoinOne(nalus[j]);
    assert Join(nalus[..j]) + (U32(|nalus[j]|) + nalus[j]) == Join(nalus[..j]) + U32(|nalus[j]|) + nalus[j];
  }

  lemma PayloadNext(ps: seq<Packet>, i: nat)
    requires i < |ps|
    ensures Payload(ps[..i + 1]) == Payload(ps[..i]) + (Join(Extras(ps[i])) + ps[i].data)
    ensures |Payload(ps[..i + 1])| <= |Payload(ps)|
  {
    hide U32, Join, Extras, Payload;
    assert ps[..i + 1] == ps[..i] + [ps[i]];
    PayloadSnoc(ps[..i], ps[i]);
    PayloadAppend(ps[..i + 1], ps[i + 1..]);
    assert ps[..i + 1] + ps[i + 1..] == ps;
  }

  /** Counts one more sample of value v: a new entry when the last one has another value. */
  method CountSample(runs: seq<Run>, v: nat) returns (counted: seq<Run>)
    ensures counted == AddToRuns(runs, v)
  {
    counted := runs;
    if |counted| == 0 || v != counted[|counted| - 1].value { counted := counted + [Run(0, v)]; }
    var last := |counted| - 1;
    counted := counted[last := Run(counted[last].count + 1, v)];
  }

  /** The table part of writePacket, table by table. */
  method GrowTables(track: Track, s: Sample) returns (grown: Track)
    ensures grown == AddToTrack(track, s)
  {
    var t := track.tables;
    if s.key && t.stss.Sync? { t := t.(stss := Sync(t.stss.entries + [track.sampleIndex + 1])); }
    var stts := CountSample(t.stts, s.ticks);
    t := t.(stts := stts);
    var ctts := CountSample(t.ctts, 0);
    t := t.(ctts := ctts);
    t := t.(stco := t.stco + [s.offset], stsz := t.stsz + [s.size]);
    grown := Track(track.video, t, track.sampleIndex + 1, track.duration + s.ticks);
  }

  class Muxer {
    const writer: WriteSeeker
    const start: FileStart
    const batchedDump: bool
    const moov: seq<Track> -> seq<byte>
    var streams: seq<Stream>
    var pending: seq<Packet>
    var pendingSize: nat
    var writePosition: nat
    var flushed: bool
    ghost var released: seq<Packet>

    ghost function View(): Mux
      reads this, writer
    {
      Mux(streams, pending, pendingSize, writePosition, flushed, writer.file, released)
    }

    ghost predicate Valid()
      reads this, writer
    {
      writer.file.pos <= |writer.file.bytes| && pendingSize == |Payload(pending)| && writePosition >= HEADER_SIZE
    }

    constructor (writer: WriteSeeker, start: FileStart, batchedDump: bool, moov: seq<Track> -> seq<byte>,
                 videoTracks: seq<bool>)
      requires writer.file == File([], 0)
      ensures Valid() && View() == Init(videoTracks)
      ensures this.writer == writer && this.start == start && this.batchedDump == batchedDump && this.moov == moov
    {
      this.writer, this.start, this.batchedDump, this.moov := writer, start, batchedDump, moov;
      streams := Init(videoTracks).streams;
      pending, pendingSize, writePosition, flushed, released := [], 0, HEADER_SIZE, false, [];
    }

    /** writePacket of stream s once it holds a packet. */
    method Record(s: nat, gap: int, next: Option<Packet>)
      requires Valid() && s < |streams| && streams[s].last.Some?
      modifies this
      ensures Valid() && View() == Mp4Muxer.Record(old(View()), s, old(streams)[s].last.value, gap, next)
    {
      hide Encode, SampleFor, AddToTrack, Payload;
      var pkt, track := streams[s].last.value, streams[s].track;
      var pktSize := |Encode(pkt)|;
      PayloadSnoc(pending, pkt);
      pending := pending + [pkt];
      pendingSize := pendingSize + pktSize;
      var grown := GrowTables(track, SampleFor(pkt, gap, writePosition));
      streams := streams[s := Stream(grown, next)];
      writePosition := writePosition + pktSize;
    }

    method WritePacket(pkt: Packet) returns (ok: bool)
      requires Valid()
      modifies this
      ensures Valid() && View() == Mp4Muxer.WritePacket(old(View()), pkt)
      ensures ok == (pkt.stream < |streams|)
    {
      hide Encode, Payload;
      if pkt.stream >= |streams| { return false; }
      match streams[pkt.stream].last {
        case None => streams := streams[pkt.stream := streams[pkt.stream].(last := Some(pkt))];
        case Some(last) => Record(pkt.stream, pkt.ts - last.ts, Some(pkt));
      }
      return true;
    }

    /** writePendingDirect: every length, parameter set and packet in a write of its own. */
    method WritePendingDirect()
      requires Valid()
      modifies this`pending, this`pendingSize, this`released, writer
      ensures Valid() && pending == [] && released == old(released) + old(pending)
      ensures writer.file == Write(old(writer.file), Payload(old(pending)))
    {
      hide Encode, Extras, U32, Payload, Mp4Muxer.Write;
      ghost var file := writer.file;
      WriteNothing(file);
      ghost var ps := pending;
      PayloadOfNone();
      var i := 0;
      while i < |pending|
        invariant 0 <= i <= |pending| && pending == ps
        invariant released == old(released) + ps[..i]
        invariant writer.file == Write(file, Payload(ps[..i]))
      {
        var pw := pending[i];
        WriteStays(file, Payload(ps[..i]));
        WriteExtras(Extras(pw));
        writer.Write(pw.data);
        WriteTwice(Write(file, Payload(ps[..i])), Join(Extras(pw)), pw.data);
        WriteTwice(file, Payload(ps[..i]), Join(Extras(pw)) + pw.data);
        PayloadNext(ps, i);
        assert ps[..i + 1] == ps[..i] + [pw];
        released := released + [pw];
        i := i + 1;
      }
      assert ps[..i] == ps;
      WriteStays(file, Payload(ps));
      pending := [];
      pendingSize := 0;
    }

    method WriteExtras(extras: seq<Nalu>)
      requires writer.file.pos <= |writer.file.bytes|
      modifies writer
      ensures writer.file == Write(old(writer.file), Join(extras))
      ensures writer.file.pos <= |writer.file.bytes|
    {
      hide U32, Mp4Muxer.Write;
      ghost var file := writer.file;
      WriteNothing(file);
      var j := 0;
      while j < |extras|
        invariant 0 <= j <= |extras|
        invariant writer.file == Write(file, Join(extras[..j]))
      {
        writer.Write(U32(|extras[j]|));
        writer.Write(extras[j]);
        WriteTwice(file, Join(extras[..j]), U32(|extras[j]|));
        WriteTwice(file, Join(extras[..j]) + U32(|extras[j]|), extras[j]);
        JoinNext(extras, j);
        j := j + 1;
      }
      assert extras[..j] == extras;
      WriteStays(file, Join(extras));
    }

    /** copyPendingInto: the same bytes, gathered in a buffer. */
    method CopyPendingInto(dst: array<byte>, off: nat) returns (end: nat)
      requires Valid() && off + pendingSize <= dst.Length
      modifies this`pending, this`pendingSize, this`released, dst
      ensures Valid() && pending == [] && released == old(released) + old(pending)
      ensures end == off + old(pendingSize)
      ensures dst[..end] == old(dst[..off]) + Payload(old(pending))
    {
      hide Encode, Extras, U32, Payload;
      ghost var ps, before := pending, dst[..off];
      PayloadOfNone();
      end := off;
      var i := 0;
      while i < |pending|
        invariant 0 <= i <= |pending| && pending == ps
        invariant released == old(released) + ps[..i]
        invariant end == off + |Payload(ps[..i])| <= dst.Length
        invariant dst[..end] == before + Payload(ps[..i])
      {
        var pw := pending[i];
        PayloadNext(ps, i);
        end := CopyExtras(dst, end, Extras(pw));
        end := Copy(dst, end, pw.data);
        assert dst[..end] == before + (Payload(ps[..i]) + (Join(Extras(pw)) + pw.data));
        assert ps[..i + 1] == ps[..i] + [pw];
        released := released + [pw];
        i := i + 1;
      }
      assert ps[..i] == ps;
      pending := [];
      pendingSize := 0;
    }

    static method CopyExtras(dst: array<byte>, off: nat, extras: seq<Nalu>) returns (end: nat)
      requires off + |Join(extras)| <= dst.Length
      modifies dst
      ensures end == off + |Join(extras)|
      ensures dst[..end] == old(dst[..off]) + Join(extras)
    {
      hide U32;
      ghost var before := dst[..off];
      end := off;
      var j := 0;
      while j < |extras|
        invariant 0 <= j <= |extras|
        invariant end == off + |Join(extras[..j])| <= off + |Join(extras)|
        invariant dst[..end] == before + Join(extras[..j])
      {
        JoinNext(extras, j);
        JoinAppend(extras[..j + 1], extras[j + 1..]);
        assert extras[..j + 1] + extras[j + 1..] == extras;
        end := Copy(dst, end, U32(|extras[j]|));
        end := Copy(dst, end, extras[j]);
        j := j + 1;
      }
      assert extras[..j] == extras;
    }

    /** Writes b into dst at off, byte by byte. */
    static method Copy(dst: array<byte>, off: nat, b: seq<byte>) returns (end: nat)
      requires off + |b| <= dst.Length
      modifies dst
      ensures end == off + |b|
      ensures dst[..end] == old(dst[..off]) + b
    {
      ghost var before := dst[..off];
      var k := 0;
      while k < |b|
        invariant 0 <= k <= |b|
        invariant dst[..off + k] == before + b[..k]
      {
        dst[off + k] := b[k];
        assert dst[..off + k + 1] == dst[..off + k] + [b[k]];
        k := k + 1;
      }
      end := off + |b|;
    }

    method Flush()
      requires Valid()
      modifies this, writer
      ensures Valid() && View() == Mp4Muxer.Flush(old(View()), start, batchedDump)
    {
      hide Encode, Payload, Header, Mp4Muxer.Write;
      if pending == [] && flushed { return; }
      if batchedDump { FlushBatched(); } else { FlushDirect(); }
    }

    method FlushDirect()
      requires Valid()
      modifies this, writer
      ensures Valid() && streams == old(streams) && writePosition == old(writePosition)
      ensures flushed && pending == [] && pendingSize == 0 && released == old(released) + old(pending)
      ensures writer.file == Write(old(writer.file),
                                   (if old(flushed) then [] else Header(start, 0)) + Payload(old(pending)))
    {
      hide Encode, Payload, Header, Mp4Muxer.Write;
      ghost var file, ps := writer.file, pending;
      ghost var hdr := if flushed then [] else Header(start, 0);
      WriteNothing(file);
      PayloadOfNone();
      if !flushed {
        writer.Write(Header(start, 0));
        WriteStays(file, Header(start, 0));
        flushed := true;
      }
      assert writer.file == Write(file, hdr);
      WritePendingDirect();
      WriteTwice(file, hdr, Payload(ps));
    }

    method FlushBatched()
      requires Valid()
      modifies this, writer
      ensures Valid() && streams == old(streams) && writePosition == old(writePosition) && flushed
      ensures old(flushed) && old(pendingSize) == 0 ==>
                pending == old(pending) && pendingSize == 0 && released == old(released) &&
                  writer.file == old(writer.file)
      ensures !(old(flushed) && old(pendingSize) == 0) ==>
                pending == [] && pendingSize == 0 && released == old(released) + old(pending) &&
                writer.file == Write(old(writer.file),
                                     (if old(flushed) then [] else Header(start, 0)) + Payload(old(pending)))
    {
      hide Encode, Payload, Header, Mp4Muxer.Write;
      PayloadOfNone();
      ghost var file, ps := writer.file, pending;
      var total := pendingSize;
      if !flushed { total := total + HEADER_SIZE; }
      if total == 0 { return; }
      var buf := new byte[total](_ => 0);
      var off := 0;
      ghost var hdr := if flushed then [] else Header(start, 0);
      if !flushed {
        off := Copy(buf, 0, Header(start, 0));
        flushed := true;
      }
      assert buf[..off] == hdr;
      off := CopyPendingInto(buf, off);
      writer.Write(buf[..off]);
      WriteStays(file, hdr + Payload(ps));
    }

    /** The held packets join the queue, then header, data and tables are written, in one pass or
        by going back to the header. */
    method WriteTrailer()
      requires Valid()
      modifies this, writer
      ensures View() == Mp4Muxer.WriteTrailer(old(View()), start, batchedDump, moov)
    {
      hide Encode, Payload, Header, Mp4Muxer.Write, U64, ReleasePending;
      DrainStreams();
      var moovBytes := moov(Tracks(streams));
      var mdatSize := writePosition - 40;
      if !flushed {
        WriteTrailerFast(moovBytes, mdatSize);
      } else {
        Flush();
        writer.Seek(MDAT_SIZE_OFFSET);
        writer.Write(U64(mdatSize));
        writer.Seek(writePosition);
        writer.Write(moovBytes);
      }
      ReleaseRest();
    }

    method DrainStreams()
      requires Valid()
      modifies this
      ensures Valid() && View() == Drain(old(View()), 0)
    {
      hide Encode, Payload, Mp4Muxer.Record;
      var s := 0;
      while s < |streams|
        invariant 0 <= s <= |streams| && Valid()
        invariant Drain(View(), s) == Drain(old(View()), 0)
        invariant |streams| == |old(streams)|
      {
        ghost var m := View();
        if streams[s].last.Some? { Record(s, 0, None); }
        assert Drain(m, s) == Drain(View(), s + 1);
        s := s + 1;
      }
    }

    method WriteTrailerFast(moovBytes: seq<byte>, mdatSize: nat)
      requires Valid() && !flushed
      modifies this`pending, this`pendingSize, this`released, writer
      ensures pending == [] && pendingSize == 0 && released == old(released) + old(pending)
      ensures writer.file == Write(old(writer.file), Header(start, mdatSize) + Payload(old(pending)) + moovBytes)
    {
      hide Encode, Payload, Header, Mp4Muxer.Write;
      PayloadOfNone();
      ghost var file, ps := writer.file, pending;
      if batchedDump {
        var buf := new byte[HEADER_SIZE + pendingSize + |moovBytes|](_ => 0);
        var off := Copy(buf, 0, Header(start, mdatSize));
        assert buf[..off] == Header(start, mdatSize);
        off := CopyPendingInto(buf, off);
        off := Copy(buf, off, moovBytes);
        assert buf[..off] == buf[..];
        writer.Write(buf[..]);
      } else {
        writer.Write(Header(start, mdatSize));
        WriteStays(file, Header(start, mdatSize));
        WritePendingDirect();
        writer.Write(moovBytes);
        WriteTwice(file, Header(start, mdatSize), Payload(ps));
        WriteTwice(file, Header(start, mdatSize) + Payload(ps), moovBytes);
      }
    }

    method ReleaseRest()
      modifies this
      ensures View() == ReleasePending(old(View()))
    {
      released := released + pending + Held(streams);
      pending, pendingSize := [], 0;
      var held := streams;
      streams := seq(|held|, i requires 0 <= i < |held| => held[i].(last := None));
      assert streams == ReleasePending(old(View())).streams;
    }
  }

  lemma PayloadOfNone()
    ensures Payload([]) == []
    ensures forall ps: seq<Packet> :: ps[..0] == []
  {
  }
}
