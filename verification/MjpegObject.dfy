/** format/rtp/mjpeg.go as an object: the fragment list and the cached tables changed in place. */
module MjpegObject {
  import opened Bytes
  import opened Mjpeg
  import opened Wrappers

  class MjpegDemuxer {
    const build: Builder
    var fragments: seq<Fragment>
    var lastTimestamp: nat
    var frameHeaders: seq<byte>
    var restartInterval: nat
    var cachedQTables: map<byte, Table>
    var packets: seq<Emitted>

    constructor (build: Builder)
      ensures this.build == build && View() == Demuxer([], 0, [], 0, map[], [])
    {
      this.build, fragments, lastTimestamp, frameHeaders, restartInterval, cachedQTables, packets :=
        build, [], 0, [], 0, map[], [];
    }

    ghost function View(): Demuxer
      reads this
    {
      Demuxer(fragments, lastTimestamp, frameHeaders, restartInterval, cachedQTables, packets)
    }

    /** Puts the fragments in order of their offsets. */
    static method SortFragments(fs: seq<Fragment>) returns (sorted: seq<Fragment>)
      ensures sorted == Sort(fs)
    {
      hide Insert;
      sorted := [];
      var i := 0;
      assert fs[..0] == [];
      while i < |fs|
        invariant 0 <= i <= |fs| && sorted == Sort(fs[..i])
      {
        assert fs[..i + 1][..i] == fs[..i];
        sorted := InsertFragment(sorted, fs[i]);
        i := i + 1;
      }
      assert fs[..i] == fs;
    }

    static method InsertFragment(fs: seq<Fragment>, f: Fragment) returns (grown: seq<Fragment>)
      ensures grown == Insert(fs, f)
    {
      hide Insert;
      var k := 0;
      assert fs[..0] + Insert(fs[0..], f) == Insert(fs, f) by { assert fs[0..] == fs; }
      while k < |fs| && fs[k].off <= f.off
        invariant 0 <= k <= |fs| && Insert(fs, f) == fs[..k] + Insert(fs[k..], f)
      {
        InsertPasses(fs, f, k);
        k := k + 1;
      }
      InsertStep(fs[k..], f);
      grown := fs[..k] + ([f] + fs[k..]);
    }

    static lemma InsertPasses(fs: seq<Fragment>, f: Fragment, k: nat)
      requires k < |fs| && fs[k].off <= f.off
      ensures fs[..k] + Insert(fs[k..], f) == fs[..k + 1] + Insert(fs[k + 1..], f)
    {
      hide Insert;
      InsertStep(fs[k..], f);
      assert fs[k..][1..] == fs[k + 1..] && fs[..k + 1] == fs[..k] + [fs[k]];
      assert fs[..k] + ([fs[k]] + Insert(fs[k + 1..], f)) == (fs[..k] + [fs[k]]) + Insert(fs[k + 1..], f);
    }

    static lemma InsertStep(fs: seq<Fragment>, f: Fragment)
      ensures Insert(fs, f) == if fs == [] || f.off < fs[0].off then [f] + fs else [fs[0]] + Insert(fs[1..], f)
    {
    }

    /** The scan data one fragment after the other; false at a gap. */
    static method GatherFragments(fs: seq<Fragment>) returns (complete: bool, data: seq<byte>)
      ensures Gather(fs, 0) == if complete then Some(data) else None
    {
      data := [];
      var expectedOffset: nat, i := 0, 0;
      assert fs[0..] == fs;
      PrependNothing(Gather(fs, 0));
      while i < |fs|
        invariant 0 <= i <= |fs|
        invariant Gather(fs, 0) == Prepend(data, Gather(fs[i..], expectedOffset))
      {
        assert fs[i..][1..] == fs[i + 1..];
        if fs[i].off != expectedOffset { return false, []; }
        PrependMore(data, fs[i].data, Gather(fs[i + 1..], expectedOffset + |fs[i].data|));
        data := data + fs[i].data;
        expectedOffset := expectedOffset + |fs[i].data|;
        i := i + 1;
      }
      assert data + [] == data;
      return true, data;
    }

    static function Prepend(data: seq<byte>, rest: Option<seq<byte>>): Option<seq<byte>> {
      match rest
      case None => None
      case Some(r) => Some(data + r)
    }

    static lemma PrependNothing(rest: Option<seq<byte>>)
      ensures Prepend([], rest) == rest
    {
      if rest.Some? { assert [] + rest.value == rest.value; }
    }

    static lemma PrependMore(a: seq<byte>, b: seq<byte>, rest: Option<seq<byte>>)
      ensures Prepend(a, Prepend(b, rest)) == Prepend(a + b, rest)
    {
      if rest.Some? { assert a + (b + rest.value) == (a + b) + rest.value; }
    }

    method AssembleFrame() returns (ok: bool)
      modifies this
      ensures (View(), ok) == Assemble(old(View()))
    {
      hide Sort, Gather;
      if |fragments| == 0 { return false; }
      var sorted := SortFragments(fragments);
      var complete, scan := GatherFragments(sorted);
      fragments := [];
      if !complete { return true; }
      var data := frameHeaders + scan;
      if |data| < 2 || data[|data| - 2] != 0xFF || data[|data| - 1] != 0xD9 { data := data + [0xFF, 0xD9]; }
      packets := packets + [Emitted(data, lastTimestamp)];
      restartInterval := 0;
      return true;
    }

    method ParseMJPEGPacket(payload: seq<byte>, timestamp: nat, markerBit: bool) returns (ok: bool)
      modifies this
      ensures (View(), ok) == Parse(old(View()), payload, timestamp, markerBit, build)
    {
      hide Get24, Get16, Assemble;
      if |payload| < MAIN_HEADER { return false; }
      var fragOffset, mjpegType, quality := Get24(payload, 1), payload[4], payload[5];
      var rest := payload[MAIN_HEADER..];
      if 64 <= mjpegType <= 127 {
        if |rest| < RESTART_HEADER { return false; }
        restartInterval := Get16(rest, 0);
        rest := rest[RESTART_HEADER..];
      }
      var table := Table(0, []);
      if quality >= 128 && fragOffset == 0 {
        if |rest| < QTABLE_HEADER { return false; }
        var length := Get16(rest, 2);
        table := Table(rest[1], []);
        rest := rest[QTABLE_HEADER..];
        if length > 0 {
          if |rest| < length { return false; }
          table := table.(data := rest[..length]);
          rest := rest[length..];
          if quality < 255 { cachedQTables := cachedQTables[quality := table]; }
        } else if quality < 255 && quality in cachedQTables {
          table := cachedQTables[quality];
        }
      }
      if fragOffset == 0 {
        fragments, lastTimestamp := [], timestamp;
        frameHeaders := build(Shape(mjpegType, payload[6], payload[7], quality, restartInterval, table));
      } else if lastTimestamp != timestamp {
        fragments := [];
        return true;
      }
      fragments := fragments + [Fragment(fragOffset, rest)];
      ok := true;
      if markerBit { ok := AssembleFrame(); }
    }
  }
}
