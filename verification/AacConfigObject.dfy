/** The configuration of codec/aac/parser.go written and parsed through them. */
module AacConfigObject {
  import opened Bytes
  import opened BitsObject
  import B = Bits
  import A = AacConfig
  import opened Wrappers

  method WriteObjectType(w: BitWriter, t: nat)
    requires w.n <= 64
    modifies w
    ensures w.View() == A.WriteObjectType(old(w.View()), t) && w.n <= 64
  {
    hide B.WriteBits;
    if t >= 32 {
      w.WriteBits64(31, 5);
      w.WriteBits64(t - 32, 6);
    } else {
      w.WriteBits64(t, 5);
    }
  }

  method WriteSampleRateIndex(w: BitWriter, i: nat, rate: int)
    requires w.n <= 64
    modifies w
    ensures w.View() == A.WriteRate(old(w.View()), i, rate) && w.n <= 64
  {
    hide B.WriteBits;
    if i >= 15 {
      w.WriteBits64(15, 4);
      w.WriteBits64(A.AsWord(rate), 24);
    } else {
      w.WriteBits64(i, 4);
    }
  }

  /** The last place of x, as the loop over the table leaves it. */
  method Lookup(table: seq<int>, x: int, default: nat) returns (i: nat)
    ensures i == A.Find(table, x, |table|, default)
    ensures x in table ==> i < |table| && table[i] == x
    ensures x !in table ==> i == default
  {
    i := default;
    for k := 0 to |table|
      invariant i == A.Find(table, x, k, default)
      invariant x in table[..k] ==> i < k && table[i] == x
      invariant x !in table[..k] ==> i == default
    {
      assert table[..k + 1] == table[..k] + [table[k]];
      if table[k] == x { i := k; }
    }
    assert table[..|table|] == table;
  }

  method WriteMPEG4AudioConfig(config: A.Config) returns (data: seq<byte>)
    ensures data == A.Write(config)
    ensures A.Parse(data) == A.Ok(A.Filled(config)) <==> A.Carried(A.Filled(config))
  {
    hide B.WriteBits, B.FlushBits, A.Find, A.WriteObjectType, A.WriteRate, A.Parse, A.Carried;
    var c := config;
    var bw := new BitWriter();
    WriteObjectType(bw, c.objectType);
    if c.rateIndex == 0 {
      var i := Lookup(A.RATES, c.sampleRate, 0);
      c := c.(rateIndex := i);
    }
    WriteSampleRateIndex(bw, c.rateIndex, c.sampleRate);
    if c.channelConfig == 0 {
      var i := Lookup(A.LAYOUTS, c.layout, 0);
      c := c.(channelConfig := i);
    }
    bw.WriteBits64(c.channelConfig, 4);
    bw.FlushBits();
    data := bw.out + A.SUFFIX;
    A.RoundTrip(config);
  }

  method ReadObjectType(r: BitReader) returns (t: Option<nat>)
    modifies r
    ensures (r.View(), t) == A.ReadObjectType(old(r.View()))
  {
    hide B.ReadBits;
    t := r.ReadBits64(5);
    if t == Some(31) {
      var i := r.ReadBits64(6);
      t := if i.Some? then Some(32 + i.value) else None;
    }
  }

  method ReadSampleRateIndex(r: BitReader) returns (rate: Option<(nat, int)>)
    modifies r
    ensures (r.View(), rate) == A.ReadRate(old(r.View()))
  {
    hide B.ReadBits;
    var i := r.ReadBits64(4);
    if i == Some(15) {
      var hz := r.ReadBits64(24);
      rate := if hz.Some? then Some((15, hz.value)) else None;
    } else {
      rate := if i.Some? then Some((i.value, 0)) else None;
    }
  }

  method ParseMPEG4AudioConfigBytes(data: seq<byte>) returns (result: A.Result)
    ensures result == A.Parse(data)
    ensures result.Ok? ==> A.Carried(result.config)
  {
    hide B.ReadBits, A.ReadObjectType, A.ReadRate, A.Carried, A.Complete;
    if data == [] { return A.Err(A.Everything); }
    var br := new BitReader(data);
    var t := ReadObjectType(br);
    if t == None { return A.Err(A.ObjectTypeBits); }
    var rate := ReadSampleRateIndex(br);
    if rate == None { return A.Err(A.RateIndexBits); }
    var ch := br.ReadBits64(4);
    if ch == None { return A.Err(A.ChannelConfigBits); }
    result := A.Ok(A.Complete(A.Config(rate.value.1, 0, t.value, rate.value.0, ch.value)));
    A.ParsedIsCarried(data);
  }
}
