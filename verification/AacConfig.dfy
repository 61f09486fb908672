/** codec/aac/parser.go: the AudioSpecificConfig of section 1.6.2.1 of ISO/IEC 14496-3, written and
    parsed bit by bit. */
module AacConfig {
  import opened Bytes
  import opened Bits
  import opened Wrappers

  datatype Config = Config(sampleRate: int, layout: nat, objectType: nat, rateIndex: nat, channelConfig: nat)

  datatype Missing = Everything | ObjectTypeBits | RateIndexBits | ChannelConfigBits

  datatype Result = Ok(config: Config) | Err(missing: Missing)

  const RATES: seq<int> := [96000, 88200, 64000, 48000, 44100, 32000, 24000, 22050, 16000, 12000, 11025, 8000, 7350]

  /** One bit a speaker: front centre 1, left 2, right 4; back centre 8, left 16, right 32; side left 64,
      right 128; low frequency 256. */
  const LAYOUTS: seq<int> := [0, 1, 6, 7, 15, 55, 311, 503]

  /** The last place of x in a table. */
  function Find(table: seq<int>, x: int, n: nat, default: nat): (i: nat)
    requires n <= |table|
  {
    if n == 0 then default else if table[n - 1] == x then n - 1 else Find(table, x, n - 1, default)
  }

  /** An index of 0 is looked up in the tables by rate and by layout. */
  function Filled(c: Config): Config {
    var rate := if c.rateIndex == 0 then Find(RATES, c.sampleRate, |RATES|, 0) else c.rateIndex;
    var channels := if c.channelConfig == 0 then Find(LAYOUTS, c.layout, |LAYOUTS|, 0) else c.channelConfig;
    c.(rateIndex := rate, channelConfig := channels)
  }

  // ----- Writing -----

  /** A signed number as the 64-bit word that holds it. */
  function AsWord(x: int): nat {
    x % 0x1_0000_0000_0000_0000
  }

  function WriteObjectType(w: Writer, t: nat): (w': Writer)
    requires w.n <= 64
    ensures w'.n <= 64
  {
    if t >= 32 then WriteBits(WriteBits(w, 31, 5), t - 32, 6) else WriteBits(w, t, 5)
  }

  function WriteRate(w: Writer, i: nat, rate: int): (w': Writer)
    requires w.n <= 64
    ensures w'.n <= 64
  {
    if i >= 15 then WriteBits(WriteBits(w, 15, 4), AsWord(rate), 24) else WriteBits(w, i, 4)
  }

  const SUFFIX: seq<byte> := [0x06, 0x80, 0x80, 0x80, 0x01, 0x02, 0x06, 0x80, 0x80, 0x80, 0x01]

  function WriteFields(c: Config): (w: Writer)
    ensures w.n <= 64
  {
    var f := Filled(c);
    WriteBits(WriteRate(WriteObjectType(Writer(0, 0, []), f.objectType), f.rateIndex, f.sampleRate), f.channelConfig, 4)
  }

  function Write(c: Config): seq<byte> {
    FlushBits(WriteFields(c)).out + SUFFIX
  }

  // ----- Parsing -----

  function ReadObjectType(r: Reader): (Reader, Option<nat>) {
    var (r1, t) := ReadBits(r, 5);
    if t == Some(31) then
      var (r2, i) := ReadBits(r1, 6);
      (r2, if i.Some? then Some(32 + i.value) else None)
    else
      (r1, t)
  }

  /** The index, and the rate of 24 bits behind an index of 15. */
  function ReadRate(r: Reader): (Reader, Option<(nat, int)>) {
    var (r1, i) := ReadBits(r, 4);
    if i == Some(15) then
      var (r2, hz) := ReadBits(r1, 24);
      (r2, if hz.Some? then Some((15, hz.value)) else None)
    else
      (r1, if i.Some? then Some((i.value, 0)) else None)
  }

  function Complete(c: Config): Config {
    var c1 := if c.rateIndex < |RATES| then c.(sampleRate := RATES[c.rateIndex]) else c;
    if c1.channelConfig < |LAYOUTS| then c1.(layout := LAYOUTS[c1.channelConfig]) else c1
  }

  function Parse(data: seq<byte>): Result {
    if data == [] then Err(Everything) else
    var (r1, t) := ReadObjectType(Reader(0, 0, data));
    if t == None then Err(ObjectTypeBits) else
    var (r2, rate) := ReadRate(r1);
    if rate == None then Err(RateIndexBits) else
    var (r3, ch) := ReadBits(r2, 4);
    if ch == None then Err(ChannelConfigBits) else
    Ok(Complete(Config(rate.value.1, 0, t.value, rate.value.0, ch.value)))
  }

  // ----- The format -----

  /** The fields as bits: 5, or 31 and 6 more; 4, or 15 and 24 more; 4. */
  function TypeBits(t: nat): Bits {
    if t >= 32 then BitsOf(31, 5) + BitsOf(t - 32, 6) else BitsOf(t, 5)
  }

  function RateBits(i: nat, rate: nat): Bits {
    if i == 15 then BitsOf(15, 4) + BitsOf(rate, 24) else BitsOf(i, 4)
  }

  function ConfigBits(c: Config): Bits {
    TypeBits(c.objectType) + RateBits(c.rateIndex, AsWord(c.sampleRate)) + BitsOf(c.channelConfig, 4)
  }

  /** What the format can carry: a type below 96 that is not the escape value 31; the rate of its index,
      or one of 24 bits with the index 15, or none with the reserved 13 and 14; the layout of its
      channel configuration, or none with the reserved ones. */
  predicate Carried(c: Config) {
    && c.objectType <= 95 && c.objectType != 31
    && (if c.rateIndex < |RATES| then c.sampleRate == RATES[c.rateIndex]
        else if c.rateIndex < 15 then c.sampleRate == 0
        else c.rateIndex == 15 && 0 <= c.sampleRate < 0x100_0000)
    && (if c.channelConfig < |LAYOUTS| then c.layout == LAYOUTS[c.channelConfig]
        else c.channelConfig <= 15 && c.layout == 0)
  }

  // ----- Parsing gives what the bits say -----

  lemma ReadField(r: Reader, v: nat, n: nat, tail: Bits)
    requires Valid(r) && n <= 24 && v < Pow2(n) && Pending(r) == BitsOf(v, n) + tail
    ensures ReadBits(r, n).1 == Some(v) && Pending(ReadBits(r, n).0) == tail && Valid(ReadBits(r, n).0)
  {
    hide ReadBits, Pending, Val, BitsOf, Pow2;
    ReadIsNext(r, n);
    ValBitsOf(v, n);
    assert Pending(r)[..n] == BitsOf(v, n) && Pending(r)[n..] == tail;
  }

  lemma ReadTypeBits(r: Reader, t: nat, tail: Bits)
    requires Valid(r) && t <= 95 && t != 31 && Pending(r) == TypeBits(t) + tail
    ensures ReadObjectType(r).1 == Some(t) && Pending(ReadObjectType(r).0) == tail && Valid(ReadObjectType(r).0)
  {
    hide ReadBits, Pending, Val, BitsOf, Pow2, Valid;
    Powers();
    if t >= 32 {
      assert Pending(r) == BitsOf(31, 5) + (BitsOf(t - 32, 6) + tail);
      ReadField(r, 31, 5, BitsOf(t - 32, 6) + tail);
      ReadField(ReadBits(r, 5).0, t - 32, 6, tail);
    } else {
      ReadField(r, t, 5, tail);
    }
  }

  lemma ReadRateBits(r: Reader, i: nat, rate: nat, tail: Bits)
    requires Valid(r) && i <= 15 && rate < 0x100_0000 && Pending(r) == RateBits(i, rate) + tail
    ensures ReadRate(r).1 == Some((i, if i == 15 then rate else 0)) && Pending(ReadRate(r).0) == tail &&
              Valid(ReadRate(r).0)
  {
    hide ReadBits, Pending, Val, BitsOf, Pow2, Valid;
    Powers();
    if i == 15 {
      assert Pending(r) == BitsOf(15, 4) + (BitsOf(rate, 24) + tail);
      ReadField(r, 15, 4, BitsOf(rate, 24) + tail);
      ReadField(ReadBits(r, 4).0, rate, 24, tail);
    } else {
      ReadField(r, i, 4, tail);
    }
  }

  lemma StartIsAll(data: seq<byte>)
    ensures Valid(Reader(0, 0, data)) && Pending(Reader(0, 0, data)) == AllBits(data)
  {
    assert BitsOf(0, 0) == [];
  }

  /** Bytes that begin with the bits of a configuration parse to it, whatever follows. */
  lemma ParsesBits(data: seq<byte>, c: Config, tail: Bits)
    requires Carried(c) && AllBits(data) == ConfigBits(c) + tail
    ensures Parse(data) == Ok(c)
  {
    hide ReadBits, Pending, AllBits, BitsOf, Pow2, Valid, ReadObjectType, ReadRate, TypeBits, RateBits;
    var r := Reader(0, 0, data);
    var channels := BitsOf(c.channelConfig, 4);
    var rate := RateBits(c.rateIndex, AsWord(c.sampleRate));
    StartIsAll(data);
    Powers();
    AllBitsNone();
    assert Pending(r) == TypeBits(c.objectType) + (rate + channels + tail);
    ReadTypeBits(r, c.objectType, rate + channels + tail);
    assert rate + channels + tail == rate + (channels + tail);
    var r1 := ReadObjectType(r).0;
    ReadRateBits(r1, c.rateIndex, c.sampleRate, channels + tail);
    ReadField(ReadRate(r1).0, c.channelConfig, 4, tail);
  }

  /** Whatever parses is something the format carries. */
  lemma ParsedIsCarried(data: seq<byte>)
    requires Parse(data).Ok?
    ensures Carried(Parse(data).config)
  {
    hide ReadBits, Pending, AllBits, BitsOf, Pow2, Valid;
    var r := Reader(0, 0, data);
    StartIsAll(data);
    Powers();
    FieldBound(r, 5);
    var r1, t := ReadBits(r, 5).0, ReadBits(r, 5).1;
    if t == Some(31) { FieldBound(r1, 6); }
    var r2 := ReadObjectType(r).0;
    FieldBound(r2, 4);
    if ReadBits(r2, 4).1 == Some(15) { FieldBound(ReadBits(r2, 4).0, 24); }
    FieldBound(ReadRate(r2).0, 4);
  }

  lemma FieldBound(r: Reader, n: nat)
    requires Valid(r) && n <= 24 && ReadBits(r, n).1.Some?
    ensures ReadBits(r, n).1.value < Pow2(n) && Valid(ReadBits(r, n).0)
  {
    hide ReadBits, Pending, Val, Pow2, Valid;
    ReadIsNext(r, n);
    ValBound(Pending(r)[..n]);
  }

  // ----- Writing gives the bits -----

  lemma WriteField(w: Writer, v: nat, n: nat)
    requires w.n + n <= 64 && v < Pow2(n)
    ensures Written(WriteBits(w, v, n)) == Written(w) + BitsOf(v, n) && WriteBits(w, v, n).n == w.n + n
  {
    hide BitsOf, AllBits, Pow2, Or, Shr, Low, Written;
    WriteAppends(w, v, n);
  }

  lemma WritesBits(c: Config)
    requires Carried(Filled(c))
    ensures Written(WriteFields(c)) == ConfigBits(Filled(c))
  {
    hide BitsOf, AllBits, Pow2, WriteBits, Written, Filled;
    var f := Filled(c);
    var w := Writer(0, 0, []);
    Powers();
    StartsEmpty();
    if f.objectType >= 32 {
      WriteField(w, 31, 5);
      WriteField(WriteBits(w, 31, 5), f.objectType - 32, 6);
    } else {
      WriteField(w, f.objectType, 5);
    }
    var w1 := WriteObjectType(w, f.objectType);
    assert Written(w1) == TypeBits(f.objectType) && w1.n <= 11;
    if f.rateIndex == 15 {
      WriteField(w1, 15, 4);
      WriteField(WriteBits(w1, 15, 4), f.sampleRate, 24);
    } else {
      WriteField(w1, f.rateIndex, 4);
    }
    var w2 := WriteRate(w1, f.rateIndex, f.sampleRate);
    assert Written(w2) == TypeBits(f.objectType) + RateBits(f.rateIndex, AsWord(f.sampleRate)) && w2.n <= 39;
    WriteField(w2, f.channelConfig, 4);
  }

  lemma StartsEmpty()
    ensures Written(Writer(0, 0, [])) == []
  {
  }

  // ----- Main results -----

  /** The bytes written begin with the bits of the configuration. */
  lemma WrittenBytes(c: Config) returns (tail: Bits)
    requires Carried(Filled(c))
    ensures AllBits(Write(c)) == ConfigBits(Filled(c)) + tail
  {
    hide BitsOf, AllBits, Written, WriteFields, Filled, Carried, ConfigBits, FlushBits;
    var w := WriteFields(c);
    WritesBits(c);
    FlushAppends(w);
    var out, pad := FlushBits(w).out, BitsOf(0, Padding(w.n));
    AllBitsAppend(out, SUFFIX);
    tail := pad + AllBits(SUFFIX);
    assert ConfigBits(Filled(c)) + pad + AllBits(SUFFIX) == ConfigBits(Filled(c)) + tail;
  }

  /** Main result: writing a configuration and parsing the bytes gives it back, its table indices filled
      in, exactly when the format can carry it. */
  lemma RoundTrip(c: Config)
    ensures Parse(Write(c)) == Ok(Filled(c)) <==> Carried(Filled(c))
  {
    hide Parse, Write, ConfigBits, Filled, Carried;
    if Parse(Write(c)) == Ok(Filled(c)) { ParsedIsCarried(Write(c)); }
    if Carried(Filled(c)) {
      var tail := WrittenBytes(c);
      ParsesBits(Write(c), Filled(c), tail);
    }
  }

  lemma {:induction false} Found(table: seq<int>, i: nat, n: nat, default: nat)
    requires i < n <= |table| && forall a, b :: 0 <= a < b < |table| ==> table[a] != table[b]
    ensures Find(table, table[i], n, default) == i
  {
    if i < n - 1 { Found(table, i, n - 1, default); }
  }

  lemma {:induction false} NotFound(table: seq<int>, x: int, n: nat, default: nat)
    requires n <= |table| && x !in table
    ensures Find(table, x, n, default) == default
  {
    if n > 0 { NotFound(table, x, n - 1, default); }
  }

  /** A rate and a layout of the tables are enough: the indices are found, and what comes back has the
      rate, the layout and the type asked for. */
  lemma TablesAreEnough(t: nat, i: nat, j: nat)
    requires t <= 95 && t != 31 && i < |RATES| && j < |LAYOUTS|
    ensures Parse(Write(Config(RATES[i], LAYOUTS[j], t, 0, 0))) == Ok(Config(RATES[i], LAYOUTS[j], t, i, j))
  {
    hide Parse, Write, Find;
    Found(RATES, i, |RATES|, 0);
    Found(LAYOUTS, j, |LAYOUTS|, 0);
    RoundTrip(Config(RATES[i], LAYOUTS[j], t, 0, 0));
  }

  /** An escape value, a rate of 25 bits and a rate that is in no table do not come back. */
  lemma NotCarried(t: nat, rate: int)
    requires rate !in RATES
    ensures Parse(Write(Config(44100, 6, 31, 4, 2))) != Ok(Config(44100, 6, 31, 4, 2))
    ensures Parse(Write(Config(0x100_0000, 6, t, 15, 2))) != Ok(Config(0x100_0000, 6, t, 15, 2))
    ensures Parse(Write(Config(rate, 6, t, 0, 2))) != Ok(Config(rate, 6, t, 0, 2))
  {
    hide Parse, Write, Find;
    NotFound(RATES, rate, |RATES|, 0);
    RoundTrip(Config(44100, 6, 31, 4, 2));
    RoundTrip(Config(0x100_0000, 6, t, 15, 2));
    RoundTrip(Config(rate, 6, t, 0, 2));
  }
}
