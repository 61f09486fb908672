/** codec/aac/parser.go: the 7-byte ADTS header, filled into a buffer in place and parsed. */
module AdtsHeader {
  import opened Bytes
  import A = AacConfig

  datatype Fields = Fields(config: A.Config, headerLength: nat, frameLength: nat, samples: nat)

  datatype Result = Header(fields: Fields) | Invalid

  const LENGTH: nat := 7
  const MAX_FRAME: nat := 8192

  /** FillADTSHeader refuses everything else. */
  predicate Fillable(room: nat, c: A.Config, samples: int, payloadLength: int) {
    && room >= LENGTH && c.objectType > 0
    && c.rateIndex < |A.RATES| && c.channelConfig < |A.LAYOUTS|
    && samples > 0 && samples % 1024 == 0
    && 0 <= payloadLength && payloadLength + LENGTH < MAX_FRAME
  }

  /** Type, rate index and the high bit of the channel configuration. */
  function Byte2(kind: nat, rateIndex: nat, channels: nat): byte {
    kind % 4 * 64 + rateIndex % 16 * 4 + channels / 4 % 2
  }

  /** Its low bits, two bits of the length, and four bits of what stood there before. */
  function Byte3(before: byte, channels: nat, size: nat): byte {
    channels % 4 * 64 + before as int % 64 / 4 * 4 + size / 2048 % 4
  }

  function Byte5(size: nat): byte {
    size % 8 * 32 + 31
  }

  function Byte6(blocks: nat): byte {
    252 + blocks % 4
  }

  function Filled(before: byte, c: A.Config, samples: int, payloadLength: int): (h: seq<byte>)
    requires Fillable(LENGTH, c, samples, payloadLength)
    ensures |h| == LENGTH
  {
    var size := payloadLength + LENGTH;
    [0xFF, 0xF1, Byte2(c.objectType - 1, c.rateIndex, c.channelConfig), Byte3(before, c.channelConfig, size),
     size / 8 % 256, Byte5(size), Byte6(samples / 1024 - 1)]
  }

  function Kind(b: byte): nat { b as int / 64 + 1 }
  function RateIndex(b: byte): nat { b as int / 4 % 16 }
  function Channels(b2: byte, b3: byte): nat { b2 as int % 2 * 4 + b3 as int / 64 }
  function FrameLength(b3: byte, b4: byte, b5: byte): nat { b3 as int % 4 * 2048 + b4 as int * 8 + b5 as int / 32 }
  function Samples(b: byte): nat { (b as int % 4 + 1) * 1024 }

  predicate Synced(b0: byte, b1: byte) {
    b0 == 0xFF && b1 as int / 16 == 15 && b1 as int % 8 / 2 == 0
  }

  function Parse(frame: seq<byte>): Result {
    if |frame| < LENGTH || !Synced(frame[0], frame[1]) then Invalid else
    var rateIndex, channels := RateIndex(frame[2]), Channels(frame[2], frame[3]);
    if rateIndex >= |A.RATES| || channels >= |A.LAYOUTS| then Invalid else
    var config := A.Complete(A.Config(0, 0, Kind(frame[2]), rateIndex, channels));
    var frameLength := FrameLength(frame[3], frame[4], frame[5]);
    var headerLength := if frame[1] as int % 2 == 0 then 9 else 7;
    if |frame| < headerLength || frameLength < headerLength then Invalid
    else Header(Fields(config, headerLength, frameLength, Samples(frame[6])))
  }

  lemma KindAndRate(kind: nat, rateIndex: nat, channels: nat)
    requires rateIndex < 16 && channels < 8
    ensures var b := Byte2(kind, rateIndex, channels);
            Kind(b) == kind % 4 + 1 && RateIndex(b) == rateIndex && b as int % 2 == channels / 4
  {
    var k, h := kind % 4, channels / 4;
    assert (k * 64 + rateIndex * 4 + h) / 4 == k * 16 + rateIndex;
  }

  lemma ChannelBits(before: byte, channels: nat, size: nat)
    requires channels < 8 && size < MAX_FRAME
    ensures var b := Byte3(before, channels, size);
            b as int / 64 == channels % 4 && b as int % 4 == size / 2048
  {
    var s := before as int % 64 / 4;
    assert (channels % 4 * 64 + s * 4 + size / 2048) % 4 == size / 2048;
  }

  lemma LengthBits(before: byte, channels: nat, size: nat)
    requires channels < 8 && size < MAX_FRAME
    ensures FrameLength(Byte3(before, channels, size), size / 8 % 256, Byte5(size)) == size
  {
    ChannelBits(before, channels, size);
    assert size / 8 == size / 2048 * 256 + size / 8 % 256 by { assert size / 8 / 256 == size / 2048; }
    assert Byte5(size) as int / 32 == size % 8;
  }

  lemma SampleBits(blocks: nat)
    ensures Samples(Byte6(blocks)) == (blocks % 4 + 1) * 1024
  {
  }

  /** What parsing finds of each field. */
  lemma ParsedFields(before: byte, c: A.Config, samples: int, payloadLength: int, payload: seq<byte>)
    requires Fillable(LENGTH, c, samples, payloadLength)
    ensures Parse(Filled(before, c, samples, payloadLength) + payload)
              == Header(Fields(A.Complete(A.Config(0, 0, (c.objectType - 1) % 4 + 1, c.rateIndex, c.channelConfig)),
                               LENGTH, payloadLength + LENGTH, ((samples / 1024 - 1) % 4 + 1) * 1024))
  {
    hide Kind, RateIndex, FrameLength, Samples, Byte2, Byte3, Byte5, Byte6, Channels, A.Complete, Synced;
    var size: nat, kind: nat, blocks: nat := payloadLength + LENGTH, c.objectType - 1, samples / 1024 - 1;
    KindAndRate(kind, c.rateIndex, c.channelConfig);
    ChannelsBack(before, kind, c.rateIndex, c.channelConfig, size);
    LengthBits(before, c.channelConfig, size);
    SampleBits(blocks);
    SyncIs();
    var h := Filled(before, c, samples, payloadLength);
    var frame := h + payload;
    assert frame[0] == 0xFF && frame[1] == 0xF1;
    assert frame[2] == h[2] && frame[3] == h[3] && frame[4] == h[4] && frame[5] == h[5] && frame[6] == h[6];
  }

  lemma ChannelsBack(before: byte, kind: nat, rateIndex: nat, channels: nat, size: nat)
    requires rateIndex < 16 && channels < 8 && size < MAX_FRAME
    ensures Channels(Byte2(kind, rateIndex, channels), Byte3(before, channels, size)) == channels
  {
    KindAndRate(kind, rateIndex, channels);
    ChannelBits(before, channels, size);
    hide Byte2, Byte3;
  }

  lemma SyncIs()
    ensures Synced(0xFF, 0xF1)
  {
  }

  /** Main result: a filled header, whatever stood in the buffer, parses to the length of header and
      payload, and to the configuration, its rate and layout those of its indices, and the sample count,
      exactly when the type is one of the first four and there are at most 4096 samples. */
  lemma RoundTrip(before: byte, c: A.Config, samples: int, payloadLength: int, payload: seq<byte>)
    requires Fillable(LENGTH, c, samples, payloadLength)
    ensures var parsed := Parse(Filled(before, c, samples, payloadLength) + payload);
            && parsed.Header? && parsed.fields.headerLength == LENGTH &&
              parsed.fields.frameLength == payloadLength + LENGTH
            && (parsed.fields.config == A.Complete(c) && parsed.fields.samples == samples <==>
                c.objectType <= 4 && samples <= 4096)
  {
    hide Parse, Filled;
    ParsedFields(before, c, samples, payloadLength, payload);
    TwoBits(c.objectType);
    TwoBits(samples / 1024);
    assert samples == samples / 1024 * 1024;
  }

  /** A field of two bits that counts from 1 carries 1 to 4. */
  lemma TwoBits(n: nat)
    requires n > 0
    ensures (n - 1) % 4 + 1 == n <==> n <= 4
  {
  }

  /** The two writes of place 3. */
  method FillChannels(header: array<byte>, channels: nat, size: nat)
    requires header.Length >= LENGTH && channels < 8 && size < MAX_FRAME
    modifies header
    ensures header[..] == old(header[..])[3 := Byte3(old(header[3]), channels, size)]
  {
    var h := header[3] as int % 64;
    header[3] := h + channels % 4 * 64;
    KeepHigh(h, channels % 4);
    header[3] := header[3] as int / 4 * 4 + size / 2048 % 4;
  }

  lemma KeepHigh(h: nat, ch: nat)
    requires h < 64
    ensures (h + ch * 64) / 4 * 4 == h / 4 * 4 + ch * 64
  {
    assert (h + ch * 64) / 4 == h / 4 + ch * 16;
  }

  /** The low bits of the length and the blocks go into the ones already there. */
  method FillEnd(header: array<byte>, size: nat, blocks: nat)
    requires header.Length >= LENGTH && header[5] == 0xFF && header[6] == 0xFF
    modifies header
    ensures header[..] == old(header[..])[5 := Byte5(size)][6 := Byte6(blocks)]
  {
    header[5] := header[5] as int % 32 + size % 8 * 32;
    header[6] := header[6] as int / 4 * 4 + blocks % 4;
  }

  /** FillADTSHeader; false leaves the buffer alone. */
  method FillADTSHeader(header: array<byte>, c: A.Config, samples: int, payloadLength: int) returns (ok: bool)
    modifies header
    ensures ok == Fillable(header.Length, c, samples, payloadLength)
    ensures ok ==> header[..] == Filled(old(header[3]), c, samples, payloadLength) + old(header[LENGTH..])
    ensures !ok ==> header[..] == old(header[..])
  {
    if header.Length < LENGTH || c.objectType == 0 || c.rateIndex >= |A.RATES| ||
      c.channelConfig >= |A.LAYOUTS| { return false; }
    if samples <= 0 || samples % 1024 != 0 || payloadLength < 0 { return false; }
    var size: nat := payloadLength + LENGTH;
    if size >= MAX_FRAME { return false; }
    hide Byte2, Byte3, Byte5, Byte6;
    header[0], header[1], header[5], header[6] := 0xFF, 0xF1, 0xFF, 0xFF;
    header[2] := Byte2(c.objectType - 1, c.rateIndex, c.channelConfig);
    FillChannels(header, c.channelConfig, size);
    header[4] := size / 8 % 256;
    FillEnd(header, size, samples / 1024 - 1);
    ghost var h := Filled(old(header[3]), c, samples, payloadLength);
    assert header[0] == h[0] && header[1] == h[1] && header[2] == h[2] && header[3] == h[3];
    assert header[4] == h[4] && header[5] == h[5] && header[6] == h[6];
    hide Filled;
    assert header[LENGTH..] == old(header[LENGTH..]);
    assert header[..] == header[..LENGTH] + header[LENGTH..] && header[..LENGTH] == h;
    ok := true;
  }
}
