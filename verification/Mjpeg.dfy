/** format/rtp/mjpeg.go: JPEG frames put together from RTP fragments (RFC 2435). */
module Mjpeg {
  import opened Bytes
  import opened Wrappers

  const MAIN_HEADER: nat := 8
  const RESTART_HEADER: nat := 4
  const QTABLE_HEADER: nat := 4

  datatype Fragment = Fragment(off: nat, data: seq<byte>)

  datatype Table = Table(precision: byte, data: seq<byte>)

  /** What the headers of a frame are rebuilt from. */
  datatype Shape = Shape(kind: byte, width: byte, height: byte, quality: byte, restartInterval: nat, table: Table)

  /** The bytes in front of the scan data; they depend on the shape alone. */
  type Builder = Shape -> seq<byte>

  datatype Emitted = Emitted(data: seq<byte>, timestamp: nat)

  datatype Demuxer = Demuxer(
    fragments: seq<Fragment>, lastTimestamp: nat, headers: seq<byte>, restartInterval: nat,
    cached: map<byte, Table>, out: seq<Emitted>)

  // ----- Assembling -----

  /** Into a list ordered by offset. */
  function Insert(fs: seq<Fragment>, f: Fragment): seq<Fragment> {
    if fs == [] || f.off < fs[0].off then [f] + fs else [fs[0]] + Insert(fs[1..], f)
  }

  function Sort(fs: seq<Fragment>): seq<Fragment> {
    if fs == [] then [] else Insert(Sort(fs[..|fs| - 1]), fs[|fs| - 1])
  }

  /** The data of consecutive fragments, none if there is a gap. */
  function Gather(fs: seq<Fragment>, expected: nat): Option<seq<byte>> {
    if fs == [] then Some([])
    else if fs[0].off != expected then None
    else match Gather(fs[1..], expected + |fs[0].data|)
      case None => None
      case Some(rest) => Some(fs[0].data + rest)
  }

  predicate EndsImage(data: seq<byte>) {
    |data| >= 2 && data[|data| - 2] == 0xFF && data[|data| - 1] == 0xD9
  }

  function Closed(data: seq<byte>): seq<byte> {
    if EndsImage(data) then data else data + [0xFF, 0xD9]
  }

  /** assembleFrame: a frame without its start or with a gap is dropped. */
  function Assemble(d: Demuxer): (Demuxer, bool) {
    if d.fragments == [] then (d, false) else
    match Gather(Sort(d.fragments), 0)
    case None => (d.(fragments := []), true)
    case Some(scan) =>
      (d.(fragments := [], restartInterval := 0, out := d.out + [Emitted(Closed(d.headers + scan), d.lastTimestamp)]),
       true)
  }

  // ----- Parsing -----

  /** The quantization table header of a first packet: what is left behind it, and the table in
      force. None when it is cut short. */
  function ReadTables(d: Demuxer, quality: byte, b: seq<byte>): Option<(Demuxer, Table, seq<byte>)> {
    if |b| < QTABLE_HEADER then None else
    var precision, length, rest := b[1], Get16(b, 2), b[QTABLE_HEADER..];
    if length == 0 then
      Some((d, if quality < 255 && quality in d.cached then d.cached[quality] else Table(precision, []), rest))
    else if |rest| < length then None
    else
      var table := Table(precision, rest[..length]);
      Some((if quality < 255 then d.(cached := d.cached[quality := table]) else d, table, rest[length..]))
  }

  /** One payload; false is an error. */
  function Parse(d: Demuxer, b: seq<byte>, timestamp: nat, marker: bool, build: Builder): (Demuxer, bool) {
    if |b| < MAIN_HEADER then (d, false) else
    var off, kind, quality, body := Get24(b, 1), b[4], b[5], b[MAIN_HEADER..];
    var restart := 64 <= kind <= 127;
    if restart && |body| < RESTART_HEADER then (d, false) else
    var d1 := if restart then d.(restartInterval := Get16(body, 0)) else d;
    var rest := if restart then body[RESTART_HEADER..] else body;
    if quality >= 128 && off == 0 then
      match ReadTables(d1, quality, rest)
      case None => (d1, false)
      case Some((d2, table, data)) => Take(Begin(d2, Shape(kind, b[6], b[7], quality, d2.restartInterval, table),
                                                 timestamp, build), off, data, marker)
    else if off == 0 then
      Take(Begin(d1, Shape(kind, b[6], b[7], quality, d1.restartInterval, Table(0, [])), timestamp, build), off, rest,
           marker)
    else if d1.lastTimestamp != timestamp then (d1.(fragments := []), true)
    else Take(d1, off, rest, marker)
  }

  /** The first fragment of a frame. */
  function Begin(d: Demuxer, shape: Shape, timestamp: nat, build: Builder): Demuxer {
    d.(fragments := [], lastTimestamp := timestamp, headers := build(shape))
  }

  function Take(d: Demuxer, off: nat, data: seq<byte>, marker: bool): (Demuxer, bool) {
    var taken := d.(fragments := d.fragments + [Fragment(off, data)]);
    if marker then Assemble(taken) else (taken, true)
  }

  // ----- A frame in pieces -----

  /** Where piece i begins. */
  function Offset(pieces: seq<seq<byte>>, i: nat): nat
    requires i <= |pieces|
  {
    if i == 0 then 0 else Offset(pieces, i - 1) + |pieces[i - 1]|
  }

  function Join(pieces: seq<seq<byte>>, i: nat): seq<byte>
    requires i <= |pieces|
    decreases |pieces| - i
  {
    if i == |pieces| then [] else pieces[i] + Join(pieces, i + 1)
  }

  ghost predicate Pieces(pieces: seq<seq<byte>>) {
    && pieces != [] && (forall i :: 0 <= i < |pieces| ==> pieces[i] != [])
    && Offset(pieces, |pieces|) < 0x100_0000
  }

  lemma {:induction false} OffsetsGrow(pieces: seq<seq<byte>>, i: nat, j: nat)
    requires i < j <= |pieces| && forall k :: 0 <= k < |pieces| ==> pieces[k] != []
    ensures Offset(pieces, i) < Offset(pieces, j)
    decreases j
  {
    if i < j - 1 { OffsetsGrow(pieces, i, j - 1); }
  }

  function Piece(pieces: seq<seq<byte>>, i: nat): Fragment
    requires i < |pieces|
  {
    Fragment(Offset(pieces, i), pieces[i])
  }

  /** What the sender says about the frame. */
  datatype Frame = Frame(kind: byte, width: byte, height: byte, quality: byte, interval: nat, table: Table)

  function U24(n: nat): seq<byte> {
    [n / 0x1_0000 % 256, n / 0x100 % 256, n % 256]
  }

  /** The headers of a fragment (sections 3.1, 3.1.7 and 3.1.8 of RFC 2435). */
  function HeaderOf(f: Frame, off: nat): seq<byte> {
    [0] + U24(off) + [f.kind, f.quality, f.width, f.height] +
    (if 64 <= f.kind <= 127 then U16(f.interval) + [0xFF, 0xFF] else []) +
    (if f.quality >= 128 && off == 0 then [0, f.table.precision] + U16(|f.table.data|) + f.table.data else [])
  }

  function PayloadOf(f: Frame, piece: Fragment): seq<byte> {
    HeaderOf(f, piece.off) + piece.data
  }

  predicate FrameOk(f: Frame) {
    f.interval < 0x1_0000 && |f.table.data| < 0x1_0000
  }

  /** The table a frame is decoded with: none below quality 128; else its own, or, if it sends none, the
      one kept for its quality. */
  function TableOf(cached: map<byte, Table>, f: Frame): Table {
    if f.quality < 128 then Table(0, [])
    else if f.table.data == [] && f.quality < 255 && f.quality in cached then cached[f.quality]
    else f.table
  }

  /** The restart interval in force when the first fragment is parsed. */
  function IntervalOf(d: Demuxer, f: Frame): nat {
    if 64 <= f.kind <= 127 then f.interval else d.restartInterval
  }

  function ShapeOf(d: Demuxer, f: Frame): Shape {
    Shape(f.kind, f.width, f.height, f.quality, IntervalOf(d, f), TableOf(d.cached, f))
  }

  lemma Get24U24(b: seq<byte>, pos: nat, n: nat)
    requires pos + 3 <= |b| && b[pos..pos + 3] == U24(n) && n < 0x100_0000
    ensures Get24(b, pos) == n
  {
    var w := b[pos..pos + 3];
    assert b[pos] == w[0] && b[pos + 1] == w[1] && b[pos + 2] == w[2];
    assert n / 0x100 / 0x100 == n / 0x1_0000;
  }

  /** The fixed header is read back, wherever it came from. */
  lemma MainHeader(f: Frame, piece: Fragment)
    requires piece.off < 0x100_0000
    ensures var b := PayloadOf(f, piece);
            var restart := if 64 <= f.kind <= 127 then U16(f.interval) + [0xFF, 0xFF] else [];
            var tables := if f.quality >= 128 && piece.off == 0
              then [0, f.table.precision] + U16(|f.table.data|) + f.table.data else [];
            && |b| >= MAIN_HEADER && Get24(b, 1) == piece.off && b[4] == f.kind && b[5] == f.quality &&
              b[6] == f.width && b[7] == f.height
            && b[MAIN_HEADER..] == restart + (tables + piece.data)
  {
    hide U16, U24, Get24;
    var b := PayloadOf(f, piece);
    U24Length(piece.off);
    var restart := if 64 <= f.kind <= 127 then U16(f.interval) + [0xFF, 0xFF] else [];
    var tables := if f.quality >= 128 && piece.off == 0 then [0, f.table.precision] + U16(|f.table.data|) + f.table.data
      else [];
    var main := [0] + U24(piece.off) + [f.kind, f.quality, f.width, f.height];
    assert b == main + (restart + (tables + piece.data));
    assert b[1..4] == U24(piece.off);
    Get24U24(b, 1, piece.off);
  }

  lemma U24Length(n: nat)
    ensures |U24(n)| == 3
  {
  }

  /** A later fragment joins the ones before, if its frame is still the current one. */
  lemma ParseLater(d: Demuxer, f: Frame, piece: Fragment, timestamp: nat, marker: bool, build: Builder)
    requires FrameOk(f) && 0 < piece.off < 0x100_0000 && d.lastTimestamp == timestamp
    ensures Parse(d, PayloadOf(f, piece), timestamp, marker, build) ==
            Take(d.(restartInterval := IntervalOf(d, f)), piece.off, piece.data, marker)
  {
    hide U16, Get16, Get24, PayloadOf, Take;
    MainHeader(f, piece);
    var body := PayloadOf(f, piece)[MAIN_HEADER..];
    assert [] + piece.data == piece.data;
    RestartHeader(f, body, piece.data);
  }

  /** A later fragment of another frame than the current one drops what is held. */
  lemma ParseStray(d: Demuxer, f: Frame, piece: Fragment, timestamp: nat, marker: bool, build: Builder)
    requires FrameOk(f) && 0 < piece.off < 0x100_0000 && d.lastTimestamp != timestamp
    ensures Parse(d, PayloadOf(f, piece), timestamp, marker, build) ==
            (d.(restartInterval := IntervalOf(d, f), fragments := []), true)
  {
    hide U16, Get16, Get24, PayloadOf, Take;
    MainHeader(f, piece);
    var body := PayloadOf(f, piece)[MAIN_HEADER..];
    assert [] + piece.data == piece.data;
    RestartHeader(f, body, piece.data);
  }

  lemma RestartHeader(f: Frame, body: seq<byte>, rest: seq<byte>)
    requires f.interval < 0x1_0000 &&
               body == (if 64 <= f.kind <= 127 then U16(f.interval) + [0xFF, 0xFF] else []) + rest
    ensures 64 <= f.kind <= 127 ==>
              |body| >= RESTART_HEADER && Get16(body, 0) == f.interval && body[RESTART_HEADER..] == rest
    ensures !(64 <= f.kind <= 127) ==> body == rest
  {
    hide U16, Get16;
    if 64 <= f.kind <= 127 {
      assert body[0..2] == U16(f.interval);
      Get16U16(body, 0, f.interval);
    }
  }

  function Caching(d: Demuxer, f: Frame): map<byte, Table> {
    if 128 <= f.quality < 255 && f.table.data != [] then d.cached[f.quality := f.table] else d.cached
  }

  /** The table header is read back; an empty one refers to the table kept for the quality. */
  lemma TablesRead(d: Demuxer, f: Frame, data: seq<byte>)
    requires FrameOk(f) && f.quality >= 128
    ensures ReadTables(d, f.quality, [0, f.table.precision] + U16(|f.table.data|) + f.table.data + data)
              == Some((d.(cached := Caching(d, f)), TableOf(d.cached, f), data))
  {
    hide U16, Get16;
    var b := [0, f.table.precision] + U16(|f.table.data|) + f.table.data + data;
    assert b[2..4] == U16(|f.table.data|);
    Get16U16(b, 2, |f.table.data|);
    assert b[QTABLE_HEADER..] == f.table.data + data;
    assert b[QTABLE_HEADER..][..|f.table.data|] == f.table.data && b[QTABLE_HEADER..][|f.table.data|..] == data;
  }

  /** The first fragment starts the frame over, with headers rebuilt from what it says, its tables
      those it carries or, when it carries none, those kept for its quality. */
  lemma ParseFirst(d: Demuxer, f: Frame, piece: Fragment, timestamp: nat, marker: bool, build: Builder)
    requires FrameOk(f) && piece.off == 0
    ensures Parse(d, PayloadOf(f, piece), timestamp, marker, build) ==
            Take(d.(restartInterval := IntervalOf(d, f), cached := Caching(d, f), fragments := [],
                    lastTimestamp := timestamp,
                    headers := build(ShapeOf(d, f))), 0, piece.data, marker)
  {
    hide U16, Get16, Get24, PayloadOf, Take, ReadTables, TableOf;
    MainHeader(f, piece);
    var body := PayloadOf(f, piece)[MAIN_HEADER..];
    var tables := if f.quality >= 128 then [0, f.table.precision] + U16(|f.table.data|) + f.table.data else [];
    RestartHeader(f, body, tables + piece.data);
    if f.quality >= 128 {
      TablesRead(d.(restartInterval := IntervalOf(d, f)), f, piece.data);
    } else {
      NoTable(d, f);
      assert tables + piece.data == piece.data;
    }
  }

  lemma NoTable(d: Demuxer, f: Frame)
    requires f.quality < 128
    ensures TableOf(d.cached, f) == Table(0, [])
  {
  }

  // ----- Sorting pieces -----

  function Indexed(pieces: seq<seq<byte>>, js: seq<nat>): seq<Fragment>
    requires forall k :: 0 <= k < |js| ==> js[k] < |pieces|
  {
    seq(|js|, k requires 0 <= k < |js| => Piece(pieces, js[k]))
  }

  function InsertIndex(js: seq<nat>, x: nat): (r: seq<nat>)
    ensures |r| == |js| + 1 && forall y :: y in r <==> y in js || y == x
  {
    if js == [] || x < js[0] then [x] + js else [js[0]] + InsertIndex(js[1..], x)
  }

  function SortIndices(ds: seq<nat>): (r: seq<nat>)
    ensures |r| == |ds| && forall y :: y in r <==> y in ds
  {
    if ds == [] then [] else InsertIndex(SortIndices(ds[..|ds| - 1]), ds[|ds| - 1])
  }

  ghost predicate Increasing(js: seq<nat>) {
    forall i, j :: 0 <= i < j < |js| ==> js[i] < js[j]
  }

  lemma {:induction false} InsertIncreasing(js: seq<nat>, x: nat)
    requires Increasing(js) && x !in js
    ensures Increasing(InsertIndex(js, x))
  {
    if js != [] && x >= js[0] {
      InsertIncreasing(js[1..], x);
      var tail := InsertIndex(js[1..], x);
      forall k | 0 <= k < |tail| ensures js[0] < tail[k] {
        assert tail[k] in js[1..] || tail[k] == x;
      }
    }
  }

  ghost predicate Distinct(ds: seq<nat>) {
    forall i, j :: 0 <= i < j < |ds| ==> ds[i] != ds[j]
  }

  lemma {:induction false} SortIncreasing(ds: seq<nat>)
    requires Distinct(ds)
    ensures Increasing(SortIndices(ds))
  {
    if ds != [] {
      var front, x := ds[..|ds| - 1], ds[|ds| - 1];
      SortIncreasing(front);
      assert x !in front;
      InsertIncreasing(SortIndices(front), x);
    }
  }

  lemma {:induction false} InsertMatches(pieces: seq<seq<byte>>, js: seq<nat>, x: nat)
    requires Pieces(pieces) && (forall k :: 0 <= k < |js| ==> js[k] < |pieces|) && x < |pieces| && x !in js
    ensures forall k :: 0 <= k < |InsertIndex(js, x)| ==> InsertIndex(js, x)[k] < |pieces|
    ensures Insert(Indexed(pieces, js), Piece(pieces, x)) == Indexed(pieces, InsertIndex(js, x))
  {
    if js != [] {
      if x < js[0] { OffsetsGrow(pieces, x, js[0]); } else { OffsetsGrow(pieces, js[0], x); }
      assert Indexed(pieces, js)[1..] == Indexed(pieces, js[1..]);
      if x > js[0] {
        InsertMatches(pieces, js[1..], x);
        assert Indexed(pieces, InsertIndex(js, x)) == [Piece(pieces, js[0])] + Indexed(pieces, InsertIndex(js[1..], x));
      }
    }
  }

  /** Sorting by offset is sorting by index. */
  lemma {:induction false} SortMatches(pieces: seq<seq<byte>>, ds: seq<nat>)
    requires Pieces(pieces) && Distinct(ds) && forall k :: 0 <= k < |ds| ==> ds[k] < |pieces|
    ensures forall k :: 0 <= k < |SortIndices(ds)| ==> SortIndices(ds)[k] < |pieces|
    ensures Sort(Indexed(pieces, ds)) == Indexed(pieces, SortIndices(ds))
  {
    hide Pieces;
    if ds != [] {
      var front, x := ds[..|ds| - 1], ds[|ds| - 1];
      SortMatches(pieces, front);
      assert Indexed(pieces, ds)[..|ds| - 1] == Indexed(pieces, front);
      assert x !in front;
      InsertMatches(pieces, SortIndices(front), x);
    }
  }

  /** Ordered pieces gather exactly when none from k on is missing. */
  lemma {:induction false} GatherIndices(pieces: seq<seq<byte>>, js: seq<nat>, k: nat)
    requires Pieces(pieces) && Increasing(js) && (forall i :: 0 <= i < |js| ==> k <= js[i] < |pieces|)
    requires k <= |pieces| && (k < |pieces| ==> |pieces| - 1 in js)
    ensures |js| <= |pieces| - k
    ensures Gather(Indexed(pieces, js), Offset(pieces, k)) == if |js| == |pieces| - k then Some(Join(pieces, k))
              else None
    decreases |js|
  {
    if js != [] {
      assert Indexed(pieces, js)[1..] == Indexed(pieces, js[1..]);
      var j := js[0];
      assert forall i :: 0 <= i < |js| - 1 ==> js[1..][i] == js[i + 1];
      assert |js| > 1 ==> j < js[1] < |pieces|;
      GatherIndices(pieces, js[1..], j + 1);
      if k < j { OffsetsGrow(pieces, k, j); }
    }
  }

  // ----- Delivering a frame -----

  /** The fragments ds of a frame, in that order; the final one of the frame is marked. */
  function Deliver(d: Demuxer, f: Frame, pieces: seq<seq<byte>>, ds: seq<nat>, timestamp: nat,
                   build: Builder): (Demuxer, bool)
    requires forall k :: 0 <= k < |ds| ==> ds[k] < |pieces|
    decreases |ds|
  {
    if ds == [] then (d, true) else
    var (d', ok) := Parse(d, PayloadOf(f, Piece(pieces, ds[0])), timestamp, ds[0] == |pieces| - 1, build);
    var (end, allOk) := Deliver(d', f, pieces, ds[1..], timestamp, build);
    (end, ok && allOk)
  }

  lemma {:induction false} DeliverRest(d: Demuxer, f: Frame, pieces: seq<seq<byte>>, ds: seq<nat>, timestamp: nat,
                                       build: Builder)
    requires FrameOk(f) && Pieces(pieces) && d.lastTimestamp == timestamp && ds != []
    requires forall k :: 0 <= k < |ds| ==> 0 < ds[k] < |pieces| && (ds[k] == |pieces| - 1 <==> k == |ds| - 1)
    ensures Deliver(d, f, pieces, ds, timestamp, build) ==
            Assemble(d.(restartInterval := IntervalOf(d, f), fragments := d.fragments + Indexed(pieces, ds)))
    decreases |ds|
  {
    hide PayloadOf, Parse, Assemble;
    var piece := Piece(pieces, ds[0]);
    OffsetsGrow(pieces, 0, ds[0]);
    OffsetsGrow(pieces, ds[0], |pieces|);
    ParseLater(d, f, piece, timestamp, ds[0] == |pieces| - 1, build);
    assert Indexed(pieces, ds) == [piece] + Indexed(pieces, ds[1..]);
    assert d.fragments + ([piece] + Indexed(pieces, ds[1..])) == (d.fragments + [piece]) + Indexed(pieces, ds[1..]);
    if |ds| == 1 {
      assert Indexed(pieces, ds) == [piece];
      AssembleOk(d.(restartInterval := IntervalOf(d, f), fragments := d.fragments + [piece]));
      var d' := Parse(d, PayloadOf(f, piece), timestamp, true, build).0;
      assert Deliver(d', f, pieces, ds[1..], timestamp, build) == (d', true);
    } else {
      var d' := d.(restartInterval := IntervalOf(d, f), fragments := d.fragments + [piece]);
      DeliverRest(d', f, pieces, ds[1..], timestamp, build);
      AssembleOk(d'.(fragments := d'.fragments + Indexed(pieces, ds[1..])));
    }
  }

  lemma AssembleOk(d: Demuxer)
    requires d.fragments != []
    ensures Assemble(d).1
  {
    hide Sort, Gather;
  }

  /** Main result: the fragments of a frame delivered with the first one first and the final one,
      marked, last, the others in any order: when all are there exactly one packet comes out, the
      rebuilt headers followed by the exact scan data, closed by an end marker if it had none; when
      any is missing none does. */
  lemma FrameRoundTrip(d: Demuxer, f: Frame, pieces: seq<seq<byte>>, ds: seq<nat>, timestamp: nat, build: Builder)
    requires FrameOk(f) && Pieces(pieces) && Distinct(ds) && ds != [] && ds[0] == 0 && ds[|ds| - 1] == |pieces| - 1
    requires forall k :: 0 <= k < |ds| ==> ds[k] < |pieces|
    ensures |ds| <= |pieces|
    ensures var (d', ok) := Deliver(d, f, pieces, ds, timestamp, build);
            && ok && d'.fragments == [] && d'.cached == Caching(d, f)
            && d'.restartInterval == (if |ds| == |pieces| then 0 else IntervalOf(d, f))
            && d'.out == d.out + if |ds| == |pieces|
              then [Emitted(Closed(build(ShapeOf(d, f)) + Join(pieces, 0)), timestamp)] else []
  {
    hide PayloadOf, Parse, Sort, Gather, Closed, Pieces;
    var first := d.(restartInterval := IntervalOf(d, f), cached := Caching(d, f), fragments := [],
                    lastTimestamp := timestamp,
                    headers := build(ShapeOf(d, f)));
    DeliverFirst(d, f, pieces, ds, timestamp, build);
    GatherAll(first, pieces, ds);
  }

  /** Fragments held in any order, the final one among them, assemble exactly when all are there. */
  lemma GatherAll(d: Demuxer, pieces: seq<seq<byte>>, js: seq<nat>)
    requires Pieces(pieces) && Distinct(js) && js != [] && |pieces| - 1 in js
    requires forall k :: 0 <= k < |js| ==> js[k] < |pieces|
    ensures |js| <= |pieces|
    ensures var all := d.(fragments := Indexed(pieces, js));
            Assemble(all) ==
            (if |js| == |pieces| then
               d.(fragments := [], restartInterval := 0,
                  out := d.out + [Emitted(Closed(d.headers + Join(pieces, 0)), d.lastTimestamp)])
             else d.(fragments := []), true)
  {
    hide Sort, Gather, Closed;
    SortMatches(pieces, js);
    SortIncreasing(js);
    GatherIndices(pieces, SortIndices(js), 0);
  }

  lemma DeliverFirst(d: Demuxer, f: Frame, pieces: seq<seq<byte>>, ds: seq<nat>, timestamp: nat, build: Builder)
    requires FrameOk(f) && Pieces(pieces) && Distinct(ds) && ds != [] && ds[0] == 0 && ds[|ds| - 1] == |pieces| - 1
    requires forall k :: 0 <= k < |ds| ==> ds[k] < |pieces|
    ensures Deliver(d, f, pieces, ds, timestamp, build) ==
            Assemble(d.(restartInterval := IntervalOf(d, f), cached := Caching(d, f), fragments := Indexed(pieces, ds),
                        lastTimestamp := timestamp, headers := build(ShapeOf(d, f))))
  {
    hide PayloadOf, Parse, Assemble, ShapeOf, TableOf, Caching;
    var piece := Piece(pieces, 0);
    var begun := d.(restartInterval := IntervalOf(d, f), cached := Caching(d, f), fragments := [piece],
                    lastTimestamp := timestamp, headers := build(ShapeOf(d, f)));
    ParseFirst(d, f, piece, timestamp, |pieces| == 1, build);
    assert [] + [piece] == [piece];
    AssembleOk(begun);
    assert Indexed(pieces, ds) == [piece] + Indexed(pieces, ds[1..]);
    if |ds| == 1 {
      assert Indexed(pieces, ds) == [piece];
      assert Deliver(Assemble(begun).0, f, pieces, ds[1..], timestamp, build) == (Assemble(begun).0, true);
    } else {
      forall k | 0 <= k < |ds| - 1
        ensures 0 < ds[1..][k] < |pieces| && (ds[1..][k] == |pieces| - 1 <==> k == |ds| - 2)
      {
        assert ds[1..][k] == ds[k + 1] && ds[0] != ds[k + 1] && (k + 1 < |ds| - 1 ==> ds[k + 1] != ds[|ds| - 1]);
      }
      assert ds[0] != ds[|ds| - 1];
      DeliverRest(begun, f, pieces, ds[1..], timestamp, build);
      AssembleOk(begun.(fragments := begun.fragments + Indexed(pieces, ds[1..])));
    }
  }
}
