/** format/rtp/mjpeg.go over whole streams: fragments of any frames, lost, late and mixed, and which
    frames come out of them. */
module MjpegStream {
  import opened Bytes
  import opened Mjpeg
  import opened Wrappers

  /** A frame in pieces, as it is sent; its final piece is marked. */
  datatype Sent = Sent(frame: Frame, pieces: seq<seq<byte>>, timestamp: nat)

  /** One fragment that arrives: the piece of the frame. */
  datatype Arrival = Arrival(frame: nat, piece: nat)

  ghost predicate AllSentOk(sent: seq<Sent>) {
    && (forall k :: 0 <= k < |sent| ==> FrameOk(sent[k].frame) && Pieces(sent[k].pieces))
    && (forall k, l :: 0 <= k < l < |sent| ==> sent[k].timestamp != sent[l].timestamp)
  }

  /** Fragments may be lost and come in any order, those of different frames mixed; none comes twice. */
  ghost predicate Arrivals(sent: seq<Sent>, arrived: seq<Arrival>) {
    && AllOf(sent, arrived)
    && (forall i, j :: 0 <= i < j < |arrived| ==> arrived[i] != arrived[j])
  }

  predicate Of(sent: seq<Sent>, a: Arrival) {
    a.frame < |sent| && a.piece < |sent[a.frame].pieces|
  }

  predicate AllOf(sent: seq<Sent>, arrived: seq<Arrival>) {
    forall i :: 0 <= i < |arrived| ==> Of(sent, arrived[i])
  }

  predicate Marked(sent: seq<Sent>, a: Arrival)
    requires Of(sent, a)
  {
    a.piece == |sent[a.frame].pieces| - 1
  }

  predicate Restarts(f: Frame) {
    64 <= f.kind <= 127
  }

  /** Parsing the fragments that arrived, in that order. */
  function Receive(sent: seq<Sent>, arrived: seq<Arrival>, build: Builder): (Demuxer, bool)
    requires AllOf(sent, arrived)
  {
    if arrived == [] then (NEW, true) else
    var (d, ok) := Receive(sent, arrived[..|arrived| - 1], build);
    var a := arrived[|arrived| - 1];
    assert Of(sent, a);
    var s := sent[a.frame];
    var (end, last) := Parse(d, PayloadOf(s.frame, Piece(s.pieces, a.piece)), s.timestamp, Marked(sent, a), build);
    (end, ok && last)
  }

  const NEW: Demuxer := Demuxer([], 0, [], 0, map[], [])

  /** The frame of the last arrival came in one go, with it: all its fragments one right behind the
      other, the first one first, the marked one last. */
  ghost predicate Ends(sent: seq<Sent>, arrived: seq<Arrival>)
    requires AllOf(sent, arrived)
  {
    arrived != [] && Of(sent, arrived[|arrived| - 1]) &&
    var k, t := arrived[|arrived| - 1].frame, |arrived|;
    var n := |sent[k].pieces|;
    && 0 < n <= t && arrived[t - 1].piece == n - 1 && arrived[t - n].piece == 0
    && forall i :: t - n <= i < t ==> arrived[i].frame == k
  }

  /** The same, for the arrival at t. */
  ghost predicate EndsAt(sent: seq<Sent>, arrived: seq<Arrival>, t: nat)
    requires AllOf(sent, arrived) && t < |arrived|
  {
    Ends(sent, arrived[..t + 1])
  }

  /** The last table that arrived for a quality. */
  function LastTable(sent: seq<Sent>, arrived: seq<Arrival>, quality: byte): Option<Table>
    requires AllOf(sent, arrived)
  {
    if arrived == [] then None else
    var a := arrived[|arrived| - 1];
    assert Of(sent, a);
    var f := sent[a.frame].frame;
    if a.piece == 0 && f.quality == quality && f.table.data != [] then Some(f.table)
    else LastTable(sent, arrived[..|arrived| - 1], quality)
  }

  /** The restart interval left behind by what arrived: a packet that comes out clears it. */
  ghost function LeftInterval(sent: seq<Sent>, arrived: seq<Arrival>): nat
    requires AllOf(sent, arrived)
  {
    if arrived == [] || Ends(sent, arrived) then 0 else
    assert Of(sent, arrived[|arrived| - 1]);
    var f := sent[arrived[|arrived| - 1].frame].frame;
    if Restarts(f) then f.interval else LeftInterval(sent, arrived[..|arrived| - 1])
  }

  /** What frame f is rebuilt with when its first fragment comes behind those that arrived. */
  ghost function Rebuilt(sent: seq<Sent>, arrived: seq<Arrival>, f: Frame): Shape
    requires AllOf(sent, arrived)
  {
    var table :=
      if f.quality < 128 then Table(0, [])
      else if f.table.data == [] && f.quality < 255 && LastTable(sent, arrived, f.quality).Some?
        then LastTable(sent, arrived, f.quality).value
      else f.table;
    Shape(f.kind, f.width, f.height, f.quality, if Restarts(f) then f.interval else LeftInterval(sent, arrived), table)
  }

  /** The packet of frame k whose first fragment came behind those that arrived before. */
  ghost function PacketOf(sent: seq<Sent>, before: seq<Arrival>, k: nat, build: Builder): Emitted
    requires k < |sent| && AllOf(sent, before)
  {
    Emitted(Closed(build(Rebuilt(sent, before, sent[k].frame)) + Join(sent[k].pieces, 0)), sent[k].timestamp)
  }

  /** One packet for every frame that comes in one go. */
  ghost function Frames(sent: seq<Sent>, arrived: seq<Arrival>, build: Builder): seq<Emitted>
    requires AllOf(sent, arrived)
  {
    if arrived == [] then [] else
    assert Of(sent, arrived[|arrived| - 1]);
    var k := arrived[|arrived| - 1].frame;
    Frames(sent, arrived[..|arrived| - 1], build) +
    if Ends(sent, arrived) then [PacketOf(sent, arrived[..|arrived| - |sent[k].pieces|], k, build)] else []
  }

  // ----- The fragments held -----

  /** The timestamp of the frame that began last, and the pieces held, of the frame with that
      timestamp. */
  datatype Hold = Hold(ts: nat, frame: nat, js: seq<nat>)

  /** Joined by the last arrival, before the marker is looked at. */
  function Joined(sent: seq<Sent>, h: Hold, a: Arrival): Hold
    requires Of(sent, a)
  {
    var ts := sent[a.frame].timestamp;
    if a.piece == 0 then Hold(ts, a.frame, [0])
    else if h.ts == ts then Hold(ts, a.frame, h.js + [a.piece])
    else Hold(h.ts, h.frame, [])
  }

  function HoldOf(sent: seq<Sent>, arrived: seq<Arrival>): Hold
    requires AllOf(sent, arrived)
  {
    if arrived == [] then Hold(0, 0, []) else
    var a := arrived[|arrived| - 1];
    assert Of(sent, a);
    var h := Joined(sent, HoldOf(sent, arrived[..|arrived| - 1]), a);
    if Marked(sent, a) then h.(js := []) else h
  }

  /** What is held are the latest arrivals, of the one frame with the timestamp, and a first
      fragment comes first among them. */
  ghost predicate HoldsLatest(sent: seq<Sent>, arrived: seq<Arrival>, h: Hold) {
    h.js != [] ==>
      && |h.js| <= |arrived| && h.frame < |sent| && h.ts == sent[h.frame].timestamp
      && (forall i :: 0 <= i < |h.js| ==> arrived[|arrived| - |h.js| + i] == Arrival(h.frame, h.js[i]))
      && (forall i :: 0 < i < |h.js| ==> h.js[i] != 0)
  }

  lemma JoinedHolds(sent: seq<Sent>, front: seq<Arrival>, h: Hold, a: Arrival)
    requires AllSentOk(sent) && HoldsLatest(sent, front, h) && Of(sent, a)
    ensures HoldsLatest(sent, front + [a], Joined(sent, h, a))
  {
  }

  lemma {:induction false} HoldIs(sent: seq<Sent>, arrived: seq<Arrival>)
    requires AllSentOk(sent) && Arrivals(sent, arrived)
    ensures HoldsLatest(sent, arrived, HoldOf(sent, arrived))
  {
    if arrived != [] {
      var front, a := arrived[..|arrived| - 1], arrived[|arrived| - 1];
      HoldIs(sent, front);
      JoinedHolds(sent, front, HoldOf(sent, front), a);
      assert front + [a] == arrived;
    }
  }

  /** From a first fragment on, as long as its frame's unmarked fragments keep coming, all are held. */
  lemma {:induction false} HoldGrows(sent: seq<Sent>, arrived: seq<Arrival>, start: nat)
    requires Arrivals(sent, arrived) && start < |arrived| && arrived[start].piece == 0
    requires forall i :: start <= i < |arrived| ==>
               arrived[i].frame == arrived[start].frame && !Marked(sent, arrived[i])
    ensures var h := HoldOf(sent, arrived);
            h.frame == arrived[start].frame && h.ts == sent[h.frame].timestamp && |h.js| == |arrived| - start
  {
    if start < |arrived| - 1 { HoldGrows(sent, arrived[..|arrived| - 1], start); }
  }

  lemma HeldDistinct(sent: seq<Sent>, arrived: seq<Arrival>, h: Hold)
    requires Arrivals(sent, arrived) && HoldsLatest(sent, arrived, h) && h.js != []
    ensures Distinct(h.js) && forall i :: 0 <= i < |h.js| ==> h.js[i] < |sent[h.frame].pieces|
  {
    var from := |arrived| - |h.js|;
    forall i, j | 0 <= i < j < |h.js| ensures h.js[i] != h.js[j] {
      assert arrived[from + i] != arrived[from + j];
    }
    forall i | 0 <= i < |h.js| ensures h.js[i] < |sent[h.frame].pieces| {
      assert Of(sent, arrived[from + i]);
    }
  }

  /** All pieces of a frame: the first is among them. */
  lemma FirstIsIn(pieces: seq<seq<byte>>, js: seq<nat>)
    requires Pieces(pieces) && Distinct(js) && |pieces| - 1 in js && |js| == |pieces|
    requires forall k :: 0 <= k < |js| ==> js[k] < |pieces|
    ensures 0 in js
  {
    if 0 !in js {
      SortIncreasing(js);
      var sorted := SortIndices(js);
      forall k | 0 <= k < |sorted| ensures 1 <= sorted[k] < |pieces| {
        assert sorted[k] in sorted;
      }
      GatherIndices(pieces, sorted, 1);
    }
  }

  lemma PrefixArrives(sent: seq<Sent>, front: seq<Arrival>, a: Arrival)
    requires Arrivals(sent, front + [a])
    ensures Arrivals(sent, front) && Of(sent, a) && a !in front
  {
    var arrived := front + [a];
    assert arrived[|front|] == a && forall i :: 0 <= i < |front| ==> front[i] == arrived[i];
  }

  lemma InOneGoIsHeld(sent: seq<Sent>, front: seq<Arrival>, a: Arrival)
    requires AllOf(sent, front) && Of(sent, a) && Arrivals(sent, front + [a]) && Ends(sent, front + [a])
    ensures var h, s := HoldOf(sent, front), sent[a.frame];
            (a.piece == 0 || h.ts == s.timestamp) && |Joined(sent, h, a).js| == |s.pieces|
  {
    hide HoldOf, AllOf;
    var arrived, n := front + [a], |sent[a.frame].pieces|;
    PrefixArrives(sent, front, a);
    var from := |arrived| - n;
    if n > 1 {
      forall i | from <= i < |front|
        ensures front[i].frame == a.frame && Of(sent, front[i]) && !Marked(sent, front[i]) {
        assert arrived[i] == front[i] && front[i] in front;
        assert Of(sent, front[i]) by { AllOfAt(sent, front, i); }
      }
      assert front[from] == arrived[from];
      HoldGrows(sent, front, from);
    }
  }

  lemma AllOfAt(sent: seq<Sent>, arrived: seq<Arrival>, i: nat)
    requires AllOf(sent, arrived) && i < |arrived|
    ensures Of(sent, arrived[i])
  {
  }

  lemma HeldIsInOneGo(sent: seq<Sent>, front: seq<Arrival>, a: Arrival)
    requires AllOf(sent, front) && Of(sent, a) && AllSentOk(sent) && Arrivals(sent, front + [a]) && Marked(sent, a)
    requires var h, s := HoldOf(sent, front), sent[a.frame];
             (a.piece == 0 || h.ts == s.timestamp) && |Joined(sent, h, a).js| == |s.pieces|
    ensures Ends(sent, front + [a])
  {
    hide HoldOf, Pieces;
    var arrived, h, n := front + [a], HoldOf(sent, front), |sent[a.frame].pieces|;
    var joined := Joined(sent, h, a);
    PrefixArrives(sent, front, a);
    HoldIs(sent, front);
    JoinedHolds(sent, front, h, a);
    HeldDistinct(sent, arrived, joined);
    assert joined.js[n - 1] == a.piece;
    FirstIsIn(sent[a.frame].pieces, joined.js);
    var from := |arrived| - n;
    assert joined.js[0] == 0 && arrived[from] == Arrival(a.frame, joined.js[0]);
    forall i | from <= i < |arrived| ensures arrived[i].frame == a.frame {
      assert arrived[from + (i - from)] == Arrival(a.frame, joined.js[i - from]);
    }
  }

  // ----- The state after any arrivals -----

  /** What the demuxer remembers of the frames before. */
  ghost predicate Remembers(d: Demuxer, sent: seq<Sent>, arrived: seq<Arrival>)
    requires AllOf(sent, arrived)
  {
    && d.restartInterval == LeftInterval(sent, arrived)
    && (forall q: byte :: q in d.cached <==> (128 <= q < 255 && LastTable(sent, arrived, q).Some?))
    && (forall q: byte :: q in d.cached ==> LastTable(sent, arrived, q) == Some(d.cached[q]))
  }

  /** What it holds of the frame that is coming. */
  ghost predicate Holds(d: Demuxer, sent: seq<Sent>, arrived: seq<Arrival>, h: Hold, build: Builder)
    requires AllOf(sent, arrived)
  {
    && d.lastTimestamp == h.ts && (h.js == [] ==> d.fragments == [])
    && (h.js != [] ==>
          && |h.js| <= |arrived| && h.frame < |sent| &&
            (forall i :: 0 <= i < |h.js| ==> h.js[i] < |sent[h.frame].pieces|)
          && d.fragments == Indexed(sent[h.frame].pieces, h.js)
          && (h.js[0] == 0 ==>
                d.headers == build(Rebuilt(sent, arrived[..|arrived| - |h.js|], sent[h.frame].frame))))
  }

  lemma RebuiltIsShape(d: Demuxer, sent: seq<Sent>, before: seq<Arrival>, f: Frame)
    requires AllOf(sent, before) && Remembers(d, sent, before)
    ensures ShapeOf(d, f) == Rebuilt(sent, before, f)
  {
    hide LastTable, LeftInterval;
  }

  /** A first fragment is noted: its tables are kept, its restart interval is in force. */
  lemma StillRemembers(d: Demuxer, d': Demuxer, sent: seq<Sent>, front: seq<Arrival>, a: Arrival)
    requires Of(sent, a) && AllOf(sent, front) && Remembers(d, sent, front)
    requires d'.cached == if a.piece == 0 then Caching(d, sent[a.frame].frame) else d.cached
    requires AllOf(sent, front + [a])
    requires d'.restartInterval == if Ends(sent, front + [a]) then 0 else IntervalOf(d, sent[a.frame].frame)
    ensures Remembers(d', sent, front + [a])
  {
    hide Ends;
    var arrived := front + [a];
    assert arrived[..|arrived| - 1] == front;
  }

  /** The demuxer after what arrived. */
  ghost predicate Follows(d: Demuxer, sent: seq<Sent>, arrived: seq<Arrival>, build: Builder)
    requires AllOf(sent, arrived)
  {
    Remembers(d, sent, arrived) && Holds(d, sent, arrived, HoldOf(sent, arrived), build) &&
    d.out == Frames(sent, arrived, build)
  }

  lemma HoldStep(sent: seq<Sent>, front: seq<Arrival>, a: Arrival)
    requires AllOf(sent, front) && Of(sent, a)
    ensures AllOf(sent, front + [a])
    ensures var h := Joined(sent, HoldOf(sent, front), a);
            HoldOf(sent, front + [a]) == if Marked(sent, a) then h.(js := []) else h
  {
    assert (front + [a])[..|front|] == front;
  }

  lemma FramesStep(sent: seq<Sent>, front: seq<Arrival>, a: Arrival, build: Builder)
    requires AllOf(sent, front) && Of(sent, a) && AllOf(sent, front + [a])
    ensures var arrived := front + [a];
            Frames(sent, arrived, build) == Frames(sent, front, build) +
              if Ends(sent, arrived)
              then [PacketOf(sent, arrived[..|arrived| - |sent[a.frame].pieces|], a.frame, build)] else []
  {
    hide Ends, PacketOf;
    assert (front + [a])[..|front|] == front;
    EndsLong(sent, front + [a]);
  }

  lemma EndsLong(sent: seq<Sent>, arrived: seq<Arrival>)
    requires AllOf(sent, arrived)
    ensures Ends(sent, arrived) ==>
              && arrived != [] && Of(sent, arrived[|arrived| - 1])
              && 0 < |sent[arrived[|arrived| - 1].frame].pieces| <= |arrived|
  {
  }

  /** The fragment joins what is held, before the marker is looked at. */
  function Gathers(d: Demuxer, s: Sent, piece: nat, build: Builder): Demuxer
    requires piece < |s.pieces|
  {
    var noted := d.(restartInterval := IntervalOf(d, s.frame));
    if piece == 0 then
      noted.(cached := Caching(d, s.frame), fragments := [Piece(s.pieces, 0)], lastTimestamp := s.timestamp,
             headers := build(ShapeOf(d, s.frame)))
    else noted.(fragments := d.fragments + [Piece(s.pieces, piece)])
  }

  lemma ParseIs(d: Demuxer, s: Sent, piece: nat, marker: bool, build: Builder)
    requires FrameOk(s.frame) && Pieces(s.pieces) && piece < |s.pieces|
    ensures Parse(d, PayloadOf(s.frame, Piece(s.pieces, piece)), s.timestamp, marker, build) ==
            if piece != 0 && d.lastTimestamp != s.timestamp then
              (d.(restartInterval := IntervalOf(d, s.frame), fragments := []), true)
            else if marker then Assemble(Gathers(d, s, piece, build)) else (Gathers(d, s, piece, build), true)
  {
    hide PayloadOf, Parse, Assemble, ShapeOf, Caching, IntervalOf;
    var f := Piece(s.pieces, piece);
    if piece == 0 {
      ParseFirst(d, s.frame, f, s.timestamp, marker, build);
      assert [] + [f] == [f];
    } else {
      OffsetsGrow(s.pieces, 0, piece);
      OffsetsGrow(s.pieces, piece, |s.pieces|);
      if d.lastTimestamp == s.timestamp {
        ParseLater(d, s.frame, f, s.timestamp, marker, build);
      } else {
        ParseStray(d, s.frame, f, s.timestamp, marker, build);
      }
    }
  }

  lemma IndexedAppend(pieces: seq<seq<byte>>, js: seq<nat>, j: nat)
    requires j < |pieces| && forall i :: 0 <= i < |js| ==> js[i] < |pieces|
    ensures Indexed(pieces, js + [j]) == Indexed(pieces, js) + [Piece(pieces, j)]
  {
  }

  /** The fragment, first of its frame or of the frame held, joins. */
  lemma GathersHolds(d: Demuxer, sent: seq<Sent>, front: seq<Arrival>, a: Arrival, build: Builder)
    requires AllSentOk(sent) && AllOf(sent, front) && Arrivals(sent, front + [a]) && Of(sent, a)
    requires Follows(d, sent, front, build) && (a.piece == 0 || d.lastTimestamp == sent[a.frame].timestamp)
    ensures AllOf(sent, front + [a])
    ensures var h := Joined(sent, HoldOf(sent, front), a);
            && h.js != [] && h.frame == a.frame && h.js[|h.js| - 1] == a.piece
            && Holds(Gathers(d, sent[a.frame], a.piece, build), sent, front + [a], h, build)
  {
    hide Frames, Remembers, Rebuilt, HoldOf, ShapeOf, Caching, IntervalOf;
    var arrived, h, s := front + [a], HoldOf(sent, front), sent[a.frame];
    HoldStep(sent, front, a);
    PrefixArrives(sent, front, a);
    HoldIs(sent, front);
    if a.piece == 0 {
      RebuiltIsShape(d, sent, front, s.frame);
      assert arrived[..|arrived| - 1] == front;
      IndexedAppend(s.pieces, [], 0);
      assert [] + [0] == [0] && Indexed(s.pieces, []) + [Piece(s.pieces, 0)] == [Piece(s.pieces, 0)];
    } else {
      assert h.js != [] ==> h.frame == a.frame;
      IndexedAppend(s.pieces, h.js, a.piece);
      if h.js == [] { assert Indexed(s.pieces, h.js) == []; }
      if h.js != [] { assert arrived[..|arrived| - |h.js + [a.piece]|] == front[..|front| - |h.js|]; }
    }
  }

  lemma UnmarkedEndsNothing(sent: seq<Sent>, front: seq<Arrival>, a: Arrival)
    requires AllOf(sent, front + [a]) && Of(sent, a) && !Marked(sent, a)
    ensures !Ends(sent, front + [a])
  {
  }

  /** A marked fragment is the end of what is held, and of its frame if that came in one go. */
  lemma MarkedFollows(d: Demuxer, sent: seq<Sent>, front: seq<Arrival>, a: Arrival, build: Builder)
    requires AllSentOk(sent) && AllOf(sent, front) && Arrivals(sent, front + [a]) && Of(sent, a) && Marked(sent, a)
    requires Follows(d, sent, front, build) && (a.piece == 0 || d.lastTimestamp == sent[a.frame].timestamp)
    ensures var (d', ok) := Assemble(Gathers(d, sent[a.frame], a.piece, build));
            ok && Follows(d', sent, front + [a], build)
  {
    hide Frames, Remembers, Rebuilt, HoldOf, ShapeOf, Caching, IntervalOf, Assemble, Ends, Joined, LastTable, Closed;
    var arrived, s, joined := front + [a], sent[a.frame], Joined(sent, HoldOf(sent, front), a);
    var g := Gathers(d, s, a.piece, build);
    GathersHolds(d, sent, front, a, build);
    HoldStep(sent, front, a);
    FramesStep(sent, front, a, build);
    JoinedKeeps(sent, front, a);
    HeldDistinct(sent, arrived, joined);
    GatherAll(g, s.pieces, joined.js);
    if Ends(sent, arrived) { InOneGoIsHeld(sent, front, a); EndsLong(sent, arrived); }
    if |joined.js| == |s.pieces| {
      HeldIsInOneGo(sent, front, a);
      FirstIsIn(s.pieces, joined.js);
      assert joined.js[0] == 0;
    }
    StillRemembers(d, Assemble(g).0, sent, front, a);
  }

  lemma JoinedKeeps(sent: seq<Sent>, front: seq<Arrival>, a: Arrival)
    requires AllSentOk(sent) && AllOf(sent, front) && Arrivals(sent, front + [a]) && Of(sent, a)
    ensures HoldsLatest(sent, front + [a], Joined(sent, HoldOf(sent, front), a))
  {
    PrefixArrives(sent, front, a);
    HoldIs(sent, front);
    JoinedHolds(sent, front, HoldOf(sent, front), a);
  }

  lemma UnmarkedFollows(d: Demuxer, sent: seq<Sent>, front: seq<Arrival>, a: Arrival, build: Builder)
    requires AllSentOk(sent) && AllOf(sent, front) && Arrivals(sent, front + [a]) && Of(sent, a) && !Marked(sent, a)
    requires Follows(d, sent, front, build) && (a.piece == 0 || d.lastTimestamp == sent[a.frame].timestamp)
    ensures Follows(Gathers(d, sent[a.frame], a.piece, build), sent, front + [a], build)
  {
    hide Frames, Remembers, Holds, Rebuilt, HoldOf, ShapeOf, Caching, IntervalOf, Ends, Joined, LastTable;
    GathersHolds(d, sent, front, a, build);
    HoldStep(sent, front, a);
    FramesStep(sent, front, a, build);
    UnmarkedEndsNothing(sent, front, a);
    StillRemembers(d, Gathers(d, sent[a.frame], a.piece, build), sent, front, a);
  }

  /** A fragment behind the loss of its first one, or of a frame that was left, drops what is held. */
  lemma StrayFollows(d: Demuxer, sent: seq<Sent>, front: seq<Arrival>, a: Arrival, build: Builder)
    requires AllSentOk(sent) && AllOf(sent, front) && Arrivals(sent, front + [a]) && Of(sent, a)
    requires Follows(d, sent, front, build) && a.piece != 0 && d.lastTimestamp != sent[a.frame].timestamp
    ensures Follows(d.(restartInterval := IntervalOf(d, sent[a.frame].frame), fragments := []), sent, front + [a],
                    build)
  {
    hide Frames, Remembers, Rebuilt, HoldOf, ShapeOf, Caching, IntervalOf, Ends, LastTable;
    HoldStep(sent, front, a);
    FramesStep(sent, front, a, build);
    if Ends(sent, front + [a]) { InOneGoIsHeld(sent, front, a); }
    StillRemembers(d, d.(restartInterval := IntervalOf(d, sent[a.frame].frame), fragments := []), sent, front, a);
  }

  lemma NewFollows(sent: seq<Sent>, build: Builder)
    ensures Follows(NEW, sent, [], build)
  {
  }

  /** Main result: whatever arrives of any frames, in any order and however mixed, parses without an
      error, and exactly the frames that come in one go come out, each as one packet rebuilt with its
      own table, or, if it sent none, with the last one that arrived for its quality. */
  lemma {:induction false} StreamGivesFrames(sent: seq<Sent>, arrived: seq<Arrival>, build: Builder)
    requires AllSentOk(sent) && Arrivals(sent, arrived)
    ensures var (d, ok) := Receive(sent, arrived, build);
            ok && d.out == Frames(sent, arrived, build) && Follows(d, sent, arrived, build)
  {
    hide Parse, PayloadOf, Frames, Remembers, Holds, HoldOf, Gathers, Assemble;
    if arrived == [] {
      NewFollows(sent, build);
    } else {
      var front, a := arrived[..|arrived| - 1], arrived[|arrived| - 1];
      assert arrived == front + [a];
      StreamGivesFrames(sent, front, build);
      var d, s := Receive(sent, front, build).0, sent[a.frame];
      ParseIs(d, s, a.piece, Marked(sent, a), build);
      if a.piece != 0 && d.lastTimestamp != s.timestamp {
        StrayFollows(d, sent, front, a, build);
      } else if Marked(sent, a) {
        MarkedFollows(d, sent, front, a, build);
      } else {
        UnmarkedFollows(d, sent, front, a, build);
      }
    }
  }

  // ----- Which frames come out -----

  /** From there on frame k comes in one go. */
  ghost predicate GoesFrom(sent: seq<Sent>, arrived: seq<Arrival>, k: nat, from: nat)
    requires k < |sent|
  {
    var n := |sent[k].pieces|;
    && 0 < n && from + n <= |arrived| && arrived[from].piece == 0 && arrived[from + n - 1].piece == n - 1
    && forall i :: from <= i < from + n ==> arrived[i].frame == k
  }

  ghost predicate InOneGo(sent: seq<Sent>, arrived: seq<Arrival>, k: nat)
    requires k < |sent|
  {
    exists from: nat :: GoesFrom(sent, arrived, k, from)
  }

  ghost predicate Stamped(es: seq<Emitted>, timestamp: nat) {
    exists i :: 0 <= i < |es| && es[i].timestamp == timestamp
  }

  /** One more arrival: a frame goes from somewhere if it did, or if the arrival is its end. */
  lemma GoesStep(sent: seq<Sent>, front: seq<Arrival>, a: Arrival, k: nat, from: nat)
    requires k < |sent| && Of(sent, a) && AllOf(sent, front + [a])
    ensures GoesFrom(sent, front + [a], k, from) <==>
              || GoesFrom(sent, front, k, from)
              || (Ends(sent, front + [a]) && a.frame == k && from == |front + [a]| - |sent[k].pieces|)
  {
    var arrived := front + [a];
    assert forall i :: 0 <= i < |front| ==> arrived[i] == front[i];
  }

  lemma StampedAppend(es: seq<Emitted>, e: Emitted, timestamp: nat)
    ensures Stamped(es + [e], timestamp) <==> Stamped(es, timestamp) || e.timestamp == timestamp
  {
    var all := es + [e];
    assert all[|es|] == e && forall i :: 0 <= i < |es| ==> all[i] == es[i];
  }

  lemma {:induction false} StampedIff(sent: seq<Sent>, arrived: seq<Arrival>, k: nat, build: Builder)
    requires AllSentOk(sent) && Arrivals(sent, arrived) && k < |sent|
    ensures Stamped(Frames(sent, arrived, build), sent[k].timestamp) <==> InOneGo(sent, arrived, k)
  {
    hide Frames, Ends, GoesFrom, PacketOf, Stamped;
    if arrived == [] {
      assert forall from: nat :: !GoesFrom(sent, [], k, from) by { NothingGoes(sent, k); }
      assert !Stamped(Frames(sent, [], build), sent[k].timestamp) by { NoFrames(sent, k, build); }
    } else {
      var front, a := arrived[..|arrived| - 1], arrived[|arrived| - 1];
      assert arrived == front + [a];
      StampedIff(sent, front, k, build);
      FramesStep(sent, front, a, build);
      EndsLong(sent, arrived);
      forall from: nat
        ensures GoesFrom(sent, arrived, k, from) <==>
                  GoesFrom(sent, front, k, from) ||
                    (Ends(sent, arrived) && a.frame == k && from == |arrived| - |sent[k].pieces|)
      {
        GoesStep(sent, front, a, k, from);
      }
      if Ends(sent, arrived) {
        var e := PacketOf(sent, arrived[..|arrived| - |sent[a.frame].pieces|], a.frame, build);
        assert e.timestamp == sent[a.frame].timestamp by { PacketStamp(sent, arrived, a.frame, build); }
        StampedAppend(Frames(sent, front, build), e, sent[k].timestamp);
        assert a.frame == k ==> GoesFrom(sent, arrived, k, |arrived| - |sent[k].pieces|);
      } else {
        assert Frames(sent, front, build) + [] == Frames(sent, front, build);
      }
    }
  }

  lemma PacketStamp(sent: seq<Sent>, arrived: seq<Arrival>, k: nat, build: Builder)
    requires k < |sent| && AllOf(sent, arrived) && |sent[k].pieces| <= |arrived|
    ensures PacketOf(sent, arrived[..|arrived| - |sent[k].pieces|], k, build).timestamp == sent[k].timestamp
  {
  }

  lemma NothingGoes(sent: seq<Sent>, k: nat)
    requires k < |sent|
    ensures forall from: nat :: !GoesFrom(sent, [], k, from)
  {
  }

  lemma NoFrames(sent: seq<Sent>, k: nat, build: Builder)
    requires k < |sent|
    ensures !Stamped(Frames(sent, [], build), sent[k].timestamp)
  {
  }

  /** The packets of different frames, so no frame comes out twice. */
  lemma {:induction false} StampsDiffer(sent: seq<Sent>, arrived: seq<Arrival>, build: Builder)
    requires AllSentOk(sent) && Arrivals(sent, arrived)
    ensures var es := Frames(sent, arrived, build);
            forall i, j :: 0 <= i < j < |es| ==> es[i].timestamp != es[j].timestamp
  {
    hide Frames, PacketOf, Pieces;
    if arrived == [] {
      assert |Frames(sent, arrived, build)| == 0 by { NoneArrived(sent, build); }
    } else {
      var front, a := arrived[..|arrived| - 1], arrived[|arrived| - 1];
      assert arrived == front + [a];
      StampsDiffer(sent, front, build);
      FramesStep(sent, front, a, build);
      StampedIff(sent, front, a.frame, build);
      if Ends(sent, arrived) {
        PacketStamp(sent, arrived, a.frame, build);
        var n := |sent[a.frame].pieces|;
        forall from: nat ensures !GoesFrom(sent, front, a.frame, from) {
          assert from + n <= |front| ==> arrived[from + n - 1] == front[from + n - 1] && front[from + n - 1] != a;
        }
        assert !InOneGo(sent, front, a.frame);
      }
    }
  }

  lemma NoneArrived(sent: seq<Sent>, build: Builder)
    ensures Frames(sent, [], build) == []
  {
  }

  /** Main result, frame by frame: a frame comes out exactly when it comes in one go, and then once. */
  lemma ComesOutIff(sent: seq<Sent>, arrived: seq<Arrival>, k: nat, build: Builder)
    requires AllSentOk(sent) && Arrivals(sent, arrived) && k < |sent|
    ensures var out := Receive(sent, arrived, build).0.out;
            && (Stamped(out, sent[k].timestamp) <==> InOneGo(sent, arrived, k))
            && (forall i, j :: 0 <= i < j < |out| ==> out[i].timestamp != out[j].timestamp)
  {
    hide Receive, Frames, Follows, InOneGo, Stamped;
    StreamGivesFrames(sent, arrived, build);
    StampedIff(sent, arrived, k, build);
    StampsDiffer(sent, arrived, build);
  }

  /** The fragments of frame k in their order of arrival. */
  function Order(arrived: seq<Arrival>, k: nat): seq<nat> {
    if arrived == [] then [] else
    var a := arrived[|arrived| - 1];
    Order(arrived[..|arrived| - 1], k) + if a.frame == k then [a.piece] else []
  }

  /** Frames are not mixed: between two fragments of a frame no other frame's come. */
  ghost predicate Unmixed(arrived: seq<Arrival>) {
    forall i, j, l :: 0 <= i < j < l < |arrived| && arrived[i].frame == arrived[l].frame ==>
      arrived[j].frame == arrived[i].frame
  }

  /** Up to the last arrival, of its frame, no place is another frame's. */
  lemma NoGap(arrived: seq<Arrival>, i: nat, j: nat)
    requires Unmixed(arrived) && i < j < |arrived| && arrived[i].frame == arrived[|arrived| - 1].frame
    ensures arrived[j].frame == arrived[i].frame
  {
  }

  lemma {:induction false} OrderRun(arrived: seq<Arrival>, k: nat) returns (from: nat)
    requires Unmixed(arrived)
    ensures var o := Order(arrived, k);
            && from + |o| <= |arrived| && (forall i :: 0 <= i < |o| ==> arrived[from + i] == Arrival(k, o[i]))
            && (forall i :: 0 <= i < |arrived| && arrived[i].frame == k ==> from <= i < from + |o|)
  {
    if arrived == [] {
      from := 0;
    } else {
      var front, a := arrived[..|arrived| - 1], arrived[|arrived| - 1];
      from := OrderRun(front, k);
      var o := Order(front, k);
      if a.frame == k {
        if o == [] {
          from := |front|;
        } else {
          assert front[from + 0] == Arrival(k, o[0]) && arrived[from] == front[from];
          NoGap(arrived, from, from + |o|);
        }
        assert arrived[from + |o|] == a;
      }
      assert forall i :: 0 <= i < |front| ==> arrived[i] == front[i];
    }
  }

  lemma OrderIsOf(sent: seq<Sent>, arrived: seq<Arrival>, k: nat, from: nat)
    requires Arrivals(sent, arrived) && k < |sent|
    requires var o := Order(arrived, k);
             from + |o| <= |arrived| && forall i :: 0 <= i < |o| ==> arrived[from + i] == Arrival(k, o[i])
    ensures var o := Order(arrived, k);
            Distinct(o) && forall i :: 0 <= i < |o| ==> o[i] < |sent[k].pieces|
  {
    hide Order;
    var o := Order(arrived, k);
    forall i, j | 0 <= i < j < |o| ensures o[i] != o[j] {
      assert arrived[from + i] != arrived[from + j];
    }
    forall i | 0 <= i < |o| ensures o[i] < |sent[k].pieces| {
      assert Of(sent, arrived[from + i]);
    }
  }

  /** Frames that are not mixed: one comes out exactly when its first fragment arrives first, its
      marked one last, and none is missing. */
  lemma UnmixedIff(sent: seq<Sent>, arrived: seq<Arrival>, k: nat, build: Builder)
    requires AllSentOk(sent) && Arrivals(sent, arrived) && k < |sent| && Unmixed(arrived)
    ensures var o, n := Order(arrived, k), |sent[k].pieces|;
            Stamped(Receive(sent, arrived, build).0.out, sent[k].timestamp) <==>
              |o| == n && o[0] == 0 && o[n - 1] == n - 1
  {
    hide Order, Receive, Stamped, Unmixed, Pieces;
    ComesOutIff(sent, arrived, k, build);
    var from := OrderRun(arrived, k);
    var o, n := Order(arrived, k), |sent[k].pieces|;
    OrderIsOf(sent, arrived, k, from);
    assert n > 0 by { PiecesNotEmpty(sent, k); }
    if |o| == n && o[0] == 0 && o[n - 1] == n - 1 {
      assert arrived[from + 0] == Arrival(k, o[0]);
      forall i | from <= i < from + n ensures arrived[i].frame == k {
        assert arrived[from + (i - from)] == Arrival(k, o[i - from]);
      }
      assert GoesFrom(sent, arrived, k, from);
    }
    if InOneGo(sent, arrived, k) {
      var f: nat :| GoesFrom(sent, arrived, k, f);
      assert arrived[f].frame == k && arrived[f + n - 1].frame == k;
      assert arrived[from + (f + n - 1 - from)] == Arrival(k, o[f + n - 1 - from]);
      SortIncreasing(o);
      assert n - 1 in o;
      GatherAll(NEW, sent[k].pieces, o);
      assert f == from && arrived[from + 0] == Arrival(k, o[0]);
    }
  }

  lemma PiecesNotEmpty(sent: seq<Sent>, k: nat)
    requires AllSentOk(sent) && k < |sent|
    ensures |sent[k].pieces| > 0
  {
  }

  // ----- The restart interval -----

  /** Fragment t leaves its restart interval behind: no packet came out with it or later, and no
      later fragment had an interval of its own. */
  ghost predicate Leaves(sent: seq<Sent>, arrived: seq<Arrival>, t: nat)
    requires AllOf(sent, arrived) && t < |arrived|
  {
    && Restarts(sent[arrived[t].frame].frame) && !EndsAt(sent, arrived, t)
    && forall u :: t < u < |arrived| ==> !Restarts(sent[arrived[u].frame].frame) && !EndsAt(sent, arrived, u)
  }

  lemma LeavesStep(sent: seq<Sent>, arrived: seq<Arrival>, t: nat)
    requires AllOf(sent, arrived) && t < |arrived| - 1 && AllOf(sent, arrived[..|arrived| - 1])
    requires !Ends(sent, arrived) && !Restarts(sent[arrived[|arrived| - 1].frame].frame)
    ensures Leaves(sent, arrived, t) <==> Leaves(sent, arrived[..|arrived| - 1], t)
  {
    hide Ends, Restarts;
    var n := |arrived| - 1;
    var front := arrived[..n];
    assert arrived[..n + 1] == arrived;
    assert forall u :: 0 <= u < n ==> front[u] == arrived[u] && front[..u + 1] == arrived[..u + 1];
    if Leaves(sent, front, t) {
      forall u | t < u < |arrived|
        ensures !Restarts(sent[arrived[u].frame].frame) && !EndsAt(sent, arrived, u)
      {
        if u < n { assert front[..u + 1] == arrived[..u + 1] && front[u] == arrived[u]; }
      }
      assert Leaves(sent, arrived, t) by { assert front[..t + 1] == arrived[..t + 1] && front[t] == arrived[t]; }
    }
    if Leaves(sent, arrived, t) {
      forall u | t < u < n ensures !Restarts(sent[front[u].frame].frame) && !EndsAt(sent, front, u) {
        assert front[..u + 1] == arrived[..u + 1] && front[u] == arrived[u];
      }
    }
  }

  /** What is left behind is the interval of the fragment that leaves one. */
  lemma {:induction false} LeftIs(sent: seq<Sent>, arrived: seq<Arrival>)
    requires AllOf(sent, arrived)
    ensures forall t :: 0 <= t < |arrived| && Leaves(sent, arrived, t) ==>
              LeftInterval(sent, arrived) == sent[arrived[t].frame].frame.interval
    ensures LeftInterval(sent, arrived) != 0 ==> exists t :: 0 <= t < |arrived| && Leaves(sent, arrived, t)
  {
    hide Ends;
    if arrived != [] {
      var n := |arrived| - 1;
      var front := arrived[..n];
      LeftIs(sent, front);
      assert arrived[..n + 1] == arrived;
      if !Ends(sent, arrived) {
        if Restarts(sent[arrived[n].frame].frame) {
          assert Leaves(sent, arrived, n);
        } else {
          forall t | 0 <= t < n ensures Leaves(sent, arrived, t) <==> Leaves(sent, front, t) {
            LeavesStep(sent, arrived, t);
          }
        }
      }
    }
  }

  /** Main result: a frame is rebuilt with the restart interval it was sent with, none if its type has
      none, exactly when its type has one or no fragment before left one behind. */
  lemma OwnIntervalIff(sent: seq<Sent>, before: seq<Arrival>, f: Frame)
    requires AllOf(sent, before)
    ensures Rebuilt(sent, before, f).restartInterval == (if Restarts(f) then f.interval else 0) <==>
              || Restarts(f)
              || forall t :: 0 <= t < |before| && Leaves(sent, before, t) ==> sent[before[t].frame].frame.interval == 0
  {
    hide LeftInterval, Leaves, LastTable;
    LeftIs(sent, before);
  }

  // ----- Runs of two frames -----

  /** While no frame ends nothing comes out. */
  lemma {:induction false} FramesSame(sent: seq<Sent>, arrived: seq<Arrival>, m: nat, build: Builder)
    requires AllOf(sent, arrived) && m <= |arrived| && AllOf(sent, arrived[..m])
    requires forall t :: m <= t < |arrived| ==> !EndsAt(sent, arrived, t)
    ensures Frames(sent, arrived, build) == Frames(sent, arrived[..m], build)
    decreases |arrived|
  {
    hide Ends, Frames;
    if m == |arrived| {
      assert arrived[..m] == arrived;
    } else {
      var n := |arrived| - 1;
      var front := arrived[..n];
      assert front[..m] == arrived[..m] && arrived[..n + 1] == arrived;
      forall t | m <= t < n ensures !EndsAt(sent, front, t) {
        assert front[..t + 1] == arrived[..t + 1] && !EndsAt(sent, arrived, t);
      }
      assert !EndsAt(sent, arrived, n);
      FramesSame(sent, front, m, build);
      FramesStep(sent, front, arrived[n], build);
      assert arrived == front + [arrived[n]];
      assert Frames(sent, front, build) + [] == Frames(sent, front, build);
    }
  }

  lemma {:induction false} TableKept(sent: seq<Sent>, arrived: seq<Arrival>)
    requires AllOf(sent, arrived) && arrived != [] && arrived[0].piece == 0
    requires forall i :: 0 < i < |arrived| ==> arrived[i].piece != 0
    ensures var f := sent[arrived[0].frame].frame;
            f.table.data != [] ==> LastTable(sent, arrived, f.quality) == Some(f.table)
  {
    if |arrived| > 1 { TableKept(sent, arrived[..|arrived| - 1]); }
  }

  /** The first frame comes in one go, and then the second, and nothing else. */
  ghost predicate OneThenOther(sent: seq<Sent>, arrived: seq<Arrival>) {
    && |sent| == 2 && AllSentOk(sent) && Arrivals(sent, arrived)
    && |arrived| == |sent[0].pieces| + |sent[1].pieces|
    && GoesFrom(sent, arrived, 0, 0) && GoesFrom(sent, arrived, 1, |sent[0].pieces|)
  }

  lemma {:induction false} TwoEnds(sent: seq<Sent>, arrived: seq<Arrival>)
    requires OneThenOther(sent, arrived)
    ensures AllOf(sent, arrived)
    ensures forall t :: 0 <= t < |arrived| ==>
              (EndsAt(sent, arrived, t) <==> t == |sent[0].pieces| - 1 || t == |arrived| - 1)
    ensures forall i :: 0 < i < |sent[0].pieces| ==> arrived[i].piece != 0
  {
    var n := |sent[0].pieces|;
    forall t | 0 <= t < |arrived|
      ensures EndsAt(sent, arrived, t) <==> t == n - 1 || t == |arrived| - 1
    {
      var k := if t < n then 0 else 1;
      assert arrived[t].frame == k;
      var last := if t < n then n - 1 else |arrived| - 1;
      if t != last { assert arrived[t] != arrived[last]; }
    }
    forall i | 0 < i < n ensures arrived[i].piece != 0 {
      assert arrived[0] != arrived[i];
    }
  }

  lemma {:induction false} TwoFrames(sent: seq<Sent>, arrived: seq<Arrival>, build: Builder)
    requires OneThenOther(sent, arrived)
    ensures AllOf(sent, arrived) && AllOf(sent, [])
    ensures Frames(sent, arrived, build) ==
            [PacketOf(sent, [], 0, build), PacketOf(sent, arrived[..|sent[0].pieces|], 1, build)]
  {
    hide Ends, Frames, PacketOf, Pieces;
    var n, t := |sent[0].pieces|, |arrived|;
    TwoEnds(sent, arrived);
    var a, b := arrived[..n - 1], arrived[..t - 1];
    assert a + [arrived[n - 1]] == arrived[..n] && b + [arrived[t - 1]] == arrived && arrived[..t] == arrived;
    forall i | 0 <= i < n - 1 ensures !EndsAt(sent, a, i) {
      assert a[..i + 1] == arrived[..i + 1] && !EndsAt(sent, arrived, i);
    }
    forall i | n <= i < t - 1 ensures !EndsAt(sent, b, i) {
      assert b[..i + 1] == arrived[..i + 1] && !EndsAt(sent, arrived, i);
    }
    assert a[..0] == [] && b[..n] == arrived[..n] && arrived[..n][..0] == [];
    FramesSame(sent, a, 0, build);
    NoneArrived(sent, build);
    FramesStep(sent, a, arrived[n - 1], build);
    FramesSame(sent, b, n, build);
    FramesStep(sent, b, arrived[t - 1], build);
    assert EndsAt(sent, arrived, n - 1) && EndsAt(sent, arrived, t - 1);
  }

  lemma {:induction false} RebuiltWithKept(sent: seq<Sent>, arrived: seq<Arrival>)
    requires OneThenOther(sent, arrived)
    requires 128 <= sent[0].frame.quality == sent[1].frame.quality < 255
    requires sent[0].frame.table.data != [] && sent[1].frame.table.data == []
    ensures AllOf(sent, arrived)
    ensures var f := sent[1].frame;
            Rebuilt(sent, arrived[..|sent[0].pieces|], f) ==
            Shape(f.kind, f.width, f.height, f.quality, if Restarts(f) then f.interval else 0, sent[0].frame.table)
  {
    hide Ends, LastTable, Pieces;
    var n := |sent[0].pieces|;
    TwoEnds(sent, arrived);
    TableKept(sent, arrived[..n]);
    assert EndsAt(sent, arrived, n - 1);
  }

  /** A frame without a table, right behind one of its quality with a table, is rebuilt with that. */
  lemma {:induction false} TableIsReused(sent: seq<Sent>, arrived: seq<Arrival>, build: Builder)
    requires OneThenOther(sent, arrived)
    requires 128 <= sent[0].frame.quality == sent[1].frame.quality < 255
    requires sent[0].frame.table.data != [] && sent[1].frame.table.data == []
    ensures var f := sent[1].frame;
            var shape := Shape(f.kind, f.width, f.height, f.quality, if Restarts(f) then f.interval else 0,
                               sent[0].frame.table);
            var (d, ok) := Receive(sent, arrived, build);
            ok && |d.out| == 2 &&
            d.out[1] == Emitted(Closed(build(shape) + Join(sent[1].pieces, 0)), sent[1].timestamp)
  {
    hide Receive, Closed, Join, Frames, Follows, Rebuilt, GoesFrom;
    StreamGivesFrames(sent, arrived, build);
    TwoFrames(sent, arrived, build);
    RebuiltWithKept(sent, arrived);
  }

  lemma {:induction false} OnlyTheOther(sent: seq<Sent>, build: Builder)
    requires |sent| == 2 && |sent[0].pieces| >= 2 && |sent[1].pieces| == 1
    ensures var arrived := [Arrival(0, 0), Arrival(1, 0)];
            AllOf(sent, arrived) && AllOf(sent, [Arrival(0, 0)]) &&
            Frames(sent, arrived, build) == [PacketOf(sent, [Arrival(0, 0)], 1, build)]
  {
    hide PacketOf, Frames;
    var first, arrived := [Arrival(0, 0)], [Arrival(0, 0), Arrival(1, 0)];
    assert [] + first == first && first + [Arrival(1, 0)] == arrived && arrived[..1] == first;
    NoneArrived(sent, build);
    FramesStep(sent, [], Arrival(0, 0), build);
    FramesStep(sent, first, Arrival(1, 0), build);
  }

  /** The first fragment of a frame of two or more arrives, its restart interval is noted, and the
      rest is lost: the frame behind it, whose type has no restart interval, is rebuilt with it. */
  lemma {:induction false} DroppedLeavesInterval(sent: seq<Sent>, build: Builder)
    requires |sent| == 2 && AllSentOk(sent) && |sent[0].pieces| >= 2 && |sent[1].pieces| == 1
    requires Restarts(sent[0].frame) && !Restarts(sent[1].frame) && sent[1].frame.quality < 128
    ensures var arrived := [Arrival(0, 0), Arrival(1, 0)];
            var f := sent[1].frame;
            var shape := Shape(f.kind, f.width, f.height, f.quality, sent[0].frame.interval, Table(0, []));
            && Arrivals(sent, arrived)
            && Receive(sent, arrived, build).0.out ==
               [Emitted(Closed(build(shape) + sent[1].pieces[0]), sent[1].timestamp)]
  {
    hide Receive, Closed, Follows, Frames;
    var first, arrived := [Arrival(0, 0)], [Arrival(0, 0), Arrival(1, 0)];
    StreamGivesFrames(sent, arrived, build);
    OnlyTheOther(sent, build);
    assert !Ends(sent, first);
    assert LeftInterval(sent, first) == sent[0].frame.interval;
    JoinSingle(sent[1].pieces);
  }

  lemma JoinSingle(pieces: seq<seq<byte>>)
    requires |pieces| == 1
    ensures Join(pieces, 0) == pieces[0]
  {
    assert Join(pieces, 1) == [];
  }
}
