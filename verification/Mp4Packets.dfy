/** format/mp4/stream.go, the second half of readPacket: the bytes of a sample made into the packet
    of one codec. */
module Mp4Packets {
  import opened Bytes
  import opened Hevc
  import opened Nal
  import opened Mp4Muxer
  import opened Mp4ReadBack
  import opened Wrappers

  /** One sample as it stands in the file, with the time its stream gives it. */
  datatype Out = Out(time: nat, bytes: seq<byte>, key: bool)

  datatype Pkt = Pkt(data: seq<byte>, key: bool, time: nat)

  /** The packet to return and the H.265 picture still gathered. */
  datatype Cut = Cut(pkt: Option<Pkt>, sliced: Option<Pkt>)

  /** Parameter sets, delimiters and SEI join the picture in progress. */
  predicate IsSide(nalu: Nalu)
    requires nalu != []
  {
    var t := TypeOf(nalu);
    VPS <= t <= DELIMITER || t == PREFIX_SEI || t == SUFFIX_SEI
  }

  /** isH265Slice: type 0, a slice in the standard, is not among them. */
  predicate IsCoded(nalu: Nalu) {
    |nalu| >= 3 && 1 <= TypeOf(nalu) <= 31
  }

  predicate IsFirst(nalu: Nalu) {
    IsCoded(nalu) && nalu[2] >= 128
  }

  function Join265(p: Pkt, nalu: Nalu, key: bool): Pkt {
    p.(data := p.data + Prefixed(nalu), key := p.key || key)
  }

  /** What one unit of an H.265 sample does. */
  function CutUnit(c: Cut, nalu: Nalu, key: bool, time: nat): Cut
    requires nalu != []
  {
    if IsSide(nalu) then
      match c.sliced
      case Some(p) => c.(sliced := Some(Join265(p, nalu, false)))
      case None => c.(pkt := Some(Pkt(Prefixed(nalu), false, time)))
    else if !IsCoded(nalu) then c else
    var sliceIsKey := key || IsKey(TypeOf(nalu));
    if IsFirst(nalu) then
      Cut(if c.sliced.Some? then c.sliced else c.pkt, Some(Pkt(Prefixed(nalu), sliceIsKey, time)))
    else
      match c.sliced
      case Some(p) => c.(sliced := Some(Join265(p, nalu, sliceIsKey)))
      case None => c.(sliced := Some(Pkt(Prefixed(nalu), sliceIsKey, time)))
  }

  function CutUnits(c: Cut, nalus: seq<Nalu>, key: bool, time: nat): Cut
    requires [] !in nalus
    decreases |nalus|
  {
    if nalus == [] then c else CutUnits(CutUnit(c, nalus[0], key, time), nalus[1..], key, time)
  }

  /** With no packet to return the gathered picture is. So the loop of readPacket, which goes on
      when a picture is gathered and no packet is there, ends in its first turn. */
  function Finish(c: Cut): (r: Cut)
    ensures r.pkt.None? ==> r.sliced.None?
  {
    if c.pkt.None? then Cut(c.sliced, None) else c
  }

  /** An H.264 or H.265 sample of no bytes holds one empty unit, whose type is read: a panic. */
  predicate Panics(params: Params, bytes: seq<byte>) {
    (params.H264? || params.H265?) && [] in Split(bytes).0
  }

  function CutSample(params: Params, sliced: Option<Pkt>, out: Out): Cut
    requires !Panics(params, out.bytes)
  {
    if params.H265? then Finish(CutUnits(Cut(None, sliced), Split(out.bytes).0, out.key, out.time)) else
    match DataRead(params, out.bytes)
    case None => Cut(None, sliced)
    case Some(data) => Cut(Some(Pkt(data, out.key && !params.Aac?, out.time)), sliced)
  }

  lemma {:induction false} StretchesNotEmpty(b: seq<byte>, start: nat)
    requires start <= |b|
    ensures [] !in Stretches(b, start)
    decreases |b| - start
  {
    if start < |b| {
      var p := NextCode(b, start);
      if p < |b| { StretchesNotEmpty(b, p + StartCode(b, p)); }
    }
  }

  lemma {:induction false} AvccNotEmpty(v: nat, b: seq<byte>)
    ensures [] !in AvccFrom(v, b).0
    decreases |b|
  {
    hide Get32;
    if v <= |b| && |b[v..]| >= MIN_NALU_SIZE { AvccNotEmpty(Get32(b[v..], 0), b[v..][4..]); }
  }

  /** Reading a sample panics exactly when it is an empty one of H.264 or H.265. */
  lemma PanicsIff(params: Params, bytes: seq<byte>)
    ensures Panics(params, bytes) <==> (params.H264? || params.H265?) && bytes == []
  {
    hide Stretches, AvccFrom, StartCode;
    if |bytes| >= MIN_NALU_SIZE {
      AvccNotEmpty(Get32(bytes, 0), bytes[4..]);
      if Get24(bytes, 0) == 1 || Get32(bytes, 0) == 1 {
        CodeAtStart(bytes);
        StretchesNotEmpty(bytes, StartCode(bytes, 0));
      }
    }
  }

  // ----- What the units of one sample do together -----

  /** The units that leave a trace. */
  function Kept(nalus: seq<Nalu>): seq<Nalu>
    requires [] !in nalus
  {
    if nalus == [] then []
    else (if IsSide(nalus[0]) || IsCoded(nalus[0]) then [nalus[0]] else []) + Kept(nalus[1..])
  }

  lemma {:induction false} CutAppend(c: Cut, a: seq<Nalu>, b: seq<Nalu>, key: bool, time: nat)
    requires [] !in a && [] !in b
    ensures CutUnits(c, a + b, key, time) == CutUnits(CutUnits(c, a, key, time), b, key, time)
    decreases |a|
  {
    hide CutUnit;
    if a == [] {
      assert a + b == b;
    } else {
      assert (a + b)[1..] == a[1..] + b;
      CutAppend(CutUnit(c, a[0], key, time), a[1..], b, key, time);
    }
  }

  /** Some slice among nalus is of a key type. */
  predicate HasKey(nalus: seq<Nalu>) {
    exists k :: 0 <= k < |nalus| && IsCoded(nalus[k]) && IsKey(TypeOf(nalus[k]))
  }

  predicate NoFirst(nalus: seq<Nalu>) {
    forall k :: 0 <= k < |nalus| ==> !IsFirst(nalus[k])
  }

  predicate NoneCoded(nalus: seq<Nalu>) {
    forall k :: 0 <= k < |nalus| ==> !IsCoded(nalus[k])
  }

  lemma HasKeyStep(nalus: seq<Nalu>)
    requires nalus != []
    ensures HasKey(nalus) <==> HasKey(nalus[1..]) || (IsCoded(nalus[0]) && IsKey(TypeOf(nalus[0])))
  {
    if HasKey(nalus[1..]) {
      var k :| 0 <= k < |nalus| - 1 && IsCoded(nalus[1..][k]) && IsKey(TypeOf(nalus[1..][k]));
      assert nalus[k + 1] == nalus[1..][k];
    }
    if HasKey(nalus) {
      var k :| 0 <= k < |nalus| && IsCoded(nalus[k]) && IsKey(TypeOf(nalus[k]));
      assert k > 0 ==> nalus[1..][k - 1] == nalus[k];
    }
  }

  /** Units without a first slice join the picture gathered so far. */
  lemma {:induction false} UnitsJoin(c: Cut, nalus: seq<Nalu>, key: bool, time: nat)
    requires [] !in nalus && NoFirst(nalus) && c.sliced.Some?
    requires !NoneCoded(nalus) && key ==> c.sliced.value.key
    ensures var p := c.sliced.value;
            CutUnits(c, nalus, key, time) ==
            c.(sliced := Some(Pkt(p.data + Join(Kept(nalus)), p.key || HasKey(nalus), p.time)))
    decreases |nalus|
  {
    hide Prefixed;
    if nalus != [] {
      var v, rest := nalus[0], nalus[1..];
      HasKeyStep(nalus);
      assert forall k :: 0 <= k < |rest| ==> rest[k] == nalus[k + 1];
      UnitsJoin(CutUnit(c, v, key, time), rest, key, time);
      var p := c.sliced.value;
      if IsSide(v) || IsCoded(v) {
        var kept := [v] + Kept(rest);
        assert kept[1..] == Kept(rest);
        assert (p.data + Prefixed(v)) + Join(Kept(rest)) == p.data + Join(kept);
      } else {
        assert [] + Kept(rest) == Kept(rest);
      }
    } else {
      assert c.sliced.value.data + Join([]) == c.sliced.value.data;
    }
  }

  /** The packet made of a side unit when no picture is gathered. */
  function SidePkt(nalus: seq<Nalu>, time: nat): Pkt
    requires nalus != []
  {
    Pkt(Prefixed(nalus[|nalus| - 1]), false, time)
  }

  /** Without a picture gathered each side unit replaces the one before. */
  lemma {:induction false} SidesReplace(c: Cut, nalus: seq<Nalu>, key: bool, time: nat)
    requires [] !in nalus && NoneCoded(nalus) && c.sliced.None?
    ensures CutUnits(c, nalus, key, time) ==
            if Kept(nalus) == [] then c else c.(pkt := Some(SidePkt(Kept(nalus), time)))
    decreases |nalus|
  {
    hide Prefixed;
    if nalus != [] {
      var rest := nalus[1..];
      assert forall k :: 0 <= k < |rest| ==> rest[k] == nalus[k + 1];
      SidesReplace(CutUnit(c, nalus[0], key, time), rest, key, time);
      var head := if IsSide(nalus[0]) then [nalus[0]] else [];
      assert Kept(nalus) == head + Kept(rest);
    }
  }

  // ----- A track of pictures -----

  /** One H.265 packet: the parameter sets written in front of it, its units before the first slice
      and its units from there on. body is empty when the packet has no slice readPacket knows. */
  datatype Picture = Picture(sets: seq<Nalu>, lead: seq<Nalu>, body: seq<Nalu>, key: bool, time: nat)

  ghost predicate Shaped(p: Picture) {
    && Countable(p.sets) && NoneCoded(p.sets)
    && Countable(p.lead + p.body) && [] !in p.lead && [] !in p.body && p.lead + p.body != []
    && NoneCoded(p.lead)
    && (p.body != [] ==> IsFirst(p.body[0]) && NoFirst(p.body[1..]))
  }

  function DataOf(p: Picture): seq<byte> {
    Join(p.lead + p.body)
  }

  function OutOf(p: Picture): Out {
    Out(p.time, Join(p.sets) + DataOf(p), p.key)
  }

  lemma {:induction false} DenseHasNoEmpty(nalus: seq<Nalu>)
    ensures [] !in Dense(nalus)
    ensures NoneCoded(nalus) ==> NoneCoded(Dense(nalus))
  {
    if nalus != [] {
      assert NoneCoded(nalus) ==> NoneCoded(nalus[1..]);
      DenseHasNoEmpty(nalus[1..]);
    }
  }

  /** The side units in front of the first slice, those of the parameter sets among them. */
  ghost function Front(p: Picture): seq<Nalu>
    requires Shaped(p)
  {
    DenseHasNoEmpty(p.sets);
    Kept(Dense(p.sets) + p.lead)
  }

  ghost function Whole(p: Picture): Pkt
    requires Shaped(p)
  {
    Pkt(Join(Kept(p.body)), p.key || HasKey(p.body), p.time)
  }

  ghost function Gathered(p: Picture): Option<Pkt>
    requires Shaped(p)
  {
    if p.body == [] then None else Some(Whole(p))
  }

  /** One call on the sample of picture p. */
  ghost function Gives(held: Option<Pkt>, p: Picture): Cut
    requires Shaped(p)
  {
    match held
    case Some(h) => Cut(Some(h.(data := h.data + Join(Front(p)))), Gathered(p))
    case None =>
      if Front(p) == [] then Cut(Gathered(p), None) else Cut(Some(SidePkt(Front(p), p.time)), Gathered(p))
  }

  lemma SampleUnits(p: Picture)
    requires Shaped(p)
    ensures Split(OutOf(p).bytes).0 == (Dense(p.sets) + p.lead) + p.body
    ensures [] !in Dense(p.sets) + p.lead && NoneCoded(Dense(p.sets) + p.lead)
  {
    hide Split, Join, Dense;
    var nalus := p.lead + p.body;
    JoinAppend(p.sets, nalus);
    SplitJoin(p.sets + nalus);
    DenseAppend(p.sets, nalus);
    DenseSame(nalus);
    DenseHasNoEmpty(p.sets);
    assert Dense(p.sets) + nalus == (Dense(p.sets) + p.lead) + p.body;
  }

  lemma BodyGathers(c: Cut, p: Picture)
    requires Shaped(p) && p.body != []
    ensures CutUnits(c, p.body, p.key, p.time) == Cut(if c.sliced.Some? then c.sliced else c.pkt, Some(Whole(p)))
  {
    hide Prefixed;
    var first, rest := p.body[0], p.body[1..];
    HasKeyStep(p.body);
    UnitsJoin(CutUnit(c, first, p.key, p.time), rest, p.key, p.time);
    var kept := [first] + Kept(rest);
    assert kept[1..] == Kept(rest);
  }

  lemma FrontGathers(held: Option<Pkt>, p: Picture)
    requires Shaped(p)
    ensures [] !in Dense(p.sets) + p.lead
    ensures CutUnits(Cut(None, held), Dense(p.sets) + p.lead, p.key, p.time) ==
            match held
            case Some(h) => Cut(None, Some(h.(data := h.data + Join(Front(p)))))
            case None => Cut(if Front(p) == [] then None else Some(SidePkt(Front(p), p.time)), None)
  {
    hide CutUnits, Split, Kept, Join, Dense;
    SampleUnits(p);
    var front := Dense(p.sets) + p.lead;
    if held.Some? {
      UnitsJoin(Cut(None, held), front, p.key, p.time);
    } else {
      SidesReplace(Cut(None, held), front, p.key, p.time);
    }
  }

  /** A sample gives the picture gathered before it, with its own side units behind; its own
      picture stays gathered. With nothing gathered before, side units come out alone, and only a
      picture with none in front of it comes out itself. */
  lemma CutPicture(params: Params, held: Option<Pkt>, p: Picture)
    requires params.H265? && Shaped(p)
    ensures !Panics(params, OutOf(p).bytes)
    ensures CutSample(params, held, OutOf(p)) == Gives(held, p)
  {
    hide CutUnits, Split, Kept, Join, Dense, DataRead;
    SampleUnits(p);
    var front := Dense(p.sets) + p.lead;
    CutAppend(Cut(None, held), front, p.body, p.key, p.time);
    FrontGathers(held, p);
    if p.body == [] {
      CutNone(CutUnits(Cut(None, held), front, p.key, p.time), p.key, p.time);
    } else {
      BodyGathers(CutUnits(Cut(None, held), front, p.key, p.time), p);
    }
  }

  lemma CutNone(c: Cut, key: bool, time: nat)
    ensures CutUnits(c, [], key, time) == c
  {
  }

  // ----- All samples of a stream -----

  ghost predicate NonePanics(params: Params, outs: seq<Out>) {
    forall i :: 0 <= i < |outs| ==> !Panics(params, outs[i].bytes)
  }

  /** The answers to the calls that read outs, and the picture gathered after them. */
  ghost function CutRun(params: Params, outs: seq<Out>): (seq<Option<Pkt>>, Option<Pkt>)
    requires NonePanics(params, outs)
  {
    if outs == [] then ([], None) else
    var n := |outs| - 1;
    var (answers, held) := CutRun(params, outs[..n]);
    var c := CutSample(params, held, outs[n]);
    (answers + [c.pkt], c.sliced)
  }

  ghost predicate AllShaped(ps: seq<Picture>) {
    forall i :: 0 <= i < |ps| ==> Shaped(ps[i])
  }

  function OutsFor(ps: seq<Picture>): seq<Out> {
    seq(|ps|, i requires 0 <= i < |ps| => OutOf(ps[i]))
  }

  /** After j samples a picture is still gathered: since the last sample without a slice there were
      side units in front of one. */
  ghost predicate Behind(ps: seq<Picture>, j: nat)
    requires j <= |ps| && AllShaped(ps)
  {
    j > 0 && ps[j - 1].body != [] && (Front(ps[j - 1]) != [] || Behind(ps, j - 1))
  }

  /** What call j answers. */
  ghost function Answer(ps: seq<Picture>, j: nat): Option<Pkt>
    requires j < |ps| && AllShaped(ps)
  {
    Gives(if Behind(ps, j) then Some(Whole(ps[j - 1])) else None, ps[j]).pkt
  }

  lemma {:induction false} BehindPrefix(ps: seq<Picture>, m: nat, j: nat)
    requires j <= m <= |ps| && AllShaped(ps)
    ensures AllShaped(ps[..m]) && (Behind(ps[..m], j) <==> Behind(ps, j))
    decreases j
  {
    if j > 0 { BehindPrefix(ps, m, j - 1); }
  }

  /** Main result: the answer to every call on a track of H.265 pictures. */
  lemma {:induction false} RunAnswers(params: Params, ps: seq<Picture>)
    requires params.H265? && AllShaped(ps)
    ensures NonePanics(params, OutsFor(ps))
    ensures var (answers, held) := CutRun(params, OutsFor(ps));
            && |answers| == |ps| && (forall j :: 0 <= j < |ps| ==> answers[j] == Answer(ps, j))
            && held == if Behind(ps, |ps|) then Some(Whole(ps[|ps| - 1])) else None
  {
    hide Panics, CutSample, OutOf, Front, Whole, Shaped;
    forall i | 0 <= i < |ps| ensures !Panics(params, OutsFor(ps)[i].bytes) {
      CutPicture(params, None, ps[i]);
    }
    if ps != [] {
      var n := |ps| - 1;
      var front := ps[..n];
      assert OutsFor(ps)[..n] == OutsFor(front);
      RunAnswers(params, front);
      forall j | 0 <= j <= n ensures Behind(front, j) <==> Behind(ps, j) {
        BehindPrefix(ps, n, j);
      }
      CutPicture(params, if Behind(ps, n) then Some(Whole(ps[n - 1])) else None, ps[n]);
    }
  }

  // ----- Which pictures come back -----

  ghost predicate TimesAscend(ps: seq<Picture>) {
    forall i, j :: 0 <= i < j < |ps| ==> ps[i].time < ps[j].time
  }

  /** Some call answers with the data and the time of picture i. */
  ghost predicate ComesBack(ps: seq<Picture>, i: nat)
    requires i < |ps| && AllShaped(ps)
  {
    exists j :: 0 <= j < |ps| && IsPicture(ps, i, j)
  }

  ghost predicate IsPicture(ps: seq<Picture>, i: nat, j: nat)
    requires i < |ps| && j < |ps| && AllShaped(ps)
  {
    Answer(ps, j).Some? && Answer(ps, j).value.data == DataOf(ps[i]) && Answer(ps, j).value.time == ps[i].time
  }

  lemma JoinInjective(a: seq<Nalu>, b: seq<Nalu>)
    requires [] !in a && [] !in b && Countable(a) && Countable(b) && a != [] && b != []
    ensures Join(a) == Join(b) <==> a == b
  {
    hide Join, Split, Dense;
    SplitJoin(a);
    SplitJoin(b);
    DenseSame(a);
    DenseSame(b);
  }

  predicate AllKept(nalus: seq<Nalu>)
    requires [] !in nalus
  {
    forall k :: 0 <= k < |nalus| ==> IsSide(nalus[k]) || IsCoded(nalus[k])
  }

  lemma {:induction false} KeptIs(nalus: seq<Nalu>)
    requires [] !in nalus
    ensures [] !in Kept(nalus) && AllKept(Kept(nalus)) && (Countable(nalus) ==> Countable(Kept(nalus)))
    ensures Kept(nalus) == nalus <==> AllKept(nalus)
    ensures NoneCoded(nalus) ==> NoneCoded(Kept(nalus))
  {
    if nalus != [] {
      var rest := nalus[1..];
      assert forall k :: 0 <= k < |rest| ==> rest[k] == nalus[k + 1];
      KeptIs(rest);
      assert nalus == [nalus[0]] + rest;
    }
  }

  lemma {:induction false} DenseCountable(nalus: seq<Nalu>)
    requires Countable(nalus)
    ensures Countable(Dense(nalus))
  {
    if nalus != [] { DenseCountable(nalus[1..]); }
  }

  lemma FrontIs(p: Picture)
    requires Shaped(p)
    ensures [] !in Front(p) && AllKept(Front(p)) && Countable(Front(p)) && NoneCoded(Front(p))
  {
    hide Split, Join, Dense, Kept;
    SampleUnits(p);
    DenseCountable(p.sets);
    assert forall k :: 0 <= k < |p.lead| ==> p.lead[k] == (p.lead + p.body)[k];
    KeptIs(Dense(p.sets) + p.lead);
  }

  lemma BodyIs(p: Picture)
    requires Shaped(p) && p.body != []
    ensures Kept(p.body) != [] && Kept(p.body)[0] == p.body[0] && Countable(p.body)
    ensures [] !in Kept(p.body) && AllKept(Kept(p.body)) && Countable(Kept(p.body))
    ensures Kept(p.body) == p.body <==> AllKept(p.body)
  {
    hide Split, Join, Dense;
    assert forall k :: 0 <= k < |p.body| ==> p.body[k] == (p.lead + p.body)[k + |p.lead|];
    KeptIs(p.body);
  }

  /** The units kept of a picture, with others behind, are all its units only when nothing stands
      in front of its first slice, nothing is dropped and nothing comes behind. */
  lemma SameUnits(p: Picture, behind: seq<Nalu>)
    requires Shaped(p) && p.body != [] && [] !in behind && Countable(behind) && AllKept(behind)
    ensures Join(Kept(p.body) + behind) == DataOf(p) <==> p.lead == [] && AllKept(p.body) && behind == []
  {
    hide Split, Join, Dense, Kept;
    BodyIs(p);
    var a, b := Kept(p.body) + behind, p.lead + p.body;
    JoinInjective(a, b);
    assert a[0] == p.body[0] && (p.lead != [] ==> b[0] == p.lead[0]);
    assert (p.lead == [] ==> b == p.body) && (behind == [] ==> a == Kept(p.body));
    assert AllKept(a) && |a| == |Kept(p.body)| + |behind|;
  }

  lemma SideIsNoPicture(p: Picture, q: Picture)
    requires Shaped(p) && p.body != [] && Shaped(q) && Front(q) != []
    ensures SidePkt(Front(q), q.time).data != DataOf(p)
  {
    hide Split, Join, Dense, Front, Prefixed;
    FrontIs(q);
    var u, units := Front(q)[|Front(q)| - 1], p.lead + p.body;
    JoinOne(u);
    JoinInjective([u], units);
    assert units[|p.lead|] == p.body[0];
  }

  /** The call that would answer with picture i: the one for its sample, or the next. */
  ghost function CallOf(ps: seq<Picture>, i: nat): nat
    requires i < |ps| && AllShaped(ps)
  {
    if Behind(ps, i + 1) then i + 1 else i
  }

  /** Picture i comes through: nothing stands in front of its first slice, nothing in it is dropped
      and, if it stays gathered, a sample follows that has no side units in front. */
  ghost predicate Survives(ps: seq<Picture>, i: nat)
    requires i < |ps| && AllShaped(ps)
  {
    && ps[i].lead == [] && AllKept(ps[i].body)
    && (Behind(ps, i + 1) ==> i + 1 < |ps| && Front(ps[i + 1]) == [])
  }

  /** No call but CallOf answers with picture i, and that one does exactly when i survives. */
  lemma WhichCall(ps: seq<Picture>, i: nat, j: nat)
    requires AllShaped(ps) && i < |ps| && j < |ps| && ps[i].body != []
    requires TimesAscend(ps) || j == CallOf(ps, i)
    ensures IsPicture(ps, i, j) <==> Survives(ps, i) && j == CallOf(ps, i)
  {
    hide Split, Join, Dense, Kept, Front, Prefixed;
    var p, q := ps[i], ps[j];
    FrontIs(q);
    if Behind(ps, j) {
      JoinAppend(Kept(ps[j - 1].body), Front(q));
      if i == j - 1 { SameUnits(p, Front(q)); }
    } else if Front(q) != [] {
      SideIsNoPicture(p, q);
    } else if q.body != [] {
      assert Kept(q.body) + [] == Kept(q.body);
      if i == j { SameUnits(p, []); }
    }
  }

  /** Main result: a picture of an H.265 track comes back exactly when it survives. */
  lemma ComesBackIff(ps: seq<Picture>, i: nat)
    requires AllShaped(ps) && TimesAscend(ps) && i < |ps| && ps[i].body != []
    ensures ComesBack(ps, i) <==> Survives(ps, i)
  {
    hide Front, AllKept;
    if CallOf(ps, i) < |ps| { WhichCall(ps, i, CallOf(ps, i)); }
    if ComesBack(ps, i) {
      var k :| 0 <= k < |ps| && IsPicture(ps, i, k);
      WhichCall(ps, i, k);
    }
  }

  /** Once a sample began with side units, and every sample from there on has a slice, the last
      picture is still gathered when the samples are used up: it does not come back. */
  lemma {:induction false} LastIsLost(ps: seq<Picture>, k: nat)
    requires AllShaped(ps) && TimesAscend(ps) && k < |ps| && Front(ps[k]) != []
    requires forall i :: k <= i < |ps| ==> ps[i].body != []
    ensures Behind(ps, |ps|) && !ComesBack(ps, |ps| - 1)
  {
    hide Front, AllKept;
    StaysBehind(ps, k, |ps|);
    ComesBackIff(ps, |ps| - 1);
  }

  lemma {:induction false} StaysBehind(ps: seq<Picture>, k: nat, j: nat)
    requires AllShaped(ps) && k < j <= |ps| && Front(ps[k]) != []
    requires forall i :: k <= i < |ps| ==> ps[i].body != []
    ensures Behind(ps, j)
  {
    hide Front;
    if j > k + 1 { StaysBehind(ps, k, j - 1); }
  }

  /** ReadPacket answers with no packet and no error exactly for a sample without side units in
      front and without a slice it knows, when nothing is gathered. */
  lemma NilAnswer(ps: seq<Picture>, j: nat)
    requires AllShaped(ps) && j < |ps|
    ensures Answer(ps, j).None? <==> !Behind(ps, j) && Front(ps[j]) == [] && ps[j].body == []
  {
    hide Front;
  }

  /** The sample of one slice with nothing or the parameter sets vps, sps and pps in front. */
  lemma OneSlice(sets: seq<Nalu>, slice: Nalu, key: bool, time: nat)
    requires sets == [] || sets == [[64, 1], [66, 1], [68, 1]]
    requires IsFirst(slice) && |slice| == 3
    ensures var p := Picture(sets, [], [slice], key, time);
            && Shaped(p) && Front(p) == sets && AllKept(p.body)
            && Whole(p) == Pkt(DataOf(p), key || IsKey(TypeOf(slice)), time)
  {
    hide Join, Split, Dense, Kept;
    var p := Picture(sets, [], [slice], key, time);
    assert [] + p.body == p.body && sets + [] == sets;
    DenseSame(sets);
    KeptIs(sets);
    KeptIs(p.body);
    HasKeyStep(p.body);
  }

  /** A run: a keyframe, a picture of a type 1 slice and one of a type 0 slice. The first call gives
      the last parameter set alone, the next two the first two pictures, and the third picture is
      never seen. */
  lemma ThreePictures()
    ensures var key := Picture([[64, 1], [66, 1], [68, 1]], [], [[38, 1, 128]], true, 0);
            var next := Picture([], [], [[2, 1, 128]], false, 40_000_000);
            var last := Picture([], [[0, 1, 128]], [], false, 80_000_000);
            var ps := [key, next, last];
            && AllShaped(ps)
            && Answer(ps, 0) == Some(Pkt(Prefixed([68, 1]), false, 0))
            && Answer(ps, 1) == Some(Pkt(DataOf(key), true, 0))
            && Answer(ps, 2) == Some(Pkt(DataOf(next), false, 40_000_000))
            && !Behind(ps, 3)
  {
    hide Prefixed, Split, Dense, Kept, DataOf, HasKey, Whole;
    var key := Picture([[64, 1], [66, 1], [68, 1]], [], [[38, 1, 128]], true, 0);
    var next := Picture([], [], [[2, 1, 128]], false, 40_000_000);
    var last := Picture([], [[0, 1, 128]], [], false, 80_000_000);
    OneSlice(key.sets, [38, 1, 128], true, 0);
    OneSlice([], [2, 1, 128], false, 40_000_000);
    assert Shaped(last) && Front(last) == [] by { LastShaped(last); }
    var ps := [key, next, last];
    assert ps[0] == key && ps[1] == next && ps[2] == last;
    assert DataOf(key) + Join([]) == DataOf(key) && DataOf(next) + Join([]) == DataOf(next);
    assert !Behind(ps, 0) && Behind(ps, 1) && Behind(ps, 2) && !Behind(ps, 3);
  }

  lemma LastShaped(p: Picture)
    requires p.sets == [] && p.lead == [[0, 1, 128]] && p.body == []
    ensures Shaped(p) && Front(p) == []
  {
    assert p.lead + p.body == p.lead && [] + p.lead == p.lead;
    assert p.lead[1..] == [] && Kept(p.lead) == Kept(p.lead[1..]);
  }
}
