/** writer/segmenter/segmenter.go: the rolling window of packets kept before an event. */
module SegmenterRing {
  /** key matters for video alone; codec identifies the codec parameters. */
  datatype Packet = Packet(id: nat, video: bool, key: bool, duration: nat, size: nat, start: int, codec: nat)

  datatype Limits = Limits(maxDur: int, hardCap: int, maxPackets: nat, maxBytes: int)

  datatype Ring = Ring(packets: seq<Packet>, duration: int, bytes: int)

  const EMPTY: Ring := Ring([], 0, 0)

  predicate IsKey(p: Packet) {
    p.video && p.key
  }

  function TimeOf(p: Packet): nat {
    if p.video then p.duration else 0
  }

  /** The packet at idx is released; the counters are kept from going negative. */
  function DropAt(r: Ring, idx: nat): Ring
    requires idx < |r.packets|
  {
    var p := r.packets[idx];
    var bytes, duration := r.bytes - p.size, r.duration - TimeOf(p);
    Ring(r.packets[..idx] + r.packets[idx + 1..],
         if p.video && duration < 0 then 0 else duration, if bytes < 0 then 0 else bytes)
  }

  datatype Limit = Bytes | Duration | Count

  predicate Over(l: Limits, r: Ring, limit: Limit) {
    match limit
    case Bytes => r.bytes > l.maxBytes
    case Duration => r.duration > l.hardCap
    case Count => |r.packets| > l.maxPackets
  }

  /** The packet behind the first one goes while the limit is passed. The second result is what was
      released. */
  function DropWhile(l: Limits, r: Ring, limit: Limit): (Ring, seq<Packet>)
    decreases |r.packets|
  {
    if Over(l, r, limit) && |r.packets| > 1 then
      var (end, dropped) := DropWhile(l, DropAt(r, 1), limit);
      (end, [r.packets[1]] + dropped)
    else (r, [])
  }

  function EnforceLimits(l: Limits, r: Ring): (Ring, seq<Packet>) {
    var (r1, d1) := DropWhile(l, r, Bytes);
    var (r2, d2) := DropWhile(l, r1, Duration);
    var (r3, d3) := DropWhile(l, r2, Count);
    (r3, d1 + d2 + d3)
  }

  function Add(l: Limits, r: Ring, p: Packet): (Ring, seq<Packet>) {
    EnforceLimits(l, Ring(r.packets + [p], r.duration + TimeOf(p), r.bytes + p.size))
  }

  /** The first keyframe from i on, or the number of packets. */
  function NextKey(ps: seq<Packet>, i: nat): (k: nat)
    requires i <= |ps|
    ensures i <= k <= |ps| && (k < |ps| ==> IsKey(ps[k]))
    ensures forall j :: i <= j < k ==> !IsKey(ps[j])
    decreases |ps| - i
  {
    if i == |ps| || IsKey(ps[i]) then i else NextKey(ps, i + 1)
  }

  function Time(ps: seq<Packet>): nat {
    if ps == [] then 0 else TimeOf(ps[0]) + Time(ps[1..])
  }

  function Size(ps: seq<Packet>): nat {
    if ps == [] then 0 else ps[0].size + Size(ps[1..])
  }

  /** Everything before the next keyframe goes while the window is too long. */
  function TrimWindow(l: Limits, r: Ring): (Ring, seq<Packet>)
    decreases |r.packets|
  {
    if |r.packets| <= 1 || r.duration <= l.maxDur then (r, []) else
    var k := NextKey(r.packets, 1);
    if k == |r.packets| then (r, []) else
    var (end, dropped) := TrimWindow(l, CutAt(r, k));
    (end, r.packets[..k] + dropped)
  }

  function Trim(l: Limits, r: Ring): (Ring, seq<Packet>) {
    var (r1, d1) := TrimWindow(l, r);
    var (r2, d2) := EnforceLimits(l, r1);
    (r2, d1 + d2)
  }

  // ----- Counters are sums -----

  /** The counters are the sums they stand for, so the guards against negative values never act. */
  predicate Counted(r: Ring) {
    r.duration == Time(r.packets) && r.bytes == Size(r.packets)
  }

  lemma {:induction false} SumsAppend(a: seq<Packet>, b: seq<Packet>)
    ensures Time(a + b) == Time(a) + Time(b) && Size(a + b) == Size(a) + Size(b)
  {
    if a == [] {
      assert a + b == b;
    } else {
      SumsAppend(a[1..], b);
      assert (a + b)[1..] == a[1..] + b;
    }
  }

  lemma SumsOne(p: Packet)
    ensures Time([p]) == TimeOf(p) && Size([p]) == p.size
  {
    assert Time([p][1..]) == 0 && Size([p][1..]) == 0;
  }

  lemma SumsAt(ps: seq<Packet>, idx: nat)
    requires idx < |ps|
    ensures Time(ps[..idx] + ps[idx + 1..]) == Time(ps) - TimeOf(ps[idx])
    ensures Size(ps[..idx] + ps[idx + 1..]) == Size(ps) - ps[idx].size
  {
    assert ps == ps[..idx] + ([ps[idx]] + ps[idx + 1..]);
    SumsAppend(ps[..idx], [ps[idx]] + ps[idx + 1..]);
    SumsAppend([ps[idx]], ps[idx + 1..]);
    SumsAppend(ps[..idx], ps[idx + 1..]);
    SumsOne(ps[idx]);
  }

  lemma DropCounted(r: Ring, idx: nat)
    requires Counted(r) && idx < |r.packets|
    ensures Counted(DropAt(r, idx))
    ensures DropAt(r, idx).duration == r.duration - TimeOf(r.packets[idx]) &&
              DropAt(r, idx).bytes == r.bytes - r.packets[idx].size
  {
    SumsAt(r.packets, idx);
  }

  /** A limit once met stays met, and so does being counted; the first packet stays. */
  lemma {:induction false} DropWhileKeeps(l: Limits, r: Ring, limit: Limit)
    requires Counted(r) && r.packets != []
    ensures var (r', dropped) := DropWhile(l, r, limit);
            && Counted(r') && r'.packets != [] && r'.packets[0] == r.packets[0] &&
              |r'.packets| + |dropped| == |r.packets|
            && r'.duration <= r.duration && r'.bytes <= r.bytes
            && (!Over(l, r', limit) || |r'.packets| == 1)
            && (dropped == [] ==> r' == r)
            && (|r'.packets| > 1 ==> r'.packets[|r'.packets| - 1] == r.packets[|r.packets| - 1])
    decreases |r.packets|
  {
    hide Time, Size;
    if Over(l, r, limit) && |r.packets| > 1 {
      DropCounted(r, 1);
      var next := DropAt(r, 1);
      DropWhileKeeps(l, next, limit);
    }
  }

  predicate Within(l: Limits, r: Ring) {
    !Over(l, r, Bytes) && !Over(l, r, Duration) && !Over(l, r, Count)
  }

  /** Main result: after the limits were enforced they all hold, or one packet is left; the leading
      packet always stays, and so does the newest if any other does. */
  lemma LimitsHold(l: Limits, r: Ring)
    requires Counted(r) && r.packets != []
    ensures var (r', dropped) := EnforceLimits(l, r);
            && Counted(r') && r'.packets != [] && r'.packets[0] == r.packets[0] && |r'.packets| <= |r.packets|
            && (Within(l, r') || |r'.packets| == 1)
            && (|r'.packets| > 1 ==> r'.packets[|r'.packets| - 1] == r.packets[|r.packets| - 1])
  {
    hide Time, Size;
    DropWhileKeeps(l, r, Bytes);
    var r1 := DropWhile(l, r, Bytes).0;
    DropWhileKeeps(l, r1, Duration);
    DropWhileKeeps(l, DropWhile(l, r1, Duration).0, Count);
  }

  lemma AddKeeps(l: Limits, r: Ring, p: Packet)
    requires Counted(r)
    ensures var r' := Add(l, r, p).0;
            && Counted(r') && r'.packets != [] && (Within(l, r') || |r'.packets| == 1)
            && r'.packets[0] == (if r.packets == [] then p else r.packets[0])
            && (|r'.packets| > 1 ==> r'.packets[|r'.packets| - 1] == p)
  {
    hide EnforceLimits;
    SumsAppend(r.packets, [p]);
    SumsOne(p);
    LimitsHold(l, Ring(r.packets + [p], r.duration + TimeOf(p), r.bytes + p.size));
  }

  /** One round of the trimming loop. */
  function CutAt(r: Ring, k: nat): Ring
    requires k <= |r.packets|
  {
    Ring(r.packets[k..], r.duration - Time(r.packets[..k]), r.bytes - Size(r.packets[..k]))
  }

  lemma CutCounted(r: Ring, k: nat)
    requires Counted(r) && k <= |r.packets|
    ensures Counted(CutAt(r, k))
  {
    assert r.packets[..k] + r.packets[k..] == r.packets;
    SumsAppend(r.packets[..k], r.packets[k..]);
  }

  lemma Associate(a: seq<Packet>, b: seq<Packet>, c: seq<Packet>)
    ensures (a + b) + c == a + (b + c)
  {
  }

  lemma {:induction false} TrimWindowKeeps(l: Limits, r: Ring)
    requires Counted(r) && r.packets != []
    ensures var (r', dropped) := TrimWindow(l, r);
            && Counted(r') && r'.packets != [] && dropped + r'.packets == r.packets
            && (|r'.packets| <= 1 || r'.duration <= l.maxDur || NextKey(r'.packets, 1) == |r'.packets|)
            && (dropped != [] ==> IsKey(r'.packets[0]))
    decreases |r.packets|
  {
    hide Counted, CutAt;
    if |r.packets| > 1 && r.duration > l.maxDur && NextKey(r.packets, 1) < |r.packets| {
      var k := NextKey(r.packets, 1);
      CutCounted(r, k);
      CutIs(r, k);
      TrimWindowKeeps(l, CutAt(r, k));
      var (r', dropped) := TrimWindow(l, CutAt(r, k));
      Associate(r.packets[..k], dropped, r'.packets);
    }
  }

  lemma CutIs(r: Ring, k: nat)
    requires k <= |r.packets|
    ensures CutAt(r, k).packets == r.packets[k..] && r.packets[..k] + r.packets[k..] == r.packets
    ensures 0 < k < |r.packets| ==> |CutAt(r, k).packets| < |r.packets| && CutAt(r, k).packets[0] == r.packets[k]
  {
  }

  /** Main result: after a trim the window is short enough, or holds one packet, or has no later
      keyframe to start from; whenever something was cut off in front it starts on a keyframe. */
  lemma TrimKeeps(l: Limits, r: Ring)
    requires Counted(r) && r.packets != []
    ensures var (r1, cut) := TrimWindow(l, r);
            var (r', _) := Trim(l, r);
            && Counted(r') && r'.packets != [] && (Within(l, r') || |r'.packets| == 1) && |r'.packets| <= |r.packets|
            && cut <= r.packets && r'.packets[0] == r1.packets[0] && (cut != [] ==> IsKey(r'.packets[0])) &&
              (cut == [] ==> r'.packets[0] == r.packets[0])
            && (|r'.packets| > 1 ==> r'.packets[|r'.packets| - 1] == r.packets[|r.packets| - 1])
  {
    hide EnforceLimits;
    TrimWindowKeeps(l, r);
    LimitsHold(l, TrimWindow(l, r).0);
    var (r1, cut) := TrimWindow(l, r);
    assert r.packets[|r.packets| - 1] == (cut + r1.packets)[|cut| + |r1.packets| - 1];
    if cut == [] { assert r.packets == r1.packets; }
  }

  /** After a keyframe came in, a keyframe is in the window, unless only one packet that is none
      was left of it. */
  lemma KeyframeIsThere(l: Limits, r: Ring, p: Packet)
    requires Counted(r) && IsKey(p)
    ensures var ps := Trim(l, Add(l, r, p).0).0.packets;
            ps != [] && (NextKey(ps, 0) < |ps| <==> |ps| > 1 || IsKey(ps[0]))
  {
    hide Add, Trim, TrimWindow;
    AddKeeps(l, r, p);
    TrimKeeps(l, Add(l, r, p).0);
    var ps := Trim(l, Add(l, r, p).0).0.packets;
    var k := NextKey(ps, 0);
    if |ps| > 1 { assert ps[|ps| - 1] == Add(l, r, p).0.packets[|Add(l, r, p).0.packets| - 1]; }
  }

  // ----- Ownership -----

  function Copies(ps: seq<Packet>, id: nat): nat {
    if ps == [] then 0 else (if ps[0].id == id then 1 else 0) + Copies(ps[1..], id)
  }

  lemma {:induction false} CopiesAppend(a: seq<Packet>, b: seq<Packet>, id: nat)
    ensures Copies(a + b, id) == Copies(a, id) + Copies(b, id)
  {
    if a == [] {
      assert a + b == b;
    } else {
      CopiesAppend(a[1..], b, id);
      assert (a + b)[1..] == a[1..] + b;
    }
  }

  lemma CopiesOne(p: Packet, id: nat)
    ensures Copies([p], id) == if p.id == id then 1 else 0
  {
    assert Copies([p][1..], id) == 0;
  }

  lemma DropOwns(r: Ring, idx: nat, id: nat)
    requires idx < |r.packets|
    ensures Copies(DropAt(r, idx).packets, id) + (if r.packets[idx].id == id then 1 else 0) == Copies(r.packets, id)
  {
    var ps := r.packets;
    assert ps == ps[..idx] + ([ps[idx]] + ps[idx + 1..]);
    CopiesAppend(ps[..idx], [ps[idx]] + ps[idx + 1..], id);
    CopiesAppend([ps[idx]], ps[idx + 1..], id);
    CopiesAppend(ps[..idx], ps[idx + 1..], id);
    CopiesOne(ps[idx], id);
  }

  lemma {:induction false} DropWhileOwns(l: Limits, r: Ring, limit: Limit, id: nat)
    ensures var (r', dropped) := DropWhile(l, r, limit);
            Copies(r'.packets, id) + Copies(dropped, id) == Copies(r.packets, id)
    decreases |r.packets|
  {
    hide DropAt;
    if Over(l, r, limit) && |r.packets| > 1 {
      DropOwns(r, 1, id);
      DropShorter(r, 1);
      DropWhileOwns(l, DropAt(r, 1), limit, id);
      var (end, dropped) := DropWhile(l, DropAt(r, 1), limit);
      CopiesAppend([r.packets[1]], dropped, id);
      CopiesOne(r.packets[1], id);
    }
  }

  lemma DropShorter(r: Ring, idx: nat)
    requires idx < |r.packets|
    ensures |DropAt(r, idx).packets| == |r.packets| - 1
  {
  }

  lemma LimitsOwn(l: Limits, r: Ring, id: nat)
    ensures var (r', dropped) := EnforceLimits(l, r);
            Copies(r'.packets, id) + Copies(dropped, id) == Copies(r.packets, id)
  {
    hide DropWhile, Copies;
    DropWhileOwns(l, r, Bytes, id);
    var (r1, d1) := DropWhile(l, r, Bytes);
    DropWhileOwns(l, r1, Duration, id);
    var (r2, d2) := DropWhile(l, r1, Duration);
    DropWhileOwns(l, r2, Count, id);
    var (r3, d3) := DropWhile(l, r2, Count);
    CopiesAppend(d1, d2, id);
    CopiesAppend(d1 + d2, d3, id);
  }

  lemma {:induction false} TrimWindowOwns(l: Limits, r: Ring, id: nat)
    ensures var (r', dropped) := TrimWindow(l, r);
            Copies(r'.packets, id) + Copies(dropped, id) == Copies(r.packets, id)
    decreases |r.packets|
  {
    if |r.packets| > 1 && r.duration > l.maxDur {
      var k := NextKey(r.packets, 1);
      if k < |r.packets| {
        var front, back := r.packets[..k], r.packets[k..];
        assert front + back == r.packets;
        CopiesAppend(front, back, id);
        TrimWindowOwns(l, CutAt(r, k), id);
        CopiesAppend(front, TrimWindow(l, CutAt(r, k)).1, id);
      }
    }
  }

  /** Adding and trimming keep each packet in the window or release it, once. */
  lemma AddTrimOwns(l: Limits, r: Ring, p: Packet, id: nat)
    ensures var (r1, d1) := Add(l, r, p);
            var (r2, d2) := Trim(l, r1);
            && Copies(r1.packets, id) + Copies(d1, id) == Copies(r.packets, id) + (if p.id == id then 1 else 0)
            && Copies(r2.packets, id) + Copies(d2, id) == Copies(r1.packets, id)
  {
    hide EnforceLimits, TrimWindow, Copies;
    CopiesAppend(r.packets, [p], id);
    CopiesOne(p, id);
    LimitsOwn(l, Ring(r.packets + [p], r.duration + TimeOf(p), r.bytes + p.size), id);
    var r1 := Add(l, r, p).0;
    TrimWindowOwns(l, r1, id);
    var (w, cut) := TrimWindow(l, r1);
    LimitsOwn(l, w, id);
    CopiesAppend(cut, EnforceLimits(l, w).1, id);
  }
}
