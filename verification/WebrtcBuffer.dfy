/** writer/webrtc/buffer.go: the packets kept for peers that join, grouped by keyframe. */
module WebrtcBuffer {
  /** start is the wall-clock time of arrival; key matters for video alone. */
  datatype Packet = Packet(id: nat, video: bool, key: bool, duration: nat, start: int)

  datatype Gop = Gop(packets: seq<Packet>, duration: nat)

  /** hardCap 0: no cap. */
  datatype Config = Config(target: int, hardCap: nat)

  datatype State = State(gops: seq<Gop>, duration: int, released: seq<Packet>)

  predicate Opens(p: Packet) {
    p.video && p.key
  }

  function TimeOf(p: Packet): nat {
    if p.video then p.duration else 0
  }

  // ----- The operations -----

  function DropOldest(s: State): State
    requires s.gops != []
  {
    State(s.gops[1..], s.duration - s.gops[0].duration, s.released + s.gops[0].packets)
  }

  /** The packet behind the keyframe of the only group is given up. */
  function ShiftSingle(s: State): State
    requires |s.gops| == 1 && |s.gops[0].packets| >= 2 && TimeOf(s.gops[0].packets[1]) <= s.gops[0].duration
  {
    var ps, dropped := s.gops[0].packets, s.gops[0].packets[1];
    State([Gop([ps[0]] + ps[2..], s.gops[0].duration - TimeOf(dropped))], s.duration - TimeOf(dropped),
          s.released + [dropped])
  }

  function DropWhileOver(s: State, cap: nat): State
    decreases |s.gops|
  {
    if |s.gops| > 1 && s.duration > cap && s.duration - s.gops[0].duration >= cap then DropWhileOver(DropOldest(s), cap)
      else s
  }

  function ShiftWhileOver(s: State, cap: nat): State
    requires Counted(s)
    decreases if |s.gops| == 1 then |s.gops[0].packets| else 0
  {
    if |s.gops| == 1 && s.duration > cap && |s.gops[0].packets| >= 2 then
      ShiftCounted(s);
      ShiftWhileOver(ShiftSingle(s), cap)
    else s
  }

  function HardCap(c: Config, s: State): State
    requires Counted(s)
  {
    DropWhileCounted(s, c.hardCap);
    if c.hardCap == 0 then s else ShiftWhileOver(DropWhileOver(s, c.hardCap), c.hardCap)
  }

  function AdjustSize(c: Config, s: State): State
    requires s.gops != []
  {
    if s.duration < c.target || s.duration - s.gops[0].duration < c.target then s else DropOldest(s)
  }

  function Append(s: State, p: Packet): State
    requires s.gops != []
  {
    var n := |s.gops|;
    var g := s.gops[n - 1];
    s.(gops := s.gops[n - 1 := Gop(g.packets + [p], g.duration + TimeOf(p))], duration := s.duration + TimeOf(p))
  }

  /** A keyframe opens a group; before the first one everything is refused. */
  function AddPacket(c: Config, s: State, p: Packet): (State, bool)
    requires Counted(s)
  {
    var grouped := if Opens(p) then s.(gops := s.gops + [Gop([], 0)]) else s;
    if grouped.gops == [] then (s, false) else
    GroupCounted(s);
    AppendCounted(grouped, p);
    HardCapCounted(c, Append(grouped, p));
    var capped := HardCap(c, Append(grouped, p));
    (if Opens(p) then AdjustSize(c, capped) else capped, true)
  }

  function Flatten(gops: seq<Gop>): seq<Packet> {
    if gops == [] then [] else gops[0].packets + Flatten(gops[1..])
  }

  /** Reset and Close. */
  function Clear(s: State): State {
    State([], 0, s.released + Flatten(s.gops))
  }

  // ----- Counters are sums -----

  function Time(ps: seq<Packet>): nat {
    if ps == [] then 0 else TimeOf(ps[0]) + Time(ps[1..])
  }

  function TotalTime(gops: seq<Gop>): nat {
    if gops == [] then 0 else gops[0].duration + TotalTime(gops[1..])
  }

  ghost predicate Counted(s: State) {
    s.duration == TotalTime(s.gops) && forall i :: 0 <= i < |s.gops| ==> s.gops[i].duration == Time(s.gops[i].packets)
  }

  lemma {:induction false} TimeAppend(a: seq<Packet>, b: seq<Packet>)
    ensures Time(a + b) == Time(a) + Time(b)
  {
    if a == [] {
      assert a + b == b;
    } else {
      TimeAppend(a[1..], b);
      assert (a + b)[1..] == a[1..] + b;
    }
  }

  lemma {:induction false} TotalAppend(a: seq<Gop>, b: seq<Gop>)
    ensures TotalTime(a + b) == TotalTime(a) + TotalTime(b)
  {
    if a == [] {
      assert a + b == b;
    } else {
      TotalAppend(a[1..], b);
      assert (a + b)[1..] == a[1..] + b;
    }
  }

  lemma GroupCounted(s: State)
    requires Counted(s)
    ensures Counted(s.(gops := s.gops + [Gop([], 0)]))
  {
    TotalAppend(s.gops, [Gop([], 0)]);
    assert TotalTime([Gop([], 0)]) == 0;
  }

  lemma LastTotal(gops: seq<Gop>, g: Gop)
    requires gops != []
    ensures TotalTime(gops[|gops| - 1 := g]) == TotalTime(gops) - gops[|gops| - 1].duration + g.duration
  {
    var front, last := gops[..|gops| - 1], gops[|gops| - 1];
    assert gops == front + [last] && gops[|gops| - 1 := g] == front + [g];
    TotalAppend(front, [last]);
    TotalAppend(front, [g]);
    assert [last][1..] == [] && [g][1..] == [];
  }

  lemma AppendCounted(s: State, p: Packet)
    requires Counted(s) && s.gops != []
    ensures Counted(Append(s, p))
  {
    var g := s.gops[|s.gops| - 1];
    TimeAppend(g.packets, [p]);
    assert [p][1..] == [];
    LastTotal(s.gops, Gop(g.packets + [p], g.duration + TimeOf(p)));
  }

  lemma DropCounted(s: State)
    requires Counted(s) && s.gops != []
    ensures Counted(DropOldest(s))
  {
  }

  lemma ShiftCounted(s: State)
    requires Counted(s) && |s.gops| == 1 && |s.gops[0].packets| >= 2
    ensures TimeOf(s.gops[0].packets[1]) <= s.gops[0].duration && Counted(ShiftSingle(s))
  {
    var ps := s.gops[0].packets;
    assert Time(ps) == TimeOf(ps[0]) + Time(ps[1..]) && Time(ps[1..]) == TimeOf(ps[1]) + Time(ps[1..][1..]) &&
           ps[1..][1..] == ps[2..];
    assert ([ps[0]] + ps[2..])[1..] == ps[2..];
    assert s.gops[1..] == [] && ShiftSingle(s).gops[1..] == [];
  }

  lemma {:induction false} DropWhileCounted(s: State, cap: nat)
    requires Counted(s)
    ensures Counted(DropWhileOver(s, cap)) && (s.gops != [] ==> DropWhileOver(s, cap).gops != [])
    decreases |s.gops|
  {
    if |s.gops| > 1 && s.duration > cap && s.duration - s.gops[0].duration >= cap {
      DropCounted(s);
      DropWhileCounted(DropOldest(s), cap);
    }
  }

  lemma {:induction false} ShiftWhileCounted(s: State, cap: nat)
    requires Counted(s)
    ensures Counted(ShiftWhileOver(s, cap)) && |ShiftWhileOver(s, cap).gops| == |s.gops|
    decreases if |s.gops| == 1 then |s.gops[0].packets| else 0
  {
    if |s.gops| == 1 && s.duration > cap && |s.gops[0].packets| >= 2 {
      ShiftCounted(s);
      ShiftWhileCounted(ShiftSingle(s), cap);
    }
  }

  lemma HardCapCounted(c: Config, s: State)
    requires Counted(s)
    ensures Counted(HardCap(c, s)) && (s.gops != [] ==> HardCap(c, s).gops != [])
  {
    if c.hardCap != 0 {
      DropWhileCounted(s, c.hardCap);
      ShiftWhileCounted(DropWhileOver(s, c.hardCap), c.hardCap);
    }
  }

  /** The counters stay the sums of the durations they stand for. */
  lemma AddCounted(c: Config, s: State, p: Packet)
    requires Counted(s)
    ensures Counted(AddPacket(c, s, p).0)
  {
    hide HardCap;
    var grouped := if Opens(p) then s.(gops := s.gops + [Gop([], 0)]) else s;
    if grouped.gops != [] {
      GroupCounted(s);
      AppendCounted(grouped, p);
      HardCapCounted(c, Append(grouped, p));
      DropCounted(HardCap(c, Append(grouped, p)));
    }
  }

  // ----- Groups, sizes, order -----

  /** A group opens with its only keyframe. */
  ghost predicate Grouped(ps: seq<Packet>) {
    ps != [] && Opens(ps[0]) && forall i :: 0 < i < |ps| ==> !Opens(ps[i])
  }

  ghost predicate AllGrouped(gops: seq<Gop>) {
    forall i :: 0 <= i < |gops| ==> Grouped(gops[i].packets)
  }

  ghost predicate Small(gops: seq<Gop>, longest: nat) {
    forall i, j :: 0 <= i < |gops| && 0 <= j < |gops[i].packets| ==> TimeOf(gops[i].packets[j]) <= longest
  }

  /** No group is longer than the cap, and what lies behind the oldest one is shorter. */
  ghost predicate Bounded(c: Config, s: State) {
    && (forall i :: 0 <= i < |s.gops| ==> s.gops[i].duration <= c.hardCap)
    && (s.duration <= c.hardCap || (|s.gops| >= 2 && s.duration - s.gops[0].duration < c.hardCap))
  }

  /** The settings of the writer: the cap leaves room for one packet above the target. */
  predicate Roomy(c: Config, longest: nat) {
    0 < c.target && c.target + longest <= c.hardCap
  }

  ghost predicate Inv(c: Config, s: State, longest: nat) {
    Counted(s) && AllGrouped(s.gops) && Small(s.gops, longest) && Bounded(c, s)
  }

  /** The total stays under twice the cap. */
  lemma UnderTwiceTheCap(c: Config, s: State, longest: nat)
    requires Inv(c, s, longest) && c.hardCap > 0
    ensures 0 <= s.duration < 2 * c.hardCap
  {
  }

  lemma {:induction false} DropKeeps(s: State, cap: nat, longest: nat)
    requires Counted(s) && AllGrouped(s.gops) && Small(s.gops, longest) && s.gops != []
    requires forall i :: 0 <= i < |s.gops| - 1 ==> s.gops[i].duration <= cap
    ensures var r := DropWhileOver(s, cap);
            && AllGrouped(r.gops) && Small(r.gops, longest) && r.gops != []
            && (forall i :: 0 <= i < |r.gops| - 1 ==> r.gops[i].duration <= cap)
            && (|r.gops| == 1 || r.duration <= cap || r.duration - r.gops[0].duration < cap)
            && (r.duration < s.duration ==> r.duration >= cap) && r.duration <= s.duration
    decreases |s.gops|
  {
    if |s.gops| > 1 && s.duration > cap && s.duration - s.gops[0].duration >= cap {
      DropCounted(s);
      DropKeeps(DropOldest(s), cap, longest);
    }
  }

  lemma {:induction false} ShiftKeeps(s: State, cap: nat, longest: nat)
    requires Counted(s) && AllGrouped(s.gops) && Small(s.gops, longest) && longest <= cap
    ensures var r := ShiftWhileOver(s, cap);
            && AllGrouped(r.gops) && Small(r.gops, longest) && |r.gops| == |s.gops|
            && (|s.gops| == 1 ==> r.duration <= cap) && (|s.gops| != 1 ==> r == s)
            && (r.duration < s.duration ==> r.duration > cap - longest) && r.duration <= s.duration
    decreases if |s.gops| == 1 then |s.gops[0].packets| else 0
  {
    if |s.gops| == 1 {
      var ps := s.gops[0].packets;
      assert s.gops[1..] == [];
      if |ps| < 2 {
        assert Grouped(ps);
        assert ps[1..] == [] && Time(ps) == TimeOf(s.gops[0].packets[0]) <= longest;
        assert TotalTime(s.gops) == s.gops[0].duration;
      } else if s.duration > cap {
        ShiftCounted(s);
        ShiftOne(s, longest);
        ShiftKeeps(ShiftSingle(s), cap, longest);
      }
    }
  }

  lemma ShiftOne(s: State, longest: nat)
    requires Counted(s) && AllGrouped(s.gops) && Small(s.gops, longest) && |s.gops| == 1 && |s.gops[0].packets| >= 2
    requires TimeOf(s.gops[0].packets[1]) <= s.gops[0].duration
    ensures AllGrouped(ShiftSingle(s).gops) && Small(ShiftSingle(s).gops, longest)
  {
  }

  lemma LastBounded(c: Config, s: State)
    requires Counted(s) && s.gops != []
    requires forall i :: 0 <= i < |s.gops| - 1 ==> s.gops[i].duration <= c.hardCap
    requires s.duration <= c.hardCap || (|s.gops| >= 2 && s.duration - s.gops[0].duration < c.hardCap)
    ensures Bounded(c, s)
  {
    var n := |s.gops|;
    var last := s.gops[n - 1];
    assert s.gops == s.gops[..n - 1] + [last];
    TotalAppend(s.gops[..n - 1], [last]);
    assert [last][1..] == [];
    if n >= 2 {
      assert s.gops[..n - 1][0] == s.gops[0];
      assert TotalTime(s.gops[..n - 1]) >= s.gops[0].duration;
    }
  }

  lemma HardCapKeeps(c: Config, s: State, longest: nat)
    requires Counted(s) && AllGrouped(s.gops) && Small(s.gops, longest) && s.gops != [] && Roomy(c, longest)
    requires forall i :: 0 <= i < |s.gops| - 1 ==> s.gops[i].duration <= c.hardCap
    ensures Inv(c, HardCap(c, s), longest) && HardCap(c, s).gops != []
    ensures s.duration >= c.target ==> HardCap(c, s).duration >= c.target
  {
    hide Grouped;
    HardCapCounted(c, s);
    if c.hardCap != 0 {
      DropWhileCounted(s, c.hardCap);
      DropKeeps(s, c.hardCap, longest);
      var d := DropWhileOver(s, c.hardCap);
      ShiftKeeps(d, c.hardCap, longest);
      LastBounded(c, HardCap(c, s));
    }
  }

  lemma AdjustKeeps(c: Config, s: State, longest: nat)
    requires Inv(c, s, longest) && s.gops != []
    ensures Inv(c, AdjustSize(c, s), longest)
    ensures s.duration >= c.target ==> AdjustSize(c, s).duration >= c.target
  {
    hide Grouped;
    var r := AdjustSize(c, s);
    if r != s {
      DropCounted(s);
      if r.gops != [] { LastBounded(c, r); }
    }
  }

  /** Main result: whatever packets come, counters stay sums, every group opens with its only
      keyframe, no group passes the cap, the total stays under twice the cap, and a total that has
      reached the target never falls below it again. */
  lemma AddKeeps(c: Config, s: State, p: Packet, longest: nat)
    requires Inv(c, s, longest) && Roomy(c, longest) && TimeOf(p) <= longest
    ensures var (r, kept) := AddPacket(c, s, p);
            && Inv(c, r, longest) && 0 <= r.duration < 2 * c.hardCap
            && (s.duration >= c.target ==> r.duration >= c.target)
            && kept == (s.gops != [] || Opens(p))
  {
    hide Grouped, HardCap, AdjustSize;
    var grouped := if Opens(p) then s.(gops := s.gops + [Gop([], 0)]) else s;
    if grouped.gops != [] {
      GroupCounted(s);
      AppendCounted(grouped, p);
      AppendGrouped(s, p);
      var a := Append(grouped, p);
      HardCapKeeps(c, a, longest);
      HardCapCounted(c, a);
      AdjustKeeps(c, HardCap(c, a), longest);
      UnderTwiceTheCap(c, AddPacket(c, s, p).0, longest);
    }
  }

  lemma AppendGrouped(s: State, p: Packet)
    requires AllGrouped(s.gops) && (s.gops != [] || Opens(p))
    ensures AllGrouped(Append(if Opens(p) then s.(gops := s.gops + [Gop([], 0)]) else s, p).gops)
  {
  }

  // ----- Ownership -----

  function Copies(ps: seq<Packet>, id: nat): nat {
    if ps == [] then 0 else (if ps[0].id == id then 1 else 0) + Copies(ps[1..], id)
  }

  function Owned(s: State, id: nat): nat {
    Copies(Flatten(s.gops), id) + Copies(s.released, id)
  }

  lemma {:induction false} CopiesAppend(a: seq<Packet>, b: seq<Packet>, id: nat)
    ensures Copies(a + b, id) == Copies(a, id) + Copies(b, id)
  {
    if a == [] {
      assert a + b == b;
    } else {
      CopiesAppend(a[1..], b, id);
      assert (a + b)[1..] == a[1..] + b;
    }
  }

  lemma FlattenStep(gops: seq<Gop>)
    ensures Flatten(gops) == if gops == [] then [] else gops[0].packets + Flatten(gops[1..])
  {
  }

  lemma {:induction false} FlattenAppend(a: seq<Gop>, b: seq<Gop>)
    ensures Flatten(a + b) == Flatten(a) + Flatten(b)
  {
    hide Flatten;
    FlattenStep(a);
    if a == [] {
      assert a + b == b;
    } else {
      FlattenAppend(a[1..], b);
      FlattenStep(a + b);
      assert (a + b)[1..] == a[1..] + b && (a + b)[0] == a[0];
      assert a[0].packets + (Flatten(a[1..]) + Flatten(b)) == (a[0].packets + Flatten(a[1..])) + Flatten(b);
    }
  }

  lemma FlattenOne(g: Gop)
    ensures Flatten([g]) == g.packets
  {
    assert [g][1..] == [];
  }

  lemma AppendFlattens(s: State, p: Packet)
    requires s.gops != []
    ensures Flatten(Append(s, p).gops) == Flatten(s.gops) + [p]
  {
    var n := |s.gops|;
    var front, g := s.gops[..n - 1], s.gops[n - 1];
    var g' := Gop(g.packets + [p], g.duration + TimeOf(p));
    assert s.gops == front + [g] && Append(s, p).gops == front + [g'];
    FlattenAppend(front, [g]);
    FlattenAppend(front, [g']);
    FlattenOne(g);
    FlattenOne(g');
  }

  lemma DropOwns(s: State, id: nat)
    requires s.gops != []
    ensures Owned(DropOldest(s), id) == Owned(s, id)
  {
    CopiesAppend(s.gops[0].packets, Flatten(s.gops[1..]), id);
    CopiesAppend(s.released, s.gops[0].packets, id);
  }

  lemma ShiftOwns(s: State, id: nat)
    requires Counted(s) && |s.gops| == 1 && |s.gops[0].packets| >= 2 &&
               TimeOf(s.gops[0].packets[1]) <= s.gops[0].duration
    ensures Owned(ShiftSingle(s), id) == Owned(s, id)
  {
    var ps := s.gops[0].packets;
    assert s.gops == [s.gops[0]];
    FlattenOne(s.gops[0]);
    FlattenOne(ShiftSingle(s).gops[0]);
    assert ps == [ps[0]] + ([ps[1]] + ps[2..]);
    CopiesAppend([ps[0]], [ps[1]] + ps[2..], id);
    CopiesAppend([ps[1]], ps[2..], id);
    CopiesAppend([ps[0]], ps[2..], id);
    CopiesAppend(s.released, [ps[1]], id);
  }

  lemma {:induction false} DropWhileOwns(s: State, cap: nat, id: nat)
    ensures Owned(DropWhileOver(s, cap), id) == Owned(s, id)
    decreases |s.gops|
  {
    hide Owned;
    if |s.gops| > 1 && s.duration > cap && s.duration - s.gops[0].duration >= cap {
      DropOwns(s, id);
      DropWhileOwns(DropOldest(s), cap, id);
    }
  }

  lemma {:induction false} ShiftWhileOwns(s: State, cap: nat, id: nat)
    requires Counted(s)
    ensures Owned(ShiftWhileOver(s, cap), id) == Owned(s, id)
    decreases if |s.gops| == 1 then |s.gops[0].packets| else 0
  {
    hide Owned;
    if |s.gops| == 1 && s.duration > cap && |s.gops[0].packets| >= 2 {
      ShiftCounted(s);
      ShiftOwns(s, id);
      ShiftWhileOwns(ShiftSingle(s), cap, id);
    }
  }

  lemma HardCapOwns(c: Config, s: State, id: nat)
    requires Counted(s)
    ensures Owned(HardCap(c, s), id) == Owned(s, id)
  {
    hide Owned;
    if c.hardCap != 0 {
      DropWhileOwns(s, c.hardCap, id);
      DropWhileCounted(s, c.hardCap);
      ShiftWhileOwns(DropWhileOver(s, c.hardCap), c.hardCap, id);
    }
  }

  /** Main result: an accepted packet is kept or has been released, once; a refused one is left to
      the caller. */
  lemma AddOwns(c: Config, s: State, p: Packet, id: nat)
    requires Counted(s)
    ensures var (r, kept) := AddPacket(c, s, p);
            Owned(r, id) == Owned(s, id) + if kept && p.id == id then 1 else 0
  {
    hide HardCap, Copies, Flatten;
    var grouped := if Opens(p) then s.(gops := s.gops + [Gop([], 0)]) else s;
    if grouped.gops != [] {
      GroupCounted(s);
      AppendCounted(grouped, p);
      FlattenAppend(s.gops, [Gop([], 0)]);
      FlattenOne(Gop([], 0));
      assert Flatten(s.gops) + [] == Flatten(s.gops);
      AppendFlattens(grouped, p);
      CopiesAppend(Flatten(s.gops), [p], id);
      CopiesOne(p, id);
      HardCapOwns(c, Append(grouped, p), id);
      HardCapCounted(c, Append(grouped, p));
      DropOwns(HardCap(c, Append(grouped, p)), id);
    }
  }

  lemma CopiesOne(p: Packet, id: nat)
    ensures Copies([p], id) == if p.id == id then 1 else 0
  {
    assert Copies([p][1..], id) == 0;
  }

  lemma ClearOwns(s: State, id: nat)
    ensures Owned(Clear(s), id) == Owned(s, id) && Clear(s).gops == []
  {
    CopiesAppend(s.released, Flatten(s.gops), id);
  }

  // ----- What a joining peer gets -----

  /** The first group whose first packet arrived after ts, or the number of groups. */
  function FirstAfter(gops: seq<Gop>, ts: int, i: nat): (k: nat)
    requires i <= |gops|
    ensures i <= k <= |gops|
    ensures forall j :: i <= j < k ==> gops[j].packets == [] || gops[j].packets[0].start <= ts
    ensures k < |gops| ==> gops[k].packets != [] && gops[k].packets[0].start > ts
    decreases |gops| - i
  {
    if i == |gops| || (gops[i].packets != [] && gops[i].packets[0].start > ts) then i else FirstAfter(gops, ts, i + 1)
  }

  /** The video packets before ts. */
  function Seed(ps: seq<Packet>, ts: int): seq<Packet> {
    if ps == [] then [] else (if ps[0].start < ts && ps[0].video then [ps[0]] else []) + Seed(ps[1..], ts)
  }

  function Rest(ps: seq<Packet>, ts: int): seq<Packet> {
    if ps == [] then [] else (if ps[0].start < ts then [] else [ps[0]]) + Rest(ps[1..], ts)
  }

  function GetBuffer(gops: seq<Gop>, ts: int): (seq<Packet>, seq<Packet>) {
    var k := FirstAfter(gops, ts, 0);
    if k == 0 then ([], Flatten(gops)) else
    var ps := gops[k - 1].packets;
    (Seed(ps, ts), Rest(ps, ts) + Flatten(gops[k..]))
  }

  ghost predicate Monotone(ps: seq<Packet>) {
    forall i, j :: 0 <= i < j < |ps| ==> ps[i].start <= ps[j].start
  }

  function Video(ps: seq<Packet>): seq<Packet> {
    if ps == [] then [] else (if ps[0].video then [ps[0]] else []) + Video(ps[1..])
  }

  /** Where the packets at or after ts begin. */
  function Cut(ps: seq<Packet>, ts: int): (k: nat)
    ensures k <= |ps|
  {
    if ps == [] || ps[0].start >= ts then 0 else 1 + Cut(ps[1..], ts)
  }

  lemma {:induction false} CutIs(ps: seq<Packet>, ts: int)
    requires Monotone(ps)
    ensures var k := Cut(ps, ts);
            && (forall i :: 0 <= i < k ==> ps[i].start < ts) && (forall i :: k <= i < |ps| ==> ps[i].start >= ts)
            && Seed(ps, ts) == Video(ps[..k]) && Rest(ps, ts) == ps[k..]
  {
    if ps != [] {
      var rest := ps[1..];
      CutIs(rest, ts);
      if ps[0].start >= ts {
        NoneBefore(ps, ts);
        assert ps[..0] == [];
      } else {
        var k := Cut(ps, ts);
        assert ps[..k][1..] == rest[..k - 1] && ps[k..] == rest[k - 1..];
      }
    }
  }

  lemma {:induction false} NoneBefore(ps: seq<Packet>, ts: int)
    requires forall i :: 0 <= i < |ps| ==> ps[i].start >= ts
    ensures Seed(ps, ts) == [] && Rest(ps, ts) == ps
  {
    if ps != [] { NoneBefore(ps[1..], ts); }
  }

  lemma VideoStep(ps: seq<Packet>)
    ensures Video(ps) == if ps == [] then [] else (if ps[0].video then [ps[0]] else []) + Video(ps[1..])
  {
  }

  lemma {:induction false} VideoAppend(a: seq<Packet>, b: seq<Packet>)
    ensures Video(a + b) == Video(a) + Video(b)
  {
    hide Video;
    VideoStep(a);
    if a == [] {
      assert a + b == b;
    } else {
      VideoAppend(a[1..], b);
      VideoStep(a + b);
      assert (a + b)[1..] == a[1..] + b && (a + b)[0] == a[0];
      Regroup(if a[0].video then [a[0]] else [], Video(a[1..]), Video(b));
    }
  }

  lemma Regroup(a: seq<Packet>, b: seq<Packet>, c: seq<Packet>)
    ensures a + (b + c) == (a + b) + c
  {
  }

  lemma FlattenSplit(gops: seq<Gop>, g: nat)
    requires g <= |gops|
    ensures Flatten(gops) == Flatten(gops[..g]) + Flatten(gops[g..])
  {
    FlattenAppend(gops[..g], gops[g..]);
    assert gops[..g] + gops[g..] == gops;
  }

  /** All the video from group g on. */
  ghost predicate FromGroup(gops: seq<Gop>, g: nat, video: seq<Packet>) {
    g <= |gops| && video == Video(Flatten(gops[g..])) &&
      (g < |gops| ==> gops[g].packets != [] && Opens(gops[g].packets[0]))
  }

  /** Main result, for arrival times that never go back: the second part is a suffix of everything
      kept and contains every packet later than ts; the first part and the video of the second
      together are all the video from one keyframe on. */
  lemma PeerGetsTheRest(gops: seq<Gop>, ts: int)
    requires AllGrouped(gops) && Monotone(Flatten(gops))
    ensures var (seed, rest) := GetBuffer(gops, ts);
            var all := Flatten(gops);
            && |rest| <= |all| && rest == all[|all| - |rest|..]
            && (forall i :: 0 <= i < |all| - |rest| ==> all[i].start <= ts)
            && (forall p :: p in seed ==> p.start < ts)
            && exists g: nat :: FromGroup(gops, g, seed + Video(rest))
  {
    hide Flatten, Monotone, Video, Seed, Rest;
    var k := FirstAfter(gops, ts, 0);
    var all := Flatten(gops);
    if k == 0 {
      assert gops[0..] == gops && [] + Video(all) == Video(Flatten(gops[0..]));
      assert all[0..] == all;
      assert gops != [] ==> Grouped(gops[0].packets);
      assert FromGroup(gops, 0, [] + Video(all));
    } else {
      assert Grouped(gops[k - 1].packets);
      PeerGetsGroup(gops, ts, k - 1);
    }
  }

  lemma FlattenFrom(gops: seq<Gop>, g: nat)
    requires g < |gops|
    ensures Flatten(gops[g..]) == gops[g].packets + Flatten(gops[g + 1..])
  {
    assert gops[g..][1..] == gops[g + 1..];
  }

  lemma PeerGetsGroup(gops: seq<Gop>, ts: int, g: nat)
    requires Monotone(Flatten(gops)) && g < |gops| && Grouped(gops[g].packets) && gops[g].packets[0].start <= ts
    ensures var seed, rest := Seed(gops[g].packets, ts), Rest(gops[g].packets, ts) + Flatten(gops[g + 1..]);
            var all := Flatten(gops);
            && |rest| <= |all| && rest == all[|all| - |rest|..]
            && (forall i :: 0 <= i < |all| - |rest| ==> all[i].start <= ts)
            && (forall p :: p in seed ==> p.start < ts)
            && FromGroup(gops, g, seed + Video(rest))
  {
    hide Flatten, Monotone, Video, Seed, Rest, Cut;
    var before, ps, later := Flatten(gops[..g]), gops[g].packets, Flatten(gops[g + 1..]);
    FlattenSplit(gops, g);
    FlattenFrom(gops, g);
    GroupMonotone(before, ps, later);
    CutIs(ps, ts);
    var cut := Cut(ps, ts);
    var all := Flatten(gops);
    SplitAt(before, ps, later, cut);
    EarlierNotAfter(before, ps, later, ts);
    SeedBefore(ps, ts);
    assert ps == ps[..cut] + ps[cut..];
    VideoAppend(ps[..cut], ps[cut..]);
    VideoAppend(ps[cut..], later);
    VideoAppend(ps, later);
    assert Seed(ps, ts) + (Video(ps[cut..]) + Video(later)) == (Video(ps[..cut]) + Video(ps[cut..])) + Video(later);
  }

  lemma SplitAt(a: seq<Packet>, ps: seq<Packet>, b: seq<Packet>, cut: nat)
    requires cut <= |ps|
    ensures var all, rest := a + (ps + b), ps[cut..] + b;
            |rest| <= |all| && rest == all[|all| - |rest|..] && |all| - |rest| == |a| + cut &&
            forall i :: 0 <= i < |a| + cut ==> all[i] == if i < |a| then a[i] else ps[i - |a|]
  {
  }

  lemma GroupMonotone(a: seq<Packet>, ps: seq<Packet>, b: seq<Packet>)
    requires Monotone(a + (ps + b))
    ensures Monotone(ps)
  {
    var all := a + (ps + b);
    forall i, j | 0 <= i < j < |ps| ensures ps[i].start <= ps[j].start {
      assert ps[i] == all[|a| + i] && ps[j] == all[|a| + j];
    }
  }

  lemma EarlierNotAfter(a: seq<Packet>, ps: seq<Packet>, b: seq<Packet>, ts: int)
    requires Monotone(a + (ps + b)) && ps != [] && ps[0].start <= ts
    ensures forall i :: 0 <= i < |a| ==> a[i].start <= ts
  {
    var all := a + (ps + b);
    assert all[|a|] == ps[0];
    forall i | 0 <= i < |a| ensures a[i].start <= ts {
      assert a[i] == all[i];
    }
  }

  lemma {:induction false} SeedBefore(ps: seq<Packet>, ts: int)
    ensures forall p :: p in Seed(ps, ts) ==> p.start < ts && p.video
  {
    if ps != [] { SeedBefore(ps[1..], ts); }
  }

  // ----- Runs -----

  function Run(c: Config, ps: seq<Packet>): (s: State)
    ensures Counted(s)
  {
    if ps == [] then State([], 0, []) else
    AddCounted(c, Run(c, ps[..|ps| - 1]), ps[|ps| - 1]);
    AddPacket(c, Run(c, ps[..|ps| - 1]), ps[|ps| - 1]).0
  }

  /** Nothing kept arrived after the newest packet, and the kept ones are in order of arrival. */
  ghost predicate InOrder(gops: seq<Gop>, newest: int) {
    Monotone(Flatten(gops)) && forall p :: p in Flatten(gops) ==> p.start <= newest
  }

  lemma DropInOrder(s: State, newest: int)
    requires InOrder(s.gops, newest) && s.gops != []
    ensures InOrder(DropOldest(s).gops, newest)
  {
    TailMonotone(s.gops[0].packets, Flatten(s.gops[1..]));
  }

  lemma TailMonotone(a: seq<Packet>, b: seq<Packet>)
    requires Monotone(a + b)
    ensures Monotone(b) && forall p :: p in b ==> p in a + b
  {
    var all := a + b;
    forall i | 0 <= i < |b| ensures b[i] == all[|a| + i] && b[i] in all {
    }
    forall i, j | 0 <= i < j < |b| ensures b[i].start <= b[j].start {
      assert b[i] == all[|a| + i] && b[j] == all[|a| + j];
    }
  }

  lemma ShiftInOrder(s: State, newest: int)
    requires InOrder(s.gops, newest) && |s.gops| == 1 && |s.gops[0].packets| >= 2 &&
               TimeOf(s.gops[0].packets[1]) <= s.gops[0].duration
    ensures InOrder(ShiftSingle(s).gops, newest)
  {
    var ps := s.gops[0].packets;
    assert s.gops == [s.gops[0]];
    FlattenOne(s.gops[0]);
    FlattenOne(ShiftSingle(s).gops[0]);
    var qs := [ps[0]] + ps[2..];
    forall i | 0 <= i < |qs| ensures qs[i] in ps {
      assert qs[i] == ps[if i == 0 then 0 else i + 1];
    }
    forall i, j | 0 <= i < j < |qs| ensures qs[i].start <= qs[j].start {
      assert qs[i] == ps[if i == 0 then 0 else i + 1] && qs[j] == ps[j + 1];
    }
  }

  lemma {:induction false} DropWhileInOrder(s: State, cap: nat, newest: int)
    requires InOrder(s.gops, newest)
    ensures InOrder(DropWhileOver(s, cap).gops, newest)
    decreases |s.gops|
  {
    hide InOrder;
    if |s.gops| > 1 && s.duration > cap && s.duration - s.gops[0].duration >= cap {
      DropInOrder(s, newest);
      DropWhileInOrder(DropOldest(s), cap, newest);
    }
  }

  lemma {:induction false} ShiftWhileInOrder(s: State, cap: nat, newest: int)
    requires Counted(s) && InOrder(s.gops, newest)
    ensures InOrder(ShiftWhileOver(s, cap).gops, newest)
    decreases if |s.gops| == 1 then |s.gops[0].packets| else 0
  {
    hide InOrder;
    if |s.gops| == 1 && s.duration > cap && |s.gops[0].packets| >= 2 {
      ShiftCounted(s);
      ShiftInOrder(s, newest);
      ShiftWhileInOrder(ShiftSingle(s), cap, newest);
    }
  }

  /** Arrival times that do not go back leave the kept packets in order. */
  lemma AddInOrder(c: Config, s: State, p: Packet, newest: int)
    requires Counted(s) && InOrder(s.gops, newest) && newest <= p.start
    ensures InOrder(AddPacket(c, s, p).0.gops, p.start)
  {
    hide Flatten, DropWhileOver, ShiftWhileOver;
    var grouped := if Opens(p) then s.(gops := s.gops + [Gop([], 0)]) else s;
    if grouped.gops != [] {
      GroupCounted(s);
      AppendCounted(grouped, p);
      FlattenAppend(s.gops, [Gop([], 0)]);
      FlattenOne(Gop([], 0));
      assert Flatten(s.gops) + [] == Flatten(s.gops);
      AppendFlattens(grouped, p);
      var a := Append(grouped, p);
      DropWhileInOrder(a, c.hardCap, p.start);
      DropWhileCounted(a, c.hardCap);
      ShiftWhileInOrder(DropWhileOver(a, c.hardCap), c.hardCap, p.start);
      HardCapCounted(c, a);
      DropInOrder(HardCap(c, a), p.start);
    }
  }

  /** Main result over every run of packets no longer than the slack between target and cap. */
  lemma {:induction false} RunKeeps(c: Config, ps: seq<Packet>, longest: nat)
    requires Roomy(c, longest) && forall i :: 0 <= i < |ps| ==> TimeOf(ps[i]) <= longest
    ensures Inv(c, Run(c, ps), longest) && 0 <= Run(c, ps).duration < 2 * c.hardCap
    ensures ps != [] && Run(c, ps[..|ps| - 1]).duration >= c.target ==> Run(c, ps).duration >= c.target
  {
    hide AddPacket, Inv;
    if ps == [] {
      EmptyInv(c, longest);
    } else {
      RunKeeps(c, ps[..|ps| - 1], longest);
      AddKeeps(c, Run(c, ps[..|ps| - 1]), ps[|ps| - 1], longest);
    }
  }

  lemma EmptyInv(c: Config, longest: nat)
    ensures Inv(c, State([], 0, []), longest)
  {
  }

  lemma {:induction false} RunInOrder(c: Config, ps: seq<Packet>)
    requires Monotone(ps) && ps != []
    ensures InOrder(Run(c, ps).gops, ps[|ps| - 1].start)
  {
    hide AddPacket, InOrder;
    var front, p := ps[..|ps| - 1], ps[|ps| - 1];
    if front == [] {
      EmptyInOrder(p.start);
      AddInOrder(c, Run(c, front), p, p.start);
    } else {
      RunInOrder(c, front);
      AddInOrder(c, Run(c, front), p, front[|front| - 1].start);
    }
  }

  lemma EmptyInOrder(newest: int)
    ensures InOrder([], newest)
  {
  }

  /** Main result over every run of arrivals that never go back: a peer that joins with any time ts gets a
      second part that is a suffix of everything kept, with every packet later than ts, and, together
      with the first part, all the video from one keyframe on. */
  lemma RunGivesTheRest(c: Config, ps: seq<Packet>, longest: nat, ts: int)
    requires Roomy(c, longest) && Monotone(ps) && forall i :: 0 <= i < |ps| ==> TimeOf(ps[i]) <= longest
    ensures var gops := Run(c, ps).gops;
            var (seed, rest) := GetBuffer(gops, ts);
            var all := Flatten(gops);
            && |rest| <= |all| && rest == all[|all| - |rest|..]
            && (forall i :: 0 <= i < |all| - |rest| ==> all[i].start <= ts)
            && (forall p :: p in seed ==> p.start < ts)
            && exists g: nat :: FromGroup(gops, g, seed + Video(rest))
  {
    hide AddPacket, Flatten, GetBuffer, Video, FromGroup;
    RunKeeps(c, ps, longest);
    if ps == [] { EmptyInOrder(0); } else { RunInOrder(c, ps); }
    PeerGetsTheRest(Run(c, ps).gops, ts);
  }
}
