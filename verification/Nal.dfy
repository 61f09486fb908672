/** utils/nal/nal.go: splitting a byte string into NAL units. */
module Nal {
  import opened Bytes

  type Nalu = seq<byte>

  datatype Framing = Raw | Avcc | AnnexB

  const MIN_NALU_SIZE: nat := 4

  function Prefixed(nalu: Nalu): seq<byte> {
    U32(|nalu|) + nalu
  }

  /** NAL units one after the other, each behind its 32-bit length. */
  function Join(nalus: seq<Nalu>): seq<byte> {
    if nalus == [] then [] else Prefixed(nalus[0]) + Join(nalus[1..])
  }

  /** The length-prefixed reading of b, the bytes after a prefix that said v: the units found and
      the bytes left at the end. A unit cut short is kept. */
  function AvccFrom(v: nat, b: seq<byte>): (seq<Nalu>, seq<byte>)
    decreases |b|
  {
    if v > |b| then (if |b| > 0 then [b] else [], b) else
    var head, rest := if v > 0 then [b[..v]] else [], b[v..];
    if |rest| < MIN_NALU_SIZE then (head, rest) else
    var (tail, left) := AvccFrom(Get32(rest, 0), rest[4..]);
    (head + tail, left)
  }

  /** Length of the start code at pos, 0 when there is none. */
  function StartCode(b: seq<byte>, pos: nat): (n: nat)
    ensures n > 0 ==> pos + n <= |b|
  {
    if pos + 2 >= |b| || b[pos] != 0 then 0
    else if Get24(b, pos) == 1 then 3
    else if Get24(b, pos) == 0 && pos + 3 < |b| && b[pos + 3] == 1 then 4
    else 0
  }

  /** The next position from pos on that holds a start code, or the end. */
  function NextCode(b: seq<byte>, pos: nat): (p: nat)
    requires pos <= |b|
    ensures pos <= p <= |b| && (p < |b| ==> StartCode(b, p) > 0)
    decreases |b| - pos
  {
    if pos == |b| || StartCode(b, pos) > 0 then pos else NextCode(b, pos + 1)
  }

  /** The non-empty stretches between start codes, from start on. */
  function Stretches(b: seq<byte>, start: nat): seq<Nalu>
    requires start <= |b|
    decreases |b| - start
  {
    if start == |b| then [] else
    var p := NextCode(b, start);
    var here := if p != start then [b[start..p]] else [];
    if p == |b| then here else here + Stretches(b, p + StartCode(b, p))
  }

  function Split(b: seq<byte>): (seq<Nalu>, Framing) {
    if |b| < MIN_NALU_SIZE then ([b], Raw) else
    var v := Get32(b, 0);
    var (nalus, left) := if v <= |b| then AvccFrom(v, b[4..]) else ([], [0]);
    if left == [] || nalus != [] then (nalus, Avcc)
    else if Get24(b, 0) == 1 || v == 1 then
      assert StartCode(b, 0) > 0;
      (Stretches(b, StartCode(b, 0)), AnnexB)
    else ([b], Raw)
  }

  /** The units a 32-bit length can count. */
  predicate Countable(nalus: seq<Nalu>) {
    forall i :: 0 <= i < |nalus| ==> |nalus[i]| < 0x1_0000_0000
  }

  /** The units that are not empty. */
  function Dense(nalus: seq<Nalu>): seq<Nalu> {
    if nalus == [] then [] else (if nalus[0] == [] then [] else [nalus[0]]) + Dense(nalus[1..])
  }

  lemma {:induction false} DenseSame(nalus: seq<Nalu>)
    requires forall k :: 0 <= k < |nalus| ==> nalus[k] != []
    ensures Dense(nalus) == nalus
  {
    if nalus != [] { DenseSame(nalus[1..]); }
  }

  lemma JoinNotEmpty(nalus: seq<Nalu>)
    requires nalus != []
    ensures Join(nalus) != []
  {
  }

  lemma {:induction false} JoinAppend(a: seq<Nalu>, b: seq<Nalu>)
    ensures Join(a + b) == Join(a) + Join(b)
  {
    if a == [] {
      assert a + b == b;
    } else {
      JoinAppend(a[1..], b);
      assert (a + b)[1..] == a[1..] + b && (a + b)[0] == a[0];
      assert Join(a + b) == Prefixed(a[0]) + (Join(a[1..]) + Join(b));
    }
  }

  lemma JoinOne(nalu: Nalu)
    ensures Join([nalu]) == Prefixed(nalu)
  {
    assert Join([nalu][1..]) == [];
  }

  /** One turn of the loop, for the units found before it. */
  lemma AvccStep(v: nat, b: seq<byte>, before: seq<Nalu>)
    requires v <= |b|
    ensures var nalus, rest := before + (if v > 0 then [b[..v]] else []), b[v..];
            if |rest| < MIN_NALU_SIZE then before + AvccFrom(v, b).0 == nalus && AvccFrom(v, b).1 == rest
            else before + AvccFrom(v, b).0 == nalus + AvccFrom(Get32(rest, 0), rest[4..]).0 &&
                 AvccFrom(v, b).1 == AvccFrom(Get32(rest, 0), rest[4..]).1
  {
    hide Get32;
    var head, rest := if v > 0 then [b[..v]] else [], b[v..];
    if |rest| >= MIN_NALU_SIZE {
      var tail := AvccFrom(Get32(rest, 0), rest[4..]).0;
      assert AvccFrom(v, b).0 == head + tail;
      assert before + (head + tail) == (before + head) + tail;
    }
  }

  lemma {:induction false} AvccFromJoin(n: Nalu, nalus: seq<Nalu>)
    requires Countable(nalus)
    ensures AvccFrom(|n|, n + Join(nalus)) == (Dense([n] + nalus), [])
    decreases |nalus|
  {
    hide U32, Get32, AvccFrom;
    var b := n + Join(nalus);
    assert b[..|n|] == n && b[|n|..] == Join(nalus);
    AvccStep(|n|, b, []);
    var found: seq<Nalu> := AvccFrom(|n|, b).0;
    assert [] + found == found;
    var all := [n] + nalus;
    assert all[1..] == nalus && all[0] == n;
    assert Dense(all) == (if n == [] then [] else [n]) + Dense(nalus);
    if nalus != [] {
      var m, rest := nalus[0], nalus[1..];
      AvccFromJoin(m, rest);
      assert Join(nalus) == U32(|m|) + (m + Join(rest));
      assert Join(nalus)[..4] == U32(|m|) && Join(nalus)[4..] == m + Join(rest);
      Get32U32(Join(nalus), 0, |m|);
      assert [m] + rest == nalus;
      assert found == Dense(all);
    } else {
      assert Dense(nalus) == [];
      assert found == Dense(all);
    }
  }

  /** Main result: joining units and splitting the result gives the units back, in order, only
      the empty ones left out. */
  lemma SplitJoin(nalus: seq<Nalu>)
    requires nalus != [] && Countable(nalus)
    ensures Split(Join(nalus)) == (Dense(nalus), Avcc)
  {
    hide U32, Get32, Get24, Stretches;
    var b, n, rest := Join(nalus), nalus[0], nalus[1..];
    assert b == U32(|n|) + (n + Join(rest));
    assert b[..4] == U32(|n|) && b[4..] == n + Join(rest);
    Get32U32(b, 0, |n|);
    AvccFromJoin(n, rest);
    assert [n] + rest == nalus;
  }

  /** A unit whose first bytes, read as a length, exceed it, and that does not begin with a start
      code, is taken whole. */
  lemma SplitWhole(b: seq<byte>)
    requires |b| >= 4 ==> Get32(b, 0) > |b| && Get32(b, 0) != 1 && Get24(b, 0) != 1
    ensures Split(b) == ([b], Raw)
  {
  }

  lemma CodeAtStart(b: seq<byte>)
    requires |b| >= 4 && (Get24(b, 0) == 1 || Get32(b, 0) == 1)
    ensures StartCode(b, 0) > 0
  {
  }

  /** SplitNALUs with its loops. */
  method SplitNALUs(b: seq<byte>) returns (nalus: seq<Nalu>, typ: Framing)
    ensures (nalus, typ) == Split(b)
  {
    hide Get32, Get24, StartCode, Stretches, AvccFrom;
    nalus := [];
    if |b| < MIN_NALU_SIZE { return [b], Raw; }
    var val4 := Get32(b, 0);
    if val4 <= |b| {
      var left;
      nalus, left := ReadAvcc(val4, b[4..]);
      if left == [] || nalus != [] { return nalus, Avcc; }
    }
    if Get24(b, 0) == 1 || val4 == 1 {
      CodeAtStart(b);
      nalus := ParseAnnexB(b);
      return nalus, AnnexB;
    }
    return [b], Raw;
  }

  lemma AvccEnd(v: nat, b: seq<byte>)
    requires v > |b|
    ensures AvccFrom(v, b) == (if |b| > 0 then [b] else [], b)
  {
  }

  method ReadAvcc(val4: nat, b: seq<byte>) returns (nalus: seq<Nalu>, left: seq<byte>)
    ensures (nalus, left) == AvccFrom(val4, b)
  {
    hide Get32, AvccFrom;
    nalus := [];
    left := b;
    var v: nat := val4;
    while true
      invariant AvccFrom(val4, b).0 == nalus + AvccFrom(v, left).0
      invariant AvccFrom(val4, b).1 == AvccFrom(v, left).1
      decreases |left|
    {
      if v > |left| {
        AvccEnd(v, left);
        if |left| > 0 { nalus := nalus + [left]; }
        break;
      }
      AvccStep(v, left, nalus);
      assert nalus + [] == nalus;
      if v > 0 { nalus := nalus + [left[..v]]; }
      left := left[v..];
      if |left| < MIN_NALU_SIZE { break; }
      v, left := Get32(left, 0), left[4..];
    }
  }

  method ParseAnnexB(b: seq<byte>) returns (nalus: seq<Nalu>)
    requires StartCode(b, 0) > 0
    ensures nalus == Stretches(b, StartCode(b, 0))
  {
    hide StartCode;
    nalus := [];
    var start := StartCode(b, 0);
    while start < |b|
      invariant start <= |b|
      invariant Stretches(b, StartCode(b, 0)) == nalus + Stretches(b, start)
    {
      ghost var before, here := nalus, Stretches(b, start);
      var pos := start;
      while pos < |b| && StartCode(b, pos) == 0
        invariant start <= pos <= |b| && NextCode(b, pos) == NextCode(b, start)
      {
        pos := pos + 1;
      }
      assert pos == NextCode(b, start);
      ghost var found := if start != pos then [b[start..pos]] else [];
      if start != pos { nalus := nalus + [b[start..pos]]; }
      ghost var rest := if pos < |b| then Stretches(b, pos + StartCode(b, pos)) else [];
      assert before + (found + rest) == nalus + rest;
      start := if pos < |b| then pos + StartCode(b, pos) else pos;
    }
  }
}
