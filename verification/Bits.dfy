/** utils/bits/bits.go: bit strings read from and written to bytes, most significant bit first. */
module Bits {
  import opened Bytes
  import opened Wrappers

  type Bits = seq<bool>

  // ----- Numbers and bit strings -----

  function Pow2(n: nat): (p: nat)
    ensures p > 0
  {
    if n == 0 then 1 else 2 * Pow2(n - 1)
  }

  function Val(b: Bits): nat {
    if b == [] then 0 else 2 * Val(b[..|b| - 1]) + if b[|b| - 1] then 1 else 0
  }

  /** The low n bits of v. */
  function BitsOf(v: nat, n: nat): (b: Bits)
    ensures |b| == n
  {
    if n == 0 then [] else BitsOf(v / 2, n - 1) + [v % 2 == 1]
  }

  function AllBits(bytes: seq<byte>): (b: Bits)
    ensures |b| == 8 * |bytes|
  {
    if bytes == [] then [] else BitsOf(bytes[0] as int, 8) + AllBits(bytes[1..])
  }

  lemma {:induction false} PowAdd(a: nat, b: nat)
    ensures Pow2(a + b) == Pow2(a) * Pow2(b)
  {
    if b > 0 {
      PowAdd(a, b - 1);
      assert Pow2(a + b) == 2 * Pow2(a + b - 1);
      assert Pow2(a) * (2 * Pow2(b - 1)) == 2 * (Pow2(a) * Pow2(b - 1));
    }
  }

  lemma {:induction false} PowMonotone(a: nat, b: nat)
    requires a <= b
    ensures Pow2(a) <= Pow2(b)
    decreases b
  {
    if a < b { PowMonotone(a, b - 1); }
  }

  lemma Powers()
    ensures Pow2(4) == 16 && Pow2(5) == 32 && Pow2(6) == 64 && Pow2(8) == 256 && Pow2(24) == 0x100_0000
  {
    PowAdd(8, 8);
    PowAdd(16, 8);
  }

  lemma {:induction false} ValBound(b: Bits)
    ensures Val(b) < Pow2(|b|)
  {
    if b != [] { ValBound(b[..|b| - 1]); }
  }

  lemma {:induction false} BitsOfVal(b: Bits)
    ensures BitsOf(Val(b), |b|) == b
  {
    if b != [] {
      BitsOfVal(b[..|b| - 1]);
      assert b == b[..|b| - 1] + [b[|b| - 1]];
    }
  }

  lemma {:induction false} ValBitsOf(v: nat, n: nat)
    requires v < Pow2(n)
    ensures Val(BitsOf(v, n)) == v
  {
    if n > 0 {
      ValBitsOf(v / 2, n - 1);
      assert BitsOf(v, n)[..n - 1] == BitsOf(v / 2, n - 1);
    }
  }

  /** Putting a number behind another appends its bits. */
  lemma {:induction false} BitsOfAppend(a: nat, n: nat, v: nat, k: nat)
    requires v < Pow2(k)
    ensures BitsOf(a * Pow2(k) + v, n + k) == BitsOf(a, n) + BitsOf(v, k)
  {
    if k == 0 {
      assert a * Pow2(0) + v == a;
    } else {
      var p := a * Pow2(k - 1);
      assert a * Pow2(k) == 2 * p;
      assert (2 * p + v) / 2 == p + v / 2 && (2 * p + v) % 2 == v % 2;
      BitsOfAppend(a, n, v / 2, k - 1);
      assert BitsOf(a, n) + (BitsOf(v / 2, k - 1) + [v % 2 == 1]) ==
             (BitsOf(a, n) + BitsOf(v / 2, k - 1)) + [v % 2 == 1];
    }
  }

  // ----- Words -----

  function Shr(v: nat, k: nat): nat {
    if k == 0 then v else Shr(v / 2, k - 1)
  }

  /** The value of the low k bits of v. */
  function Low(v: nat, k: nat): (r: nat)
    ensures r < Pow2(k)
  {
    if k == 0 then 0 else 2 * Low(v / 2, k - 1) + v % 2
  }

  lemma {:induction false} LowOfSmall(v: nat, k: nat)
    requires v < Pow2(k)
    ensures Low(v, k) == v
  {
    if k > 0 { LowOfSmall(v / 2, k - 1); }
  }

  /** What a 64-bit word keeps of a number. */
  function Word(v: nat): nat {
    Low(v, 64)
  }

  lemma {:induction false} BitsOfLow(v: nat, m: nat, k: nat)
    requires k <= m
    ensures BitsOf(Low(v, m), k) == BitsOf(v, k)
    decreases k
  {
    if k > 0 { BitsOfLow(v / 2, m - 1, k - 1); }
  }

  lemma CutStep(v: nat, bit: bool, k: nat)
    requires k > 0
    ensures var w := 2 * v + if bit then 1 else 0;
            Shr(w, k) == Shr(v, k - 1) && Low(w, k) == 2 * Low(v, k - 1) + if bit then 1 else 0
  {
  }

  lemma ValStep(b: Bits, bit: bool)
    ensures Val(b + [bit]) == 2 * Val(b) + if bit then 1 else 0
  {
    assert (b + [bit])[..|b + [bit]| - 1] == b;
  }

  lemma CutNothing(b: Bits)
    ensures Shr(Val(b), 0) == Val(b[..|b|]) && Low(Val(b), 0) == Val(b[|b|..])
  {
    assert b[..|b|] == b;
  }

  /** Cutting a number is cutting its bits. */
  lemma {:induction false} ValCut(b: Bits, k: nat)
    requires k <= |b|
    ensures Shr(Val(b), k) == Val(b[..|b| - k]) && Low(Val(b), k) == Val(b[|b| - k..])
    decreases k
  {
    hide Val, Shr, Low;
    if k == 0 {
      CutNothing(b);
    } else {
      var front, bit := b[..|b| - 1], b[|b| - 1];
      var tail := front[|b| - k..];
      ValCut(front, k - 1);
      ValStep(front, bit);
      ValStep(tail, bit);
      CutStep(Val(front), bit, k);
      assert b == front + [bit] && b[|b| - k..] == tail + [bit] && front[..|b| - k] == b[..|b| - k];
    }
  }

  predicate AllZero(b: Bits) {
    forall i :: 0 <= i < |b| ==> !b[i]
  }

  lemma {:induction false} LeadingZeros(z: Bits, b: Bits)
    requires AllZero(z)
    ensures Val(z + b) == Val(b)
    decreases |z| + |b|
  {
    if b != [] {
      var front := b[..|b| - 1];
      LeadingZeros(z, front);
      assert (z + b)[..|z + b| - 1] == z + front;
    } else if z != [] {
      LeadingZeros(z[..|z| - 1], []);
      assert z + [] == z && z[..|z| - 1] + [] == z[..|z| - 1];
    } else {
      assert z + b == [];
    }
  }

  /** Leading bits may be dropped exactly when they are zero. */
  lemma DroppedLeading(z: Bits, b: Bits)
    ensures Val(z + b) == Val(b) <==> AllZero(z)
  {
    hide Val, BitsOf;
    var zero := seq(|z|, i => false);
    LeadingZeros(zero, b);
    if AllZero(z) { LeadingZeros(z, b); }
    BitsOfVal(z + b);
    BitsOfVal(zero + b);
    if Val(z + b) == Val(b) { assert z == (z + b)[..|z|] && zero == (zero + b)[..|z|]; }
  }

  // ----- Reading -----

  /** bits holds n bits taken from the bytes but not yet handed out. */
  datatype Reader = Reader(n: nat, bits: nat, rest: seq<byte>)

  /** Bytes shifted into a 64-bit word. */
  function ShiftIn(bits: nat, bytes: seq<byte>): nat {
    if bytes == [] then bits else Word(ShiftIn(bits, bytes[..|bytes| - 1]) * 256 + bytes[|bytes| - 1] as int)
  }

  /** How many bytes must be fetched to have n bits. */
  function Wanted(r: Reader, n: nat): (w: nat)
    ensures r.n + 8 * w >= n && (r.n <= 7 && n > 0 ==> 8 * w < n + 8)
  {
    if r.n < n then (n - r.n + 7) / 8 else 0
  }

  /** The next n bits, or none when the bytes run out: those left are then consumed. */
  function ReadBits(r: Reader, n: nat): (Reader, Option<nat>) {
    var want := Wanted(r, n);
    if |r.rest| < want then (r.(rest := []), None) else
    var bits, have := ShiftIn(r.bits, r.rest[..want]), r.n + 8 * want;
    var left: nat := have - n;
    (Reader(left, Low(bits, left), r.rest[want..]), Some(Shr(bits, left)))
  }

  /** The bits not yet handed out. */
  function Pending(r: Reader): Bits {
    BitsOf(r.bits, r.n) + AllBits(r.rest)
  }

  /** Between reads less than a byte is held. */
  predicate Valid(r: Reader) {
    r.n <= 7 && r.bits < Pow2(r.n)
  }

  /** How many bits a fetch pushes out of the 64-bit word. */
  function Lost(r: Reader, n: nat): nat {
    var have := r.n + 8 * Wanted(r, n);
    if have <= 64 then 0 else have - 64
  }

  lemma {:induction false} AllBitsAppend(a: seq<byte>, b: seq<byte>)
    ensures AllBits(a + b) == AllBits(a) + AllBits(b)
  {
    if a == [] {
      assert a + b == b;
    } else {
      AllBitsAppend(a[1..], b);
      assert (a + b)[1..] == a[1..] + b && (a + b)[0] == a[0];
      assert BitsOf(a[0] as int, 8) + (AllBits(a[1..]) + AllBits(b)) ==
             (BitsOf(a[0] as int, 8) + AllBits(a[1..])) + AllBits(b);
    }
  }

  lemma AllBitsOne(b: byte)
    ensures AllBits([b]) == BitsOf(b as int, 8)
  {
    assert AllBits([b][1..]) == [];
  }

  function Min64(n: nat): nat {
    if n <= 64 then n else 64
  }

  function Last64(b: Bits): Bits {
    b[|b| - Min64(|b|)..]
  }

  /** Shifting bytes in appends their bits and keeps the last 64. */
  lemma {:induction false} ShiftInAppends(bits: nat, n: nat, bytes: seq<byte>)
    requires bits < Pow2(n) && n <= 64
    ensures ShiftIn(bits, bytes) == Val(Last64(BitsOf(bits, n) + AllBits(bytes)))
  {
    hide BitsOf, AllBits, Pow2, Val, Low;
    var all := BitsOf(bits, n) + AllBits(bytes);
    if bytes == [] {
      AllBitsNone();
      ValBitsOf(bits, n);
      assert Last64(all) == BitsOf(bits, n);
    } else {
      var front, last := bytes[..|bytes| - 1], bytes[|bytes| - 1];
      var before := BitsOf(bits, n) + AllBits(front);
      var x := ShiftIn(bits, front);
      ShiftInAppends(bits, n, front);
      assert bytes == front + [last];
      AllBitsAppend(front, [last]);
      AllBitsOne(last);
      assert all == before + BitsOf(last as int, 8);
      BitsOfVal(Last64(before));
      ValBound(Last64(before));
      WordAppends(x, Min64(|before|), last);
      assert Last64(all) == Last64(Last64(before) + BitsOf(last as int, 8));
    }
  }

  lemma WordAppends(x: nat, n: nat, b: byte)
    requires n <= 64 && x < Pow2(n)
    ensures Word(x * 256 + b as int) == Val(Last64(BitsOf(x, n) + BitsOf(b as int, 8)))
  {
    hide BitsOf, Pow2, Val, Low;
    var y, all := x * 256 + b as int, BitsOf(x, n) + BitsOf(b as int, 8);
    Powers();
    BitsOfAppend(x, n, b as int, 8);
    PowAdd(n, 8);
    ValBitsOf(y, n + 8);
    if n + 8 >= 64 {
      ValCut(all, 64);
    } else {
      PowMonotone(n + 8, 64);
      LowOfSmall(y, 64);
      assert Last64(all) == all;
    }
  }

  /** The held and fetched bits, and what the word keeps of them. */
  lemma Fetched(r: Reader, n: nat)
    requires Valid(r) && n <= 64 && |r.rest| >= Wanted(r, n)
    ensures var want := Wanted(r, n);
            var held := BitsOf(r.bits, r.n) + AllBits(r.rest[..want]);
            && |held| == r.n + 8 * want && Pending(r) == held + AllBits(r.rest[want..])
            && Lost(r, n) <= n && ShiftIn(r.bits, r.rest[..want]) == Val(held[Lost(r, n)..])
  {
    hide ShiftIn, BitsOf, AllBits, Pow2, Val;
    var want := Wanted(r, n);
    var fetched, rest := r.rest[..want], r.rest[want..];
    var held := BitsOf(r.bits, r.n) + AllBits(fetched);
    assert r.rest == fetched + rest;
    AllBitsAppend(fetched, rest);
    assert Pending(r) == held + AllBits(rest);
    ShiftInAppends(r.bits, r.n, fetched);
    assert Last64(held) == held[Lost(r, n)..];
  }

  /** Main result of one read of n bits: there is no result exactly when the bytes run out; else the
      bits behind them stay, and the value is that of the next n bits exactly when no bit that is set
      was pushed out of the 64-bit word, which no read of up to 57 bits does. */
  lemma ReadIsNext(r: Reader, n: nat)
    requires Valid(r) && n <= 64
    ensures Lost(r, n) <= n && (n <= 57 ==> Lost(r, n) == 0)
    ensures ReadBits(r, n).1 == None <==> |Pending(r)| < n
    ensures n <= |Pending(r)| ==>
              && Pending(ReadBits(r, n).0) == Pending(r)[n..] && Valid(ReadBits(r, n).0)
              && (ReadBits(r, n).1 == Some(Val(Pending(r)[..n])) <==> AllZero(Pending(r)[..Lost(r, n)]))
  {
    hide ShiftIn, BitsOf, AllBits, Pow2, Val, Shr, Low, AllZero;
    var want := Wanted(r, n);
    if |r.rest| >= want { ReadValue(r, n); }
  }

  lemma Cuts(a: Bits, b: Bits, m: nat, n: nat)
    requires m <= n <= |a|
    ensures (a + b)[..n] == a[..m] + a[m..][..n - m] && (a + b)[n..] == a[n..] + b
    ensures (a + b)[..m] == a[..m] && a[m..][n - m..] == a[n..]
  {
  }

  lemma ReadValue(r: Reader, n: nat)
    requires Valid(r) && n <= 64 && |r.rest| >= Wanted(r, n)
    ensures n <= |Pending(r)| && Lost(r, n) <= n
    ensures Pending(ReadBits(r, n).0) == Pending(r)[n..] && Valid(ReadBits(r, n).0)
    ensures ReadBits(r, n).1 == Some(Val(Pending(r)[..n])) <==> AllZero(Pending(r)[..Lost(r, n)])
  {
    hide ShiftIn, BitsOf, AllBits, Pow2, Val, Shr, Low, AllZero;
    var want := Wanted(r, n);
    Fetched(r, n);
    var held := BitsOf(r.bits, r.n) + AllBits(r.rest[..want]);
    var left: nat := r.n + 8 * want - n;
    var kept := held[Lost(r, n)..];
    ValCut(kept, left);
    Cuts(held, AllBits(r.rest[want..]), Lost(r, n), n);
    BitsOfVal(held[n..]);
    ValBound(held[n..]);
    DroppedLeading(held[..Lost(r, n)], kept[..|kept| - left]);
  }

  /** Reads of the given widths, up to the first that fails. */
  function ReadAll(r: Reader, widths: seq<nat>): seq<Option<nat>>
    decreases |widths|
  {
    if widths == [] then [] else
    var (r', v) := ReadBits(r, widths[0]);
    if v == None then [v] else [v] + ReadAll(r', widths[1..])
  }

  /** Consecutive slices of the given widths, while there are bits. */
  function Slices(b: Bits, widths: seq<nat>): seq<Option<nat>>
    decreases |widths|
  {
    if widths == [] then []
    else if widths[0] > |b| then [None]
    else [Some(Val(b[..widths[0]]))] + Slices(b[widths[0]..], widths[1..])
  }

  /** Main result: reads of any widths up to 57 give the consecutive slices of the bytes' bits, most
      significant first, and fail just where the bits run out. */
  lemma {:induction false} ReadsAreSlices(r: Reader, widths: seq<nat>)
    requires Valid(r) && forall i :: 0 <= i < |widths| ==> widths[i] <= 57
    ensures ReadAll(r, widths) == Slices(Pending(r), widths)
    decreases |widths|
  {
    hide ReadBits, Pending, Val;
    if widths != [] {
      ReadIsNext(r, widths[0]);
      if widths[0] <= |Pending(r)| { ReadsAreSlices(ReadBits(r, widths[0]).0, widths[1..]); }
    }
  }

  /** A read of 58 bits with one bit held, itself set, returns 0: that bit is lost. */
  lemma WideReadLosesABit()
    ensures var r := Reader(1, 1, [0, 0, 0, 0, 0, 0, 0, 0]);
            Valid(r) && ReadBits(r, 58).1 != Some(Val(Pending(r)[..58]))
  {
    hide AllBits, Val, ShiftIn, Shr, Low;
    var r := Reader(1, 1, [0, 0, 0, 0, 0, 0, 0, 0]);
    assert Pow2(1) == 2 && BitsOf(1, 1) == [true];
    assert Pending(r)[..Lost(r, 58)][0];
    ReadIsNext(r, 58);
  }

  // ----- Writing -----

  /** The low n bits of bits are not yet in out; the word may hold older bits above them. */
  datatype Writer = Writer(n: nat, bits: nat, out: seq<byte>)

  /** Bitwise or. */
  function Or(a: nat, b: nat): nat
    decreases a + b
  {
    if a == 0 then b else if b == 0 then a
    else 2 * Or(a / 2, b / 2) + if a % 2 == 1 || b % 2 == 1 then 1 else 0
  }

  function OrAll(a: Bits, b: Bits): (r: Bits)
    requires |a| == |b|
    ensures |r| == |a|
  {
    seq(|a|, i requires 0 <= i < |a| => a[i] || b[i])
  }

  /** Shifts the buffer up and puts v into it. */
  function Put(w: Writer, v: nat, n: nat): Writer {
    w.(bits := Or(Word(w.bits * Pow2(n)), v), n := w.n + n)
  }

  /** The last 8 * n bits of a number as bytes. */
  function BytesOf(v: nat, n: nat): seq<byte> {
    if n == 0 then [] else BytesOf(v / 256, n - 1) + [v % 256]
  }

  function Padding(n: nat): (p: nat)
    ensures (n + p) % 8 == 0 && p < 8
  {
    if n % 8 == 0 then 0 else 8 - n % 8
  }

  /** The buffer moved up to a whole number of bytes. */
  function Aligned(w: Writer): nat {
    if w.n % 8 == 0 then w.bits else Word(w.bits * Pow2(8 - w.n % 8))
  }

  /** What is buffered goes out, filled up with zero bits to a whole byte. */
  function FlushBits(w: Writer): Writer {
    if w.n == 0 then w else
    w.(out := w.out + BytesOf(Aligned(w), (w.n + 7) / 8), n := 0)
  }

  /** Appends a number of n bits; when the buffer has no room for all of them, it is filled up with
      the bits of v above the lowest move ones and flushed, and the rest of v follows. */
  function WriteBits(w: Writer, v: nat, n: nat): (w': Writer)
    requires w.n <= 64 && n <= 64
    ensures w'.n <= 64
  {
    if w.n + n > 64 then
      var move := 64 - w.n;
      Put(FlushBits(Put(w, Shr(v, move), move)), Low(v, move), n - move)
    else
      Put(w, v, n)
  }

  function Written(w: Writer): Bits {
    AllBits(w.out) + BitsOf(w.bits, w.n)
  }

  lemma {:induction false} BytesOfBits(v: nat, n: nat)
    ensures AllBits(BytesOf(v, n)) == BitsOf(v, 8 * n)
  {
    hide BitsOf, AllBits, Pow2;
    if n == 0 {
      AllBitsNone();
    } else {
      Powers();
      BytesOfBits(v / 256, n - 1);
      AllBitsAppend(BytesOf(v / 256, n - 1), [v % 256]);
      AllBitsOne(v % 256);
      BitsOfAppend(v / 256, 8 * (n - 1), v % 256, 8);
      assert v / 256 * 256 + v % 256 == v;
    }
  }

  lemma AllBitsNone()
    ensures AllBits([]) == [] && BitsOf(0, 0) == []
  {
  }

  lemma AlignedBits(w: Writer)
    requires w.n <= 64
    ensures BitsOf(Aligned(w), w.n + Padding(w.n)) == BitsOf(w.bits, w.n) + BitsOf(0, Padding(w.n))
  {
    hide BitsOf, AllBits, Pow2, Low;
    var pad := Padding(w.n);
    if pad == 0 {
      AllBitsNone();
    } else {
      PowPositive(pad);
      BitsOfAppend(w.bits, w.n, 0, pad);
      BitsOfLow(w.bits * Pow2(pad), 64, w.n + pad);
    }
  }

  /** Main result of a flush: everything written is in the bytes, filled up with zero bits. */
  lemma FlushAppends(w: Writer)
    requires w.n <= 64
    ensures FlushBits(w).n == 0 && AllBits(FlushBits(w).out) == Written(w) + BitsOf(0, Padding(w.n))
  {
    hide BitsOf, AllBits, Pow2, BytesOf, Aligned;
    var pad := Padding(w.n);
    AllBitsNone();
    if w.n > 0 {
      var n := (w.n + 7) / 8;
      assert 8 * n == w.n + pad;
      AlignedBits(w);
      BytesOfBits(Aligned(w), n);
      AllBitsAppend(w.out, BytesOf(Aligned(w), n));
      assert AllBits(w.out) + (BitsOf(w.bits, w.n) + BitsOf(0, pad)) == Written(w) + BitsOf(0, pad);
    } else {
      NoBits(w.bits);
    }
  }

  lemma NoBits(v: nat)
    ensures BitsOf(v, 0) == []
  {
  }

  lemma {:induction false} OrStep(a: nat, b: nat)
    ensures Or(a, b) / 2 == Or(a / 2, b / 2) && (Or(a, b) % 2 == 1 <==> a % 2 == 1 || b % 2 == 1)
  {
  }

  lemma {:induction false} BitsOfOr(a: nat, b: nat, n: nat)
    ensures BitsOf(Or(a, b), n) == OrAll(BitsOf(a, n), BitsOf(b, n))
    decreases n
  {
    hide Or;
    if n > 0 {
      OrStep(a, b);
      BitsOfOr(a / 2, b / 2, n - 1);
    }
  }

  lemma {:induction false} BitsOfZero(n: nat)
    ensures AllZero(BitsOf(0, n))
  {
    if n > 0 { BitsOfZero(n - 1); }
  }

  lemma {:induction false} BitsOfShr(v: nat, m: nat, k: nat)
    ensures BitsOf(Shr(v, m), k) + BitsOf(v, m) == BitsOf(v, k + m)
    decreases m
  {
    if m > 0 {
      BitsOfShr(v / 2, m - 1, k);
      assert BitsOf(Shr(v, m), k) + (BitsOf(v / 2, m - 1) + [v % 2 == 1]) ==
             (BitsOf(Shr(v, m), k) + BitsOf(v / 2, m - 1)) + [v % 2 == 1];
    }
  }

  /** What one shift-and-or writes: the low n bits of v, and its bits above them over those buffered. */
  lemma PutBits(w: Writer, v: nat, n: nat)
    requires w.n + n <= 64
    ensures Written(Put(w, v, n)) == AllBits(w.out) + OrAll(BitsOf(w.bits, w.n), BitsOf(Shr(v, n), w.n)) + BitsOf(v, n)
  {
    hide BitsOf, AllBits, Pow2, Or, Shr, Low;
    var k := w.n;
    var held := BitsOf(w.bits, k);
    PowPositive(n);
    BitsOfAppend(w.bits, k, 0, n);
    BitsOfLow(w.bits * Pow2(n), 64, k + n);
    BitsOfZero(n);
    BitsOfShr(v, n, k);
    BitsOfOr(Word(w.bits * Pow2(n)), v, k + n);
    assert OrAll(held + BitsOf(0, n), BitsOf(Shr(v, n), k) + BitsOf(v, n)) ==
           OrAll(held, BitsOf(Shr(v, n), k)) + BitsOf(v, n);
    assert AllBits(w.out) + (OrAll(held, BitsOf(Shr(v, n), k)) + BitsOf(v, n)) ==
           AllBits(w.out) + OrAll(held, BitsOf(Shr(v, n), k)) + BitsOf(v, n);
  }

  lemma PowPositive(n: nat)
    ensures 0 < Pow2(n)
  {
  }

  lemma {:induction false} ShrBelow(v: nat, m: nat, k: nat)
    requires v < Pow2(m + k)
    ensures Shr(v, m) < Pow2(k)
    decreases m
  {
    if m > 0 { ShrBelow(v / 2, m - 1, k); }
  }

  predicate Appends(w: Writer, v: nat, n: nat)
    requires w.n <= 64 && n <= 64
  {
    Written(WriteBits(w, v, n)) == Written(w) + BitsOf(v, n)
  }

  /** Main result of a write the buffer has room for: the low n bits of v follow all those written
      before exactly when every higher bit of v meets a set bit of the buffer; so always when v has no
      higher bits. */
  lemma WriteAppends(w: Writer, v: nat, n: nat)
    requires w.n + n <= 64
    ensures Appends(w, v, n) <==> OrAll(BitsOf(w.bits, w.n), BitsOf(Shr(v, n), w.n)) == BitsOf(w.bits, w.n)
    ensures v < Pow2(n) ==> Appends(w, v, n)
  {
    hide BitsOf, AllBits, Pow2, Or, Shr, Low;
    PutBits(w, v, n);
    var a, held, or, last := AllBits(w.out), BitsOf(w.bits, w.n), OrAll(BitsOf(w.bits, w.n), BitsOf(Shr(v, n), w.n)),
      BitsOf(v, n);
    Middle(a, held, or, last);
    if v < Pow2(n) {
      ShrBelow(v, n, 0);
      PowNone();
      BitsOfZero(w.n);
      assert or == held;
    }
  }

  /** Written with one bit held, 0, the low bit of 2 comes out behind a 1: the operand is not masked. */
  lemma WideValueSpills()
    ensures !Appends(Writer(1, 0, []), 2, 1)
  {
    hide AllBits;
    WriteAppends(Writer(1, 0, []), 2, 1);
    assert Pow2(1) == 2;
    assert BitsOf(0, 1) == [false] && BitsOf(Shr(2, 1), 1) == [true];
    assert OrAll([false], [true])[0];
  }

  lemma PowNone()
    ensures Pow2(0) == 1
  {
  }

  lemma Middle(a: Bits, b: Bits, c: Bits, d: Bits)
    requires |b| == |c|
    ensures a + c + d == (a + b) + d <==> b == c
  {
    if a + c + d == a + b + d {
      assert b == (a + b + d)[|a|..|a| + |b|] && c == (a + c + d)[|a|..|a| + |b|];
    }
  }

  /** What a write without enough room writes. */
  lemma SplitWrites(w: Writer, v: nat, n: nat)
    requires w.n <= 64 && n <= 64 && w.n + n > 64 && v < Pow2(n)
    ensures var m := 64 - w.n;
            Written(WriteBits(w, v, n))
              == AllBits(w.out) + OrAll(BitsOf(w.bits, w.n), BitsOf(Shr(Shr(v, m), m), w.n)) + BitsOf(Shr(v, m), m) +
                BitsOf(Low(v, m), n - m)
  {
    hide BitsOf, AllBits, Pow2, Or, Shr, Low, BytesOf;
    var m := 64 - w.n;
    var full := Put(w, Shr(v, m), m);
    var empty := FlushBits(full);
    PutBits(w, Shr(v, m), m);
    FlushAppends(full);
    PutBits(empty, Low(v, m), n - m);
    AllBitsNone();
    assert AllBits(empty.out) == Written(full) + [] == Written(full);
    assert OrAll(BitsOf(empty.bits, 0), BitsOf(Shr(Low(v, m), n - m), 0)) == [];
    assert Written(full) + [] + BitsOf(Low(v, m), n - m) == Written(full) + BitsOf(Low(v, m), n - m);
  }

  lemma {:induction false} Ones(n: nat)
    ensures BitsOf(Pow2(n) - 1, n) == seq(n, i => true)
  {
    if n > 0 {
      Ones(n - 1);
      assert (Pow2(n) - 1) / 2 == Pow2(n - 1) - 1;
    }
  }

  lemma TopBitClear(v: nat, n: nat)
    requires n > 0 && v < Pow2(n - 1)
    ensures !BitsOf(v, n)[0]
  {
    BitsOfAppend(0, 1, v, n - 1);
    BitsOfZero(1);
    assert BitsOf(0, 1)[0] == false;
  }

  /** Main result of a write that does not fit: it appends every value of n bits exactly when half of
      them fit. */
  lemma SplitAppendsIff(k: nat, n: nat)
    requires k <= 64 && n <= 64 && k + n > 64
    ensures (forall w: Writer, v: nat :: w.n == k && v < Pow2(n) ==> Appends(w, v, n)) <==> n == 2 * (64 - k)
  {
    hide Appends, Pow2;
    if n == 2 * (64 - k) {
      forall w: Writer, v: nat | w.n == k && v < Pow2(n) ensures Appends(w, v, n) { HalfAppends(w, v, n); }
    } else {
      OnesLost(k, n);
    }
  }

  lemma HalfAppends(w: Writer, v: nat, n: nat)
    requires w.n <= 64 && n <= 64 && n == 2 * (64 - w.n) && n > 64 - w.n && v < Pow2(n)
    ensures Appends(w, v, n)
  {
    hide BitsOf, AllBits, Pow2, Or, Shr, Low, WriteBits;
    var m := 64 - w.n;
    SplitWrites(w, v, n);
    ShrBelow(v, m, m);
    ShrBelow(Shr(v, m), m, 0);
    PowNone();
    BitsOfZero(w.n);
    assert OrAll(BitsOf(w.bits, w.n), BitsOf(0, w.n)) == BitsOf(w.bits, w.n);
    BitsOfLow(v, m, m);
    BitsOfShr(v, m, m);
    assert Written(w) + BitsOf(Shr(v, m), m) + BitsOf(v, m) == Written(w) + (BitsOf(Shr(v, m), m) + BitsOf(v, m));
  }

  /** A number of n ones shows it: a zero is written before the ones that fill the buffer up, or before
      those that follow. */
  lemma OnesLost(k: nat, n: nat)
    requires k <= 64 && n <= 64 && k + n > 64 && n != 2 * (64 - k)
    ensures exists w: Writer, v: nat :: w.n == k && v < Pow2(n) && !Appends(w, v, n)
  {
    hide BitsOf, AllBits, Pow2, Or, Shr, Low, WriteBits;
    var m := 64 - k;
    PowPositive(n);
    var w, v: nat := Writer(k, 0, []), Pow2(n) - 1;
    SplitWrites(w, v, n);
    Ones(n);
    AllBitsNone();
    var first := OrAll(BitsOf(w.bits, w.n), BitsOf(Shr(Shr(v, m), m), w.n));
    var filled, rest := BitsOf(Shr(v, m), m), BitsOf(Low(v, m), n - m);
    if n < 2 * m {
      ShrBelow(v, m, n - m);
      PowMonotone(n - m, m - 1);
      TopBitClear(Shr(v, m), m);
      assert (first + filled + rest)[k] == filled[0];
      assert (Written(w) + BitsOf(v, n))[k] == BitsOf(v, n)[0];
    } else {
      PowMonotone(m, n - m - 1);
      TopBitClear(Low(v, m), n - m);
      assert (first + filled + rest)[k + m] == rest[0];
      assert (Written(w) + BitsOf(v, n))[k + m] == BitsOf(v, n)[m];
    }
    assert !Appends(w, v, n);
  }
}
