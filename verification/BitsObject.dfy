/** utils/bits/bits.go as it runs: the reader and the writer update their buffer in place. */
module BitsObject {
  import opened Bytes
  import B = Bits
  import opened Wrappers

  class BitReader {
    var n: nat
    var bits: nat
    var rest: seq<byte>

    constructor (data: seq<byte>)
      ensures View() == B.Reader(0, 0, data)
    {
      n, bits, rest := 0, 0, data;
    }

    function View(): B.Reader
      reads this
    {
      B.Reader(n, bits, rest)
    }

    method ReadBits64(width: nat) returns (value: Option<nat>)
      requires width <= 64
      modifies this
      ensures (View(), value) == B.ReadBits(old(View()), width)
    {
      hide B.Word, B.Shr, B.Low;
      ghost var before := View();
      if n < width {
        var want := (width - n + 7) / 8;
        if |rest| < want {
          rest := [];
          return None;
        }
        var got := rest[..want];
        rest := rest[want..];
        var i := 0;
        while i < want
          invariant 0 <= i <= want && n == before.n && rest == before.rest[want..]
          invariant bits == B.ShiftIn(before.bits, got[..i])
        {
          assert got[..i + 1][..i] == got[..i];
          bits := B.Word(bits * 256 + got[i] as int);
          i := i + 1;
        }
        assert got[..want] == got;
        n := n + want * 8;
      } else {
        assert before.rest[..0] == [] && before.rest[0..] == before.rest;
      }
      value := Some(B.Shr(bits, n - width));
      bits := B.Low(bits, n - width);
      n := n - width;
    }
  }

  class BitWriter {
    var n: nat
    var bits: nat
    var out: seq<byte>

    constructor ()
      ensures View() == B.Writer(0, 0, [])
    {
      n, bits, out := 0, 0, [];
    }

    function View(): B.Writer
      reads this
    {
      B.Writer(n, bits, out)
    }

    method FlushBits()
      requires n <= 64
      modifies this
      ensures View() == B.FlushBits(old(View()))
    {
      hide B.Word, B.Shr, B.Low;
      if n > 0 {
        var b := new byte[8];
        var word := bits;
        if n % 8 != 0 { word := B.Word(word * B.Pow2(8 - n % 8)); }
        var want := (n + 7) / 8;
        for i := 0 to want
          invariant n == old(n) && bits == old(bits) && out == old(out)
          invariant forall j :: 0 <= j < i ==> b[j] == B.Shr(word, (want - j - 1) * 8) % 256
        {
          b[i] := B.Shr(word, (want - i - 1) * 8) % 256;
        }
        ByteOf(word, want, b[..want]);
        out := out + b[..want];
        n := 0;
      }
    }

    method WriteBits64(v: nat, width: nat)
      requires n <= 64 && width <= 64
      modifies this
      ensures View() == B.WriteBits(old(View()), v, width) && n <= 64
    {
      hide B.Word, B.Shr, B.Low, B.Or, B.BytesOf;
      var rest, left := v, width;
      if n + width > 64 {
        var move := 64 - n;
        var mask := B.Shr(v, move);
        bits := B.Or(B.Word(bits * B.Pow2(move)), mask);
        n := 64;
        FlushBits();
        left := left - move;
        rest := B.Low(v, move);
      }
      bits := B.Or(B.Word(bits * B.Pow2(left)), rest);
      n := n + left;
    }
  }

  lemma {:induction false} ShrShr(v: nat, a: nat, b: nat)
    ensures B.Shr(v, a + b) == B.Shr(B.Shr(v, a), b)
    decreases a
  {
    if a > 0 { ShrShr(v / 2, a - 1, b); }
  }

  lemma ShrFour(v: nat)
    ensures B.Shr(v, 4) == v / 16
  {
    ShrShr(v, 2, 2);
    ShrShr(v, 1, 1);
    ShrShr(v / 4, 1, 1);
    assert B.Shr(v, 1) == v / 2 && B.Shr(v / 2, 1) == v / 4 && B.Shr(v / 4, 1) == v / 8 && B.Shr(v / 8, 1) == v / 16;
  }

  lemma ShrByte(v: nat)
    ensures B.Shr(v, 8) == v / 256
  {
    ShrFour(v);
    ShrFour(v / 16);
    ShrShr(v, 4, 4);
  }

  /** Shifting a number down byte by byte gives its bytes. */
  lemma {:induction false} ByteOf(v: nat, n: nat, s: seq<byte>)
    requires |s| == n && forall j :: 0 <= j < n ==> s[j] == B.Shr(v, (n - j - 1) * 8) % 256
    ensures s == B.BytesOf(v, n)
    decreases n
  {
    if n > 0 {
      ShrByte(v);
      var front := s[..n - 1];
      forall j | 0 <= j < n - 1 ensures front[j] == B.Shr(v / 256, (n - 1 - j - 1) * 8) % 256 {
        ShrShr(v, 8, (n - 1 - j - 1) * 8);
      }
      ByteOf(v / 256, n - 1, front);
    }
  }
}
