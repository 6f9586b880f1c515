/** Bytes, machine words and little-endian layout, shared by the code patcher, the
    RIFF reader and the symbol tables. */
module Bytes {

  const TWO32: nat := 0x1_0000_0000
  const TWO64: nat := 0x1_0000_0000_0000_0000

  type Byte = b: int | 0 <= b < 0x100
  type Word = w: int | 0 <= w < TWO64

  function Pow256(n: nat): (p: nat)
    ensures p > 0
  {
    if n == 0 then 1 else 256 * Pow256(n - 1)
  }

  /** The `n` low bytes of `v`, least significant first. */
  function ToLE(v: nat, n: nat): (bs: seq<Byte>)
    ensures |bs| == n
  {
    if n == 0 then [] else [v % 256] + ToLE(v / 256, n - 1)
  }

  function FromLE(bs: seq<Byte>): nat {
    if |bs| == 0 then 0 else bs[0] + 256 * FromLE(bs[1..])
  }

  /** The 64-bit word held by eight bytes. */
  function Word64(bs: seq<Byte>): Word
    requires |bs| == 8
  {
    ToFromLE(bs);
    Pow256Values();
    FromLE(bs)
  }

  lemma Word64OfLE(w: Word)
    ensures Word64(ToLE(w, 8)) == w
  {
    Pow256Values();
    FromToLE(w, 8);
  }

  lemma Pow256Values()
    ensures Pow256(1) == 0x100 && Pow256(2) == 0x1_0000
    ensures Pow256(4) == TWO32 && Pow256(8) == TWO64
  {
    assert Pow256(2) == 256 * Pow256(1);
    assert Pow256(3) == 256 * Pow256(2);
    assert Pow256(4) == 256 * Pow256(3);
    assert Pow256(5) == 256 * Pow256(4);
    assert Pow256(6) == 256 * Pow256(5);
    assert Pow256(7) == 256 * Pow256(6);
    assert Pow256(8) == 256 * Pow256(7);
  }

  /** Writing a value that fits and reading it back gives the value. */
  lemma {:induction false} FromToLE(v: nat, n: nat)
    requires v < Pow256(n)
    ensures FromLE(ToLE(v, n)) == v
  {
    if n > 0 {
      FromToLE(v / 256, n - 1);
      assert ToLE(v, n)[1..] == ToLE(v / 256, n - 1);
    }
  }

  lemma Digits(v: nat, rest: nat)
    ensures (v + 256 * rest) % 256 == v % 256 && (v + 256 * rest) / 256 == v / 256 + rest
  {
  }

  /** Reading bytes and writing the value back gives the bytes. */
  lemma {:induction false} ToFromLE(bs: seq<Byte>)
    ensures FromLE(bs) < Pow256(|bs|)
    ensures ToLE(FromLE(bs), |bs|) == bs
  {
    if |bs| > 0 {
      ToFromLE(bs[1..]);
      var rest := FromLE(bs[1..]);
      Digits(bs[0], rest);
      assert bs == [bs[0]] + bs[1..];
    }
  }

  /** What is left of `v` above its `n` low bytes. */
  function High(v: nat, n: nat): nat {
    if n == 0 then v else High(v / 256, n - 1)
  }

  /** A layout of `a + b` bytes is the low `a` bytes followed by the high `b` bytes. */
  lemma {:induction false} SplitLE(v: nat, a: nat, b: nat)
    ensures ToLE(v, a + b) == ToLE(v, a) + ToLE(High(v, a), b)
  {
    if a > 0 {
      var lo, hi := ToLE(v / 256, a - 1), ToLE(High(v, a), b);
      SplitLE(v / 256, a - 1, b);
      assert [v % 256] + (lo + hi) == ([v % 256] + lo) + hi;
      assert (a - 1) + b == (a + b) - 1;
    }
  }

  lemma HighDword(v: nat)
    ensures High(v, 4) == v / TWO32
  {
    assert High(v, 4) == High(v / 256, 3);
    assert High(v / 256, 3) == High(v / 256 / 256, 2);
    assert High(v / 256 / 256, 2) == High(v / 256 / 256 / 256, 1);
  }

  /** Only the value modulo 256^n reaches an `n`-byte layout. */
  lemma {:induction false} LowBytes(v: nat, k: nat, n: nat)
    ensures ToLE(v + k * Pow256(n), n) == ToLE(v, n)
  {
    if n > 0 {
      var p := Pow256(n - 1);
      Regroup(k, p);
      Digits(v, k * p);
      LowBytes(v / 256, k, n - 1);
    }
  }

  lemma Regroup(k: nat, p: nat)
    ensures k * (256 * p) == 256 * (k * p) && k * p >= 0
  {
  }

  /** The number that four bytes hold, written out. */
  function Num(a: Byte, b: Byte, c: Byte, d: Byte): nat {
    var a': nat, b': nat, c': nat, d': nat := a, b, c, d;
    a' + 0x100 * b' + 0x1_0000 * c' + 0x100_0000 * d'
  }

  lemma NumOf(b: seq<Byte>)
    ensures |b| == 2 ==> FromLE(b) == Num(b[0], b[1], 0, 0)
    ensures |b| == 4 ==> FromLE(b) == Num(b[0], b[1], b[2], b[3])
  {
    if |b| == 2 {
      assert FromLE(b[1..]) == b[1] + 256 * FromLE(b[1..][1..]);
    } else if |b| == 4 {
      assert b[1..][1..] == b[2..] && b[2..][1..] == b[3..];
      assert FromLE(b[3..]) == b[3] + 256 * FromLE(b[3..][1..]);
      assert FromLE(b[2..]) == b[2] + 256 * FromLE(b[3..]);
      assert FromLE(b[1..]) == b[1] + 256 * FromLE(b[2..]);
    }
  }
}
