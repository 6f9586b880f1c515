/** `get_hook_space` of src/hook.c: how many bytes of a function's entry can be moved away. */
module HookSpace {
  import opened Bytes
  import opened Decoder

  const SAFE: nat := 13

  function Sum(lens: seq<nat>): nat {
    if lens == [] then 0 else lens[0] + Sum(lens[1..])
  }

  lemma {:induction false} SumAppend(lens: seq<nat>, n: nat)
    ensures Sum(lens + [n]) == Sum(lens) + n
  {
    if lens == [] {
      assert (lens + [n])[1..] == [];
    } else {
      SumAppend(lens[1..], n);
      assert (lens + [n])[1..] == lens[1..] + [n];
    }
  }

  /** What measuring yields at each offset. */
  type Measure = nat -> Outcome

  /** Measuring code at an offset, which may lie past the readable bytes. */
  function At(code: seq<Byte>): Measure {
    (off: nat) => if off <= |code| then Decode(code[off..]) else OffEnd
  }

  ghost predicate Positive(m: Measure) {
    forall off: nat :: m(off).Length? ==> m(off).n > 0
  }

  lemma AtPositive(code: seq<Byte>)
    ensures Positive(At(code))
  {
  }

  /** The bytes from offset `off` on. */
  function From(code: seq<Byte>, off: nat): seq<Byte> {
    if off <= |code| then code[off..] else []
  }

  lemma AtDecodes(code: seq<Byte>, off: nat)
    ensures Decode(From(code, off)) == At(code)(off)
  {
  }

  /** `lens` are the lengths of consecutive instructions from offset `off` on. */
  predicate Tiles(m: Measure, off: nat, lens: seq<nat>)
    decreases |lens|
  {
    lens == [] || (m(off) == Length(lens[0]) && Tiles(m, off + lens[0], lens[1..]))
  }

  /** Offset `d` lies between two instructions (or at the start) of the code. */
  ghost predicate Boundary(m: Measure, d: nat) {
    exists lens: seq<nat> :: Tiles(m, 0, lens) && Sum(lens) == d
  }

  lemma {:induction false} TilesAppend(m: Measure, off: nat, lens: seq<nat>, n: nat)
    requires Tiles(m, off, lens) && m(off + Sum(lens)) == Length(n)
    ensures Tiles(m, off, lens + [n])
    decreases |lens|
  {
    var more := lens + [n];
    if lens == [] {
      assert more[1..] == [];
    } else {
      TilesAppend(m, off + lens[0], lens[1..], n);
      assert more[1..] == lens[1..] + [n];
    }
  }

  /** Instruction lengths are positive, so of two tilings from one offset the one that ends first
      is a prefix of the other: boundaries do not depend on how they were found. */
  lemma {:induction false} TilingsNest(m: Measure, off: nat, a: seq<nat>, b: seq<nat>)
    requires Positive(m) && Tiles(m, off, a) && Tiles(m, off, b) && Sum(a) <= Sum(b)
    ensures a <= b
    decreases |a|
  {
    if a != [] {
      assert b != [];
      TilingsNest(m, off + a[0], a[1..], b[1..]);
    }
  }

  /** After a tiling that is a proper prefix of another, the next instruction decodes. */
  lemma {:induction false} NextDecodes(m: Measure, off: nat, a: seq<nat>, b: seq<nat>)
    requires Tiles(m, off, b) && a <= b && a != b
    ensures m(off + Sum(a)) == Length(b[|a|])
    ensures Sum(a) + b[|a|] <= Sum(b)
    decreases |a|
  {
    if a != [] {
      NextDecodes(m, off + a[0], a[1..], b[1..]);
    }
  }

  /** No boundary lies strictly between `Sum(lens)` and the end of the next instruction. */
  lemma NoBoundaryInside(m: Measure, lens: seq<nat>, n: nat, d: nat)
    requires Positive(m) && Tiles(m, 0, lens) && m(Sum(lens)) == Length(n)
    requires Boundary(m, d) && Sum(lens) < d
    ensures Sum(lens) + n <= d
  {
    var other :| Tiles(m, 0, other) && Sum(other) == d;
    TilingsNest(m, 0, lens, other);
    NextDecodes(m, 0, lens, other);
  }

  /** Before the end of a tiling every boundary is followed by an instruction that decodes. */
  lemma EarlierDecode(m: Measure, lens: seq<nat>, e: nat)
    requires Positive(m) && Tiles(m, 0, lens) && Boundary(m, e) && e < Sum(lens)
    ensures m(e).Length?
  {
    var other :| Tiles(m, 0, other) && Sum(other) == e;
    TilingsNest(m, 0, other, lens);
    NextDecodes(m, 0, other, lens);
  }

  /** If measuring fails right after a tiling, no boundary lies beyond it. */
  lemma NoBoundaryBeyond(m: Measure, lens: seq<nat>, d: nat)
    requires Positive(m) && Tiles(m, 0, lens) && !m(Sum(lens)).Length?
    requires Boundary(m, d)
    ensures d <= Sum(lens)
  {
    var other :| Tiles(m, 0, other) && Sum(other) == d;
    if Sum(lens) < d {
      TilingsNest(m, 0, lens, other);
      NextDecodes(m, 0, lens, other);
    }
  }

  /** The first boundary at or past 13. */
  ghost predicate HookBoundary(m: Measure, d: nat) {
    && d >= SAFE
    && Boundary(m, d)
    && forall e: nat :: SAFE <= e < d ==> !Boundary(m, e)
  }

  lemma HookBoundaryFrom13(m: Measure, d: nat)
    requires HookBoundary(m, d)
    ensures d >= 13
  {
  }

  /** Measuring fails with `why` at an instruction that starts before the hook boundary. */
  ghost predicate FailsEarly(m: Measure, why: Outcome) {
    exists e: nat :: e < SAFE && Boundary(m, e) && m(e) == why
  }

  lemma SettledByFailure(m: Measure, lens: seq<nat>)
    requires Positive(m) && Tiles(m, 0, lens) && Sum(lens) < SAFE && !m(Sum(lens)).Length?
    ensures forall d: nat :: !HookBoundary(m, d)
    ensures forall why: Outcome :: !why.Length? ==> (FailsEarly(m, why) <==> why == m(Sum(lens)))
  {
    forall d: nat | Boundary(m, d) ensures d <= Sum(lens) {
      NoBoundaryBeyond(m, lens, d);
    }
    forall e: nat | Boundary(m, e) && e < Sum(lens) ensures m(e).Length? {
      EarlierDecode(m, lens, e);
    }
    assert Boundary(m, Sum(lens));
  }

  lemma SettledByLength(m: Measure, lens: seq<nat>, n: nat)
    requires Positive(m) && Tiles(m, 0, lens) && m(Sum(lens)) == Length(n)
    requires Sum(lens) < SAFE <= Sum(lens) + n
    ensures forall d: nat :: HookBoundary(m, d) <==> d == Sum(lens) + n
    ensures forall why: Outcome :: !why.Length? ==> !FailsEarly(m, why)
  {
    var end := Sum(lens) + n;
    TilesAppend(m, 0, lens, n);
    SumAppend(lens, n);
    assert Boundary(m, end);
    forall e: nat | Boundary(m, e) && Sum(lens) < e ensures end <= e {
      NoBoundaryInside(m, lens, n, e);
    }
    forall e: nat | Boundary(m, e) && e < SAFE ensures m(e).Length? {
      EarlierDecode(m, lens + [n], e);
    }
  }

  /** The result is decided both ways: a length exactly for the hook boundary (of which there is
      at most one), a failure exactly when an instruction starting before it cannot be measured. */
  method GetHookSpace(code: seq<Byte>) returns (r: Outcome)
    ensures forall d: nat :: r == Length(d) <==> HookBoundary(At(code), d)
    ensures r == Wrong <==> FailsEarly(At(code), Wrong)
    ensures r == OffEnd <==> FailsEarly(At(code), OffEnd)
  {
    hide Decode;
    var d := 0;
    ghost var m, lens: seq<nat> := At(code), [];
    AtPositive(code);
    while true
      invariant Tiles(m, 0, lens) && Sum(lens) == d < SAFE
      decreases SAFE - d
    {
      var tmp := ReadInstruction64(From(code, d));
      AtDecodes(code, d);
      if !tmp.Length? {
        SettledByFailure(m, lens);
        return tmp;
      }
      if d + tmp.n >= SAFE {
        SettledByLength(m, lens, tmp.n);
        return Length(d + tmp.n);
      }
      TilesAppend(m, 0, lens, tmp.n);
      SumAppend(lens, tmp.n);
      lens := lens + [tmp.n];
      d := d + tmp.n;
    }
  }

  predicate AtMost15(lens: seq<nat>) {
    forall i :: 0 <= i < |lens| ==> lens[i] <= 15
  }

  lemma {:induction false} TilesPrefix(m: Measure, off: nat, lens: seq<nat>, k: nat)
    requires Tiles(m, off, lens) && k <= |lens|
    ensures Tiles(m, off, lens[..k])
    decreases k
  {
    if k > 0 {
      TilesPrefix(m, off + lens[0], lens[1..], k - 1);
      assert lens[..k][1..] == lens[1..][..k - 1];
    }
  }

  /** With instructions of at most 15 bytes (Intel SDM Vol. 2, section 2.3.11) the entry that has to
      move is 13 to 27 bytes long, and its copy with the 14-byte way back fits the 64-byte buffer. */
  lemma HookSpaceBounds(code: seq<Byte>, lens: seq<nat>)
    requires Tiles(At(code), 0, lens) && HookBoundary(At(code), Sum(lens)) && AtMost15(lens)
    ensures 13 <= Sum(lens) <= 27
    ensures Sum(lens) + 14 <= 41 < 64
  {
    assert lens != [];
    hide At, Sum, Tiles;
    AtPositive(code);
    var init, last := lens[..|lens| - 1], lens[|lens| - 1];
    LastTile(At(code), lens);
    assert Boundary(At(code), Sum(init));
  }

  lemma LastTile(m: Measure, lens: seq<nat>)
    requires Positive(m) && Tiles(m, 0, lens) && lens != []
    ensures var init, last := lens[..|lens| - 1], lens[|lens| - 1];
            Tiles(m, 0, init) && Sum(lens) == Sum(init) + last && last > 0
  {
    hide Sum;
    var k := |lens| - 1;
    TilesPrefix(m, 0, lens, k);
    NextDecodes(m, 0, lens[..k], lens);
    SumAppend(lens[..k], lens[k]);
    assert lens == lens[..k] + [lens[k]];
  }

  lemma AtInside(code: seq<Byte>, at: nat)
    requires At(code)(at).Length?
    ensures at <= |code| && Decode(code[at..]).Length?
  {
    hide Decode;
  }

  /** Every instruction that is moved is straight-line code. */
  lemma TiledIsStraightLine(code: seq<Byte>, lens: seq<nat>, i: nat)
    requires Tiles(At(code), 0, lens) && i < |lens|
    ensures var at := Sum(lens[..i]);
            && at < |code| && PrefixRun(code[at..]) < |code| - at
            && !LeavesStraightLine(code[at + PrefixRun(code[at..])])
  {
    hide Decode, LeavesStraightLine, PrefixRun, Tiles, Sum, At;
    var at := Sum(lens[..i]);
    NextDecodes(At(code), 0, lens[..i], lens);
    AtInside(code, at);
    AcceptsStraightLineOnly(code[at..]);
  }

  /** The moved block means the same wherever it stands: over any bytes that hold the block, the
      same lengths tile it, whatever follows. */
  lemma {:induction false} BlockRelocates(a: seq<Byte>, b: seq<Byte>, i: nat, j: nat, lens: seq<nat>)
    requires Tiles(At(a), i, lens) && i + Sum(lens) <= |a| && j + Sum(lens) <= |b|
    requires a[i..i + Sum(lens)] == b[j..j + Sum(lens)]
    ensures Tiles(At(b), j, lens)
    decreases |lens|
  {
    hide Decode;
    if lens != [] {
      var n, s := lens[0], Sum(lens);
      forall x | 0 <= x < n ensures a[i..][x] == b[j..][x] {
        assert a[i..i + s][x] == b[j..j + s][x];
      }
      SelfDelimiting(a[i..], b[j..], n);
      assert a[i + n..i + s] == a[i..i + s][n..] && b[j + n..j + s] == b[j..j + s][n..];
      BlockRelocates(a, b, i + n, j + n, lens[1..]);
    }
  }
}
