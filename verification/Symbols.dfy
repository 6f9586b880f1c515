/** The symbol search of src/sec.c over tables that have been loaded, in both symbol layouts (System V
    gABI, chapter 4, 'Symbol Table'). */
module Symbols {
  import opened Bytes
  import opened Options

  const ST_FUNC: nat := 2

  datatype Symbol = Symbol(name: nat, value: Word, size: Word, info: Byte, other: Byte, section: nat)

  // ---- the two layouts

  function RecordSize(bits: nat): (n: nat) ensures n > 0 {
    if bits == 32 then 16 else 24
  }

  /** The field of `n` bytes at `at`. */
  function Field(t: seq<Byte>, at: nat, n: nat): Word
    requires at + n <= |t| && n <= 8
  {
    FieldFits(t[at..at + n]);
    FromLE(t[at..at + n])
  }

  lemma FieldFits(bs: seq<Byte>)
    requires |bs| <= 8
    ensures FromLE(bs) < TWO64
  {
    ToFromLE(bs);
    Pow256Values();
    PowGrows(|bs|, 8);
  }

  lemma {:induction false} PowGrows(a: nat, b: nat)
    requires a <= b
    ensures Pow256(a) <= Pow256(b)
  {
    if a < b { PowGrows(a, b - 1); }
  }

  /** `struct symbol32` and `struct symbol64`, both packed. */
  function Record(bits: nat, r: seq<Byte>): Symbol
    requires |r| == RecordSize(bits)
  {
    if bits == 32 then
      Symbol(Field(r, 0, 4), Field(r, 4, 4), Field(r, 8, 4), r[12], r[13], Field(r, 14, 2))
    else
      Symbol(Field(r, 0, 4), Field(r, 8, 8), Field(r, 16, 8), r[4], r[5], Field(r, 6, 2))
  }

  lemma NumIs(r: seq<Byte>, at: nat)
    ensures at + 2 <= |r| ==> Field(r, at, 2) == Num(r[at], r[at + 1], 0, 0)
    ensures at + 4 <= |r| ==> Field(r, at, 4) == Num(r[at], r[at + 1], r[at + 2], r[at + 3])
  {
    if at + 2 <= |r| {
      assert r[at..at + 2] == [r[at], r[at + 1]];
      NumOf([r[at], r[at + 1]]);
    }
    if at + 4 <= |r| {
      assert r[at..at + 4] == [r[at], r[at + 1], r[at + 2], r[at + 3]];
      NumOf([r[at], r[at + 1], r[at + 2], r[at + 3]]);
    }
  }

  lemma HighHalf(r: seq<Byte>, at: nat)
    requires at + 8 <= |r|
    ensures Field(r, at, 8) == Field(r, at, 4) + TWO32 * Field(r, at + 4, 4)
  {
    hide ToLE;
    var lo, hi := FromLE(r[at..at + 4]), FromLE(r[at + 4..at + 8]);
    assert r[at..at + 8] == r[at..at + 4] + r[at + 4..at + 8];
    Concatenated(r[at..at + 4], r[at + 4..at + 8]);
    Pow256Values();
  }

  lemma {:induction false} Concatenated(a: seq<Byte>, b: seq<Byte>)
    ensures FromLE(a + b) == FromLE(a) + Pow256(|a|) * FromLE(b)
  {
    hide FromLE;
    if a == [] {
      assert a + b == b;
      NoBytes();
    } else {
      assert (a + b)[1..] == a[1..] + b;
      Concatenated(a[1..], b);
      FirstByte(a);
      FirstByte(a + b);
      OneByteUp(FromLE(a[1..]), Pow256(|a| - 1), FromLE(b));
    }
  }

  lemma NoBytes()
    ensures FromLE([]) == 0 && Pow256(0) == 1
  {
  }

  lemma FirstByte(a: seq<Byte>)
    requires a != []
    ensures FromLE(a) == a[0] + 256 * FromLE(a[1..]) && Pow256(|a|) == 256 * Pow256(|a| - 1)
  {
  }

  lemma OneByteUp(f: nat, p: nat, v: nat)
    ensures 256 * (f + p * v) == 256 * f + (256 * p) * v
  {
  }

  /** Where the fields of a record lie, byte by byte (System V gABI, chapter 4). */
  lemma RecordSpelled(r: seq<Byte>)
    ensures |r| == 16 ==>
              |r| == RecordSize(32) &&
              Record(32, r) == Symbol(Num(r[0], r[1], r[2], r[3]), Num(r[4], r[5], r[6], r[7]),
                                      Num(r[8], r[9], r[10], r[11]), r[12], r[13], Num(r[14], r[15], 0, 0))
    ensures |r| == 24 ==>
              |r| == RecordSize(64) &&
              var s := Record(64, r);
              && s.name == Num(r[0], r[1], r[2], r[3]) && s.info == r[4] && s.other == r[5]
              && s.section == Num(r[6], r[7], 0, 0)
              && s.value == Num(r[8], r[9], r[10], r[11]) + TWO32 * Num(r[12], r[13], r[14], r[15])
              && s.size == Num(r[16], r[17], r[18], r[19]) + TWO32 * Num(r[20], r[21], r[22], r[23])
  {
    hide Field, Num;
    if |r| == 16 {
      NumIs(r, 0);
      NumIs(r, 4);
      NumIs(r, 8);
      NumIs(r, 14);
    } else if |r| == 24 {
      NumIs(r, 0);
      NumIs(r, 6);
      HighHalf(r, 8);
      NumIs(r, 8);
      NumIs(r, 12);
      HighHalf(r, 16);
      NumIs(r, 16);
      NumIs(r, 20);
    }
  }

  function Records(bits: nat, table: seq<Byte>): nat {
    |table| / RecordSize(bits)
  }

  function RecordAt(bits: nat, table: seq<Byte>, i: nat): Symbol
    requires i < Records(bits, table)
  {
    RecordInside(bits, table, i);
    Record(bits, table[i * RecordSize(bits)..(i + 1) * RecordSize(bits)])
  }

  lemma RecordInside(bits: nat, table: seq<Byte>, i: nat)
    requires i < Records(bits, table)
    ensures 0 <= i * RecordSize(bits) && (i + 1) * RecordSize(bits) <= |table|
    ensures (i + 1) * RecordSize(bits) - i * RecordSize(bits) == RecordSize(bits)
  {
  }

  function SymbolsOf(bits: nat, table: seq<Byte>): (s: seq<Symbol>)
    ensures |s| == Records(bits, table)
  {
    seq(Records(bits, table), i requires 0 <= i < Records(bits, table) => RecordAt(bits, table, i))
  }

  /** A symbol as the 64-bit and, if its numbers are small enough, as the 32-bit layout write it. */
  predicate Writable(bits: nat, s: Symbol) {
    s.name < TWO32 && s.section < 0x1_0000 && (bits == 32 ==> s.value < TWO32 && s.size < TWO32)
  }

  function Encode(bits: nat, s: Symbol): (r: seq<Byte>)
    ensures |r| == RecordSize(bits)
  {
    if bits == 32 then
      ToLE(s.name, 4) + ToLE(s.value, 4) + ToLE(s.size, 4) + [s.info, s.other] + ToLE(s.section, 2)
    else
      ToLE(s.name, 4) + [s.info, s.other] + ToLE(s.section, 2) + ToLE(s.value, 8) + ToLE(s.size, 8)
  }

  function EncodeAll(bits: nat, ss: seq<Symbol>): seq<Byte> {
    if ss == [] then [] else Encode(bits, ss[0]) + EncodeAll(bits, ss[1..])
  }

  lemma FieldBack(r: seq<Byte>, at: nat, n: nat, v: nat)
    requires at + n <= |r| && (n == 2 || n == 4 || n == 8) && v < Pow256(n) && r[at..at + n] == ToLE(v, n)
    ensures Field(r, at, n) == v
  {
    FromToLE(v, n);
  }

  lemma EncodeDecodes(bits: nat, s: Symbol)
    requires Writable(bits, s)
    ensures Record(bits, Encode(bits, s)) == s
  {
    hide ToLE, Field;
    Pow256Values();
    var r := Encode(bits, s);
    if bits == 32 {
      FieldBack(r, 0, 4, s.name);
      FieldBack(r, 4, 4, s.value);
      FieldBack(r, 8, 4, s.size);
      FieldBack(r, 14, 2, s.section);
    } else {
      FieldBack(r, 0, 4, s.name);
      FieldBack(r, 8, 8, s.value);
      FieldBack(r, 16, 8, s.size);
      FieldBack(r, 6, 2, s.section);
    }
  }

  lemma {:induction false} EncodedSize(bits: nat, ss: seq<Symbol>)
    ensures |EncodeAll(bits, ss)| == |ss| * RecordSize(bits)
  {
    if ss != [] {
      EncodedSize(bits, ss[1..]);
      Distribute(|ss| - 1, RecordSize(bits));
    }
  }

  lemma Distribute(k: nat, n: nat)
    ensures (k + 1) * n == k * n + n
  {
  }

  /** The i-th record of an encoded table is the i-th encoded symbol. */
  lemma {:induction false} EncodedRecord(bits: nat, ss: seq<Symbol>, i: nat)
    requires i < |ss|
    ensures 0 <= i * RecordSize(bits) <= (i + 1) * RecordSize(bits) <= |EncodeAll(bits, ss)|
    ensures EncodeAll(bits, ss)[i * RecordSize(bits)..(i + 1) * RecordSize(bits)] == Encode(bits, ss[i])
  {
    var n, t := RecordSize(bits), EncodeAll(bits, ss);
    hide Encode, RecordSize;
    Distribute(i, n);
    if i == 0 {
      assert 0 * n == 0;
      assert t[0..n] == Encode(bits, ss[0]);
    } else {
      EncodedRecord(bits, ss[1..], i - 1);
      Distribute(i - 1, n);
      var rest := EncodeAll(bits, ss[1..]);
      assert t[i * n..(i + 1) * n] == rest[(i - 1) * n..i * n];
    }
  }

  /** Reading an encoded table gives the symbols back, in either layout. */
  lemma TableRoundTrip(bits: nat, ss: seq<Symbol>)
    requires forall i :: 0 <= i < |ss| ==> Writable(bits, ss[i])
    ensures SymbolsOf(bits, EncodeAll(bits, ss)) == ss
  {
    var t, n := EncodeAll(bits, ss), RecordSize(bits);
    EncodedSize(bits, ss);
    assert |t| / n == |ss| by { Exact(|ss|, n); }
    hide EncodeAll, Encode, Record, RecordSize, Writable;
    forall i | 0 <= i < |ss| ensures SymbolsOf(bits, t)[i] == ss[i] {
      EncodedRecord(bits, ss, i);
      EncodeDecodes(bits, ss[i]);
    }
  }

  lemma Exact(k: nat, n: nat)
    requires n == 16 || n == 24
    ensures (k * n) / n == k
  {
  }

  // ---- names

  /** The C string at an offset: the bytes up to a zero byte. */
  function CStr(strings: seq<Byte>, at: nat): seq<Byte>
    decreases |strings| - at
  {
    if at >= |strings| || strings[at] == 0 then [] else [strings[at]] + CStr(strings, at + 1)
  }

  /** A named, non-empty function symbol. */
  predicate IsFunction(s: Symbol) {
    s.name != 0 && s.info % 16 == ST_FUNC && s.size > 0
  }

  predicate Matches(s: Symbol, strings: seq<Byte>, name: seq<Byte>) {
    IsFunction(s) && CStr(strings, s.name) == name
  }

  /** A non-empty function symbol (type STT_FUNC, that is 2, in the low four bits) whose name in the string
      table is `name`: these bytes, and then a zero byte. */
  predicate Bears(s: Symbol, strings: seq<Byte>, name: seq<Byte>) {
    && s.name != 0 && s.info % 16 == 2 && s.size != 0
    && s.name + |name| < |strings| && strings[s.name..s.name + |name|] == name && strings[s.name + |name|] == 0
  }

  /** In a string table that ends with a zero byte, a symbol whose name lies inside matches a C string exactly
      when it bears it. */
  lemma MatchesIsBears(s: Symbol, strings: seq<Byte>, name: seq<Byte>)
    requires 0 !in name && s.name < |strings| && strings[|strings| - 1] == 0
    ensures Matches(s, strings, name) <==> Bears(s, strings, name)
  {
    NameEnds(strings, s.name);
    if s.name + |name| < |strings| && strings[s.name..s.name + |name|] == name && strings[s.name + |name|] == 0 {
      NameAt(strings, s.name, name);
    }
  }

  lemma {:induction false} NameAt(strings: seq<Byte>, at: nat, name: seq<Byte>)
    requires at + |name| < |strings| && strings[at..at + |name|] == name && strings[at + |name|] == 0 && 0 !in name
    ensures CStr(strings, at) == name
    decreases |name|
  {
    if name != [] {
      assert strings[at] == name[0];
      assert strings[at + 1..at + |name|] == name[1..];
      NameAt(strings, at + 1, name[1..]);
    }
  }

  lemma {:induction false} NameEnds(strings: seq<Byte>, at: nat)
    requires at < |strings| && strings[|strings| - 1] == 0
    ensures var n := CStr(strings, at);
            at + |n| < |strings| && strings[at..at + |n|] == n && strings[at + |n|] == 0
    decreases |strings| - at
  {
    if strings[at] != 0 {
      NameEnds(strings, at + 1);
      var n := CStr(strings, at + 1);
      assert strings[at..at + 1 + |n|] == [strings[at]] + strings[at + 1..at + 1 + |n|];
    }
  }

  // ---- the independent search, one name at a time

  /** The value of the n-th matching symbol (from 0) among those whose value is not zero; zero if there
      are not that many. */
  function NthValue(ss: seq<Symbol>, strings: seq<Byte>, name: seq<Byte>, n: nat): Word
    decreases |ss|
  {
    if ss == [] then 0
    else if Matches(ss[0], strings, name) && ss[0].value != 0 then
      if n == 0 then ss[0].value else NthValue(ss[1..], strings, name, n - 1)
    else NthValue(ss[1..], strings, name, n)
  }

  /** How many matching symbols have a value. */
  function Count(ss: seq<Symbol>, strings: seq<Byte>, name: seq<Byte>): nat {
    if ss == [] then 0
    else (if Matches(ss[0], strings, name) && ss[0].value != 0 then 1 else 0) + Count(ss[1..], strings, name)
  }

  predicate Occurs(ss: seq<Symbol>, strings: seq<Byte>, name: seq<Byte>) {
    exists i :: 0 <= i < |ss| && Matches(ss[i], strings, name)
  }

  lemma {:induction false} NthValueCounts(ss: seq<Symbol>, strings: seq<Byte>, name: seq<Byte>, n: nat)
    ensures NthValue(ss, strings, name, n) != 0 <==> n < Count(ss, strings, name)
    decreases |ss|
  {
    hide Matches;
    if ss != [] {
      if Matches(ss[0], strings, name) && ss[0].value != 0 {
        if n > 0 { NthValueCounts(ss[1..], strings, name, n - 1); }
      } else {
        NthValueCounts(ss[1..], strings, name, n);
      }
    }
  }

  /** One more symbol serves exactly the entry that is next in turn. */
  lemma {:induction false} NthValueAppend(ss: seq<Symbol>, s: Symbol, strings: seq<Byte>, name: seq<Byte>, n: nat)
    ensures NthValue(ss + [s], strings, name, n) ==
              if Matches(s, strings, name) && n == Count(ss, strings, name) then s.value
              else NthValue(ss, strings, name, n)
    decreases |ss|
  {
    hide Matches;
    if ss == [] {
      assert (ss + [s])[1..] == [];
    } else {
      assert (ss + [s])[1..] == ss[1..] + [s];
      if Matches(ss[0], strings, name) && ss[0].value != 0 {
        if n > 0 { NthValueAppend(ss[1..], s, strings, name, n - 1); }
      } else {
        NthValueAppend(ss[1..], s, strings, name, n);
      }
    }
  }

  lemma {:induction false} CountOccurs(ss: seq<Symbol>, strings: seq<Byte>, name: seq<Byte>)
    requires Count(ss, strings, name) > 0
    ensures Occurs(ss, strings, name)
  {
    hide Matches;
    if Matches(ss[0], strings, name) && ss[0].value != 0 {
    } else {
      CountOccurs(ss[1..], strings, name);
      var i :| 0 <= i < |ss[1..]| && Matches(ss[1..][i], strings, name);
      assert ss[i + 1] == ss[1..][i];
    }
  }

  lemma OccursAppend(ss: seq<Symbol>, s: Symbol, strings: seq<Byte>, name: seq<Byte>)
    ensures Occurs(ss + [s], strings, name) <==> Occurs(ss, strings, name) || Matches(s, strings, name)
  {
    hide Matches;
    var all := ss + [s];
    if Occurs(ss, strings, name) {
      var i :| 0 <= i < |ss| && Matches(ss[i], strings, name);
      assert all[i] == ss[i];
    }
    assert all[|ss|] == s;
  }

  // ---- what the entries must become

  datatype FunctionPtr = FunctionPtr(name: seq<Byte>, address: Word, hook: int)

  datatype Tables = Tables(bits: nat, symbolTable: Option<seq<Byte>>, strings: Option<seq<Byte>>)

  /** How many earlier entries without address have the name of entry j: they are served before it. */
  function Rank(ptrs: seq<FunctionPtr>, name: seq<Byte>, j: nat): nat
    requires j <= |ptrs|
  {
    if j == 0 then 0
    else Rank(ptrs, name, j - 1) + if ptrs[j - 1].address == 0 && ptrs[j - 1].name == name then 1 else 0
  }

  lemma {:induction false} RankBefore(ptrs: seq<FunctionPtr>, name: seq<Byte>, j: nat, c: nat) returns (k: nat)
    requires j <= |ptrs| && c < Rank(ptrs, name, j)
    ensures k < j && ptrs[k].address == 0 && ptrs[k].name == name && Rank(ptrs, name, k) == c
    decreases j
  {
    if Rank(ptrs, name, j - 1) == c {
      k := j - 1;
    } else {
      k := RankBefore(ptrs, name, j - 1, c);
    }
  }

  lemma {:induction false} RankGrows(ptrs: seq<FunctionPtr>, name: seq<Byte>, i: nat, j: nat)
    requires i < j <= |ptrs| && ptrs[i].address == 0 && ptrs[i].name == name
    ensures Rank(ptrs, name, i) < Rank(ptrs, name, j)
    decreases j
  {
    if i < j - 1 { RankGrows(ptrs, name, i, j - 1); }
  }

  /** Entry j after the symbols `ss`: an address it had stays; otherwise it has the next value of its name
      that the entries before it have left. */
  function Resolved(was: seq<FunctionPtr>, j: nat, ss: seq<Symbol>, strings: seq<Byte>): FunctionPtr
    requires j < |was|
  {
    var p := was[j];
    if p.address != 0 then p else p.(address := NthValue(ss, strings, p.name, Rank(was, p.name, j)))
  }

  predicate AllResolved(now: seq<FunctionPtr>, was: seq<FunctionPtr>, ss: seq<Symbol>, strings: seq<Byte>) {
    |now| == |was| && forall j :: 0 <= j < |was| ==> now[j] == Resolved(was, j, ss, strings)
  }

  /** Some entry without an address is named by a function symbol. */
  predicate SomeFound(ptrs: seq<FunctionPtr>, ss: seq<Symbol>, strings: seq<Byte>) {
    exists j :: 0 <= j < |ptrs| && ptrs[j].address == 0 && Occurs(ss, strings, ptrs[j].name)
  }

  // ---- the search of the source

  /** Entry j can take the symbol. */
  predicate Takes(p: FunctionPtr, s: Symbol, strings: seq<Byte>) {
    p.address == 0 && Matches(s, strings, p.name)
  }

  /** The inner loop: the first entry without address and with the symbol's name gets its value. */
  method Assign(ptrs: array<FunctionPtr>, s: Symbol, strings: seq<Byte>) returns (hit: bool, at: nat)
    modifies ptrs
    ensures !hit ==> ptrs[..] == old(ptrs[..]) && forall j :: 0 <= j < ptrs.Length ==> !Takes(ptrs[j], s, strings)
    ensures hit ==>
              && at < ptrs.Length && Takes(old(ptrs[at]), s, strings)
              && (forall k :: 0 <= k < at ==> !Takes(old(ptrs[k]), s, strings))
              && ptrs[..] == old(ptrs[..])[at := old(ptrs[at]).(address := s.value)]
  {
    hit, at := false, 0;
    if s.name != 0 && s.info % 16 == ST_FUNC && s.size > 0 {
      hide CStr;
      var name := CStr(strings, s.name);
      while at < ptrs.Length
        invariant 0 <= at <= ptrs.Length && !hit && ptrs[..] == old(ptrs[..])
        invariant forall k :: 0 <= k < at ==> !Takes(ptrs[k], s, strings)
      {
        if ptrs[at].address == 0 && name == ptrs[at].name {
          ptrs[at] := ptrs[at].(address := s.value);
          hit := true;
          break;
        }
        at := at + 1;
      }
    }
  }

  /** The outer loop, over the records of one layout. */
  method Scan(ptrs: array<FunctionPtr>, bits: nat, table: seq<Byte>, strings: seq<Byte>) returns (res: bool)
    modifies ptrs
    ensures AllResolved(ptrs[..], old(ptrs[..]), SymbolsOf(bits, table), strings)
    ensures res <==> SomeFound(old(ptrs[..]), SymbolsOf(bits, table), strings)
  {
    hide NthValue, Matches, RecordAt, SomeFound, AllResolved, Takes;
    ghost var was, ss := ptrs[..], SymbolsOf(bits, table);
    res := false;
    NothingFound(was, strings);
    assert ss[..0] == [];
    for i := 0 to Records(bits, table)
      invariant AllResolved(ptrs[..], was, ss[..i], strings)
      invariant res <==> SomeFound(was, ss[..i], strings)
    {
      ghost var mid := ptrs[..];
      var hit, at := Assign(ptrs, RecordAt(bits, table, i), strings);
      assert ss[..i + 1] == ss[..i] + [ss[i]];
      if hit {
        HitStep(mid, was, ss[..i], ss[i], strings, at);
        res := true;
      } else {
        MissStep(mid, was, ss[..i], ss[i], strings);
      }
    }
    assert ss[..|ss|] == ss;
  }

  lemma NothingFound(was: seq<FunctionPtr>, strings: seq<Byte>)
    ensures AllResolved(was, was, [], strings) && !SomeFound(was, [], strings)
  {
    assert forall j :: 0 <= j < |was| ==> !Occurs([], strings, was[j].name);
  }

  /** Who is without an address after some symbols: the entries whose turn has not come. */
  lemma TurnOf(mid: seq<FunctionPtr>, was: seq<FunctionPtr>, ss: seq<Symbol>, strings: seq<Byte>, j: nat)
    requires AllResolved(mid, was, ss, strings) && j < |was|
    ensures mid[j].address == 0 <==>
              was[j].address == 0 && Rank(was, was[j].name, j) >= Count(ss, strings, was[j].name)
    ensures mid[j].name == was[j].name
  {
    NthValueCounts(ss, strings, was[j].name, Rank(was, was[j].name, j));
  }

  /** The first entry that can take the symbol is the one whose turn it is. */
  lemma FirstTaker(mid: seq<FunctionPtr>, was: seq<FunctionPtr>, ss: seq<Symbol>, s: Symbol,
                   strings: seq<Byte>, at: nat)
    requires AllResolved(mid, was, ss, strings) && at < |mid| && Takes(mid[at], s, strings)
    requires forall k :: 0 <= k < at ==> !Takes(mid[k], s, strings)
    ensures was[at].address == 0 && Rank(was, was[at].name, at) == Count(ss, strings, was[at].name)
  {
    hide AllResolved, Matches;
    Resolves(mid, was, ss, strings);
    TurnOf(mid, was, ss, strings, at);
    var name, c := was[at].name, Count(ss, strings, was[at].name);
    if Rank(was, name, at) > c {
      var k := RankBefore(was, name, at, c);
      TurnOf(mid, was, ss, strings, k);
      assert false;
    }
  }

  lemma Resolves(mid: seq<FunctionPtr>, was: seq<FunctionPtr>, ss: seq<Symbol>, strings: seq<Byte>)
    requires AllResolved(mid, was, ss, strings)
    ensures |mid| == |was|
  {
  }

  lemma HitStep(mid: seq<FunctionPtr>, was: seq<FunctionPtr>, ss: seq<Symbol>, s: Symbol, strings: seq<Byte>, at: nat)
    requires AllResolved(mid, was, ss, strings) && at < |mid| && Takes(mid[at], s, strings)
    requires forall k :: 0 <= k < at ==> !Takes(mid[k], s, strings)
    ensures AllResolved(mid[at := mid[at].(address := s.value)], was, ss + [s], strings)
    ensures SomeFound(was, ss + [s], strings)
  {
    hide Matches, Occurs, Count, NthValue;
    FirstTaker(mid, was, ss, s, strings, at);
    var now := mid[at := mid[at].(address := s.value)];
    forall j | 0 <= j < |was| ensures now[j] == Resolved(was, j, ss + [s], strings) {
      NthValueAppend(ss, s, strings, was[j].name, Rank(was, was[j].name, j));
      if j != at && was[j].address == 0 && was[j].name == was[at].name {
        if j < at { RankGrows(was, was[at].name, j, at); } else { RankGrows(was, was[at].name, at, j); }
      }
      if Matches(s, strings, was[j].name) { SameName(s, strings, was[j].name, was[at].name); }
    }
    OccursAppend(ss, s, strings, was[at].name);
  }

  lemma SameName(s: Symbol, strings: seq<Byte>, a: seq<Byte>, b: seq<Byte>)
    requires Matches(s, strings, a) && Matches(s, strings, b)
    ensures a == b
  {
  }

  lemma MissStep(mid: seq<FunctionPtr>, was: seq<FunctionPtr>, ss: seq<Symbol>, s: Symbol, strings: seq<Byte>)
    requires AllResolved(mid, was, ss, strings) && forall j :: 0 <= j < |mid| ==> !Takes(mid[j], s, strings)
    ensures AllResolved(mid, was, ss + [s], strings)
    ensures SomeFound(was, ss + [s], strings) <==> SomeFound(was, ss, strings)
  {
    hide Matches, Occurs, Count, NthValue;
    forall j | 0 <= j < |was|
      ensures mid[j] == Resolved(was, j, ss + [s], strings)
      ensures was[j].address == 0 ==>
                (Occurs(ss + [s], strings, was[j].name) <==> Occurs(ss, strings, was[j].name))
    {
      TurnOf(mid, was, ss, strings, j);
      NthValueAppend(ss, s, strings, was[j].name, Rank(was, was[j].name, j));
      OccursAppend(ss, s, strings, was[j].name);
      if was[j].address == 0 && mid[j].address != 0 {
        CountOccurs(ss, strings, was[j].name);
      }
    }
  }

  /** `find_functions`. Each entry without an address ends with the value that the independent search of
      its name yields, entries that have an address keep it, and the result tells whether an entry
      without address was named by some function symbol. */
  method FindFunctions(ptrs: array<FunctionPtr>, t: Tables) returns (res: bool)
    modifies ptrs
    ensures t.symbolTable == None || t.strings == None ==> !res && ptrs[..] == old(ptrs[..])
    ensures t.symbolTable != None && t.strings != None ==>
              && AllResolved(ptrs[..], old(ptrs[..]), SymbolsOf(t.bits, t.symbolTable.value), t.strings.value)
              && (res <==> SomeFound(old(ptrs[..]), SymbolsOf(t.bits, t.symbolTable.value), t.strings.value))
              && (res && ptrs[..] == old(ptrs[..]) <==>
                    && SomeFound(old(ptrs[..]), SymbolsOf(t.bits, t.symbolTable.value), t.strings.value)
                    && OnlyZeros(old(ptrs[..]), SymbolsOf(t.bits, t.symbolTable.value), t.strings.value))
  {
    hide SomeFound, SymbolsOf, AllResolved, OnlyZeros;
    if t.symbolTable == None || t.strings == None {
      return false;
    }
    if t.bits == 32 {
      res := Scan(ptrs, 32, t.symbolTable.value, t.strings.value);
    } else {
      res := Scan(ptrs, t.bits, t.symbolTable.value, t.strings.value);
    }
    FoundWithoutAddress(ptrs[..], old(ptrs[..]), SymbolsOf(t.bits, t.symbolTable.value), t.strings.value);
  }

  // ---- what that means for the table of the plugin

  predicate DistinctNames(ptrs: seq<FunctionPtr>) {
    forall i, j :: 0 <= i < j < |ptrs| ==> ptrs[i].name != ptrs[j].name
  }

  lemma {:induction false} DistinctRank(ptrs: seq<FunctionPtr>, j: nat, k: nat)
    requires DistinctNames(ptrs) && k <= j < |ptrs|
    ensures Rank(ptrs, ptrs[j].name, k) == 0
    decreases k
  {
    if k > 0 { DistinctRank(ptrs, j, k - 1); }
  }

  lemma {:induction false} FirstMatchWins(ss: seq<Symbol>, strings: seq<Byte>, name: seq<Byte>, i: nat)
    requires i < |ss| && Matches(ss[i], strings, name) && ss[i].value != 0
    requires forall k :: 0 <= k < i ==> !Matches(ss[k], strings, name)
    ensures NthValue(ss, strings, name, 0) == ss[i].value
    decreases |ss|
  {
    hide Matches;
    if i > 0 {
      assert !Matches(ss[0], strings, name);
      FirstMatchWins(ss[1..], strings, name, i - 1);
    }
  }

  /** With distinct names, no addresses yet, and non-zero values of the function symbols that bear these
      names (other records, the undefined symbol at the start of every table among them, may be zero): each
      entry gets the value of the first function symbol of its name, or stays zero when there is none, and
      the result is true exactly when some entry got an address. */
  lemma LookupIsFirstMatch(now: seq<FunctionPtr>, was: seq<FunctionPtr>, ss: seq<Symbol>, strings: seq<Byte>)
    requires AllResolved(now, was, ss, strings) && DistinctNames(was)
    requires forall j :: 0 <= j < |was| ==> was[j].address == 0
    requires forall j, i :: 0 <= j < |was| && 0 <= i < |ss| && Matches(ss[i], strings, was[j].name)
                            ==> ss[i].value != 0
    ensures forall j, i :: 0 <= j < |was| && 0 <= i < |ss| && Matches(ss[i], strings, was[j].name)
                           && (forall k :: 0 <= k < i ==> !Matches(ss[k], strings, was[j].name))
                           ==> now[j].address == ss[i].value
    ensures forall j :: 0 <= j < |was| ==> (now[j].address != 0 <==> Occurs(ss, strings, was[j].name))
    ensures SomeFound(was, ss, strings) <==> exists j :: 0 <= j < |now| && now[j].address != 0
  {
    hide Matches, NthValue, Occurs;
    forall j | 0 <= j < |was|
      ensures now[j].address == NthValue(ss, strings, was[j].name, 0)
      ensures now[j].address != 0 <==> Occurs(ss, strings, was[j].name)
    {
      DistinctRank(was, j, j);
      NthValueCounts(ss, strings, was[j].name, 0);
      OccursCounts(ss, strings, was[j].name);
    }
    forall j, i | 0 <= j < |was| && 0 <= i < |ss| && Matches(ss[i], strings, was[j].name)
                  && (forall k :: 0 <= k < i ==> !Matches(ss[k], strings, was[j].name))
      ensures now[j].address == ss[i].value
    {
      FirstMatchWins(ss, strings, was[j].name, i);
    }
  }

  /** The same in terms of the bytes of the tables: a string table that ends with a zero byte, names that lie
      inside it, and entries whose names are C strings. */
  lemma LookupByBytes(now: seq<FunctionPtr>, was: seq<FunctionPtr>, ss: seq<Symbol>, strings: seq<Byte>)
    requires AllResolved(now, was, ss, strings) && DistinctNames(was)
    requires strings != [] && strings[|strings| - 1] == 0
    requires forall i :: 0 <= i < |ss| ==> ss[i].name < |strings|
    requires forall j :: 0 <= j < |was| ==> was[j].address == 0 && 0 !in was[j].name
    requires forall j, i :: 0 <= j < |was| && 0 <= i < |ss| && Bears(ss[i], strings, was[j].name) ==> ss[i].value != 0
    ensures forall j, i :: 0 <= j < |was| && 0 <= i < |ss| && Bears(ss[i], strings, was[j].name)
                           && (forall k :: 0 <= k < i ==> !Bears(ss[k], strings, was[j].name))
                           ==> now[j].address == ss[i].value
    ensures forall j :: 0 <= j < |was| ==>
                          (now[j].address != 0 <==> exists i :: 0 <= i < |ss| && Bears(ss[i], strings, was[j].name))
    ensures SomeFound(was, ss, strings) <==> exists j :: 0 <= j < |now| && now[j].address != 0
  {
    hide Matches, Bears, CStr;
    forall j, i | 0 <= j < |was| && 0 <= i < |ss|
      ensures Matches(ss[i], strings, was[j].name) <==> Bears(ss[i], strings, was[j].name)
    {
      MatchesIsBears(ss[i], strings, was[j].name);
    }
    LookupIsFirstMatch(now, was, ss, strings);
  }

  /** A name is counted exactly when it occurs, as long as the symbols that bear it are not zero. */
  lemma {:induction false} OccursCounts(ss: seq<Symbol>, strings: seq<Byte>, name: seq<Byte>)
    requires forall i :: 0 <= i < |ss| && Matches(ss[i], strings, name) ==> ss[i].value != 0
    ensures Count(ss, strings, name) > 0 <==> Occurs(ss, strings, name)
  {
    hide Matches;
    if Count(ss, strings, name) > 0 {
      CountOccurs(ss, strings, name);
    }
    if Occurs(ss, strings, name) {
      var i :| 0 <= i < |ss| && Matches(ss[i], strings, name);
      OccursOnce(ss, strings, name, i);
    }
  }

  lemma {:induction false} OccursOnce(ss: seq<Symbol>, strings: seq<Byte>, name: seq<Byte>, i: nat)
    requires i < |ss| && Matches(ss[i], strings, name) && ss[i].value != 0
    ensures Count(ss, strings, name) > 0
    decreases |ss|
  {
    hide Matches;
    if i > 0 { OccursOnce(ss[1..], strings, name, i - 1); }
  }

  /** Every function symbol that names an entry without address has the value zero. */
  predicate OnlyZeros(ptrs: seq<FunctionPtr>, ss: seq<Symbol>, strings: seq<Byte>) {
    forall j, i :: 0 <= j < |ptrs| && ptrs[j].address == 0 && 0 <= i < |ss| && Matches(ss[i], strings, ptrs[j].name)
                   ==> ss[i].value == 0
  }

  /** Without the premise on values, "found" and "got an address" part: some entry is found and none gets
      an address exactly when the entries that are found are named by symbols with the value zero only. */
  lemma FoundWithoutAddress(now: seq<FunctionPtr>, was: seq<FunctionPtr>, ss: seq<Symbol>, strings: seq<Byte>)
    requires AllResolved(now, was, ss, strings)
    ensures now == was <==> OnlyZeros(was, ss, strings)
  {
    hide Matches, NthValue, Rank;
    forall j | 0 <= j < |was| && was[j].address == 0
      ensures (forall i :: 0 <= i < |ss| && Matches(ss[i], strings, was[j].name) ==> ss[i].value == 0)
              <==> NthValue(ss, strings, was[j].name, 0) == 0
    {
      ZeroWithoutValue(ss, strings, was[j].name);
    }
    if now == was {
      forall j | 0 <= j < |was| && was[j].address == 0 ensures NthValue(ss, strings, was[j].name, 0) == 0 {
        var k := FirstNamed(was, was[j].name, j);
        assert now[k] == Resolved(was, k, ss, strings);
      }
    } else {
      var j :| 0 <= j < |was| && now[j] != was[j];
      NthValueCounts(ss, strings, was[j].name, Rank(was, was[j].name, j));
      NthValueCounts(ss, strings, was[j].name, 0);
    }
  }

  /** The first entry without address of a name that some entry without address has. */
  lemma FirstNamed(ptrs: seq<FunctionPtr>, name: seq<Byte>, j: nat) returns (k: nat)
    requires j < |ptrs| && ptrs[j].address == 0 && ptrs[j].name == name
    ensures k < |ptrs| && ptrs[k].address == 0 && ptrs[k].name == name && Rank(ptrs, name, k) == 0
  {
    if Rank(ptrs, name, j) == 0 {
      k := j;
    } else {
      k := RankBefore(ptrs, name, j, 0);
    }
  }

  lemma ZeroWithoutValue(ss: seq<Symbol>, strings: seq<Byte>, name: seq<Byte>)
    ensures NthValue(ss, strings, name, 0) == 0 <==>
              forall i :: 0 <= i < |ss| && Matches(ss[i], strings, name) ==> ss[i].value == 0
  {
    hide Matches, NthValue;
    NthValueCounts(ss, strings, name, 0);
    if Count(ss, strings, name) > 0 {
      var i := CountedSymbol(ss, strings, name);
    }
    forall i | 0 <= i < |ss| && Matches(ss[i], strings, name) && ss[i].value != 0
      ensures Count(ss, strings, name) > 0
    {
      OccursOnce(ss, strings, name, i);
    }
  }

  /** A table of one function symbol `a` whose value is zero: found, and without address. */
  method ZeroValuedSymbol() returns (res: bool, was: seq<FunctionPtr>, now: seq<FunctionPtr>)
    ensures res && was == [FunctionPtr([0x61], 0, 0)] && now == was
  {
    hide SomeFound, OnlyZeros, AllResolved, SymbolsOf, EncodeAll;
    var s := Symbol(1, 0, 8, 2, 0, 1);
    var table, strings: seq<Byte> := EncodeAll(64, [s]), [0, 0x61, 0];
    var ptrs := new FunctionPtr[1](_ => FunctionPtr([0x61], 0, 0));
    was := ptrs[..];
    TableRoundTrip(64, [s]);
    NamedA(was, s, strings);
    res := FindFunctions(ptrs, Tables(64, Some(table), Some(strings)));
    now := ptrs[..];
  }

  lemma NamedA(ptrs: seq<FunctionPtr>, s: Symbol, strings: seq<Byte>)
    requires ptrs == [FunctionPtr([0x61], 0, 0)] && strings == [0, 0x61, 0] && s == Symbol(1, 0, 8, 2, 0, 1)
    ensures SomeFound(ptrs, [s], strings) && OnlyZeros(ptrs, [s], strings)
  {
    assert CStr(strings, 2) == [];
    assert Matches([s][0], strings, [0x61]);
    assert Occurs([s], strings, ptrs[0].name);
  }

  lemma {:induction false} CountedSymbol(ss: seq<Symbol>, strings: seq<Byte>, name: seq<Byte>) returns (i: nat)
    requires Count(ss, strings, name) > 0
    ensures i < |ss| && Matches(ss[i], strings, name) && ss[i].value != 0
  {
    hide Matches;
    if Matches(ss[0], strings, name) && ss[0].value != 0 {
      i := 0;
    } else {
      i := CountedSymbol(ss[1..], strings, name);
      i := i + 1;
    }
  }

  /** The layouts agree: the same symbols written in 32-bit and in 64-bit records resolve every entry
      alike and give the same result. */
  lemma LayoutsAgree(ss: seq<Symbol>, ptrs: seq<FunctionPtr>, now: seq<FunctionPtr>, strings: seq<Byte>)
    requires forall i :: 0 <= i < |ss| ==> Writable(32, ss[i])
    ensures AllResolved(now, ptrs, SymbolsOf(32, EncodeAll(32, ss)), strings) <==>
            AllResolved(now, ptrs, SymbolsOf(64, EncodeAll(64, ss)), strings)
    ensures SomeFound(ptrs, SymbolsOf(32, EncodeAll(32, ss)), strings) <==>
            SomeFound(ptrs, SymbolsOf(64, EncodeAll(64, ss)), strings)
  {
    TableRoundTrip(32, ss);
    TableRoundTrip(64, ss);
  }
}
