/** The entry of the function that current X-Plane versions let the plugin hook, as the repository's
    regression program records it: the premises about the moved block hold for it, in every memory. */
module Prologue {
  import opened Bytes
  import opened Decoder
  import opened LengthGrammar
  import opened HookSpace
  import opened Machine
  import opened Detour
  import opened Stub
  import opened Passage
  import opened Transparency
  import opened HookedCall

  // push rbp; push r15; push r14; push rbx; sub rsp, 24; mov r14d, ecx
  const PUSH_RBP: seq<Byte> := [0x55]
  const PUSH_R15: seq<Byte> := [0x41, 0x57]
  const PUSH_R14: seq<Byte> := [0x41, 0x56]
  const PUSH_RBX: seq<Byte> := [0x53]
  const SUB_RSP: seq<Byte> := [0x48, 0x83, 0xEC, 0x18]
  const MOV_R14: seq<Byte> := [0x41, 0x89, 0xCE]

  const STABLE: seq<Byte> :=
    [0x55, 0x41, 0x57, 0x41, 0x56, 0x53, 0x48, 0x83, 0xEC, 0x18, 0x41, 0x89, 0xCE]
  const LENS: seq<nat> := [1, 2, 2, 1, 4, 3]

  /** What the two instructions that are neither push nor pop do: they touch registers only. */
  ghost predicate KnowsPrologue(isa: Isa) {
    && (forall g: Regs :: isa.loads(SUB_RSP, g) == {} && isa.stores(SUB_RSP, g) == {})
    && (forall g: Regs :: isa.loads(MOV_R14, g) == {} && isa.stores(MOV_R14, g) == {})
    && (forall ip: nat, g: Regs, m: Mem :: g[RSP] >= 24 ==> isa.exec(SUB_RSP, ip, g, m) == (g[RSP := g[RSP] - 24], m))
    && (forall ip: nat, g: Regs, m: Mem :: isa.exec(MOV_R14, ip, g, m) == (g[14 := g[RCX] % TWO32], m))
  }

  lemma Measured(bs: seq<Byte>, k: nat)
    requires bs in [PUSH_RBP, PUSH_R15, PUSH_R14, PUSH_RBX, SUB_RSP, MOV_R14]
    requires k == |bs| - (if bs == SUB_RSP then 3 else if bs == MOV_R14 then 2 else 1)
    ensures Decode(bs) == Length(|bs|) && Regular(bs) && !RipRelative(bs)
  {
    PrefixRunIs(bs, k);
    hide PrefixRun;
  }

  // ---- the decoder finds these instructions

  lemma TileNext(code: seq<Byte>, off: nat, bs: seq<Byte>, rest: seq<nat>)
    requires off + |bs| <= |code| && code[off..off + |bs|] == bs && Decode(bs) == Length(|bs|)
    requires Tiles(At(code), off + |bs|, rest)
    ensures Tiles(At(code), off, [|bs|] + rest)
  {
    hide Decode;
    forall i | 0 <= i < |bs| ensures code[off..][i] == bs[i] {
      assert code[off..off + |bs|][i] == bs[i];
    }
    SelfDelimiting(bs, code[off..], |bs|);
    assert ([|bs|] + rest)[1..] == rest;
  }

  lemma StableTiles(code: seq<Byte>)
    requires STABLE <= code
    ensures Tiles(At(code), 0, LENS) && Sum(LENS) == 13
  {
    hide Decode, Regular, RipRelative, At, Tiles, Sum;
    Measured(PUSH_RBP, 0);
    Measured(PUSH_R15, 1);
    Measured(PUSH_R14, 1);
    Cut(code);
    StableTail(code);
    TileNext(code, 3, PUSH_R14, [1] + ([4] + ([3] + [])));
    TileNext(code, 1, PUSH_R15, [2] + ([1] + ([4] + ([3] + []))));
    TileNext(code, 0, PUSH_RBP, [2] + ([2] + ([1] + ([4] + ([3] + [])))));
    LensSpelled();
  }

  lemma StableTail(code: seq<Byte>)
    requires STABLE <= code
    ensures Tiles(At(code), 5, [1] + ([4] + ([3] + [])))
  {
    hide Decode, Regular, RipRelative, At, Tiles;
    Measured(PUSH_RBX, 0);
    Measured(SUB_RSP, 1);
    Measured(MOV_R14, 1);
    Empty(code);
    Cut(code);
    TileNext(code, 10, MOV_R14, []);
    TileNext(code, 6, SUB_RSP, [3] + []);
    TileNext(code, 5, PUSH_RBX, [4] + ([3] + []));
  }

  lemma Empty(code: seq<Byte>)
    ensures Tiles(At(code), 13, [])
  {
  }

  lemma Cut(code: seq<Byte>)
    requires STABLE <= code
    ensures code[0..1] == PUSH_RBP && code[1..3] == PUSH_R15 && code[3..5] == PUSH_R14
    ensures code[5..6] == PUSH_RBX && code[6..10] == SUB_RSP && code[10..13] == MOV_R14
  {
    assert forall i :: 0 <= i < 13 ==> code[i] == STABLE[i];
    assert code[0..1] == [code[0]] && code[1..3] == [code[1], code[2]] && code[3..5] == [code[3], code[4]];
    assert code[5..6] == [code[5]] && code[6..10] == [code[6], code[7], code[8], code[9]];
    assert code[10..13] == [code[10], code[11], code[12]];
  }

  lemma LensSpelled()
    ensures LENS == [1] + ([2] + ([2] + ([1] + ([4] + ([3] + [])))))
    ensures Sum(LENS) == 13
  {
    assert LENS[1..] == [2, 2, 1, 4, 3] && LENS[1..][1..] == [2, 1, 4, 3] && LENS[1..][1..][1..] == [1, 4, 3];
    assert LENS[1..][1..][1..][1..] == [4, 3] && LENS[1..][1..][1..][1..][1..] == [3];
    assert Sum([3]) == 3 && Sum([4, 3]) == 7 by { assert [4, 3][1..] == [3]; assert [3][1..] == []; }
    assert Sum([1, 4, 3]) == 8 && Sum([2, 1, 4, 3]) == 10 by {
      assert [1, 4, 3][1..] == [4, 3] && [2, 1, 4, 3][1..] == [1, 4, 3];
    }
    assert Sum([2, 2, 1, 4, 3]) == 12 by { assert [2, 2, 1, 4, 3][1..] == [2, 1, 4, 3]; }
  }

  /** `get_hook_space` answers 13, as the regression program expects. */
  lemma StableHookBoundary(code: seq<Byte>)
    requires STABLE <= code
    ensures HookBoundary(At(code), 13)
  {
    StableTiles(code);
    AtPositive(code);
    hide At, HookBoundary;
    TilesPrefix(At(code), 0, LENS, 5);
    NextDecodes(At(code), 0, LENS[..5], LENS);
    SumAppend(LENS[..5], 3);
    assert LENS == LENS[..5] + [3];
    SettledByLength(At(code), LENS[..5], 3);
  }

  /** The entry of a beta version, which the regression program records as well. */
  const BETA: seq<Byte> :=
    [0x55, 0x41, 0x56, 0x53, 0x48, 0x83, 0xEC, 0x20, 0x89, 0xCB, 0xF6, 0x06, 0x01]

  lemma BetaPushes()
    ensures Decode([0x55]) == Length(1) && Decode([0x41, 0x56]) == Length(2) && Decode([0x53]) == Length(1)
  {
    PrefixRunIs([0x55], 0);
    PrefixRunIs([0x41, 0x56], 1);
    PrefixRunIs([0x53], 0);
    hide PrefixRun;
  }

  lemma BetaOthers()
    ensures Decode([0x48, 0x83, 0xEC, 0x20]) == Length(4) && Decode([0x89, 0xCB]) == Length(2)
    ensures Decode([0xF6, 0x06, 0x01]) == Length(3)
  {
    PrefixRunIs([0x48, 0x83, 0xEC, 0x20], 1);
    PrefixRunIs([0x89, 0xCB], 0);
    PrefixRunIs([0xF6, 0x06, 0x01], 0);
    hide PrefixRun;
  }

  lemma BetaCut(code: seq<Byte>)
    requires BETA <= code
    ensures code[0..1] == [0x55] && code[1..3] == [0x41, 0x56] && code[3..4] == [0x53]
    ensures code[4..8] == [0x48, 0x83, 0xEC, 0x20] && code[8..10] == [0x89, 0xCB] && code[10..13] == [0xF6, 0x06, 0x01]
  {
    assert forall i :: 0 <= i < 13 ==> code[i] == BETA[i];
    assert code[0..1] == [code[0]] && code[1..3] == [code[1], code[2]] && code[3..4] == [code[3]];
    assert code[4..8] == [code[4], code[5], code[6], code[7]] && code[8..10] == [code[8], code[9]];
    assert code[10..13] == [code[10], code[11], code[12]];
  }

  lemma BetaTiles(code: seq<Byte>)
    requires BETA <= code
    ensures Tiles(At(code), 0, [1] + ([2] + ([1] + ([4] + ([2] + [])))))
    ensures At(code)(10) == Length(3)
  {
    hide Decode, At, Tiles;
    BetaPushes();
    BetaOthers();
    BetaCut(code);
    NoTiles(code, 10);
    DecodedAt(code, 10, [0xF6, 0x06, 0x01]);
    TileNext(code, 8, [0x89, 0xCB], []);
    TileNext(code, 4, [0x48, 0x83, 0xEC, 0x20], [2] + []);
    TileNext(code, 3, [0x53], [4] + ([2] + []));
    TileNext(code, 1, [0x41, 0x56], [1] + ([4] + ([2] + [])));
    TileNext(code, 0, [0x55], [2] + ([1] + ([4] + ([2] + []))));
  }

  lemma NoTiles(code: seq<Byte>, off: nat)
    ensures Tiles(At(code), off, [])
  {
  }

  lemma DecodedAt(code: seq<Byte>, off: nat, bs: seq<Byte>)
    requires off + |bs| <= |code| && code[off..off + |bs|] == bs && Decode(bs) == Length(|bs|)
    ensures At(code)(off) == Length(|bs|)
  {
    hide Decode;
    forall i | 0 <= i < |bs| ensures code[off..][i] == bs[i] {
      assert code[off..off + |bs|][i] == bs[i];
    }
    SelfDelimiting(bs, code[off..], |bs|);
  }

  /** Here, too, `get_hook_space` answers 13. */
  lemma BetaHookBoundary(code: seq<Byte>)
    requires BETA <= code
    ensures HookBoundary(At(code), 13)
  {
    hide At, HookBoundary, Tiles;
    var lens: seq<nat> := [1] + ([2] + ([1] + ([4] + ([2] + []))));
    BetaTiles(code);
    BetaSum();
    AtPositive(code);
    SettledByLength(At(code), lens, 3);
  }

  lemma BetaSum()
    ensures Sum([1] + ([2] + ([1] + ([4] + ([2] + []))))) == 10
  {
    hide Sum;
    SumNext(2, []);
    SumNext(4, [2] + []);
    SumNext(1, [4] + ([2] + []));
    SumNext(2, [1] + ([4] + ([2] + [])));
    SumNext(1, [2] + ([1] + ([4] + ([2] + []))));
    NoSum();
  }

  lemma SumNext(n: nat, rest: seq<nat>)
    ensures Sum([n] + rest) == n + Sum(rest)
  {
    assert ([n] + rest)[1..] == rest;
  }

  lemma NoSum()
    ensures Sum([]) == 0
  {
  }

  // ---- and they satisfy the premises on the moved block

  /** `s` stands before `code`, the end of the moved entry, with room on the stack. */
  ghost predicate Stands(site: Site, s: Cpu, code: seq<Byte>, room: nat) {
    && site.proc <= s.rip && s.rip + |code| == site.proc + site.copy && CodeAt(s.mem, s.rip, code)
    && site.low + 8 + room <= s.regs[RSP] <= site.top <= |s.mem|
    && Clear(site.low, site.top, site.proc, site.copy) && Clear(site.low, site.top, site.tramp, site.Used())
  }

  lemma PushNext(env: Env, site: Site, s: Cpu, r: Reg, rest: seq<Byte>, room: nat, dirty: set<int>)
    requires Stands(site, s, PushBytes(r) + rest, room + 8) && r != RSP
    requires Regular(PushBytes(r)) && !RipRelative(PushBytes(r))
    ensures InsnOk(env, site, s, PushBytes(r), dirty)
    ensures TableEffect(env.isa, PushBytes(r), s.rip + |PushBytes(r)|, s.regs, s.mem).Effect?
    ensures CodeAt(s.mem, s.rip, PushBytes(r)) && Stands(site, After(env, s, PushBytes(r)), rest, room)
    ensures Stores(env.isa, PushBytes(r), s.regs) == Below(s.regs[RSP])
    ensures After(env, s, PushBytes(r)).regs[RSP] == s.regs[RSP] - 8
  {
    PushMeasured(r);
    hide Regular, RipRelative, PushBytes, IsPop, IsPush, StackReg, CodeAt, Length64, ToLE;
    CodeSplit(s.mem, s.rip, PushBytes(r), rest);
    var t := After(env, s, PushBytes(r));
    var sp := s.regs[RSP];
    assert SameOutside(s.mem, t.mem, sp - 8, sp);
    KeptWhenClear(s.mem, t.mem, sp - 8, sp, t.rip, |rest|);
    CodeKept(s.mem, t.mem, t.rip, rest);
  }

  lemma PlainNext(env: Env, site: Site, s: Cpu, bs: seq<Byte>, rest: seq<Byte>, room: nat, dirty: set<int>)
    requires KnowsPrologue(env.isa) && (bs == SUB_RSP || bs == MOV_R14)
    requires Stands(site, s, bs + rest, room + 24) && Regular(bs) && !RipRelative(bs)
    ensures InsnOk(env, site, s, bs, dirty)
    ensures CodeAt(s.mem, s.rip, bs) && Stands(site, After(env, s, bs), rest, if bs == SUB_RSP then room else room + 24)
  {
    hide Regular, RipRelative, CodeAt;
    CodeSplit(s.mem, s.rip, bs, rest);
  }

  /** The premises hold for the instructions of these lengths, and `left` stays dirty behind them. */
  ghost predicate Passes(env: Env, site: Site, s: Cpu, lens: seq<nat>, dirty: set<int>, left: set<int>) {
    BlockOk(env, site, s, lens, dirty) && DirtyAfter(env, site, s, lens, dirty) == left
  }

  lemma BlockCons(env: Env, site: Site, s: Cpu, bs: seq<Byte>, rest: seq<nat>, dirty: set<int>, left: set<int>)
    requires |bs| <= 15 && CodeAt(s.mem, s.rip, bs) && InsnOk(env, site, s, bs, dirty)
    requires Passes(env, site, After(env, s, bs), rest, dirty - Stores(env.isa, bs, s.regs), left)
    ensures Passes(env, site, s, [|bs|] + rest, dirty, left)
  {
    hide InsnOk, Stores;
    CodeIs(s.mem, s.rip, bs);
    assert ([|bs|] + rest)[1..] == rest;
  }

  lemma BlockEnds(env: Env, site: Site, s: Cpu, dirty: set<int>)
    requires Stands(site, s, [], 0)
    ensures Passes(env, site, s, [], dirty, dirty)
  {
  }

  lemma Regrouped()
    ensures STABLE == PushBytes(RBP) + (PushBytes(15) + (PushBytes(14) + (PushBytes(RBX) + (SUB_RSP + (MOV_R14 + [])))))
    ensures PushBytes(RBP) == PUSH_RBP && PushBytes(15) == PUSH_R15 && PushBytes(14) == PUSH_R14
    ensures PushBytes(RBX) == PUSH_RBX && |SUB_RSP| == 4 && |MOV_R14| == 3
  {
  }

  /** The four words that the entry pushes. */
  function SavedWords(sp: int): set<int> {
    Span(sp - 32, sp)
  }

  /** The premises about the moved block, and what it leaves dirty: all but the words it pushes. */
  lemma StableBlockOk(env: Env, site: Site, s: Cpu, dirty: set<int>)
    requires KnowsPrologue(env.isa) && Stands(site, s, STABLE, 56)
    ensures BlockOk(env, site, s, LENS, dirty)
    ensures DirtyAfter(env, site, s, LENS, dirty) == dirty - SavedWords(s.regs[RSP])
  {
    hide Stands, BlockOk, DirtyAfter, KnowsPrologue, PushBytes, Sum, Below, SavedWords;
    Regrouped();
    LensSpelled();
    FourWords(s.regs[RSP], dirty);
    FirstHalfOk(env, site, s, dirty);
  }

  const REST: seq<nat> := [4] + ([3] + [])

  lemma FirstHalfOk(env: Env, site: Site, s: Cpu, dirty: set<int>)
    requires KnowsPrologue(env.isa)
    requires Stands(site, s, PushBytes(RBP) + (PushBytes(15) + (PushBytes(14) + (PushBytes(RBX) +
                               (SUB_RSP + (MOV_R14 + []))))), 56)
    ensures var sp: int := s.regs[RSP];
            Passes(env, site, s, [1] + ([2] + ([2] + ([1] + REST))), dirty,
                   dirty - Below(sp) - Below(sp - 8) - Below(sp - 16) - Below(sp - 24))
  {
    hide Decode, Regular, RipRelative, Stands, InsnOk, Passes, After, Stores, KnowsPrologue, CodeAt, PushBytes, Below;
    Measured(PUSH_RBP, 0);
    Measured(PUSH_R15, 1);
    Regrouped();
    var sp: int := s.regs[RSP];
    var e2 := PushBytes(14) + (PushBytes(RBX) + (SUB_RSP + (MOV_R14 + [])));
    var left := dirty - Below(sp) - Below(sp - 8) - Below(sp - 16) - Below(sp - 24);
    PushNext(env, site, s, RBP, PushBytes(15) + e2, 48, dirty);
    var a, da := After(env, s, PushBytes(RBP)), dirty - Below(sp);
    PushNext(env, site, a, 15, e2, 40, da);
    var b, db := After(env, a, PushBytes(15)), da - Below(sp - 8);
    SecondHalfOk(env, site, b, db);
    BlockCons(env, site, a, PushBytes(15), [2] + ([1] + REST), da, left);
    BlockCons(env, site, s, PushBytes(RBP), [2] + ([2] + ([1] + REST)), dirty, left);
  }

  lemma SecondHalfOk(env: Env, site: Site, b: Cpu, dirty: set<int>)
    requires KnowsPrologue(env.isa)
    requires Stands(site, b, PushBytes(14) + (PushBytes(RBX) + (SUB_RSP + (MOV_R14 + []))), 40)
    ensures Passes(env, site, b, [2] + ([1] + REST), dirty, dirty - Below(b.regs[RSP]) - Below(b.regs[RSP] - 8))
  {
    hide Decode, Regular, RipRelative, Stands, InsnOk, Passes, After, Stores, KnowsPrologue, CodeAt, PushBytes, Below;
    Measured(PUSH_R14, 1);
    Measured(PUSH_RBX, 0);
    Measured(SUB_RSP, 1);
    Measured(MOV_R14, 1);
    Regrouped();
    var sp: int := b.regs[RSP];
    var e1 := SUB_RSP + (MOV_R14 + []);
    var left := dirty - Below(sp) - Below(sp - 8);
    PushNext(env, site, b, 14, PushBytes(RBX) + e1, 32, dirty);
    var c, dc := After(env, b, PushBytes(14)), dirty - Below(sp);
    PushNext(env, site, c, RBX, e1, 24, dc);
    var d := After(env, c, PushBytes(RBX));
    EndOk(env, site, d, left);
    BlockCons(env, site, c, PushBytes(RBX), REST, dc, left);
    BlockCons(env, site, b, PushBytes(14), [1] + REST, dirty, left);
  }

  lemma FourWords(sp: int, dirty: set<int>)
    ensures dirty - Below(sp) - Below(sp - 8) - Below(sp - 16) - Below(sp - 24) ==
            dirty - SavedWords(sp)
  {
  }

  lemma EndOk(env: Env, site: Site, d: Cpu, dirty: set<int>)
    requires KnowsPrologue(env.isa) && Stands(site, d, SUB_RSP + (MOV_R14 + []), 24)
    requires Regular(SUB_RSP) && !RipRelative(SUB_RSP) && Regular(MOV_R14) && !RipRelative(MOV_R14)
    ensures Passes(env, site, d, REST, dirty, dirty)
  {
    StoresNothing(env.isa, d.regs, dirty);
    hide Regular, RipRelative, InsnOk, Passes, After, Stores, KnowsPrologue, CodeAt;
    PlainNext(env, site, d, SUB_RSP, MOV_R14 + [], 0, dirty);
    MovOk(env, site, After(env, d, SUB_RSP), dirty);
    BlockCons(env, site, d, SUB_RSP, [3] + [], dirty, dirty);
  }

  lemma StoresNothing(isa: Isa, g: Regs, dirty: set<int>)
    requires KnowsPrologue(isa)
    ensures dirty - Stores(isa, SUB_RSP, g) == dirty && dirty - Stores(isa, MOV_R14, g) == dirty
  {
  }

  lemma MovOk(env: Env, site: Site, e: Cpu, dirty: set<int>)
    requires KnowsPrologue(env.isa) && Stands(site, e, MOV_R14 + [], 0)
    requires Regular(MOV_R14) && !RipRelative(MOV_R14)
    ensures Passes(env, site, e, [3] + [], dirty, dirty)
  {
    StoresNothing(env.isa, e.regs, dirty);
    hide Regular, RipRelative, Passes;
    CodeSplit(e.mem, e.rip, MOV_R14, []);
    BlockEnds(env, site, After(env, e, MOV_R14), dirty);
    BlockCons(env, site, e, MOV_R14, [], dirty, dirty);
  }

  /** What is left of the premises for this function: the pieces are laid out, and the callback and the
      effects of the two plain instructions are as they should be. */
  lemma StablePremises(env: Env, site: Site, owned: set<int>, m: Mem, g: Regs)
    requires Underway(env, site, owned, m, g) && site.copy == 13 && CodeAt(m, site.proc, STABLE)
    requires AbiCallback(env, site, owned, Hooked(m, site), g)
    requires LocalIsa(env.isa) && KnowsPrologue(env.isa)
    ensures Premises(env, site, owned, m, g, LENS)
  {
    hide Hooked, Underway, AbiCallback, LocalIsa, KnowsPrologue, At, BlockOk, DirtyAtEntry, Tiles, Sum, Stands;
    FromProc(m, site.proc);
    StableTiles(m[site.proc..]);
    Starts(env, site, owned, m, g);
    StableBlockOk(env, site, Cpu(site.proc, g, m, []), DirtyAtEntry(site, g, owned));
  }

  /** The hook on this function is transparent in every memory in which the pieces are laid out, for
      every callback that obeys the ABI and every entry state with an aligned stack; the saved rbp, r15, r14
      and rbx are on the stack as without the hook. */
  lemma StablePrologueIsTransparent(env: Env, site: Site, owned: set<int>, m: Mem, g: Regs)
    returns (n: nat, t: Cpu, u: Cpu)
    requires Underway(env, site, owned, m, g) && site.copy == 13 && CodeAt(m, site.proc, STABLE)
    requires AbiCallback(env, site, owned, Hooked(m, site), g)
    requires LocalIsa(env.isa) && KnowsPrologue(env.isa)
    ensures Run(env, Cpu(site.proc, g, Hooked(m, site), []), n) == Go(t)
    ensures Run(env, Cpu(site.proc, g, m, []), 6) == Go(u)
    ensures t.rip == u.rip == site.proc + 13 && t.regs == u.regs
    ensures t.calls == [Call(g[RSP] - 80, g[RDI], g[RSI], g[RDX])] && u.calls == []
    ensures Agree(u.mem, t.mem, DirtyAtEntry(site, g, owned) - SavedWords(g[RSP]) + Below(u.regs[RSP]))
  {
    hide Run, Hooked, Underway, AbiCallback, LocalIsa, KnowsPrologue, At, BlockOk, DirtyAfter, Agree, DirtyAtEntry,
      Tiles, Sum, Stands;
    StablePremises(env, site, owned, m, g);
    Starts(env, site, owned, m, g);
    StableBlockOk(env, site, Cpu(site.proc, g, m, []), DirtyAtEntry(site, g, owned));
    n, t, u := DetourIsTransparent(env, site, owned, m, g, LENS);
  }

  lemma FromProc(m: Mem, proc: nat)
    requires CodeAt(m, proc, STABLE)
    ensures STABLE <= m[proc..]
  {
    assert m[proc..proc + 13] == m[proc..][..13];
  }

  lemma Starts(env: Env, site: Site, owned: set<int>, m: Mem, g: Regs)
    requires Underway(env, site, owned, m, g) && site.copy == 13 && CodeAt(m, site.proc, STABLE)
    ensures Stands(site, Cpu(site.proc, g, m, []), STABLE, 56)
  {
    hide Fixture, OwnedApart, CodeAt;
  }

  // ---- a refused unprotect

  /** A function that does not begin with `push rax` is not patched when only the copy has been made. */
  lemma CopyIsNotInstallation(m: Mem, proc: nat, copy: nat, hook: Word, tramp: nat)
    requires Room(m, proc, copy, tramp) && m[proc] != 0x50
    ensures Copied(m, proc, copy, tramp) != Installed(m, proc, copy, hook, tramp)
  {
    hide Installed, TailBytes, ToLE;
    InstalledLayout(m, proc, copy, hook, tramp);
    var r := Installed(m, proc, copy, hook, tramp);
    assert r[proc..proc + 13][0] == r[proc] && EntryBytes(hook)[0] == 0x50;
  }

  /** With the recorded entry at address 100, its page refused: `hook` returns true, the trampoline holds
      the copy, and the function is not patched. */
  method RefusedUnprotect(hook: Word, callback: Word) returns (r: bool, was: seq<Byte>, now: seq<Byte>)
    ensures r && |was| == 8192 && was[100..113] == STABLE
    ensures var m: Mem := Put(was, 5000, ToLE(callback, 8));
            && HookBoundary(At(m[100..]), 13) && Room(m, 100, 13, 4096)
            && now == Copied(m, 100, 13, 4096) && now != Installed(m, 100, 13, hook, 4096)
  {
    hide At, HookBoundary, Put, ToLE, Installed, Copied;
    var mem := new Byte[8192](i => if 100 <= i < 113 then STABLE[i - 100] else 0);
    was := mem[..];
    var p := new Process(mem, 4096, hook, 5000, [callback, callback, callback], {4096});
    OnlyBoundary(was, ToLE(callback, 8));
    r := p.Hook(100, 0, true, false, true);
    now := mem[..];
    CopyIsNotInstallation(Put(was, 5000, ToLE(callback, 8)), 100, 13, hook, 4096);
  }

  lemma OnlyBoundary(was: Mem, bs: seq<Byte>)
    requires |was| == 8192 && was[100..113] == STABLE && |bs| == 8
    ensures var m := Put(was, 5000, bs);
            && HookBoundary(At(m[100..]), 13) && Room(m, 100, 13, 4096) && m[100] == 0x55
            && forall d: nat :: HookBoundary(At(m[100..]), d) ==> d == 13
  {
    hide At, Boundary;
    var m := Put(was, 5000, bs);
    assert m[100..113] == was[100..113];
    FromProc(m, 100);
    StableHookBoundary(m[100..]);
  }

  // ---- the premises can be met

  function Exec(bs: seq<Byte>, ip: nat, g: Regs, m: Mem): (Regs, Mem) {
    if bs == SUB_RSP && g[RSP] >= 24 then (g[RSP := g[RSP] - 24], m)
    else if bs == MOV_R14 then (g[14 := g[RCX] % TWO32], m)
    else (g, m)
  }

  function Nothing(bs: seq<Byte>, g: Regs): set<int> { {} }

  /** A callback with a frame: it pushes rbx, notes its first argument in its own memory, pops rbx,
      clears rax and returns. */
  function Noting(g: Regs, m: Mem): (Regs, Mem) {
    var sp := g[RSP];
    if 8 <= sp <= |m| && sp + 8 < TWO64 && 958 <= |m| then
      (g[RSP := sp + 8][RAX := 0], Put(Put(m, sp - 8, ToLE(g[RBX], 8)), 950, ToLE(g[RDI], 8)))
    else (g, m)
  }

  ghost const ENV: Env := Env(Isa(Exec, Nothing, Nothing), 900, Noting)
  const SITE: Site := Site(100, 13, 4096, 300, 400, 408, 416, 600, 840)
  const OWNED: set<int> := Span(950, 958)

  /** Its calls by the stub obey the ABI, and the instruction effects are local. */
  lemma EnvObeys(r: Mem, g: Regs)
    requires |r| == 8192 && g[RSP] == 840
    ensures LocalIsa(ENV.isa) && KnowsPrologue(ENV.isa) && AbiCallback(ENV, SITE, OWNED, r, g)
  {
    hide ToLE;
    forall bs: seq<Byte>, ip: nat, ip': nat, g: Regs, m: Mem, m': Mem
      ensures LocalAt(ENV.isa, bs, ip, ip', g, m, m')
    {
    }
    forall h: Regs, m: Mem | StubCall(SITE, r, g, h, m) ensures ObeysAbi(ENV, SITE, OWNED, h, m) {
      assert h[RSP] == 760;
    }
  }

  lemma LayoutHolds()
    ensures Layout(SITE, ENV, 8192) && OwnedApart(SITE, OWNED) && SITE.DispKuk() == 81 && SITE.DispTramp() == 68
  {
  }

  lemma WordStays(m: Mem, a: nat, bs: seq<Byte>, at: nat)
    requires a + |bs| <= |m| && at + 8 <= |m| && (at + 8 <= a || a + |bs| <= at)
    ensures ReadWord(Put(m, a, bs), at) == ReadWord(m, at)
  {
    hide ReadWord;
    WordKept(m, Put(m, a, bs), at);
  }

  lemma CodeStays(m: Mem, a: nat, bs: seq<Byte>, at: nat, code: seq<Byte>)
    requires a + |bs| <= |m| && CodeAt(m, at, code) && (at + |code| <= a || a + |bs| <= at)
    ensures CodeAt(Put(m, a, bs), at, code)
  {
    hide CodeAt;
    CodeKept(m, Put(m, a, bs), at, code);
  }

  lemma CodePut(m: Mem, a: nat, bs: seq<Byte>)
    requires a + |bs| <= |m|
    ensures CodeAt(Put(m, a, bs), a, bs)
  {
  }

  ghost predicate CodeInPlace(m: Mem) {
    |m| == 8192 && CodeAt(m, 100, STABLE) && CodeAt(m, 300, StubBytes(81, 68)) && |StubBytes(81, 68)| == 40
  }

  lemma PlaceCode() returns (m: Mem)
    ensures CodeInPlace(m)
  {
    hide StubBytes, CodeAt, Put;
    StubSize(81, 68);
    var zero: Mem := seq(8192, _ => 0);
    m := Put(Put(zero, 100, STABLE), 300, StubBytes(81, 68));
    CodePut(zero, 100, STABLE);
    CodeStays(Put(zero, 100, STABLE), 300, StubBytes(81, 68), 100, STABLE);
    CodePut(Put(zero, 100, STABLE), 300, StubBytes(81, 68));
  }

  lemma PlaceWord(m: Mem, at: nat, w: Word) returns (r: Mem)
    requires CodeInPlace(m) && 400 <= at <= 8184
    ensures CodeInPlace(r) && r == Put(m, at, ToLE(w, 8)) && ReadWord(r, at) == w
  {
    hide StubBytes, CodeAt, Put, ToLE, ReadWord;
    r := Put(m, at, ToLE(w, 8));
    CodeStays(m, at, ToLE(w, 8), 100, STABLE);
    CodeStays(m, at, ToLE(w, 8), 300, StubBytes(81, 68));
    WordWritten(m, at, w);
  }

  /** A memory before `hook`, and an entry state, from which the hook can be installed; and with `kuk` set
      the whole of the premises of the detour theorem holds. */
  lemma PremisesCanBeMet() returns (was: Mem, g: Regs)
    ensures |was| == 8192 && g[RSP] == 840 && Hookable(ENV, SITE, OWNED, was, g)
    ensures Premises(ENV, SITE, OWNED, WithKuk(was, SITE, 900), g, LENS)
  {
    hide StubBytes, Layout, ReadWord, CodeAt, Put, ToLE, Hookable, Premises, OwnedApart, WithKuk;
    LayoutHolds();
    g := seq(16, i => if i == RSP then 840 else 0);
    var m2 := PlaceCode();
    var m3 := PlaceWord(m2, 400, 416);
    was := PlaceWord(m3, 408, 4096);
    WordStays(m3, 408, ToLE(4096, 8), 400);
    AllMet(was, g);
  }

  lemma AllMet(was: Mem, g: Regs)
    requires Ready(ENV, SITE, OWNED, was, g) && |was| == 8192 && g[RSP] == 840 && CodeAt(was, SITE.proc, STABLE)
    ensures Premises(ENV, SITE, OWNED, WithKuk(was, SITE, 900), g, LENS) && Hookable(ENV, SITE, OWNED, was, g)
  {
    hide Ready, Underway, AbiCallback, LocalIsa, KnowsPrologue, CodeAt, Hooked, At, BlockOk, DirtyAtEntry, HookBoundary,
      Tiles, Sum, ToLE;
    KukStored(ENV, SITE, OWNED, was, g);
    var m := WithKuk(was, SITE, 900);
    CodeStays(was, SITE.kuk, ToLE(900, 8), SITE.proc, STABLE);
    HookedSize(m);
    EnvObeys(Hooked(m, SITE), g);
    StablePremises(ENV, SITE, OWNED, m, g);
    FromProc(m, SITE.proc);
    StableHookBoundary(m[SITE.proc..]);
    AtPositive(m[SITE.proc..]);
    MovedIs(At(m[SITE.proc..]), 13, LENS);
  }

  lemma HookedSize(m: Mem)
    requires |m| == 8192
    ensures Room(m, SITE.proc, SITE.copy, SITE.tramp) && SITE.hook < TWO64 && |Hooked(m, SITE)| == 8192
  {
    hide Installed;
  }
}
