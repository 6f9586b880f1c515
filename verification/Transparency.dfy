/** The detour as a whole: a hooked function behaves as before, but for one call of the callback. */
module Transparency {
  import opened Bytes
  import opened Decoder
  import opened LengthGrammar
  import opened HookSpace
  import opened Machine
  import opened Detour
  import opened Stub
  import opened Passage

  // ---- the way back

  /** The sign-extended push and the store of the high half leave exactly the resume address. */
  lemma ResumeWord(m: Mem, a: nat, resume: Word)
    requires a + 8 <= |m|
    ensures var pushed := Put(m, a, ToLE(SignExtend(LowDword(resume)), 8));
            ReadWord(Put(pushed, a + 4, ToLE(HighDword32(resume), 4)), a) == resume
  {
    var lo, hi := LowDword(resume), HighDword32(resume);
    var pushed := Put(m, a, ToLE(SignExtend(lo), 8));
    var r := Put(pushed, a + 4, ToLE(hi, 4));
    ResumeBytes(resume);
    hide ToLE, SignExtend, LowDword, HighDword32, Put;
    assert pushed[a..a + 8][..4] == pushed[a..a + 4];
    assert r[a..a + 8] == r[a..a + 4] + r[a + 4..a + 8];
    assert r[a..a + 4] == pushed[a..a + 4];
    Word64OfLE(resume);
  }

  lemma ResumeBytes(resume: Word)
    ensures ToLE(SignExtend(LowDword(resume)), 8)[..4] + ToLE(HighDword32(resume), 4) == ToLE(resume, 8)
  {
    var lo, hi := LowDword(resume), HighDword32(resume);
    hide ToLE;
    Pow256Values();
    SplitLE(SignExtend(lo), 4, 4);
    SplitLE(resume, 4, 4);
    HighDword(resume);
    LowBytes(lo, hi, 4);
    if lo >= 0x8000_0000 {
      LowBytes(lo, TWO32 - 1, 4);
    }
  }

  lemma Push32One(env: Env, s: Cpu, v: nat)
    requires v < TWO32 && s.rip != env.callback && CodeAt(s.mem, s.rip, EmitBytes(Push32(v)))
    requires 8 <= s.regs[RSP] <= |s.mem|
    ensures Step(env, s) == Go(Cpu(s.rip + 5, s.regs[RSP := s.regs[RSP] - 8],
                                   Put(s.mem, s.regs[RSP] - 8, ToLE(SignExtend(v), 8)), s.calls))
  {
    hide Step, CodeAt, ToLE, Put, SignExtend;
    StepEmitted(env, s, Push32(v));
  }

  lemma StoreHighOne(env: Env, s: Cpu, v: nat)
    requires v < TWO32 && s.rip != env.callback && CodeAt(s.mem, s.rip, EmitBytes(StoreHigh(v)))
    requires s.regs[RSP] + 8 <= |s.mem|
    ensures Step(env, s) == Go(s.(rip := s.rip + 8, mem := Put(s.mem, s.regs[RSP] + 4, ToLE(v, 4))))
  {
    hide Step, CodeAt, ToLE, Put;
    StepEmitted(env, s, StoreHigh(v));
  }

  ghost predicate TailAt(m: Mem, at: nat, resume: Word) {
    && CodeAt(m, at, EmitBytes(Push32(LowDword(resume))))
    && CodeAt(m, at + 5, EmitBytes(StoreHigh(HighDword32(resume))))
    && CodeAt(m, at + 13, EmitBytes(Ret))
    && |EmitBytes(Push32(LowDword(resume)))| == 5 && |EmitBytes(StoreHigh(HighDword32(resume)))| == 8
    && |EmitBytes(Ret)| == 1
  }

  lemma TailPieces(m: Mem, at: nat, resume: Word)
    requires CodeAt(m, at, TailBytes(resume))
    ensures TailAt(m, at, resume)
  {
    hide CodeAt, ToLE;
    var p, h, r := EmitBytes(Push32(LowDword(resume))), EmitBytes(StoreHigh(HighDword32(resume))), EmitBytes(Ret);
    CodeSplit(m, at, p + h, r);
    CodeSplit(m, at, p, h);
  }

  lemma TailKept(m: Mem, m': Mem, lo: int, hi: int, at: nat, resume: Word)
    requires TailAt(m, at, resume) && SameOutside(m, m', lo, hi) && Clear(lo, hi, at, 14)
    ensures TailAt(m', at, resume)
  {
    hide CodeAt, EmitBytes, SameOutside;
    KeptWhenClear(m, m', lo, hi, at, 5);
    KeptWhenClear(m, m', lo, hi, at + 5, 8);
    KeptWhenClear(m, m', lo, hi, at + 13, 1);
    CodeKept(m, m', at, EmitBytes(Push32(LowDword(resume))));
    CodeKept(m, m', at + 5, EmitBytes(StoreHigh(HighDword32(resume))));
    CodeKept(m, m', at + 13, EmitBytes(Ret));
  }

  /** The way back reaches the resume address, for every 64-bit address, with the registers and the
      stack pointer as they were; it writes only the eight bytes below rsp. */
  lemma ResumeRun(env: Env, s: Cpu, resume: Word) returns (t: Cpu)
    requires CodeAt(s.mem, s.rip, TailBytes(resume)) && NotIn(env.callback, s.rip, 14)
    requires 8 <= s.regs[RSP] <= |s.mem| && Clear(s.regs[RSP] - 8, s.regs[RSP], s.rip, 14)
    ensures Run(env, s, 3) == Go(t)
    ensures t.rip == resume && t.regs == s.regs && t.calls == s.calls
    ensures SameOutside(s.mem, t.mem, s.regs[RSP] - 8, s.regs[RSP])
  {
    hide Run, Step, CodeAt, ReadWord, EmitBytes, TailBytes, ToLE, Put, SignExtend, LowDword, HighDword32;
    var sp, at, lo, hi := s.regs[RSP], s.rip, LowDword(resume), HighDword32(resume);
    Dwords(resume);
    TailPieces(s.mem, at, resume);
    Push32One(env, s, lo);
    var a := Cpu(at + 5, s.regs[RSP := sp - 8], Put(s.mem, sp - 8, ToLE(SignExtend(lo), 8)), s.calls);
    TailKept(s.mem, a.mem, sp - 8, sp, at, resume);
    StoreHighOne(env, a, hi);
    var b := a.(rip := at + 13, mem := Put(a.mem, sp - 8 + 4, ToLE(hi, 4)));
    TailKept(s.mem, b.mem, sp - 8, sp, at, resume);
    RetOne(env, b);
    ResumeWord(s.mem, sp - 8, resume);
    t := b.(rip := resume, regs := s.regs);
    assert b.regs[RSP := sp] == s.regs;
    RunNone(env, s);
    RunThen(env, s, 0, s, a);
    RunThen(env, s, 1, a, b);
    RunThen(env, s, 2, b, t);
  }

  lemma Dwords(w: Word)
    ensures LowDword(w) < TWO32 && HighDword32(w) < TWO32
  {
  }

  // ---- instructions of the table

  /** A ModRM operand addressed relative to the instruction pointer. */
  predicate RipRelative(bs: seq<Byte>) {
    var k := PrefixRun(bs);
    k + 1 < |bs| && Table(bs[k]).modrm && bs[k + 1] < 0x40 && bs[k + 1] % 8 == 5
  }

  /** In terms of the fields: mod 0 and rm 5. */
  lemma RipRelativeFields(i: Insn)
    requires WellFormed(i)
    ensures RipRelative(Encode(i)) <==> i.modrm.Some? && i.modrm.value.mod == 0 && i.modrm.value.rm == 5
  {
    var k := |i.prefixes|;
    SamePrefixes();
    FormIsNoPrefix(i.op);
    hide PrefixRun, IsPrefix, Prefix64, ImmSize, DispOf;
    assert Encode(i) + [] == Encode(i);
    Spelled(i, []);
    PrefixRunIs(Encode(i), k);
  }

  ghost predicate SameOn(m: Mem, m': Mem, s: set<int>) {
    forall x :: 0 <= x < |m| && x < |m'| && x in s ==> m[x] == m'[x]
  }

  ghost predicate ChangesOnly(m: Mem, m': Mem, s: set<int>) {
    |m| == |m'| && forall x :: 0 <= x < |m| && x !in s ==> m'[x] == m[x]
  }

  /** What is asked of the effects that are a parameter: an instruction without rip-relative operand
      does the same wherever it stands, as long as its registers and the bytes it loads are the same,
      and changes no byte but those it stores to. */
  ghost predicate LocalIsa(isa: Isa) {
    forall bs: seq<Byte>, ip: nat, ip': nat, g: Regs, m: Mem, m': Mem ::
      !RipRelative(bs) && |m| == |m'| && SameOn(m, m', isa.loads(bs, g)) ==> LocalAt(isa, bs, ip, ip', g, m, m')
  }

  ghost predicate LocalAt(isa: Isa, bs: seq<Byte>, ip: nat, ip': nat, g: Regs, m: Mem, m': Mem) {
    var r, r' := isa.exec(bs, ip, g, m), isa.exec(bs, ip', g, m');
    && r.0 == r'.0
    && ChangesOnly(m, r.1, isa.stores(bs, g)) && ChangesOnly(m', r'.1, isa.stores(bs, g))
    && SameOn(r.1, r'.1, isa.stores(bs, g))
  }

  /** The addresses from `lo` up to `hi`. */
  function Span(lo: int, hi: int): (s: set<int>)
    ensures forall x :: x in s <==> lo <= x < hi
    decreases hi - lo
  {
    if hi <= lo then {} else {lo} + Span(lo + 1, hi)
  }

  function Loads(isa: Isa, bs: seq<Byte>, g: Regs): set<int> {
    var sp: int := g[RSP];
    if IsPush(bs) then {} else if IsPop(bs) then Span(sp, sp + 8) else isa.loads(bs, g)
  }

  function Stores(isa: Isa, bs: seq<Byte>, g: Regs): set<int> {
    var sp: int := g[RSP];
    if IsPush(bs) then Span(sp - 8, sp) else if IsPop(bs) then {} else isa.stores(bs, g)
  }

  /** The memories agree except at `dirty` addresses. */
  ghost predicate Agree(m: Mem, m': Mem, dirty: set<int>) {
    |m| == |m'| && forall x :: 0 <= x < |m| && x !in dirty ==> m[x] == m'[x]
  }

  /** One instruction in two places, over memories that agree on what it loads. */
  lemma TableLocal(isa: Isa, bs: seq<Byte>, ip: nat, ip': nat, g: Regs, m: Mem, m': Mem, dirty: set<int>)
    requires LocalIsa(isa) && !RipRelative(bs) && Agree(m, m', dirty) && Loads(isa, bs, g) !! dirty
    requires TableEffect(isa, bs, ip, g, m).Effect?
    ensures var e, e' := TableEffect(isa, bs, ip, g, m), TableEffect(isa, bs, ip', g, m');
            && e'.Effect? && e'.regs == e.regs
            && Agree(e.mem, e'.mem, dirty - Stores(isa, bs, g))
            && ChangesOnly(m, e.mem, Stores(isa, bs, g)) && ChangesOnly(m', e'.mem, Stores(isa, bs, g))
  {
    hide RipRelative, IsPush, IsPop, StackReg;
    if IsPush(bs) {
      PushLocal(g, m, m', g[StackReg(bs)], dirty);
    } else if IsPop(bs) {
      PopLocal(g, m, m', StackReg(bs), dirty);
    } else {
      assert SameOn(m, m', isa.loads(bs, g));
      assert LocalAt(isa, bs, ip, ip', g, m, m');
    }
  }

  lemma PushLocal(g: Regs, m: Mem, m': Mem, v: Word, dirty: set<int>)
    requires Agree(m, m', dirty) && PushWord(g, m, v).Effect?
    ensures var e, e' := PushWord(g, m, v), PushWord(g, m', v);
            && e'.Effect? && e'.regs == e.regs
            && Agree(e.mem, e'.mem, dirty - Span(g[RSP] - 8, g[RSP]))
            && ChangesOnly(m, e.mem, Span(g[RSP] - 8, g[RSP])) && ChangesOnly(m', e'.mem, Span(g[RSP] - 8, g[RSP]))
  {
    hide ToLE;
    var a, e, e' := g[RSP] - 8, PushWord(g, m, v), PushWord(g, m', v);
    forall x | a <= x < a + 8 ensures e.mem[x] == e'.mem[x] {
      assert e.mem[a..a + 8][x - a] == e'.mem[a..a + 8][x - a];
    }
  }

  lemma PopLocal(g: Regs, m: Mem, m': Mem, r: Reg, dirty: set<int>)
    requires Agree(m, m', dirty) && PopReg(g, m, r).Effect? && Span(g[RSP], g[RSP] + 8) !! dirty
    ensures PopReg(g, m', r).Effect? && PopReg(g, m', r).regs == PopReg(g, m, r).regs
    ensures PopReg(g, m, r).mem == m && PopReg(g, m', r).mem == m'
  {
    hide ReadWord;
    var sp := g[RSP];
    assert SameIn(m, m', sp, 8) by {
      forall x | 0 <= x < |m| && sp <= x < sp + 8 ensures m'[x] == m[x] {
        assert x in Span(sp, sp + 8);
      }
    }
    WordKept(m, m', sp);
  }

  // ---- the copied block

  predicate SparesCode(site: Site, s: set<int>) {
    forall x :: x in s ==> NotIn(x, site.proc, site.copy) && NotIn(x, site.tramp, site.Used())
  }

  /** What the copied instructions must satisfy along the original run that starts in `s`: none is
      rip-relative, the decoder measures each as the processor does, none loads a byte that may
      differ (`dirty`: dead stack not yet written, patched code, the callback's memory) or stores into
      the moved code, none faults, and the stack pointer ends inside the stack. */
  ghost predicate BlockOk(env: Env, site: Site, s: Cpu, lens: seq<nat>, dirty: set<int>)
    decreases |lens|
  {
    if lens == [] then site.low + 8 <= s.regs[RSP] <= site.top
    else
      && lens[0] <= 15 && s.rip + lens[0] <= |s.mem|
      && var bs := s.mem[s.rip..s.rip + lens[0]];
         && InsnOk(env, site, s, bs, dirty)
         && BlockOk(env, site, After(env, s, bs), lens[1..], dirty - Stores(env.isa, bs, s.regs))
  }

  ghost predicate InsnOk(env: Env, site: Site, s: Cpu, bs: seq<Byte>, dirty: set<int>) {
    && !RipRelative(bs) && Regular(bs)
    && Loads(env.isa, bs, s.regs) !! dirty && SparesCode(site, Stores(env.isa, bs, s.regs))
    && TableEffect(env.isa, bs, s.rip + |bs|, s.regs, s.mem).Effect?
  }

  /** The state behind the instruction `bs`. */
  ghost function After(env: Env, s: Cpu, bs: seq<Byte>): Cpu
    requires TableEffect(env.isa, bs, s.rip + |bs|, s.regs, s.mem).Effect?
  {
    var e := TableEffect(env.isa, bs, s.rip + |bs|, s.regs, s.mem);
    Cpu(s.rip + |bs|, e.regs, e.mem, s.calls)
  }

  /** The addresses that may still differ after the block: those that no copied instruction wrote. */
  ghost function DirtyAfter(env: Env, site: Site, s: Cpu, lens: seq<nat>, dirty: set<int>): set<int>
    requires BlockOk(env, site, s, lens, dirty)
    decreases |lens|
  {
    if lens == [] then dirty
    else
      var bs := s.mem[s.rip..s.rip + lens[0]];
      DirtyAfter(env, site, After(env, s, bs), lens[1..], dirty - Stores(env.isa, bs, s.regs))
  }

  /** Both runs stand at offset `off` of the block, one in the function, one in the trampoline. */
  ghost predicate InStep(env: Env, site: Site, a: Cpu, b: Cpu, off: nat, code: seq<Byte>, tail: seq<Byte>,
                         dirty: set<int>) {
    && |code| == site.copy && |tail| == 14 && off <= site.copy
    && a.rip == site.proc + off && b.rip == site.tramp + off && a.regs == b.regs
    && CodeAt(a.mem, site.proc, code) && CodeAt(b.mem, site.tramp, code + tail)
    && Agree(a.mem, b.mem, dirty)
    && NotIn(env.callback, site.proc, site.copy) && NotIn(env.callback, site.tramp, site.Used())
  }

  lemma BlockBytes(m: Mem, at: nat, code: seq<Byte>, more: seq<Byte>, off: nat, n: nat)
    requires CodeAt(m, at, code + more) && off + n <= |code|
    ensures CodeAt(m, at + off, code[off..off + n])
    ensures at + off + n <= |m| && m[at + off..at + off + n] == code[off..off + n]
  {
    assert code + more == code[..off] + (code[off..off + n] + (code[off + n..] + more));
    hide CodeAt;
    CodeSplit(m, at, code[..off], code[off..off + n] + (code[off + n..] + more));
    CodeSplit(m, at + off, code[off..off + n], code[off + n..] + more);
    CodeIs(m, at + off, code[off..off + n]);
  }

  lemma CodeIs(m: Mem, a: nat, bs: seq<Byte>)
    requires CodeAt(m, a, bs)
    ensures a + |bs| <= |m| && m[a..a + |bs|] == bs
  {
  }

  lemma BlockInsnMeasured(code: seq<Byte>, off: nat, n: nat)
    requires At(code)(off) == Length(n) && off + n <= |code| && Regular(code[off..off + n])
    ensures Length64(code[off..off + n]) == Length(n)
  {
    hide Decode, Length64, Regular;
    SelfDelimiting(code[off..], code[off..off + n], n);
    RegularMeasured(code[off..off + n]);
  }

  lemma CodeSpared(site: Site, m: Mem, m': Mem, s: set<int>, at: nat, bs: seq<Byte>)
    requires CodeAt(m, at, bs) && ChangesOnly(m, m', s)
    requires forall x :: x in s ==> NotIn(x, at, |bs|)
    ensures CodeAt(m', at, bs)
  {
    hide CodeAt;
    assert SameIn(m, m', at, |bs|);
    CodeKept(m, m', at, bs);
  }

  /** One instruction, executed in both places. */
  lemma BlockStep(env: Env, site: Site, a: Cpu, b: Cpu, off: nat, n: nat, code: seq<Byte>, tail: seq<Byte>,
                  dirty: set<int>)
    returns (a': Cpu, b': Cpu)
    requires LocalIsa(env.isa) && InStep(env, site, a, b, off, code, tail, dirty)
    requires At(code)(off) == Length(n) && 0 < n <= 15 && off + n <= |code|
    requires InsnOk(env, site, a, code[off..off + n], dirty)
    ensures Step(env, a) == Go(a') && Step(env, b) == Go(b')
    ensures a' == After(env, a, code[off..off + n]) && b'.calls == b.calls && |a'.mem| == |a.mem|
    ensures InStep(env, site, a', b', off + n, code, tail, dirty - Stores(env.isa, code[off..off + n], a.regs))
  {
    hide Step, Length64, Regular, Decode, RipRelative, TableEffect, LocalIsa, CodeAt, Loads, Stores, Agree, At;
    var bs := code[off..off + n];
    BlockInsnMeasured(code, off, n);
    assert code + [] == code;
    BlockBytes(a.mem, site.proc, code, [], off, n);
    BlockBytes(b.mem, site.tramp, code, tail, off, n);
    StepTable(env, a, bs);
    StepTable(env, b, bs);
    TableLocal(env.isa, bs, a.rip + n, b.rip + n, a.regs, a.mem, b.mem, dirty);
    a' := After(env, a, bs);
    b' := After(env, b, bs);
    CodeSpared(site, a.mem, a'.mem, Stores(env.isa, bs, a.regs), site.proc, code);
    CodeSpared(site, b.mem, b'.mem, Stores(env.isa, bs, a.regs), site.tramp, code + tail);
  }

  /** The whole block, executed in both places: in step throughout. */
  lemma {:induction false} BlockRun(env: Env, site: Site, a: Cpu, b: Cpu, off: nat, lens: seq<nat>,
                                    code: seq<Byte>, tail: seq<Byte>, dirty: set<int>)
    returns (a': Cpu, b': Cpu)
    requires LocalIsa(env.isa) && InStep(env, site, a, b, off, code, tail, dirty)
    requires Tiles(At(code), off, lens) && off + Sum(lens) == |code|
    requires BlockOk(env, site, a, lens, dirty)
    ensures Run(env, a, |lens|) == Go(a') && Run(env, b, |lens|) == Go(b')
    ensures a'.calls == a.calls && b'.calls == b.calls && |a'.mem| == |a.mem|
    ensures InStep(env, site, a', b', |code|, code, tail, DirtyAfter(env, site, a, lens, dirty))
    ensures site.low + 8 <= a'.regs[RSP] <= site.top
    decreases |lens|
  {
    hide Step, LocalIsa, At, InStep, InsnOk, Stores;
    if lens == [] {
      a', b' := a, b;
    } else {
      var n := lens[0];
      BlockHead(env, site, a, b, off, n, code, tail, dirty);
      var bs := code[off..off + n];
      var a1, b1 := BlockStep(env, site, a, b, off, n, code, tail, dirty);
      a', b' := BlockRun(env, site, a1, b1, off + n, lens[1..], code, tail, dirty - Stores(env.isa, bs, a.regs));
    }
  }

  lemma BlockHead(env: Env, site: Site, a: Cpu, b: Cpu, off: nat, n: nat, code: seq<Byte>, tail: seq<Byte>,
                  dirty: set<int>)
    requires InStep(env, site, a, b, off, code, tail, dirty) && off + n <= |code| && At(code)(off) == Length(n)
    ensures a.rip + n <= |a.mem| && a.mem[a.rip..a.rip + n] == code[off..off + n] && n > 0
  {
    AtPositive(code);
    hide Decode, CodeAt, Agree;
    assert code + [] == code;
    BlockBytes(a.mem, site.proc, code, [], off, n);
  }

  // ---- the theorem

  /** The eight bytes below a stack pointer. */
  function Below(sp: int): set<int> {
    Span(sp - 8, sp)
  }

  /** Where the two runs may differ when they reach the block: the dead stack below the entry's rsp,
      the thirteen patched bytes, the trampoline, and the callback's own memory. */
  function DirtyAtEntry(site: Site, g: Regs, owned: set<int>): set<int> {
    Span(site.low, g[RSP]) + Span(site.proc, site.proc + 13) + Span(site.tramp, site.tramp + site.Used()) + owned
  }

  lemma {:induction false} DirtyShrinks(env: Env, site: Site, s: Cpu, lens: seq<nat>, dirty: set<int>)
    requires BlockOk(env, site, s, lens, dirty)
    ensures DirtyAfter(env, site, s, lens, dirty) <= dirty
    decreases |lens|
  {
    hide Stores, TableEffect, Loads, Regular, RipRelative, SparesCode;
    if lens != [] {
      var bs := s.mem[s.rip..s.rip + lens[0]];
      DirtyShrinks(env, site, After(env, s, bs), lens[1..], dirty - Stores(env.isa, bs, s.regs));
    }
  }

  /** Memory once the hook is installed. */
  function Hooked(m: Mem, site: Site): Mem
    requires Room(m, site.proc, site.copy, site.tramp) && site.hook < TWO64
  {
    Installed(m, site.proc, site.copy, site.hook, site.tramp)
  }

  /** The premises: the pieces are laid out, stub and `kuk` are in place, the entry's stack pointer is
      aligned as after a call, the callback obeys the ABI when the stub calls it, and `lens` are the
      instructions that the decoder finds in the moved entry, well-behaved along the original run. */
  ghost predicate Premises(env: Env, site: Site, owned: set<int>, m: Mem, g: Regs, lens: seq<nat>)
    ensures Premises(env, site, owned, m, g, lens) ==> Room(m, site.proc, site.copy, site.tramp) && site.hook < TWO64
  {
    && Underway(env, site, owned, m, g)
    && AbiCallback(env, site, owned, Hooked(m, site), g) && LocalIsa(env.isa)
    && Tiles(At(m[site.proc..]), 0, lens) && Sum(lens) == site.copy
    && BlockOk(env, site, Cpu(site.proc, g, m, []), lens, DirtyAtEntry(site, g, owned))
  }

  lemma UnderwayRoom(env: Env, site: Site, owned: set<int>, m: Mem, g: Regs)
    requires Underway(env, site, owned, m, g)
    ensures Room(m, site.proc, site.copy, site.tramp) && site.hook < TWO64
  {
    hide Fixture, OwnedApart;
  }

  /** Installing the hook disturbs none of the premises about stub and table slots. */
  lemma InstalledUnderway(env: Env, site: Site, owned: set<int>, m: Mem, g: Regs)
    requires Underway(env, site, owned, m, g)
    ensures Room(m, site.proc, site.copy, site.tramp) && site.hook < TWO64
    ensures Underway(env, site, owned, Hooked(m, site), g)
  {
    hide Installed, CodeAt, ReadWord, StubBytes, EntryBytes, TailBytes, Encodable;
    UnderwayRoom(env, site, owned, m, g);
    InstalledLayout(m, site.proc, site.copy, site.hook, site.tramp);
    var r := Hooked(m, site);
    StubSize(site.DispKuk(), site.DispTramp());
    CodeKept(m, r, site.hook, StubBytes(site.DispKuk(), site.DispTramp()));
    WordKept(m, r, site.gotKuk);
    WordKept(m, r, site.kuk);
    WordKept(m, r, site.gotTramp);
  }

  lemma BlockStart(env: Env, site: Site, owned: set<int>, m: Mem, r: Mem, b: Cpu, g: Regs)
    requires Underway(env, site, owned, m, g) && r == Hooked(m, site)
    requires b.rip == site.tramp && b.regs == g && Within(r, b.mem, site.low, g[RSP], owned)
    ensures InStep(env, site, Cpu(site.proc, g, m, []), b, 0, m[site.proc..site.proc + site.copy],
                   TailBytes(site.proc + site.copy), DirtyAtEntry(site, g, owned))
  {
    hide Installed, EntryBytes, TailBytes, Fixture, OwnedApart;
    InstalledLayout(m, site.proc, site.copy, site.hook, site.tramp);
    var code, tail := m[site.proc..site.proc + site.copy], TailBytes(site.proc + site.copy);
    TrampolineKept(env, site, owned, r, b.mem, g, code + tail);
    hide CodeAt, Within;
    StartAgrees(site, owned, m, r, b.mem, g);
    CodeAtItself(m, site.proc, site.copy);
  }

  lemma CodeAtItself(m: Mem, a: nat, n: nat)
    requires a + n <= |m|
    ensures CodeAt(m, a, m[a..a + n])
  {
  }

  lemma TrampolineKept(env: Env, site: Site, owned: set<int>, r: Mem, m': Mem, g: Regs, bs: seq<Byte>)
    requires Layout(site, env, |r|) && OwnedApart(site, owned) && site.low <= g[RSP] <= site.top
    requires CodeAt(r, site.tramp, bs) && |bs| == site.Used() && Within(r, m', site.low, g[RSP], owned)
    ensures CodeAt(m', site.tramp, bs)
  {
    hide CodeAt;
    KeptWithin(r, m', site.low, g[RSP], owned, site.tramp, |bs|);
    CodeKept(r, m', site.tramp, bs);
  }

  lemma StartAgrees(site: Site, owned: set<int>, m: Mem, r: Mem, m': Mem, g: Regs)
    requires |r| == |m| && Within(r, m', site.low, g[RSP], owned)
    requires forall x :: 0 <= x < |m| && !(site.proc <= x < site.proc + 13) &&
                         !(site.tramp <= x < site.tramp + site.Used())
                         ==> r[x] == m[x]
    ensures Agree(m, m', DirtyAtEntry(site, g, owned))
  {
  }

  lemma TilesOfCopy(m: Mem, proc: nat, copy: nat, lens: seq<nat>)
    requires proc + copy <= |m| && Tiles(At(m[proc..]), 0, lens) && Sum(lens) == copy
    ensures Tiles(At(m[proc..proc + copy]), 0, lens)
  {
    hide At;
    assert m[proc..][0..copy] == m[proc..proc + copy];
    assert m[proc..proc + copy][0..copy] == m[proc..proc + copy];
    BlockRelocates(m[proc..], m[proc..proc + copy], 0, 0, lens);
  }

  /** Detour transparency. The hooked function, entered with registers `g`, calls the callback exactly
      once with its own rdi, rsi and rdx, and then reaches the instruction behind the moved block with
      the same registers, rsp included, as the unhooked function does. Memory is the same everywhere
      but at addresses that were dirty at the entry and that no moved instruction wrote, and in the
      eight bytes below rsp. */
  lemma DetourIsTransparent(env: Env, site: Site, owned: set<int>, m: Mem, g: Regs, lens: seq<nat>)
    returns (n: nat, t: Cpu, u: Cpu)
    requires Premises(env, site, owned, m, g, lens)
    ensures Run(env, Cpu(site.proc, g, Hooked(m, site), []), n) == Go(t)
    ensures Run(env, Cpu(site.proc, g, m, []), |lens|) == Go(u)
    ensures t.rip == u.rip == site.proc + site.copy && t.regs == u.regs
    ensures t.calls == [Call(g[RSP] - 80, g[RDI], g[RSI], g[RDX])] && u.calls == []
    ensures Agree(u.mem, t.mem,
                  DirtyAfter(env, site, Cpu(site.proc, g, m, []), lens, DirtyAtEntry(site, g, owned))
                  + Below(u.regs[RSP]))
  {
    hide Run, Step, Installed, Underway, AbiCallback, LocalIsa, At, BlockOk, DirtyAfter, CodeAt, EntryBytes,
      TailBytes, Within, InStep, DirtyAtEntry, Agree;
    var s: Cpu := Cpu(site.proc, g, m, []);
    var dirty := DirtyAtEntry(site, g, owned);
    var r := Hooked(m, site);
    var code, tail := m[site.proc..site.proc + site.copy], TailBytes(site.proc + site.copy);
    InstalledUnderway(env, site, owned, m, g);
    InstalledLayout(m, site.proc, site.copy, site.hook, site.tramp);
    var s0 := Cpu(site.proc, g, r, []);
    var b := EntryToTrampoline(env, site, owned, r, g);
    BlockStart(env, site, owned, m, r, b, g);
    TilesOfCopy(m, site.proc, site.copy, lens);
    var b';
    u, b' := BlockRun(env, site, s, b, 0, lens, code, tail, dirty);
    t := LastLeg(env, site, owned, m, g, u, b', code, DirtyAfter(env, site, s, lens, dirty));
    n := 25 + |lens| + 3;
    RunAppend(env, s0, 25, b, |lens|);
    RunAppend(env, s0, 25 + |lens|, b', 3);
  }

  /** From the end of the copied block back into the function. */
  lemma LastLeg(env: Env, site: Site, owned: set<int>, m: Mem, g: Regs, u: Cpu, b: Cpu, code: seq<Byte>,
                dirty: set<int>)
    returns (t: Cpu)
    requires Underway(env, site, owned, m, g) && site.low + 8 <= u.regs[RSP] <= site.top && |u.mem| == |m|
    requires InStep(env, site, u, b, site.copy, code, TailBytes(site.proc + site.copy), dirty)
    ensures Run(env, b, 3) == Go(t)
    ensures t.rip == u.rip == site.proc + site.copy && t.regs == u.regs && t.calls == b.calls
    ensures Agree(u.mem, t.mem, dirty + Below(u.regs[RSP]))
  {
    hide Run, Step, CodeAt, TailBytes, Fixture, OwnedApart;
    CodeSplit(b.mem, site.tramp, code, TailBytes(site.proc + site.copy));
    t := ResumeRun(env, b, site.proc + site.copy);
  }

  /** In particular every byte is the same in both runs, outside the dead stack below the entry's rsp, the
      thirteen patched bytes, the trampoline, the callback's own memory and the eight bytes below the
      final rsp. */
  lemma VisibleMemoryIsTheSame(env: Env, site: Site, owned: set<int>, m: Mem, g: Regs, lens: seq<nat>)
    returns (n: nat, t: Cpu, u: Cpu)
    requires Premises(env, site, owned, m, g, lens)
    ensures Run(env, Cpu(site.proc, g, Hooked(m, site), []), n) == Go(t)
    ensures Run(env, Cpu(site.proc, g, m, []), |lens|) == Go(u)
    ensures t.rip == u.rip == site.proc + site.copy && t.regs == u.regs && |t.mem| == |u.mem|
    ensures forall x :: (&& 0 <= x < |u.mem| && x !in owned
                         && !(u.regs[RSP] - 8 <= x < u.regs[RSP]) && !(site.low <= x < g[RSP])
                         && !(site.proc <= x < site.proc + 13)
                         && !(site.tramp <= x < site.tramp + site.copy + 14))
              ==> t.mem[x] == u.mem[x]
  {
    hide Run, Installed, BlockOk, DirtyAfter, AbiCallback, LocalIsa, At, Underway, DirtyAtEntry, Below, Tiles, Sum;
    n, t, u := DetourIsTransparent(env, site, owned, m, g, lens);
    DirtyShrinks(env, site, Cpu(site.proc, g, m, []), lens, DirtyAtEntry(site, g, owned));
    forall x | 0 <= x < |u.mem| && x !in owned && !(u.regs[RSP] - 8 <= x < u.regs[RSP])
               && !(site.low <= x < g[RSP]) && !(site.proc <= x < site.proc + 13)
               && !(site.tramp <= x < site.tramp + site.copy + 14)
      ensures t.mem[x] == u.mem[x]
    {
      VisibleIsClean(site, g, owned, u.regs[RSP], x);
    }
  }

  /** The hooked run, in `t`, and the unhooked run, in `u`, stand behind the moved entry with the same
      registers and with the same memory outside `dirty` and the eight bytes below rsp; the hooked one has
      made one call of the callback, with the arguments it was entered with. */
  ghost predicate SameButForTheCall(site: Site, g: Regs, t: Cpu, u: Cpu, dirty: set<int>) {
    && t.rip == u.rip == site.proc + site.copy && t.regs == u.regs
    && u.calls == [] && 80 <= g[RSP] && t.calls == [Call(g[RSP] - 80, g[RDI], g[RSI], g[RDX])]
    && Agree(u.mem, t.mem, dirty + Below(u.regs[RSP]))
  }

  lemma VisibleIsClean(site: Site, g: Regs, owned: set<int>, sp: int, x: int)
    requires x !in owned && !(sp - 8 <= x < sp) && !(site.low <= x < g[RSP]) && !(site.proc <= x < site.proc + 13)
    requires !(site.tramp <= x < site.tramp + site.copy + 14)
    ensures x !in DirtyAtEntry(site, g, owned) && x !in Below(sp)
  {
  }
}
