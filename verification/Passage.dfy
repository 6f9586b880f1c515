/** From the patched entry through the stub and the callback to the trampoline. */
module Passage {
  import opened Bytes
  import opened Machine
  import opened Detour
  import opened Stub

  // ---- where things are

  /** Addresses: the hooked function and the size of its moved entry, the trampoline buffer, the stub,
      the two global-offset-table slots the stub uses, the variable `kuk`, and the stack's extent. */
  datatype Site = Site(proc: nat, copy: nat, tramp: nat, hook: nat, gotKuk: nat, gotTramp: nat, kuk: nat,
                       low: nat, top: nat)
  {
    /** The bytes of the trampoline that are in use: the moved entry and the way back. */
    function Used(): nat { copy + 14 }
    function DispKuk(): int { gotKuk - (hook + 19) }
    function DispTramp(): int { gotTramp - (hook + 40) }
  }

  const SAVED: seq<Reg> := [RCX, RDX, R8, R9, R10, R11, RDI, RSI]
  const RESTORED: seq<Reg> := [RAX, RCX, RDX, R8, R9, R10, R11, RDI, RSI]

  /** The assembled stub: the pushes, `mov rax, [rel kuk]`, `call [rax]`, the pops, and
      `jmp [rel trampoline1]`. */
  function StubBytes(d1: int, d2: int): seq<Byte>
    requires Encodable(LoadRax(d1)) && Encodable(JmpMem(d2))
  {
    PushCode(SAVED) + (EmitBytes(LoadRax(d1)) + (EmitBytes(CallRax) +
      (PopCode(RESTORED) + EmitBytes(JmpMem(d2)))))
  }

  lemma CodeFrom(rs: seq<Reg>, k: nat)
    requires k < |rs|
    ensures PushCode(rs[k..]) == PushBytes(rs[k]) + PushCode(rs[k + 1..])
    ensures PopCode(rs[k..]) == PopCode(rs[k + 1..]) + PopBytes(rs[k])
  {
    assert rs[k..][1..] == rs[k + 1..];
  }

  lemma PushCodeSpelled()
    ensures PushCode(SAVED) == [0x51, 0x52, 0x41, 0x50, 0x41, 0x51, 0x41, 0x52, 0x41, 0x53, 0x57, 0x56]
  {
    NoCode();
    hide PushCode, PopCode;
    CodeFrom(SAVED, 7);
    CodeFrom(SAVED, 6);
    CodeFrom(SAVED, 5);
    CodeFrom(SAVED, 4);
    CodeFrom(SAVED, 3);
    CodeFrom(SAVED, 2);
    CodeFrom(SAVED, 1);
    CodeFrom(SAVED, 0);
    assert SAVED[0..] == SAVED && SAVED[8..] == [];
  }

  lemma PopCodeSpelled()
    ensures PopCode(RESTORED) ==
              [0x5E, 0x5F, 0x41, 0x5B, 0x41, 0x5A, 0x41, 0x59, 0x41, 0x58, 0x5A, 0x59, 0x58]
  {
    PopCodeTail();
    hide PushCode, PopCode;
    CodeFrom(RESTORED, 4);
    CodeFrom(RESTORED, 3);
    CodeFrom(RESTORED, 2);
    CodeFrom(RESTORED, 1);
    CodeFrom(RESTORED, 0);
    assert RESTORED[0..] == RESTORED;
  }

  lemma PopCodeTail()
    ensures PopCode(RESTORED[5..]) == [0x5E, 0x5F, 0x41, 0x5B, 0x41, 0x5A]
  {
    NoCode();
    hide PushCode, PopCode;
    CodeFrom(RESTORED, 8);
    CodeFrom(RESTORED, 7);
    CodeFrom(RESTORED, 6);
    CodeFrom(RESTORED, 5);
    assert RESTORED[9..] == [];
  }

  lemma NoCode()
    ensures PushCode([]) == [] && PopCode([]) == []
  {
  }

  /** The stub as assembled, byte by byte; forty bytes. */
  lemma StubSpelled(d1: int, d2: int)
    requires Encodable(LoadRax(d1)) && Encodable(JmpMem(d2))
    ensures StubBytes(d1, d2) ==
              [0x51, 0x52, 0x41, 0x50, 0x41, 0x51, 0x41, 0x52, 0x41, 0x53, 0x57, 0x56]
              + [0x48, 0x8B, 0x05] + ToLE(Unsigned32(d1), 4) + [0xFF, 0x10]
              + [0x5E, 0x5F, 0x41, 0x5B, 0x41, 0x5A, 0x41, 0x59, 0x41, 0x58, 0x5A, 0x59, 0x58]
              + [0xFF, 0x25] + ToLE(Unsigned32(d2), 4)
    ensures |StubBytes(d1, d2)| == 40
  {
    hide PushCode, PopCode, ToLE;
    PushCodeSpelled();
    PopCodeSpelled();
  }

  /** The pieces fit into memory and do not overlap, and the callback lies outside them. */
  predicate Layout(site: Site, env: Env, size: nat) {
    && 13 <= site.copy
    && site.proc + site.copy <= size && site.tramp + site.Used() <= size && site.hook + 40 <= size
    && site.gotKuk + 8 <= size && site.gotTramp + 8 <= size && site.kuk + 8 <= size
    && site.low + 80 <= site.top <= size
    && Clear(site.low, site.top, site.proc, site.copy)
    && Clear(site.low, site.top, site.tramp, site.Used())
    && Clear(site.low, site.top, site.hook, 40)
    && Clear(site.low, site.top, site.gotKuk, 8)
    && Clear(site.low, site.top, site.gotTramp, 8)
    && Clear(site.low, site.top, site.kuk, 8)
    && Clear(site.proc, site.proc + site.copy, site.tramp, site.Used())
    && Clear(site.proc, site.proc + site.copy, site.hook, 40)
    && Clear(site.proc, site.proc + site.copy, site.gotKuk, 8)
    && Clear(site.proc, site.proc + site.copy, site.gotTramp, 8)
    && Clear(site.proc, site.proc + site.copy, site.kuk, 8)
    && Clear(site.tramp, site.tramp + site.Used(), site.hook, 40)
    && Clear(site.tramp, site.tramp + site.Used(), site.gotKuk, 8)
    && Clear(site.tramp, site.tramp + site.Used(), site.gotTramp, 8)
    && Clear(site.tramp, site.tramp + site.Used(), site.kuk, 8)
    && Clear(site.kuk, site.kuk + 8, site.hook, 40)
    && Clear(site.kuk, site.kuk + 8, site.gotKuk, 8)
    && Clear(site.kuk, site.kuk + 8, site.gotTramp, 8)
    && NotIn(env.callback, site.proc, site.copy)
    && NotIn(env.callback, site.tramp, site.Used())
    && NotIn(env.callback, site.hook, 40)
    && Encodable(LoadRax(site.DispKuk())) && Encodable(JmpMem(site.DispTramp()))
  }

  /** Memory that belongs to the callback (the plugin's own data) is neither stack nor any of the
      pieces above. */
  predicate OwnedApart(site: Site, owned: set<int>) {
    forall x :: x in owned ==>
      && NotIn(x, site.low, site.top - site.low) && NotIn(x, site.proc, site.copy)
      && NotIn(x, site.tramp, site.Used()) && NotIn(x, site.hook, 40)
      && NotIn(x, site.gotKuk, 8) && NotIn(x, site.gotTramp, 8) && NotIn(x, site.kuk, 8)
  }

  /** Stub and table slots as the loader leaves them. */
  ghost predicate Loaded(m: Mem, site: Site, env: Env)
    requires Layout(site, env, |m|)
  {
    && CodeAt(m, site.hook, StubBytes(site.DispKuk(), site.DispTramp()))
    && ReadWord(m, site.gotKuk) == site.kuk
    && ReadWord(m, site.gotTramp) == site.tramp
  }

  /** In addition `kuk` as `hook` leaves it. */
  ghost predicate Fixture(m: Mem, site: Site, env: Env)
    requires Layout(site, env, |m|)
  {
    Loaded(m, site, env) && ReadWord(m, site.kuk) == env.callback
  }

  /** The memories differ at most in the stack below `r` and in the callback's own memory. */
  ghost predicate Within(m: Mem, m': Mem, low: nat, r: nat, owned: set<int>) {
    |m| == |m'| && forall x :: 0 <= x < |m| && !(low <= x < r) && x !in owned ==> m'[x] == m[x]
  }

  lemma WithinTrans(a: Mem, b: Mem, c: Mem, low: nat, r: nat, owned: set<int>)
    requires Within(a, b, low, r, owned) && Within(b, c, low, r, owned)
    ensures Within(a, c, low, r, owned)
  {
  }

  lemma OutsideIsWithin(a: Mem, b: Mem, lo: int, hi: int, low: nat, r: nat, owned: set<int>)
    requires SameOutside(a, b, lo, hi) && low <= lo && hi <= r
    ensures Within(a, b, low, r, owned)
  {
  }

  lemma KeptWithin(a: Mem, b: Mem, low: nat, r: nat, owned: set<int>, at: nat, n: nat)
    requires Within(a, b, low, r, owned) && Clear(low, r, at, n)
    requires forall x :: x in owned ==> NotIn(x, at, n)
    ensures SameIn(a, b, at, n)
  {
  }

  lemma FixtureKept(m: Mem, m': Mem, site: Site, env: Env, r: nat, owned: set<int>)
    requires Layout(site, env, |m|) && OwnedApart(site, owned) && Fixture(m, site, env)
    requires Within(m, m', site.low, r, owned) && site.low <= r <= site.top
    ensures Fixture(m', site, env)
  {
    hide Within, CodeAt, ReadWord, StubBytes, Encodable;
    StubSize(site.DispKuk(), site.DispTramp());
    KeptWithin(m, m', site.low, r, owned, site.hook, 40);
    KeptWithin(m, m', site.low, r, owned, site.gotKuk, 8);
    KeptWithin(m, m', site.low, r, owned, site.kuk, 8);
    KeptWithin(m, m', site.low, r, owned, site.gotTramp, 8);
    CodeKept(m, m', site.hook, StubBytes(site.DispKuk(), site.DispTramp()));
    WordKept(m, m', site.gotKuk);
    WordKept(m, m', site.kuk);
    WordKept(m, m', site.gotTramp);
  }

  lemma StubSize(d1: int, d2: int)
    requires Encodable(LoadRax(d1)) && Encodable(JmpMem(d2))
    ensures |StubBytes(d1, d2)| == 40
  {
    hide StubBytes;
    StubSpelled(d1, d2);
  }

  // ---- single emitted instructions

  lemma RunThen(env: Env, s: Cpu, n: nat, u: Cpu, t: Cpu)
    requires Run(env, s, n) == Go(u) && Step(env, u) == Go(t)
    ensures Run(env, s, n + 1) == Go(t)
  {
    hide Step, Run;
    RunAppend(env, s, n, u, 1);
    RunOne(env, u);
  }

  lemma MovRaxOne(env: Env, s: Cpu, v: Word)
    requires s.rip != env.callback && CodeAt(s.mem, s.rip, EmitBytes(MovRax(v)))
    ensures Step(env, s) == Go(s.(rip := s.rip + 10, regs := s.regs[RAX := v]))
  {
    hide Step, CodeAt;
    StepEmitted(env, s, MovRax(v));
  }

  lemma RetOne(env: Env, s: Cpu)
    requires s.rip != env.callback && CodeAt(s.mem, s.rip, EmitBytes(Ret))
    requires s.regs[RSP] + 8 <= |s.mem|
    ensures Step(env, s) ==
              Go(s.(rip := ReadWord(s.mem, s.regs[RSP]), regs := s.regs[RSP := s.regs[RSP] + 8]))
  {
    hide Step, CodeAt, ReadWord;
    StepEmitted(env, s, Ret);
  }

  lemma LoadRaxOne(env: Env, s: Cpu, d: int)
    requires s.rip != env.callback && Encodable(LoadRax(d)) && CodeAt(s.mem, s.rip, EmitBytes(LoadRax(d)))
    requires 0 <= s.rip + 7 + d && s.rip + 7 + d + 8 <= |s.mem|
    ensures Step(env, s) ==
              Go(s.(rip := s.rip + 7, regs := s.regs[RAX := ReadWord(s.mem, s.rip + 7 + d)]))
  {
    hide Step, CodeAt, ReadWord;
    StepEmitted(env, s, LoadRax(d));
  }

  lemma JmpMemOne(env: Env, s: Cpu, d: int)
    requires s.rip != env.callback && Encodable(JmpMem(d)) && CodeAt(s.mem, s.rip, EmitBytes(JmpMem(d)))
    requires 0 <= s.rip + 6 + d && s.rip + 6 + d + 8 <= |s.mem|
    ensures Step(env, s) == Go(s.(rip := ReadWord(s.mem, s.rip + 6 + d)))
  {
    hide Step, CodeAt, ReadWord;
    StepEmitted(env, s, JmpMem(d));
  }

  lemma CallRaxOne(env: Env, s: Cpu) returns (t: Cpu)
    requires s.rip != env.callback && CodeAt(s.mem, s.rip, EmitBytes(CallRax))
    requires s.regs[RAX] + 8 <= |s.mem| && 8 <= s.regs[RSP] <= |s.mem| && s.rip + 2 <= |s.mem|
    ensures Step(env, s) == Go(t)
    ensures t.rip == ReadWord(s.mem, s.regs[RAX]) && t.calls == s.calls
    ensures t.regs == s.regs[RSP := s.regs[RSP] - 8]
    ensures SameOutside(s.mem, t.mem, s.regs[RSP] - 8, s.regs[RSP])
    ensures ReadWord(t.mem, s.regs[RSP] - 8) == s.rip + 2
  {
    hide Step, CodeAt, ReadWord, ToLE;
    StepEmitted(env, s, CallRax);
    var sp := s.regs[RSP];
    WordWritten(s.mem, sp - 8, s.rip + 2);
    t := Cpu(ReadWord(s.mem, s.regs[RAX]), s.regs[RSP := sp - 8], Put(s.mem, sp - 8, ToLE(s.rip + 2, 8)),
             s.calls);
  }

  // ---- the patched entry

  /** The patched entry reaches the stub with the old rax saved on top of the stack. */
  lemma EntryRun(env: Env, s: Cpu, hook: Word) returns (t: Cpu)
    requires CodeAt(s.mem, s.rip, EntryBytes(hook)) && NotIn(env.callback, s.rip, 13)
    requires 16 <= s.regs[RSP] <= |s.mem| && Clear(s.regs[RSP] - 16, s.regs[RSP], s.rip, 13)
    ensures Run(env, s, 4) == Go(t)
    ensures t.rip == hook && t.calls == s.calls
    ensures t.regs == s.regs[RSP := s.regs[RSP] - 8][RAX := hook]
    ensures SameOutside(s.mem, t.mem, s.regs[RSP] - 16, s.regs[RSP])
    ensures ReadWord(t.mem, s.regs[RSP] - 8) == s.regs[RAX]
  {
    hide Step, Run, CodeAt, ReadWord, EmitBytes, PushBytes, EntryBytes;
    var sp, at := s.regs[RSP], s.rip;
    EntryPieces(s.mem, at, hook);
    RunNone(env, s);
    var u1 := PushOne(env, s, RAX);
    RunThen(env, s, 0, s, u1);
    EntryKept(s.mem, u1.mem, sp - 8, sp, at, hook);
    MovRaxOne(env, u1, hook);
    var u2 := u1.(rip := at + 11, regs := u1.regs[RAX := hook]);
    RunThen(env, s, 1, u1, u2);
    var u3 := PushOne(env, u2, RAX);
    RunThen(env, s, 2, u2, u3);
    EntryKept(u2.mem, u3.mem, sp - 16, sp - 8, at, hook);
    RetOne(env, u3);
    t := u3.(rip := ReadWord(u3.mem, sp - 16), regs := u3.regs[RSP := sp - 8]);
    RunThen(env, s, 3, u3, t);
    WordKept(u1.mem, u3.mem, sp - 8);
  }

  ghost predicate EntryAt(m: Mem, at: nat, hook: Word) {
    && CodeAt(m, at, PushBytes(RAX)) && CodeAt(m, at + 1, EmitBytes(MovRax(hook)))
    && CodeAt(m, at + 11, PushBytes(RAX)) && CodeAt(m, at + 12, EmitBytes(Ret))
    && |PushBytes(RAX)| == 1 && |EmitBytes(MovRax(hook))| == 10 && |EmitBytes(Ret)| == 1
  }

  lemma EntryPieces(m: Mem, at: nat, hook: Word)
    requires CodeAt(m, at, EntryBytes(hook))
    ensures EntryAt(m, at, hook)
  {
    hide CodeAt, ToLE;
    var p, mv, r := PushBytes(RAX), EmitBytes(MovRax(hook)), EmitBytes(Ret);
    CodeSplit(m, at, p + mv + p, r);
    CodeSplit(m, at, p + mv, p);
    CodeSplit(m, at, p, mv);
  }

  lemma EntryKept(m: Mem, m': Mem, lo: int, hi: int, at: nat, hook: Word)
    requires EntryAt(m, at, hook) && SameOutside(m, m', lo, hi) && Clear(lo, hi, at, 13)
    ensures EntryAt(m', at, hook)
  {
    hide CodeAt, PushBytes, EmitBytes, SameOutside;
    KeptWhenClear(m, m', lo, hi, at, 1);
    KeptWhenClear(m, m', lo, hi, at + 1, 10);
    KeptWhenClear(m, m', lo, hi, at + 11, 1);
    KeptWhenClear(m, m', lo, hi, at + 12, 1);
    CodeKept(m, m', at, PushBytes(RAX));
    CodeKept(m, m', at + 1, EmitBytes(MovRax(hook)));
    CodeKept(m, m', at + 11, PushBytes(RAX));
    CodeKept(m, m', at + 12, EmitBytes(Ret));
  }

  // ---- the callback

  /** A call that the stub makes when the patched entry was reached with registers `g` and memory `r`:
      the arguments and the callee-saved registers are those of the entry, rsp is 80 lower, and memory
      has changed at most in the stack below the entry's rsp. */
  ghost predicate StubCall(site: Site, r: Mem, g: Regs, h: Regs, m: Mem) {
    && 80 <= g[RSP] && h == g[RSP := g[RSP] - 80][RAX := h[RAX]]
    && SameOutside(r, m, site.low, g[RSP])
  }

  /** What is asked of the callback, and only for calls that the stub makes: called with the stack as
      section 3.2.2 of the System V AMD64 psABI wants it (rsp + 8 a multiple of 16 at entry), it returns
      with the return address popped, keeps rbx, rbp and r12 to r15 (section 3.2.1), and writes only its
      own memory and the stack up to its return address. */
  ghost predicate AbiCallback(env: Env, site: Site, owned: set<int>, r: Mem, g: Regs) {
    forall h: Regs, m: Mem :: StubCall(site, r, g, h, m) && h[RSP] % 16 == 8 ==> ObeysAbi(env, site, owned, h, m)
  }

  ghost predicate ObeysAbi(env: Env, site: Site, owned: set<int>, g: Regs, m: Mem) {
    var r, sp: int := env.effect(g, m), g[RSP];
    && r.0[RSP] == sp + 8
    && (forall q: Reg :: q == RBX || q == RBP || q >= 12 ==> r.0[q] == g[q])
    && Within(m, r.1, site.low, sp + 8, owned)
  }

  // ---- the stub

  ghost predicate StubAt(m: Mem, site: Site)
    requires Encodable(LoadRax(site.DispKuk())) && Encodable(JmpMem(site.DispTramp()))
  {
    && CodeAt(m, site.hook, PushCode(SAVED)) && |PushCode(SAVED)| == 12
    && CodeAt(m, site.hook + 12, EmitBytes(LoadRax(site.DispKuk())))
    && CodeAt(m, site.hook + 19, EmitBytes(CallRax))
    && CodeAt(m, site.hook + 21, PopCode(RESTORED)) && |PopCode(RESTORED)| == 13
    && CodeAt(m, site.hook + 34, EmitBytes(JmpMem(site.DispTramp())))
  }

  lemma StubPieces(m: Mem, site: Site, env: Env)
    requires Layout(site, env, |m|) && Fixture(m, site, env)
    ensures StubAt(m, site)
  {
    hide CodeAt, PushCode, PopCode, ReadWord, StubBytes;
    PushCodeSpelled();
    PopCodeSpelled();
    PiecesOf(m, site.hook, site.DispKuk(), site.DispTramp());
  }

  lemma PiecesOf(m: Mem, at: nat, d1: int, d2: int)
    requires Encodable(LoadRax(d1)) && Encodable(JmpMem(d2)) && CodeAt(m, at, StubBytes(d1, d2))
    requires |PushCode(SAVED)| == 12 && |PopCode(RESTORED)| == 13
    ensures CodeAt(m, at, PushCode(SAVED)) && CodeAt(m, at + 12, EmitBytes(LoadRax(d1)))
    ensures CodeAt(m, at + 19, EmitBytes(CallRax)) && CodeAt(m, at + 21, PopCode(RESTORED))
    ensures CodeAt(m, at + 34, EmitBytes(JmpMem(d2)))
  {
    hide CodeAt, PushCode, PopCode, ToLE;
    var l, c, j := EmitBytes(LoadRax(d1)), EmitBytes(CallRax), EmitBytes(JmpMem(d2));
    CodeSplit(m, at, PushCode(SAVED), l + (c + (PopCode(RESTORED) + j)));
    CodeSplit(m, at + 12, l, c + (PopCode(RESTORED) + j));
    CodeSplit(m, at + 19, c, PopCode(RESTORED) + j);
    CodeSplit(m, at + 21, PopCode(RESTORED), j);
  }

  /** What every state between the entry and the trampoline has in common; `g` are the registers at
      the entry, whose rsp is aligned as after a call. */
  ghost predicate Underway(env: Env, site: Site, owned: set<int>, m: Mem, g: Regs) {
    && Layout(site, env, |m|) && OwnedApart(site, owned) && Fixture(m, site, env)
    && site.low + 80 <= g[RSP] <= site.top && g[RSP] % 16 == 8
  }

  lemma UnderwayKept(env: Env, site: Site, owned: set<int>, m: Mem, m': Mem, g: Regs)
    requires Underway(env, site, owned, m, g) && Within(m, m', site.low, g[RSP], owned)
    ensures Underway(env, site, owned, m', g)
  {
    hide Fixture, OwnedApart;
    FixtureKept(m, m', site, env, g[RSP], owned);
  }

  /** The pushes: with the rax that the entry pushed, all nine registers are saved. */
  lemma SavePhase(env: Env, site: Site, owned: set<int>, s: Cpu, g: Regs) returns (u: Cpu)
    requires Underway(env, site, owned, s.mem, g) && s.rip == site.hook
    requires s.regs == g[RSP := g[RSP] - 8][RAX := s.regs[RAX]] && ReadWord(s.mem, g[RSP] - 8) == g[RAX]
    ensures Run(env, s, 8) == Go(u) && u.rip == site.hook + 12 && u.calls == s.calls
    ensures u.regs == s.regs[RSP := g[RSP] - 72]
    ensures SameOutside(s.mem, u.mem, g[RSP] - 72, g[RSP] - 8)
    ensures SavedAt(u.mem, g[RSP] - 72, RESTORED, g)
  {
    hide Run, Step, CodeAt, ReadWord, PushCode, PopCode, EmitBytes, SavedAt, Fixture, Within, OwnedApart;
    var r := g[RSP];
    StubPieces(s.mem, site, env);
    u := PushRun(env, s, SAVED);
    SavedSameRegs(u.mem, r - 72, SAVED, s.regs, g);
    WordKept(s.mem, u.mem, r - 8);
    SavedJoin(u.mem, r - 72, RAX, SAVED, g);
    assert [RAX] + SAVED == RESTORED;
  }

  /** The call: exactly one, with the arguments of the hooked function and an aligned stack, and back
      behind the call with the callee-saved registers and the saved ones intact. */
  lemma CallPhase(env: Env, site: Site, owned: set<int>, r: Mem, s: Cpu, g: Regs) returns (u: Cpu)
    requires Underway(env, site, owned, s.mem, g) && s.rip == site.hook + 12
    requires s.regs == g[RSP := g[RSP] - 72][RAX := s.regs[RAX]] && SavedAt(s.mem, g[RSP] - 72, RESTORED, g)
    requires AbiCallback(env, site, owned, r, g) && SameOutside(r, s.mem, site.low, g[RSP])
    ensures Run(env, s, 3) == Go(u) && u.rip == site.hook + 21
    ensures u.calls == s.calls + [Call(g[RSP] - 80, g[RDI], g[RSI], g[RDX])]
    ensures u.regs[RSP] == g[RSP] - 72
    ensures forall q: Reg :: q == RBX || q == RBP || q >= 12 ==> u.regs[q] == g[q]
    ensures Within(s.mem, u.mem, site.low, g[RSP], owned)
    ensures SavedAt(u.mem, g[RSP] - 72, RESTORED, g)
  {
    hide Run, Step, SavedAt, Within, Underway, AbiCallback, ReadWord, SameOutside;
    var sp := g[RSP];
    UnderwayFacts(env, site, owned, s.mem, g);
    var b := DoCall(env, site, owned, s, g);
    OutsideJoin(r, s.mem, b.mem, site.low, sp, sp - 80, sp - 72);
    u := CallbackOne(env, site, owned, r, b, g);
    RunThen(env, s, 2, b, u);
    OutsideIsWithin(s.mem, b.mem, sp - 80, sp - 72, site.low, sp - 72, owned);
    WithinTrans(s.mem, b.mem, u.mem, site.low, sp - 72, owned);
    WithinMore(s.mem, u.mem, site.low, sp - 72, sp, owned);
    SavedThroughCall(s.mem, u.mem, site, owned, g);
  }

  lemma OutsideJoin(a: Mem, b: Mem, c: Mem, low: int, top: int, lo: int, hi: int)
    requires SameOutside(a, b, low, top) && SameOutside(b, c, lo, hi) && low <= lo && hi <= top
    ensures SameOutside(a, c, low, top) && |c| == |b|
  {
  }

  lemma UnderwayFacts(env: Env, site: Site, owned: set<int>, m: Mem, g: Regs)
    requires Underway(env, site, owned, m, g)
    ensures OwnedApart(site, owned) && site.low + 80 <= g[RSP] <= site.top <= |m| && g[RSP] % 16 == 8
  {
    hide Fixture, OwnedApart;
  }

  /** `mov rax, [rel kuk]` and `call [rax]`. */
  lemma DoCall(env: Env, site: Site, owned: set<int>, s: Cpu, g: Regs) returns (b: Cpu)
    requires Underway(env, site, owned, s.mem, g) && s.rip == site.hook + 12
    requires s.regs == g[RSP := g[RSP] - 72][RAX := s.regs[RAX]]
    ensures SameOutside(s.mem, b.mem, g[RSP] - 80, g[RSP] - 72)
    ensures b.rip == env.callback && b.calls == s.calls
    ensures b.regs == g[RSP := g[RSP] - 80][RAX := b.regs[RAX]]
    ensures ReadWord(b.mem, g[RSP] - 80) == site.hook + 21
    ensures Run(env, s, 2) == Go(b)
  {
    hide Run, Step, CodeAt, ReadWord, PushCode, PopCode, EmitBytes, Within, StubBytes, OwnedApart;
    var r := g[RSP];
    StubPieces(s.mem, site, env);
    LoadRaxOne(env, s, site.DispKuk());
    var a := s.(rip := site.hook + 19, regs := s.regs[RAX := site.kuk]);
    b := CallRaxOne(env, a);
    RunNone(env, s);
    RunThen(env, s, 0, s, a);
    RunThen(env, s, 1, a, b);
  }

  lemma WithinMore(a: Mem, b: Mem, low: nat, r: nat, r': nat, owned: set<int>)
    requires Within(a, b, low, r, owned) && r <= r'
    ensures Within(a, b, low, r', owned)
  {
  }

  lemma SavedThroughCall(m: Mem, m': Mem, site: Site, owned: set<int>, g: Regs)
    requires OwnedApart(site, owned) && site.low + 80 <= g[RSP] <= site.top
    requires SavedAt(m, g[RSP] - 72, RESTORED, g) && Within(m, m', site.low, g[RSP] - 72, owned)
    ensures SavedAt(m', g[RSP] - 72, RESTORED, g)
  {
    hide SavedAt;
    SavedKept(m, m', g[RSP] - 72, RESTORED, g);
  }

  /** The callback is entered on an aligned stack and comes back behind the call. */
  lemma CallbackOne(env: Env, site: Site, owned: set<int>, r: Mem, b: Cpu, g: Regs) returns (u: Cpu)
    requires AbiCallback(env, site, owned, r, g) && SameOutside(r, b.mem, site.low, g[RSP])
    requires b.rip == env.callback && 80 <= g[RSP] <= |b.mem| && g[RSP] % 16 == 8
    requires b.regs == g[RSP := g[RSP] - 80][RAX := b.regs[RAX]]
    requires ReadWord(b.mem, g[RSP] - 80) == site.hook + 21
    ensures Step(env, b) == Go(u) && u.rip == site.hook + 21
    ensures u.calls == b.calls + [Call(g[RSP] - 80, g[RDI], g[RSI], g[RDX])] && b.regs[RSP] % 16 == 8
    ensures u.regs[RSP] == g[RSP] - 72
    ensures forall q: Reg :: q == RBX || q == RBP || q >= 12 ==> u.regs[q] == g[q]
    ensures Within(b.mem, u.mem, site.low, g[RSP] - 72, owned)
  {
    hide ReadWord, Within, Fetch, TableEffect, EmitEffect, SameOutside;
    assert b.regs[RSP] % 16 == 8;
    assert StubCall(site, r, g, b.regs, b.mem);
    assert ObeysAbi(env, site, owned, b.regs, b.mem);
    var e := env.effect(b.regs, b.mem);
    u := Cpu(site.hook + 21, e.0, e.1, b.calls + [Call(g[RSP] - 80, g[RDI], g[RSI], g[RDX])]);
  }

  /** The pops and the jump: every register is as at the entry. */
  lemma RestorePhase(env: Env, site: Site, owned: set<int>, s: Cpu, g: Regs) returns (u: Cpu)
    requires Underway(env, site, owned, s.mem, g) && s.rip == site.hook + 21
    requires s.regs[RSP] == g[RSP] - 72 && SavedAt(s.mem, g[RSP] - 72, RESTORED, g)
    requires forall q: Reg :: q == RBX || q == RBP || q >= 12 ==> s.regs[q] == g[q]
    ensures Run(env, s, 10) == Go(u)
    ensures u == Cpu(site.tramp, g, s.mem, s.calls)
  {
    hide Run, Step, CodeAt, ReadWord, PushCode, PopCode, EmitBytes, SavedAt, OwnedApart, StubBytes, Restored;
    StubPieces(s.mem, site, env);
    var t := PopRun(env, s, RESTORED, g);
    AllRestored(t.regs, s.regs, g);
    JmpMemOne(env, t, site.DispTramp());
    u := Cpu(site.tramp, g, s.mem, s.calls);
    RunThen(env, s, 9, t, u);
  }

  lemma AllRestored(g'': Regs, g': Regs, g: Regs)
    requires 72 <= g[RSP]
    requires Restored(g'', g', RESTORED, g, g[RSP] - 72 + 8 * |RESTORED|)
    requires forall q: Reg :: q == RBX || q == RBP || q >= 12 ==> g'[q] == g[q]
    ensures g'' == g
  {
    forall q: Reg ensures g''[q] == g[q] {
      assert q in RESTORED || q == RSP || q == RBX || q == RBP || q >= 12 by {
        assert RESTORED[0] == 0 && RESTORED[1] == 1 && RESTORED[2] == 2 && RESTORED[3] == 8 && RESTORED[4] == 9;
        assert RESTORED[5] == 10 && RESTORED[6] == 11 && RESTORED[7] == 7 && RESTORED[8] == 6;
      }
    }
  }

  lemma EntryFits(env: Env, site: Site, owned: set<int>, m: Mem, g: Regs)
    requires Underway(env, site, owned, m, g)
    ensures NotIn(env.callback, site.proc, 13) && 16 <= g[RSP] <= |m|
    ensures Clear(g[RSP] - 16, g[RSP], site.proc, 13)
    ensures site.low + 80 <= g[RSP] && site.hook < TWO64
  {
    hide Fixture, OwnedApart;
  }

  lemma OutsideMore(a: Mem, b: Mem, lo: int, hi: int, lo': int, hi': int)
    requires SameOutside(a, b, lo, hi) && lo' <= lo && hi <= hi'
    ensures SameOutside(a, b, lo', hi')
  {
  }

  /** From the patched entry to the trampoline: the callback has been called exactly once, with the
      arguments of the hooked function; every general register and the stack pointer are back; memory
      differs at most in the dead stack below the entry's rsp and in the callback's own memory. */
  lemma EntryToTrampoline(env: Env, site: Site, owned: set<int>, m: Mem, g: Regs) returns (t: Cpu)
    requires Underway(env, site, owned, m, g) && AbiCallback(env, site, owned, m, g)
    requires CodeAt(m, site.proc, EntryBytes(site.hook))
    ensures Run(env, Cpu(site.proc, g, m, []), 25) == Go(t)
    ensures t.rip == site.tramp && t.regs == g
    ensures t.calls == [Call(g[RSP] - 80, g[RDI], g[RSI], g[RDX])]
    ensures Within(m, t.mem, site.low, g[RSP], owned)
  {
    hide Run, Step, CodeAt, ReadWord, EntryBytes, SavedAt, Within, AbiCallback, Underway, SameOutside;
    EntryFits(env, site, owned, m, g);
    var sp := g[RSP];
    var s0 := Cpu(site.proc, g, m, []);
    var s1 := EntryRun(env, s0, site.hook);
    OutsideIsWithin(m, s1.mem, sp - 16, sp, site.low, sp, owned);
    UnderwayKept(env, site, owned, m, s1.mem, g);
    var s2 := SavePhase(env, site, owned, s1, g);
    OutsideMore(m, s1.mem, sp - 16, sp, site.low, sp);
    OutsideJoin(m, s1.mem, s2.mem, site.low, sp, sp - 72, sp - 8);
    OutsideIsWithin(m, s2.mem, site.low, sp, site.low, sp, owned);
    UnderwayKept(env, site, owned, m, s2.mem, g);
    var s3 := CallPhase(env, site, owned, m, s2, g);
    UnderwayKept(env, site, owned, s2.mem, s3.mem, g);
    t := RestorePhase(env, site, owned, s3, g);
    WithinTrans(m, s2.mem, s3.mem, site.low, sp, owned);
    RunAppend(env, s0, 4, s1, 8);
    RunAppend(env, s0, 12, s2, 3);
    RunAppend(env, s0, 15, s3, 10);
  }
}
