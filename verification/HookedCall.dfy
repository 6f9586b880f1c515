/** From a successful `hook` to the first call of the hooked function. */
module HookedCall {
  import opened Bytes
  import opened HookSpace
  import opened Machine
  import opened Detour
  import opened Stub
  import opened Passage
  import opened Transparency

  /** The lengths of the instructions up to the hook boundary. */
  ghost function Moved(m: Measure, d: nat): (lens: seq<nat>)
    requires HookBoundary(m, d)
    ensures Tiles(m, 0, lens) && Sum(lens) == d
  {
    var lens :| Tiles(m, 0, lens) && Sum(lens) == d;
    lens
  }

  /** They are the only lengths that tile the moved entry. */
  lemma MovedIs(m: Measure, d: nat, lens: seq<nat>)
    requires Positive(m) && HookBoundary(m, d) && Tiles(m, 0, lens) && Sum(lens) == d
    ensures Moved(m, d) == lens
  {
    hide Boundary;
    TilingsNest(m, 0, lens, Moved(m, d));
    TilingsNest(m, 0, Moved(m, d), lens);
  }

  lemma OneBoundary(m: Measure, d: nat, e: nat)
    requires HookBoundary(m, d) && HookBoundary(m, e)
    ensures d == e
  {
    hide Boundary;
  }

  /** Memory `m` once `kuk` holds the callback. */
  function WithKuk(m: Mem, site: Site, callback: Word): (r: Mem)
    requires site.kuk + 8 <= |m|
    ensures |r| == |m|
  {
    Put(m, site.kuk, ToLE(callback, 8))
  }

  /** Before `hook`: the pieces are laid out, stub and table slots are as the loader leaves them, the
      stack is aligned as after a call, and the callback is one. */
  ghost predicate Ready(env: Env, site: Site, owned: set<int>, m: Mem, g: Regs)
    ensures Ready(env, site, owned, m, g) ==>
              site.kuk + 8 <= |m| && env.callback < TWO64 && site.hook < TWO64 && site.proc <= |m|
    ensures Ready(env, site, owned, m, g) ==>
              forall r: Mem :: |r| == |m| ==> Room(r, site.proc, site.copy, site.tramp)
  {
    && Layout(site, env, |m|) && OwnedApart(site, owned) && Loaded(m, site, env)
    && site.low + 80 <= g[RSP] <= site.top && g[RSP] % 16 == 8 && env.callback < TWO64
  }

  /** In addition `get_hook_space` finds `site.copy` bytes, and the rest of the premises of the detour
      theorem holds for the memory in which `kuk` is set and the function still untouched. */
  ghost predicate Hookable(env: Env, site: Site, owned: set<int>, was: Mem, g: Regs)
    ensures Hookable(env, site, owned, was, g) ==> Ready(env, site, owned, was, g)
    ensures Hookable(env, site, owned, was, g) ==>
              HookBoundary(At(WithKuk(was, site, env.callback)[site.proc..]), site.copy)
  {
    Ready(env, site, owned, was, g) &&
    var m := WithKuk(was, site, env.callback);
    && HookBoundary(At(m[site.proc..]), site.copy)
    && AbiCallback(env, site, owned, Hooked(m, site), g) && LocalIsa(env.isa)
    && BlockOk(env, site, Cpu(site.proc, g, m, []), Moved(At(m[site.proc..]), site.copy), DirtyAtEntry(site, g, owned))
  }

  /** Storing `kuk` completes the fixture. */
  lemma KukStored(env: Env, site: Site, owned: set<int>, m: Mem, g: Regs)
    requires Ready(env, site, owned, m, g)
    ensures Underway(env, site, owned, WithKuk(m, site, env.callback), g)
  {
    hide CodeAt, ReadWord, StubBytes, Encodable, ToLE, Put, OwnedApart;
    var r := WithKuk(m, site, env.callback);
    StubSize(site.DispKuk(), site.DispTramp());
    WordWritten(m, site.kuk, env.callback);
    PutKeeps(m, site.kuk, ToLE(env.callback, 8), site.hook, 40);
    PutKeeps(m, site.kuk, ToLE(env.callback, 8), site.gotKuk, 8);
    PutKeeps(m, site.kuk, ToLE(env.callback, 8), site.gotTramp, 8);
    CodeKept(m, r, site.hook, StubBytes(site.DispKuk(), site.DispTramp()));
    WordKept(m, r, site.gotKuk);
    WordKept(m, r, site.gotTramp);
  }

  lemma PutKeeps(m: Mem, a: nat, bs: seq<Byte>, at: nat, n: nat)
    requires a + |bs| <= |m| && Clear(a, a + |bs|, at, n)
    ensures SameIn(m, Put(m, a, bs), at, n)
  {
  }

  /** The addresses at which memory may still differ behind the moved entry: what was dirty at the entry and
      no moved instruction has written. */
  ghost function StillDirty(env: Env, site: Site, owned: set<int>, was: Mem, g: Regs): set<int>
    requires Hookable(env, site, owned, was, g)
  {
    var m := WithKuk(was, site, env.callback);
    DirtyAfter(env, site, Cpu(site.proc, g, m, []), Moved(At(m[site.proc..]), site.copy), DirtyAtEntry(site, g, owned))
  }

  /** A call of the function in memory `hooked` and one in memory `plain`, from the same registers, come to
      the end of the moved entry in `t` and `u`, after `n` and `k` steps, with the one difference. */
  ghost predicate CallsAlike(env: Env, site: Site, g: Regs, hooked: Mem, plain: Mem, dirty: set<int>,
                             n: nat, t: Cpu, k: nat, u: Cpu) {
    && Run(env, Cpu(site.proc, g, hooked, []), n) == Go(t) && Run(env, Cpu(site.proc, g, plain, []), k) == Go(u)
    && SameButForTheCall(site, g, t, u, dirty)
  }

  /** What `hook` leaves in memory behaves as the untouched function, but for the one callback. */
  lemma HookedIsTransparent(env: Env, site: Site, owned: set<int>, was: Mem, g: Regs)
    returns (n: nat, t: Cpu, k: nat, u: Cpu)
    requires Hookable(env, site, owned, was, g)
    ensures var m := WithKuk(was, site, env.callback);
            CallsAlike(env, site, g, Hooked(m, site), m, StillDirty(env, site, owned, was, g), n, t, k, u)
  {
    hide Run, WithKuk, Hooked, Underway, AbiCallback, LocalIsa, At, BlockOk, HookBoundary, DirtyAtEntry, DirtyAfter,
      Ready, Agree;
    KukStored(env, site, owned, was, g);
    var m := WithKuk(was, site, env.callback);
    var lens := Moved(At(m[site.proc..]), site.copy);
    UnderwayFacts(env, site, owned, m, g);
    n, t, u := DetourIsTransparent(env, site, owned, m, g, lens);
    k := |lens|;
  }

  /** The process `p` and its function at `proc` are what `site` and `env` describe, memory is `was`, and
      hook number `n` selects the callback. */
  ghost predicate Describes(env: Env, site: Site, was: Mem, p: Process, proc: nat, n: int)
    reads p, p.mem
    ensures Describes(env, site, was, p, proc, n) ==> p.mem.Length == |was| && site.proc == proc
  {
    && p.Valid() && p.mem[..] == was && p.Writable(p.kuk, 8) && site.proc == proc != 0 && site.copy + 14 <= PAGE
    && site.tramp == p.trampoline && site.hook == p.hook1 && site.kuk == p.kuk
    && env.callback == if n == 0 then p.kuks[1] else if n == 1 then p.kuks[2] else if n == 2 then p.kuks[0] else 0
  }

  /** Installing the hook and then calling the hooked function. When the system allows the writes, `hook`
      returns true, and the call runs the callback once, with the arguments of the call, and reaches the
      instruction behind the moved entry as a call of the untouched function does, with the stack words that
      the moved instructions wrote. */
  method HookThenCall(p: Process, proc: nat, n: int, okFirst: bool, okLast: bool,
                      ghost env: Env, ghost site: Site, ghost owned: set<int>, ghost was: Mem, ghost g: Regs)
    returns (ok: bool, ghost i: nat, ghost t: Cpu, ghost k: nat, ghost u: Cpu)
    requires Hookable(env, site, owned, was, g) && Describes(env, site, was, p, proc, n)
    modifies p, p.mem
    ensures ok
    ensures okFirst && (okLast || PageStart(proc) == PageStart(proc + site.copy)) ==>
              CallsAlike(env, site, g, p.mem[..], WithKuk(was, site, env.callback),
                         StillDirty(env, site, owned, was, g), i, t, k, u)
  {
    hide CallsAlike, Put, Installed, Copied, At, HookBoundary, StillDirty, Ready, Hookable, PageStart;
    ghost var m := WithKuk(was, site, env.callback);
    assert m == p.Selected(n);
    forall d: nat | HookBoundary(At(m[proc..]), d) ensures d == site.copy {
      OneBoundary(At(m[proc..]), d, site.copy);
    }
    i, t, k, u := HookedIsTransparent(env, site, owned, was, g);
    ok := p.Hook(proc, n, true, okFirst, okLast);
  }
}
