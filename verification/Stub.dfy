/** Running the emitted code: pushes and pops of register lists, the patched entry, the stub of
    src/hook_asm64.asm with the callback, and the way back behind the copied instructions. */
module Stub {
  import opened Bytes
  import opened Machine
  import opened Detour

  // ---- memory that stays

  /** The two memories differ at most in `lo..hi`. */
  ghost predicate SameOutside(m: Mem, m': Mem, lo: int, hi: int) {
    |m| == |m'| && forall x :: 0 <= x < |m| && !(lo <= x < hi) ==> m'[x] == m[x]
  }

  ghost predicate SameIn(m: Mem, m': Mem, a: int, n: nat) {
    |m| == |m'| && forall x :: 0 <= x < |m| && a <= x < a + n ==> m'[x] == m[x]
  }

  lemma CodeKept(m: Mem, m': Mem, a: nat, bs: seq<Byte>)
    requires CodeAt(m, a, bs) && SameIn(m, m', a, |bs|)
    ensures CodeAt(m', a, bs)
  {
  }

  lemma WordKept(m: Mem, m': Mem, a: nat)
    requires a + 8 <= |m| && SameIn(m, m', a, 8)
    ensures ReadWord(m', a) == ReadWord(m, a)
  {
    assert m[a..a + 8] == m'[a..a + 8];
  }

  lemma CodeSplit(m: Mem, a: nat, x: seq<Byte>, y: seq<Byte>)
    requires CodeAt(m, a, x + y)
    ensures CodeAt(m, a, x) && CodeAt(m, a + |x|, y)
  {
    var all := m[a..a + |x| + |y|];
    assert all[..|x|] == x && all[|x|..] == y;
    assert m[a..a + |x|] == all[..|x|];
    assert m[a + |x|..a + |x| + |y|] == all[|x|..];
  }

  lemma WordWritten(m: Mem, a: nat, w: Word)
    requires a + 8 <= |m|
    ensures ReadWord(Put(m, a, ToLE(w, 8)), a) == w
  {
    hide ToLE;
    Word64OfLE(w);
  }

  // ---- saving and restoring registers

  function PushCode(rs: seq<Reg>): seq<Byte> {
    if rs == [] then [] else PushBytes(rs[0]) + PushCode(rs[1..])
  }

  /** Pops in the opposite order of the pushes. */
  function PopCode(rs: seq<Reg>): seq<Byte> {
    if rs == [] then [] else PopCode(rs[1..]) + PopBytes(rs[0])
  }

  /** The registers `rs`, pushed in that order, lie at `sp` and up, the last one lowest. */
  ghost predicate SavedAt(m: Mem, sp: nat, rs: seq<Reg>, g: Regs) {
    && sp + 8 * |rs| <= |m|
    && forall i :: 0 <= i < |rs| ==> ReadWord(m, sp + 8 * (|rs| - 1 - i)) == g[rs[i]]
  }

  lemma SavedKept(m: Mem, m': Mem, sp: nat, rs: seq<Reg>, g: Regs)
    requires SavedAt(m, sp, rs, g) && SameIn(m, m', sp, 8 * |rs|)
    ensures SavedAt(m', sp, rs, g)
  {
    hide ReadWord;
    forall i | 0 <= i < |rs| ensures ReadWord(m', sp + 8 * (|rs| - 1 - i)) == g[rs[i]] {
      WordKept(m, m', sp + 8 * (|rs| - 1 - i));
    }
  }

  lemma SavedJoin(m: Mem, sp: nat, r: Reg, rs: seq<Reg>, g: Regs)
    requires SavedAt(m, sp, rs, g)
    requires sp + 8 * |rs| + 8 <= |m| && ReadWord(m, sp + 8 * |rs|) == g[r]
    ensures SavedAt(m, sp, [r] + rs, g)
  {
    hide ReadWord;
    var all := [r] + rs;
    forall i | 0 <= i < |all| ensures ReadWord(m, sp + 8 * (|all| - 1 - i)) == g[all[i]] {
      if i > 0 {
        assert all[i] == rs[i - 1] && |all| - 1 - i == |rs| - 1 - (i - 1);
      }
    }
  }

  lemma SavedSplit(m: Mem, sp: nat, rs: seq<Reg>, g: Regs)
    requires rs != [] && SavedAt(m, sp, rs, g)
    ensures SavedAt(m, sp, rs[1..], g)
    ensures sp + 8 * (|rs| - 1) + 8 <= |m|
    ensures ReadWord(m, sp + 8 * (|rs| - 1)) == g[rs[0]]
  {
    hide ReadWord;
    var tail := rs[1..];
    forall i | 0 <= i < |tail| ensures ReadWord(m, sp + 8 * (|tail| - 1 - i)) == g[tail[i]] {
      assert tail[i] == rs[i + 1] && |tail| - 1 - i == |rs| - 1 - (i + 1);
    }
    assert ReadWord(m, sp + 8 * (|rs| - 1 - 0)) == g[rs[0]];
  }

  lemma PushOne(env: Env, s: Cpu, r: Reg) returns (t: Cpu)
    requires s.rip != env.callback && CodeAt(s.mem, s.rip, PushBytes(r))
    requires 8 <= s.regs[RSP] <= |s.mem|
    ensures Step(env, s) == Go(t)
    ensures t.rip == s.rip + |PushBytes(r)| && t.calls == s.calls
    ensures t.regs == s.regs[RSP := s.regs[RSP] - 8]
    ensures SameOutside(s.mem, t.mem, s.regs[RSP] - 8, s.regs[RSP])
    ensures ReadWord(t.mem, s.regs[RSP] - 8) == s.regs[r]
  {
    hide PushBytes, Step, ReadWord, ToLE, CodeAt;
    StepPush(env, s, r);
    var sp := s.regs[RSP];
    WordWritten(s.mem, sp - 8, s.regs[r]);
    t := Cpu(s.rip + |PushBytes(r)|, s.regs[RSP := sp - 8], Put(s.mem, sp - 8, ToLE(s.regs[r], 8)), s.calls);
  }

  lemma PopOne(env: Env, s: Cpu, r: Reg) returns (t: Cpu)
    requires s.rip != env.callback && CodeAt(s.mem, s.rip, PopBytes(r))
    requires s.regs[RSP] + 8 <= |s.mem|
    ensures Step(env, s) == Go(t)
    ensures t == Cpu(s.rip + |PopBytes(r)|, s.regs[RSP := s.regs[RSP] + 8][r := ReadWord(s.mem, s.regs[RSP])],
                     s.mem, s.calls)
  {
    hide PopBytes, Step, ReadWord, CodeAt;
    StepPop(env, s, r);
    t := Cpu(s.rip + |PopBytes(r)|, s.regs[RSP := s.regs[RSP] + 8][r := ReadWord(s.mem, s.regs[RSP])],
             s.mem, s.calls);
  }

  predicate NotIn(x: int, a: int, n: int) {
    !(a <= x < a + n)
  }

  lemma KeptWhenClear(m: Mem, m': Mem, lo: int, hi: int, a: int, n: nat)
    requires SameOutside(m, m', lo, hi) && Clear(lo, hi, a, n)
    ensures SameIn(m, m', a, n)
  {
  }

  /** Pushing a list of registers saves them all and moves nothing else. */
  lemma {:induction false} PushRun(env: Env, s: Cpu, rs: seq<Reg>) returns (t: Cpu)
    requires CodeAt(s.mem, s.rip, PushCode(rs)) && NotIn(env.callback, s.rip, |PushCode(rs)|)
    requires RSP !in rs && 8 * |rs| <= s.regs[RSP] <= |s.mem|
    requires Clear(s.regs[RSP] - 8 * |rs|, s.regs[RSP], s.rip, |PushCode(rs)|)
    ensures Run(env, s, |rs|) == Go(t)
    ensures t.rip == s.rip + |PushCode(rs)| && t.calls == s.calls
    ensures t.regs == s.regs[RSP := s.regs[RSP] - 8 * |rs|]
    ensures SameOutside(s.mem, t.mem, s.regs[RSP] - 8 * |rs|, s.regs[RSP])
    ensures SavedAt(t.mem, s.regs[RSP] - 8 * |rs|, rs, s.regs)
    decreases |rs|
  {
    hide Step, ReadWord, CodeAt, SavedAt, PushBytes, SameOutside, SameIn;
    if rs == [] {
      t := s;
      SameAsItself(s.mem, s.regs[RSP]);
      SavedNone(t.mem, s.regs[RSP], s.regs);
    } else {
      var sp, n := s.regs[RSP], |PushBytes(rs[0])|;
      var rest := PushCode(rs[1..]);
      PushBytesSize(rs[0]);
      CodeSplit(s.mem, s.rip, PushBytes(rs[0]), rest);
      var u := PushOne(env, s, rs[0]);
      KeptWhenClear(s.mem, u.mem, sp - 8, sp, s.rip + n, |rest|);
      CodeKept(s.mem, u.mem, s.rip + n, rest);
      t := PushRun(env, u, rs[1..]);
      PushedTogether(s, u, t, rs);
    }
  }

  lemma SameAsItself(m: Mem, at: int)
    ensures SameOutside(m, m, at, at)
  {
  }

  lemma SavedNone(m: Mem, sp: nat, g: Regs)
    requires sp <= |m|
    ensures SavedAt(m, sp, [], g)
  {
  }

  lemma PushBytesSize(r: Reg)
    ensures 1 <= |PushBytes(r)| <= 2 && 1 <= |PopBytes(r)| <= 2
  {
  }

  lemma PushedTogether(s: Cpu, u: Cpu, t: Cpu, rs: seq<Reg>)
    requires rs != [] && RSP !in rs && 8 * |rs| <= s.regs[RSP] <= |s.mem|
    requires u.regs == s.regs[RSP := s.regs[RSP] - 8]
    requires SameOutside(s.mem, u.mem, s.regs[RSP] - 8, s.regs[RSP])
    requires ReadWord(u.mem, s.regs[RSP] - 8) == s.regs[rs[0]]
    requires t.regs == u.regs[RSP := u.regs[RSP] - 8 * |rs[1..]|]
    requires SameOutside(u.mem, t.mem, u.regs[RSP] - 8 * |rs[1..]|, u.regs[RSP])
    requires SavedAt(t.mem, u.regs[RSP] - 8 * |rs[1..]|, rs[1..], u.regs)
    ensures t.regs == s.regs[RSP := s.regs[RSP] - 8 * |rs|]
    ensures SameOutside(s.mem, t.mem, s.regs[RSP] - 8 * |rs|, s.regs[RSP])
    ensures SavedAt(t.mem, s.regs[RSP] - 8 * |rs|, rs, s.regs)
  {
    hide ReadWord, SavedAt;
    var sp, tail := s.regs[RSP], rs[1..];
    SavedSameRegs(t.mem, sp - 8 * |rs|, tail, u.regs, s.regs);
    WordKept(u.mem, t.mem, sp - 8);
    SavedJoin(t.mem, sp - 8 * |rs|, rs[0], tail, s.regs);
    assert rs == [rs[0]] + tail;
  }

  lemma SavedSameRegs(m: Mem, sp: nat, rs: seq<Reg>, g: Regs, g': Regs)
    requires SavedAt(m, sp, rs, g) && forall i :: 0 <= i < |rs| ==> g'[rs[i]] == g[rs[i]]
    ensures SavedAt(m, sp, rs, g')
  {
    hide ReadWord;
  }

  /** `g` with the registers of `rs` taken from `h` and rsp set to `sp`. */
  ghost predicate Restored(g': Regs, g: Regs, rs: seq<Reg>, h: Regs, sp: nat) {
    forall r: Reg :: g'[r] == if r in rs then h[r] else if r == RSP then sp else g[r]
  }

  /** Popping restores every saved register and the stack pointer and leaves memory alone. */
  lemma {:induction false} PopRun(env: Env, s: Cpu, rs: seq<Reg>, h: Regs) returns (t: Cpu)
    requires CodeAt(s.mem, s.rip, PopCode(rs)) && NotIn(env.callback, s.rip, |PopCode(rs)|)
    requires RSP !in rs && SavedAt(s.mem, s.regs[RSP], rs, h)
    ensures Run(env, s, |rs|) == Go(t)
    ensures t.rip == s.rip + |PopCode(rs)| && t.calls == s.calls && t.mem == s.mem
    ensures Restored(t.regs, s.regs, rs, h, s.regs[RSP] + 8 * |rs|)
    decreases |rs|
  {
    hide Step, ReadWord, CodeAt, SavedAt, PopBytes, Restored, Run;
    if rs == [] {
      t := s;
      RestoredNone(s.regs, h);
      RunNone(env, s);
    } else {
      var rest, last := PopCode(rs[1..]), PopBytes(rs[0]);
      PushBytesSize(rs[0]);
      CodeSplit(s.mem, s.rip, rest, last);
      SavedSplit(s.mem, s.regs[RSP], rs, h);
      var u := PopRun(env, s, rs[1..], h);
      RestoredSp(u.regs, s.regs, rs[1..], h, s.regs[RSP] + 8 * |rs[1..]|);
      t := PopOne(env, u, rs[0]);
      RunAppend(env, s, |rs| - 1, u, 1);
      RunOne(env, u);
      RestoredMore(t.regs, u.regs, s.regs, rs, h, s.regs[RSP] + 8 * |rs[1..]|);
    }
  }

  lemma RunNone(env: Env, s: Cpu)
    ensures Run(env, s, 0) == Go(s)
  {
  }

  lemma RestoredNone(g: Regs, h: Regs)
    ensures Restored(g, g, [], h, g[RSP])
  {
  }

  lemma RestoredSp(g': Regs, g: Regs, rs: seq<Reg>, h: Regs, sp: nat)
    requires Restored(g', g, rs, h, sp) && RSP !in rs
    ensures g'[RSP] == sp
  {
  }

  lemma RestoredMore(g'': Regs, g': Regs, g: Regs, rs: seq<Reg>, h: Regs, sp: Word)
    requires rs != [] && RSP !in rs && Restored(g', g, rs[1..], h, sp) && sp + 8 < TWO64
    requires g'' == g'[RSP := sp + 8][rs[0] := h[rs[0]]]
    ensures Restored(g'', g, rs, h, sp + 8)
  {
    forall r: Reg
      ensures g''[r] == if r in rs then h[r] else if r == RSP then sp + 8 else g[r]
    {
      assert r in rs <==> r == rs[0] || r in rs[1..];
    }
  }
}
