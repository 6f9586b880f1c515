/** A small x86-64: sixteen general registers, byte-addressed memory, and a step function for the
    instruction forms that the patcher and the stub emit, for push and pop, and for the opcodes of
    the decoder's table, whose effect is a parameter. Flags and vector registers are not part of
    the state. */
module Machine {
  import opened Bytes
  import opened Decoder
  import opened LengthGrammar

  /** Memory below the top of the 64-bit address space; an address is an index. */
  type Mem = m: seq<Byte> | |m| < TWO64
  type Regs = g: seq<Word> | |g| == 16 witness seq(16, _ => 0)
  type Reg = r: nat | r < 16

  // register numbers of the instruction encoding (Intel SDM Vol. 2, Table 2-4)
  const RAX: Reg := 0
  const RCX: Reg := 1
  const RDX: Reg := 2
  const RBX: Reg := 3
  const RSP: Reg := 4
  const RBP: Reg := 5
  const RSI: Reg := 6
  const RDI: Reg := 7
  const R8: Reg := 8
  const R9: Reg := 9
  const R10: Reg := 10
  const R11: Reg := 11

  /** One call of the callback: where the stack stood, and the first three integer arguments. */
  datatype Call = Call(rsp: Word, rdi: Word, rsi: Word, rdx: Word)

  datatype Cpu = Cpu(rip: nat, regs: Regs, mem: Mem, calls: seq<Call>)
  datatype Next = Fault | Go(s: Cpu)
  datatype Effect = NoEffect | Effect(regs: Regs, mem: Mem)

  /** The opcodes of the table other than push and pop: what they do, and which addresses they read
      and write. */
  datatype Isa = Isa(
    exec: (seq<Byte>, nat, Regs, Mem) -> (Regs, Mem),
    loads: (seq<Byte>, Regs) -> set<int>,
    stores: (seq<Byte>, Regs) -> set<int>)

  /** `effect` is the whole run of the callback, from its entry to its return. */
  datatype Env = Env(isa: Isa, callback: nat, effect: (Regs, Mem) -> (Regs, Mem))

  // ---- memory

  function Put(m: Mem, a: nat, bs: seq<Byte>): (r: Mem)
    requires a + |bs| <= |m|
    ensures |r| == |m| && r[a..a + |bs|] == bs
    ensures forall x :: 0 <= x < |m| && !(a <= x < a + |bs|) ==> r[x] == m[x]
  {
    m[..a] + bs + m[a + |bs|..]
  }

  function ReadWord(m: Mem, a: nat): Word
    requires a + 8 <= |m|
  {
    Word64(m[a..a + 8])
  }

  ghost predicate CodeAt(m: Mem, a: nat, bs: seq<Byte>) {
    a + |bs| <= |m| && m[a..a + |bs|] == bs
  }

  // ---- the emitted instruction forms

  /** `mov rax, imm64`; `ret`; `push imm32` (sign-extended); `mov dword [rsp+4], imm32`;
      `mov rax, [rip+disp32]`; `call [rax]`; `jmp [rip+disp32]`. */
  datatype Emitted = MovRax(v: Word) | Ret | Push32(dword: nat) | StoreHigh(dword: nat)
                   | LoadRax(disp: int) | CallRax | JmpMem(disp: int)

  predicate Encodable(e: Emitted) {
    match e
    case Push32(v) => v < TWO32
    case StoreHigh(v) => v < TWO32
    case LoadRax(d) => -0x8000_0000 <= d < 0x8000_0000
    case JmpMem(d) => -0x8000_0000 <= d < 0x8000_0000
    case _ => true
  }

  function Unsigned32(d: int): nat
    requires -0x8000_0000 <= d < 0x8000_0000
  {
    if d < 0 then d + TWO32 else d
  }

  function Signed32(v: nat): int {
    if v < 0x8000_0000 then v else v - TWO32
  }

  function SignExtend(v: nat): Word
    requires v < TWO32
  {
    if v < 0x8000_0000 then v else v + (TWO64 - TWO32)
  }

  function EmitBytes(e: Emitted): seq<Byte>
    requires Encodable(e)
  {
    match e
    case MovRax(v) => [0x48, 0xB8] + ToLE(v, 8)
    case Ret => [0xC3]
    case Push32(v) => [0x68] + ToLE(v, 4)
    case StoreHigh(v) => [0xC7, 0x44, 0x24, 0x04] + ToLE(v, 4)
    case LoadRax(d) => [0x48, 0x8B, 0x05] + ToLE(Unsigned32(d), 4)
    case CallRax => [0xFF, 0x10]
    case JmpMem(d) => [0xFF, 0x25] + ToLE(Unsigned32(d), 4)
  }

  function PushBytes(r: Reg): seq<Byte> {
    if r < 8 then [0x50 + r] else [0x41, 0x50 + (r - 8)]
  }

  function PopBytes(r: Reg): seq<Byte> {
    if r < 8 then [0x58 + r] else [0x41, 0x58 + (r - 8)]
  }

  // ---- fetching

  datatype Fetched = Illegal | TableInsn(n: nat) | Emit(e: Emitted, n: nat)

  /** At most 15 bytes are looked at for one instruction. */
  function Window(m: Mem, a: nat): (w: seq<Byte>)
    ensures |w| <= 15
  {
    if a > |m| then [] else if a + 15 <= |m| then m[a..a + 15] else m[a..]
  }

  function ParseEmitted(w: seq<Byte>): Fetched {
    if |w| >= 10 && w[0] == 0x48 && w[1] == 0xB8 then Emit(MovRax(Word64(w[2..10])), 10)
    else if |w| >= 1 && w[0] == 0xC3 then Emit(Ret, 1)
    else if |w| >= 5 && w[0] == 0x68 then Emit(Push32(FromLE(w[1..5])), 5)
    else if |w| >= 8 && w[0] == 0xC7 && w[1] == 0x44 && w[2] == 0x24 && w[3] == 0x04 then
      Emit(StoreHigh(FromLE(w[4..8])), 8)
    else if |w| >= 7 && w[0] == 0x48 && w[1] == 0x8B && w[2] == 0x05 then
      Emit(LoadRax(Signed32(FromLE(w[3..7]))), 7)
    else if |w| >= 2 && w[0] == 0xFF && w[1] == 0x10 then Emit(CallRax, 2)
    else if |w| >= 6 && w[0] == 0xFF && w[1] == 0x25 then Emit(JmpMem(Signed32(FromLE(w[2..6]))), 6)
    else Illegal
  }

  function FetchWindow(w: seq<Byte>): Fetched {
    match Length64(w)
    case Length(n) => if n <= |w| then TableInsn(n) else Illegal
    case Wrong => ParseEmitted(w)
    case OffEnd => Illegal
  }

  function Fetch(m: Mem, a: nat): Fetched {
    FetchWindow(Window(m, a))
  }

  // ---- effects

  function PushWord(g: Regs, m: Mem, v: Word): Effect {
    var sp := g[RSP];
    if sp < 8 || sp > |m| then NoEffect
    else Effect(g[RSP := sp - 8], Put(m, sp - 8, ToLE(v, 8)))
  }

  function PopReg(g: Regs, m: Mem, r: Reg): Effect {
    var sp := g[RSP];
    if sp + 8 > |m| then NoEffect else Effect(g[RSP := sp + 8][r := ReadWord(m, sp)], m)
  }

  predicate IsPush(bs: seq<Byte>) {
    (|bs| == 1 && 0x50 <= bs[0] < 0x58) || (|bs| == 2 && bs[0] == 0x41 && 0x50 <= bs[1] < 0x58)
  }

  predicate IsPop(bs: seq<Byte>) {
    (|bs| == 1 && 0x58 <= bs[0] < 0x60) || (|bs| == 2 && bs[0] == 0x41 && 0x58 <= bs[1] < 0x60)
  }

  function StackReg(bs: seq<Byte>): Reg
    requires IsPush(bs) || IsPop(bs)
  {
    if |bs| == 1 then bs[0] % 8 else 8 + bs[1] % 8
  }

  /** Effect of one instruction of the table that ends at address `next`. */
  function TableEffect(isa: Isa, bs: seq<Byte>, next: nat, g: Regs, m: Mem): Effect {
    if IsPush(bs) then PushWord(g, m, g[StackReg(bs)])
    else if IsPop(bs) then PopReg(g, m, StackReg(bs))
    else var r := isa.exec(bs, next, g, m); Effect(r.0, r.1)
  }

  function Then(s: Cpu, e: Effect, rip: nat): Next {
    match e
    case NoEffect => Fault
    case Effect(g, m) => Go(Cpu(rip, g, m, s.calls))
  }

  /** Effect of one emitted instruction that ends at address `next`. */
  function EmitEffect(s: Cpu, e: Emitted, next: nat): Next {
    var g, m, sp := s.regs, s.mem, s.regs[RSP];
    match e
    case MovRax(v) => Go(s.(rip := next, regs := g[RAX := v]))
    case Ret => if sp + 8 > |m| then Fault
                else Go(s.(rip := ReadWord(m, sp), regs := g[RSP := sp + 8]))
    case Push32(v) => if v >= TWO32 then Fault else Then(s, PushWord(g, m, SignExtend(v)), next)
    case StoreHigh(v) => if sp + 8 > |m| then Fault
                         else Go(s.(rip := next, mem := Put(m, sp + 4, ToLE(v, 4))))
    case LoadRax(d) => if next + d < 0 || next + d + 8 > |m| then Fault
                       else Go(s.(rip := next, regs := g[RAX := ReadWord(m, next + d)]))
    case CallRax => if g[RAX] + 8 > |m| || next >= TWO64 then Fault
                    else Then(s, PushWord(g, m, next), ReadWord(m, g[RAX]))
    case JmpMem(d) => if next + d < 0 || next + d + 8 > |m| then Fault
                      else Go(s.(rip := ReadWord(m, next + d)))
  }

  /** The callback runs as one step: it returns to the address on top of the stack. */
  function CallbackStep(env: Env, s: Cpu): Next {
    var g, sp := s.regs, s.regs[RSP];
    if sp + 8 > |s.mem| then Fault
    else
      var r := env.effect(g, s.mem);
      Go(Cpu(ReadWord(s.mem, sp), r.0, r.1, s.calls + [Call(sp, g[RDI], g[RSI], g[RDX])]))
  }

  function Step(env: Env, s: Cpu): Next {
    if s.rip == env.callback then CallbackStep(env, s)
    else
      match Fetch(s.mem, s.rip)
      case Illegal => Fault
      case TableInsn(n) =>
        if s.rip + n > |s.mem| then Fault
        else Then(s, TableEffect(env.isa, s.mem[s.rip..s.rip + n], s.rip + n, s.regs, s.mem), s.rip + n)
      case Emit(e, n) => EmitEffect(s, e, s.rip + n)
  }

  function Run(env: Env, s: Cpu, n: nat): Next
    decreases n
  {
    if n == 0 then Go(s)
    else match Step(env, s)
         case Fault => Fault
         case Go(t) => Run(env, t, n - 1)
  }

  lemma {:induction false} RunAppend(env: Env, s: Cpu, n: nat, t: Cpu, k: nat)
    requires Run(env, s, n) == Go(t)
    ensures Run(env, s, n + k) == Run(env, t, k)
    decreases n
  {
    hide Step;
    if n > 0 {
      RunAppend(env, Step(env, s).s, n - 1, t, k);
    }
  }

  lemma RunOne(env: Env, s: Cpu)
    ensures Run(env, s, 1) == Step(env, s)
  {
    hide Step;
    if Step(env, s).Go? {
      assert Run(env, Step(env, s).s, 0) == Step(env, s);
    }
  }

  // ---- fetching what was written

  /** Sign extension keeps the value of the dword as a signed number, in two's complement. */
  lemma SignExtends(v: nat)
    requires v < 0x1_0000_0000
    ensures SignExtend(v) % 0x1_0000_0000 == v
    ensures v < 0x8000_0000 ==> SignExtend(v) < 0x8000_0000
    ensures v >= 0x8000_0000 ==> 0xFFFF_FFFF_8000_0000 <= SignExtend(v) < 0x1_0000_0000_0000_0000
  {
  }

  lemma WindowHolds(m: Mem, a: nat, bs: seq<Byte>)
    requires CodeAt(m, a, bs) && |bs| <= 15
    ensures bs <= Window(m, a)
  {
    var w := Window(m, a);
    forall i | 0 <= i < |bs| ensures w[i] == bs[i] {
      assert m[a..a + |bs|][i] == m[a + i];
    }
  }

  lemma FetchTable(m: Mem, a: nat, bs: seq<Byte>)
    requires CodeAt(m, a, bs) && |bs| <= 15 && Length64(bs) == Length(|bs|)
    ensures Fetch(m, a) == TableInsn(|bs|)
  {
    hide Length64, CodeAt, Window;
    WindowHolds(m, a, bs);
    var w := Window(m, a);
    Length64SelfDelimiting(bs, w, |bs|);
  }

  /** An instruction of more than 15 bytes faults (Intel SDM Vol. 2, section 2.3.11). */
  lemma TooLongFaults(m: Mem, a: nat, n: nat)
    requires a <= |m| && Length64(m[a..]) == Length(n) && n > 15
    ensures Fetch(m, a) == Illegal
  {
    hide Length64;
    var w := Window(m, a);
    assert w <= m[a..];
    PrefixNotWrong(w, m[a..]);
    if Length64(w).Length? {
      Length64SelfDelimiting(w, m[a..], Length64(w).n);
    }
  }

  lemma Signed32Back(d: int)
    requires -0x8000_0000 <= d < 0x8000_0000
    ensures Signed32(FromLE(ToLE(Unsigned32(d), 4))) == d
  {
    Pow256Values();
    FromToLE(Unsigned32(d), 4);
  }

  lemma ParsesEmitted(w: seq<Byte>, e: Emitted)
    requires Encodable(e) && EmitBytes(e) <= w
    ensures ParseEmitted(w) == Emit(e, |EmitBytes(e)|)
  {
    hide Word64, FromLE, ToLE, Signed32, Unsigned32;
    var bs := EmitBytes(e);
    assert forall i :: 0 <= i < |bs| ==> w[i] == bs[i];
    match e
    case MovRax(v) => Word64OfLE(v); assert w[2..10] == ToLE(v, 8);
    case Ret =>
    case Push32(v) => Pow256Values(); FromToLE(v, 4); assert w[1..5] == ToLE(v, 4);
    case StoreHigh(v) => Pow256Values(); FromToLE(v, 4); assert w[4..8] == ToLE(v, 4);
    case LoadRax(d) => Signed32Back(d); assert w[3..7] == ToLE(Unsigned32(d), 4);
    case CallRax =>
    case JmpMem(d) => Signed32Back(d); assert w[2..6] == ToLE(Unsigned32(d), 4);
  }

  lemma EmittedNotInTable(w: seq<Byte>, e: Emitted)
    requires Encodable(e) && EmitBytes(e) <= w
    ensures Length64(w) == Wrong
  {
    var bs := EmitBytes(e);
    assert w[0] == bs[0];
    if e.MovRax? || e.LoadRax? {
      assert w[1] == bs[1];
      PrefixRunIs(w, 1);
    } else {
      PrefixRunIs(w, 0);
    }
  }

  /** The emitted bytes are fetched as the instruction they were emitted for. */
  lemma FetchEmitted(m: Mem, a: nat, e: Emitted)
    requires Encodable(e) && CodeAt(m, a, EmitBytes(e))
    ensures Fetch(m, a) == Emit(e, |EmitBytes(e)|)
  {
    assert |EmitBytes(e)| <= 15;
    hide EmitBytes, Length64, CodeAt, Window, ParseEmitted;
    WindowHolds(m, a, EmitBytes(e));
    ParsesEmitted(Window(m, a), e);
    EmittedNotInTable(Window(m, a), e);
  }

  // ---- single steps

  lemma StepEmitted(env: Env, s: Cpu, e: Emitted)
    requires s.rip != env.callback && Encodable(e) && CodeAt(s.mem, s.rip, EmitBytes(e))
    ensures Step(env, s) == EmitEffect(s, e, s.rip + |EmitBytes(e)|)
  {
    hide EmitBytes, CodeAt, EmitEffect, Fetch, TableEffect, CallbackStep;
    FetchEmitted(s.mem, s.rip, e);
  }

  lemma StepTable(env: Env, s: Cpu, bs: seq<Byte>)
    requires s.rip != env.callback && CodeAt(s.mem, s.rip, bs) && |bs| <= 15
    requires Length64(bs) == Length(|bs|)
    ensures Step(env, s) == Then(s, TableEffect(env.isa, bs, s.rip + |bs|, s.regs, s.mem), s.rip + |bs|)
  {
    hide Length64, EmitEffect, Fetch, TableEffect, CallbackStep, Then;
    FetchTable(s.mem, s.rip, bs);
  }

  lemma PushMeasured(r: Reg)
    ensures Length64(PushBytes(r)) == Length(|PushBytes(r)|)
    ensures IsPush(PushBytes(r)) && StackReg(PushBytes(r)) == r
  {
    PrefixRunIs(PushBytes(r), |PushBytes(r)| - 1);
    hide PrefixRun;
  }

  lemma PopMeasured(r: Reg)
    ensures Length64(PopBytes(r)) == Length(|PopBytes(r)|)
    ensures IsPop(PopBytes(r)) && !IsPush(PopBytes(r)) && StackReg(PopBytes(r)) == r
  {
    PrefixRunIs(PopBytes(r), |PopBytes(r)| - 1);
    hide PrefixRun;
  }

  lemma StepPush(env: Env, s: Cpu, r: Reg)
    requires s.rip != env.callback && CodeAt(s.mem, s.rip, PushBytes(r))
    ensures Step(env, s) == Then(s, PushWord(s.regs, s.mem, s.regs[r]), s.rip + |PushBytes(r)|)
  {
    PushMeasured(r);
    assert |PushBytes(r)| <= 15;
    hide Length64, CodeAt, PushBytes, Step, Then, PushWord, PopReg, IsPop, IsPush, StackReg;
    StepTable(env, s, PushBytes(r));
  }

  lemma StepPop(env: Env, s: Cpu, r: Reg)
    requires s.rip != env.callback && CodeAt(s.mem, s.rip, PopBytes(r))
    ensures Step(env, s) == Then(s, PopReg(s.regs, s.mem, r), s.rip + |PopBytes(r)|)
  {
    PopMeasured(r);
    assert |PopBytes(r)| <= 15;
    hide Length64, CodeAt, PopBytes, Step, Then, PushWord, PopReg, IsPop, IsPush, StackReg;
    StepTable(env, s, PopBytes(r));
  }
}
