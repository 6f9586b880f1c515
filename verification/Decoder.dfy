/** The AMD64 instruction measurer of src/len64.c: its opcode table and `read_instruction64`. */
module Decoder {
  import opened Bytes

  /** `Length` is a measured instruction, `Wrong` the table's refusal (the source returns -1) and
      `OffEnd` a walk that leaves the readable bytes, which the source does not guard against. */
  datatype Outcome = Length(n: nat) | Wrong | OffEnd

  datatype Variant = Variant(mask: Byte, val: Byte, imm: nat, imm66: nat, addr: nat, addr67: nat)
  datatype Prefix = NotPrefix | Refused | OperandSize | AddressSize | Rex
  datatype Info = Info(prefix: Prefix, last: bool, modrm: bool, variants: seq<Variant>)

  const NO_MODRM := [Variant(0x00, 0x00, 0, 0, 0, 0)]
  const MODRM := [Variant(0x00, 0x00, 0, 0, 0, 0)]
  const MODRM_BYTE := [Variant(0x00, 0x00, 1, 1, 0, 0)]
  const GROUP3_BYTE := [Variant(0x38, 0x00, 1, 1, 0, 0), Variant(0x00, 0x00, 0, 0, 0, 0)]
  const NO_MODRM_IMM8 := [Variant(0x00, 0x00, 1, 1, 0, 0)]
  const NO_MODRM_IMM16_32 := [Variant(0x00, 0x00, 4, 2, 0, 0)]

  /** The 256-entry table `byte1`. */
  function Table(op: Byte): Info {
    if op <= 0x03 || op == 0x89 || op == 0x8D then Info(NotPrefix, true, true, MODRM)
    else if op == 0x04 then Info(NotPrefix, true, false, NO_MODRM_IMM8)
    else if op == 0x05 then Info(NotPrefix, true, false, NO_MODRM_IMM16_32)
    else if 0x40 <= op <= 0x4F then Info(Rex, false, false, NO_MODRM)
    else if 0x50 <= op <= 0x5F || op == 0x90 then Info(NotPrefix, true, false, NO_MODRM)
    else if op == 0x66 then Info(OperandSize, false, false, NO_MODRM)
    else if op == 0x67 then Info(AddressSize, false, false, NO_MODRM)
    else if op == 0x83 then Info(NotPrefix, true, true, MODRM_BYTE)
    else if op == 0xF6 then Info(NotPrefix, true, true, GROUP3_BYTE)
    else Info(Refused, true, false, NO_MODRM)
  }

  /** Bitwise "and" of two bytes. */
  function And(a: nat, b: nat): nat {
    if a == 0 || b == 0 then 0 else (a % 2) * (b % 2) + 2 * And(a / 2, b / 2)
  }

  lemma AndDoubled(a: nat, b: nat)
    ensures And(a, 2 * b) == 2 * And(a / 2, b)
  {
  }

  lemma AndSeven(a: nat)
    ensures And(a, 7) == a % 8
  {
    AndOdd(a, 3);
    AndOdd(a / 2, 1);
    AndOdd(a / 4, 0);
    AndZero(a / 8);
    hide And;
    assert a / 2 / 2 == a / 4 && a / 4 / 2 == a / 8;
  }

  lemma AndOdd(a: nat, b: nat)
    ensures And(a, 2 * b + 1) == a % 2 + 2 * And(a / 2, b)
  {
    assert (2 * b + 1) / 2 == b && (2 * b + 1) % 2 == 1;
  }

  lemma AndZero(a: nat)
    ensures And(a, 0) == 0
  {
  }

  lemma RegMask(b: Byte)
    ensures And(b, 0x38) == ModrmReg(b) * 8
    ensures And(b, 0x00) == 0
  {
    AndDoubled(b, 28);
    AndDoubled(b / 2, 14);
    AndDoubled(b / 4, 7);
    AndSeven(b / 8);
    hide And;
    assert b / 2 / 2 == b / 4 && b / 4 / 2 == b / 8;
  }

  function ModrmMod(b: Byte): (m: nat) ensures m < 4 { b / 64 }
  function ModrmReg(b: Byte): (r: nat) ensures r < 8 { (b / 8) % 8 }
  function ModrmRm(b: Byte): (r: nat) ensures r < 8 { b % 8 }

  /** Bytes the table treats as prefixes. */
  predicate IsPrefix(b: Byte) {
    0x40 <= b <= 0x4F || b == 0x66 || b == 0x67
  }

  /** Number of leading prefix bytes. */
  function PrefixRun(code: seq<Byte>): (k: nat)
    ensures k <= |code|
  {
    if |code| == 0 || !IsPrefix(code[0]) then 0 else 1 + PrefixRun(code[1..])
  }

  lemma {:induction false} PrefixRunSpec(code: seq<Byte>)
    ensures forall i :: 0 <= i < PrefixRun(code) ==> IsPrefix(code[i])
    ensures PrefixRun(code) < |code| ==> !IsPrefix(code[PrefixRun(code)])
  {
    if |code| > 0 && IsPrefix(code[0]) {
      PrefixRunSpec(code[1..]);
    }
  }

  /** A run is determined by its prefixes and the first byte after them. */
  lemma {:induction false} PrefixRunIs(code: seq<Byte>, k: nat)
    requires k <= |code|
    requires forall i :: 0 <= i < k ==> IsPrefix(code[i])
    requires k < |code| ==> !IsPrefix(code[k])
    ensures PrefixRun(code) == k
  {
    if k > 0 {
      PrefixRunIs(code[1..], k - 1);
    }
  }

  /** Immediate bytes of opcode `op`, as the table's variant lists give them; `reg` is the reg
      field of the ModRM byte. */
  function Immediate(op: Byte, x66: bool, reg: nat): nat {
    if op == 0x04 || op == 0x83 then 1
    else if op == 0x05 then (if x66 then 2 else 4)
    else if op == 0xF6 && reg == 0 then 1
    else 0
  }

  /** Displacement bytes under the table's own ModRM rule: 0x67 selects the 16-bit layout. */
  function Displacement(modrm: Byte, sib: Byte, x67: bool): nat {
    var mod, rm := ModrmMod(modrm), ModrmRm(modrm);
    if x67 then
      if mod == 0 && rm == 6 then 2 else if mod == 1 then 1 else if mod == 2 then 2 else 0
    else
      if mod == 1 then 1 else if mod == 2 then 4
      else if mod == 0 && rm == 5 then 4
      else if mod == 0 && rm == 4 && sib % 8 == 5 then 4
      else 0
  }

  predicate NeedsSib(modrm: Byte, x67: bool) {
    !x67 && ModrmRm(modrm) == 4 && ModrmMod(modrm) != 3
  }

  /** The measured length of the instruction at the start of `code`: prefixes, opcode, ModRM, SIB,
      displacement, immediate. Displacement and immediate bytes are counted, never read. */
  function Decode(code: seq<Byte>): Outcome {
    var k := PrefixRun(code);
    if k >= |code| then OffEnd
    else
      var op := code[k];
      var x66, x67 := 0x66 in code[..k], 0x67 in code[..k];
      if Table(op).prefix == Refused then Wrong
      else if !Table(op).modrm then Length(k + 1 + Immediate(op, x66, 0))
      else if k + 1 >= |code| then OffEnd
      else
        var m := code[k + 1];
        var fixed := k + 2 + Immediate(op, x66, ModrmReg(m));
        if !NeedsSib(m, x67) then Length(fixed + Displacement(m, 0, x67))
        else if k + 2 >= |code| then OffEnd
        else Length(fixed + 1 + Displacement(m, code[k + 2], x67))
  }

  /** `read_instruction64`: the pointer walk of the source, with its flags and counters. */
  method ReadInstruction64(code: seq<Byte>) returns (r: Outcome)
    ensures r == Decode(code)
  {
    var cur := 0;
    var opSizeOverride, addrSizeOverride := false, false;
    var getModrm, getSib := false, false;
    var displacement, imm, addr := 0, 0, 0;
    var mod, rm := 0, 0;
    ghost var k := PrefixRun(code);
    PrefixRunSpec(code);
    while true
      invariant 0 <= cur <= k
      invariant opSizeOverride == (0x66 in code[..cur])
      invariant addrSizeOverride == (0x67 in code[..cur])
      invariant imm == 0 && addr == 0 && displacement == 0 && !getModrm && !getSib
      decreases |code| - cur
    {
      if cur >= |code| {
        return OffEnd;
      }
      var info := Table(code[cur]);
      if info.prefix == Refused {
        return Wrong;
      }
      assert code[..cur + 1] == code[..cur] + [code[cur]];
      cur := cur + 1;
      if info.prefix == AddressSize {
        addrSizeOverride := true;
      } else if info.prefix == OperandSize {
        opSizeOverride := true;
      }
      if info.last {
        getModrm := info.modrm;
        var varInfo := 0;
        if getModrm {
          if cur >= |code| {
            return OffEnd;
          }
          RegMask(code[cur]);
          while And(code[cur], info.variants[varInfo].mask) != info.variants[varInfo].val
            invariant 0 <= varInfo < |info.variants|
            invariant varInfo > 0 ==> info.variants == GROUP3_BYTE && ModrmReg(code[cur]) != 0
            decreases |info.variants| - varInfo
          {
            varInfo := varInfo + 1;
          }
        }
        imm := imm + if opSizeOverride then info.variants[varInfo].imm66 else info.variants[varInfo].imm;
        addr := addr + if addrSizeOverride then info.variants[varInfo].addr67 else info.variants[varInfo].addr;
        break;
      }
    }
    assert cur == k + 1 && code[..k + 1] == code[..k] + [code[k]];
    assert imm == Immediate(code[k], 0x66 in code[..k], if getModrm then ModrmReg(code[k + 1]) else 0);
    if getModrm {
      mod := code[cur] / 64;
      rm := code[cur] % 8;
      cur := cur + 1;
      if addrSizeOverride {
        if mod == 0 && rm == 6 {
          displacement := 2;
        } else if mod == 1 {
          displacement := 1;
        } else if mod == 2 {
          displacement := 2;
        }
      } else {
        if rm == 4 && mod != 3 {
          getSib := true;
        }
        if mod == 0 && rm == 5 {
          displacement := 4;
        }
        if mod == 1 {
          displacement := 1;
        } else if mod == 2 {
          displacement := 4;
        }
      }
    }
    if getSib {
      if cur >= |code| {
        return OffEnd;
      }
      var sib := code[cur];
      cur := cur + 1;
      if sib % 8 == 5 && mod == 0 {
        displacement := displacement + 4;
      }
    }
    cur := cur + displacement + imm + addr;
    return Length(cur);
  }

  /** One-byte opcodes that transfer control or escape to another opcode map: far and near calls,
      jumps, loops, returns, interrupts, group 5 and the two-byte escape (Intel SDM Vol. 2,
      Appendix A.3, Tables A-2 and A-6). */
  predicate LeavesStraightLine(op: Byte) {
    op == 0x0F || 0x70 <= op <= 0x7F || op == 0x9A || op == 0xC2 || op == 0xC3 ||
    0xCA <= op <= 0xCF || 0xE0 <= op <= 0xE3 || 0xE8 <= op <= 0xEB || op == 0xF1 ||
    op == 0xF4 || op == 0xFF
  }

  /** The decoder reads no byte beyond the length it reports, so that length is decided by the
      instruction's own bytes, whatever follows them. */
  lemma SelfDelimiting(a: seq<Byte>, b: seq<Byte>, n: nat)
    requires Decode(a) == Length(n)
    requires forall i :: 0 <= i < n && i < |a| ==> i < |b| && b[i] == a[i]
    ensures Decode(b) == Length(n)
  {
    var k := PrefixRun(a);
    PrefixRunSpec(a);
    assert k < n && k < |a|;
    PrefixRunIs(b, k);
    assert a[..k] == b[..k];
  }

  /** No decodable instruction is a proper prefix of another one. */
  lemma PrefixFree(a: seq<Byte>, b: seq<Byte>)
    requires Decode(a) == Length(|a|) && Decode(b) == Length(|b|)
    requires a <= b
    ensures a == b
  {
    SelfDelimiting(a, b, |a|);
  }

  /** Nothing the table accepts can leave the straight line. */
  lemma AcceptsStraightLineOnly(code: seq<Byte>)
    requires Decode(code).Length?
    ensures PrefixRun(code) < |code| && !LeavesStraightLine(code[PrefixRun(code)])
    ensures PrefixRun(code) < Decode(code).n
  {
    hide Immediate, Displacement, NeedsSib, PrefixRun;
  }

  /** The opcodes that are measured, and no others: ADD, push and pop, group 1 with an imm8, MOV, LEA, NOP and
      group 3. */
  lemma RefusesExactly(code: seq<Byte>)
    requires PrefixRun(code) < |code|
    ensures var op := code[PrefixRun(code)];
            Decode(code) == Wrong <==>
              !(op <= 0x05 || 0x50 <= op <= 0x5F || op == 0x83 || op == 0x89 || op == 0x8D || op == 0x90 || op == 0xF6)
    ensures var op := code[PrefixRun(code)]; !(0x40 <= op <= 0x4F || op == 0x66 || op == 0x67)
  {
    PrefixRunSpec(code);
    hide PrefixRun, Immediate, Displacement, NeedsSib;
  }
}
