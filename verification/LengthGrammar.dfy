/** Instruction encodings in 64-bit mode for the opcodes of the table, written from the Intel SDM
    Vol. 2 (sections 2.1.5, 2.2.1.2, 2.2.1.3 and 2.2.1.5, Tables 2-2, 2-3 and A-6) and independent
    of the decoder: what an instruction is, how long one is, and exactly where the decoder's
    measure differs. */
module LengthGrammar {
  import opened Bytes
  import opened Decoder
  import opened Options

  /** Operand forms: none, ModRM, ModRM of a memory operand only, ModRM with imm8, group 3 byte, imm8 and
      immz. */
  datatype Form = Plain | E | M | EIb | Group3 | Ib | Iz

  function FormOf(op: Byte): (f: seq<Form>)
    ensures |f| <= 1
  {
    match op
    case 0x00 => [E] case 0x01 => [E] case 0x02 => [E] case 0x03 => [E]
    case 0x89 => [E]
    case 0x8D => [M]
    case 0x83 => [EIb]
    case 0xF6 => [Group3]
    case 0x04 => [Ib]
    case 0x05 => [Iz]
    case _ => if 0x50 <= op < 0x60 || op == 0x90 then [Plain] else []
  }

  predicate HasModrm(f: Form) { f.E? || f.M? || f.EIb? || f.Group3? }

  /** A REX prefix counts only directly before the opcode. */
  predicate RexW(prefixes: seq<Byte>) {
    |prefixes| > 0 && 0x48 <= prefixes[|prefixes| - 1] <= 0x4F
  }

  /** REX.W wins over the operand-size prefix. */
  function ImmzSize(prefixes: seq<Byte>): nat {
    if RexW(prefixes) then 4 else if 0x66 in prefixes then 2 else 4
  }

  /** Legacy operand-size and address-size prefixes, and REX. */
  predicate Prefix64(b: Byte) {
    b == 0x66 || b == 0x67 || 0x40 <= b < 0x50
  }

  /** The fields of a ModRM and of a SIB byte, from the top bits down. */
  datatype ModRm = ModRm(mod: nat, reg: nat, rm: nat)
  {
    predicate Fits() { mod < 4 && reg < 8 && rm < 8 }
    function Packed(): Byte requires Fits() { 64 * mod + 8 * reg + rm }
  }
  datatype Sib = Sib(scale: nat, index: nat, base: nat)
  {
    predicate Fits() { scale < 4 && index < 8 && base < 8 }
    function Packed(): Byte requires Fits() { 64 * scale + 8 * index + base }
  }

  /** Displacement size; the 0x67 prefix selects 32-bit addressing, whose ModRM layout is the same. */
  function DispOf(x: ModRm, sib: Option<Sib>): nat {
    match x.mod
    case 0 => if x.rm == 5 || (sib.Some? && sib.value.base == 5) then 4 else 0
    case 1 => 1
    case 2 => 4
    case _ => 0
  }

  /** Group 3 defines /0 (TEST, with an immediate) and /2 to /7; /1 is reserved. */
  function ImmSize(f: Form, prefixes: seq<Byte>, reg: nat): nat {
    match f
    case Plain => 0
    case E => 0
    case M => 0
    case EIb => 1
    case Group3 => if reg == 0 then 1 else 0
    case Ib => 1
    case Iz => ImmzSize(prefixes)
  }

  /** One instruction, field by field. */
  datatype Insn = Insn(prefixes: seq<Byte>, op: Byte, modrm: Option<ModRm>, sib: Option<Sib>,
                       disp: seq<Byte>, imm: seq<Byte>)

  predicate FieldsFit(i: Insn) {
    (i.modrm.Some? ==> i.modrm.value.Fits()) && (i.sib.Some? ==> i.sib.value.Fits())
  }

  function Encode(i: Insn): seq<Byte>
    requires FieldsFit(i)
  {
    var modrm: seq<Byte> := if i.modrm.Some? then [i.modrm.value.Packed()] else [];
    var sib: seq<Byte> := if i.sib.Some? then [i.sib.value.Packed()] else [];
    i.prefixes + [i.op] + modrm + sib + i.disp + i.imm
  }

  /** A SIB byte follows a memory operand with rm 4; group 3 leaves /1 undefined, and LEA a register. */
  predicate WellFormed(i: Insn) {
    && FieldsFit(i) && (forall j :: 0 <= j < |i.prefixes| ==> Prefix64(i.prefixes[j]))
    && FormOf(i.op) != []
    && var f := FormOf(i.op)[0];
       if !HasModrm(f) then
         i.modrm == None && i.sib == None && i.disp == [] && |i.imm| == ImmSize(f, i.prefixes, 0)
       else
         && i.modrm.Some?
         && var x := i.modrm.value;
            && !(f.Group3? && x.reg == 1) && !(f.M? && x.mod == 3)
            && (i.sib.Some? <==> x.mod != 3 && x.rm == 4)
            && |i.disp| == DispOf(x, i.sib) && |i.imm| == ImmSize(f, i.prefixes, x.reg)
  }

  // ---- the same on bytes

  predicate SibFollows(modrm: Byte) { modrm < 0xC0 && modrm % 8 == 4 }

  function RegOf(modrm: Byte): nat { modrm / 8 % 8 }

  function DispSize(modrm: Byte, sib: Byte): nat {
    if modrm < 0x40 then if modrm % 8 == 5 || (modrm % 8 == 4 && sib % 8 == 5) then 4 else 0
    else if modrm < 0x80 then 1
    else if modrm < 0xC0 then 4
    else 0
  }

  predicate Reserved(f: Form, modrm: Byte) {
    (f.Group3? && RegOf(modrm) == 1) || (f.M? && modrm >= 0xC0)
  }

  function FieldsOf(b: Byte): ModRm { ModRm(b / 64, b / 8 % 8, b % 8) }
  function SibOf(b: Byte): Sib { Sib(b / 64, b / 8 % 8, b % 8) }

  /** Reading the fields of a byte and packing them again. */
  lemma PackedFields(b: Byte)
    ensures FieldsOf(b).Fits() && FieldsOf(b).Packed() == b
    ensures SibOf(b).Fits() && SibOf(b).Packed() == b
  {
  }

  /** What the bytes tell is what the fields tell. */
  lemma FieldsTell(x: ModRm, sib: Option<Sib>, f: Form)
    requires x.Fits() && (sib.Some? ==> sib.value.Fits()) && (sib.Some? <==> x.mod != 3 && x.rm == 4)
    ensures var b, s := x.Packed(), if sib.Some? then sib.value.Packed() else 0;
            && RegOf(b) == x.reg && SibFollows(b) == sib.Some? && DispSize(b, s) == DispOf(x, sib)
            && (Reserved(f, b) <==> (f.Group3? && x.reg == 1) || (f.M? && x.mod == 3))
  {
    var b := x.Packed();
    assert b / 8 == 8 * x.mod + x.reg;
    assert sib.Some? ==> sib.value.Packed() % 8 == sib.value.base;
  }

  /** Length of the instruction at the start of `code`, as its encoding gives it. The limit of 15 bytes
      (section 2.3.11) is not part of it: the machine, which looks at 15 bytes only, faults on anything
      longer. */
  function Length64(code: seq<Byte>): Outcome {
    var k := PrefixRun(code);
    if k >= |code| then OffEnd
    else if FormOf(code[k]) == [] then Wrong
    else
      var f := FormOf(code[k])[0];
      if !HasModrm(f) then Length(k + 1 + ImmSize(f, code[..k], 0))
      else if k + 1 >= |code| then OffEnd
      else
        var m := code[k + 1];
        var imm := ImmSize(f, code[..k], RegOf(m));
        if Reserved(f, m) then Wrong
        else if !SibFollows(m) then Length(k + 2 + DispSize(m, 0) + imm)
        else if k + 2 >= |code| then OffEnd
        else Length(k + 3 + DispSize(m, code[k + 2]) + imm)
  }

  /** Measuring an encoded instruction gives its length, whatever follows it. */
  lemma MeasuresEncodings(i: Insn, rest: seq<Byte>)
    requires WellFormed(i)
    ensures Length64(Encode(i) + rest) == Length(|Encode(i)|)
  {
    var k := |i.prefixes|;
    var code := Encode(i) + rest;
    SamePrefixes();
    FormIsNoPrefix(i.op);
    hide FormOf, ImmSize, DispSize, DispOf, Encode, IsPrefix, Prefix64, SibFollows, PrefixRun, RegOf, Reserved,
      ModRm.Packed, Sib.Packed, ModRm.Fits, Sib.Fits;
    Spelled(i, rest);
    PrefixRunIs(code, k);
    if i.modrm.Some? {
      FieldsTell(i.modrm.value, i.sib, FormOf(i.op)[0]);
    }
  }

  lemma SamePrefixes()
    ensures forall b: Byte :: IsPrefix(b) <==> Prefix64(b)
  {
  }

  lemma FormIsNoPrefix(op: Byte)
    ensures FormOf(op) != [] ==> !IsPrefix(op)
  {
  }

  /** Where the fields lie. */
  lemma Spelled(i: Insn, rest: seq<Byte>)
    requires FieldsFit(i)
    ensures var code, k := Encode(i) + rest, |i.prefixes|;
            var a := k + 1 + if i.modrm.Some? then 1 else 0;
            && |Encode(i)| == a + (if i.sib.Some? then 1 else 0) + |i.disp| + |i.imm| <= |code|
            && code[..k] == i.prefixes && code[k] == i.op && (forall j :: 0 <= j < k ==> code[j] == i.prefixes[j])
            && (i.modrm.Some? ==> code[k + 1] == i.modrm.value.Packed())
            && (i.sib.Some? ==> code[a] == i.sib.value.Packed())
  {
    hide ModRm.Packed, Sib.Packed, ModRm.Fits, Sib.Fits;
    var m: seq<Byte> := if i.modrm.Some? then [i.modrm.value.Packed()] else [];
    var s: seq<Byte> := if i.sib.Some? then [i.sib.value.Packed()] else [];
    Parts(i.prefixes, i.op, m, s, i.disp, i.imm, rest);
  }

  lemma Parts(p: seq<Byte>, op: Byte, m: seq<Byte>, s: seq<Byte>, disp: seq<Byte>, imm: seq<Byte>, rest: seq<Byte>)
    ensures var code, k := p + [op] + m + s + disp + imm + rest, |p|;
            && |code| == k + 1 + |m| + |s| + |disp| + |imm| + |rest|
            && code[..k] == p && code[k] == op && (forall j :: 0 <= j < k ==> code[j] == p[j])
            && (|m| == 1 ==> code[k + 1] == m[0]) && (|s| == 1 ==> code[k + 1 + |m|] == s[0])
  {
    var head := p + [op] + m + s;
    assert head + disp + imm + rest == head + (disp + imm + rest);
  }

  /** Conversely, whatever is measured is an encoded instruction. */
  lemma MeasuredIsEncoded(code: seq<Byte>, n: nat) returns (i: Insn)
    requires Length64(code) == Length(n) && n <= |code|
    ensures WellFormed(i) && Encode(i) == code[..n]
  {
    var k := PrefixRun(code);
    PrefixRunSpec(code);
    SamePrefixes();
    var f := FormOf(code[k])[0];
    if !HasModrm(f) {
      i := Insn(code[..k], code[k], None, None, [], code[k + 1..n]);
      assert Encode(i) == code[..n];
    } else {
      i := FieldsAfterModrm(code, k, n);
    }
  }

  lemma FieldsAfterModrm(code: seq<Byte>, k: nat, n: nat) returns (i: Insn)
    requires k + 1 < |code| && forall j :: 0 <= j < k ==> Prefix64(code[j])
    requires FormOf(code[k]) != [] && HasModrm(FormOf(code[k])[0])
    requires !Reserved(FormOf(code[k])[0], code[k + 1])
    requires SibFollows(code[k + 1]) ==> k + 2 < |code|
    requires var m := code[k + 1];
             var s := if SibFollows(m) then 1 else 0;
             n == k + 2 + s + DispSize(m, if s == 1 then code[k + 2] else 0)
                  + ImmSize(FormOf(code[k])[0], code[..k], RegOf(m))
    requires n <= |code|
    ensures WellFormed(i) && Encode(i) == code[..n]
  {
    hide FormOf, ImmSize, DispSize, DispOf, SibFollows, Prefix64, RegOf, Reserved, ModRm.Packed, Sib.Packed, ModRm.Fits,
      Sib.Fits, FieldsOf, SibOf, Encode;
    var m := code[k + 1];
    var a := k + 2 + if SibFollows(m) then 1 else 0;
    var b := a + DispSize(m, if SibFollows(m) then code[k + 2] else 0);
    PackedFields(m);
    SibFromFields(m);
    var sib := None;
    if SibFollows(m) {
      PackedFields(code[k + 2]);
      sib := Some(SibOf(code[k + 2]));
    }
    i := Insn(code[..k], code[k], Some(FieldsOf(m)), sib, code[a..b], code[b..n]);
    FieldsTell(FieldsOf(m), sib, FormOf(code[k])[0]);
    Joined(code, k, a, b, n);
    Assembled(i, m, code[k + 2..a]);
  }

  lemma SibFromFields(b: Byte)
    ensures SibFollows(b) <==> FieldsOf(b).mod != 3 && FieldsOf(b).rm == 4
  {
  }

  lemma Assembled(i: Insn, m: Byte, sib: seq<Byte>)
    requires FieldsFit(i) && i.modrm.Some? && i.modrm.value.Packed() == m
    requires if i.sib.Some? then sib == [i.sib.value.Packed()] else sib == []
    ensures Encode(i) == i.prefixes + [i.op] + [m] + sib + i.disp + i.imm
  {
    hide ModRm.Packed, Sib.Packed, ModRm.Fits, Sib.Fits;
  }

  lemma Joined(code: seq<Byte>, k: nat, a: nat, b: nat, n: nat)
    requires k + 2 <= a <= b <= n <= |code|
    ensures code[..n] == code[..k] + [code[k]] + [code[k + 1]] + code[k + 2..a] + code[a..b] + code[b..n]
  {
    assert code[..k + 1] == code[..k] + [code[k]];
    assert code[..k + 2] == code[..k + 1] + [code[k + 1]];
    assert code[..a] == code[..k + 2] + code[k + 2..a];
    assert code[..b] == code[..a] + code[a..b];
  }

  /** The measure, too, is decided by the instruction's own bytes. */
  lemma Length64SelfDelimiting(a: seq<Byte>, b: seq<Byte>, n: nat)
    requires Length64(a) == Length(n)
    requires forall i :: 0 <= i < n && i < |a| ==> i < |b| && b[i] == a[i]
    ensures Length64(b) == Length(n)
  {
    var k := PrefixRun(a);
    PrefixRunSpec(a);
    assert k < n && k < |a|;
    PrefixRunIs(b, k);
    assert a[..k] == b[..k];
  }

  /** The four places where the decoder's rule is not the processor's, as a test on the bytes:
      0x66 together with an effective REX.W before opcode 0x05; the reserved F6 /1; the reserved 8D with a
      register operand; and 0x67 before a ModRM byte whose 16-bit reading has another size than the
      32-bit one. */
  predicate Regular(code: seq<Byte>) {
    var k := PrefixRun(code);
    k < |code| ==>
      && !(code[k] == 0x05 && 0x66 in code[..k] && RexW(code[..k]))
      && (k + 1 < |code| && Table(code[k]).modrm ==>
            && !(code[k] == 0xF6 && code[k + 1] / 8 % 8 == 1)
            && !(code[k] == 0x8D && code[k + 1] >= 0xC0)
            && (0x67 in code[..k] ==> SameIn16Bit(code[k + 1])))
  }

  predicate SameIn16Bit(m: Byte) {
    || m >= 0xC0
    || (m < 0x40 && !(4 <= m % 8 <= 6))
    || (0x40 <= m < 0x80 && m % 8 != 4)
  }

  /** The decoder measures what the processor executes exactly on the regular encodings. The bytes
      up to a SIB byte must be readable, or neither measure is defined. */
  lemma DecoderMeetsGrammar(code: seq<Byte>)
    requires |code| >= PrefixRun(code) + 3
    ensures Decode(code) == Length64(code) <==> Regular(code)
  {
    var op := code[PrefixRun(code)];
    PrefixRunSpec(code);
    SameForms(op);
    if FormOf(op) != [] && Table(op).modrm {
      MeetWithModrm(code);
    } else {
      hide Table, FormOf, ImmSize, Immediate, RexW;
      SameImmediates(op, code[..PrefixRun(code)]);
    }
  }

  lemma DecodeWithModrm(code: seq<Byte>, k: nat)
    requires k == PrefixRun(code) && k + 2 < |code| && !IsPrefix(code[k])
    requires Table(code[k]).prefix != Refused && Table(code[k]).modrm
    ensures var m, x67 := code[k + 1], 0x67 in code[..k];
            Decode(code) == Length(k + 2 + Immediate(code[k], 0x66 in code[..k], ModrmReg(m)) +
              if NeedsSib(m, x67) then 1 + Displacement(m, code[k + 2], x67) else Displacement(m, 0, x67))
  {
    hide Table, Immediate, Displacement, NeedsSib, PrefixRun;
  }

  lemma Length64WithModrm(code: seq<Byte>, k: nat)
    requires k == PrefixRun(code) && k + 2 < |code| && FormOf(code[k]) != []
    requires HasModrm(FormOf(code[k])[0])
    ensures var m, f := code[k + 1], FormOf(code[k])[0];
            Length64(code) ==
              if Reserved(f, m) then Wrong
              else Length(k + 2 + ImmSize(f, code[..k], RegOf(m)) +
                          if SibFollows(m) then 1 + DispSize(m, code[k + 2]) else DispSize(m, 0))
  {
    hide FormOf, ImmSize, DispSize, SibFollows, PrefixRun, RegOf;
  }

  lemma MeetWithModrm(code: seq<Byte>)
    requires |code| >= PrefixRun(code) + 3
    requires !IsPrefix(code[PrefixRun(code)])
    requires FormOf(code[PrefixRun(code)]) != [] && Table(code[PrefixRun(code)]).modrm
    ensures Decode(code) == Length64(code) <==> Regular(code)
  {
    var k := PrefixRun(code);
    var op, m, sib := code[k], code[k + 1], code[k + 2];
    SameForms(op);
    SameImmediates(op, code[..k]);
    SameLayout(m, sib);
    NoSibIn16Bit(m);
    DecodeWithModrm(code, k);
    Length64WithModrm(code, k);
    hide Table, FormOf, ImmSize, Immediate, Displacement, DispSize, NeedsSib, SibFollows, SameIn16Bit,
      IsPrefix, RexW, ModrmReg, RegOf, Decode, Length64, PrefixRun;
  }

  lemma NoSibIn16Bit(m: Byte)
    ensures !NeedsSib(m, true)
  {
  }

  lemma SameForms(op: Byte)
    requires !IsPrefix(op)
    ensures FormOf(op) == [] <==> Table(op).prefix == Refused
    ensures FormOf(op) != [] ==> HasModrm(FormOf(op)[0]) == Table(op).modrm
    ensures FormOf(op) == [Iz] <==> op == 0x05
    ensures FormOf(op) == [Group3] <==> op == 0xF6
    ensures FormOf(op) == [M] <==> op == 0x8D
    ensures op == 0x05 ==> !Table(op).modrm
  {
  }

  lemma SameImmediates(op: Byte, prefixes: seq<Byte>)
    ensures forall reg: nat :: FormOf(op) != [] && op != 0x05 ==>
              ImmSize(FormOf(op)[0], prefixes, reg) == Immediate(op, 0x66 in prefixes, reg)
    ensures forall reg: nat :: ImmSize(Iz, prefixes, reg) == Immediate(0x05, 0x66 in prefixes, reg)
              <==> !(0x66 in prefixes && RexW(prefixes))
  {
  }

  lemma SameLayout(m: Byte, sib: Byte)
    ensures NeedsSib(m, false) == SibFollows(m) && ModrmReg(m) == RegOf(m)
    ensures Displacement(m, sib, false) == DispSize(m, sib)
    ensures !SibFollows(m) ==> DispSize(m, sib) == DispSize(m, 0)
    ensures SameIn16Bit(m) <==> Displacement(m, 0, true) == DispSize(m, sib) + if SibFollows(m) then 1 else 0
  {
  }

  /** On a whole instruction, regularity makes the decoder's measure the processor's. */
  lemma RegularMeasured(bs: seq<Byte>)
    requires Decode(bs) == Length(|bs|) && Regular(bs)
    ensures Length64(bs) == Length(|bs|)
  {
    var k, pad: seq<Byte> := PrefixRun(bs), bs + [0, 0, 0];
    ModrmInside(bs);
    hide Decode, Length64, Table, FormOf;
    SelfDelimiting(bs, pad, |bs|);
    PrefixRunSpec(bs);
    PrefixRunIs(pad, k);
    assert pad[..k] == bs[..k];
    hide IsPrefix, RexW, SameIn16Bit, ModrmReg, PrefixRun;
    DecoderMeetsGrammar(pad);
    Length64SelfDelimiting(pad, bs, |bs|);
  }

  lemma ModrmInside(bs: seq<Byte>)
    requires Decode(bs) == Length(|bs|)
    ensures PrefixRun(bs) < |bs|
    ensures Table(bs[PrefixRun(bs)]).modrm ==> PrefixRun(bs) + 1 < |bs|
  {
    hide Table, Immediate, Displacement, NeedsSib, PrefixRun;
  }

  /** With 0x67 the decoder takes the ModRM byte as 16-bit addressing does (Intel SDM Vol. 2, Table 2-1): no
      SIB byte, one byte of displacement for mod 1, two for mod 2 and for mod 0 with rm 6. */
  lemma SixteenBitLayout(code: seq<Byte>, k: nat)
    requires k == PrefixRun(code) && k + 2 < |code| && 0x67 in code[..k]
    requires Table(code[k]).prefix != Refused && Table(code[k]).modrm
    ensures var m := code[k + 1];
            var disp := if 0x40 <= m < 0x80 then 1
                        else if 0x80 <= m < 0xC0 || (m < 0x40 && m % 8 == 6) then 2 else 0;
            var imm := if code[k] == 0x83 || (code[k] == 0xF6 && m / 8 % 8 == 0) then 1 else 0;
            Decode(code) == Length(k + 2 + disp + imm)
  {
    PrefixRunSpec(code);
    NoSibIn16Bit(code[k + 1]);
    DecodeWithModrm(code, k);
    hide Decode, PrefixRun, IsPrefix;
  }

  /** What is measured is not refused when only its first bytes are seen. */
  lemma PrefixNotWrong(w: seq<Byte>, code: seq<Byte>)
    requires w <= code && Length64(code).Length?
    ensures Length64(w) != Wrong
  {
    var k := PrefixRun(code);
    PrefixRunSpec(code);
    if k < |w| {
      PrefixRunIs(w, k);
      assert w[..k] == code[..k];
    } else {
      PrefixRunIs(w, |w|);
    }
  }

  /** Sixteen prefixes and an opcode are measured by both, although no processor executes them. */
  lemma OverlongMeasured()
    ensures var code: seq<Byte> := seq(16, _ => 0x66) + [0x90];
            Regular(code) && Decode(code) == Length(17) && Length64(code) == Length(17)
  {
    var code: seq<Byte> := seq(16, _ => 0x66) + [0x90];
    PrefixRunIs(code, 16);
    hide PrefixRun;
  }

  /** One encoding outside each of the four limits. */
  lemma IrregularImmediate()
    ensures Decode([0x66, 0x48, 0x05, 0, 0, 0, 0]) == Length(5)
    ensures Length64([0x66, 0x48, 0x05, 0, 0, 0, 0]) == Length(7)
  {
    var code: seq<Byte> := [0x66, 0x48, 0x05, 0, 0, 0, 0];
    PrefixRunIs(code, 2);
    hide PrefixRun;
    assert code[..2] == [0x66, 0x48];
  }

  /** The immediate of 05: two bytes with 0x66, unless a REX prefix with W stands right before the opcode. */
  lemma RexWidens(r: Byte, x: Byte)
    requires 0x40 <= r <= 0x4F
    ensures Length64([0x66, r, 0x05, x, x, x, x]) == Length(if r >= 0x48 then 7 else 5)
    ensures Length64([r, 0x66, 0x05, x, x, x, x]) == Length(5)
    ensures Length64([r, 0x05, x, x, x, x]) == Length(6) && Length64([0x66, 0x05, x, x, x, x]) == Length(4)
  {
    hide Length64;
    WideImmediate([0x66, r], x, [0x66, r, 0x05, x, x, x, x]);
    WideImmediate([r, 0x66], x, [r, 0x66, 0x05, x, x, x, x]);
    WideImmediate([r], x, [r, 0x05, x, x, x, x]);
    WideImmediate([0x66], x, [0x66, 0x05, x, x, x, x]);
  }

  lemma WideImmediate(prefixes: seq<Byte>, x: Byte, code: seq<Byte>)
    requires forall j :: 0 <= j < |prefixes| ==> IsPrefix(prefixes[j])
    requires code == prefixes + [0x05, x, x, x, x]
    ensures Length64(code) == Length(|prefixes| + 1 + ImmzSize(prefixes))
  {
    hide PrefixRun, ImmzSize;
    PrefixRunIs(code, |prefixes|);
    assert code[..|prefixes|] == prefixes;
  }

  lemma IrregularGroup3()
    ensures Decode([0xF6, 0xC8, 0x01]) == Length(2) && Length64([0xF6, 0xC8, 0x01]) == Wrong
  {
    PrefixRunIs([0xF6, 0xC8, 0x01], 0);
    hide PrefixRun;
  }

  lemma IrregularMemoryOperand()
    ensures Decode([0x8D, 0xC0, 0x90]) == Length(2) && Length64([0x8D, 0xC0, 0x90]) == Wrong
  {
    PrefixRunIs([0x8D, 0xC0, 0x90], 0);
    hide PrefixRun;
  }

  lemma IrregularAddressSize()
    ensures Decode([0x67, 0x89, 0x04, 0x24]) == Length(3)
    ensures Length64([0x67, 0x89, 0x04, 0x24]) == Length(4)
  {
    var code: seq<Byte> := [0x67, 0x89, 0x04, 0x24];
    PrefixRunIs(code, 1);
    hide PrefixRun;
    assert code[..1] == [0x67];
  }

  /** The instructions of the repository's regression program, and a move to [rbp - 8]. */
  lemma RecordedInstructions()
    ensures Decode([0xF6, 0x06, 0x01]) == Length(3) && Decode([0xF6, 0xC0, 0x01]) == Length(3)
    ensures Decode([0xF6, 0x16, 0x00]) == Length(2) && Decode([0x48, 0x89, 0x7D, 0xF8]) == Length(4)
  {
    PrefixRunIs([0xF6, 0x06, 0x01], 0);
    PrefixRunIs([0xF6, 0xC0, 0x01], 0);
    PrefixRunIs([0xF6, 0x16, 0x00], 0);
    PrefixRunIs([0x48, 0x89, 0x7D, 0xF8], 1);
    hide PrefixRun;
  }

  /** The operand forms of 00 to 03, 89 and 8D: registers, [rax], [rax + disp8], [rax + disp32], [rip + disp32],
      [rsp], [rsp + disp8], and [disp32] by way of a SIB byte. */
  lemma EachForm(op: Byte, x: Byte)
    requires op <= 0x03 || op == 0x89 || op == 0x8D
    ensures Decode([op, 0xC8, x, x, x, x, x, x]) == Length(2)
    ensures Decode([op, 0x08, x, x, x, x, x, x]) == Length(2)
    ensures Decode([op, 0x48, x, x, x, x, x, x]) == Length(3)
    ensures Decode([op, 0x88, x, x, x, x, x, x]) == Length(6)
    ensures Decode([op, 0x0D, x, x, x, x, x, x]) == Length(6)
    ensures Decode([op, 0x0C, 0x24, x, x, x, x, x]) == Length(3)
    ensures Decode([op, 0x4C, 0x24, x, x, x, x, x]) == Length(4)
    ensures Decode([op, 0x0C, 0x25, x, x, x, x, x]) == Length(7)
  {
    OneForm(op, 0xC8, x, x);
    OneForm(op, 0x08, x, x);
    OneForm(op, 0x48, x, x);
    OneForm(op, 0x88, x, x);
    OneForm(op, 0x0D, x, x);
    OneForm(op, 0x0C, 0x24, x);
    OneForm(op, 0x4C, 0x24, x);
    OneForm(op, 0x0C, 0x25, x);
    hide Decode, Table;
  }

  lemma OneForm(op: Byte, m: Byte, sib: Byte, x: Byte)
    requires op <= 0x03 || op == 0x89 || op == 0x8D
    ensures Decode([op, m, sib, x, x, x, x, x]) ==
              Length(2 + if NeedsSib(m, false) then 1 + Displacement(m, sib, false) else Displacement(m, 0, false))
  {
    var code: seq<Byte> := [op, m, sib, x, x, x, x, x];
    PrefixRunIs(code, 0);
    assert code[..0] == [];
    DecodeWithModrm(code, 0);
    hide PrefixRun, Decode, Displacement, NeedsSib;
  }

  /** The immediates of 04, 05, 66 05 and 83, and the opcodes without operand bytes. */
  lemma EachImmediate(op: Byte, x: Byte)
    ensures Decode([0x04, x, x, x, x, x]) == Length(2) && Decode([0x05, x, x, x, x, x]) == Length(5)
    ensures Decode([0x66, 0x05, x, x, x, x]) == Length(4) && Decode([0x83, 0xC0, x, x, x, x]) == Length(3)
    ensures 0x50 <= op <= 0x5F || op == 0x90 ==> Decode([op, x, x, x, x, x]) == Length(1)
  {
    PrefixRunIs([0x04, x, x, x, x, x], 0);
    PrefixRunIs([0x05, x, x, x, x, x], 0);
    PrefixRunIs([0x66, 0x05, x, x, x, x], 1);
    assert [0x66, 0x05, x, x, x, x][..1] == [0x66];
    PrefixRunIs([0x83, 0xC0, x, x, x, x], 0);
    if 0x50 <= op <= 0x5F || op == 0x90 {
      PrefixRunIs([op, x, x, x, x, x], 0);
    }
    hide PrefixRun;
  }
}
