/** Instructions with a memory operand (assembler_amd64.cpp, the emitters that take an Address)
    against an instruction decoder (Intel SDM Volume 2, sections 2.1 and 2.2.1). */
module Instructions {
  import opened CodeBytes
  import opened Operands

  /** An emitter: a legacy prefix or 0, REX.W, whether its register is a byte register, the 0F
      escape, the opcode, and the size of the immediate. */
  datatype Form = Form(pre: nat, wide: bool, byteReg: bool, esc: bool, op: nat, imm: nat)

  /** The opcodes of the Address-taking emitters. mull (F7) emits no REX prefix, see below. */
  predicate IsEmitter(f: Form) {
    && (f.byteReg ==> f.pre == 0 && !f.wide && !f.esc && f.op in {0x88, 0x8A})
    && f.imm == ImmLen(f.pre, f.esc, f.op)
    && if f.pre == 0x66 then !f.wide && f.op in (if f.esc then {0x12, 0x57} else {0x89, 0x8B, 0xC7})
       else if f.pre == 0x67 then !f.wide && !f.esc && f.op == 0x8D
       else if f.pre == 0xF3 then !f.wide && f.esc && f.op in {0x10, 0x11, 0x58, 0x59, 0x5C, 0x5E}
       else if f.pre == 0xF2 then !f.wide && f.esc && f.op in {0x11, 0x51, 0x58, 0x59, 0x5C, 0x5E}
       else if f.esc then
         f.pre == 0 &&
         (f.op in {0xAE, 0xB1, 0xC1} || 0x40 <= f.op < 0x50 || (!f.wide && f.op in {0x57, 0xB6, 0xB7, 0xBE, 0xBF}))
       else
         f.pre == 0 &&
         (f.op in {0x01, 0x03, 0x0B, 0x13, 0x1B, 0x23, 0x29, 0x2B, 0x33, 0x3B, 0x81, 0x83, 0x87, 0x89, 0x8B, 0xC7, 0xFF} ||
          (!f.wide && f.op in {0x80, 0x88, 0x8A, 0x8F, 0xC6}) || (f.wide && f.op in {0x63, 0x8D}))
  }

  /** The size of the immediate that the opcode map gives an opcode. */
  function ImmLen(pre: nat, esc: bool, op: nat): (n: nat) {
    if esc then 0
    else if op in {0x80, 0x83, 0xC6} then 1
    else if op == 0xC7 then if pre == 0x66 then 2 else 4
    else if op == 0x81 then 4
    else 0
  }

  // ----- The decoder

  /** rex tells whether there is a REX prefix, next is the end of the instruction. */
  datatype Insn = Insn(pre: nat, rex: bool, wide: bool, esc: bool, op: nat, reg: nat, rm: Operand, imm: int, next: nat)

  predicate IsLegacy(b: nat) { b in {0x66, 0x67, 0xF2, 0xF3} }
  predicate IsRex(b: nat) { 0x40 <= b < 0x50 }

  function OneIf(c: bool): (n: nat) { if c then 1 else 0 }

  predicate Bit(b: nat, k: nat)
    requires k < 4
  {
    (match k case 0 => b case 1 => b / 2 case 2 => b / 4 case _ => b / 8) % 2 == 1
  }

  function RexAt(code: seq<nat>, p: nat): (q: nat) { p + OneIf(IsLegacy(At(code, p))) }
  function RexOf(code: seq<nat>, p: nat): (rex: nat) { if IsRex(At(code, RexAt(code, p))) then At(code, RexAt(code, p)) else 0 }
  function EscAt(code: seq<nat>, p: nat): (q: nat) { RexAt(code, p) + OneIf(RexOf(code, p) != 0) }
  function OpAt(code: seq<nat>, p: nat): (q: nat) { EscAt(code, p) + OneIf(At(code, EscAt(code, p)) == 0x0F) }

  /** A sign-extended immediate of 0, 1, 2 or 4 bytes. */
  function Immediate(code: seq<nat>, p: nat, n: nat): (x: int) {
    if n == 2 then
      var u := At(code, p) + 0x100 * At(code, p + 1);
      if u < 0x8000 then u else u - 0x1_0000
    else SignedField(code, p, n)
  }

  /** The instruction at p. */
  function DecodeInsn(code: seq<nat>, p: nat): (i: Insn) {
    var pre := if IsLegacy(At(code, p)) then At(code, p) else 0;
    var rex := RexOf(code, p);
    var esc := At(code, EscAt(code, p)) == 0x0F;
    var op := At(code, OpAt(code, p));
    var modrm := OpAt(code, p) + 1;
    var end := OperandEnd(code, modrm);
    var n := ImmLen(pre, esc, op);
    Insn(pre, rex != 0, Bit(rex, 3), esc, op, Ext(Bit(rex, 2), Middle(At(code, modrm))),
         Decode(code, modrm, Bit(rex, 1), Bit(rex, 0)), Immediate(code, end, n), end + n)
  }

  // ----- The head of an emitted instruction

  /** The REX prefix: 0100WRXB, or 0 for none. */
  function Rex(w: bool, r: bool, x: bool, b: bool, force: bool): (rex: nat) {
    if w || r || x || b || force then 0x40 + 8 * OneIf(w) + 4 * OneIf(r) + 2 * OneIf(x) + OneIf(b) else 0
  }

  lemma RexBits(w: bool, r: bool, x: bool, b: bool, force: bool)
    ensures var rex := Rex(w, r, x, b, force);
            && Bit(rex, 3) == w && Bit(rex, 2) == r && Bit(rex, 1) == x && Bit(rex, 0) == b
            && (rex != 0 ==> IsRex(rex))
  {
  }

  function RexFor(f: Form, reg: nat, a: Address): (rex: nat) {
    Rex(f.wide, reg >= 8, IndexNeedsRex(a), BaseNeedsRex(a), f.byteReg && reg >= 4)
  }

  /** Prefixes and opcode of form f stand at p, up to m. */
  predicate HeadAt(code: seq<nat>, p: nat, f: Form, rex: nat, m: nat) {
    var q := p + OneIf(f.pre != 0);
    var e := q + OneIf(rex != 0);
    && m == e + OneIf(f.esc) + 1 <= |code|
    && (f.pre != 0 ==> code[p] == f.pre)
    && (rex != 0 ==> code[q] == rex)
    && (f.esc ==> code[e] == 0x0F)
    && code[m - 1] == f.op
  }

  /** The head decodes to the form's fields. */
  lemma HeadDecodes(code: seq<nat>, p: nat, f: Form, rex: nat, m: nat)
    requires IsEmitter(f) && (rex != 0 ==> IsRex(rex)) && HeadAt(code, p, f, rex, m)
    ensures IsLegacy(At(code, p)) <==> f.pre != 0
    ensures f.pre != 0 ==> At(code, p) == f.pre
    ensures RexOf(code, p) == rex && (At(code, EscAt(code, p)) == 0x0F <==> f.esc)
    ensures OpAt(code, p) == m - 1 && At(code, OpAt(code, p)) == f.op
  {
  }

  // ----- The emitters

  /** How Address::fix_rip_relative_offset recognizes a RIP-relative address. */
  predicate IsRipRelative(a: Address) { a.target != 0 }

  /** fix_rip_relative_offset(off). */
  function FixRip(a: Address, off: nat): (r: Address) {
    if IsRipRelative(a) then a.(target := a.target - off) else a
  }

  /** The immediates that fit in n bytes. */
  predicate Fits(imm: int, n: nat) {
    match n
    case 0 => imm == 0
    case 1 => -0x80 <= imm < 0x100
    case 2 => -0x8000 <= imm < 0x1_0000
    case 4 => IsJint(imm)
    case _ => false
  }

  /** The value of an immediate of n bytes as the processor extends it. */
  function SignExtended(imm: int, n: nat): (x: int) {
    if n == 1 && imm >= 0x80 then imm - 0x100 else if n == 2 && imm >= 0x8000 then imm - 0x1_0000 else imm
  }

  function ImmBytes(imm: int, n: nat): (b: seq<nat>)
    requires Fits(imm, n)
    ensures |b| == n && IsBytes(b)
  {
    if n == 0 then [] else if n == 1 then [imm % 0x100] else if n == 2 then [imm % 0x100, imm / 0x100 % 0x100] else Bytes(imm)
  }

  lemma ImmediateOfBytes(code: seq<nat>, p: nat, imm: int, n: nat)
    requires Fits(imm, n) && p + n == |code| && code[p..] == ImmBytes(imm, n)
    ensures Immediate(code, p, n) == SignExtended(imm, n)
  {
    var b := ImmBytes(imm, n);
    forall i | 0 <= i < n ensures At(code, p + i) == b[i] { assert code[p + i] == code[p..][i]; }
    if n == 1 {
      assert At(code, p + 0) == b[0];
    } else if n == 2 {
      assert At(code, p + 0) == b[0] && At(code, p + 1) == b[1];
      WordFromBytes(imm);
    } else if n == 4 {
      assert At(code, p + 0) == b[0] && At(code, p + 1) == b[1] && At(code, p + 2) == b[2] && At(code, p + 3) == b[3];
      assert Long(b, 0) == imm;
    }
  }

  lemma WordFromBytes(imm: int)
    requires -0x8000 <= imm < 0x1_0000
    ensures imm % 0x100 + 0x100 * (imm / 0x100 % 0x100) == if imm < 0 then imm + 0x1_0000 else imm
  {
  }

  /** Bytes behind an operand do not change how it decodes. */
  lemma DecodeStable(code: seq<nat>, more: seq<nat>, p: nat, x: bool, b: bool)
    requires |code| <= |more| && more[..|code|] == code && OperandEnd(code, p) <= |code|
    ensures OperandEnd(more, p) == OperandEnd(code, p) && Decode(more, p, x, b) == Decode(code, p, x, b)
    ensures Middle(At(more, p)) == Middle(At(code, p)) && DispAt(more, p) == DispAt(code, p)
  {
    forall i | 0 <= i < |code| ensures At(more, i) == At(code, i) { assert more[..|code|][i] == more[i]; }
    assert HasSib(more, p) == HasSib(code, p);
    assert DispLen(more, p) == DispLen(code, p);
  }

  /** prefix: the source's choice among the sixteen REX prefixes. */
  method EmitPrefix(buf: Assembler, f: Form, reg: nat, a: Address)
    requires reg < 16 && IsBytes(buf.code)
    modifies buf`code
    ensures buf.code == old(buf.code) + (if RexFor(f, reg, a) == 0 then [] else [RexFor(f, reg, a)])
    ensures IsBytes(buf.code)
  {
    if f.wide {
      if reg < 8 {
        if BaseNeedsRex(a) { buf.EmitBytes([if IndexNeedsRex(a) then 0x4B else 0x49]); }
        else { buf.EmitBytes([if IndexNeedsRex(a) then 0x4A else 0x48]); }
      } else {
        if BaseNeedsRex(a) { buf.EmitBytes([if IndexNeedsRex(a) then 0x4F else 0x4D]); }
        else { buf.EmitBytes([if IndexNeedsRex(a) then 0x4E else 0x4C]); }
      }
    } else if reg < 8 {
      if BaseNeedsRex(a) { buf.EmitBytes([if IndexNeedsRex(a) then 0x43 else 0x41]); }
      else if IndexNeedsRex(a) { buf.EmitBytes([0x42]); }
      else if f.byteReg && reg >= 4 { buf.EmitBytes([0x40]); }
    } else {
      if BaseNeedsRex(a) { buf.EmitBytes([if IndexNeedsRex(a) then 0x47 else 0x45]); }
      else { buf.EmitBytes([if IndexNeedsRex(a) then 0x46 else 0x44]); }
    }
  }

  /** Everything in front of the ModRM byte. */
  method EmitHead(buf: Assembler, f: Form, reg: nat, a: Address)
    requires IsEmitter(f) && reg < 16 && IsBytes(buf.code)
    modifies buf`code
    ensures |old(buf.code)| < |buf.code| && buf.code[..|old(buf.code)|] == old(buf.code) && IsBytes(buf.code)
    ensures HeadAt(buf.code, |old(buf.code)|, f, RexFor(f, reg, a), |buf.code|)
  {
    if f.pre != 0 { buf.EmitBytes([f.pre]); }
    EmitPrefix(buf, f, reg, a);
    if f.esc { buf.EmitBytes([0x0F]); }
    buf.EmitBytes([f.op]);
    HeadOfBytes(old(buf.code), f, RexFor(f, reg, a), buf.code);
  }

  function HeadBytes(f: Form, rex: nat): (bytes: seq<nat>) {
    (if f.pre != 0 then [f.pre] else []) + (if rex == 0 then [] else [rex]) + (if f.esc then [0x0F] else []) + [f.op]
  }

  lemma HeadOfBytes(was: seq<nat>, f: Form, rex: nat, code: seq<nat>)
    requires IsEmitter(f) && rex < 0x100 && IsBytes(was)
    requires code == was + HeadBytes(f, rex)
    ensures |was| < |code| && code[..|was|] == was && IsBytes(code)
    ensures HeadAt(code, |was|, f, rex, |code|)
  {
    var b := HeadBytes(f, rex);
    assert f.pre < 0x100 && f.op < 0x100;
    assert IsBytes(b);
    forall i | 0 <= i < |b| ensures code[|was| + i] == b[i] {}
    var q := OneIf(f.pre != 0);
    var e := q + OneIf(rex != 0);
    assert (f.pre != 0 ==> b[0] == f.pre) && (rex != 0 ==> b[q] == rex) && (f.esc ==> b[e] == 0x0F) && b[|b| - 1] == f.op;
    assert f.pre != 0 ==> code[|was| + 0] == b[0];
    assert code[|was| + (|b| - 1)] == f.op;
  }

  /** The length of an instruction with a RIP-relative address. */
  function RipLen(f: Form, rex: nat): (n: nat) {
    OneIf(f.pre != 0) + OneIf(rex != 0) + OneIf(f.esc) + 1 + 5 + f.imm
  }

  /** An instruction with register (or opcode extension) reg, address a and an immediate: it decodes
      to just that, and a RIP-relative address to its target from the end of the instruction. */
  method EmitInsn(buf: Assembler, f: Form, reg: nat, a: Address, imm: int)
    requires IsEmitter(f) && reg < 16 && Legal(a) && Fits(imm, f.imm) && IsBytes(buf.code)
    requires IsRipRelative(a) <==> NoRegisters(a)
    requires NoRegisters(a) ==> IsJint(a.target - (buf.origin + |buf.code| + RipLen(f, RexFor(f, reg, a))))
    modifies buf`code
    ensures IsBytes(buf.code) && |old(buf.code)| < |buf.code| && buf.code[..|old(buf.code)|] == old(buf.code)
    ensures DecodeInsn(buf.code, |old(buf.code)|) ==
            Insn(f.pre, RexFor(f, reg, a) != 0, f.wide, f.esc, f.op, reg,
                 Meaning(a, buf.origin + |buf.code|), SignExtended(imm, f.imm), |buf.code|)
  {
    EmitHead(buf, f, reg, a);
    EmitTail(buf, old(buf.code), f, reg, a, imm);
  }

  /** Operand and immediate, behind the head of the instruction. */
  method EmitTail(buf: Assembler, ghost was: seq<nat>, f: Form, reg: nat, a: Address, imm: int)
    requires IsEmitter(f) && reg < 16 && Legal(a) && Fits(imm, f.imm) && IsBytes(buf.code)
    requires IsRipRelative(a) <==> NoRegisters(a)
    requires NoRegisters(a) ==> IsJint(FixRip(a, f.imm).target - (buf.origin + |buf.code| + 5))
    requires |was| <= |buf.code| && buf.code[..|was|] == was
    requires HeadAt(buf.code, |was|, f, RexFor(f, reg, a), |buf.code|)
    modifies buf`code
    ensures IsBytes(buf.code) && |was| < |buf.code| && buf.code[..|was|] == was
    ensures DecodeInsn(buf.code, |was|) ==
            Insn(f.pre, RexFor(f, reg, a) != 0, f.wide, f.esc, f.op, reg,
                 Meaning(a, buf.origin + |buf.code|), SignExtended(imm, f.imm), |buf.code|)
  {
    ghost var head := buf.code;
    var fixed := FixRip(a, f.imm);
    buf.EmitOperand(reg, fixed);
    ghost var operand := buf.code;
    var bytes := ImmBytes(imm, f.imm);
    buf.EmitBytes(bytes);
    InsnDecodes(was, head, operand, f, reg, a, imm, buf.origin);
  }

  lemma InsnDecodes(was: seq<nat>, head: seq<nat>, operand: seq<nat>, f: Form, reg: nat, a: Address, imm: int, origin: int)
    requires IsEmitter(f) && reg < 16 && Legal(a) && Fits(imm, f.imm)
    requires IsRipRelative(a) <==> NoRegisters(a)
    requires |was| <= |head| && head[..|was|] == was
    requires HeadAt(head, |was|, f, RexFor(f, reg, a), |head|)
    requires Prints(head, operand, reg, FixRip(a, f.imm), origin)
    ensures var code := operand + ImmBytes(imm, f.imm);
            && |was| < |code| && code[..|was|] == was
            && DecodeInsn(code, |was|) ==
               Insn(f.pre, RexFor(f, reg, a) != 0, f.wide, f.esc, f.op, reg,
                    Meaning(a, origin + |code|), SignExtended(imm, f.imm), |code|)
  {
    var code := operand + ImmBytes(imm, f.imm);
    OperandDecodes(head, operand, code, reg, a, f.imm, origin);
    HeadStays(head, code, |was|, f, RexFor(f, reg, a));
    assert code[..|was|] == head[..|was|];
    assert code[|operand|..] == ImmBytes(imm, f.imm);
    ImmediateOfBytes(code, |operand|, imm, f.imm);
    PartsDecode(code, |was|, f, reg, a, |head|, |operand|, SignExtended(imm, f.imm), Meaning(a, origin + |code|));
  }

  /** The parts, put together. */
  lemma PartsDecode(code: seq<nat>, p: nat, f: Form, reg: nat, a: Address, m: nat, end: nat, imm: int, rm: Operand)
    requires IsEmitter(f) && reg < 16 && HeadAt(code, p, f, RexFor(f, reg, a), m)
    requires OperandEnd(code, m) == end && |code| == end + f.imm && Ext(reg >= 8, Middle(At(code, m))) == reg
    requires Decode(code, m, IndexNeedsRex(a), BaseNeedsRex(a)) == rm && Immediate(code, end, f.imm) == imm
    ensures DecodeInsn(code, p) == Insn(f.pre, RexFor(f, reg, a) != 0, f.wide, f.esc, f.op, reg, rm, imm, |code|)
  {
    FieldsDecode(code, p, f, reg, a, m);
  }

  lemma HeadStays(head: seq<nat>, code: seq<nat>, p: nat, f: Form, rex: nat)
    requires |head| < |code| && code[..|head|] == head && HeadAt(head, p, f, rex, |head|)
    ensures HeadAt(code, p, f, rex, |head|)
  {
    forall i | 0 <= i < |head| ensures code[i] == head[i] { assert code[..|head|][i] == code[i]; }
  }

  lemma FieldsDecode(code: seq<nat>, p: nat, f: Form, reg: nat, a: Address, m: nat)
    requires IsEmitter(f) && reg < 16 && HeadAt(code, p, f, RexFor(f, reg, a), m)
    ensures var i := DecodeInsn(code, p);
            && i.pre == f.pre && i.rex == (RexFor(f, reg, a) != 0) && i.wide == f.wide && i.esc == f.esc && i.op == f.op
            && i.reg == Ext(reg >= 8, Middle(At(code, m)))
            && i.rm == Decode(code, m, IndexNeedsRex(a), BaseNeedsRex(a))
            && i.imm == Immediate(code, OperandEnd(code, m), f.imm)
            && i.next == OperandEnd(code, m) + f.imm
  {
    RexBits(f.wide, reg >= 8, IndexNeedsRex(a), BaseNeedsRex(a), f.byteReg && reg >= 4);
    HeadDecodes(code, p, f, RexFor(f, reg, a), m);
  }

  lemma OperandDecodes(head: seq<nat>, operand: seq<nat>, code: seq<nat>, reg: nat, a: Address, imm: nat, origin: int)
    requires reg < 16 && (IsRipRelative(a) <==> NoRegisters(a))
    requires Prints(head, operand, reg, FixRip(a, imm), origin)
    requires |code| == |operand| + imm && code[..|operand|] == operand
    ensures |head| < |code| && code[..|head|] == head
    ensures OperandEnd(code, |head|) == |operand|
    ensures Ext(reg >= 8, Middle(At(code, |head|))) == reg
    ensures Decode(code, |head|, IndexNeedsRex(a), BaseNeedsRex(a)) == Meaning(a, origin + |code|)
  {
    assert code[..|head|] == operand[..|head|];
    DecodeStable(operand, code, |head|, IndexNeedsRex(a), BaseNeedsRex(a));
    LowIsMod(reg);
  }

  /** emit_arith_operand: a short immediate if it is a signed byte, and the same meaning either way. */
  method EmitArith(buf: Assembler, wide: bool, ext: nat, a: Address, imm32: int)
    requires ext < 8 && Legal(a) && IsJint(imm32) && IsBytes(buf.code)
    requires IsRipRelative(a) <==> NoRegisters(a)
    requires var f := ArithForm(wide, imm32);
             NoRegisters(a) ==> IsJint(a.target - (buf.origin + |buf.code| + RipLen(f, RexFor(f, ext, a))))
    modifies buf`code
    ensures |old(buf.code)| < |buf.code| && buf.code[..|old(buf.code)|] == old(buf.code)
    ensures var i := DecodeInsn(buf.code, |old(buf.code)|);
            && i.pre == 0 && !i.esc && i.op in {0x81, 0x83} && i.wide == wide && i.reg == ext
            && i.rm == Meaning(a, buf.origin + |buf.code|) && i.imm == imm32 && i.next == |buf.code|
  {
    if Is8bit(imm32) {
      EmitInsn(buf, Form(0, wide, false, false, 0x83, 1), ext, a, imm32);
    } else {
      EmitInsn(buf, Form(0, wide, false, false, 0x81, 4), ext, a, imm32);
    }
  }

  function ArithForm(wide: bool, imm32: int): (f: Form) {
    if Is8bit(imm32) then Form(0, wide, false, false, 0x83, 1) else Form(0, wide, false, false, 0x81, 4)
  }

  /** mull emits no REX prefix: it means its operand just if the operand needs none. */
  method EmitMull(buf: Assembler, a: Address)
    requires Legal(a) && IsBytes(buf.code)
    requires NoRegisters(a) ==> IsJint(a.target - (buf.origin + |buf.code| + 6))
    modifies buf`code
    ensures var i := DecodeInsn(buf.code, |old(buf.code)|);
            && i.op == 0xF7 && i.reg == 4 && i.next == |buf.code|
            && (i.rm == Meaning(a, buf.origin + |buf.code|) <==> !BaseNeedsRex(a) && !IndexNeedsRex(a))
  {
    buf.EmitBytes([0xF7]);
    ghost var head := buf.code;
    buf.EmitOperand(4, a);
    assert buf.code[..|head|] == head && head[|old(buf.code)|] == 0xF7;
    MullDecodes(old(buf.code), head, buf.code, a, buf.origin);
  }

  lemma MullDecodes(was: seq<nat>, head: seq<nat>, code: seq<nat>, a: Address, origin: int)
    requires Legal(a) && |head| == |was| + 1 && head[|was|] == 0xF7 && Prints(head, code, 4, a, origin)
    ensures var i := DecodeInsn(code, |was|);
            && i.op == 0xF7 && i.reg == 4 && i.next == |code|
            && (i.rm == Meaning(a, origin + |code|) <==> !BaseNeedsRex(a) && !IndexNeedsRex(a))
  {
    assert code[|was|] == code[..|head|][|was|];
    assert OpAt(code, |was|) == |was| && RexOf(code, |was|) == 0;
    WithoutRex(code, |head|, IndexNeedsRex(a), BaseNeedsRex(a));
  }

  /** Without the bits of a REX prefix the registers of an operand lose eight. */
  lemma WithoutRex(code: seq<nat>, p: nat, x: bool, b: bool)
    requires Top(At(code, p)) != 3
    ensures var o, n := Decode(code, p, x, b), Decode(code, p, false, false);
            && (b && o.Mem? && o.base.R? ==> n.Mem? && n.base == R(o.base.enc - 8) && o.base.enc >= 8)
            && (x && o.Mem? && o.index.R? ==> n.Mem? && n.index != o.index)
            && (!x && !b ==> n == o)
  {
  }
}
