/** Memory operands (assembler_amd64.hpp, Address; assembler_amd64.cpp, emit_operand) against the
    operand decoder of the Intel SDM, Volume 2, sections 2.1.5 and 2.2.1.

    Shifted fields of a byte never overlap, so sums stand for the source's bitwise ORs. */
module Operands {
  import opened CodeBytes

  /** A register by its number, or noreg. */
  datatype Reg = NoReg | R(enc: nat)

  const RSP: nat := 4
  const RBP: nat := 5
  const R12: nat := 12
  const R13: nat := 13

  /** scale is -1 for no_scale and log2 of the factor otherwise; target is 0 if the address is not
      RIP-relative; reloc says that the relocation type is not none. */
  datatype Address = Address(base: Reg, index: Reg, scale: int, disp: int, target: int, reloc: bool)

  /** What the constructors of Address and the assertions of emit_operand demand. */
  predicate Legal(a: Address) {
    && (a.base.R? ==> a.base.enc < 16)
    && (if a.index.R? then a.index.enc < 16 && a.index.enc != RSP && 0 <= a.scale < 4 else a.scale == -1)
    && IsJint(a.disp)
  }

  /** How emit_operand recognizes a RIP-relative address. */
  predicate NoRegisters(a: Address) { a.base.NoReg? && a.index.NoReg? }
  predicate BaseNeedsRex(a: Address) { a.base.R? && a.base.enc >= 8 }
  predicate IndexNeedsRex(a: Address) { a.index.R? && a.index.enc >= 8 }

  predicate Is8bit(x: int) { -0x80 <= x < 0x80 }

  // ----- The decoder

  datatype Operand =
    | Mem(base: Reg, index: Reg, scale: int, disp: int)
    | Rip(disp: int)
    | Direct(reg: nat)

  /** Memory beyond the code reads as zero. */
  function At(code: seq<nat>, p: nat): (b: nat) { if p < |code| then code[p] else 0 }

  /** The three fields of a ModRM or SIB byte. */
  function Top(b: nat): (f: nat) { b / 64 % 4 }
  function Middle(b: nat): (f: nat) { b / 8 % 8 }
  function Bottom(b: nat): (f: nat) { b % 8 }

  function Pack(top: nat, middle: nat, bottom: nat): (b: nat) { top * 64 + middle * 8 + bottom }

  lemma PackFields(top: nat, middle: nat, bottom: nat)
    requires top < 4 && middle < 8 && bottom < 8
    ensures var b := Pack(top, middle, bottom);
            b < 0x100 && Top(b) == top && Middle(b) == middle && Bottom(b) == bottom
  {
    var b := Pack(top, middle, bottom);
    assert b / 8 == top * 8 + middle;
    assert b / 64 == top;
  }

  /** A three-bit field with the REX bit that extends it. */
  function Ext(bit: bool, low: nat): (r: nat) { if bit then low + 8 else low }

  predicate HasSib(code: seq<nat>, p: nat) { Top(At(code, p)) != 3 && Bottom(At(code, p)) == 4 }

  /** The field that names the base: that of the SIB byte if there is one. */
  function BaseField(code: seq<nat>, p: nat): (f: nat) {
    Bottom(if HasSib(code, p) then At(code, p + 1) else At(code, p))
  }

  function DispAt(code: seq<nat>, p: nat): (q: nat) { if HasSib(code, p) then p + 2 else p + 1 }

  function DispLen(code: seq<nat>, p: nat): (n: nat) {
    match Top(At(code, p))
    case 0 => if BaseField(code, p) == 5 then 4 else 0
    case 1 => 1
    case 2 => 4
    case _ => 0
  }

  function OperandEnd(code: seq<nat>, p: nat): (q: nat) { DispAt(code, p) + DispLen(code, p) }

  /** A field of 0, 1 or 4 bytes, sign extended. */
  function SignedField(code: seq<nat>, p: nat, n: nat): (x: int) {
    if n == 0 then 0
    else if n == 1 then if At(code, p) < 0x80 then At(code, p) else At(code, p) - 0x100
    else Jint(At(code, p) + 0x100 * At(code, p + 1) + 0x1_0000 * At(code, p + 2) + 0x100_0000 * At(code, p + 3))
  }

  /** The operand whose ModRM byte is at p, under the bits X and B of the REX prefix. */
  function Decode(code: seq<nat>, p: nat, x: bool, b: bool): (o: Operand) {
    var modrm := At(code, p);
    var disp := SignedField(code, DispAt(code, p), DispLen(code, p));
    if Top(modrm) == 3 then Direct(Ext(b, Bottom(modrm)))
    else if HasSib(code, p) then
      var sib := At(code, p + 1);
      var base := if Top(modrm) == 0 && Bottom(sib) == 5 then NoReg else R(Ext(b, Bottom(sib)));
      var index := Ext(x, Middle(sib));
      if index == RSP then Mem(base, NoReg, -1, disp) else Mem(base, R(index), Top(sib), disp)
    else if Top(modrm) == 0 && Bottom(modrm) == 5 then Rip(disp)
    else Mem(R(Ext(b, Bottom(modrm))), NoReg, -1, disp)
  }

  /** What an address means in an instruction that ends at the address next. */
  function Meaning(a: Address, next: int): (o: Operand) {
    if NoRegisters(a) then Rip(a.target - next) else Mem(a.base, a.index, a.scale, a.disp)
  }

  /** code is was followed by an operand that decodes to register field reg and address a. */
  predicate Prints(was: seq<nat>, code: seq<nat>, reg: nat, a: Address, origin: int) {
    && |was| < |code| && code[..|was|] == was
    && Middle(At(code, |was|)) == reg % 8
    && Top(At(code, |was|)) != 3
    && OperandEnd(code, |was|) == |code|
    && Decode(code, |was|, IndexNeedsRex(a), BaseNeedsRex(a)) == Meaning(a, origin + |code|)
  }

  /** The displacement bytes that go with a mod field. */
  function DispBytes(mod: nat, disp: int): (bytes: seq<nat>)
    requires IsJint(disp)
    ensures IsBytes(bytes) && |bytes| == (if mod == 0 then 0 else if mod == 1 then 1 else 4)
  {
    if mod == 0 then [] else if mod == 1 then [disp % 0x100] else Bytes(disp)
  }

  lemma SignedFieldOfBytes(code: seq<nat>, p: nat, mod: nat, disp: int)
    requires IsJint(disp) && p + |DispBytes(mod, disp)| == |code|
    requires code[p..] == DispBytes(mod, disp)
    requires mod == 0 ==> disp == 0
    requires mod == 1 ==> Is8bit(disp)
    ensures SignedField(code, p, |DispBytes(mod, disp)|) == disp
  {
    if mod == 1 {
      assert code[p] == code[p..][0];
    } else if mod > 1 {
      var b := Bytes(disp);
      assert code[p] == b[0] && code[p + 1] == b[1] && code[p + 2] == b[2] && code[p + 3] == b[3];
    }
  }

  /** The number of displacement bytes, as a mod field, for these fields. */
  function DispMode(mod: nat, base: nat): (m: nat) { if mod == 0 && base == 5 then 2 else mod }

  function ModeLen(mode: nat): (n: nat) { if mode == 0 then 0 else if mode == 1 then 1 else 4 }

  lemma PlainShape(code: seq<nat>, p: nat, mod: nat, rm: nat)
    requires mod < 3 && rm != 4 && Top(At(code, p)) == mod && Bottom(At(code, p)) == rm
    ensures DispAt(code, p) == p + 1 && DispLen(code, p) == ModeLen(DispMode(mod, rm))
  {
  }

  lemma SibShape(code: seq<nat>, p: nat, mod: nat, base: nat)
    requires mod < 3 && Top(At(code, p)) == mod && Bottom(At(code, p)) == 4 && Bottom(At(code, p + 1)) == base
    ensures DispAt(code, p) == p + 2 && DispLen(code, p) == ModeLen(DispMode(mod, base))
  {
  }

  /** An operand without a SIB byte. */
  lemma PlainOperand(was: seq<nat>, code: seq<nat>, reg: nat, mod: nat, rm: nat, disp: int)
    requires mod < 3 && reg < 8 && rm < 8 && rm != 4 && IsJint(disp)
    requires code == was + [Pack(mod, reg, rm)] + DispBytes(DispMode(mod, rm), disp)
    requires DispMode(mod, rm) == 0 ==> disp == 0
    requires DispMode(mod, rm) == 1 ==> Is8bit(disp)
    ensures code[..|was|] == was
    ensures At(code, |was|) == Pack(mod, reg, rm)
    ensures Top(At(code, |was|)) == mod && Middle(At(code, |was|)) == reg && Bottom(At(code, |was|)) == rm
    ensures DispAt(code, |was|) == |was| + 1 && OperandEnd(code, |was|) == |code|
    ensures SignedField(code, DispAt(code, |was|), DispLen(code, |was|)) == disp
  {
    PackFields(mod, reg, rm);
    PlainShape(code, |was|, mod, rm);
    assert code[|was| + 1..] == DispBytes(DispMode(mod, rm), disp);
    SignedFieldOfBytes(code, |was| + 1, DispMode(mod, rm), disp);
  }

  /** An operand with a SIB byte. */
  lemma SibOperand(was: seq<nat>, code: seq<nat>, reg: nat, mod: nat, scale: nat, index: nat, base: nat, disp: int)
    requires mod < 3 && reg < 8 && scale < 4 && index < 8 && base < 8 && IsJint(disp)
    requires code == was + [Pack(mod, reg, 4), Pack(scale, index, base)] + DispBytes(DispMode(mod, base), disp)
    requires DispMode(mod, base) == 0 ==> disp == 0
    requires DispMode(mod, base) == 1 ==> Is8bit(disp)
    ensures code[..|was|] == was
    ensures At(code, |was|) == Pack(mod, reg, 4) && At(code, |was| + 1) == Pack(scale, index, base)
    ensures Top(At(code, |was|)) == mod && Middle(At(code, |was|)) == reg && Bottom(At(code, |was|)) == 4
    ensures Top(At(code, |was| + 1)) == scale && Middle(At(code, |was| + 1)) == index && Bottom(At(code, |was| + 1)) == base
    ensures DispAt(code, |was|) == |was| + 2 && OperandEnd(code, |was|) == |code|
    ensures SignedField(code, DispAt(code, |was|), DispLen(code, |was|)) == disp
  {
    PackFields(mod, reg, 4);
    PackFields(scale, index, base);
    SibShape(code, |was|, mod, base);
    assert code[|was| + 2..] == DispBytes(DispMode(mod, base), disp);
    SignedFieldOfBytes(code, |was| + 2, DispMode(mod, base), disp);
  }

  // ----- The emitter

  function Low(enc: nat): (low: nat) { if enc >= 8 then enc - 8 else enc }

  function BaseIndexBytes(reg: nat, a: Address, mod: nat): (bytes: seq<nat>)
    requires reg < 16 && Legal(a) && a.base.R? && a.index.R? && mod < 3
  {
    [Pack(mod, Low(reg), 4), Pack(a.scale, Low(a.index.enc), Low(a.base.enc))] + DispBytes(mod, a.disp)
  }

  lemma BaseIndexPrints(was: seq<nat>, reg: nat, a: Address, mod: nat, origin: int)
    requires reg < 16 && Legal(a) && a.base.R? && a.index.R? && mod < 3
    requires mod == 0 ==> a.disp == 0 && a.base != R(RBP) && a.base != R(R13)
    requires mod == 1 ==> Is8bit(a.disp)
    ensures Prints(was, was + BaseIndexBytes(reg, a, mod), reg, a, origin)
    ensures IsBytes(BaseIndexBytes(reg, a, mod))
  {
    var code := was + BaseIndexBytes(reg, a, mod);
    assert code == was + [Pack(mod, Low(reg), 4), Pack(a.scale, Low(a.index.enc), Low(a.base.enc))] + DispBytes(mod, a.disp);
    SibOperand(was, code, Low(reg), mod, a.scale, Low(a.index.enc), Low(a.base.enc), a.disp);
    SibDecodes(code, |was|, a, mod);
    PackFields(mod, Low(reg), 4);
    PackFields(a.scale, Low(a.index.enc), Low(a.base.enc));
    LowIsMod(reg);
  }

  /** Register numbers come back from their low bits and the REX bit. */
  lemma LowIsMod(enc: nat)
    requires enc < 16
    ensures Low(enc) == enc % 8 && Ext(enc >= 8, Low(enc)) == enc
  {
  }

  lemma SibDecodes(code: seq<nat>, p: nat, a: Address, mod: nat)
    requires Legal(a) && a.base.R? && a.index.R? && mod < 3
    requires mod == 0 ==> a.base != R(RBP) && a.base != R(R13)
    requires Top(At(code, p)) == mod && Bottom(At(code, p)) == 4
    requires Top(At(code, p + 1)) == a.scale && Middle(At(code, p + 1)) == Low(a.index.enc)
    requires Bottom(At(code, p + 1)) == Low(a.base.enc)
    ensures Decode(code, p, IndexNeedsRex(a), BaseNeedsRex(a)) ==
            Mem(a.base, a.index, a.scale, SignedField(code, DispAt(code, p), DispLen(code, p)))
  {
    LowIsMod(a.index.enc);
    LowIsMod(a.base.enc);
    assert HasSib(code, p);
  }

  function StackBytes(reg: nat, a: Address, mod: nat): (bytes: seq<nat>)
    requires reg < 16 && Legal(a) && mod < 3
  {
    [Pack(mod, Low(reg), 4), 0x24] + DispBytes(mod, a.disp)
  }

  /** [rsp + disp] and [r12 + disp], whose ModRM code means a SIB byte. */
  lemma StackPrints(was: seq<nat>, reg: nat, a: Address, mod: nat, origin: int)
    requires reg < 16 && Legal(a) && a.index.NoReg? && mod < 3
    requires a.base == R(RSP) || a.base == R(R12)
    requires mod == 0 ==> a.disp == 0
    requires mod == 1 ==> Is8bit(a.disp)
    ensures Prints(was, was + StackBytes(reg, a, mod), reg, a, origin)
    ensures IsBytes(StackBytes(reg, a, mod))
  {
    var code := was + StackBytes(reg, a, mod);
    assert code == was + [Pack(mod, Low(reg), 4), Pack(0, 4, 4)] + DispBytes(mod, a.disp);
    SibOperand(was, code, Low(reg), mod, 0, 4, 4, a.disp);
    StackDecodes(code, |was|, a, mod);
    PackFields(mod, Low(reg), 4);
    LowIsMod(reg);
  }

  lemma StackDecodes(code: seq<nat>, p: nat, a: Address, mod: nat)
    requires Legal(a) && a.index.NoReg? && mod < 3
    requires a.base == R(RSP) || a.base == R(R12)
    requires Top(At(code, p)) == mod && Bottom(At(code, p)) == 4
    requires Middle(At(code, p + 1)) == 4 && Bottom(At(code, p + 1)) == 4
    ensures Decode(code, p, IndexNeedsRex(a), BaseNeedsRex(a)) ==
            Mem(a.base, a.index, a.scale, SignedField(code, DispAt(code, p), DispLen(code, p)))
  {
    assert HasSib(code, p);
  }

  function BaseBytes(reg: nat, a: Address, mod: nat): (bytes: seq<nat>)
    requires reg < 16 && Legal(a) && a.base.R? && mod < 3
  {
    [Pack(mod, Low(reg), Low(a.base.enc))] + DispBytes(mod, a.disp)
  }

  lemma BasePrints(was: seq<nat>, reg: nat, a: Address, mod: nat, origin: int)
    requires reg < 16 && Legal(a) && a.base.R? && a.index.NoReg? && mod < 3
    requires a.base != R(RSP) && a.base != R(R12)
    requires mod == 0 ==> a.disp == 0 && a.base != R(RBP) && a.base != R(R13)
    requires mod == 1 ==> Is8bit(a.disp)
    ensures Prints(was, was + BaseBytes(reg, a, mod), reg, a, origin)
    ensures IsBytes(BaseBytes(reg, a, mod))
  {
    var code := was + BaseBytes(reg, a, mod);
    assert code == was + [Pack(mod, Low(reg), Low(a.base.enc))] + DispBytes(mod, a.disp);
    PlainOperand(was, code, Low(reg), mod, Low(a.base.enc), a.disp);
    BaseDecodes(code, |was|, a, mod);
    PackFields(mod, Low(reg), Low(a.base.enc));
    LowIsMod(reg);
  }

  lemma BaseDecodes(code: seq<nat>, p: nat, a: Address, mod: nat)
    requires Legal(a) && a.base.R? && a.index.NoReg? && mod < 3
    requires a.base != R(RSP) && a.base != R(R12)
    requires mod == 0 ==> a.base != R(RBP) && a.base != R(R13)
    requires Top(At(code, p)) == mod && Bottom(At(code, p)) == Low(a.base.enc)
    ensures Decode(code, p, IndexNeedsRex(a), BaseNeedsRex(a)) ==
            Mem(a.base, a.index, a.scale, SignedField(code, DispAt(code, p), DispLen(code, p)))
  {
    LowIsMod(a.base.enc);
  }

  function IndexBytes(reg: nat, a: Address): (bytes: seq<nat>)
    requires reg < 16 && Legal(a) && a.index.R?
  {
    [Pack(0, Low(reg), 4), Pack(a.scale, Low(a.index.enc), 5)] + DispBytes(2, a.disp)
  }

  lemma IndexPrints(was: seq<nat>, reg: nat, a: Address, origin: int)
    requires reg < 16 && Legal(a) && a.base.NoReg? && a.index.R?
    ensures Prints(was, was + IndexBytes(reg, a), reg, a, origin)
    ensures IsBytes(IndexBytes(reg, a))
  {
    var code := was + IndexBytes(reg, a);
    assert code == was + [Pack(0, Low(reg), 4), Pack(a.scale, Low(a.index.enc), 5)] + DispBytes(2, a.disp);
    SibOperand(was, code, Low(reg), 0, a.scale, Low(a.index.enc), 5, a.disp);
    IndexDecodes(code, |was|, a);
    PackFields(0, Low(reg), 4);
    PackFields(a.scale, Low(a.index.enc), 5);
    LowIsMod(reg);
  }

  lemma IndexDecodes(code: seq<nat>, p: nat, a: Address)
    requires Legal(a) && a.base.NoReg? && a.index.R?
    requires Top(At(code, p)) == 0 && Bottom(At(code, p)) == 4
    requires Top(At(code, p + 1)) == a.scale && Middle(At(code, p + 1)) == Low(a.index.enc)
    requires Bottom(At(code, p + 1)) == 5
    ensures Decode(code, p, IndexNeedsRex(a), BaseNeedsRex(a)) ==
            Mem(a.base, a.index, a.scale, SignedField(code, DispAt(code, p), DispLen(code, p)))
  {
    LowIsMod(a.index.enc);
    assert HasSib(code, p);
  }

  function RipBytes(reg: nat, disp: int): (bytes: seq<nat>)
    requires reg < 16 && IsJint(disp)
  {
    [Pack(0, Low(reg), 5)] + DispBytes(2, disp)
  }

  lemma RipBytesAreBytes(reg: nat, disp: int)
    requires reg < 16 && IsJint(disp)
    ensures IsBytes(RipBytes(reg, disp))
  {
    PackFields(0, Low(reg), 5);
    LowIsMod(reg);
  }

  lemma RipDecodes(code: seq<nat>, p: nat, x: bool, b: bool)
    requires Top(At(code, p)) == 0 && Bottom(At(code, p)) == 5
    ensures Decode(code, p, x, b) == Rip(SignedField(code, DispAt(code, p), DispLen(code, p)))
  {
  }

  lemma RipPrints(was: seq<nat>, reg: nat, a: Address, origin: int)
    requires reg < 16 && Legal(a) && NoRegisters(a)
    requires IsJint(a.target - (origin + |was| + 5))
    ensures Prints(was, was + RipBytes(reg, a.target - (origin + |was| + 5)), reg, a, origin)
    ensures IsBytes(RipBytes(reg, a.target - (origin + |was| + 5)))
  {
    var disp := a.target - (origin + |was| + 5);
    var code := was + RipBytes(reg, disp);
    assert code == was + [Pack(0, Low(reg), 5)] + DispBytes(2, disp);
    PlainOperand(was, code, Low(reg), 0, 5, disp);
    RipDecodes(code, |was|, IndexNeedsRex(a), BaseNeedsRex(a));
    RipBytesAreBytes(reg, disp);
    LowIsMod(reg);
    assert Meaning(a, origin + |code|) == Rip(disp);
  }

  class Assembler {
    var code: seq<nat>
    const origin: int                      // the address of code[0]

    constructor (at: int)
      ensures code == [] && origin == at
    {
      code, origin := [], at;
    }

    /** emit_byte, once or twice. */
    method EmitBytes(bytes: seq<nat>)
      modifies this`code
      ensures code == old(code) + bytes
    {
      code := code + bytes;
    }

    /** emit_data, whose relocation record is not part of this model. */
    method EmitData(disp: int)
      requires IsJint(disp)
      modifies this`code
      ensures code == old(code) + Bytes(disp)
    {
      var bytes := Bytes(disp);
      code := code + bytes;
    }

    /** long_at_put. */
    method LongAtPut(p: nat, x: int)
      requires p + 4 <= |code| && IsJint(x)
      modifies this`code
      ensures LongPut(old(code), code, p, x)
    {
      var b := Bytes(x);
      code := code[p := b[0]][p + 1 := b[1]][p + 2 := b[2]][p + 3 := b[3]];
    }

    /** emit_operand for an address with a base and an index. */
    method EmitBaseIndex(reg: nat, a: Address)
      requires reg < 16 && Legal(a) && a.base.R? && a.index.R? && IsBytes(code)
      modifies this`code
      ensures Prints(old(code), code, reg, a, origin) && IsBytes(code)
    {
      var regenc, indexenc, baseenc := Low(reg), Low(a.index.enc), Low(a.base.enc);
      ghost var mod;
      if a.disp == 0 && !a.reloc && a.base != R(RBP) && a.base != R(R13) {
        EmitBytes([0x04 + regenc * 8, a.scale * 64 + indexenc * 8 + baseenc]);
        mod := 0;
      } else if Is8bit(a.disp) && !a.reloc {
        EmitBytes([0x44 + regenc * 8, a.scale * 64 + indexenc * 8 + baseenc]);
        EmitBytes([a.disp % 0x100]);
        mod := 1;
      } else {
        EmitBytes([0x84 + regenc * 8, a.scale * 64 + indexenc * 8 + baseenc]);
        EmitData(a.disp);
        mod := 2;
      }
      assert code == old(code) + BaseIndexBytes(reg, a, mod);
      BaseIndexPrints(old(code), reg, a, mod, origin);
    }

    /** emit_operand for an address with a base and no index. */
    method EmitBase(reg: nat, a: Address)
      requires reg < 16 && Legal(a) && a.base.R? && a.index.NoReg? && IsBytes(code)
      modifies this`code
      ensures Prints(old(code), code, reg, a, origin) && IsBytes(code)
    {
      if a.base == R(RSP) || a.base == R(R12) { EmitStackBase(reg, a); } else { EmitPlainBase(reg, a); }
    }

    method EmitStackBase(reg: nat, a: Address)
      requires reg < 16 && Legal(a) && a.index.NoReg? && IsBytes(code)
      requires a.base == R(RSP) || a.base == R(R12)
      modifies this`code
      ensures Prints(old(code), code, reg, a, origin) && IsBytes(code)
    {
      var regenc := Low(reg);
      ghost var mod;
      if a.disp == 0 && !a.reloc {
        EmitBytes([0x04 + regenc * 8, 0x24]);
        mod := 0;
      } else if Is8bit(a.disp) && !a.reloc {
        EmitBytes([0x44 + regenc * 8, 0x24]);
        EmitBytes([a.disp % 0x100]);
        mod := 1;
      } else {
        EmitBytes([0x84 + regenc * 8, 0x24]);
        EmitData(a.disp);
        mod := 2;
      }
      assert code == old(code) + StackBytes(reg, a, mod);
      StackPrints(old(code), reg, a, mod, origin);
    }

    method EmitPlainBase(reg: nat, a: Address)
      requires reg < 16 && Legal(a) && a.base.R? && a.index.NoReg? && IsBytes(code)
      requires a.base != R(RSP) && a.base != R(R12)
      modifies this`code
      ensures Prints(old(code), code, reg, a, origin) && IsBytes(code)
    {
      var regenc, baseenc := Low(reg), Low(a.base.enc);
      ghost var mod;
      if a.disp == 0 && !a.reloc && a.base != R(RBP) && a.base != R(R13) {
        EmitBytes([0x00 + regenc * 8 + baseenc]);
        mod := 0;
      } else if Is8bit(a.disp) && !a.reloc {
        EmitBytes([0x40 + regenc * 8 + baseenc]);
        EmitBytes([a.disp % 0x100]);
        mod := 1;
      } else {
        EmitBytes([0x80 + regenc * 8 + baseenc]);
        EmitData(a.disp);
        mod := 2;
      }
      assert code == old(code) + BaseBytes(reg, a, mod);
      BasePrints(old(code), reg, a, mod, origin);
    }

    /** emit_operand. */
    method EmitOperand(reg: nat, a: Address)
      requires reg < 16 && Legal(a) && IsBytes(code)
      requires NoRegisters(a) ==> IsJint(a.target - (origin + |code| + 5))
      modifies this`code
      ensures Prints(old(code), code, reg, a, origin) && IsBytes(code)
    {
      var regenc := Low(reg);
      if a.base.R? {
        if a.index.R? { EmitBaseIndex(reg, a); } else { EmitBase(reg, a); }
      } else if a.index.R? {
        EmitBytes([0x04 + regenc * 8, a.scale * 64 + Low(a.index.enc) * 8 + 0x05]);
        EmitData(a.disp);
        assert code == old(code) + IndexBytes(reg, a);
        IndexPrints(old(code), reg, a, origin);
      } else {
        EmitBytes([0x05 + regenc * 8]);
        var disp := a.target - (origin + |code| + 4);
        EmitData(disp);
        assert code == old(code) + RipBytes(reg, disp);
        RipPrints(old(code), reg, a, origin);
      }
    }
  }
}
