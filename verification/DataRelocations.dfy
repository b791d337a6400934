/** Relocations of data (relocInfo_amd64.cpp, pd_set_data_value and pd_get_address_from_code), in both
    formats: the 32-bit displacement of a RIP-relative operand, and the 64-bit immediate of movq. */
module DataRelocations {
  import opened Options
  import opened CodeBytes
  import opened Operands
  import opened Instructions
  import opened Parser

  // ----- 64-bit immediates

  /** The address at p, least significant byte first. */
  function Quad(code: seq<nat>, p: nat): (x: nat)
    requires p + 8 <= |code|
  {
    Load32(code, p) + 0x1_0000_0000 * Load32(code, p + 4)
  }

  function QuadBytes(x: nat): (b: seq<nat>)
    requires x < 0x1_0000_0000_0000_0000
    ensures |b| == 8 && IsBytes(b)
  {
    Digits(x % 0x1_0000_0000, 4) + Digits(x / 0x1_0000_0000, 4)
  }

  lemma HalfOfDigits(code: seq<nat>, p: nat, u: nat)
    requires u < 0x1_0000_0000 && p + 4 <= |code|
    requires forall i | 0 <= i < 4 :: code[p + i] == Digits(u, 4)[i]
    ensures Load32(code, p) == u
  {
    FourDigits(u);
    DigitsSum(u);
    var d := Digits(u, 4);
    assert code[p + 0] == d[0] && code[p + 1] == d[1] && code[p + 2] == d[2] && code[p + 3] == d[3];
  }

  lemma QuadOfBytes(code: seq<nat>, p: nat, x: nat)
    requires x < 0x1_0000_0000_0000_0000 && p + 8 <= |code|
    requires forall i | 0 <= i < 8 :: code[p + i] == QuadBytes(x)[i]
    ensures Quad(code, p) == x
  {
    var low, high := x % 0x1_0000_0000, x / 0x1_0000_0000;
    forall i | 0 <= i < 4 ensures code[p + i] == Digits(low, 4)[i] && code[p + 4 + i] == Digits(high, 4)[i] {
      assert code[p + i] == QuadBytes(x)[i] && code[p + (4 + i)] == QuadBytes(x)[4 + i];
    }
    HalfOfDigits(code, p, low);
    HalfOfDigits(code, p + 4, high);
  }

  /** movq reg, imm64: REX.W or REX.WB, B8 + reg, and the immediate. */
  predicate IsMovq(code: seq<nat>, p: nat) {
    p + 10 <= |code| && (code[p] == 0x48 || code[p] == 0x49) && 0xB8 <= code[p + 1] < 0xC0
  }

  /** The register that a movq loads. */
  function MovqRegister(code: seq<nat>, p: nat): (reg: nat)
    requires IsMovq(code, p)
  {
    Ext(code[p] == 0x49, code[p + 1] - 0xB8)
  }

  method EmitMovq(buf: Assembler, reg: nat, imm: nat)
    requires reg < 16 && imm < 0x1_0000_0000_0000_0000
    modifies buf`code
    ensures |buf.code| == |old(buf.code)| + 10 && buf.code[..|old(buf.code)|] == old(buf.code)
    ensures IsMovq(buf.code, |old(buf.code)|) && MovqRegister(buf.code, |old(buf.code)|) == reg
    ensures Quad(buf.code, |old(buf.code)| + 2) == imm
    ensures Locate(buf.code, |old(buf.code)|, Imm64) == Some(|old(buf.code)| + 2)
    ensures Locate(buf.code, |old(buf.code)|, EndPc) == Some(|buf.code|)
  {
    var p := |buf.code|;
    buf.EmitBytes([if reg < 8 then 0x48 else 0x49]);
    buf.EmitBytes([0xB8 + Low(reg)]);
    var bytes := QuadBytes(imm);
    buf.EmitBytes(bytes);
    QuadOfBytes(buf.code, p + 2, imm);
    LowIsMod(reg);
    ImmediateIsLocated(buf.code, p);
  }

  // ----- Relocations

  /** A data relocation in disp32 format may stand at p. */
  predicate IsRipData(code: seq<nat>, p: nat) {
    var i := DecodeInsn(code, p);
    && IsEmitter(FormOf(i)) && i.op != 0x63 && i.rm.Rip?
    && i.next <= |code|
  }

  /** A data relocation in this format may stand at p. */
  predicate IsData(code: seq<nat>, p: nat, format: Which) {
    match format
    case Imm64 => IsMovq(code, p)
    case Disp32 => IsRipData(code, p)
    case _ => false
  }

  /** The address that the runtime takes an instruction to refer to. */
  function Data(code: seq<nat>, p: nat, format: Which, origin: int): (x: int)
    requires IsData(code, p, format)
  {
    if format == Imm64 then Quad(code, p + 2)
    else origin + DispAt(code, OpAt(code, p) + 1) + 4 + DecodeInsn(code, p).rm.disp
  }

  /** pd_get_address_from_code. */
  method GetAddress(buf: Assembler, inst: nat, format: Which) returns (x: int)
    requires IsData(buf.code, inst, format)
    ensures x == Data(buf.code, inst, format, buf.origin)
  {
    if format == Imm64 {
      ImmediateIsLocated(buf.code, inst);
      var data := LocateOperand(buf.code, inst, Imm64);
      x := Quad(buf.code, data.value);
    } else {
      RipIsLocated(buf.code, inst);
      var disp := LocateOperand(buf.code, inst, Disp32);
      x := buf.origin + disp.value + Long(buf.code, disp.value) + 4;
    }
  }

  /** The address that the processor uses: relative to the end of the whole instruction. */
  function Target(code: seq<nat>, p: nat, origin: int): (x: int)
    requires IsRipData(code, p)
  {
    origin + DecodeInsn(code, p).next + DecodeInsn(code, p).rm.disp
  }

  /** The address got is the one the processor uses, unless there is an immediate behind it. */
  lemma DataIsTarget(code: seq<nat>, p: nat, origin: int)
    requires IsRipData(code, p)
    ensures Target(code, p, origin) == Data(code, p, Disp32, origin) + FormOf(DecodeInsn(code, p)).imm
    ensures Data(code, p, Disp32, origin) == Target(code, p, origin) <==> FormOf(DecodeInsn(code, p)).imm == 0
  {
    RipIsDisp32(code, p);
  }

  /** now is code with the address x set in the displacement at p: what is got is x exactly when
      the distance fits, the processor's address is off by the size of the immediate, and nothing else
      that is decoded, and no byte outside of the displacement, changes. */
  ghost predicate IsSet(code: seq<nat>, now: seq<nat>, p: nat, x: int, origin: int) {
    && IsRipData(code, p) && IsRipData(now, p) && |now| == |code|
    && DecodeInsn(now, p) == DecodeInsn(code, p).(rm := DecodeInsn(now, p).rm)
    && var at := DispAt(code, OpAt(code, p) + 1);
       && (Data(now, p, Disp32, origin) == x <==> IsJint(x - (origin + at + 4)))
       && Target(now, p, origin) == Data(now, p, Disp32, origin) + FormOf(DecodeInsn(now, p)).imm
       && forall i | 0 <= i < |code| && !(at <= i < at + 4) :: now[i] == code[i]
  }

  /** pd_set_data_value. */
  method SetDataValue(buf: Assembler, inst: nat, format: Which, x: nat)
    requires IsData(buf.code, inst, format) && x < 0x1_0000_0000_0000_0000
    modifies buf`code
    ensures format == Disp32 ==> IsSet(old(buf.code), buf.code, inst, x, buf.origin)
    ensures format == Imm64 ==>
              && IsMovq(buf.code, inst) && Data(buf.code, inst, Imm64, buf.origin) == x
              && |buf.code| == |old(buf.code)|
              && forall i | 0 <= i < |buf.code| && !(inst + 2 <= i < inst + 10) :: buf.code[i] == old(buf.code)[i]
  {
    if format == Imm64 {
      ImmediateIsLocated(buf.code, inst);
      var data := LocateOperand(buf.code, inst, Imm64);
      QuadAtPut(buf, data.value, x);
    } else {
      SetDisplacement(buf, inst, x);
    }
  }

  method SetDisplacement(buf: Assembler, inst: nat, x: nat)
    requires IsRipData(buf.code, inst)
    modifies buf`code
    ensures IsSet(old(buf.code), buf.code, inst, x, buf.origin)
  {
    RipIsLocated(buf.code, inst);
    var disp := LocateOperand(buf.code, inst, Disp32);
    var at := disp.value;
    buf.LongAtPut(at, Truncated(x - (buf.origin + at) - 4));
    SetIsGot(old(buf.code), buf.code, inst, x, buf.origin, at);
  }

  method QuadAtPut(buf: Assembler, p: nat, x: nat)
    requires p + 8 <= |buf.code| && x < 0x1_0000_0000_0000_0000
    modifies buf`code
    ensures |buf.code| == |old(buf.code)| && Quad(buf.code, p) == x
    ensures forall i | 0 <= i < |buf.code| && !(p <= i < p + 8) :: buf.code[i] == old(buf.code)[i]
  {
    var b := QuadBytes(x);
    buf.code := buf.code[..p] + b + buf.code[p + 8..];
    forall i | 0 <= i < 8 ensures buf.code[p + i] == b[i] {}
    QuadOfBytes(buf.code, p, x);
  }

  lemma SetIsGot(code: seq<nat>, now: seq<nat>, p: nat, x: int, origin: int, at: nat)
    requires IsRipData(code, p) && at == OpAt(code, p) + 2
    requires LongPut(code, now, at, Truncated(x - (origin + at) - 4))
    ensures IsSet(code, now, p, x, origin)
  {
    RipIsLocated(code, p);
    PutKeepsInsn(code, now, p, Truncated(x - (origin + at) - 4));
    DataIsTarget(now, p, origin);
  }

  lemma RipIsLocated(code: seq<nat>, p: nat)
    requires IsRipData(code, p)
    ensures var at := OpAt(code, p) + 2;
            && Locate(code, p, Disp32) == Some(at) && at + 4 <= |code|
            && DispAt(code, at - 1) == at && DecodeInsn(code, p).rm == Rip(Long(code, at))
  {
    RipIsDisp32(code, p);
    ParserAgrees(code, p);
  }

  lemma RipIsDisp32(code: seq<nat>, p: nat)
    requires IsRipData(code, p)
    ensures var m := OpAt(code, p) + 1;
            && DispLen(code, m) == 4 && DispAt(code, m) == m + 1 && OperandEnd(code, m) == m + 5 <= |code|
            && DecodeInsn(code, p).next == m + 5 + FormOf(DecodeInsn(code, p)).imm
            && DecodeInsn(code, p).rm.disp == Long(code, m + 1)
  {
  }

  /** Writing the displacement of a RIP-relative operand changes nothing else that is decoded. */
  lemma PutKeepsInsn(code: seq<nat>, now: seq<nat>, p: nat, x: int)
    requires IsRipData(code, p) && LongPut(code, now, OpAt(code, p) + 2, x)
    ensures OpAt(now, p) == OpAt(code, p) && DispAt(now, OpAt(now, p) + 1) == OpAt(code, p) + 2
    ensures DecodeInsn(now, p) == DecodeInsn(code, p).(rm := Rip(x))
  {
    RipIsDisp32(code, p);
    var m := OpAt(code, p) + 1;
    forall i: nat | !(m + 1 <= i < m + 5) ensures At(now, i) == At(code, i) {}
    assert RexOf(now, p) == RexOf(code, p) && EscAt(now, p) == EscAt(code, p) && OpAt(now, p) == OpAt(code, p);
    assert DispAt(now, m) == m + 1 && OperandEnd(now, m) == m + 5;
    assert SignedField(now, m + 1, 4) == Long(now, m + 1);
  }
}
