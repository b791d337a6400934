/** Assembler::locate_operand (assembler_amd64.cpp), which re-parses emitted instructions, against
    the instruction decoder.

    The model is the product build: assertions in locate_operand do nothing, and
    ShouldNotReachHere is None. */
module Parser {
  import opened Options
  import opened CodeBytes
  import opened Operands
  import opened Instructions

  /** What locate_operand is to find; EndPc is locate_next_instruction. */
  datatype Which = Imm64 | Disp32 | Call32 | EndPc

  /** The kinds of rows in the switch over the first byte. */
  datatype Row =
    | Size                 // 66
    | Sse                  // F2, F3
    | Escape               // 0F
    | Wait                 // 9B
    | Memory(tail: nat)    // an operand and a tail
    | PushImm              // 68
    | MovImm               // B8..BF
    | Rel32                // E8, E9, 0F 8x
    | NoRow

  /** The rows that go on with the next byte: segment, address size and REX prefixes. */
  predicate IsPrefix(b: nat) { b in {0x26, 0x2E, 0x36, 0x3E, 0x64, 0x65, 0x67} || IsRex(b) }

  /** The row of a first byte that is no prefix. */
  function FirstRow(b: nat): (r: Row) {
    if b in {0xFF, 0x88, 0x89, 0x8A, 0x8B, 0x8F} then Memory(0)
    else if b == 0x68 then PushImm
    else if b == 0x66 then Size
    else if 0xB8 <= b < 0xC0 then MovImm
    else if b in {0x69, 0xC7, 0x81} then Memory(4)
    else if b == 0x0F then Escape
    else if b in {0x83, 0xC6, 0x80, 0x6B} then Memory(1)
    else if b == 0x9B then Wait
    else if b < 0x40 && b % 8 < 4 then Memory(0)
    else if b in {0xF7, 0x87, 0x8D, 0x85} then Memory(0)
    else if b in {0xE8, 0xE9} then Rel32
    else if b in {0xD1, 0xD3, 0xD9, 0xDD, 0xDB, 0xDF, 0xD8, 0xDC, 0xDE} then Memory(0)
    else if b in {0xF2, 0xF3} then Sse
    else NoRow
  }

  function EscapeRow(b: nat): (r: Row) {
    if b in {0x2E, 0x2F, 0x57, 0x54, 0x12, 0x6E, 0x7E, 0xAE, 0xD6} then Memory(0)
    else if b in {0xAD, 0xAF, 0xBE, 0xBF, 0xB6, 0xB7, 0xB0, 0xB1, 0xC1, 0xC7} then Memory(0)
    else if 0x40 <= b < 0x50 || 0x90 <= b < 0xA0 then Memory(0)
    else if b == 0xAC then Memory(1)
    else if 0x80 <= b < 0x90 then Rel32
    else NoRow
  }

  /** Parsing the output of emit_operand, at ip. */
  function ParseOperand(code: seq<nat>, ip: nat, which: Which, tail: nat): (r: nat) {
    if which == Disp32 && DispLen(code, ip) == 4 then DispAt(code, ip)
    else OperandEnd(code, ip) + if which == EndPc then tail else 0
  }

  function SkipRex(code: seq<nat>, ip: nat): (q: nat)
    ensures ip <= q && !IsRex(At(code, q))
    decreases if ip < |code| then |code| - ip else 0
  {
    if IsRex(At(code, ip)) then SkipRex(code, ip + 1) else ip
  }

  /** A row that ends the parse, with ip behind its byte. */
  function Finish(code: seq<nat>, row: Row, ip: nat, is64: bool, which: Which): (r: Option<nat>) {
    match row
    case Memory(tail) => Some(ParseOperand(code, ip, which, tail))
    case PushImm => if which == EndPc then Some(ip + 4) else None
    case MovImm => Some(if which == EndPc then ip + (if is64 then 8 else 4) else ip)
    case Rel32 => Some(if which == EndPc then ip + 4 else ip)
    case _ => None
  }

  /** Where the prefixes from ip on end. */
  function SkipPrefixes(code: seq<nat>, ip: nat): (q: nat)
    ensures ip <= q && !IsPrefix(At(code, q))
    decreases if ip < |code| then |code| - ip else 0
  {
    if IsPrefix(At(code, ip)) then SkipPrefixes(code, ip + 1) else ip
  }

  /** Whether one of the bytes from ip to q is a REX prefix with W. */
  predicate HasRexW(code: seq<nat>, ip: nat, q: nat)
    decreases q - ip
  {
    ip < q && (At(code, ip) / 8 == 9 || HasRexW(code, ip + 1, q))
  }

  /** What locate_operand returns for the instruction at inst. */
  function Locate(code: seq<nat>, inst: nat, which: Which): (r: Option<nat>) {
    var ip := SkipPrefixes(code, inst);
    AtRow(code, FirstRow(At(code, ip)), ip, HasRexW(code, inst, ip), which)
  }

  /** The same for an instruction whose prefixes are done, with the row of the byte at ip; a 66 and an
      0F lead back to the row of the 0F. */
  function AtRow(code: seq<nat>, row: Row, ip: nat, is64: bool, which: Which): (r: Option<nat>) {
    match row
    case Size =>
      var q := SkipRex(code, ip + 1);
      var b := At(code, q);
      if b == 0x8B || b == 0x89 then Some(ParseOperand(code, q + 1, which, 0))
      else if b == 0xC7 then Some(ParseOperand(code, q + 1, which, 2))
      else if b == 0x0F then Finish(code, EscapeRow(At(code, q + 1)), q + 2, is64, which)
      else None
    case Sse =>
      Some(ParseOperand(code, if IsRex(At(code, ip + 1)) then ip + 4 else ip + 3, which, 0))
    case Escape => Finish(code, EscapeRow(At(code, ip + 1)), ip + 2, is64, which)
    case Wait => if At(code, ip + 1) == 0xD9 then Some(ParseOperand(code, ip + 2, which, 0)) else None
    case _ => Finish(code, row, ip + 1, is64, which)
  }

  lemma {:induction false} HasRexWAtEnd(code: seq<nat>, ip: nat, q: nat)
    requires ip <= q
    ensures HasRexW(code, ip, q + 1) == (HasRexW(code, ip, q) || At(code, q) / 8 == 9)
    decreases q - ip
  {
    if ip < q { HasRexWAtEnd(code, ip + 1, q); }
  }

  /** locate_operand(inst, which). */
  method LocateOperand(code: seq<nat>, inst: nat, which: Which) returns (r: Option<nat>)
    ensures r == Locate(code, inst, which)
  {
    var ip, is64 := inst, false;
    while IsPrefix(At(code, ip))
      invariant inst <= ip && SkipPrefixes(code, ip) == SkipPrefixes(code, inst)
      invariant is64 == HasRexW(code, inst, ip)
      decreases if ip < |code| then |code| - ip else 0
    {
      HasRexWAtEnd(code, inst, ip);
      is64 := is64 || At(code, ip) / 8 == 9;
      ip := ip + 1;
    }
    var row := FirstRow(At(code, ip));
    r := LocateAtRow(code, row, ip + 1, is64, which);
  }

  /** The switch of locate_operand, with ip behind the byte of the row. */
  method LocateAtRow(code: seq<nat>, row: Row, start: nat, is64: bool, which: Which) returns (r: Option<nat>)
    requires start > 0
    ensures r == AtRow(code, row, start - 1, is64, which)
  {
    var ip := start;
    match row {
      case Size =>
        ip := SkipRexPrefixes(code, ip);
        var b := At(code, ip);
        ip := ip + 1;
        if b == 0x8B || b == 0x89 {
          var at := ParseMemory(code, ip, which, 0);
          r := Some(at);
        } else if b == 0xC7 {
          var at := ParseMemory(code, ip, which, 2);
          r := Some(at);
        } else if b == 0x0F {
          r := FinishRow(code, EscapeRow(At(code, ip)), ip + 1, is64, which);
        } else {
          r := None;
        }
      case Sse =>
        if IsRex(At(code, ip)) { ip := ip + 1; }
        var at := ParseMemory(code, ip + 2, which, 0);
        r := Some(at);
      case Escape =>
        r := FinishRow(code, EscapeRow(At(code, ip)), ip + 1, is64, which);
      case Wait =>
        if At(code, ip) != 0xD9 { return None; }
        var at := ParseMemory(code, ip + 1, which, 0);
        r := Some(at);
      case _ =>
        r := FinishRow(code, row, ip, is64, which);
    }
  }

  method SkipRexPrefixes(code: seq<nat>, first: nat) returns (ip: nat)
    ensures ip == SkipRex(code, first)
  {
    ip := first;
    while IsRex(At(code, ip))
      invariant SkipRex(code, ip) == SkipRex(code, first) && first <= ip
      decreases if ip < |code| then |code| - ip else 0
    {
      ip := ip + 1;
    }
  }

  method FinishRow(code: seq<nat>, row: Row, ip: nat, is64: bool, which: Which) returns (r: Option<nat>)
    ensures r == Finish(code, row, ip, is64, which)
  {
    match row {
      case Memory(tail) =>
        var at := ParseMemory(code, ip, which, tail);
        return Some(at);
      case PushImm => return if which == EndPc then Some(ip + 4) else None;
      case MovImm => return Some(if which == EndPc then ip + (if is64 then 8 else 4) else ip);
      case Rel32 => return Some(if which == EndPc then ip + 4 else ip);
      case _ => return None;
    }
  }

  /** The common end of locate_operand: ModRM, SIB and displacement. */
  method ParseMemory(code: seq<nat>, inst: nat, which: Which, tail: nat) returns (r: nat)
    ensures r == ParseOperand(code, inst, which, tail)
  {
    var ip := inst;
    var op2 := At(code, ip);
    ip := ip + 1;
    var base := op2 % 8;
    if base == 4 && op2 / 64 % 4 != 3 {
      base := At(code, ip) % 8;
      ip := ip + 1;
    }
    match op2 / 64 % 4 {
      case 0 =>
        if base == 5 {
          if which == Disp32 { return ip; }
          ip := ip + 4;
        }
      case 1 => ip := ip + 1;
      case 2 =>
        if which == Disp32 { return ip; }
        ip := ip + 4;
      case _ =>
    }
    return ip + if which == EndPc then tail else 0;
  }

  /** The form that a decoded instruction comes from. */
  function FormOf(i: Insn): (f: Form) {
    Form(i.pre, i.wide, false, i.esc, i.op, ImmLen(i.pre, i.esc, i.op))
  }

  /** The parser agrees with the decoder on everything that an Address-taking emitter can print, except
      movslq (63), for which it has no row. */
  lemma ParserAgrees(code: seq<nat>, p: nat)
    requires IsEmitter(FormOf(DecodeInsn(code, p)))
    ensures var i := DecodeInsn(code, p);
            var modrm := OpAt(code, p) + 1;
            if i.op == 0x63 then Locate(code, p, EndPc) == None && Locate(code, p, Disp32) == None
            else
              && Locate(code, p, EndPc) == Some(i.next)
              && (DispLen(code, modrm) == 4 ==> Locate(code, p, Disp32) == Some(DispAt(code, modrm)))
  {
    var i := DecodeInsn(code, p);
    forall which: Which ensures Locate(code, p, which) == Expected(code, p, which) {
      if i.pre == 0x66 {
        SizedAgrees(code, p, which);
      } else if i.pre == 0 || i.pre == 0x67 {
        PlainAgrees(code, p, which);
      } else {
        SseAgrees(code, p, which);
      }
    }
  }

  /** The operand that the decoder finds, if the opcode has a row. */
  function Expected(code: seq<nat>, p: nat, which: Which): (r: Option<nat>) {
    var i := DecodeInsn(code, p);
    if i.op == 0x63 then None
    else Some(ParseOperand(code, OpAt(code, p) + 1, which, ImmLen(i.pre, i.esc, i.op)))
  }

  /** The row of the opcode of a form, behind its prefixes. */
  predicate RowFits(esc: bool, op: nat, tail: nat) {
    if esc then EscapeRow(op) == Memory(tail)
    else FirstRow(op) == (if op == 0x63 then NoRow else Memory(tail)) && !IsPrefix(op)
  }

  lemma RowOfEmitter(f: Form)
    requires IsEmitter(f) && f.pre != 0xF2 && f.pre != 0xF3 && !(f.pre == 0x66 && f.op == 0xC7)
    ensures RowFits(f.esc, f.op, f.imm) && (f.esc ==> f.op != 0x63)
  {
  }

  /** The parser behind the prefixes of an instruction. */
  lemma AtOpcode(code: seq<nat>, p: nat, e: nat, esc: bool, tail: nat, which: Which)
    requires SkipPrefixes(code, p) == e && (At(code, e) == 0x0F <==> esc)
    requires RowFits(esc, At(code, e + OneIf(esc)), tail) && (esc ==> At(code, e + 1) != 0x63)
    ensures Locate(code, p, which) ==
            if At(code, e + OneIf(esc)) == 0x63 then None else Some(ParseOperand(code, e + OneIf(esc) + 1, which, tail))
  {
    if esc { assert FirstRow(0x0F) == Escape; }
  }

  lemma PlainAgrees(code: seq<nat>, p: nat, which: Which)
    requires IsEmitter(FormOf(DecodeInsn(code, p))) && DecodeInsn(code, p).pre in {0, 0x67}
    ensures Locate(code, p, which) == Expected(code, p, which)
  {
    var i := DecodeInsn(code, p);
    RowOfEmitter(FormOf(i));
    PrefixesEnd(code, p, RexAt(code, p), EscAt(code, p));
    AtOpcode(code, p, EscAt(code, p), i.esc, FormOf(i).imm, which);
  }

  lemma PrefixesEnd(code: seq<nat>, p: nat, q: nat, e: nat)
    requires q == p || (q == p + 1 && At(code, p) == 0x67)
    requires e == q || (e == q + 1 && IsRex(At(code, q)))
    requires !IsPrefix(At(code, e))
    ensures SkipPrefixes(code, p) == e
  {
    assert SkipPrefixes(code, e) == e;
    assert SkipPrefixes(code, q) == e;
  }

  lemma SseAgrees(code: seq<nat>, p: nat, which: Which)
    requires IsEmitter(FormOf(DecodeInsn(code, p))) && DecodeInsn(code, p).pre in {0xF2, 0xF3}
    ensures Locate(code, p, which) == Expected(code, p, which)
  {
    assert SkipPrefixes(code, p) == p;
    assert FirstRow(0xF2) == Sse && FirstRow(0xF3) == Sse;
  }

  lemma SizedAgrees(code: seq<nat>, p: nat, which: Which)
    requires IsEmitter(FormOf(DecodeInsn(code, p))) && DecodeInsn(code, p).pre == 0x66
    ensures Locate(code, p, which) == Expected(code, p, which)
  {
    var i := DecodeInsn(code, p);
    assert SkipPrefixes(code, p) == p && FirstRow(0x66) == Size;
    assert SkipRex(code, p + 1) == EscAt(code, p);
    if i.esc { RowOfEmitter(FormOf(i)); }
  }

  /** The end of an instruction that was printed last, and its 32-bit displacement, if it has one. */
  predicate Located(code: seq<nat>, p: nat, f: Form, next: Option<nat>, disp: Option<nat>) {
    if f.op == 0x63 then next == None && disp == None
    else
      && next == Some(|code|)
      && (DispLen(code, OpAt(code, p) + 1) == 4 ==> f.imm + 4 <= |code| && disp == Some(|code| - f.imm - 4))
  }

  lemma DispIsBeforeImmediate(code: seq<nat>, p: nat)
    ensures var i := DecodeInsn(code, p);
            var modrm := OpAt(code, p) + 1;
            i.next == DispAt(code, modrm) + DispLen(code, modrm) + FormOf(i).imm
  {
  }

  /** What the emitters of Instructions print is parsed to its end, and a 32-bit displacement is found where
      emit_data put it, right in front of the immediate. */
  lemma EmittedIsParsed(code: seq<nat>, p: nat, f: Form, reg: nat, a: Address, imm: int, rm: Operand)
    requires IsEmitter(f)
    requires DecodeInsn(code, p) ==
             Insn(f.pre, RexFor(f, reg, a) != 0, f.wide, f.esc, f.op, reg, rm, imm, |code|)
    ensures Located(code, p, f, Locate(code, p, EndPc), Locate(code, p, Disp32))
  {
    ParserAgrees(code, p);
    DispIsBeforeImmediate(code, p);
  }

  /** The 32-bit field of a call, a jump or a conditional jump is found behind its opcode, where branches to
      labels have it and where pd_set_call_destination changes it. */
  lemma CallIsLocated(code: seq<nat>, p: nat)
    requires At(code, p) in {0xE8, 0xE9} || (At(code, p) == 0x0F && 0x80 <= At(code, p + 1) < 0x90)
    ensures var field := if At(code, p) == 0x0F then p + 2 else p + 1;
            Locate(code, p, Call32) == Some(field) && Locate(code, p, EndPc) == Some(field + 4)
  {
    assert SkipPrefixes(code, p) == p;
    assert FirstRow(0xE8) == Rel32 && FirstRow(0xE9) == Rel32 && FirstRow(0x0F) == Escape;
  }

  /** movq reg, imm64: a REX prefix with W, B8 + reg and eight bytes. */
  lemma ImmediateIsLocated(code: seq<nat>, p: nat)
    requires At(code, p) / 8 == 9 && 0xB8 <= At(code, p + 1) < 0xC0
    ensures Locate(code, p, Imm64) == Some(p + 2) && Locate(code, p, EndPc) == Some(p + 10)
  {
    assert SkipPrefixes(code, p + 1) == p + 1;
    assert SkipPrefixes(code, p) == p + 1;
    HasRexWAtEnd(code, p, p);
  }

  /** Printing an instruction and parsing it again: the parser comes to its end, and finds a 32-bit
      displacement where emit_data put it, right in front of the immediate. */
  method EmitAndLocate(buf: Assembler, f: Form, reg: nat, a: Address, imm: int)
    returns (next: Option<nat>, disp: Option<nat>)
    requires IsEmitter(f) && reg < 16 && Legal(a) && Fits(imm, f.imm) && IsBytes(buf.code)
    requires IsRipRelative(a) <==> NoRegisters(a)
    requires NoRegisters(a) ==> IsJint(a.target - (buf.origin + |buf.code| + RipLen(f, RexFor(f, reg, a))))
    modifies buf`code
    ensures |old(buf.code)| < |buf.code| && buf.code[..|old(buf.code)|] == old(buf.code)
    ensures Located(buf.code, |old(buf.code)|, f, next, disp)
  {
    var inst := |buf.code|;
    EmitInsn(buf, f, reg, a, imm);
    EmittedIsParsed(buf.code, inst, f, reg, a, SignExtended(imm, f.imm), Meaning(a, buf.origin + |buf.code|));
    next := LocateOperand(buf.code, inst, EndPc);
    disp := LocateOperand(buf.code, inst, Disp32);
  }
}
