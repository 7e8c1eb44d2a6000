/**
 The instruction codec (rosette/src/Code.cc, rosette/h/Opcode.h).

 `Encode` gives the words that CodeBuf's emitF0 .. emitF7 and emitE0 .. emitE2 deposit, and
 `Decode` reads them back, choosing the format from the opcode byte as CodeVec::dumpInstr and
 the virtual machine's dispatch switch do.  Both are in closed form; module Fields relates
 them to the field macros.
 */
module Codec {
  import opened Bits
  import opened Wrappers

  // Opcode values (enum Opcode).
  const OP_HALT: nat := 0x00
  const OP_ALLOC: nat := 0x04
  const OP_OUTSTANDING: nat := 0x08
  const OP_XMIT_TAG: nat := 0x10
  const OP_XMIT: nat := 0x1c
  const OP_XMIT_TAG_XTND: nat := 0x20
  const OP_SEND: nat := 0x2c
  const OP_APPLY_PRIM_TAG: nat := 0x30
  const OP_APPLY_PRIM_ARG: nat := 0x34
  const OP_APPLY_PRIM_REG: nat := 0x38
  const OP_APPLY_CMD: nat := 0x3c
  const OP_RTN_TAG: nat := 0x40
  const OP_RTN_ARG: nat := 0x44
  const OP_RTN_REG: nat := 0x48
  const OP_RTN: nat := 0x4c
  const OP_UPCALL_RTN: nat := 0x50
  const OP_NXT: nat := 0x55
  const OP_JMP: nat := 0x60
  const OP_JMP_FALSE: nat := 0x64
  const OP_JMP_CUT: nat := 0x68
  const OP_LOOKUP_TO_ARG: nat := 0x70
  const OP_LOOKUP_TO_REG: nat := 0x80
  const OP_XFER_LEX_TO_ARG: nat := 0x90
  const OP_XFER_LEX_TO_REG: nat := 0xa0
  const OP_XFER_GLOBAL_TO_ARG: nat := 0xb0
  const OP_XFER_GLOBAL_TO_REG: nat := 0xb1
  const OP_XFER_ARG_TO_ARG: nat := 0xb2
  const OP_XFER_RSLT_TO_ARG: nat := 0xb4
  const OP_XFER_ARG_TO_RSLT: nat := 0xb5
  const OP_XFER_RSLT_TO_REG: nat := 0xb6
  const OP_XFER_REG_TO_RSLT: nat := 0xb7
  const OP_XFER_RSLT_TO_DEST: nat := 0xb8
  const OP_XFER_SRC_TO_RSLT: nat := 0xb9
  const OP_IND_LIT_TO_ARG: nat := 0xba
  const OP_IND_LIT_TO_REG: nat := 0xbb
  const OP_IND_LIT_TO_RSLT: nat := 0xbc
  const OP_IMMEDIATE_LIT_TO_ARG: nat := 0xc0
  const OP_IMMEDIATE_LIT_TO_REG: nat := 0xd0

  datatype Ext = NoExt | E0(a: nat, b: nat) | E1(g: nat) | E2(k: nat, b: nat)

  datatype Instr =
    | F0(op: nat, x: nat, ext: Ext)
    | F1(op: nat, a: nat, b: nat)
    | F2(op: nat, a: nat, b: nat)
    | F4(op: nat, unwind: bool, next: bool, m: nat, x: nat)
    | F5(op: nat, unwind: bool, next: bool, x: nat, ext: Ext)
    | F6(op: nat, pc: nat, ext: Ext)
    | F7(op: nat, ind: bool, level: nat, off: nat, x: nat)

  datatype Kind = KNone | K0 | K1 | K2
  datatype Format = Fmt0(k: Kind) | Fmt1 | Fmt2 | Fmt4 | Fmt5(k: Kind) | Fmt6(k: Kind) | Fmt7 | Illegal

  function Bit(b: bool): nat { if b then 1 else 0 }

  // The cases of the dispatch switch, grouped by instruction format.
  function FormatOf(byte: nat): Format {
    if byte <= 0x06 then Fmt0(KNone)
    else if 0x08 <= byte <= 0x0b then Fmt6(K0)
    else if 0x0c <= byte <= 0x0f then Fmt6(KNone)
    else if 0x10 <= byte <= 0x1b then Fmt4
    else if 0x1c <= byte <= 0x1f then Fmt5(KNone)
    else if 0x20 <= byte <= 0x2b then Fmt5(K0)
    else if 0x2c <= byte <= 0x2f then Fmt5(KNone)
    else if 0x30 <= byte <= 0x3f then Fmt5(K2)
    else if 0x40 <= byte <= 0x51 && byte % 4 < 2 then Fmt5(KNone)
    else if 0x54 <= byte <= 0x55 then Fmt0(KNone)
    else if 0x60 <= byte <= 0x67 then Fmt6(KNone)
    else if 0x68 <= byte <= 0x6b then Fmt6(K0)
    else if 0x70 <= byte <= 0x8f then Fmt2
    else if 0x90 <= byte <= 0xaf then Fmt7
    else if 0xb0 <= byte <= 0xb1 then Fmt0(K1)
    else if byte == 0xb2 then Fmt1
    else if 0xb4 <= byte <= 0xb9 then Fmt0(KNone)
    else if 0xba <= byte <= 0xbb then Fmt1
    else if byte == 0xbc then Fmt0(KNone)
    else if 0xc0 <= byte <= 0xcb || 0xd0 <= byte <= 0xdb then Fmt2
    else Illegal
  }

  function KindOf(e: Ext): Kind {
    match e case NoExt => KNone case E0(_, _) => K0 case E1(_) => K1 case E2(_, _) => K2
  }

  ghost predicate LegalExt(e: Ext) {
    match e
    case NoExt => true
    case E0(a, b) => a < 256 && b < 256
    case E1(g) => g < WORD
    case E2(k, b) => k < WORD && b < 256
  }

  // The opcode byte of an encoded instruction.
  function Byte(i: Instr): nat {
    match i
    case F0(op, _, _) => op
    case F1(op, _, _) => op
    case F2(op, a, _) => op + a
    case F4(op, u, n, _, _) => op + 2 * Bit(u) + Bit(n)
    case F5(op, u, n, _, _) => op + 2 * Bit(u) + Bit(n)
    case F6(op, pc, _) => op + pc / 256
    case F7(op, ind, l, _, _) => op + 8 * Bit(ind) + l
  }

  function FormatFor(i: Instr): Format {
    match i
    case F0(_, _, e) => Fmt0(KindOf(e))
    case F1(_, _, _) => Fmt1
    case F2(_, _, _) => Fmt2
    case F4(_, _, _, _, _) => Fmt4
    case F5(_, _, _, _, e) => Fmt5(KindOf(e))
    case F6(_, _, e) => Fmt6(KindOf(e))
    case F7(_, _, _, _, _) => Fmt7
  }

  // Every operand fits its field.
  ghost predicate InRange(i: Instr) {
    && i.op < 256
    && LegalExt(ExtOf(i))
    && match i
       case F0(_, x, _) => x < 256
       case F1(_, a, b) => a < 16 && b < 16
       case F2(op, a, b) => op % 16 == 0 && a < 16 && b < 256
       case F4(op, _, _, m, x) => op % 4 == 0 && m < 16 && x < 16
       case F5(op, _, _, x, _) => op % 4 == 0 && x < 256
       case F6(op, pc, _) => op % 4 == 0 && pc < 1024
       case F7(op, _, l, o, x) => op % 16 == 0 && l < 8 && o < 16 && x < 16
  }

  // The opcode byte selects this very format.
  ghost predicate Legal(i: Instr) {
    InRange(i) && FormatOf(Byte(i)) == FormatFor(i)
  }

  // The first word of the instruction (module Fields relates it to the SET_OP_* macros).
  function Head(i: Instr): nat {
    match i
    case F0(op, x, _) => 256 * op + x
    case F1(op, a, b) => 256 * op + 16 * a + b
    case F2(op, a, b) => 256 * (op + a) + b
    case F4(op, u, n, m, x) => 256 * (op + 2 * Bit(u) + Bit(n)) + 16 * m + x
    case F5(op, u, n, x, _) => 256 * (op + 2 * Bit(u) + Bit(n)) + x
    case F6(op, pc, _) => 256 * op + pc
    case F7(op, ind, l, o, x) => 256 * (op + 8 * Bit(ind) + l) + 16 * o + x
  }

  function ExtOf(i: Instr): Ext {
    match i
    case F0(_, _, e) => e
    case F5(_, _, _, _, e) => e
    case F6(_, _, e) => e
    case _ => NoExt
  }

  // The extension words; emitE2 escapes primitive numbers from 255 on.
  function ExtWords(e: Ext): seq<nat> {
    match e
    case NoExt => []
    case E0(a, b) => [256 * a + b]
    case E1(g) => [g]
    case E2(k, b) => if k >= 255 then [256 * 255 + b, k] else [256 * k + b]
  }

  function Encode(i: Instr): (ws: seq<nat>)
    ensures 1 <= |ws| <= 3
  {
    [Head(i)] + ExtWords(ExtOf(i))
  }

  function EncodeAll(code: seq<Instr>): seq<nat> {
    if code == [] then [] else Encode(code[0]) + EncodeAll(code[1..])
  }

  // The extension words that the decoder fetches after the first word.
  function DecodeExt(ws: seq<nat>, pc: nat, k: Kind): Option<(Ext, nat)> {
    if k == KNone then Some((NoExt, 0))
    else if pc >= |ws| then None
    else
      var w := ws[pc];
      if k == K0 then Some((E0(w / 256, w % 256), 1))
      else if k == K1 then Some((E1(w), 1))
      else if w / 256 != 255 then Some((E2(w / 256, w % 256), 1))
      else if pc + 1 >= |ws| then None
      else Some((E2(ws[pc + 1], w % 256), 2))
  }

  function KindIn(f: Format): Kind {
    match f case Fmt0(k) => k case Fmt5(k) => k case Fmt6(k) => k case _ => KNone
  }

  // The instruction of format f whose first word is w and whose extension is e.
  function Assemble(f: Format, w: nat, e: Ext): Option<Instr> {
    var byte := w / 256;
    match f
    case Fmt0(_) => Some(F0(byte, w % 256, e))
    case Fmt1 => Some(F1(byte, w / 16 % 16, w % 16))
    case Fmt2 => Some(F2(byte / 16 * 16, byte % 16, w % 256))
    case Fmt4 => Some(F4(byte / 4 * 4, byte / 2 % 2 == 1, byte % 2 == 1, w / 16 % 16, w % 16))
    case Fmt5(_) => Some(F5(byte / 4 * 4, byte / 2 % 2 == 1, byte % 2 == 1, w % 256, e))
    case Fmt6(_) => Some(F6(byte / 4 * 4, w % 1024, e))
    case Fmt7 => Some(F7(byte / 16 * 16, byte / 8 % 2 == 1, byte % 8, w / 16 % 16, w % 16))
    case Illegal => None
  }

  // The instruction at word address pc, and the number of words it occupies.
  function Decode(ws: seq<nat>, pc: nat): (r: Option<(Instr, nat)>)
    ensures r.Some? ==> 1 <= r.value.1 && pc < |ws|
  {
    if pc >= |ws| then None else
    var f := FormatOf(ws[pc] / 256);
    var e := DecodeExt(ws, pc + 1, KindIn(f));
    if e.None? then None else
    var i := Assemble(f, ws[pc], e.value.0);
    if i.None? then None else Some((i.value, 1 + e.value.1))
  }

  lemma ExtRoundTrip(ws: seq<nat>, pc: nat, e: Ext)
    requires LegalExt(e) && pc + |ExtWords(e)| <= |ws| && ws[pc..pc + |ExtWords(e)|] == ExtWords(e)
    ensures DecodeExt(ws, pc, KindOf(e)) == Some((e, |ExtWords(e)|))
  {
    assert forall j :: 0 <= j < |ExtWords(e)| ==> ws[pc + j] == ExtWords(e)[j];
    if e.E2? && e.k >= 255 {
      assert ws[pc + 1] == ExtWords(e)[1];
    }
  }

  lemma HeadByte(i: Instr)
    requires InRange(i)
    ensures Head(i) / 256 == Byte(i)
  {
  }

  lemma Nibbles(byte: nat, a: nat, b: nat)
    requires a < 16 && b < 16
    ensures (256 * byte + 16 * a + b) / 16 % 16 == a && (256 * byte + 16 * a + b) % 16 == b
  {
  }

  lemma Flags(op: nat, u: nat, n: nat)
    requires op % 4 == 0 && u < 2 && n < 2
    ensures (op + 2 * u + n) / 4 * 4 == op
    ensures (op + 2 * u + n) / 2 % 2 == u && (op + 2 * u + n) % 2 == n
  {
  }

  lemma Levels(op: nat, ind: nat, l: nat)
    requires op % 16 == 0 && ind < 2 && l < 8
    ensures (op + 8 * ind + l) / 16 * 16 == op
    ensures (op + 8 * ind + l) / 8 % 2 == ind && (op + 8 * ind + l) % 8 == l
  {
  }

  lemma Address(op: nat, pc: nat)
    requires op % 4 == 0 && pc < 1024
    ensures (op + pc / 256) / 4 * 4 == op && (256 * op + pc) % 1024 == pc
  {
    assert 256 * op == 1024 * (op / 4);
  }

  lemma HeadRoundTrip(i: Instr)
    requires InRange(i)
    ensures Assemble(FormatFor(i), Head(i), ExtOf(i)) == Some(i)
  {
    HeadByte(i);
    match i
    case F0(_, _, _) =>
    case F1(op, a, b) => Nibbles(op, a, b);
    case F2(op, a, b) => Levels(op, a / 8, a % 8);
    case F4(op, u, n, m, x) =>
      Flags(op, Bit(u), Bit(n));
      Nibbles(Byte(i), m, x);
    case F5(op, u, n, x, _) => Flags(op, Bit(u), Bit(n));
    case F6(op, pc, _) => Address(op, pc);
    case F7(op, ind, l, o, x) =>
      Levels(op, Bit(ind), l);
      Nibbles(Byte(i), o, x);
  }

  // An instruction deposited at pc is the one the decoder finds there.
  lemma RoundTrip(ws: seq<nat>, pc: nat, i: Instr)
    requires Legal(i) && pc + |Encode(i)| <= |ws| && ws[pc..pc + |Encode(i)|] == Encode(i)
    ensures Decode(ws, pc) == Some((i, |Encode(i)|))
  {
    assert ws[pc] == ws[pc..pc + |Encode(i)|][0] == Head(i);
    var e := ExtOf(i);
    assert ws[pc + 1..pc + 1 + |ExtWords(e)|] == ws[pc..pc + |Encode(i)|][1..] == ExtWords(e);
    assert LegalExt(e);
    ExtRoundTrip(ws, pc + 1, e);
    HeadByte(i);
    HeadRoundTrip(i);
  }

  // Walking the deposited words, as CodeVec::dumpOn does.
  function DecodeAll(ws: seq<nat>, pc: nat): Option<seq<(nat, Instr)>>
    requires pc <= |ws|
    decreases |ws| - pc
  {
    if pc == |ws| then Some([]) else
    var d := Decode(ws, pc);
    if d.None? || pc + d.value.1 > |ws| then None else
    var rest := DecodeAll(ws, pc + d.value.1);
    if rest.None? then None else Some([(pc, d.value.0)] + rest.value)
  }

  // The instructions of `code` with the addresses at which they start.
  function WithAddresses(code: seq<Instr>, pc: nat): seq<(nat, Instr)> {
    if code == [] then [] else [(pc, code[0])] + WithAddresses(code[1..], pc + |Encode(code[0])|)
  }

  lemma SplitAt<T>(ws: seq<T>, pc: nat, a: seq<T>, b: seq<T>)
    requires pc <= |ws| && ws[pc..] == a + b
    ensures pc + |a| <= |ws| && ws[pc..pc + |a|] == a && ws[pc + |a|..] == b
  {
    assert ws[pc..pc + |a|] == ws[pc..][..|a|];
    assert ws[pc + |a|..] == ws[pc..][|a|..];
  }

  ghost predicate AllLegal(code: seq<Instr>) {
    code == [] || (Legal(code[0]) && AllLegal(code[1..]))
  }

  lemma WalkStep(ws: seq<nat>, pc: nat, i: Instr, n: nat, rest: seq<(nat, Instr)>)
    requires n >= 1 && Decode(ws, pc) == Some((i, n)) && pc + n <= |ws|
    requires DecodeAll(ws, pc + n) == Some(rest)
    ensures DecodeAll(ws, pc) == Some([(pc, i)] + rest)
  {
  }

  // The decoder recovers every instruction and every boundary of a legal stream.
  lemma {:induction false} StreamRoundTrip(ws: seq<nat>, pc: nat, code: seq<Instr>)
    requires AllLegal(code)
    requires pc <= |ws| && ws[pc..] == EncodeAll(code)
    ensures DecodeAll(ws, pc) == Some(WithAddresses(code, pc))
    decreases |code|
  {
    if code != [] {
      var i, rest := code[0], code[1..];
      var n := |Encode(i)|;
      assert n >= 1 && EncodeAll(code) == Encode(i) + EncodeAll(rest);
      hide Encode, Decode, DecodeAll, EncodeAll, Legal;
      SplitAt(ws, pc, Encode(i), EncodeAll(rest));
      RoundTrip(ws, pc, i);
      StreamRoundTrip(ws, pc + n, rest);
      WalkStep(ws, pc, i, n, WithAddresses(rest, pc + n));
    }
  }
}
