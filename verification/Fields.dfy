/**
 Instruction words, written field by field (rosette/h/Opcode.h:200-290, rosette/src/Code.cc:90-194).

 The emit functions start from a zero word and set one field after the other; a field may lie
 inside another one that was set before.  For operands that fit their fields the outcome is
 the closed form of module Codec, and the accessors read the fields back.
 */
module Fields {
  import opened Bits
  import opened Codec
  import opened Wrappers

  // CodeBuf::emitF0 .. emitF7
  function Written(i: Instr): nat {
    var w := SetField(0, 8, 8, i.op);
    match i
    case F0(_, x, _) => SetField(w, 0, 8, x)
    case F1(_, a, b) => SetField(SetField(w, 4, 4, a), 0, 4, b)
    case F2(_, a, b) => SetField(SetField(w, 8, 4, a), 0, 8, b)
    case F4(_, u, n, m, x) =>
      SetField(SetField(SetField(SetField(w, 9, 1, Bit(u)), 8, 1, Bit(n)), 4, 4, m), 0, 4, x)
    case F5(_, u, n, x, _) => SetField(SetField(SetField(w, 9, 1, Bit(u)), 8, 1, Bit(n)), 0, 8, x)
    case F6(_, pc, _) => SetField(w, 0, 10, pc)
    case F7(_, ind, l, o, x) =>
      SetField(SetField(SetField(SetField(w, 11, 1, Bit(ind)), 8, 3, l), 4, 4, o), 0, 4, x)
  }

  function Pair(a: nat, b: nat): nat {
    SetField(SetField(0, 8, 8, a), 0, 8, b)
  }

  // CodeBuf::emitE0 .. emitE2
  function WrittenExt(e: Ext): seq<nat> {
    match e
    case NoExt => []
    case E0(a, b) => [Pair(a, b)]
    case E1(g) => [SetField(0, 0, 16, g)]
    case E2(k, b) => if k >= 255 then [Pair(255, b), SetField(0, 0, 16, k)] else [Pair(k, b)]
  }

  lemma OpIs(op: nat)
    requires op < 256
    ensures SetField(0, 8, 8, op) == 256 * op
  {
    hide SetField;
    Set(0, 8, 8, op, 256, 256);
  }

  lemma Low8(w: nat, x: nat)
    requires w < WORD && x < 256
    ensures SetField(w, 0, 8, x) == w / 256 * 256 + x
  {
    hide SetField;
    Set(w, 0, 8, x, 1, 256);
  }

  lemma Low10(op: nat, pc: nat)
    requires op < 256 && op % 4 == 0 && pc < 1024
    ensures SetField(256 * op, 0, 10, pc) == 256 * op + pc
  {
    hide SetField;
    assert 256 * op == 1024 * (op / 4);
    Set(256 * op, 0, 10, pc, 1, 1024);
  }

  lemma Low4(w: nat, x: nat)
    requires w < WORD && x < 16
    ensures SetField(w, 0, 4, x) == w / 16 * 16 + x
  {
    hide SetField;
    Set(w, 0, 4, x, 1, 16);
  }

  lemma Middle4(w: nat, x: nat)
    requires w < WORD && w % 256 == 0 && x < 16
    ensures SetField(w, 4, 4, x) == w + 16 * x
  {
    hide SetField;
    Set(w, 4, 4, x, 16, 16);
  }

  lemma PairIs(a: nat, b: nat)
    requires a < 256 && b < 256
    ensures Pair(a, b) == 256 * a + b
  {
    hide SetField;
    OpIs(a);
    Low8(256 * a, b);
  }

  // Fields that lie inside the opcode byte, which is clear there.
  lemma Unwind(op: nat, u: nat)
    requires op < 256 && op % 4 == 0 && u < 2
    ensures SetField(256 * op, 9, 1, u) == 256 * (op + 2 * u)
  {
    hide SetField;
    assert 256 * op == 512 * 2 * (op / 4);
    Set(256 * op, 9, 1, u, 512, 2);
  }

  lemma Next(b: nat, n: nat)
    requires b < 256 && b % 2 == 0 && n < 2
    ensures SetField(256 * b, 8, 1, n) == 256 * (b + n)
  {
    hide SetField;
    Set(256 * b, 8, 1, n, 256, 2);
  }

  lemma Indirect(op: nat, i: nat)
    requires op < 256 && op % 16 == 0 && i < 2
    ensures SetField(256 * op, 11, 1, i) == 256 * (op + 8 * i)
  {
    hide SetField;
    assert 256 * op == 2048 * 2 * (op / 16);
    Set(256 * op, 11, 1, i, 2048, 2);
  }

  lemma Level(b: nat, l: nat)
    requires b < 256 && b % 8 == 0 && l < 8
    ensures SetField(256 * b, 8, 3, l) == 256 * (b + l)
  {
    hide SetField;
    Set(256 * b, 8, 3, l, 256, 8);
  }

  lemma Short(op: nat, a: nat)
    requires op < 256 && op % 16 == 0 && a < 16
    ensures SetField(256 * op, 8, 4, a) == 256 * (op + a)
  {
    hide SetField;
    Set(256 * op, 8, 4, a, 256, 16);
  }

  lemma Nibbles(b: nat, m: nat, x: nat)
    requires b < 256 && m < 16 && x < 16
    ensures SetField(SetField(256 * b, 4, 4, m), 0, 4, x) == 256 * b + 16 * m + x
  {
    hide SetField;
    Middle4(256 * b, m);
    Low4(256 * b + 16 * m, x);
  }

  lemma Flags(op: nat, u: bool, n: bool)
    requires op < 256 && op % 4 == 0
    ensures SetField(SetField(256 * op, 9, 1, Bit(u)), 8, 1, Bit(n)) == 256 * (op + 2 * Bit(u) + Bit(n))
  {
    hide SetField;
    Unwind(op, Bit(u));
    Next(op + 2 * Bit(u), Bit(n));
  }

  lemma Levels(op: nat, ind: bool, l: nat)
    requires op < 256 && op % 16 == 0 && l < 8
    ensures SetField(SetField(256 * op, 11, 1, Bit(ind)), 8, 3, l) == 256 * (op + 8 * Bit(ind) + l)
  {
    hide SetField;
    Indirect(op, Bit(ind));
    Level(op + 8 * Bit(ind), l);
  }

  // Writing the fields one after the other adds them up: no operand disturbs another.
  lemma HeadWritten(i: Instr)
    requires InRange(i)
    ensures Written(i) == Head(i)
  {
    hide SetField, LegalExt;
    OpIs(i.op);
    match i
    case F0(op, x, _) => Low8(256 * op, x);
    case F1(op, a, b) => Nibbles(op, a, b);
    case F2(op, a, b) =>
      Short(op, a);
      Low8(256 * (op + a), b);
    case F4(op, u, n, m, x) =>
      Flags(op, u, n);
      Nibbles(op + 2 * Bit(u) + Bit(n), m, x);
    case F5(op, u, n, x, _) =>
      Flags(op, u, n);
      Low8(256 * (op + 2 * Bit(u) + Bit(n)), x);
    case F6(op, pc, _) => Low10(op, pc);
    case F7(op, ind, l, o, x) =>
      Levels(op, ind, l);
      Nibbles(op + 8 * Bit(ind) + l, o, x);
  }

  lemma ExtWritten(e: Ext)
    requires LegalExt(e)
    ensures WrittenExt(e) == ExtWords(e)
  {
    hide SetField, Pair;
    match e
    case NoExt =>
    case E0(a, b) => PairIs(a, b);
    case E1(g) => Set(0, 0, 16, g, 1, 65536);
    case E2(k, b) =>
      PairIs(if k >= 255 then 255 else k, b);
      Set(0, 0, 16, k, 1, 65536);
  }

  // The words deposited for an instruction whose operands fit.
  lemma EncodeWritten(i: Instr)
    ensures InRange(i) ==> [Written(i)] + WrittenExt(ExtOf(i)) == Encode(i)
  {
    if InRange(i) {
      HeadWritten(i);
      ExtWritten(ExtOf(i));
      hide Written, WrittenExt, InRange, Head, ExtWords;
    }
  }

  // What the accessors OP_f* and OP_e* read from a word.
  lemma Accessors(w: nat)
    requires w < WORD
    ensures GetField(w, 8, 8) == w / 256 && GetField(w, 0, 8) == w % 256 && GetField(w, 0, 10) == w % 1024
    ensures GetField(w, 4, 4) == w / 16 % 16 && GetField(w, 0, 4) == w % 16 && GetField(w, 0, 16) == w
  {
    hide GetField;
    Get(w, 8, 8, 256, 256);
    Get(w, 0, 8, 1, 256);
    Get(w, 0, 10, 1, 1024);
    Get(w, 4, 4, 16, 16);
    Get(w, 0, 4, 1, 16);
    Get(w, 0, 16, 1, 65536);
  }

  lemma NarrowAccessors(w: nat)
    requires w < WORD
    ensures GetField(w, 8, 4) == w / 256 % 16 && GetField(w, 8, 3) == w / 256 % 8 && GetField(w, 8, 1) == w / 256 % 2
    ensures GetField(w, 9, 1) == w / 256 / 2 % 2 && GetField(w, 11, 1) == w / 256 / 8 % 2
  {
    hide GetField;
    Get(w, 8, 4, 256, 16);
    Get(w, 8, 3, 256, 8);
    Get(w, 8, 1, 256, 2);
    Get(w, 9, 1, 512, 2);
    Get(w, 11, 1, 2048, 2);
  }
}
