/**
 The mutable parts of a compilation (rosette/src/Code.cc:56-199, rosette/src/Labels.cc:45-192,
 rosette/src/Compile.cc:2392-2531): the code buffer, the label table and the compilation unit.

 The vectors grow in place.  Each operation is proved against the corresponding function of
 module Compile.
 */
module Assembler {
  import opened Bits
  import opened Codec
  import opened Wrappers
  import opened Fields
  import opened Vm
  import opened Compile

  const DEFAULT_CODE_VEC_SIZE: nat := 32
  const DEFAULT_LABEL_TABLE_SIZE: nat := 32

  class CodeBuf {
    var codevec: array?<nat>
    var pc: nat
    ghost var Repr: set<object>

    ghost predicate Valid()
      reads this, Repr
    {
      && this in Repr
      && (codevec == null ==> pc == 0)
      && (codevec != null ==> codevec in Repr && pc <= codevec.Length)
    }

    ghost function Words(): seq<nat>
      reads this, Repr
      requires Valid()
    {
      if codevec == null then [] else codevec[..pc]
    }

    constructor ()
      ensures Valid() && Words() == [] && fresh(Repr)
    {
      codevec, pc := null, 0;
      Repr := {this};
    }

    method Deposit(w: nat)
      requires Valid()
      modifies Repr
      ensures Valid() && fresh(Repr - old(Repr)) && Words() == old(Words()) + [w]
    {
      if codevec == null || codevec.Length <= pc {
        GrowCodevec(DEFAULT_CODE_VEC_SIZE);
      }
      codevec[pc] := w;
      pc := pc + 1;
    }

    method GrowCodevec(sz: nat)
      requires Valid() && sz > 0
      modifies this
      ensures Valid() && fresh(Repr - old(Repr)) && pc == old(pc) && Words() == old(Words())
      ensures codevec != null && codevec.Length > pc
    {
      var v := new nat[if codevec == null then sz else codevec.Length + sz];
      if codevec != null {
        forall i | 0 <= i < pc {
          v[i] := codevec[i];
        }
      }
      codevec := v;
      Repr := Repr + {v};
    }

    // emitF0 .. emitF7 followed by emitE0 .. emitE2
    method Emit(i: Instr)
      requires Valid()
      modifies Repr
      ensures Valid() && fresh(Repr - old(Repr)) && Words() == old(Words()) + [Written(i)] + WrittenExt(ExtOf(i))
      ensures InRange(i) ==> Words() == old(Words()) + Encode(i)
    {
      EncodeWritten(i);
      hide Written, WrittenExt, InRange, Encode;
      ghost var before := Words();
      Deposit(Written(i));
      EmitExt(ExtOf(i));
      assert before + [Written(i)] + WrittenExt(ExtOf(i)) == before + ([Written(i)] + WrittenExt(ExtOf(i)));
    }

    method EmitExt(e: Ext)
      requires Valid()
      modifies Repr
      ensures Valid() && fresh(Repr - old(Repr)) && Words() == old(Words()) + WrittenExt(e)
    {
      hide SetField, Pair;
      match e
      case NoExt =>
      case E0(a, b) => Deposit(Pair(a, b));
      case E1(g) => Deposit(SetField(0, 0, 16, g));
      case E2(k, b) =>
        Deposit(Pair(if k >= 255 then 255 else k, b));
        if k >= 255 {
          Deposit(SetField(0, 0, 16, k));
        }
    }

    method PatchAddress(a: nat, addr: nat)
      requires Valid() && a < |Words()|
      modifies Repr
      ensures Valid() && Repr == old(Repr) && Words() == old(Words())[a := Patched(old(Words())[a], addr)]
    {
      hide Patched;
      codevec[a] := Patched(codevec[a], addr);
    }
  }

  class LabelTable {
    var nextLabel: nat
    var labelValues: array<nat>
    var fixupValues: array<(nat, nat)>
    var count: nat
    ghost var Repr: set<object>

    ghost predicate Valid()
      reads this, Repr
    {
      && {this, labelValues, fixupValues} <= Repr
      && nextLabel <= labelValues.Length && count <= fixupValues.Length
      && labelValues.Length > 0 && fixupValues.Length > 0
      && (forall l :: nextLabel <= l < labelValues.Length ==> labelValues[l] == 0)
    }

    ghost function Values(): seq<nat>
      reads this, Repr
      requires Valid()
    {
      labelValues[..nextLabel]
    }

    ghost function Fixups(): seq<(nat, nat)>
      reads this, Repr
      requires Valid()
    {
      fixupValues[..count]
    }

    constructor ()
      ensures Valid() && Values() == [] && Fixups() == [] && fresh(Repr)
    {
      nextLabel, count := 0, 0;
      labelValues := new nat[DEFAULT_LABEL_TABLE_SIZE](_ => 0);
      fixupValues := new (nat, nat)[DEFAULT_LABEL_TABLE_SIZE];
      new;
      Repr := {this, labelValues, fixupValues};
    }

    method NewLabel() returns (l: nat)
      requires Valid()
      modifies this
      ensures Valid() && fresh(Repr - old(Repr)) && l == |old(Values())|
      ensures Values() == old(Values()) + [0] && Fixups() == old(Fixups())
    {
      l := nextLabel;
      if l >= labelValues.Length {
        var n := labelValues.Length;
        var v := new nat[2 * n](_ => 0);
        forall i | 0 <= i < n {
          v[i] := labelValues[i];
        }
        labelValues := v;
        Repr := Repr + {v};
      }
      nextLabel := nextLabel + 1;
    }

    method AddFixup(loc: nat, l: nat)
      requires Valid()
      modifies Repr
      ensures Valid() && fresh(Repr - old(Repr))
      ensures Values() == old(Values()) && Fixups() == old(Fixups()) + [(loc, l)]
    {
      if count >= fixupValues.Length {
        var n := fixupValues.Length;
        var v := new (nat, nat)[2 * n];
        forall i | 0 <= i < n {
          v[i] := fixupValues[i];
        }
        fixupValues := v;
        Repr := Repr + {v};
      }
      fixupValues[count] := (loc, l);
      count := count + 1;
    }

    // Label values are 16 bits wide.
    method BindLabel(l: nat, loc: nat)
      requires Valid() && l < |Values()|
      modifies Repr
      ensures Valid() && Repr == old(Repr)
      ensures Values() == old(Values())[l := loc % WORD] && Fixups() == old(Fixups())
    {
      labelValues[l] := loc % WORD;
    }

    // Every registered word gets its label's address, in the order of registration.
    method ResolveLabels(cb: CodeBuf)
      requires Valid() && cb.Valid() && Repr !! cb.Repr
      requires forall i :: 0 <= i < |Fixups()| ==>
                 Fixups()[i].0 < |cb.Words()| && Fixups()[i].1 < |Values()| && Values()[Fixups()[i].1] != 0
      modifies cb.Repr
      ensures Valid() && cb.Valid() && cb.Repr == old(cb.Repr)
      ensures cb.Words() == Resolved(old(cb.Words()), old(Fixups()), old(Values()))
      ensures Values() == old(Values()) && Fixups() == old(Fixups())
    {
      ghost var words, fixups, values := cb.Words(), Fixups(), Values();
      hide Patched;
      for i := 0 to count
        invariant Valid() && cb.Valid() && cb.Repr == old(cb.Repr) && Fixups() == fixups && Values() == values
        invariant |cb.Words()| == |words| && i <= |fixups|
        invariant Resolved(cb.Words(), fixups[i..], values) == Resolved(words, fixups, values)
      {
        var (loc, l) := fixupValues[i];
        assert fixups[i] == (loc, l) && fixups[i..][1..] == fixups[i + 1..];
        cb.PatchAddress(loc, labelValues[l]);
      }
      assert fixups[count..] == [];
    }
  }

  class CompilationUnit {
    const codebuf: CodeBuf
    const labels: LabelTable
    var litvec: seq<Val>
    var aborted: bool

    ghost predicate Valid()
      reads this, codebuf, labels, codebuf.Repr, labels.Repr
    {
      && codebuf.Valid() && labels.Valid() && codebuf.Repr !! labels.Repr
      && this !in codebuf.Repr && this !in labels.Repr && |litvec| <= MAXIMUM_LITVEC_SIZE + 1
    }

    ghost function View(): Unit
      reads this, codebuf, labels, codebuf.Repr, labels.Repr
      requires Valid()
    {
      Unit(codebuf.Words(), litvec, labels.Values(), labels.Fixups(), aborted)
    }

    // New storage is disjoint from everything that was there before.
    twostate predicate Grown()
      reads codebuf, labels
    {
      fresh(codebuf.Repr - old(codebuf.Repr)) && fresh(labels.Repr - old(labels.Repr))
    }

    constructor (source: Val)
      ensures Valid() && View() == Unit([], [source], [], [], false)
      ensures fresh(codebuf.Repr) && fresh(labels.Repr)
    {
      codebuf := new CodeBuf();
      labels := new LabelTable();
      litvec := [source];
      aborted := false;
    }

    method Emit(i: Instr)
      requires Valid() && InRange(i)
      modifies codebuf.Repr
      ensures Valid() && Grown() && View() == Deposit(old(View()), i)
    {
      hide InRange, Encode;
      codebuf.Emit(i);
    }

    method NewLabel() returns (l: nat)
      requires Valid()
      modifies labels.Repr
      ensures Valid() && Grown() && l == |old(View()).labels| && View() == Compile.NewLabel(old(View()))
    {
      l := labels.NewLabel();
    }

    method SetLabel(l: nat)
      requires Valid() && l < |View().labels| && |View().code| < WORD
      modifies labels.Repr
      ensures Valid() && Grown() && View() == Compile.SetLabel(old(View()), l)
    {
      labels.BindLabel(l, codebuf.pc);
    }

    // emitOpAndLabel
    method EmitOpAndLabel(op: nat, l: nat)
      requires Valid() && op < 256 && op % 4 == 0
      modifies codebuf.Repr, labels.Repr
      ensures Valid() && Grown() && View() == Jump(old(View()), op, l)
    {
      labels.AddFixup(codebuf.pc, l);
      codebuf.Emit(F6(op, 0, NoExt));
    }

    // extendLitvec: an equal literal is used again; the search runs from the end.
    method ExtendLitvec(v: Val) returns (off: nat)
      requires Valid()
      modifies this
      ensures Valid() && Grown() && View() == Extend(old(View()), v)
      ensures off == Offset(old(View()), v) <= MAXIMUM_LITVEC_SIZE
    {
      var i := |litvec|;
      while i > 0
        invariant 0 <= i <= |litvec| && Find(litvec, v, |litvec|) == Find(litvec, v, i)
      {
        i := i - 1;
        if litvec[i] == v {
          return i;
        }
      }
      if |litvec| > MAXIMUM_LITVEC_SIZE {
        aborted := true;
        return 0;
      }
      off := |litvec|;
      litvec := litvec + [v];
    }

    method Finish() returns (p: Program)
      requires Valid()
      requires forall i :: 0 <= i < |View().fixups| ==>
                 && View().fixups[i].0 < |View().code| && View().fixups[i].1 < |View().labels|
                 && View().labels[View().fixups[i].1] != 0
      modifies codebuf.Repr
      ensures Valid()
      ensures var u := old(View()); p == Program(Resolved(u.code, u.fixups, u.labels), u.lits)
    {
      ghost var u := View();
      forall i | 0 <= i < |labels.Fixups()|
        ensures labels.Fixups()[i].0 < |codebuf.Words()| && labels.Fixups()[i].1 < |labels.Values()|
        ensures labels.Values()[labels.Fixups()[i].1] != 0
      {
        assert u.fixups[i] == labels.Fixups()[i];
      }
      labels.ResolveLabels(codebuf);
      p := Program(if codebuf.codevec == null then [] else codebuf.codevec[..codebuf.pc], litvec);
    }
  }
}
