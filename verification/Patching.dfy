/**
 Back-patching over whole emissions (rosette/src/Labels.cc:150-192, rosette/src/Compile.cc:450-454):
 instructions, literals, labels, jumps and bindings in any order.
 */
module Patching {
  import opened Codec
  import opened Wrappers
  import opened Vm
  import opened Compile
  import opened Linking

  // What emission does to a unit, in any order; a label may be bound again.
  datatype Act = Word(i: Instr) | Literal(v: Val) | Label | JumpTo(op: nat, l: nat) | Bind(l: nat)

  function Done(u: Unit, act: Act): Unit {
    match act
    case Word(i) => Deposit(u, i)
    case Literal(v) => Extend(u, v)
    case Label => NewLabel(u)
    case JumpTo(op, l) => Jump(u, op, l)
    case Bind(l) => SetLabel(u, l)
  }

  function AllDone(u: Unit, acts: seq<Act>): Unit
    decreases |acts|
  {
    if acts == [] then u else Done(AllDone(u, acts[..|acts| - 1]), acts[|acts| - 1])
  }

  ghost predicate Named(u: Unit, act: Act) {
    (act.JumpTo? || act.Bind?) ==> act.l < |u.labels|
  }

  // Labels are made before they are used.
  ghost predicate Proper(u: Unit, acts: seq<Act>) {
    forall k :: 0 <= k < |acts| ==> Named(AllDone(u, acts[..k]), acts[k])
  }

  lemma ProperPrefix(u: Unit, acts: seq<Act>, n: nat)
    requires Proper(u, acts) && n <= |acts|
    ensures Proper(u, acts[..n])
  {
    forall k | 0 <= k < n ensures Named(AllDone(u, acts[..n][..k]), acts[..n][k]) {
      assert acts[..n][..k] == acts[..k];
    }
  }

  lemma DoneValid(u: Unit, act: Act)
    requires Valid(u) && Named(u, act)
    ensures Valid(Done(u, act)) && Later(u, Done(u, act))
  {
    match act
    case Word(i) => DepositExtends(u, i);
    case Literal(v) => ExtendExtends(u, v);
    case Label => NewLabelExtends(u);
    case JumpTo(op, l) => JumpExtends(u, op, l);
    case Bind(l) =>
  }

  lemma LaterTrans(u: Unit, v: Unit, f: Unit)
    requires Later(u, v) && Later(v, f)
    ensures Later(u, f)
  {
    forall i | |u.fixups| <= i < |f.fixups| ensures f.fixups[i].0 >= |u.code| {
      if i < |v.fixups| {
        assert f.fixups[i] == v.fixups[i];
      }
    }
  }

  lemma AllDoneSnoc(u: Unit, acts: seq<Act>)
    requires acts != []
    ensures AllDone(u, acts) == Done(AllDone(u, acts[..|acts| - 1]), acts[|acts| - 1])
    ensures Proper(u, acts) ==> Named(AllDone(u, acts[..|acts| - 1]), acts[|acts| - 1])
  {
  }

  lemma AllDoneNil(u: Unit)
    ensures AllDone(u, []) == u
  {
  }

  lemma LaterSelf(u: Unit)
    ensures Later(u, u)
  {
  }

  // All units that emission can reach from a valid one are valid, and later states of the earlier ones.
  lemma {:induction false} AllDoneValid(u: Unit, acts: seq<Act>, k: nat)
    requires Valid(u) && Proper(u, acts) && k <= |acts|
    ensures Valid(AllDone(u, acts)) && Later(AllDone(u, acts[..k]), AllDone(u, acts))
    decreases |acts|
  {
    hide *;
    if acts == [] {
      assert acts[..k] == acts && AllDone(u, acts) == u by {
        AllDoneNil(u);
      }
      LaterSelf(u);
    } else {
      var n := |acts| - 1;
      ProperPrefix(u, acts, n);
      AllDoneValid(u, acts[..n], if k <= n then k else n);
      var v := AllDone(u, acts[..n]);
      AllDoneSnoc(u, acts);
      DoneValid(v, acts[n]);
      if k <= n {
        assert acts[..n][..k] == acts[..k];
        LaterTrans(AllDone(u, acts[..k]), v, AllDone(u, acts));
      } else {
        assert acts[..k] == acts;
        LaterSelf(AllDone(u, acts));
      }
    }
  }

  lemma DoneLabel(u: Unit, act: Act, l: nat)
    requires Named(u, act)
    ensures act == Bind(l) ==> l < |Done(u, act).labels| && Done(u, act).labels[l] == |u.code|
    ensures l < |u.labels| && act != Bind(l) ==> l < |Done(u, act).labels| && Done(u, act).labels[l] == u.labels[l]
  {
  }

  // A label holds the address at which it was bound last.
  lemma {:induction false} LastBinding(u: Unit, acts: seq<Act>, l: nat, k: nat)
    requires Valid(u) && Proper(u, acts) && k < |acts| && acts[k] == Bind(l)
    requires forall j :: k < j < |acts| ==> acts[j] != Bind(l)
    ensures l < |AllDone(u, acts).labels| && AllDone(u, acts).labels[l] == |AllDone(u, acts[..k]).code|
    decreases |acts|
  {
    hide *;
    var n := |acts| - 1;
    AllDoneSnoc(u, acts);
    DoneLabel(AllDone(u, acts[..n]), acts[n], l);
    if k < n {
      ProperPrefix(u, acts, n);
      assert acts[..n][..k] == acts[..k];
      LastBinding(u, acts[..n], l, k);
    }
  }

  // Whatever is emitted, in whatever order: the unit links; each instruction is then fetched from
  // where it was deposited, and each jump with the address at which its label was bound last.
  lemma EmissionLinks(u: Unit, acts: seq<Act>)
    requires Valid(u) && Proper(u, acts) && !AllDone(u, acts).aborted
    ensures Linked(AllDone(u, acts), Finished(u, acts))
    ensures forall a :: 0 <= a < |acts| ==> Fetched(u, acts, a)
    ensures forall a, b :: 0 <= a < |acts| && 0 <= b < |acts| ==> Lands(u, acts, a, b)
  {
    AllDoneValid(u, acts, 0);
    ResolveLinks(AllDone(u, acts));
    forall a | 0 <= a < |acts| ensures Fetched(u, acts, a) {
      WordFetched(u, acts, a);
    }
    forall a, b | 0 <= a < |acts| && 0 <= b < |acts| ensures Lands(u, acts, a, b) {
      JumpLands(u, acts, a, b);
    }
  }

  ghost function Finished(u: Unit, acts: seq<Act>): Program {
    var f := AllDone(u, acts);
    Program(Resolved(f.code, f.fixups, f.labels), f.lits)
  }

  ghost function Place(u: Unit, acts: seq<Act>, a: nat): nat
    requires a <= |acts|
  {
    |AllDone(u, acts[..a]).code|
  }

  ghost predicate Fetched(u: Unit, acts: seq<Act>, a: nat)
    requires a < |acts|
  {
    acts[a].Word? && Legal(acts[a].i) ==>
      Decode(Finished(u, acts).code, Place(u, acts, a)) == Some((acts[a].i, |Encode(acts[a].i)|))
  }

  ghost predicate IsJump(act: Act) {
    act.JumpTo? && (act.op == OP_JMP || act.op == OP_JMP_FALSE)
  }

  ghost predicate BindsLast(acts: seq<Act>, l: nat, b: nat)
    requires b < |acts|
  {
    acts[b] == Bind(l) && forall j :: b < j < |acts| ==> acts[j] != Bind(l)
  }

  ghost predicate Lands(u: Unit, acts: seq<Act>, a: nat, b: nat)
    requires a < |acts| && b < |acts|
  {
    IsJump(acts[a]) && BindsLast(acts, acts[a].l, b) && Place(u, acts, b) < 1024 ==>
      Decode(Finished(u, acts).code, Place(u, acts, a)) == Some((F6(acts[a].op, Place(u, acts, b), NoExt), 1))
  }

  // The unit before and after one act.
  lemma Around(u: Unit, acts: seq<Act>, a: nat)
    requires Valid(u) && Proper(u, acts) && a < |acts|
    ensures Valid(AllDone(u, acts[..a])) && Later(Done(AllDone(u, acts[..a]), acts[a]), AllDone(u, acts))
  {
    ProperPrefix(u, acts, a);
    AllDoneValid(u, acts[..a], 0);
    AllDoneValid(u, acts, a + 1);
    assert acts[..a + 1][..a] == acts[..a];
  }

  lemma WordFetched(u: Unit, acts: seq<Act>, a: nat)
    requires Valid(u) && Proper(u, acts) && Linked(AllDone(u, acts), Finished(u, acts)) && a < |acts|
    ensures Fetched(u, acts, a)
  {
    Around(u, acts, a);
    if acts[a].Word? && Legal(acts[a].i) {
      hide *;
      LaterPlain(AllDone(u, acts[..a]), acts[a].i, AllDone(u, acts), Finished(u, acts));
    }
  }

  lemma DoneJump(u: Unit, act: Act)
    requires act.JumpTo?
    ensures Done(u, act) == Jump(u, act.op, act.l)
  {
  }

  lemma JumpLands(u: Unit, acts: seq<Act>, a: nat, b: nat)
    requires Valid(u) && Proper(u, acts) && Linked(AllDone(u, acts), Finished(u, acts)) && a < |acts| && b < |acts|
    ensures Lands(u, acts, a, b)
  {
    if IsJump(acts[a]) && BindsLast(acts, acts[a].l, b) && Place(u, acts, b) < 1024 {
      hide Done, AllDone, Decode, Proper, Linked, Valid, Later, Finished;
      Around(u, acts, a);
      LastBinding(u, acts, acts[a].l, b);
      assert Done(AllDone(u, acts[..a]), acts[a]) == Jump(AllDone(u, acts[..a]), acts[a].op, acts[a].l) by {
        DoneJump(AllDone(u, acts[..a]), acts[a]);
      }
      LaterJump(AllDone(u, acts[..a]), acts[a].op, acts[a].l, AllDone(u, acts), Finished(u, acts));
    }
  }
}
