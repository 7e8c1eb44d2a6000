/**
 The emission functions of AttrNode and its subclasses, working on a compilation unit in place
 (rosette/src/Compile.cc:252-636, 1035-1165, 1422-1538, 1735-1756, 2415-2452).

 Each method appends to the unit what the function of the same name in module Compile says.
 */
module Emission {
  import opened Bits
  import opened Codec
  import opened Wrappers
  import opened Vm
  import opened Schedule
  import opened Compile
  import opened Assembler
  import Linking
  import Growth
  import Plans

  // Register numbers fit their fields.
  predicate Fitting(dest: Location) {
    (dest.ArgReg? ==> dest.i < 256) && (dest.CtxtReg? ==> dest.r < 16) && (dest.GlobalVar? ==> dest.g < WORD)
  }

  method Lit(cu: CompilationUnit, dest: Location, v: Val)
    requires cu.Valid() && Fitting(dest)
    modifies cu, cu.codebuf.Repr, cu.labels.Repr
    ensures cu.Valid() && cu.Grown() && cu.View() == EmitLit(old(cu.View()), dest, v)
  {
    hide Encode, CompilationUnit.View, CompilationUnit.Valid, Extend, Offset;
    var n := Immediate(v);
    if n.Some? {
      match dest
      case ArgReg(a) => cu.Emit(F2(OP_IMMEDIATE_LIT_TO_ARG, n.value, a));
      case CtxtReg(r) => cu.Emit(F2(OP_IMMEDIATE_LIT_TO_REG, n.value, r));
      case _ =>
        var off := cu.ExtendLitvec(Atom(dest));
        cu.Emit(F2(OP_IMMEDIATE_LIT_TO_REG, n.value, RSLT));
        cu.Emit(F0(OP_XFER_RSLT_TO_DEST, off, NoExt));
    } else {
      var off := cu.ExtendLitvec(v);
      IndLit(cu, off, dest);
    }
  }

  method IndLit(cu: CompilationUnit, off: nat, dest: Location)
    requires cu.Valid() && Fitting(dest) && off < 256
    modifies cu, cu.codebuf.Repr, cu.labels.Repr
    ensures cu.Valid() && cu.Grown() && cu.View() == EmitIndLit(old(cu.View()), off, dest)
  {
    hide Encode, CompilationUnit.View, CompilationUnit.Valid, Extend, Offset;
    if dest == LocRslt {
      cu.Emit(F0(OP_IND_LIT_TO_RSLT, off, NoExt));
    } else if off < 16 && dest.ArgReg? && dest.i < 16 {
      cu.Emit(F1(OP_IND_LIT_TO_ARG, dest.i, off));
    } else if off < 16 && dest.CtxtReg? {
      cu.Emit(F1(OP_IND_LIT_TO_REG, dest.r, off));
    } else {
      cu.Emit(F0(OP_IND_LIT_TO_RSLT, off, NoExt));
      match dest
      case ArgReg(a) => cu.Emit(F0(OP_XFER_RSLT_TO_ARG, a, NoExt));
      case CtxtReg(r) => cu.Emit(F0(OP_XFER_RSLT_TO_REG, r, NoExt));
      case _ =>
        var at := cu.ExtendLitvec(Atom(dest));
        cu.Emit(F0(OP_XFER_RSLT_TO_DEST, at, NoExt));
    }
  }

  method Lookup(cu: CompilationUnit, dest: Location, sym: Val, deferred: bool)
    requires cu.Valid() && Fitting(dest)
    modifies cu, cu.codebuf.Repr, cu.labels.Repr
    ensures cu.Valid() && cu.Grown() && cu.View() == EmitLookup(old(cu.View()), dest, sym, deferred)
  {
    hide Encode, CompilationUnit.View, CompilationUnit.Valid, Extend, Offset;
    var off := cu.ExtendLitvec(sym);
    if deferred {
      off := off + LOOKUP_DEFER_MASK;
    }
    match dest
    case CtxtReg(r) => cu.Emit(F2(OP_LOOKUP_TO_REG, r, off));
    case ArgReg(a) =>
      if a < 16 {
        cu.Emit(F2(OP_LOOKUP_TO_ARG, a, off));
      } else {
        cu.Emit(F2(OP_LOOKUP_TO_REG, RSLT, off));
        cu.Emit(F0(OP_XFER_RSLT_TO_ARG, a, NoExt));
      }
    case _ => LookupFar(cu, dest, off);
  }

  // A destination that is named in the literal vector.
  method LookupFar(cu: CompilationUnit, dest: Location, off: nat)
    requires cu.Valid() && off < 256
    modifies cu, cu.codebuf.Repr, cu.labels.Repr
    ensures cu.Valid() && cu.Grown()
    ensures var u := old(cu.View());
            cu.View() == Deposit(Deposit(Extend(u, Atom(dest)), F2(OP_LOOKUP_TO_REG, RSLT, off)),
                                 F0(OP_XFER_RSLT_TO_DEST, Offset(u, Atom(dest)), NoExt))
  {
    hide Encode, CompilationUnit.View, CompilationUnit.Valid, Extend, Offset;
    var at := cu.ExtendLitvec(Atom(dest));
    cu.Emit(F2(OP_LOOKUP_TO_REG, RSLT, off));
    cu.Emit(F0(OP_XFER_RSLT_TO_DEST, at, NoExt));
  }

  method GlobalXfer(cu: CompilationUnit, dest: Location, g: nat)
    requires cu.Valid() && Fitting(dest) && g < WORD
    modifies cu, cu.codebuf.Repr, cu.labels.Repr
    ensures cu.Valid() && cu.Grown() && cu.View() == EmitGlobalXfer(old(cu.View()), dest, g)
  {
    assert Encode(F0(OP_XFER_GLOBAL_TO_REG, RSLT, NoExt)) == [Head(F0(OP_XFER_GLOBAL_TO_REG, RSLT, E1(g)))];
    hide Encode, Head, CompilationUnit.View, CompilationUnit.Valid, Extend, Offset;
    if dest.CtxtReg? {
      cu.Emit(F0(OP_XFER_GLOBAL_TO_REG, dest.r, E1(g)));
    } else if dest.ArgReg? {
      cu.Emit(F0(OP_XFER_GLOBAL_TO_ARG, dest.i, E1(g)));
    } else {
      var at := cu.ExtendLitvec(Atom(dest));
      cu.Emit(F0(OP_XFER_GLOBAL_TO_REG, RSLT, NoExt));
      cu.Emit(F0(OP_XFER_RSLT_TO_DEST, at, NoExt));
    }
  }

  method LexXfer(cu: CompilationUnit, dest: Location, src: Location)
    requires cu.Valid() && Fitting(dest) && src.LexVar? && src.level < 8 && src.off < 16
    modifies cu, cu.codebuf.Repr, cu.labels.Repr
    ensures cu.Valid() && cu.Grown() && cu.View() == EmitLexXfer(old(cu.View()), dest, src)
  {
    hide Encode, CompilationUnit.View, CompilationUnit.Valid, Extend, Offset;
    match dest
    case CtxtReg(r) => cu.Emit(F7(OP_XFER_LEX_TO_REG, src.ind, src.level, src.off, r));
    case ArgReg(a) =>
      if a < 16 {
        cu.Emit(F7(OP_XFER_LEX_TO_ARG, src.ind, src.level, src.off, a));
      } else {
        cu.Emit(F7(OP_XFER_LEX_TO_REG, src.ind, src.level, src.off, RSLT));
        cu.Emit(F0(OP_XFER_RSLT_TO_ARG, a, NoExt));
      }
    case _ =>
      var at := cu.ExtendLitvec(Atom(dest));
      cu.Emit(F7(OP_XFER_LEX_TO_REG, src.ind, src.level, src.off, RSLT));
      cu.Emit(F0(OP_XFER_RSLT_TO_DEST, at, NoExt));
  }

  method Xfer(cu: CompilationUnit, dest: Location, src: Location)
    requires cu.Valid() && Fitting(dest) && Fitting(src)
    modifies cu, cu.codebuf.Repr, cu.labels.Repr
    ensures cu.Valid() && cu.Grown() && cu.View() == EmitXfer(old(cu.View()), dest, src)
  {
    hide Encode, CompilationUnit.View, CompilationUnit.Valid, Extend, Offset;
    if src == dest {
    } else if src.GlobalVar? {
      GlobalXfer(cu, dest, src.g);
    } else if src.LexVar? && src.level < 8 && src.off < 16 {
      LexXfer(cu, dest, src);
    } else {
      PlainXfer(cu, dest, src);
    }
  }

  method PlainXfer(cu: CompilationUnit, dest: Location, src: Location)
    requires cu.Valid() && Fitting(dest) && Fitting(src) && src != dest && !src.GlobalVar?
    requires !(src.LexVar? && src.level < 8 && src.off < 16)
    modifies cu, cu.codebuf.Repr, cu.labels.Repr
    ensures cu.Valid() && cu.Grown() && cu.View() == EmitXfer(old(cu.View()), dest, src)
  {
    hide Encode, EmitGlobalXfer, EmitLexXfer, CompilationUnit.View, CompilationUnit.Valid, Extend, Offset;
    if src.ArgReg? && dest.ArgReg? {
      if src.i < 16 && dest.i < 16 {
        cu.Emit(F1(OP_XFER_ARG_TO_ARG, dest.i, src.i));
      } else {
        cu.Emit(F0(OP_XFER_ARG_TO_RSLT, src.i, NoExt));
        cu.Emit(F0(OP_XFER_RSLT_TO_ARG, dest.i, NoExt));
      }
    } else if dest == LocRslt {
      if src.ArgReg? {
        cu.Emit(F0(OP_XFER_ARG_TO_RSLT, src.i, NoExt));
      } else if src.CtxtReg? {
        cu.Emit(F0(OP_XFER_REG_TO_RSLT, src.r, NoExt));
      } else {
        var at := cu.ExtendLitvec(Atom(src));
        cu.Emit(F0(OP_XFER_SRC_TO_RSLT, at, NoExt));
      }
    } else {
      var at := cu.ExtendLitvec(Atom(src));
      var to := cu.ExtendLitvec(Atom(dest));
      cu.Emit(F0(OP_XFER_SRC_TO_RSLT, at, NoExt));
      cu.Emit(F0(OP_XFER_RSLT_TO_DEST, to, NoExt));
    }
  }

  method Return(cu: CompilationUnit, dest: Location, rtn: Rtn, next: Next)
    requires cu.Valid()
    modifies cu, cu.codebuf.Repr, cu.labels.Repr
    ensures cu.Valid() && cu.Grown() && cu.View() == EmitRtn(old(cu.View()), dest, rtn, next)
  {
    hide Encode, CompilationUnit.View, CompilationUnit.Valid, Extend, Offset;
    match rtn
    case ImplicitRtn =>
      if next.NoneRemaining? {
        cu.Emit(F0(OP_NXT, 0, NoExt));
      }
    case UntaggedRtn =>
      if dest != Limbo {
        cu.Emit(F5(OP_RTN, false, next.NoneRemaining?, 0, NoExt));
      }
  }

  method ApplyPrim(cu: CompilationUnit, dest: Location, k: nat, nargs: nat, unwind: bool, rtn: Rtn, next: Next)
    requires cu.Valid() && Fitting(dest) && k < WORD
    modifies cu, cu.codebuf.Repr, cu.labels.Repr
    ensures cu.Valid() && cu.Grown() && cu.View() == EmitApplyPrim(old(cu.View()), dest, k, nargs, unwind, rtn, next)
  {
    hide Encode, CompilationUnit.View, CompilationUnit.Valid, Extend, Offset, EmitRtn;
    if dest == Limbo {
      cu.Emit(F5(OP_APPLY_CMD, unwind, next.NoneRemaining?, nargs % 256, E2(k, 0)));
    } else {
      var nxt := rtn.ImplicitRtn? && next.NoneRemaining?;
      if dest.CtxtReg? {
        cu.Emit(F5(OP_APPLY_PRIM_REG, unwind, nxt, nargs % 256, E2(k, dest.r)));
      } else if dest.ArgReg? {
        cu.Emit(F5(OP_APPLY_PRIM_ARG, unwind, nxt, nargs % 256, E2(k, dest.i)));
      } else {
        var at := cu.ExtendLitvec(Atom(dest));
        cu.Emit(F5(OP_APPLY_PRIM_TAG, unwind, nxt, nargs % 256, E2(k, at)));
      }
      if rtn.UntaggedRtn? {
        Return(cu, dest, UntaggedRtn, next);
      }
    }
  }

  method Xmit(cu: CompilationUnit, dest: Location, nargs: nat, unwind: bool, rtn: Rtn, next: Next)
    requires cu.Valid()
    modifies cu, cu.codebuf.Repr, cu.labels.Repr
    ensures cu.Valid() && cu.Grown() && cu.View() == EmitXmit(old(cu.View()), dest, nargs, unwind, rtn, next)
  {
    hide Encode;
    if rtn.ImplicitRtn? {
      cu.aborted := true;
    } else {
      cu.Emit(F5(if dest == Limbo then OP_SEND else OP_XMIT, unwind, next.NoneRemaining?, nargs % 256, NoExt));
    }
  }

  method Alloc(cu: CompilationUnit, n: nat)
    requires cu.Valid() && n < 256
    modifies cu, cu.codebuf.Repr, cu.labels.Repr
    ensures cu.Valid() && cu.Grown() && cu.View() == EmitAlloc(old(cu.View()), n)
  {
    if n > 0 {
      cu.Emit(F0(OP_ALLOC, n, NoExt));
    }
  }

  method SimpleNode(cu: CompilationUnit, e: Expr, dest: Location)
    requires cu.Valid() && Fitting(dest) && Simple(e) && Representable(e)
    modifies cu, cu.codebuf.Repr, cu.labels.Repr
    ensures cu.Valid() && cu.Grown() && cu.View() == EmitSimple(old(cu.View()), e, dest)
  {
    hide CompilationUnit.View, CompilationUnit.Valid, EmitLit, EmitXfer, EmitLookup;
    if e.Const? {
      Lit(cu, dest, e.v);
    } else if e.Var? {
      Xfer(cu, dest, e.loc);
    } else {
      Lookup(cu, dest, e.sym, e.deferred);
    }
  }

  // ------------------------------------------------------------------
  // The stacks of sub-expressions
  // ------------------------------------------------------------------

  // The transfers, from the top of the stack.
  method XferNodes(cu: CompilationUnit, xfers: seq<(nat, Location)>)
    requires cu.Valid() && forall i :: 0 <= i < |xfers| ==> xfers[i].0 < 256 && Fitting(xfers[i].1)
    modifies cu, cu.codebuf.Repr, cu.labels.Repr
    ensures cu.Valid() && cu.Grown() && cu.View() == EmitXfers(old(cu.View()), xfers)
  {
    hide CompilationUnit.View, CompilationUnit.Valid, EmitXfer;
    var n := |xfers|;
    assert xfers[..n] == xfers;
    while n > 0
      invariant 0 <= n <= |xfers| && cu.Valid() && cu.Grown()
      invariant EmitXfers(cu.View(), xfers[..n]) == EmitXfers(old(cu.View()), xfers)
    {
      n := n - 1;
      assert xfers[..n + 1][..n] == xfers[..n];
      Xfer(cu, xfers[n].1, ArgReg(xfers[n].0));
    }
  }

  method SimpleNodes(cu: CompilationUnit, e: Expr, ids: seq<nat>)
    requires cu.Valid() && Emittable(e)
    requires forall i :: 0 <= i < |ids| ==> IsKid(e, ids[i]) && Simple(Kid(e, ids[i]))
    modifies cu, cu.codebuf.Repr, cu.labels.Repr
    ensures cu.Valid() && cu.Grown() && cu.View() == EmitSimples(old(cu.View()), e, ids)
  {
    hide CompilationUnit.View, CompilationUnit.Valid, EmitSimple;
    var n := |ids|;
    assert ids[..n] == ids;
    while n > 0
      invariant 0 <= n <= |ids| && cu.Valid() && cu.Grown()
      invariant EmitSimples(cu.View(), e, ids[..n]) == EmitSimples(old(cu.View()), e, ids)
    {
      n := n - 1;
      assert ids[..n + 1][..n] == ids[..n];
      KidEmittable(e, ids[n]);
      SimpleNode(cu, Kid(e, ids[n]), KidDest(e, ids[n]));
    }
  }

  // What can be emitted with operands that fit their fields.
  ghost predicate Emittable(e: Expr) {
    Representable(e) && Fits(e)
  }

  lemma KidEmittable(e: Expr, id: nat)
    requires Emittable(e) && IsKid(e, id)
    ensures Emittable(Kid(e, id)) && Fitting(KidDest(e, id))
  {
  }

  // ------------------------------------------------------------------
  // Nodes
  // ------------------------------------------------------------------

  // The unit is about to grow from u to w, on its way to f, whose addresses fit a label.
  ghost predicate Ready(u: Unit, w: Unit, f: Unit) {
    Linking.Valid(u) && Linking.Extends(w, f) && |f.code| < WORD
  }

  lemma ReadyFor(u: Unit, v: Unit, w: Unit, f: Unit)
    requires Linking.Valid(u) && Linking.Extends(v, w) && Linking.Extends(w, f) && |f.code| < WORD
    ensures Ready(u, v, f)
  {
    Linking.ExtendsTrans(v, w, f);
  }

  // Every scheduled sub-expression has a register that fits its field.
  ghost predicate Placeable(e: Expr, items: seq<Item>) {
    forall a :: 0 <= a < |items| ==>
      IsKid(e, items[a].id) && Emittable(Kid(e, items[a].id)) && Fitting(items[a].dest)
  }

  // emitInlinedExprDispatchCode
  method InlinedNodes(cu: CompilationUnit, e: Expr, items: seq<Item>, exit: nat, ghost f: Unit)
    requires cu.Valid() && Placeable(e, items) && exit < |cu.View().labels|
    requires Ready(cu.View(), EmitInlined(cu.View(), e, items, exit), f)
    modifies cu, cu.codebuf.Repr, cu.labels.Repr
    ensures cu.Valid() && cu.Grown() && cu.View() == EmitInlined(old(cu.View()), e, items, exit)
    decreases e, 0
  {
    hide CompilationUnit.View, CompilationUnit.Valid, EmitDispatch;
    var i := 0;
    assert items[0..] == items;
    while i < |items|
      invariant 0 <= i <= |items| && cu.Valid() && cu.Grown() && exit < |cu.View().labels|
      invariant Linking.Valid(cu.View())
      invariant EmitInlined(cu.View(), e, items[i..], exit) == EmitInlined(old(cu.View()), e, items, exit)
    {
      InlinedStep(cu.View(), e, items[i..], exit, f);
      var kid, dest := Kid(e, items[i].id), items[i].dest;
      assert items[i..][1..] == items[i + 1..];
      if i == |items| - 1 {
        Dispatch(cu, kid, dest, true, ImplicitRtn, To(exit), f);
      } else {
        Enclosed(cu, kid, dest, f);
      }
      i := i + 1;
    }
  }

  // A sub-expression with a label of its own behind it.
  method Enclosed(cu: CompilationUnit, e: Expr, dest: Location, ghost f: Unit)
    requires cu.Valid() && Fitting(dest) && Emittable(e)
    requires Enclosable(cu.View(), e, dest, f)
    modifies cu, cu.codebuf.Repr, cu.labels.Repr
    ensures cu.Valid() && cu.Grown()
    ensures cu.View() == SetLabel(EmitDispatch(NewLabel(old(cu.View())), e, dest, true, ImplicitRtn,
                                               To(|old(cu.View()).labels|)), |old(cu.View()).labels|)
    decreases e, 6
  {
    hide CompilationUnit.View, CompilationUnit.Valid, EmitDispatch;
    var l := cu.NewLabel();
    Dispatch(cu, e, dest, true, ImplicitRtn, To(l), f);
    cu.SetLabel(l);
  }

  ghost predicate Enclosable(u: Unit, e: Expr, dest: Location, f: Unit) {
    var v := EmitDispatch(NewLabel(u), e, dest, true, ImplicitRtn, To(|u.labels|));
    Ready(NewLabel(u), v, f) && |u.labels| < |v.labels| && |v.code| < WORD
  }

  // What the first of the remaining items needs, and what it leaves to the others.
  lemma InlinedStep(u: Unit, e: Expr, items: seq<Item>, exit: nat, f: Unit)
    requires items != [] && Placeable(e, items) && exit < |u.labels| && Ready(u, EmitInlined(u, e, items, exit), f)
    ensures var kid, dest, l := Kid(e, items[0].id), items[0].dest, |u.labels|;
            if |items| == 1 then
              var v := EmitDispatch(u, kid, dest, true, ImplicitRtn, To(exit));
              && Ready(u, v, f) && Linking.Valid(v) && exit < |v.labels|
              && EmitInlined(u, e, items, exit) == EmitInlined(v, e, items[1..], exit)
            else
              var v := EmitDispatch(NewLabel(u), kid, dest, true, ImplicitRtn, To(l));
              && Enclosable(u, kid, dest, f)
              && Linking.Valid(SetLabel(v, l)) && exit < |SetLabel(v, l).labels|
              && EmitInlined(u, e, items, exit) == EmitInlined(SetLabel(v, l), e, items[1..], exit)
  {
    var kid, dest, l := Kid(e, items[0].id), items[0].dest, |u.labels|;
    if |items| == 1 {
      Growth.DispatchGrows(u, kid, dest, true, ImplicitRtn, To(exit));
    } else {
      var v := EmitDispatch(NewLabel(u), kid, dest, true, ImplicitRtn, To(l));
      Linking.NewLabelExtends(u);
      Growth.DispatchGrows(NewLabel(u), kid, dest, true, ImplicitRtn, To(l));
      Growth.BindGrows(u, v, {l});
      var u1 := SetLabel(v, l);
      Growth.InlinedGrows(u1, e, items[1..], exit);
      var w := EmitInlined(u, e, items, exit);
      assert w == EmitInlined(u1, e, items[1..], exit);
      hide EmitInlined, EmitDispatch;
      Linking.ExtendsTrans(v, u1, w);
      ReadyFor(NewLabel(u), v, w, f);
    }
  }

  method InlinedPart(cu: CompilationUnit, e: Expr, items: seq<Item>, ghost f: Unit)
    requires cu.Valid() && Placeable(e, items) && Ready(cu.View(), EmitInlinedPart(cu.View(), e, items), f)
    modifies cu, cu.codebuf.Repr, cu.labels.Repr
    ensures cu.Valid() && cu.Grown() && cu.View() == EmitInlinedPart(old(cu.View()), e, items)
    decreases e, 1
  {
    hide CompilationUnit.View, CompilationUnit.Valid, EmitInlined;
    if items != [] {
      InlinedPartReady(cu.View(), e, items, f);
      var l := cu.NewLabel();
      InlinedNodes(cu, e, items, l, f);
      cu.SetLabel(l);
    }
  }

  lemma InlinedPartReady(u: Unit, e: Expr, items: seq<Item>, f: Unit)
    requires items != [] && Placeable(e, items) && Ready(u, EmitInlinedPart(u, e, items), f)
    ensures var v := EmitInlined(NewLabel(u), e, items, |u.labels|);
            Ready(NewLabel(u), v, f) && |u.labels| < |v.labels| && |v.code| < WORD
  {
    var v := EmitInlined(NewLabel(u), e, items, |u.labels|);
    Linking.NewLabelExtends(u);
    Growth.InlinedGrows(NewLabel(u), e, items, |u.labels|);
    Growth.InlinedPartGrows(u, e, items);
    hide EmitInlined;
    ReadyFor(NewLabel(u), v, SetLabel(v, |u.labels|), f);
  }

  method SimplePart(cu: CompilationUnit, e: Expr, xfers: seq<(nat, Location)>, ids: seq<nat>, ghost f: Unit)
    requires cu.Valid() && Emittable(e)
    requires forall i :: 0 <= i < |xfers| ==> xfers[i].0 < 256 && Fitting(xfers[i].1)
    requires forall i :: 0 <= i < |ids| ==> IsKid(e, ids[i]) && Simple(Kid(e, ids[i]))
    requires Ready(cu.View(), EmitSimplePart(cu.View(), e, xfers, ids), f)
    modifies cu, cu.codebuf.Repr, cu.labels.Repr
    ensures cu.Valid() && cu.Grown() && cu.View() == EmitSimplePart(old(cu.View()), e, xfers, ids)
  {
    hide CompilationUnit.View, CompilationUnit.Valid, EmitSimples, EmitXfers, Emittable, Fitting;
    if xfers != [] || ids != [] {
      SimplePartReady(cu.View(), e, xfers, ids, f);
      var l := cu.NewLabel();
      XferNodes(cu, xfers);
      SimpleNodes(cu, e, ids);
      cu.SetLabel(l);
    }
  }

  lemma SimplePartReady(u: Unit, e: Expr, xfers: seq<(nat, Location)>, ids: seq<nat>, f: Unit)
    requires forall i :: 0 <= i < |ids| ==> IsKid(e, ids[i]) && Simple(Kid(e, ids[i]))
    requires xfers != [] || ids != []
    requires Ready(u, EmitSimplePart(u, e, xfers, ids), f)
    ensures var v := EmitSimples(EmitXfers(NewLabel(u), xfers), e, ids);
            |u.labels| < |v.labels| && |v.code| < WORD
  {
    Linking.NewLabelExtends(u);
    Growth.XfersQuiet(NewLabel(u), xfers);
    Growth.SimplesQuiet(EmitXfers(NewLabel(u), xfers), e, ids);
  }

  // The sub-expressions of a request, in the order chosen by rearrangeInlinedExprs.
  method KidNodes(cu: CompilationUnit, e: Expr, ghost f: Unit)
    requires cu.Valid() && e.Request? && Emittable(e) && Ready(cu.View(), EmitKids(cu.View(), e), f)
    modifies cu, cu.codebuf.Repr, cu.labels.Repr
    ensures cu.Valid() && cu.Grown() && cu.View() == EmitKids(old(cu.View()), e)
    decreases e, 2
  {
    KidsPlaceable(e);
    KidsReady(cu.View(), e, f);
    hide CompilationUnit.View, CompilationUnit.Valid, EmitInlinedPart, EmitSimplePart, Plan, Kids, Simples, Emittable,
         Fitting, Xfers, Placeable, Ready;
    var o := Plan(e);
    InlinedPart(cu, e, o.items, f);
    SimplePart(cu, e, Xfers(o.home, o.items, |o.items|), Simples(e, Kids(e)), f);
  }

  lemma KidsReady(u: Unit, e: Expr, f: Unit)
    requires e.Request? && Ready(u, EmitKids(u, e), f)
    requires forall a :: 0 <= a < |Plan(e).items| ==> IsKid(e, Plan(e).items[a].id)
    ensures var v := EmitInlinedPart(u, e, Plan(e).items);
            && Ready(u, v, f)
            && Ready(v, EmitSimplePart(v, e, Xfers(Plan(e).home, Plan(e).items, |Plan(e).items|), Simples(e, Kids(e))), f)
  {
    var o, ids := Plan(e), Simples(e, Kids(e));
    var v := EmitInlinedPart(u, e, o.items);
    var xfers := Xfers(o.home, o.items, |o.items|);
    Growth.InlinedPartGrows(u, e, o.items);
    Growth.SimplePartGrows(v, e, xfers, ids);
    var w := EmitKids(u, e);
    assert w == EmitSimplePart(v, e, xfers, ids);
    hide EmitInlinedPart, EmitSimplePart, Plan, Kids, Simples;
    ReadyFor(u, v, w, f);
  }

  // All registers that the plan uses, temporaries included, fit their fields.
  lemma KidsPlaceable(e: Expr)
    requires e.Request? && Emittable(e)
    ensures Placeable(e, Plan(e).items)
    ensures var xfers := Xfers(Plan(e).home, Plan(e).items, |Plan(e).items|);
            forall i :: 0 <= i < |xfers| ==> xfers[i].0 < 256 && Fitting(xfers[i].1)
  {
    Plans.PlanPlanned(e);
    var o := Plan(e);
    assert o.av <= 255;
    forall a | 0 <= a < |o.items|
      ensures IsKid(e, o.items[a].id) && Emittable(Kid(e, o.items[a].id))
      ensures Fitting(o.items[a].dest) && Fitting(o.home[a].dest)
    {
      assert Plans.ItemOf(e, o.home[a]) && Schedule.Placed(o.home, o.items, a);
      KidEmittable(e, o.items[a].id);
    }
    hide Plan, Emittable;
    XfersFit(o.home, o.items, |o.items|);
  }

  lemma {:induction false} XfersFit(home: seq<Item>, items: seq<Item>, n: nat)
    requires n <= |items| == |home|
    requires forall a :: 0 <= a < |items| ==> Fitting(items[a].dest) && Fitting(home[a].dest)
    ensures forall i :: 0 <= i < |Xfers(home, items, n)| ==>
              Xfers(home, items, n)[i].0 < 256 && Fitting(Xfers(home, items, n)[i].1)
    decreases n
  {
    if n > 0 {
      XfersFit(home, items, n - 1);
    }
  }

  // RequestNode, its argument vector allocated
  method RequestNode(cu: CompilationUnit, e: Expr, dest: Location, rtn: Rtn, next: Next, ghost f: Unit)
    requires cu.Valid() && e.Request? && Fitting(dest) && Emittable(e)
    requires Ready(cu.View(), EmitDispatch(cu.View(), e, dest, true, rtn, next), f)
    modifies cu, cu.codebuf.Repr, cu.labels.Repr
    ensures cu.Valid() && cu.Grown() && cu.View() == EmitDispatch(old(cu.View()), e, dest, true, rtn, next)
    decreases e, 3
  {
    RequestReady(cu.View(), e, dest, rtn, next, f);
    hide CompilationUnit.View, CompilationUnit.Valid, EmitKids, EmitApplyPrim, EmitXmit;
    KidNodes(cu, e, f);
    if e.target.Prim? {
      ApplyPrim(cu, dest, e.target.k, |e.args|, e.rest.Some?, rtn, next);
    } else {
      Xmit(cu, dest, |e.args|, e.rest.Some?, rtn, next);
    }
  }

  lemma RequestReady(u: Unit, e: Expr, dest: Location, rtn: Rtn, next: Next, f: Unit)
    requires e.Request? && Ready(u, EmitDispatch(u, e, dest, true, rtn, next), f)
    ensures Ready(u, EmitKids(u, e), f)
  {
    var v, w := EmitKids(u, e), EmitDispatch(u, e, dest, true, rtn, next);
    Growth.KidsGrow(u, e);
    hide EmitKids;
    if e.target.Prim? {
      Growth.ApplyPrimQuiet(v, dest, e.target.k, |e.args|, e.rest.Some?, rtn, next);
    } else {
      Growth.XmitQuiet(v, dest, |e.args|, e.rest.Some?, rtn, next);
    }
    ReadyFor(u, v, w, f);
  }

  lemma FirstReady(u: Unit, c: Expr, w: Unit, f: Unit)
    requires Linking.Valid(u) && Linking.Extends(EmitFirst(u, c), w) && Linking.Extends(w, f) && |f.code| < WORD
    ensures Enclosable(u, c, LocRslt, f) && Linking.Valid(EmitFirst(u, c)) && |u.labels| <= |EmitFirst(u, c).labels|
  {
    var v := EmitDispatch(NewLabel(u), c, LocRslt, true, ImplicitRtn, To(|u.labels|));
    Linking.NewLabelExtends(u);
    Growth.DispatchGrows(NewLabel(u), c, LocRslt, true, ImplicitRtn, To(|u.labels|));
    Growth.FirstGrows(u, c);
    hide EmitDispatch;
    Linking.ExtendsTrans(v, EmitFirst(u, c), w);
    ReadyFor(NewLabel(u), v, w, f);
  }

  method SeqNode(cu: CompilationUnit, e: Expr, dest: Location, rtn: Rtn, next: Next, ghost f: Unit)
    requires cu.Valid() && e.Seq? && Fitting(dest) && Emittable(e) && Growth.Usable(cu.View(), next)
    requires Ready(cu.View(), EmitDispatch(cu.View(), e, dest, true, rtn, next), f)
    modifies cu, cu.codebuf.Repr, cu.labels.Repr
    ensures cu.Valid() && cu.Grown() && cu.View() == EmitDispatch(old(cu.View()), e, dest, true, rtn, next)
    decreases e, 3
  {
    SeqReady(cu.View(), e, dest, rtn, next, f);
    ghost var w := EmitDispatch(cu.View(), e, dest, true, rtn, next);
    assert w == EmitDispatch(EmitFirst(cu.View(), e.first), e.second, dest, true, rtn, next);
    hide CompilationUnit.View, CompilationUnit.Valid, EmitDispatch, Ready, Enclosable;
    Enclosed(cu, e.first, LocRslt, f);
    Dispatch(cu, e.second, dest, true, rtn, next, f);
  }

  lemma SeqReady(u: Unit, e: Expr, dest: Location, rtn: Rtn, next: Next, f: Unit)
    requires e.Seq? && Growth.Usable(u, next) && Ready(u, EmitDispatch(u, e, dest, true, rtn, next), f)
    ensures var v := EmitFirst(u, e.first);
            && Enclosable(u, e.first, LocRslt, f) && Growth.Usable(v, next)
            && Ready(v, EmitDispatch(v, e.second, dest, true, rtn, next), f)
  {
    var v, w := EmitFirst(u, e.first), EmitDispatch(u, e, dest, true, rtn, next);
    assert w == EmitDispatch(v, e.second, dest, true, rtn, next);
    Growth.FirstGrows(u, e.first);
    Growth.DispatchGrows(v, e.second, dest, true, rtn, next);
    hide EmitDispatch, EmitFirst;
    FirstReady(u, e.first, w, f);
  }

  method IfNode(cu: CompilationUnit, e: Expr, dest: Location, rtn: Rtn, next: Next, ghost f: Unit)
    requires cu.Valid() && e.If? && Fitting(dest) && Emittable(e) && Growth.Usable(cu.View(), next)
    requires Ready(cu.View(), EmitDispatch(cu.View(), e, dest, true, rtn, next), f)
    modifies cu, cu.codebuf.Repr, cu.labels.Repr
    ensures cu.Valid() && cu.Grown() && cu.View() == EmitDispatch(old(cu.View()), e, dest, true, rtn, next)
    decreases e, 3
  {
    IfReady(cu.View(), e, dest, rtn, next, f);
    ghost var w := EmitDispatch(cu.View(), e, dest, true, rtn, next);
    assert w == EmitBranches(EmitFirst(cu.View(), e.cond), e, dest, rtn, next);
    hide CompilationUnit.View, CompilationUnit.Valid, EmitDispatch, EmitBranches, Ready, Enclosable;
    Enclosed(cu, e.cond, LocRslt, f);
    BranchNodes(cu, e, dest, rtn, next, f);
  }

  lemma IfReady(u: Unit, e: Expr, dest: Location, rtn: Rtn, next: Next, f: Unit)
    requires e.If? && Growth.Usable(u, next) && Ready(u, EmitDispatch(u, e, dest, true, rtn, next), f)
    ensures var v := EmitFirst(u, e.cond);
            && Enclosable(u, e.cond, LocRslt, f) && Growth.Usable(v, next)
            && Ready(v, EmitBranches(v, e, dest, rtn, next), f)
  {
    var v, w := EmitFirst(u, e.cond), EmitDispatch(u, e, dest, true, rtn, next);
    assert w == EmitBranches(v, e, dest, rtn, next);
    Growth.FirstGrows(u, e.cond);
    Growth.BranchesGrow(v, e, dest, rtn, next);
    hide EmitDispatch, EmitFirst, EmitBranches;
    FirstReady(u, e.cond, w, f);
  }

  // IfNode::emitWrapup
  method BranchNodes(cu: CompilationUnit, e: Expr, dest: Location, rtn: Rtn, next: Next, ghost f: Unit)
    requires cu.Valid() && e.If? && Fitting(dest) && Emittable(e) && Growth.Usable(cu.View(), next)
    requires Ready(cu.View(), EmitBranches(cu.View(), e, dest, rtn, next), f)
    modifies cu, cu.codebuf.Repr, cu.labels.Repr
    ensures cu.Valid() && cu.Grown() && cu.View() == EmitBranches(old(cu.View()), e, dest, rtn, next)
    decreases e, 2
  {
    hide CompilationUnit.View, CompilationUnit.Valid, EmitDispatch, EmitBranches, Jump, Emittable, Fitting, Ready, Around, Yes,
         Growth.Usable;
    BranchesReady(cu.View(), e, dest, rtn, next, f);
    var no := TrueBranch(cu, e, dest, rtn, next, f);
    cu.SetLabel(no);
    Dispatch(cu, e.no, dest, true, rtn, next, f);
  }

  method TrueBranch(cu: CompilationUnit, e: Expr, dest: Location, rtn: Rtn, next: Next, ghost f: Unit)
    returns (no: nat)
    requires cu.Valid() && e.If? && Fitting(dest) && Emittable(e.yes)
    requires var j := Jump(NewLabel(cu.View()), OP_JMP_FALSE, |cu.View().labels|);
             Growth.Usable(j, next) && Ready(j, Yes(cu.View(), e, dest, rtn, next), f)
    modifies cu, cu.codebuf.Repr, cu.labels.Repr
    ensures cu.Valid() && cu.Grown() && no == |old(cu.View()).labels|
    ensures cu.View() == Around(old(cu.View()), e, dest, rtn, next)
    decreases e, 1
  {
    hide CompilationUnit.View, CompilationUnit.Valid, EmitDispatch, Jump, Emittable, Fitting, Ready;
    no := cu.NewLabel();
    cu.EmitOpAndLabel(OP_JMP_FALSE, no);
    Dispatch(cu, e.yes, dest, true, rtn, next, f);
    if next.To? {
      cu.EmitOpAndLabel(OP_JMP, next.l);
    }
  }

  // The steps of EmitBranches.
  ghost function Yes(u: Unit, e: Expr, dest: Location, rtn: Rtn, next: Next): Unit
    requires e.If?
  {
    EmitDispatch(Jump(NewLabel(u), OP_JMP_FALSE, |u.labels|), e.yes, dest, true, rtn, next)
  }

  ghost function Around(u: Unit, e: Expr, dest: Location, rtn: Rtn, next: Next): Unit
    requires e.If?
  {
    var v := Yes(u, e, dest, rtn, next);
    if next.To? then Jump(v, OP_JMP, next.l) else v
  }

  ghost function Joint(u: Unit, e: Expr, dest: Location, rtn: Rtn, next: Next): Unit
    requires e.If?
  {
    EmitDispatch(SetLabel(Around(u, e, dest, rtn, next), |u.labels|), e.no, dest, true, rtn, next)
  }

  lemma BranchesReady(u: Unit, e: Expr, dest: Location, rtn: Rtn, next: Next, f: Unit)
    requires e.If? && Emittable(e) && Growth.Usable(u, next) && Ready(u, EmitBranches(u, e, dest, rtn, next), f)
    ensures Emittable(e.yes) && Emittable(e.no)
    ensures var j, y, v := Jump(NewLabel(u), OP_JMP_FALSE, |u.labels|), Yes(u, e, dest, rtn, next), Around(u, e, dest, rtn, next);
            && Growth.Usable(j, next) && Ready(j, y, f)
            && |u.labels| < |v.labels| && |v.code| < WORD
            && Growth.Usable(SetLabel(v, |u.labels|), next)
            && Ready(SetLabel(v, |u.labels|), Joint(u, e, dest, rtn, next), f)
    ensures EmitBranches(u, e, dest, rtn, next) == Joint(u, e, dest, rtn, next)
  {
    var no := |u.labels|;
    var j, y, v := Jump(NewLabel(u), OP_JMP_FALSE, no), Yes(u, e, dest, rtn, next), Around(u, e, dest, rtn, next);
    var w := EmitBranches(u, e, dest, rtn, next);
    assert w == Joint(u, e, dest, rtn, next);
    Growth.YesGrows(u, e, dest, rtn, next);
    Growth.GrowsValid(u, SetLabel(v, no), Growth.Outer(next));
    Growth.DispatchGrows(SetLabel(v, no), e.no, dest, true, rtn, next);
    hide EmitDispatch, EmitBranches;
    Linking.ExtendsTrans(y, v, SetLabel(v, no));
    Linking.ExtendsTrans(y, SetLabel(v, no), w);
    ReadyFor(j, y, w, f);
    Linking.ExtendsTrans(v, SetLabel(v, no), w);
    Linking.ExtendsTrans(v, w, f);
  }

  // emitDispatchCode
  method Dispatch(cu: CompilationUnit, e: Expr, dest: Location, argvec: bool, rtn: Rtn, next: Next, ghost f: Unit)
    requires cu.Valid() && Fitting(dest) && Emittable(e) && Growth.Usable(cu.View(), next)
    requires Ready(cu.View(), EmitDispatch(cu.View(), e, dest, argvec, rtn, next), f)
    modifies cu, cu.codebuf.Repr, cu.labels.Repr
    ensures cu.Valid() && cu.Grown() && cu.View() == EmitDispatch(old(cu.View()), e, dest, argvec, rtn, next)
    decreases e, 5
  {
    if Simple(e) {
      Leaf(cu, e, dest, argvec, rtn, next);
    } else {
      DispatchReady(cu.View(), e, dest, argvec, rtn, next, f);
      hide CompilationUnit.View, CompilationUnit.Valid, EmitDispatch, Ready, Emittable, Fitting, EmitAlloc;
      if !argvec {
        Alloc(cu, Av(e));
      }
      CompoundNode(cu, e, dest, rtn, next, f);
    }
  }

  method Leaf(cu: CompilationUnit, e: Expr, dest: Location, argvec: bool, rtn: Rtn, next: Next)
    requires cu.Valid() && Fitting(dest) && Simple(e) && Representable(e)
    modifies cu, cu.codebuf.Repr, cu.labels.Repr
    ensures cu.Valid() && cu.Grown() && cu.View() == EmitDispatch(old(cu.View()), e, dest, argvec, rtn, next)
  {
    hide CompilationUnit.View, CompilationUnit.Valid, EmitSimple, EmitRtn;
    SimpleNode(cu, e, dest);
    Return(cu, dest, rtn, next);
  }

  method CompoundNode(cu: CompilationUnit, e: Expr, dest: Location, rtn: Rtn, next: Next, ghost f: Unit)
    requires cu.Valid() && !Simple(e) && Fitting(dest) && Emittable(e) && Growth.Usable(cu.View(), next)
    requires Ready(cu.View(), EmitDispatch(cu.View(), e, dest, true, rtn, next), f)
    modifies cu, cu.codebuf.Repr, cu.labels.Repr
    ensures cu.Valid() && cu.Grown() && cu.View() == EmitDispatch(old(cu.View()), e, dest, true, rtn, next)
    decreases e, 4
  {
    hide CompilationUnit.View, CompilationUnit.Valid, EmitDispatch, Ready, Emittable, Fitting;
    if e.Request? {
      RequestNode(cu, e, dest, rtn, next, f);
    } else if e.If? {
      IfNode(cu, e, dest, rtn, next, f);
    } else {
      SeqNode(cu, e, dest, rtn, next, f);
    }
  }

  lemma DispatchReady(u: Unit, e: Expr, dest: Location, argvec: bool, rtn: Rtn, next: Next, f: Unit)
    requires !Simple(e) && Growth.Usable(u, next) && Ready(u, EmitDispatch(u, e, dest, argvec, rtn, next), f)
    ensures var u0 := if argvec then u else EmitAlloc(u, Av(e));
            && Av(e) < 256 && Growth.Usable(u0, next)
            && EmitDispatch(u, e, dest, argvec, rtn, next) == EmitDispatch(u0, e, dest, true, rtn, next)
            && Ready(u0, EmitDispatch(u0, e, dest, true, rtn, next), f)
  {
    Growth.AvSmall(e);
    Growth.AllocQuiet(u, Av(e));
    hide EmitAlloc;
  }

  // compileExpr; an aborted compilation delivers no code.
  method CompileExpression(e: Expr, source: Val) returns (r: Option<Program>)
    requires Admitted(e) ==> Emittable(e) && |CompileUnit(e, source).code| < WORD
    ensures r == CompileExpr(e, source)
  {
    if !Admitted(e) {
      return None;
    }
    var cu := new CompilationUnit(source);
    ghost var f := CompileUnit(e, source);
    Growth.ForwardLabels(e, source);
    assert Linking.Extends(f, f);
    hide CompilationUnit.Valid, EmitDispatch, Emittable, Admitted;
    Dispatch(cu, e, LocRslt, false, UntaggedRtn, NoneRemaining, f);
    if cu.aborted {
      return None;
    }
    var p := cu.Finish();
    r := Some(p);
  }
}
