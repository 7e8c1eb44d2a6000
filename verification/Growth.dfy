/**
 How emission changes a compilation unit: it only appends, it binds no label that it did
 not create, and every label it uses is bound behind the jump or handed in by the caller
 (rosette/src/Compile.cc:1035-1141, 1735-1756 and 2415-2452).

 `Quiet` is for code without labels of its own, `Grows` for code with labels; the labels handed in by
 the caller are a parameter.  The lemmas follow the emitters one by one, up to whole expressions.
 */
module Growth {
  import opened Codec
  import opened Wrappers
  import opened Vm
  import opened Schedule
  import opened Compile
  import opened Linking

  // Emission that uses no labels.
  ghost predicate Quiet(u: Unit, v: Unit) {
    Valid(v) && Extends(u, v) && v.labels == u.labels && v.fixups == u.fixups
  }

  // Fixup i of v is forward: bound behind its word, unless its label is one of `outer`.
  ghost predicate Forward(u: Unit, v: Unit, outer: set<nat>, i: nat)
    requires i < |v.fixups|
  {
    var (loc, l) := v.fixups[i];
    l in outer || (|u.labels| <= l < |v.labels| && loc < v.labels[l] <= |v.code|)
  }

  ghost predicate Grows(u: Unit, v: Unit, outer: set<nat>) {
    && Valid(v) && Extends(u, v)
    && (forall l :: 0 <= l < |u.labels| ==> v.labels[l] == u.labels[l])
    && (forall i :: |u.fixups| <= i < |v.fixups| ==> Forward(u, v, outer, i))
  }

  lemma QuietTrans(u: Unit, v: Unit, w: Unit)
    requires Quiet(u, v) && Quiet(v, w)
    ensures Quiet(u, w)
  {
    ExtendsTrans(u, v, w);
  }

  lemma QuietGrows(u: Unit, v: Unit)
    requires Quiet(u, v)
    ensures Grows(u, v, {})
  {
  }

  lemma GrowsTrans(u: Unit, v: Unit, w: Unit, a: set<nat>, b: set<nat>)
    requires Grows(u, v, a) && Grows(v, w, b)
    ensures Grows(u, w, a + b)
  {
    ExtendsTrans(u, v, w);
    forall i | |u.fixups| <= i < |w.fixups| ensures Forward(u, w, a + b, i) {
      if i < |v.fixups| {
        assert w.fixups[i] == v.fixups[i];
        assert Forward(u, v, a, i);
      } else {
        assert Forward(v, w, b, i);
      }
    }
  }

  lemma GrowsMore(u: Unit, v: Unit, a: set<nat>, b: set<nat>)
    requires Grows(u, v, a) && a <= b
    ensures Grows(u, v, b)
  {
    forall i | |u.fixups| <= i < |v.fixups| ensures Forward(u, v, b, i) {
      assert Forward(u, v, a, i);
    }
  }

  // A label created before and bound after is an inner matter.
  lemma BindGrows(u: Unit, v: Unit, outer: set<nat>)
    requires Valid(u) && Grows(NewLabel(u), v, outer)
    ensures Grows(u, SetLabel(v, |u.labels|), outer - {|u.labels|})
    ensures Extends(v, SetLabel(v, |u.labels|))
  {
    var l := |u.labels|;
    var u1, w := NewLabel(u), SetLabel(v, l);
    NewLabelExtends(u);
    assert v.labels[l] == u1.labels[l] == 0;
    SetLabelExtends(v, l);
    ExtendsTrans(u, u1, v);
    ExtendsTrans(u, v, w);
    forall i | |u.fixups| <= i < |w.fixups| ensures Forward(u, w, outer - {l}, i) {
      assert w.fixups[i] == v.fixups[i];
      assert Forward(u1, v, outer, i);
    }
  }

  lemma JumpGrows(u: Unit, op: nat, l: nat)
    requires Valid(u) && l < |u.labels|
    ensures Grows(u, Jump(u, op, l), {l})
  {
    JumpExtends(u, op, l);
  }

  lemma DepositQuiet(u: Unit, i: Instr)
    requires Valid(u)
    ensures Quiet(u, Deposit(u, i))
  {
    DepositExtends(u, i);
  }

  lemma ExtendQuiet(u: Unit, v: Val)
    requires Valid(u)
    ensures Quiet(u, Extend(u, v))
  {
    ExtendExtends(u, v);
  }

  // extend the literal vector, then deposit one or two instructions
  lemma ExtendDeposit(u: Unit, v: Val, i: Instr)
    requires Valid(u)
    ensures Quiet(u, Deposit(Extend(u, v), i))
  {
    ExtendQuiet(u, v);
    DepositQuiet(Extend(u, v), i);
    QuietTrans(u, Extend(u, v), Deposit(Extend(u, v), i));
  }

  lemma DepositTwo(u: Unit, i: Instr, j: Instr)
    requires Valid(u)
    ensures Quiet(u, Deposit(Deposit(u, i), j))
  {
    DepositQuiet(u, i);
    DepositQuiet(Deposit(u, i), j);
    QuietTrans(u, Deposit(u, i), Deposit(Deposit(u, i), j));
  }

  lemma ExtendDepositTwo(u: Unit, v: Val, i: Instr, j: Instr)
    requires Valid(u)
    ensures Quiet(u, Deposit(Deposit(Extend(u, v), i), j))
  {
    ExtendQuiet(u, v);
    DepositTwo(Extend(u, v), i, j);
    QuietTrans(u, Extend(u, v), Deposit(Deposit(Extend(u, v), i), j));
  }

  lemma HomeQuiet(u: Unit, dest: Location)
    requires Valid(u)
    ensures Quiet(u, RsltToDest(u, dest))
  {
    match dest
    case ArgReg(a) => DepositQuiet(u, F0(OP_XFER_RSLT_TO_ARG, a, NoExt));
    case CtxtReg(r) => DepositQuiet(u, F0(OP_XFER_RSLT_TO_REG, r, NoExt));
    case _ => ExtendDeposit(u, Atom(dest), F0(OP_XFER_RSLT_TO_DEST, Offset(u, Atom(dest)), NoExt));
  }

  lemma IndLitQuiet(u: Unit, off: nat, dest: Location)
    requires Valid(u)
    ensures Quiet(u, EmitIndLit(u, off, dest))
  {
    var load := F0(OP_IND_LIT_TO_RSLT, off, NoExt);
    DepositQuiet(u, load);
    if dest.ArgReg? {
      DepositQuiet(u, F1(OP_IND_LIT_TO_ARG, dest.i, off));
    } else if dest.CtxtReg? {
      DepositQuiet(u, F1(OP_IND_LIT_TO_REG, dest.r, off));
    }
    HomeQuiet(Deposit(u, load), dest);
    QuietTrans(u, Deposit(u, load), RsltToDest(Deposit(u, load), dest));
  }

  lemma LitQuiet(u: Unit, dest: Location, v: Val)
    requires Valid(u)
    ensures Quiet(u, EmitLit(u, dest, v))
  {
    hide Quiet, Valid;
    var n := Immediate(v);
    if n.Some? {
      match dest
      case ArgReg(a) => DepositQuiet(u, F2(OP_IMMEDIATE_LIT_TO_ARG, n.value, a));
      case CtxtReg(r) => DepositQuiet(u, F2(OP_IMMEDIATE_LIT_TO_REG, n.value, r));
      case _ =>
        ExtendDepositTwo(u, Atom(dest), F2(OP_IMMEDIATE_LIT_TO_REG, n.value, RSLT),
                         F0(OP_XFER_RSLT_TO_DEST, Offset(u, Atom(dest)), NoExt));
    } else {
      ExtendQuiet(u, v);
      QuietValid(u, Extend(u, v));
      IndLitQuiet(Extend(u, v), Offset(u, v), dest);
      QuietTrans(u, Extend(u, v), EmitLit(u, dest, v));
    }
  }

  lemma QuietValid(u: Unit, v: Unit)
    requires Quiet(u, v)
    ensures Valid(v)
  {
  }

  lemma LookupQuiet(u: Unit, dest: Location, sym: Val, deferred: bool)
    requires Valid(u)
    ensures Quiet(u, EmitLookup(u, dest, sym, deferred))
  {
    var u0 := Extend(u, sym);
    var off := Offset(u, sym) + if deferred then LOOKUP_DEFER_MASK else 0;
    ExtendQuiet(u, sym);
    hide Quiet, Valid;
    QuietValid(u, u0);
    match dest
    case CtxtReg(r) => ExtendDeposit(u, sym, F2(OP_LOOKUP_TO_REG, r, off));
    case ArgReg(a) =>
      ExtendDeposit(u, sym, F2(OP_LOOKUP_TO_ARG, a, off));
      ExtendDepositTwo(u, sym, F2(OP_LOOKUP_TO_REG, RSLT, off), F0(OP_XFER_RSLT_TO_ARG, a, NoExt));
    case _ =>
      ExtendDepositTwo(u0, Atom(dest), F2(OP_LOOKUP_TO_REG, RSLT, off),
                       F0(OP_XFER_RSLT_TO_DEST, Offset(u0, Atom(dest)), NoExt));
      QuietTrans(u, u0, EmitLookup(u, dest, sym, deferred));
  }

  lemma RawWordQuiet(u: Unit, w: nat)
    requires Valid(u)
    ensures Quiet(u, u.(code := u.code + [w]))
  {
  }

  lemma GlobalQuiet(u: Unit, dest: Location, g: nat)
    requires Valid(u)
    ensures Quiet(u, EmitGlobalXfer(u, dest, g))
  {
    match dest
    case CtxtReg(r) => DepositQuiet(u, F0(OP_XFER_GLOBAL_TO_REG, r, E1(g)));
    case ArgReg(a) => DepositQuiet(u, F0(OP_XFER_GLOBAL_TO_ARG, a, E1(g)));
    case _ =>
      var u1 := Extend(u, Atom(dest));
      var w := Head(F0(OP_XFER_GLOBAL_TO_REG, RSLT, E1(g)));
      var u2 := u1.(code := u1.code + [w]);
      var j := F0(OP_XFER_RSLT_TO_DEST, Offset(u, Atom(dest)), NoExt);
      ExtendQuiet(u, Atom(dest));
      RawWordQuiet(u1, w);
      QuietTrans(u, u1, u2);
      DepositQuiet(u2, j);
      QuietTrans(u, u2, Deposit(u2, j));
  }

  lemma LexQuiet(u: Unit, dest: Location, src: Location)
    requires Valid(u) && src.LexVar?
    ensures Quiet(u, EmitLexXfer(u, dest, src))
  {
    hide Quiet, Valid;
    var i := F7(OP_XFER_LEX_TO_REG, src.ind, src.level, src.off, RSLT);
    match dest
    case CtxtReg(r) => DepositQuiet(u, F7(OP_XFER_LEX_TO_REG, src.ind, src.level, src.off, r));
    case ArgReg(a) =>
      DepositQuiet(u, F7(OP_XFER_LEX_TO_ARG, src.ind, src.level, src.off, a));
      DepositTwo(u, i, F0(OP_XFER_RSLT_TO_ARG, a, NoExt));
    case _ =>
      ExtendDepositTwo(u, Atom(dest), i, F0(OP_XFER_RSLT_TO_DEST, Offset(u, Atom(dest)), NoExt));
  }

  lemma XferQuiet(u: Unit, dest: Location, src: Location)
    requires Valid(u)
    ensures Quiet(u, EmitXfer(u, dest, src))
  {
    if src == dest {
    } else if src.GlobalVar? {
      GlobalQuiet(u, dest, src.g);
    } else if src.LexVar? && src.level < 8 && src.off < 16 {
      LexQuiet(u, dest, src);
    } else if src.ArgReg? && dest.ArgReg? {
      hide Quiet, Valid;
      DepositQuiet(u, F1(OP_XFER_ARG_TO_ARG, dest.i, src.i));
      DepositTwo(u, F0(OP_XFER_ARG_TO_RSLT, src.i, NoExt), F0(OP_XFER_RSLT_TO_ARG, dest.i, NoExt));
    } else if dest == LocRslt {
      match src
      case ArgReg(a) => DepositQuiet(u, F0(OP_XFER_ARG_TO_RSLT, a, NoExt));
      case CtxtReg(r) => DepositQuiet(u, F0(OP_XFER_REG_TO_RSLT, r, NoExt));
      case _ => ExtendDeposit(u, Atom(src), F0(OP_XFER_SRC_TO_RSLT, Offset(u, Atom(src)), NoExt));
    } else {
      var u1 := Extend(u, Atom(src));
      ExtendQuiet(u, Atom(src));
      ExtendDepositTwo(u1, Atom(dest), F0(OP_XFER_SRC_TO_RSLT, Offset(u, Atom(src)), NoExt),
                       F0(OP_XFER_RSLT_TO_DEST, Offset(u1, Atom(dest)), NoExt));
      QuietTrans(u, u1, EmitXfer(u, dest, src));
    }
  }

  lemma SimpleQuiet(u: Unit, e: Expr, dest: Location)
    requires Valid(u) && Simple(e)
    ensures Quiet(u, EmitSimple(u, e, dest))
  {
    match e
    case Const(v) => LitQuiet(u, dest, v);
    case Var(loc) => XferQuiet(u, dest, loc);
    case Free(sym, deferred) => LookupQuiet(u, dest, sym, deferred);
  }

  lemma {:induction false} XfersQuiet(u: Unit, xfers: seq<(nat, Location)>)
    requires Valid(u)
    ensures Quiet(u, EmitXfers(u, xfers))
    decreases |xfers|
  {
    if xfers != [] {
      var last := xfers[|xfers| - 1];
      var u1 := EmitXfer(u, last.1, ArgReg(last.0));
      XferQuiet(u, last.1, ArgReg(last.0));
      hide Quiet, EmitXfer;
      QuietValid(u, u1);
      XfersQuiet(u1, xfers[..|xfers| - 1]);
      QuietTrans(u, u1, EmitXfers(u, xfers));
    } else {
      assert Extends(u, u);
    }
  }

  lemma {:induction false} SimplesQuiet(u: Unit, e: Expr, ids: seq<nat>)
    requires Valid(u) && forall i :: 0 <= i < |ids| ==> IsKid(e, ids[i]) && Simple(Kid(e, ids[i]))
    ensures Quiet(u, EmitSimples(u, e, ids))
    decreases |ids|
  {
    if ids != [] {
      var last := ids[|ids| - 1];
      var u1 := EmitSimple(u, Kid(e, last), KidDest(e, last));
      SimpleQuiet(u, Kid(e, last), KidDest(e, last));
      hide Quiet, EmitSimple;
      QuietValid(u, u1);
      SimplesQuiet(u1, e, ids[..|ids| - 1]);
      QuietTrans(u, u1, EmitSimples(u, e, ids));
    } else {
      assert Extends(u, u);
    }
  }

  lemma {:induction false} AvSmall(e: Expr)
    ensures Av(e) < 256
    decreases e
  {
    match e
    case If(c, y, n) =>
      AvSmall(c);
      AvSmall(y);
      AvSmall(n);
    case Seq(a, b) =>
      AvSmall(a);
      AvSmall(b);
    case _ =>
  }

  lemma AllocQuiet(u: Unit, n: nat)
    requires Valid(u)
    ensures Quiet(u, EmitAlloc(u, n))
  {
    DepositQuiet(u, F0(OP_ALLOC, n, NoExt));
    assert Extends(u, u);
  }

  lemma RtnQuiet(u: Unit, dest: Location, rtn: Rtn, next: Next)
    requires Valid(u)
    ensures Quiet(u, EmitRtn(u, dest, rtn, next))
  {
    DepositQuiet(u, F0(OP_NXT, 0, NoExt));
    DepositQuiet(u, F5(OP_RTN, false, next.NoneRemaining?, 0, NoExt));
    assert Extends(u, u);
  }

  lemma ApplyPrimQuiet(u: Unit, dest: Location, k: nat, nargs: nat, unwind: bool, rtn: Rtn, next: Next)
    requires Valid(u)
    ensures var v := EmitApplyPrim(u, dest, k, nargs, unwind, rtn, next);
            Quiet(u, v) && |v.code| > |u.code|
  {
    var n: nat := nargs % 256;
    if dest == Limbo {
      DepositQuiet(u, F5(OP_APPLY_CMD, unwind, next.NoneRemaining?, n, E2(k, 0)));
    } else {
      var nxt := rtn.ImplicitRtn? && next.NoneRemaining?;
      var u1;
      match dest {
        case CtxtReg(r) =>
          var i := F5(OP_APPLY_PRIM_REG, unwind, nxt, n, E2(k, r));
          DepositQuiet(u, i);
          u1 := Deposit(u, i);
        case ArgReg(a) =>
          var i := F5(OP_APPLY_PRIM_ARG, unwind, nxt, n, E2(k, a));
          DepositQuiet(u, i);
          u1 := Deposit(u, i);
        case _ =>
          var i := F5(OP_APPLY_PRIM_TAG, unwind, nxt, n, E2(k, Offset(u, Atom(dest))));
          ExtendDeposit(u, Atom(dest), i);
          u1 := Deposit(Extend(u, Atom(dest)), i);
      }
      RtnQuiet(u1, dest, UntaggedRtn, next);
      QuietTrans(u, u1, EmitRtn(u1, dest, UntaggedRtn, next));
    }
  }

  lemma XmitQuiet(u: Unit, dest: Location, nargs: nat, unwind: bool, rtn: Rtn, next: Next)
    requires Valid(u)
    ensures Quiet(u, EmitXmit(u, dest, nargs, unwind, rtn, next))
  {
    DepositQuiet(u, F5(if dest == Limbo then OP_SEND else OP_XMIT, unwind, next.NoneRemaining?, nargs, NoExt));
  }

  // ------------------------------------------------------------------
  // Whole expressions
  // ------------------------------------------------------------------

  ghost function Outer(next: Next): set<nat> {
    if next.To? then {next.l} else {}
  }

  ghost predicate Usable(u: Unit, next: Next) {
    next.To? ==> next.l < |u.labels|
  }

  // Every label used is bound behind its jump, or is the exit that the caller binds.
  lemma {:induction false} InlinedGrows(u: Unit, e: Expr, items: seq<Item>, exit: nat)
    requires Valid(u) && exit < |u.labels|
    requires forall a :: 0 <= a < |items| ==> IsKid(e, items[a].id)
    ensures Grows(u, EmitInlined(u, e, items, exit), {exit})
    decreases e, 0, |items|
  {
    if items == [] {
      assert Extends(u, u);
    } else {
      var kid, dest := Kid(e, items[0].id), items[0].dest;
      if |items| == 1 {
        DispatchGrows(u, kid, dest, true, ImplicitRtn, To(exit));
      } else {
        var l := |u.labels|;
        var v := EmitDispatch(NewLabel(u), kid, dest, true, ImplicitRtn, To(l));
        NewLabelExtends(u);
        DispatchGrows(NewLabel(u), kid, dest, true, ImplicitRtn, To(l));
        BindGrows(u, v, {l});
        var u1 := SetLabel(v, l);
        hide Grows;
        GrowsValid(u, u1, {l} - {l});
        InlinedGrows(u1, e, items[1..], exit);
        GrowsTrans(u, u1, EmitInlined(u, e, items, exit), {l} - {l}, {exit});
        assert {l} - {l} + {exit} == {exit};
      }
    }
  }

  lemma GrowsValid(u: Unit, v: Unit, outer: set<nat>)
    requires Grows(u, v, outer)
    ensures Valid(v) && |u.labels| <= |v.labels| && |u.code| <= |v.code|
  {
  }

  lemma SimplePartGrows(u: Unit, e: Expr, xfers: seq<(nat, Location)>, ids: seq<nat>)
    requires Valid(u) && forall i :: 0 <= i < |ids| ==> IsKid(e, ids[i]) && Simple(Kid(e, ids[i]))
    ensures Grows(u, EmitSimplePart(u, e, xfers, ids), {})
    ensures var v := EmitSimples(EmitXfers(NewLabel(u), xfers), e, ids); Extends(v, SetLabel(v, |u.labels|))
  {
    var u1 := NewLabel(u);
    var u2 := EmitXfers(u1, xfers);
    var u3 := EmitSimples(u2, e, ids);
    NewLabelExtends(u);
    XfersQuiet(u1, xfers);
    SimplesQuiet(u2, e, ids);
    QuietTrans(u1, u2, u3);
    QuietGrows(u1, u3);
    BindGrows(u, u3, {});
    assert {} - {|u.labels|} == {};
    assert Extends(u, u);
  }

  lemma InlinedPartGrows(u: Unit, e: Expr, items: seq<Item>)
    requires Valid(u) && forall a :: 0 <= a < |items| ==> IsKid(e, items[a].id)
    ensures Grows(u, EmitInlinedPart(u, e, items), {})
    ensures var v := EmitInlined(NewLabel(u), e, items, |u.labels|); items != [] ==> Extends(v, SetLabel(v, |u.labels|))
    decreases e, 0, |items| + 1
  {
    if items == [] {
      assert Extends(u, u);
    } else {
      var l := |u.labels|;
      NewLabelExtends(u);
      InlinedGrows(NewLabel(u), e, items, l);
      BindGrows(u, EmitInlined(NewLabel(u), e, items, l), {l});
      assert {l} - {l} == {};
    }
  }

  lemma KidsGrow(u: Unit, e: Expr)
    requires Valid(u) && e.Request?
    ensures Grows(u, EmitKids(u, e), {})
    decreases e, 1, 0
  {
    hide Plan, Xfers, Kids, EmitInlinedPart, EmitSimplePart, Valid, Grows;
    var o := Plan(e);
    var ids := Simples(e, Kids(e));
    var xfers := Xfers(o.home, o.items, |o.items|);
    PlanKids(e);
    var u1 := EmitInlinedPart(u, e, o.items);
    InlinedPartGrows(u, e, o.items);
    GrowsValid(u, u1, {});
    SimplePartGrows(u1, e, xfers, ids);
    var w := EmitKids(u, e);
    assert w == EmitSimplePart(u1, e, xfers, ids);
    GrowsNone(u, u1, w);
  }

  lemma GrowsNone(u: Unit, v: Unit, w: Unit)
    requires Grows(u, v, {}) && Grows(v, w, {})
    ensures Grows(u, w, {})
  {
    GrowsTrans(u, v, w, {}, {});
    assert {} + {} == (var none: set<nat> := {}; none);
  }

  lemma RequestGrows(u: Unit, e: Expr, dest: Location, rtn: Rtn, next: Next)
    requires Valid(u) && e.Request?
    ensures Grows(u, EmitDispatch(u, e, dest, true, rtn, next), {})
    decreases e, 1, 1
  {
    var u1 := EmitKids(u, e);
    var w := EmitDispatch(u, e, dest, true, rtn, next);
    assert w == if e.target.Prim? then EmitApplyPrim(u1, dest, e.target.k, |e.args|, e.rest.Some?, rtn, next)
                else EmitXmit(u1, dest, |e.args|, e.rest.Some?, rtn, next);
    hide Grows, EmitKids, EmitDispatch, EmitApplyPrim, EmitXmit, Quiet;
    KidsGrow(u, e);
    GrowsValid(u, u1, {});
    if e.target.Prim? {
      ApplyPrimQuiet(u1, dest, e.target.k, |e.args|, e.rest.Some?, rtn, next);
    } else {
      XmitQuiet(u1, dest, |e.args|, e.rest.Some?, rtn, next);
    }
    QuietGrows(u1, w);
    GrowsNone(u, u1, w);
  }

  lemma FirstGrows(u: Unit, c: Expr)
    requires Valid(u)
    ensures Grows(u, EmitFirst(u, c), {})
    ensures var v := EmitDispatch(NewLabel(u), c, LocRslt, true, ImplicitRtn, To(|u.labels|));
            Valid(v) && Extends(v, EmitFirst(u, c))
    decreases c, 4
  {
    var l := |u.labels|;
    var v := EmitDispatch(NewLabel(u), c, LocRslt, true, ImplicitRtn, To(l));
    NewLabelExtends(u);
    DispatchGrows(NewLabel(u), c, LocRslt, true, ImplicitRtn, To(l));
    BindGrows(u, v, {l});
    assert {l} - {l} == {};
  }

  // The true branch with the jumps around it, up to the label of the false branch.
  lemma YesGrows(u: Unit, e: Expr, dest: Location, rtn: Rtn, next: Next)
    requires Valid(u) && e.If? && Usable(u, next)
    ensures var no := |u.labels|;
            var j := Jump(NewLabel(u), OP_JMP_FALSE, no);
            var u2 := EmitDispatch(j, e.yes, dest, true, rtn, next);
            var u3 := if next.To? then Jump(u2, OP_JMP, next.l) else u2;
            && Valid(NewLabel(u)) && Valid(j) && Valid(u2) && Valid(u3)
            && Extends(j, u2) && Extends(u2, u3) && Extends(u3, SetLabel(u3, no)) && |u3.code| > |u.code|
            && Grows(u, SetLabel(u3, no), Outer(next))
    decreases e.yes, 4
  {
    var no := |u.labels|;
    var v := NewLabel(u);
    NewLabelExtends(u);
    var j := Jump(v, OP_JMP_FALSE, no);
    JumpGrows(v, OP_JMP_FALSE, no);
    var u2 := EmitDispatch(j, e.yes, dest, true, rtn, next);
    DispatchGrows(j, e.yes, dest, true, rtn, next);
    hide EmitDispatch;
    GrowsTrans(v, j, u2, {no}, Outer(next));
    var u3 := if next.To? then Jump(u2, OP_JMP, next.l) else u2;
    if next.To? {
      JumpGrows(u2, OP_JMP, next.l);
    } else {
      assert Extends(u2, u2);
    }
    GrowsTrans(v, u2, u3, {no} + Outer(next), Outer(next));
    BindGrows(u, u3, {no} + Outer(next) + Outer(next));
    GrowsMore(u, SetLabel(u3, no), {no} + Outer(next) + Outer(next) - {no}, Outer(next));
  }

  lemma BranchesGrow(u: Unit, e: Expr, dest: Location, rtn: Rtn, next: Next)
    requires Valid(u) && e.If? && Usable(u, next)
    ensures Grows(u, EmitBranches(u, e, dest, rtn, next), Outer(next))
    decreases e, 1
  {
    var no := |u.labels|;
    var u2 := EmitDispatch(Jump(NewLabel(u), OP_JMP_FALSE, no), e.yes, dest, true, rtn, next);
    var u3 := if next.To? then Jump(u2, OP_JMP, next.l) else u2;
    var u4 := SetLabel(u3, no);
    YesGrows(u, e, dest, rtn, next);
    GrowsValid(u, u4, Outer(next));
    DispatchGrows(u4, e.no, dest, true, rtn, next);
    var w := EmitBranches(u, e, dest, rtn, next);
    GrowsTrans(u, u4, w, Outer(next), Outer(next));
    assert Outer(next) + Outer(next) == Outer(next);
  }

  // With the argument vector already there.
  lemma ReadyGrows(u: Unit, e: Expr, dest: Location, rtn: Rtn, next: Next)
    requires Valid(u) && !Simple(e) && Usable(u, next)
    ensures Grows(u, EmitDispatch(u, e, dest, true, rtn, next), Outer(next))
    decreases e, 2
  {
    var w := EmitDispatch(u, e, dest, true, rtn, next);
    match e
    case Request(_, _, _) =>
      RequestGrows(u, e, dest, rtn, next);
      GrowsMore(u, w, {}, Outer(next));
    case If(c, _, _) =>
      var u1 := EmitFirst(u, c);
      FirstGrows(u, c);
      GrowsValid(u, u1, {});
      BranchesGrow(u1, e, dest, rtn, next);
      GrowsTrans(u, u1, w, {}, Outer(next));
      assert {} + Outer(next) == Outer(next);
    case Seq(a, b) =>
      var u1 := EmitFirst(u, a);
      FirstGrows(u, a);
      GrowsValid(u, u1, {});
      DispatchGrows(u1, b, dest, true, rtn, next);
      GrowsTrans(u, u1, w, {}, Outer(next));
      assert {} + Outer(next) == Outer(next);
  }

  lemma DispatchGrows(u: Unit, e: Expr, dest: Location, argvec: bool, rtn: Rtn, next: Next)
    requires Valid(u) && Usable(u, next)
    ensures Grows(u, EmitDispatch(u, e, dest, argvec, rtn, next), Outer(next))
    decreases e, 3
  {
    var w := EmitDispatch(u, e, dest, argvec, rtn, next);
    if Simple(e) {
      var u1 := EmitSimple(u, e, dest);
      SimpleQuiet(u, e, dest);
      RtnQuiet(u1, dest, rtn, next);
      QuietTrans(u, u1, w);
      QuietGrows(u, w);
      GrowsMore(u, w, {}, Outer(next));
    } else if argvec {
      ReadyGrows(u, e, dest, rtn, next);
    } else {
      var u0 := EmitAlloc(u, Av(e));
      AllocQuiet(u, Av(e));
      QuietGrows(u, u0);
      ReadyGrows(u0, e, dest, rtn, next);
      GrowsTrans(u, u0, w, {}, Outer(next));
      assert {} + Outer(next) == Outer(next);
    }
  }

  // In a compiled expression every label used by a jump is bound, at an address behind the jump,
  // so resolveLabel's assertion never fires.
  lemma ForwardLabels(e: Expr, source: Val)
    ensures var u := CompileUnit(e, source);
            && Valid(u)
            && forall i :: 0 <= i < |u.fixups| ==>
                 u.fixups[i].0 < |u.code| && u.fixups[i].1 < |u.labels| &&
                 u.fixups[i].0 < u.labels[u.fixups[i].1] <= |u.code|
  {
    var start := Unit([], [source], [], [], false);
    DispatchGrows(start, e, LocRslt, false, UntaggedRtn, NoneRemaining);
    var u := CompileUnit(e, source);
    forall i | 0 <= i < |u.fixups| ensures u.fixups[i].1 < |u.labels| && u.fixups[i].0 < u.labels[u.fixups[i].1] <= |u.code| {
      assert Forward(start, u, {}, i);
    }
  }
}
