/**
 The code generator (rosette/src/Compile.cc) for expressions that run in one context:
 constants, symbols, requests to primitives, conditionals and sequences, with requests
 to other targets in tail position.

 A `Unit` is the state of a CompilationUnit: the words deposited so far, the literal
 vector, the label table with its fixups, and whether the compilation was aborted.
 */
module Compile {
  import Bits
  import opened Codec
  import opened Wrappers
  import opened Vm
  import opened Schedule

  // ------------------------------------------------------------------
  // Expressions
  // ------------------------------------------------------------------

  datatype Expr =
    | Const(v: Val)
    | Var(loc: Location)                 // a symbol bound at compile time
    | Free(sym: Val, deferred: bool)     // a symbol looked up at run time
    | Request(target: Target, args: seq<Expr>, rest: Option<Expr>)
    | If(cond: Expr, yes: Expr, no: Expr)
    | Seq(first: Expr, second: Expr)

  // An inlineable primitive, or any other target expression.
  datatype Target = Prim(k: nat) | Actor(e: Expr)

  // f_simpleNode
  predicate Simple(e: Expr) {
    e.Const? || e.Var? || e.Free?
  }

  // f_inlineableNode
  predicate Inlineable(e: Expr) {
    match e
    case Request(target, args, rest) =>
      target.Prim? && (forall a :: a in args ==> Inlineable(a)) && (rest.Some? ==> Inlineable(rest.value))
    case If(c, y, n) => Inlineable(c) && Inlineable(y) && Inlineable(n)
    case Seq(a, b) => Inlineable(a) && Inlineable(b)
    case _ => true
  }

  // No sub-expression suspends: requests to other targets occur in tail position only.
  predicate Tail(e: Expr) {
    match e
    case Request(target, args, rest) =>
      && (target.Actor? ==> Inlineable(target.e))
      && (forall a :: a in args ==> Inlineable(a)) && (rest.Some? ==> Inlineable(rest.value))
    case If(c, y, n) => Inlineable(c) && Tail(y) && Tail(n)
    case Seq(a, b) => Inlineable(a) && Tail(b)
    case _ => true
  }

  // Locations and primitive numbers are representable (LexVar, GlobalVar, Prim::primNumber).
  predicate Representable(e: Expr) {
    match e
    case Const(v) => true
    case Var(loc) =>
      || (loc.LexVar? && loc.level < 32 && loc.off < 16384)
      || (loc.GlobalVar? && loc.g < 65536)
    case Free(_, _) => true
    case Request(target, args, rest) =>
      && (if target.Prim? then target.k < 65536 else Representable(target.e))
      && (forall a :: a in args ==> Representable(a)) && (rest.Some? ==> Representable(rest.value))
    case If(c, y, n) => Representable(c) && Representable(y) && Representable(n)
    case Seq(a, b) => Representable(a) && Representable(b)
  }

  // ------------------------------------------------------------------
  // Attributes computed by initialize
  // ------------------------------------------------------------------

  function Max(a: nat, b: nat): nat { if a > b then a else b }

  // The sub-expressions of a request: argument i, the rest argument, the target.
  predicate IsKid(e: Expr, id: nat) {
    e.Request? && (id < |e.args| || (id == |e.args| && e.rest.Some?) || (id == |e.args| + 1 && e.target.Actor?))
  }

  function Kid(e: Expr, id: nat): (k: Expr)
    requires IsKid(e, id)
    ensures k < e
  {
    if id < |e.args| then e.args[id] else if id == |e.args| then e.rest.value else e.target.e
  }

  function KidDest(e: Expr, id: nat): Location
    requires IsKid(e, id)
  {
    if id <= |e.args| then ArgReg(id) else LocTrgt
  }

  // The sub-expressions in the order in which RequestNode::initialize analyzes them.
  function Kids(e: Expr): (ids: seq<nat>)
    requires e.Request?
    ensures forall i :: 0 <= i < |ids| ==> IsKid(e, ids[i])
  {
    (if e.target.Actor? then [|e.args| + 1] else []) +
    (if e.rest.Some? then [|e.args|] else []) +
    Downto(|e.args|)
  }

  // n - 1, ..., 0
  function Downto(n: nat): (ids: seq<nat>)
    ensures |ids| == n && forall i :: 0 <= i < n ==> ids[i] == n - 1 - i
  {
    if n == 0 then [] else [n - 1] + Downto(n - 1)
  }

  // The inlined stack after analysis of all sub-expressions.
  function Inlined(e: Expr, ids: seq<nat>): (items: seq<Item>)
    requires forall i :: 0 <= i < |ids| ==> IsKid(e, ids[i])
    ensures forall a :: 0 <= a < |items| ==> IsKid(e, items[a].id)
    decreases e, 0, |ids|
  {
    if ids == [] then [] else Entry(e, ids[0]) + Inlined(e, ids[1..])
  }

  // CompoundNode::analyze: a simple sub-expression is not inlined.
  function Entry(e: Expr, id: nat): (items: seq<Item>)
    requires IsKid(e, id)
    ensures |items| <= 1 && forall a :: 0 <= a < |items| ==> items[a].id == id
    decreases e, 0, 0
  {
    var kid := Kid(e, id);
    if Simple(kid) then [] else [Item(Av(kid), KidDest(e, id), id)]
  }

  // The simple stack, without the transfers.
  function Simples(e: Expr, ids: seq<nat>): (r: seq<nat>)
    requires forall i :: 0 <= i < |ids| ==> IsKid(e, ids[i])
    ensures forall i :: 0 <= i < |r| ==> IsKid(e, r[i]) && Simple(Kid(e, r[i]))
  {
    if ids == [] then []
    else (if Simple(Kid(e, ids[0])) then [ids[0]] else []) + Simples(e, ids[1..])
  }

  function MaxAv(items: seq<Item>, n: nat): nat {
    if items == [] then n else MaxAv(items[1..], Max(n, items[0].av))
  }

  function Arity(e: Expr): nat
    requires e.Request?
  {
    |e.args| + if e.rest.Some? then 1 else 0
  }

  // The outcome of rearrangeInlinedExprs for a request.
  function Plan(e: Expr): (o: Order)
    requires e.Request?
    ensures |o.home| == |o.items|
    decreases e, 1
  {
    var items := Inlined(e, Kids(e));
    Rearranged(items, MaxAv(items, Arity(e) % 256))
  }

  // av_size, an 8-bit field.
  function Av(e: Expr): nat
    decreases e, 2
  {
    match e
    case Request(_, _, _) => Plan(e).av % 256
    case If(c, y, n) => Max(Av(c), Max(Av(y), Av(n)))
    case Seq(a, b) => Max(Av(a), Av(b))
    case _ => 0
  }

  // No request needs more than 255 argument registers, so av_size never wraps around.
  predicate Fits(e: Expr) {
    match e
    case Request(target, args, rest) =>
      && Arity(e) <= 255 && Plan(e).av <= 255
      && (target.Actor? ==> Fits(target.e))
      && (forall a :: a in args ==> Fits(a)) && (rest.Some? ==> Fits(rest.value))
    case If(c, y, n) => Fits(c) && Fits(y) && Fits(n)
    case Seq(a, b) => Fits(a) && Fits(b)
    case _ => true
  }

  // RequestNode::initialize and ArgReg refuse argument registers above 255, for arguments and
  // for temporaries.
  predicate Admitted(e: Expr) {
    match e
    case Request(target, args, rest) =>
      && Arity(e) <= 256 && Plan(e).av <= 256
      && (target.Actor? ==> Admitted(target.e))
      && (forall a :: a in args ==> Admitted(a)) && (rest.Some? ==> Admitted(rest.value))
    case If(c, y, n) => Admitted(c) && Admitted(y) && Admitted(n)
    case Seq(a, b) => Admitted(a) && Admitted(b)
    case _ => true
  }

  // ------------------------------------------------------------------
  // The compilation unit
  // ------------------------------------------------------------------

  datatype Unit = Unit(
    code: seq<nat>,
    lits: seq<Val>,
    labels: seq<nat>,            // 0: not bound yet
    fixups: seq<(nat, nat)>,     // word address, label
    aborted: bool)

  const MAXIMUM_LITVEC_SIZE: nat := 0x7f
  const LOOKUP_DEFER_MASK: nat := 0x80

  datatype Rtn = ImplicitRtn | UntaggedRtn
  datatype Next = To(l: nat) | NoneRemaining

  function Deposit(u: Unit, i: Instr): Unit {
    u.(code := u.code + Encode(i))
  }

  function NewLabel(u: Unit): Unit {
    u.(labels := u.labels + [0])
  }

  function SetLabel(u: Unit, l: nat): Unit {
    if l < |u.labels| then u.(labels := u.labels[l := |u.code|]) else u
  }

  // emitOpAndLabel
  function Jump(u: Unit, op: nat, l: nat): Unit {
    Deposit(u.(fixups := u.fixups + [(|u.code|, l)]), F6(op, 0, NoExt))
  }

  // The highest index of v in lits[..n], searching downwards.
  function Find(lits: seq<Val>, v: Val, n: nat): (r: Option<nat>)
    requires n <= |lits|
    ensures r.Some? ==> r.value < n && lits[r.value] == v
  {
    if n == 0 then None else if lits[n - 1] == v then Some(n - 1) else Find(lits, v, n - 1)
  }

  // CompilationUnit::extendLitvec
  function Extend(u: Unit, v: Val): Unit {
    if Find(u.lits, v, |u.lits|).Some? then u
    else if |u.lits| > MAXIMUM_LITVEC_SIZE then u.(aborted := true)
    else u.(lits := u.lits + [v])
  }

  function Offset(u: Unit, v: Val): nat {
    var n := Find(u.lits, v, |u.lits|);
    if n.Some? then n.value else if |u.lits| > MAXIMUM_LITVEC_SIZE then 0 else |u.lits|
  }

  // ------------------------------------------------------------------
  // Emission
  // ------------------------------------------------------------------

  // The last n < 12 with vmLiterals[n] == v.
  function Immediate(v: Val): Option<nat> {
    match v
    case Fix(n) => if 0 <= n < 8 then Some(n) else None
    case Bool(b) => Some(if b then 8 else 9)
    case Tup(es) => if es == [] then Some(10) else None
    case Niv => Some(11)
    case _ => None
  }

  // ... XferRsltToDest through the literal vector
  function RsltToDest(u: Unit, dest: Location): Unit {
    match dest
    case ArgReg(a) => Deposit(u, F0(OP_XFER_RSLT_TO_ARG, a, NoExt))
    case CtxtReg(r) => Deposit(u, F0(OP_XFER_RSLT_TO_REG, r, NoExt))
    case _ => Deposit(Extend(u, Atom(dest)), F0(OP_XFER_RSLT_TO_DEST, Offset(u, Atom(dest)), NoExt))
  }

  // The literal at offset off of the literal vector; short forms where the operands fit.
  function EmitIndLit(u: Unit, off: nat, dest: Location): Unit {
    if dest == LocRslt then Deposit(u, F0(OP_IND_LIT_TO_RSLT, off, NoExt))
    else if off < 16 && dest.ArgReg? && dest.i < 16 then Deposit(u, F1(OP_IND_LIT_TO_ARG, dest.i, off))
    else if off < 16 && dest.CtxtReg? then Deposit(u, F1(OP_IND_LIT_TO_REG, dest.r, off))
    else RsltToDest(Deposit(u, F0(OP_IND_LIT_TO_RSLT, off, NoExt)), dest)
  }

  // AttrNode::emitLit
  function EmitLit(u: Unit, dest: Location, v: Val): Unit {
    var n := Immediate(v);
    if n.Some? then
      match dest
      case ArgReg(a) => Deposit(u, F2(OP_IMMEDIATE_LIT_TO_ARG, n.value, a))
      case CtxtReg(r) => Deposit(u, F2(OP_IMMEDIATE_LIT_TO_REG, n.value, r))
      case _ =>
        var u1 := Deposit(Extend(u, Atom(dest)), F2(OP_IMMEDIATE_LIT_TO_REG, n.value, RSLT));
        Deposit(u1, F0(OP_XFER_RSLT_TO_DEST, Offset(u, Atom(dest)), NoExt))
    else EmitIndLit(Extend(u, v), Offset(u, v), dest)
  }

  // AttrNode::emitLookup
  function EmitLookup(u: Unit, dest: Location, sym: Val, deferred: bool): Unit {
    var u0 := Extend(u, sym);
    var off := Offset(u, sym) + if deferred then LOOKUP_DEFER_MASK else 0;
    match dest
    case CtxtReg(r) => Deposit(u0, F2(OP_LOOKUP_TO_REG, r, off))
    case ArgReg(a) =>
      if a < 16 then Deposit(u0, F2(OP_LOOKUP_TO_ARG, a, off))
      else Deposit(Deposit(u0, F2(OP_LOOKUP_TO_REG, RSLT, off)), F0(OP_XFER_RSLT_TO_ARG, a, NoExt))
    case _ =>
      var u1 := Deposit(Extend(u0, Atom(dest)), F2(OP_LOOKUP_TO_REG, RSLT, off));
      Deposit(u1, F0(OP_XFER_RSLT_TO_DEST, Offset(u0, Atom(dest)), NoExt))
  }

  function EmitGlobalXfer(u: Unit, dest: Location, g: nat): Unit {
    match dest
    case CtxtReg(r) => Deposit(u, F0(OP_XFER_GLOBAL_TO_REG, r, E1(g)))
    case ArgReg(a) => Deposit(u, F0(OP_XFER_GLOBAL_TO_ARG, a, E1(g)))
    case _ =>
      // The first instruction goes out without its extension word.
      var u1 := Extend(u, Atom(dest));
      var u2 := u1.(code := u1.code + [Head(F0(OP_XFER_GLOBAL_TO_REG, RSLT, E1(g)))]);
      Deposit(u2, F0(OP_XFER_RSLT_TO_DEST, Offset(u, Atom(dest)), NoExt))
  }

  function EmitLexXfer(u: Unit, dest: Location, src: Location): Unit
    requires src.LexVar?
  {
    match dest
    case CtxtReg(r) => Deposit(u, F7(OP_XFER_LEX_TO_REG, src.ind, src.level, src.off, r))
    case ArgReg(a) =>
      if a < 16 then Deposit(u, F7(OP_XFER_LEX_TO_ARG, src.ind, src.level, src.off, a))
      else Deposit(Deposit(u, F7(OP_XFER_LEX_TO_REG, src.ind, src.level, src.off, RSLT)),
                   F0(OP_XFER_RSLT_TO_ARG, a, NoExt))
    case _ =>
      var u1 := Deposit(Extend(u, Atom(dest)), F7(OP_XFER_LEX_TO_REG, src.ind, src.level, src.off, RSLT));
      Deposit(u1, F0(OP_XFER_RSLT_TO_DEST, Offset(u, Atom(dest)), NoExt))
  }

  // AttrNode::emitXfer
  function EmitXfer(u: Unit, dest: Location, src: Location): Unit {
    if src == dest then u
    else if src.GlobalVar? then EmitGlobalXfer(u, dest, src.g)
    else if src.LexVar? && src.level < 8 && src.off < 16 then EmitLexXfer(u, dest, src)
    else if src.ArgReg? && dest.ArgReg? then
      if src.i < 16 && dest.i < 16 then Deposit(u, F1(OP_XFER_ARG_TO_ARG, dest.i, src.i))
      else Deposit(Deposit(u, F0(OP_XFER_ARG_TO_RSLT, src.i, NoExt)), F0(OP_XFER_RSLT_TO_ARG, dest.i, NoExt))
    else if dest == LocRslt then
      match src
      case ArgReg(a) => Deposit(u, F0(OP_XFER_ARG_TO_RSLT, a, NoExt))
      case CtxtReg(r) => Deposit(u, F0(OP_XFER_REG_TO_RSLT, r, NoExt))
      case _ => Deposit(Extend(u, Atom(src)), F0(OP_XFER_SRC_TO_RSLT, Offset(u, Atom(src)), NoExt))
    else
      var u1 := Extend(u, Atom(src));
      var u2 := Deposit(Extend(u1, Atom(dest)), F0(OP_XFER_SRC_TO_RSLT, Offset(u, Atom(src)), NoExt));
      Deposit(u2, F0(OP_XFER_RSLT_TO_DEST, Offset(u1, Atom(dest)), NoExt))
  }

  // AttrNode::emitAlloc
  function EmitAlloc(u: Unit, n: nat): Unit {
    if n == 0 then u else Deposit(u, F0(OP_ALLOC, n, NoExt))
  }

  // AttrNode::emitRtn
  function EmitRtn(u: Unit, dest: Location, rtn: Rtn, next: Next): Unit {
    match rtn
    case ImplicitRtn => if next.NoneRemaining? then Deposit(u, F0(OP_NXT, 0, NoExt)) else u
    case UntaggedRtn =>
      if dest == Limbo then u else Deposit(u, F5(OP_RTN, false, next.NoneRemaining?, 0, NoExt))
  }

  // AttrNode::emitApplyPrim; the number of arguments is cut to the 8 bits of its field.
  function EmitApplyPrim(u: Unit, dest: Location, k: nat, nargs: nat, unwind: bool, rtn: Rtn, next: Next): Unit {
    var n: nat := nargs % 256;
    if dest == Limbo then Deposit(u, F5(OP_APPLY_CMD, unwind, next.NoneRemaining?, n, E2(k, 0)))
    else
      var nxt := rtn.ImplicitRtn? && next.NoneRemaining?;
      var u1 :=
        match dest
        case CtxtReg(r) => Deposit(u, F5(OP_APPLY_PRIM_REG, unwind, nxt, n, E2(k, r)))
        case ArgReg(a) => Deposit(u, F5(OP_APPLY_PRIM_ARG, unwind, nxt, n, E2(k, a)))
        case _ => Deposit(Extend(u, Atom(dest)),
                          F5(OP_APPLY_PRIM_TAG, unwind, nxt, n, E2(k, Offset(u, Atom(dest)))));
      if rtn.UntaggedRtn? then EmitRtn(u1, dest, UntaggedRtn, next) else u1
  }

  // RequestNode::emitXmit; an implicit return trips its assertion.
  function EmitXmit(u: Unit, dest: Location, nargs: nat, unwind: bool, rtn: Rtn, next: Next): Unit {
    if rtn.ImplicitRtn? then u.(aborted := true)
    else Deposit(u, F5(if dest == Limbo then OP_SEND else OP_XMIT, unwind, next.NoneRemaining?, nargs % 256, NoExt))
  }

  function EmitSimple(u: Unit, e: Expr, dest: Location): Unit
    requires Simple(e)
  {
    match e
    case Const(v) => EmitLit(u, dest, v)
    case Var(loc) => EmitXfer(u, dest, loc)
    case Free(sym, deferred) => EmitLookup(u, dest, sym, deferred)
  }

  // emitSimpleExprDispatchCode runs its stack from the top: first the transfers, ...
  function EmitXfers(u: Unit, xfers: seq<(nat, Location)>): Unit
    decreases |xfers|
  {
    if xfers == [] then u
    else
      var last := xfers[|xfers| - 1];
      EmitXfers(EmitXfer(u, last.1, ArgReg(last.0)), xfers[..|xfers| - 1])
  }

  // ... then the simple sub-expressions.
  function EmitSimples(u: Unit, e: Expr, ids: seq<nat>): Unit
    requires forall i :: 0 <= i < |ids| ==> IsKid(e, ids[i]) && Simple(Kid(e, ids[i]))
    decreases |ids|
  {
    if ids == [] then u
    else
      var last := ids[|ids| - 1];
      EmitSimples(EmitSimple(u, Kid(e, last), KidDest(e, last)), e, ids[..|ids| - 1])
  }

  // emitInlinedExprDispatchCode
  function EmitInlined(u: Unit, e: Expr, items: seq<Item>, exit: nat): Unit
    requires forall a :: 0 <= a < |items| ==> IsKid(e, items[a].id)
    decreases e, 0, |items|
  {
    if items == [] then u
    else
      var kid, dest := Kid(e, items[0].id), items[0].dest;
      if |items| == 1 then EmitDispatch(u, kid, dest, true, ImplicitRtn, To(exit))
      else
        var l := |u.labels|;
        var u1 := SetLabel(EmitDispatch(NewLabel(u), kid, dest, true, ImplicitRtn, To(l)), l);
        EmitInlined(u1, e, items[1..], exit)
  }

  // The inlined part of CompoundNode::emitDispatchCode, ...
  function EmitInlinedPart(u: Unit, e: Expr, items: seq<Item>): Unit
    requires forall a :: 0 <= a < |items| ==> IsKid(e, items[a].id)
    decreases e, 0, |items| + 1
  {
    var l := |u.labels|;
    if items == [] then u else SetLabel(EmitInlined(NewLabel(u), e, items, l), l)
  }

  // ... and the simple part.
  function EmitSimplePart(u: Unit, e: Expr, xfers: seq<(nat, Location)>, ids: seq<nat>): Unit
    requires forall i :: 0 <= i < |ids| ==> IsKid(e, ids[i]) && Simple(Kid(e, ids[i]))
  {
    var l := |u.labels|;
    if xfers == [] && ids == [] then u
    else SetLabel(EmitSimples(EmitXfers(NewLabel(u), xfers), e, ids), l)
  }

  function EmitKids(u: Unit, e: Expr): Unit
    requires e.Request?
    decreases e, 1
  {
    var o := Plan(e);
    PlanKids(e);
    EmitSimplePart(EmitInlinedPart(u, e, o.items), e, Xfers(o.home, o.items, |o.items|), Simples(e, Kids(e)))
  }

  // CompoundNode::emitDispatchCode and the other emitDispatchCode functions.
  function EmitDispatch(u: Unit, e: Expr, dest: Location, argvec: bool, rtn: Rtn, next: Next): Unit
    decreases e, 2
  {
    if Simple(e) then EmitRtn(EmitSimple(u, e, dest), dest, rtn, next)
    else
      var u0 := if argvec then u else EmitAlloc(u, Av(e));
      match e
      case Request(target, args, rest) =>
        var u1 := EmitKids(u0, e);
        if target.Prim? then EmitApplyPrim(u1, dest, target.k, |args|, rest.Some?, rtn, next)
        else EmitXmit(u1, dest, |args|, rest.Some?, rtn, next)
      case If(c, _, _) => EmitBranches(EmitFirst(u0, c), e, dest, rtn, next)
      case Seq(a, b) => EmitDispatch(EmitFirst(u0, a), b, dest, true, rtn, next)
  }

  // The condition of an if, or the first part of a sequence, evaluated into the result register.
  function EmitFirst(u: Unit, c: Expr): Unit
    decreases c, 3
  {
    var l := |u.labels|;
    SetLabel(EmitDispatch(NewLabel(u), c, LocRslt, true, ImplicitRtn, To(l)), l)
  }

  // IfNode::emitWrapup
  function EmitBranches(u: Unit, e: Expr, dest: Location, rtn: Rtn, next: Next): Unit
    requires e.If?
    decreases e, 1
  {
    var no := |u.labels|;
    var u2 := EmitDispatch(Jump(NewLabel(u), OP_JMP_FALSE, no), e.yes, dest, true, rtn, next);
    var u3 := if next.To? then Jump(u2, OP_JMP, next.l) else u2;
    EmitDispatch(SetLabel(u3, no), e.no, dest, true, rtn, next)
  }

  // Every scheduled item is one of the request's sub-expressions.
  lemma PlanKids(e: Expr)
    requires e.Request?
    ensures forall a :: 0 <= a < |Plan(e).items| ==> IsKid(e, Plan(e).items[a].id)
  {
    var items := Inlined(e, Kids(e));
    IdsKept(items, MaxAv(items, Arity(e) % 256), (id: nat) => IsKid(e, id));
  }

  // CodeBuf::patchAddress
  function Patched(w: nat, addr: nat): nat {
    Bits.SetField(w, 0, 10, addr)
  }

  // LabelTable::resolveLabels
  function Resolved(code: seq<nat>, fixups: seq<(nat, nat)>, labels: seq<nat>): (r: seq<nat>)
    ensures |r| == |code|
    decreases |fixups|
  {
    if fixups == [] then code
    else
      var (loc, l) := fixups[0];
      var c := if loc < |code| && l < |labels| then code[loc := Patched(code[loc], labels[l])] else code;
      Resolved(c, fixups[1..], labels)
  }

  // CompilationUnit::create and compileExpr
  function CompileUnit(e: Expr, source: Val): Unit {
    EmitDispatch(Unit([], [source], [], [], false), e, LocRslt, false, UntaggedRtn, NoneRemaining)
  }

  function CompileExpr(e: Expr, source: Val): Option<Program> {
    var u := CompileUnit(e, source);
    if u.aborted || !Admitted(e) then None else Some(Program(Resolved(u.code, u.fixups, u.labels), u.lits))
  }
}
