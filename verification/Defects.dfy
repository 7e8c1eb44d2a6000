/**
 Where the code generator falls short of its meaning, and exactly where.

 - A global transferred to anything but a register is never stored (rosette/src/Compile.cc:561-566).
 - Storing into a global is reported as a failure (rosette/src/Location.cc:87-91), so every form with
   a global as its destination faults.
 - A request with 256 arguments passes the compiler, but av_size, an 8-bit field, reads zero
   (rosette/h/Compile.h:147, rosette/src/Compile.cc:1433 and 1466-1468).
 - An address of more than ten bits does not survive patching (rosette/h/Opcode.h:278).
 */
module Defects {
  import Bits
  import opened Codec
  import opened Wrappers
  import opened Vm
  import opened Schedule
  import opened Compile
  import opened Meaning
  import opened Linking
  import opened Leaves
  import opened Growth
  import opened Plans
  import opened Correct

  // ------------------------------------------------------------------
  // Globals
  // ------------------------------------------------------------------

  // The machine takes the second instruction for the missing extension word of the first.
  lemma GlobalXferIs(u: Unit, dest: Location, g: nat)
    requires !dest.CtxtReg? && !dest.ArgReg?
    ensures EmitGlobalXfer(u, dest, g) ==
            Deposit(Extend(u, Atom(dest)),
                    F0(OP_XFER_GLOBAL_TO_REG, RSLT, E1(256 * OP_XFER_RSLT_TO_DEST + Offset(u, Atom(dest)))))
  {
    var u1, x := Extend(u, Atom(dest)), Offset(u, Atom(dest));
    var i, j := F0(OP_XFER_GLOBAL_TO_REG, RSLT, E1(g)), F0(OP_XFER_RSLT_TO_DEST, x, NoExt);
    assert Encode(j) == [Head(j)];
    assert u1.code + [Head(i)] + [Head(j)] == u1.code + [Head(i), Head(j)];
  }

  function Misread(u: Unit, dest: Location): Instr {
    F0(OP_XFER_GLOBAL_TO_REG, RSLT, E1(256 * OP_XFER_RSLT_TO_DEST + Offset(u, Atom(dest))))
  }

  lemma MisreadLegal(u: Unit, dest: Location, g: nat, f: Unit, p: Program)
    requires Valid(u) && Extends(EmitGlobalXfer(u, dest, g), f) && Linked(f, p) && !dest.CtxtReg? && !dest.ArgReg?
    ensures Legal(Misread(u, dest)) && Valid(Extend(u, Atom(dest)))
    ensures EmitGlobalXfer(u, dest, g) == Deposit(Extend(u, Atom(dest)), Misread(u, dest))
    ensures Extends(Deposit(Extend(u, Atom(dest)), Misread(u, dest)), f)
  {
    ExtendExtends(u, Atom(dest));
    GlobalXferIs(u, dest, g);
  }

  // So the destination keeps what it held, and the transfer is right only if that was the value.
  lemma GlobalXferLost(mc: Machine, p: Program, f: Unit, u: Unit, dest: Location, g: nat, s: State) returns (t: State)
    requires Valid(u) && Extends(EmitXfer(u, dest, GlobalVar(g)), f) && Linked(f, p) && At(u, s)
    requires IsVariable(dest) && dest != GlobalVar(g)
    ensures Reaches(mc, p, s, t) && t.status == Running && t.pc == |EmitXfer(u, dest, GlobalVar(g)).code|
    ensures t.cells == s.cells && t.args == s.args && Fetch(t, dest) == Fetch(s, dest)
    ensures Assigned(s, t, dest, Fetch(s, GlobalVar(g))) <==> Fetch(s, dest) == Fetch(s, GlobalVar(g))
  {
    assert EmitXfer(u, dest, GlobalVar(g)) == EmitGlobalXfer(u, dest, g);
    MisreadLegal(u, dest, g, f, p);
    var u1, i := Extend(u, Atom(dest)), Misread(u, dest);
    assert |u1.code| == |u.code|;
    hide Extends, Linked, Reaches, Decode, Extend, Offset, Encode, EmitXfer, EmitGlobalXfer, Valid, Legal;
    One(mc, p, f, u1, i, s);
    t := Exec(mc, p, i, s.(pc := |Deposit(u1, i).code|));
    Unstored(s, t, dest, Fetch(s, GlobalVar(g)));
  }

  lemma Unstored(s: State, t: State, dest: Location, v: Val)
    requires IsVariable(dest) && t.status == s.status == Running && t.cells == s.cells && t.args == s.args
    requires forall r :: 1 <= r < NUMBER_OF_CTXT_REGS ==> t.regs[r] == s.regs[r]
    ensures Fetch(t, dest) == Fetch(s, dest)
    ensures Assigned(s, t, dest, v) <==> Fetch(s, dest) == v
  {
    var c := Cell(s.regs[ENV], dest);
    assert SetCell(s.cells, c, v) == s.cells <==> (if c in s.cells then s.cells[c] else Niv) == v by {
      if c in s.cells && s.cells[c] != v {
        assert s.cells[c := v][c] == v;
      }
    }
  }

  // When a transfer is right, for every source and destination.
  ghost predicate XferWorks(s: State, dest: Location, src: Location) {
    || src == dest
    || (if src.GlobalVar? && IsVariable(dest) then Fetch(s, dest) == Fetch(s, src) else !dest.GlobalVar?)
  }

  lemma XferExact(mc: Machine, p: Program, f: Unit, u: Unit, dest: Location, src: Location, s: State)
    returns (t: State)
    requires Valid(u) && Extends(EmitXfer(u, dest, src), f) && Linked(f, p) && At(u, s)
    requires Readable(s, src) && Addressable(s, dest)
    ensures Reaches(mc, p, s, t) && t.pc == |EmitXfer(u, dest, src).code|
    ensures Assigned(s, t, dest, Fetch(s, src)) <==> XferWorks(s, dest, src)
  {
    if src == dest {
      ReachesSelf(mc, p, s);
      t := s;
      if IsVariable(dest) {
        Unstored(s, s, dest, Fetch(s, src));
      }
    } else if src.GlobalVar? && IsVariable(dest) {
      t := GlobalXferLost(mc, p, f, u, dest, src.g, s);
    } else {
      t := XferRuns(mc, p, f, u, dest, src, s);
    }
  }

  // The unit that holds a literal on its way to a global, and nothing else.
  function ToGlobal(g: nat, n: int): Unit {
    EmitLit(Unit([], [], [], [], false), GlobalVar(g), Fix(n))
  }

  // Sending 0 to global 0 faults.
  lemma GlobalDestFaults(mc: Machine, s: State) returns (t: State)
    requires s.pc == 0 && s.status == Running
    ensures Reaches(mc, Program(ToGlobal(0, 0).code, ToGlobal(0, 0).lits), s, t) && t.status == Fault
  {
    var u, f := Unit([], [], [], [], false), ToGlobal(0, 0);
    var p := Program(f.code, f.lits);
    LitQuiet(u, GlobalVar(0), Fix(0));
    t := LitRuns(mc, p, f, u, GlobalVar(0), Fix(0), s);
  }

  // ------------------------------------------------------------------
  // Requests with 256 arguments
  // ------------------------------------------------------------------

  function Consts(vs: seq<Val>): (es: seq<Expr>)
    ensures |es| == |vs| && forall i :: 0 <= i < |vs| ==> es[i] == Const(vs[i])
  {
    if vs == [] then [] else [Const(vs[0])] + Consts(vs[1..])
  }

  // A primitive applied to literals that need no place in the literal vector.
  function Flat(k: nat, vs: seq<Val>): Expr {
    Request(Prim(k), Consts(vs), None)
  }

  predicate Immediates(vs: seq<Val>) {
    forall i :: 0 <= i < |vs| ==> Immediate(vs[i]).Some?
  }

  lemma {:induction false} FlatKids(k: nat, vs: seq<Val>, ids: seq<nat>)
    requires forall i :: 0 <= i < |ids| ==> ids[i] < |vs|
    ensures forall i :: 0 <= i < |ids| ==> IsKid(Flat(k, vs), ids[i]) && Simple(Kid(Flat(k, vs), ids[i]))
    ensures Inlined(Flat(k, vs), ids) == [] && Simples(Flat(k, vs), ids) == ids
    decreases |ids|
  {
    if ids != [] {
      FlatKids(k, vs, ids[1..]);
    }
  }

  lemma FlatPlan(k: nat, vs: seq<Val>)
    ensures var e, n := Flat(k, vs), |vs|;
            && Kids(e) == Downto(n) && Plan(e) == Order([], [], n % 256) && Av(e) == n % 256
            && Simples(e, Kids(e)) == Downto(n)
            && (forall i :: 0 <= i < n ==> IsKid(e, Downto(n)[i]) && Simple(Kid(e, Downto(n)[i])))
  {
    FlatKids(k, vs, Downto(|vs|));
  }

  // Each literal takes one instruction word.
  lemma {:induction false} FlatSimples(u: Unit, k: nat, vs: seq<Val>, ids: seq<nat>)
    requires Immediates(vs) && forall i :: 0 <= i < |ids| ==> ids[i] < |vs|
    ensures forall i :: 0 <= i < |ids| ==> IsKid(Flat(k, vs), ids[i]) && Simple(Kid(Flat(k, vs), ids[i]))
    ensures var w := EmitSimples(u, Flat(k, vs), ids); |w.code| == |u.code| + |ids| && w.aborted == u.aborted
    decreases |ids|
  {
    FlatKids(k, vs, ids);
    if ids != [] {
      var last := ids[|ids| - 1];
      var e := Flat(k, vs);
      var i := F2(OP_IMMEDIATE_LIT_TO_ARG, Immediate(vs[last]).value, last);
      var u1 := EmitSimple(u, Kid(e, last), KidDest(e, last));
      assert u1 == Deposit(u, i) && |Encode(i)| == 1;
      FlatSimples(u1, k, vs, ids[..|ids| - 1]);
    }
  }

  // The unit after the literals.
  function Loaded(k: nat, vs: seq<Val>, source: Val): Unit
    requires forall i :: 0 <= i < |vs| ==> IsKid(Flat(k, vs), Downto(|vs|)[i]) && Simple(Kid(Flat(k, vs), Downto(|vs|)[i]))
  {
    EmitSimples(Opened(vs, source), Flat(k, vs), Downto(|vs|))
  }

  // The unit before the literals: an allocation, unless av_size is zero, and a label for later.
  function Opened(vs: seq<Val>, source: Val): Unit {
    NewLabel(EmitAlloc(Unit([], [source], [], [], false), |vs| % 256))
  }

  lemma FlatCode(k: nat, vs: seq<Val>, source: Val)
    requires Immediates(vs) && 0 < |vs| <= 256
    ensures forall i :: 0 <= i < |vs| ==> IsKid(Flat(k, vs), Downto(|vs|)[i]) && Simple(Kid(Flat(k, vs), Downto(|vs|)[i]))
    ensures CompileUnit(Flat(k, vs), source) ==
            EmitApplyPrim(SetLabel(Loaded(k, vs, source), 0), LocRslt, k, |vs|, false, UntaggedRtn, NoneRemaining)
    ensures |Loaded(k, vs, source).code| <= |vs| + 1 && !Loaded(k, vs, source).aborted
  {
    var e, start := Flat(k, vs), Unit([], [source], [], [], false);
    FlatPlan(k, vs);
    hide Plan, Av, Kids, Simples, EmitApplyPrim, EmitSimples, Downto;
    var u := EmitAlloc(start, |vs| % 256);
    assert EmitKids(u, e) == EmitSimplePart(u, e, [], Downto(|vs|));
    assert EmitKids(u, e) == SetLabel(EmitSimples(NewLabel(u), e, Downto(|vs|)), 0);
    FlatSimples(Opened(vs, source), k, vs, Downto(|vs|));
  }

  // The program is delivered and short.
  lemma FlatCompiles(k: nat, vs: seq<Val>, source: Val)
    requires Immediates(vs) && 0 < |vs| <= 256
    ensures CompileExpr(Flat(k, vs), source).Some? && |CompileExpr(Flat(k, vs), source).value.code| < 1024
  {
    var e := Flat(k, vs);
    FlatCode(k, vs, source);
    FlatAdmitted(k, vs);
    hide Loaded, CompileUnit, Admitted, EmitApplyPrim;
    ApplyLength(SetLabel(Loaded(k, vs, source), 0), k, |vs|);
  }

  lemma FlatAdmitted(k: nat, vs: seq<Val>)
    requires |vs| <= 256
    ensures Admitted(Flat(k, vs))
  {
    FlatPlan(k, vs);
    hide Plan;
  }

  lemma ApplyLength(u: Unit, k: nat, n: nat)
    ensures var w := EmitApplyPrim(u, LocRslt, k, n, false, UntaggedRtn, NoneRemaining);
            |w.code| <= |u.code| + 4 && w.aborted == u.aborted
  {
  }

  // With 255 arguments at most, the compiled request yields what the primitive does.
  lemma FlatRuns(mc: Machine, k: nat, vs: seq<Val>, source: Val, s: State) returns (t: State)
    requires Immediates(vs) && 0 < |vs| <= 255 && k < 65536 && s.pc == 0 && s.status == Running
    ensures CompileExpr(Flat(k, vs), source).Some?
    ensures Reaches(mc, CompileExpr(Flat(k, vs), source).value, s, t)
    ensures t.status == var v := mc.prim(k, vs); if v.Some? then Returned(v.value) else Fault
  {
    var e := Flat(k, vs);
    FlatCompiles(k, vs, source);
    FlatPlan(k, vs);
    FlatMeans(mc, ScopeOf(s), k, vs);
    hide CompileExpr, Plan;
    t := CompilerCorrect(mc, e, source, s);
  }

  lemma FlatMeans(mc: Machine, sc: Scope, k: nat, vs: seq<Val>)
    ensures Eval(mc, sc, Flat(k, vs)) == mc.prim(k, vs)
    ensures Result(mc, sc, Flat(k, vs)) == var v := mc.prim(k, vs); if v.Some? then Value(v.value) else Error
  {
    EvalAllAt(mc, sc, Consts(vs));
    var r := EvalAll(mc, sc, Consts(vs));
    forall i | 0 <= i < |vs| ensures Eval(mc, sc, Consts(vs)[i]) == Some(vs[i]) {
    }
    assert r.value == vs;
  }

  // With 256 arguments no argument vector is allocated.  The literals fill the one that is there,
  // which has fewer places (its size is an 8-bit operand), and then there is none for the next.
  lemma FlatFaults(mc: Machine, k: nat, vs: seq<Val>, source: Val, s: State) returns (t: State)
    requires Immediates(vs) && |vs| == 256 && s.pc == 0 && s.status == Running && |s.args| < 256
    ensures CompileExpr(Flat(k, vs), source).Some?
    ensures Reaches(mc, CompileExpr(Flat(k, vs), source).value, s, t) && t.status == Fault
  {
    var e, n := Flat(k, vs), |s.args|;
    FlatCompiles(k, vs, source);
    var f, p := CompileUnit(e, source), CompileExpr(e, source).value;
    ForwardLabels(e, source);
    ResolveLinks(f);
    hide Extends, Linked, Valid, Reaches, CompileUnit, CompileExpr, Opened, Flat, Lits;
    var m := LitsRun(mc, p, f, k, vs, source, s, n);
    t := LitsStep(mc, p, f, k, vs, source, m, n);
    ReachesTrans(mc, p, s, m, t);
  }

  function Lit(vs: seq<Val>, i: nat): Instr
    requires Immediates(vs) && i < |vs|
  {
    F2(OP_IMMEDIATE_LIT_TO_ARG, Immediate(vs[i]).value, i)
  }

  // The unit after the first n literals.
  function Lits(u: Unit, vs: seq<Val>, n: nat): Unit
    requires Immediates(vs) && n <= |vs|
  {
    if n == 0 then u else Deposit(Lits(u, vs, n - 1), Lit(vs, n - 1))
  }

  // As many literals as there are places are stored.
  lemma {:induction false} LitsRun(mc: Machine, p: Program, f: Unit, k: nat, vs: seq<Val>, source: Val, s: State, n: nat)
    returns (t: State)
    requires Immediates(vs) && |vs| == 256 && n <= |s.args| < 256 && s.pc == 0 && s.status == Running
    requires f == CompileUnit(Flat(k, vs), source) && Linked(f, p)
    ensures Reaches(mc, p, s, t) && At(Lits(Opened(vs, source), vs, n), t) && |t.args| == |s.args|
    decreases n
  {
    hide Linked, Reaches, CompileUnit, Flat;
    if n == 0 {
      OpenedIs(vs, source);
      t := s;
      ReachesSelf(mc, p, s);
    } else {
      hide Opened, Lits;
      var m := LitsRun(mc, p, f, k, vs, source, s, n - 1);
      t := LitsStep(mc, p, f, k, vs, source, m, n - 1);
      ReachesTrans(mc, p, s, m, t);
    }
  }

  lemma LitsStep(mc: Machine, p: Program, f: Unit, k: nat, vs: seq<Val>, source: Val, s: State, n: nat) returns (t: State)
    requires Immediates(vs) && |vs| == 256 && n < 256 && At(Lits(Opened(vs, source), vs, n), s)
    requires f == CompileUnit(Flat(k, vs), source) && Linked(f, p)
    ensures Reaches(mc, p, s, t)
    ensures n < |s.args| ==> At(Lits(Opened(vs, source), vs, n + 1), t) && |t.args| == |s.args|
    ensures n >= |s.args| ==> t.status == Fault
  {
    var u, i := Lits(Opened(vs, source), vs, n), Lit(vs, n);
    assert Lits(Opened(vs, source), vs, n + 1) == Deposit(u, i);
    hide Extends, Linked, Valid, Reaches, CompileUnit, Flat, Opened, Lits, Deposit;
    LitsFirst(k, vs, source, n);
    LitsFirst(k, vs, source, n + 1);
    hide Lit;
    One(mc, p, f, u, i, s);
    t := Exec(mc, p, i, s.(pc := |Deposit(u, i).code|));
    LitStored(mc, p, vs, s.(pc := |Deposit(u, i).code|), n);
  }

  lemma LitStored(mc: Machine, p: Program, vs: seq<Val>, s: State, n: nat)
    requires Immediates(vs) && n < |vs|
    ensures var t := Exec(mc, p, Lit(vs, n), s);
            if n < |s.args| then t.pc == s.pc && t.status == s.status && |t.args| == |s.args| else t.status == Fault
  {
  }

  // The program starts with the first n literals.
  lemma LitsFirst(k: nat, vs: seq<Val>, source: Val, n: nat)
    requires Immediates(vs) && |vs| == 256 && n <= 256
    ensures Valid(Lits(Opened(vs, source), vs, n))
    ensures Extends(Lits(Opened(vs, source), vs, n), CompileUnit(Flat(k, vs), source))
    ensures n < 256 ==> Legal(Lit(vs, n))
  {
    hide Downto, CompileUnit, EmitSimples, Loaded, EmitApplyPrim, Opened, Lits, Valid, Extends, Flat, Kid, Simple, IsKid, KidDest;
    FlatCode(k, vs, source);
    var u := Opened(vs, source);
    OpenedIs(vs, source);
    LitsValid(u, vs, n);
    LoadedLits(k, vs, source, n);
    var ids := Downto(|vs|)[..|vs| - n];
    assert forall j :: 0 <= j < |ids| ==> ids[j] == Downto(|vs|)[j];
    SimplesQuiet(Lits(u, vs, n), Flat(k, vs), ids);
    FlatRest(k, vs, source, Loaded(k, vs, source), Lits(u, vs, n));
  }

  lemma {:induction false} LitsValid(u: Unit, vs: seq<Val>, n: nat)
    requires Immediates(vs) && n <= |vs| && Valid(u)
    ensures Valid(Lits(u, vs, n)) && Lits(u, vs, n).labels == u.labels
  {
    if n > 0 {
      LitsValid(u, vs, n - 1);
      DepositExtends(Lits(u, vs, n - 1), Lit(vs, n - 1));
    }
  }

  lemma OpenedIs(vs: seq<Val>, source: Val)
    requires |vs| == 256
    ensures Valid(Opened(vs, source)) && Opened(vs, source).labels == [0] && Opened(vs, source).code == []
  {
  }

  lemma {:induction false} LoadedLits(k: nat, vs: seq<Val>, source: Val, n: nat)
    requires Immediates(vs) && n <= |vs|
    requires forall i :: 0 <= i < |vs| ==> IsKid(Flat(k, vs), Downto(|vs|)[i]) && Simple(Kid(Flat(k, vs), Downto(|vs|)[i]))
    ensures Loaded(k, vs, source) ==
            EmitSimples(Lits(Opened(vs, source), vs, n), Flat(k, vs), Downto(|vs|)[..|vs| - n])
  {
    hide Downto, Opened, Flat, Kid, KidDest, EmitSimple, IsKid, Simple, Deposit, Lit;
    var e, ids := Flat(k, vs), Downto(|vs|)[..|vs| - n];
    if n == 0 {
      assert ids == Downto(|vs|);
    } else {
      LoadedLits(k, vs, source, n - 1);
      var u, more := Lits(Opened(vs, source), vs, n - 1), Downto(|vs|)[..|vs| - (n - 1)];
      assert more[|more| - 1] == n - 1 && more[..|more| - 1] == ids;
      assert EmitSimples(u, e, more) == EmitSimples(EmitSimple(u, Kid(e, n - 1), KidDest(e, n - 1)), e, ids);
      LitEmitted(u, k, vs, n - 1);
    }
  }

  lemma LitEmitted(u: Unit, k: nat, vs: seq<Val>, i: nat)
    requires Immediates(vs) && i < |vs| && IsKid(Flat(k, vs), i) && Simple(Kid(Flat(k, vs), i))
    ensures EmitSimple(u, Kid(Flat(k, vs), i), KidDest(Flat(k, vs), i)) == Deposit(u, Lit(vs, i))
  {
  }

  lemma FlatRest(k: nat, vs: seq<Val>, source: Val, w: Unit, u1: Unit)
    requires Immediates(vs) && |vs| == 256 && Quiet(u1, w) && |w.labels| == 1 && w.labels[0] == 0
    requires CompileUnit(Flat(k, vs), source) ==
             EmitApplyPrim(SetLabel(w, 0), LocRslt, k, |vs|, false, UntaggedRtn, NoneRemaining)
    ensures Extends(u1, CompileUnit(Flat(k, vs), source))
  {
    hide CompileUnit, EmitApplyPrim;
    SetLabelExtends(w, 0);
    ApplyPrimQuiet(SetLabel(w, 0), LocRslt, k, |vs|, false, UntaggedRtn, NoneRemaining);
    ExtendsTrans(u1, w, SetLabel(w, 0));
    ExtendsTrans(u1, SetLabel(w, 0), CompileUnit(Flat(k, vs), source));
  }

  // ------------------------------------------------------------------
  // Addresses
  // ------------------------------------------------------------------

  // A patched word holds its address exactly if the address has at most ten bits.
  lemma PatchReadsBack(w: nat, addr: nat)
    requires w < Bits.WORD
    ensures Bits.GetField(Patched(w, addr), 0, 10) == addr <==> addr < 1024
  {
    hide Patched, Bits.GetField;
    var x := Patched(w, addr);
    Bits.Get(x, 0, 10, 1, 1024);
    if addr < 1024 {
      PatchedIs(w, addr);
    }
  }
}
