/**
 Every emission form of a literal, a transfer or a lookup has the same effect,
 "dest := value", touching at most the result register besides
 (rosette/src/Compile.cc:327-447 and 541-636).

 `Assigned` states that effect for all kinds of destinations.  There is one lemma for each form that
 the emitters choose between: immediate and pooled literals, short and long register numbers, and
 the detour through the result register for destinations that are named in the literal vector.
 */
module Leaves {
  import opened Codec
  import opened Wrappers
  import opened Vm
  import Schedule
  import opened Compile
  import opened Meaning
  import opened Linking

  // The machine is about to run what is emitted next after u.
  ghost predicate At(u: Unit, s: State) {
    s.status == Running && s.pc == |u.code|
  }

  // Destinations that the instruction set can address.
  ghost predicate Addressable(s: State, dest: Location) {
    match dest
    case ArgReg(i) => i < |s.args| && i < 256
    case CtxtReg(r) => r < NUMBER_OF_CTXT_REGS && r != ARGVEC
    case Limbo => false
    case _ => true
  }

  // Destinations that the machine can store into: store reports every write to a global as a failure
  // (rosette/src/Location.cc:87-91).
  ghost predicate Storable(s: State, dest: Location) {
    Addressable(s, dest) && !dest.GlobalVar?
  }

  ghost predicate OtherRegs(s: State, t: State, dest: Location) {
    forall r :: 1 <= r < NUMBER_OF_CTXT_REGS && dest != CtxtReg(r) ==> t.regs[r] == s.regs[r]
  }

  // t is s with dest set to v, up to the result register.
  ghost predicate Assigned(s: State, t: State, dest: Location, v: Val) {
    && t.status == Running
    && t.args == (if dest.ArgReg? && dest.i < |s.args| then s.args[dest.i := v] else s.args)
    && t.cells == (if IsVariable(dest) then SetCell(s.cells, Cell(s.regs[ENV], dest), v) else s.cells)
    && OtherRegs(s, t, dest)
    && (dest.CtxtReg? && dest.r < NUMBER_OF_CTXT_REGS ==> t.regs[dest.r] == v)
  }

  predicate IsVariable(dest: Location) {
    dest.LexVar? || dest.AddrVar? || dest.GlobalVar?
  }

  // What the emitted forms do for any addressable destination.
  ghost predicate Delivered(s: State, t: State, dest: Location, v: Val) {
    if dest.GlobalVar? then t.status == Fault else Assigned(s, t, dest, v)
  }

  // ------------------------------------------------------------------
  // Running one or two deposited instructions
  // ------------------------------------------------------------------

  lemma One(mc: Machine, p: Program, f: Unit, u: Unit, i: Instr, s: State)
    requires Valid(u) && Legal(i) && Extends(Deposit(u, i), f) && Linked(f, p) && At(u, s)
    ensures Reaches(mc, p, s, Exec(mc, p, i, s.(pc := |Deposit(u, i).code|)))
  {
    hide Decode, Exec, Reaches, Legal, Linked, Extends, Valid;
    FetchPlain(u, i, f, p);
    ReachesExec(mc, p, s, i, |Encode(i)|);
  }

  lemma Two(mc: Machine, p: Program, f: Unit, u: Unit, i: Instr, j: Instr, s: State, m: State)
    requires Valid(u) && Legal(i) && Legal(j) && Extends(Deposit(Deposit(u, i), j), f) && Linked(f, p) && At(u, s)
    requires m == Exec(mc, p, i, s.(pc := |Deposit(u, i).code|)) && At(Deposit(u, i), m)
    ensures Reaches(mc, p, s, Exec(mc, p, j, m.(pc := |Deposit(Deposit(u, i), j).code|)))
  {
    var u1 := Deposit(u, i);
    DepositExtends(u, i);
    DepositExtends(u1, j);
    ExtendsTrans(u1, Deposit(u1, j), f);
    One(mc, p, f, u, i, s);
    One(mc, p, f, u1, j, m);
    ReachesTrans(mc, p, s, m, Exec(mc, p, j, m.(pc := |Deposit(u1, j).code|)));
  }

  // dest := rslt, for a destination other than a register of the context.
  lemma HomeArg(mc: Machine, p: Program, f: Unit, u: Unit, s: State, a: nat) returns (t: State)
    requires Valid(u) && At(u, s) && Linked(f, p) && a < |s.args| && a < 256
    requires Extends(RsltToDest(u, ArgReg(a)), f)
    ensures Reaches(mc, p, s, t) && t.pc == |RsltToDest(u, ArgReg(a)).code|
    ensures Assigned(s, t, ArgReg(a), s.regs[RSLT])
  {
    var j := F0(OP_XFER_RSLT_TO_ARG, a, NoExt);
    One(mc, p, f, u, j, s);
    t := Exec(mc, p, j, s.(pc := |Deposit(u, j).code|));
  }

  lemma HomeVar(mc: Machine, p: Program, f: Unit, u: Unit, s: State, dest: Location) returns (t: State)
    requires Valid(u) && At(u, s) && Linked(f, p) && IsVariable(dest)
    requires Extends(RsltToDest(u, dest), f)
    ensures Reaches(mc, p, s, t) && t.pc == |RsltToDest(u, dest).code|
    ensures Delivered(s, t, dest, s.regs[RSLT])
  {
    var off := Offset(u, Atom(dest));
    var u1 := Extend(u, Atom(dest));
    var j := F0(OP_XFER_RSLT_TO_DEST, off, NoExt);
    assert Valid(u1) && LitLoc(p, off) == dest && off < 256 by {
      ExtendExtends(u, Atom(dest));
      DepositExtends(u1, j);
      ExtendsTrans(u1, Deposit(u1, j), f);
      OffsetStays(u, Atom(dest), f);
    }
    assert RsltToDest(u, dest) == Deposit(u1, j) && s.status == Running;
    t := Exec(mc, p, j, s.(pc := |Deposit(u1, j).code|));
    hide *;
    ExecToDest(mc, p, off, s, dest, |Deposit(u1, j).code|);
    One(mc, p, f, u1, j, s);
  }

  lemma ExecToDest(mc: Machine, p: Program, off: nat, s: State, dest: Location, n: nat)
    requires off < 256 && LitLoc(p, off) == dest && IsVariable(dest) && s.status == Running
    ensures Legal(F0(OP_XFER_RSLT_TO_DEST, off, NoExt))
    ensures var t := Exec(mc, p, F0(OP_XFER_RSLT_TO_DEST, off, NoExt), s.(pc := n));
            t.pc == n && Delivered(s, t, dest, s.regs[RSLT])
  {
    hide LitLoc;
  }

  lemma Home(mc: Machine, p: Program, f: Unit, u: Unit, s: State, dest: Location) returns (t: State)
    requires Valid(u) && At(u, s) && Linked(f, p) && Addressable(s, dest) && !dest.CtxtReg?
    requires Extends(RsltToDest(u, dest), f)
    ensures Reaches(mc, p, s, t) && t.pc == |RsltToDest(u, dest).code|
    ensures Delivered(s, t, dest, s.regs[RSLT])
  {
    if dest.ArgReg? {
      t := HomeArg(mc, p, f, u, s, dest.i);
    } else {
      t := HomeVar(mc, p, f, u, s, dest);
    }
  }

  lemma HomeExtends(u: Unit, dest: Location)
    requires Valid(u)
    ensures Valid(RsltToDest(u, dest)) && Extends(u, RsltToDest(u, dest))
  {
    ExtendExtends(u, Atom(dest));
    var u1 := Extend(u, Atom(dest));
    var j := F0(OP_XFER_RSLT_TO_DEST, Offset(u, Atom(dest)), NoExt);
    DepositExtends(u1, j);
    ExtendsTrans(u, u1, Deposit(u1, j));
  }

  // The state after an instruction that loads v into the result register.
  function Loaded(s: State, pc: nat, v: Val): State {
    s.(pc := pc, regs := s.regs[RSLT := v])
  }

  // rslt := v; dest := rslt
  lemma ThroughRslt(mc: Machine, p: Program, f: Unit, u: Unit, i: Instr, s: State, v: Val, dest: Location)
    returns (t: State)
    requires Valid(u) && Legal(i) && !dest.CtxtReg? && Addressable(s, dest) && At(u, s) && Linked(f, p)
    requires Exec(mc, p, i, s.(pc := |Deposit(u, i).code|)) == Loaded(s, |Deposit(u, i).code|, v)
    requires Extends(RsltToDest(Deposit(u, i), dest), f)
    ensures Reaches(mc, p, s, t) && t.pc == |RsltToDest(Deposit(u, i), dest).code| && Delivered(s, t, dest, v)
  {
    var u1 := Deposit(u, i);
    var m := Loaded(s, |u1.code|, v);
    DepositExtends(u, i);
    HomeExtends(u1, dest);
    ExtendsTrans(u1, RsltToDest(u1, dest), f);
    One(mc, p, f, u, i, s);
    t := Home(mc, p, f, u1, m, dest);
    ReachesTrans(mc, p, s, m, t);
  }

  // Depositing and extending the literal vector commute.
  lemma Commute(u: Unit, i: Instr, v: Val)
    ensures Deposit(Extend(u, v), i) == Extend(Deposit(u, i), v) && Offset(Deposit(u, i), v) == Offset(u, v)
  {
  }

  // One instruction that stores v into dest.
  lemma Direct(mc: Machine, p: Program, f: Unit, u: Unit, i: Instr, dest: Location, v: Val, s: State)
    returns (t: State)
    requires Valid(u) && Legal(i) && Extends(Deposit(u, i), f) && Linked(f, p) && At(u, s) && Storable(s, dest)
    requires Exec(mc, p, i, s.(pc := |Deposit(u, i).code|)) == Store(s.(pc := |Deposit(u, i).code|), dest, v)
    ensures Reaches(mc, p, s, t) && t.pc == |Deposit(u, i).code| && Assigned(s, t, dest, v)
  {
    One(mc, p, f, u, i, s);
    t := Store(s.(pc := |Deposit(u, i).code|), dest, v);
  }

  // ------------------------------------------------------------------
  // Literals
  // ------------------------------------------------------------------

  lemma LitImmediate(mc: Machine, p: Program, f: Unit, u: Unit, dest: Location, v: Val, s: State)
    returns (t: State)
    requires Valid(u) && Extends(EmitLit(u, dest, v), f) && Linked(f, p) && At(u, s) && Addressable(s, dest)
    requires Immediate(v).Some?
    ensures Reaches(mc, p, s, t) && t.pc == |EmitLit(u, dest, v).code| && Delivered(s, t, dest, v)
  {
    var n := Immediate(v).value;
    assert n < 12 && Literal(n) == v;
    if dest.ArgReg? {
      t := Direct(mc, p, f, u, F2(OP_IMMEDIATE_LIT_TO_ARG, n, dest.i), dest, v, s);
    } else if dest.CtxtReg? {
      t := Direct(mc, p, f, u, F2(OP_IMMEDIATE_LIT_TO_REG, n, dest.r), dest, v, s);
    } else {
      var i := F2(OP_IMMEDIATE_LIT_TO_REG, n, RSLT);
      Commute(u, i, Atom(dest));
      t := ThroughRslt(mc, p, f, u, i, s, v, dest);
    }
  }

  lemma LitShort(mc: Machine, p: Program, f: Unit, u: Unit, off: nat, dest: Location, s: State) returns (t: State)
    requires Valid(u) && Extends(EmitIndLit(u, off, dest), f) && Linked(f, p) && At(u, s) && Storable(s, dest)
    requires off < 128 && (dest == LocRslt || (off < 16 && (dest.ArgReg? ==> dest.i < 16) && (dest.ArgReg? || dest.CtxtReg?)))
    ensures Reaches(mc, p, s, t) && t.pc == |EmitIndLit(u, off, dest).code| && Assigned(s, t, dest, Lit(p, off))
  {
    var i := if dest == LocRslt then F0(OP_IND_LIT_TO_RSLT, off, NoExt)
             else if dest.ArgReg? then F1(OP_IND_LIT_TO_ARG, dest.i, off)
             else F1(OP_IND_LIT_TO_REG, dest.r, off);
    t := Direct(mc, p, f, u, i, dest, Lit(p, off), s);
  }

  lemma LitToReg(mc: Machine, p: Program, f: Unit, u: Unit, off: nat, r: nat, s: State) returns (t: State)
    requires Valid(u) && Extends(EmitIndLit(u, off, CtxtReg(r)), f) && Linked(f, p) && At(u, s)
    requires Storable(s, CtxtReg(r)) && 16 <= off < 128 && r != RSLT
    ensures Reaches(mc, p, s, t) && t.pc == |EmitIndLit(u, off, CtxtReg(r)).code|
    ensures Assigned(s, t, CtxtReg(r), Lit(p, off))
  {
    var load, j := F0(OP_IND_LIT_TO_RSLT, off, NoExt), F0(OP_XFER_RSLT_TO_REG, r, NoExt);
    var m := Loaded(s, |Deposit(u, load).code|, Lit(p, off));
    Two(mc, p, f, u, load, j, s, m);
    t := Exec(mc, p, j, m.(pc := |Deposit(Deposit(u, load), j).code|));
  }

  lemma LitIndirect(mc: Machine, p: Program, f: Unit, u: Unit, dest: Location, v: Val, s: State)
    returns (t: State)
    requires Valid(u) && Extends(EmitLit(u, dest, v), f) && Linked(f, p) && At(u, s) && Addressable(s, dest)
    requires Immediate(v).None?
    ensures Reaches(mc, p, s, t) && t.pc == |EmitLit(u, dest, v).code| && Delivered(s, t, dest, v)
  {
    var u0, off := Extend(u, v), Offset(u, v);
    assert Valid(u0) && Lit(p, off) == v && off < 128 by {
      ExtendExtends(u, v);
      LitExtends(u0, off, dest);
      ExtendsTrans(u0, EmitIndLit(u0, off, dest), f);
      OffsetStays(u, v, f);
    }
    if dest == LocRslt || (off < 16 && ((dest.ArgReg? && dest.i < 16) || dest.CtxtReg?)) {
      t := LitShort(mc, p, f, u0, off, dest, s);
    } else if dest.CtxtReg? {
      t := LitToReg(mc, p, f, u0, off, dest.r, s);
    } else {
      t := ThroughRslt(mc, p, f, u0, F0(OP_IND_LIT_TO_RSLT, off, NoExt), s, v, dest);
    }
  }

  // The indirect forms after the literal vector has been extended.
  lemma LitExtends(u0: Unit, off: nat, dest: Location)
    requires Valid(u0)
    ensures var load := F0(OP_IND_LIT_TO_RSLT, off, NoExt);
            && Extends(u0, Deposit(u0, load))
            && Valid(RsltToDest(Deposit(u0, load), dest)) && Extends(u0, RsltToDest(Deposit(u0, load), dest))
    ensures dest.ArgReg? ==> Extends(u0, Deposit(u0, F1(OP_IND_LIT_TO_ARG, dest.i, off)))
    ensures dest.CtxtReg? ==> Extends(u0, Deposit(u0, F1(OP_IND_LIT_TO_REG, dest.r, off)))
  {
    var u1 := Deposit(u0, F0(OP_IND_LIT_TO_RSLT, off, NoExt));
    DepositExtends(u0, F0(OP_IND_LIT_TO_RSLT, off, NoExt));
    HomeExtends(u1, dest);
    ExtendsTrans(u0, u1, RsltToDest(u1, dest));
  }

  lemma LitRuns(mc: Machine, p: Program, f: Unit, u: Unit, dest: Location, v: Val, s: State) returns (t: State)
    requires Valid(u) && Extends(EmitLit(u, dest, v), f) && Linked(f, p) && At(u, s) && Addressable(s, dest)
    ensures Reaches(mc, p, s, t) && t.pc == |EmitLit(u, dest, v).code| && Delivered(s, t, dest, v)
    ensures Assigned(s, t, dest, v) <==> !dest.GlobalVar?
  {
    if Immediate(v).Some? {
      t := LitImmediate(mc, p, f, u, dest, v, s);
    } else {
      t := LitIndirect(mc, p, f, u, dest, v, s);
    }
  }

  // ------------------------------------------------------------------
  // Transfers
  // ------------------------------------------------------------------

  lemma GlobalRuns(mc: Machine, p: Program, f: Unit, u: Unit, dest: Location, g: nat, s: State) returns (t: State)
    requires Valid(u) && Extends(EmitGlobalXfer(u, dest, g), f) && Linked(f, p) && At(u, s) && Storable(s, dest)
    requires g < 65536 && (dest.CtxtReg? || dest.ArgReg?)
    ensures Reaches(mc, p, s, t) && t.pc == |EmitGlobalXfer(u, dest, g).code|
    ensures Assigned(s, t, dest, Fetch(s, GlobalVar(g)))
  {
    var i := if dest.CtxtReg? then F0(OP_XFER_GLOBAL_TO_REG, dest.r, E1(g))
             else F0(OP_XFER_GLOBAL_TO_ARG, dest.i, E1(g));
    t := Direct(mc, p, f, u, i, dest, Fetch(s, GlobalVar(g)), s);
  }

  lemma LexRuns(mc: Machine, p: Program, f: Unit, u: Unit, dest: Location, src: Location, s: State)
    returns (t: State)
    requires src.LexVar? && src.level < 8 && src.off < 16
    requires Valid(u) && Extends(EmitLexXfer(u, dest, src), f) && Linked(f, p) && At(u, s) && Addressable(s, dest)
    ensures Reaches(mc, p, s, t) && t.pc == |EmitLexXfer(u, dest, src).code| && Delivered(s, t, dest, Fetch(s, src))
  {
    var v := Fetch(s, src);
    if dest.CtxtReg? {
      t := Direct(mc, p, f, u, F7(OP_XFER_LEX_TO_REG, src.ind, src.level, src.off, dest.r), dest, v, s);
    } else if dest.ArgReg? && dest.i < 16 {
      t := Direct(mc, p, f, u, F7(OP_XFER_LEX_TO_ARG, src.ind, src.level, src.off, dest.i), dest, v, s);
    } else {
      var i := F7(OP_XFER_LEX_TO_REG, src.ind, src.level, src.off, RSLT);
      Commute(u, i, Atom(dest));
      t := ThroughRslt(mc, p, f, u, i, s, v, dest);
    }
  }

  lemma ArgRuns(mc: Machine, p: Program, f: Unit, u: Unit, d: nat, a: nat, s: State) returns (t: State)
    requires Valid(u) && Extends(EmitXfer(u, ArgReg(d), ArgReg(a)), f) && Linked(f, p) && At(u, s)
    requires d < |s.args| && d < 256 && a < |s.args| && a < 256
    ensures Reaches(mc, p, s, t) && t.pc == |EmitXfer(u, ArgReg(d), ArgReg(a)).code|
    ensures Assigned(s, t, ArgReg(d), s.args[a])
  {
    if a == d {
      ReachesSelf(mc, p, s);
      t := s;
    } else if a < 16 && d < 16 {
      t := Direct(mc, p, f, u, F1(OP_XFER_ARG_TO_ARG, d, a), ArgReg(d), s.args[a], s);
    } else {
      t := ThroughRslt(mc, p, f, u, F0(OP_XFER_ARG_TO_RSLT, a, NoExt), s, s.args[a], ArgReg(d));
    }
  }

  // A source that is readable at this point.
  ghost predicate Readable(s: State, src: Location) {
    match src
    case ArgReg(a) => a < |s.args| && a < 256
    case CtxtReg(r) => r < NUMBER_OF_CTXT_REGS
    case GlobalVar(g) => g < 65536
    case Limbo => false
    case _ => true
  }

  lemma ToRsltRuns(mc: Machine, p: Program, f: Unit, u: Unit, src: Location, s: State) returns (t: State)
    requires Valid(u) && Extends(EmitXfer(u, LocRslt, src), f) && Linked(f, p) && At(u, s) && Readable(s, src)
    requires !src.GlobalVar? && src != LocRslt && !(src.LexVar? && src.level < 8 && src.off < 16)
    ensures Reaches(mc, p, s, t) && t.pc == |EmitXfer(u, LocRslt, src).code|
    ensures Assigned(s, t, LocRslt, Fetch(s, src))
  {
    var v := Fetch(s, src);
    if src.ArgReg? {
      t := Direct(mc, p, f, u, F0(OP_XFER_ARG_TO_RSLT, src.i, NoExt), LocRslt, v, s);
    } else if src.CtxtReg? {
      t := Direct(mc, p, f, u, F0(OP_XFER_REG_TO_RSLT, src.r, NoExt), LocRslt, v, s);
    } else {
      var off := Offset(u, Atom(src));
      var u0 := Extend(u, Atom(src));
      assert Valid(u0) && LitLoc(p, off) == src && off < 128 by {
        ExtendExtends(u, Atom(src));
        DepositExtends(u0, F0(OP_XFER_SRC_TO_RSLT, off, NoExt));
        ExtendsTrans(u0, Deposit(u0, F0(OP_XFER_SRC_TO_RSLT, off, NoExt)), f);
        OffsetStays(u, Atom(src), f);
      }
      t := Direct(mc, p, f, u0, F0(OP_XFER_SRC_TO_RSLT, off, NoExt), LocRslt, v, s);
    }
  }

  lemma GenericExtends(u: Unit, src: Location, dest: Location, f: Unit)
    requires Valid(u) && !f.aborted
    requires var u1 := Extend(u, Atom(src)); var w := Extend(u1, Atom(dest));
             Extends(Deposit(Deposit(w, F0(OP_XFER_SRC_TO_RSLT, Offset(u, Atom(src)), NoExt)),
                             F0(OP_XFER_RSLT_TO_DEST, Offset(u1, Atom(dest)), NoExt)), f)
    ensures var u1 := Extend(u, Atom(src)); var w := Extend(u1, Atom(dest));
            && Valid(w) && Offset(u, Atom(src)) < 128 && Offset(u1, Atom(dest)) < 128
            && |f.lits| > Offset(u, Atom(src)) && f.lits[Offset(u, Atom(src))] == Atom(src)
            && |f.lits| > Offset(u1, Atom(dest)) && f.lits[Offset(u1, Atom(dest))] == Atom(dest)
  {
    var u1 := Extend(u, Atom(src));
    var w := Extend(u1, Atom(dest));
    var i := F0(OP_XFER_SRC_TO_RSLT, Offset(u, Atom(src)), NoExt);
    var j := F0(OP_XFER_RSLT_TO_DEST, Offset(u1, Atom(dest)), NoExt);
    ExtendExtends(u, Atom(src));
    ExtendExtends(u1, Atom(dest));
    DepositExtends(w, i);
    DepositExtends(Deposit(w, i), j);
    ExtendsTrans(w, Deposit(w, i), Deposit(Deposit(w, i), j));
    ExtendsTrans(w, Deposit(Deposit(w, i), j), f);
    ExtendsTrans(u1, w, f);
    OffsetStays(u, Atom(src), f);
    OffsetStays(u1, Atom(dest), f);
  }

  lemma GenericRuns(mc: Machine, p: Program, f: Unit, u: Unit, dest: Location, src: Location, s: State)
    returns (t: State)
    requires Valid(u) && Extends(EmitXfer(u, dest, src), f) && Linked(f, p) && At(u, s)
    requires Readable(s, src) && Addressable(s, dest)
    requires !src.GlobalVar? && src != dest && !(src.LexVar? && src.level < 8 && src.off < 16)
    requires !(src.ArgReg? && dest.ArgReg?) && dest != LocRslt
    ensures Reaches(mc, p, s, t) && t.pc == |EmitXfer(u, dest, src).code| && Delivered(s, t, dest, Fetch(s, src))
  {
    var u1 := Extend(u, Atom(src));
    var w := Extend(u1, Atom(dest));
    var i := F0(OP_XFER_SRC_TO_RSLT, Offset(u, Atom(src)), NoExt);
    var j := F0(OP_XFER_RSLT_TO_DEST, Offset(u1, Atom(dest)), NoExt);
    assert Valid(w) && LitLoc(p, i.x) == src && LitLoc(p, j.x) == dest && i.x < 256 && j.x < 256 by {
      GenericExtends(u, src, dest, f);
    }
    assert EmitXfer(u, dest, src) == Deposit(Deposit(w, i), j);
    var v := Fetch(s, src);
    var m := Loaded(s, |Deposit(w, i).code|, v);
    t := Store(m.(pc := |Deposit(Deposit(w, i), j).code|), dest, v);
    SrcToRslt(mc, p, i.x, src, s.(pc := |Deposit(w, i).code|));
    RsltToLit(mc, p, j.x, dest, m.(pc := |Deposit(Deposit(w, i), j).code|));
    Stored(s, m.(pc := |Deposit(Deposit(w, i), j).code|), dest, v);
    hide Extends, Linked, Valid, Reaches, Decode, EmitXfer, Exec, Store, Fetch, Delivered;
    Two(mc, p, f, w, i, j, s, m);
  }

  lemma SrcToRslt(mc: Machine, p: Program, off: nat, src: Location, s: State)
    requires LitLoc(p, off) == src
    ensures Exec(mc, p, F0(OP_XFER_SRC_TO_RSLT, off, NoExt), s) == Loaded(s, s.pc, Fetch(s, src))
  {
  }

  lemma RsltToLit(mc: Machine, p: Program, off: nat, dest: Location, s: State)
    requires LitLoc(p, off) == dest
    ensures Exec(mc, p, F0(OP_XFER_RSLT_TO_DEST, off, NoExt), s) == Store(s, dest, s.regs[RSLT])
  {
  }

  // Storing v after loading the result register.
  lemma Stored(s: State, m: State, dest: Location, v: Val)
    requires Addressable(s, dest) && m == Loaded(s, m.pc, v) && s.status == Running
    ensures Delivered(s, Store(m, dest, v), dest, v) && Store(m, dest, v).pc == m.pc
  {
  }

  // emitXfer moves the source to the destination, whichever form it picks, unless that is a global.
  // (A global source sent anywhere but to a register is another exception: see module Defects.)
  lemma XferRuns(mc: Machine, p: Program, f: Unit, u: Unit, dest: Location, src: Location, s: State)
    returns (t: State)
    requires Valid(u) && Extends(EmitXfer(u, dest, src), f) && Linked(f, p) && At(u, s)
    requires Readable(s, src) && Addressable(s, dest)
    requires src.GlobalVar? ==> dest.CtxtReg? || dest.ArgReg?
    ensures Reaches(mc, p, s, t) && t.pc == |EmitXfer(u, dest, src).code| && Delivered(s, t, dest, Fetch(s, src))
    ensures Assigned(s, t, dest, Fetch(s, src)) <==> !dest.GlobalVar?
  {
    if src == dest {
      ReachesSelf(mc, p, s);
      t := s;
    } else if src.GlobalVar? {
      t := GlobalRuns(mc, p, f, u, dest, src.g, s);
    } else if src.LexVar? && src.level < 8 && src.off < 16 {
      t := LexRuns(mc, p, f, u, dest, src, s);
    } else if src.ArgReg? && dest.ArgReg? {
      t := ArgRuns(mc, p, f, u, dest.i, src.i, s);
    } else if dest == LocRslt {
      t := ToRsltRuns(mc, p, f, u, src, s);
    } else {
      t := GenericRuns(mc, p, f, u, dest, src, s);
    }
  }

  // ------------------------------------------------------------------
  // Lookups
  // ------------------------------------------------------------------

  // The literal vector entry and defer bit of a lookup instruction.
  lemma LookupOperand(u: Unit, sym: Val, deferred: bool, f: Unit, p: Program, s: State, mc: Machine)
    requires Valid(u) && Extends(Extend(u, sym), f) && Linked(f, p)
    ensures var b := Offset(u, sym) + if deferred then LOOKUP_DEFER_MASK else 0;
            b < 256 && Lookup(mc, p, s, b) == mc.lookup(s.regs[SELF_ENV], sym, deferred)
  {
    OffsetStays(u, sym, f);
  }

  // The lookup instruction, and whether its result needs a second one.
  function LookupInstr(dest: Location, b: nat): Instr {
    match dest
    case CtxtReg(r) => F2(OP_LOOKUP_TO_REG, r, b)
    case ArgReg(a) => if a < 16 then F2(OP_LOOKUP_TO_ARG, a, b) else F2(OP_LOOKUP_TO_REG, RSLT, b)
    case _ => F2(OP_LOOKUP_TO_REG, RSLT, b)
  }

  predicate AtOnce(dest: Location) {
    dest.CtxtReg? || (dest.ArgReg? && dest.i < 16)
  }

  lemma LookupCode(u: Unit, dest: Location, sym: Val, deferred: bool)
    ensures var b := Offset(u, sym) + if deferred then LOOKUP_DEFER_MASK else 0;
            var u1 := Deposit(Extend(u, sym), LookupInstr(dest, b));
            EmitLookup(u, dest, sym, deferred) == if AtOnce(dest) then u1 else RsltToDest(u1, dest)
  {
    var b := Offset(u, sym) + if deferred then LOOKUP_DEFER_MASK else 0;
    Commute(Extend(u, sym), LookupInstr(dest, b), Atom(dest));
  }

  lemma LookupExtends(u: Unit, dest: Location, sym: Val, deferred: bool, f: Unit)
    requires Valid(u) && Extends(EmitLookup(u, dest, sym, deferred), f)
    ensures var b := Offset(u, sym) + if deferred then LOOKUP_DEFER_MASK else 0;
            && Valid(Extend(u, sym)) && Extends(Extend(u, sym), f)
            && Extends(Deposit(Extend(u, sym), LookupInstr(dest, b)), f)
  {
    var u0 := Extend(u, sym);
    var b := Offset(u, sym) + if deferred then LOOKUP_DEFER_MASK else 0;
    var u1 := Deposit(u0, LookupInstr(dest, b));
    ExtendExtends(u, sym);
    DepositExtends(u0, LookupInstr(dest, b));
    HomeExtends(u1, dest);
    LookupCode(u, dest, sym, deferred);
    hide *;
    if !AtOnce(dest) {
      ExtendsTrans(u1, RsltToDest(u1, dest), f);
    }
    ExtendsTrans(u0, u1, f);
  }

  // A lookup stores what it finds, or faults if there is no binding.
  lemma LookupFails(mc: Machine, p: Program, f: Unit, u: Unit, i: Instr, b: nat, s: State)
    requires Valid(u) && Extends(Deposit(u, i), f) && Linked(f, p) && At(u, s)
    requires i.F2? && (i.op == OP_LOOKUP_TO_REG || i.op == OP_LOOKUP_TO_ARG) && i.b == b < 256 && i.a < 16
    requires forall m: State :: m.regs[SELF_ENV] == s.regs[SELF_ENV] ==> Lookup(mc, p, m, b) == None
    ensures Reaches(mc, p, s, Failed(s.(pc := |Deposit(u, i).code|)))
  {
    hide Extends, Linked, Valid, Reaches, Decode, Lookup;
    One(mc, p, f, u, i, s);
  }

  lemma LookupFinds(mc: Machine, p: Program, f: Unit, u: Unit, dest: Location, b: nat, v: Val, s: State)
    returns (t: State)
    requires Valid(u) && Linked(f, p) && At(u, s) && Addressable(s, dest) && b < 256
    requires var u1 := Deposit(u, LookupInstr(dest, b)); Extends(if AtOnce(dest) then u1 else RsltToDest(u1, dest), f)
    requires forall m: State :: m.regs[SELF_ENV] == s.regs[SELF_ENV] ==> Lookup(mc, p, m, b) == Some(v)
    ensures var u1 := Deposit(u, LookupInstr(dest, b));
            && Reaches(mc, p, s, t) && t.pc == |(if AtOnce(dest) then u1 else RsltToDest(u1, dest)).code|
            && Delivered(s, t, dest, v)
  {
    hide Extends, Linked, Valid, Reaches, Decode, Lookup, RsltToDest;
    var i := LookupInstr(dest, b);
    if AtOnce(dest) {
      t := Direct(mc, p, f, u, i, dest, v, s);
    } else {
      t := ThroughRslt(mc, p, f, u, i, s, v, dest);
    }
  }

  lemma LookupRuns(mc: Machine, p: Program, f: Unit, u: Unit, dest: Location, sym: Val, deferred: bool, s: State)
    returns (t: State)
    requires Valid(u) && Extends(EmitLookup(u, dest, sym, deferred), f) && Linked(f, p) && At(u, s)
    requires Addressable(s, dest)
    ensures var v := mc.lookup(s.regs[SELF_ENV], sym, deferred);
            && Reaches(mc, p, s, t)
            && (v.None? ==> t.status == Fault)
            && (v.Some? ==> t.pc == |EmitLookup(u, dest, sym, deferred).code| && Delivered(s, t, dest, v.value))
            && (v.Some? ==> (Assigned(s, t, dest, v.value) <==> !dest.GlobalVar?))
  {
    hide Extends, Linked, Valid, Reaches, Decode, Extend, Offset, EmitLookup, Lookup, RsltToDest, Deposit, Assigned, Delivered,
         Addressable, At, LookupInstr, AtOnce, Failed;
    var u0 := Extend(u, sym);
    var b := Offset(u, sym) + if deferred then LOOKUP_DEFER_MASK else 0;
    var v := mc.lookup(s.regs[SELF_ENV], sym, deferred);
    LookupExtends(u, dest, sym, deferred, f);
    LookupFixed(u, sym, deferred, f, p, s, mc);
    LookupCode(u, dest, sym, deferred);
    LookupAt(u, sym, dest, b, s);
    if v.None? {
      LookupFails(mc, p, f, u0, LookupInstr(dest, b), b, s);
      t := Failed(s.(pc := |Deposit(u0, LookupInstr(dest, b)).code|));
      FailedFaults(s.(pc := |Deposit(u0, LookupInstr(dest, b)).code|));
    } else {
      t := LookupFinds(mc, p, f, u0, dest, b, v.value, s);
      DeliveredExact(s, t, dest, v.value);
    }
  }

  // What is looked up does not depend on the other registers.
  lemma LookupFixed(u: Unit, sym: Val, deferred: bool, f: Unit, p: Program, s: State, mc: Machine)
    requires Valid(u) && Extends(Extend(u, sym), f) && Linked(f, p)
    ensures var b := Offset(u, sym) + if deferred then LOOKUP_DEFER_MASK else 0;
            && b < 256
            && forall m: State :: m.regs[SELF_ENV] == s.regs[SELF_ENV] ==>
                 Lookup(mc, p, m, b) == mc.lookup(s.regs[SELF_ENV], sym, deferred)
  {
    hide Valid, Extends, Linked, Extend, Offset;
    LookupOperand(u, sym, deferred, f, p, s, mc);
  }

  lemma LookupAt(u: Unit, sym: Val, dest: Location, b: nat, s: State)
    requires At(u, s) && Addressable(s, dest)
    ensures At(Extend(u, sym), s)
    ensures var i := LookupInstr(dest, b);
            i.F2? && (i.op == OP_LOOKUP_TO_REG || i.op == OP_LOOKUP_TO_ARG) && i.b == b && i.a < 16
  {
  }

  lemma FailedFaults(s: State)
    ensures Failed(s).status == Fault
  {
  }

  lemma DeliveredExact(s: State, t: State, dest: Location, v: Val)
    requires Delivered(s, t, dest, v)
    ensures Assigned(s, t, dest, v) <==> !dest.GlobalVar?
  {
  }

  // ------------------------------------------------------------------
  // Immediate literals
  // ------------------------------------------------------------------

  // The values that need no literal vector are those of the machine's table.
  lemma ImmediateExact(v: Val)
    ensures Immediate(v).Some? <==> exists n: nat :: n < 12 && Literal(n) == v
    ensures Immediate(v).Some? ==> Immediate(v).value < 12 && Literal(Immediate(v).value) == v
  {
    var n := Immediate(v);
    if n.Some? {
      assert Literal(n.value) == v;
    }
  }

  // ------------------------------------------------------------------
  // Applying a primitive
  // ------------------------------------------------------------------

  function PrimInstr(dest: Location, k: nat, n: nat, unwind: bool, off: nat): Instr {
    match dest
    case CtxtReg(r) => F5(OP_APPLY_PRIM_REG, unwind, false, n, E2(k, r))
    case ArgReg(a) => F5(OP_APPLY_PRIM_ARG, unwind, false, n, E2(k, a))
    case Limbo => F5(OP_APPLY_CMD, unwind, false, n, E2(k, 0))
    case _ => F5(OP_APPLY_PRIM_TAG, unwind, false, n, E2(k, off))
  }

  lemma PrimExec(mc: Machine, p: Program, dest: Location, k: nat, n: nat, unwind: bool, off: nat, s: State, pc: nat)
    requires (Addressable(s, dest) || dest == Limbo) && s.status == Running && (IsVariable(dest) ==> LitLoc(p, off) == dest)
    ensures var msg := Actuals(s.args, n, unwind);
            var v := if msg.None? then None else mc.prim(k, msg.value);
            var t := Exec(mc, p, PrimInstr(dest, k, n, unwind, off), s.(pc := pc));
            && (v.None? ==> t.status == Fault)
            && (v.Some? ==> t.pc == pc && if dest == Limbo then t == s.(pc := pc) else Delivered(s, t, dest, v.value))
  {
    hide LitLoc, Actuals;
  }

  // emitApplyPrim delivers the primitive's result to any destination, or drops it; an error is a fault.
  lemma PrimRuns(mc: Machine, p: Program, f: Unit, u: Unit, dest: Location, k: nat, n: nat, unwind: bool, l: nat, s: State)
    returns (t: State)
    requires Valid(u) && Extends(EmitApplyPrim(u, dest, k, n, unwind, ImplicitRtn, To(l)), f) && Linked(f, p) && At(u, s)
    requires (Addressable(s, dest) || dest == Limbo) && n < 256 && k < 65536
    ensures Reaches(mc, p, s, t)
    ensures var msg := Actuals(s.args, n, unwind);
            var v := if msg.None? then None else mc.prim(k, msg.value);
            var pc := |EmitApplyPrim(u, dest, k, n, unwind, ImplicitRtn, To(l)).code|;
            && (v.None? ==> t.status == Fault)
            && (v.Some? ==> t.pc == pc && if dest == Limbo then t == s.(pc := pc) else Delivered(s, t, dest, v.value))
  {
    hide *;
    var v := IsVariable(dest);
    var u1, off := if v then Extend(u, Atom(dest)) else u, if v then Offset(u, Atom(dest)) else 0;
    var i := PrimInstr(dest, k, n, unwind, off);
    PrimEmitted(u, dest, k, n, unwind, l);
    PrimPlaced(u, dest, i, off, f, p);
    PrimLegal(s, dest, k, n, unwind, off);
    PrimAt(u, u1, s);
    One(mc, p, f, u1, i, s);
    t := Exec(mc, p, i, s.(pc := |Deposit(u1, i).code|));
    PrimExec(mc, p, dest, k, n, unwind, off, s, |Deposit(u1, i).code|);
  }

  lemma PrimAt(u: Unit, v: Unit, s: State)
    requires At(u, s) && |v.code| == |u.code|
    ensures At(v, s) && s.status == Running
  {
  }

  lemma PrimLegal(s: State, dest: Location, k: nat, n: nat, unwind: bool, off: nat)
    requires (Addressable(s, dest) || dest == Limbo) && n < 256 && k < 65536 && off < 256
    ensures Legal(PrimInstr(dest, k, n, unwind, off))
  {
  }

  lemma PrimEmitted(u: Unit, dest: Location, k: nat, n: nat, unwind: bool, l: nat)
    requires n < 256
    ensures EmitApplyPrim(u, dest, k, n, unwind, ImplicitRtn, To(l)) ==
            if IsVariable(dest) then Deposit(Extend(u, Atom(dest)), PrimInstr(dest, k, n, unwind, Offset(u, Atom(dest))))
            else Deposit(u, PrimInstr(dest, k, n, unwind, 0))
  {
    assert n % 256 == n;
  }

  lemma PrimPlaced(u: Unit, dest: Location, i: Instr, off: nat, f: Unit, p: Program)
    requires Valid(u) && Linked(f, p) && off == (if IsVariable(dest) then Offset(u, Atom(dest)) else 0)
    requires Extends(Deposit(if IsVariable(dest) then Extend(u, Atom(dest)) else u, i), f)
    ensures off < 256 && (IsVariable(dest) ==> LitLoc(p, off) == dest && Valid(Extend(u, Atom(dest))))
    ensures |Extend(u, Atom(dest)).code| == |u.code|
  {
    if IsVariable(dest) {
      var u1 := Extend(u, Atom(dest));
      ExtendExtends(u, Atom(dest));
      DepositExtends(u1, i);
      ExtendsTrans(u1, Deposit(u1, i), f);
      OffsetStays(u, Atom(dest), f);
    }
  }
}
