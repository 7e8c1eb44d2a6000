/**
 The virtual machine, for one context (rosette/src/Vm.cc, rosette/src/Location.cc).

 A state holds the program counter, the argument vector, the ten context registers
 and the variables reachable through the environments.  Writes that fall outside the
 argument vector, illegal instructions and failing primitives or lookups end in
 `Fault`; instructions that need a second context end in `Elsewhere`.
 */
module Vm {
  import opened Codec
  import opened Wrappers

  datatype Location =
    | CtxtReg(r: nat)
    | ArgReg(i: nat)
    | LexVar(ind: bool, level: nat, off: nat)
    | GlobalVar(g: nat)
    | AddrVar(ind: bool, level: nat, off: nat)
    | Limbo

  datatype Val =
    | Fix(n: int)
    | Bool(b: bool)
    | Niv
    | Symbol(name: string)
    | Tup(elems: seq<Val>)
    | Atom(loc: Location)
    | Obj(id: nat)
    | Invalid

  const Nil: Val := Tup([])

  // Context register numbers (enum CtxtRegName).
  const RSLT: nat := 0
  const TRGT: nat := 1
  const ARGVEC: nat := 2
  const ENV: nat := 3
  const SELF_ENV: nat := 7
  const NUMBER_OF_CTXT_REGS: nat := 10

  const LocRslt: Location := CtxtReg(RSLT)
  const LocTrgt: Location := CtxtReg(TRGT)

  type Regs = r: seq<Val> | |r| == NUMBER_OF_CTXT_REGS
    witness [Niv, Niv, Niv, Niv, Niv, Niv, Niv, Niv, Niv, Niv]

  // What the machine takes from outside: primitives and symbol lookup, each of which may fail.
  datatype Machine = Machine(
    prim: (nat, seq<Val>) -> Option<Val>,
    lookup: (Val, Val, bool) -> Option<Val>)

  datatype Status =
    | Running
    | Returned(v: Val)
    | Dispatched(trgt: Val, msg: seq<Val>)
    | Fault
    | Elsewhere

  // Variables are addressed relative to an environment.
  type Cells = map<(Val, Location), Val>

  datatype State = State(pc: nat, args: seq<Val>, regs: Regs, cells: Cells, status: Status)

  datatype Program = Program(code: seq<nat>, lits: seq<Val>)

  // VirtualMachine::vmLiterals
  function Literal(n: nat): Val {
    if n < 8 then Fix(n)
    else if n == 8 then Bool(true)
    else if n == 9 then Bool(false)
    else if n == 10 then Nil
    else Niv
  }

  function Failed(s: State): State { s.(status := Fault) }

  function Cell(env: Val, loc: Location): (Val, Location) {
    (if loc.GlobalVar? then Niv else env, loc)
  }

  function Variable(env: Val, cells: Cells, loc: Location): Val {
    var c := Cell(env, loc);
    if c in cells then cells[c] else Niv
  }

  // A cell that is not in the map holds Niv.
  function SetCell(cells: Cells, c: (Val, Location), v: Val): Cells {
    if (if c in cells then cells[c] else Niv) == v then cells else cells[c := v]
  }

  function SetArg(s: State, a: nat, v: Val): State {
    if a < |s.args| then s.(args := s.args[a := v]) else Failed(s)
  }

  // Register 2 is the argument vector itself.
  function SetReg(s: State, r: nat, v: Val): State {
    if r == ARGVEC then (if v.Tup? then s.(args := v.elems) else Failed(s))
    else if r < NUMBER_OF_CTXT_REGS then s.(regs := s.regs[r := v])
    else Failed(s)
  }

  function GetReg(s: State, r: nat): Val {
    if r == ARGVEC then Tup(s.args) else if r < NUMBER_OF_CTXT_REGS then s.regs[r] else Invalid
  }

  // fetch(loc, ctxt)
  function Fetch(s: State, loc: Location): Val {
    match loc
    case CtxtReg(r) => GetReg(s, r)
    case ArgReg(i) => if i < |s.args| then s.args[i] else Invalid
    case Limbo => Invalid
    case _ => Variable(s.regs[ENV], s.cells, loc)
  }

  // store(loc, ctxt, val): storing a global reports failure, as does storing into limbo.
  function Store(s: State, loc: Location, v: Val): State {
    match loc
    case CtxtReg(r) => SetReg(s, r, v)
    case ArgReg(i) => SetArg(s, i, v)
    case GlobalVar(_) => Failed(s.(cells := SetCell(s.cells, Cell(s.regs[ENV], loc), v)))
    case Limbo => Failed(s)
    case _ => s.(cells := SetCell(s.cells, Cell(s.regs[ENV], loc), v))
  }

  function Lit(p: Program, n: nat): Val {
    if n < |p.lits| then p.lits[n] else Invalid
  }

  function LitLoc(p: Program, n: nat): Location {
    var v := Lit(p, n);
    if v.Atom? then v.loc else Limbo
  }

  // The arguments handed over: the first m, plus the elements of arg[m] when unwinding.
  function Actuals(args: seq<Val>, m: nat, unwind: bool): Option<seq<Val>> {
    if !unwind then (if m <= |args| then Some(args[..m]) else None)
    else if m < |args| && args[m].Tup? then Some(args[..m] + args[m].elems)
    else None
  }

  function ApplyPrim(mc: Machine, s: State, k: nat, m: nat, unwind: bool): Option<Val> {
    var a := Actuals(s.args, m, unwind);
    if a.None? then None else mc.prim(k, a.value)
  }

  function Lookup(mc: Machine, p: Program, s: State, b: nat): Option<Val> {
    mc.lookup(s.regs[SELF_ENV], Lit(p, b % 128), b >= 128)
  }

  function Exec0(p: Program, op: nat, x: nat, e: Ext, s: State): State {
    if op == OP_ALLOC then s.(args := seq(x, i => Niv))
    else if op == OP_XFER_GLOBAL_TO_ARG && e.E1? then SetArg(s, x, Variable(s.regs[ENV], s.cells, GlobalVar(e.g)))
    else if op == OP_XFER_GLOBAL_TO_REG && e.E1? then SetReg(s, x, Variable(s.regs[ENV], s.cells, GlobalVar(e.g)))
    else if op == OP_XFER_RSLT_TO_ARG then SetArg(s, x, s.regs[RSLT])
    else if op == OP_XFER_ARG_TO_RSLT then
      (if x < |s.args| then SetReg(s, RSLT, s.args[x]) else Failed(s))
    else if op == OP_XFER_RSLT_TO_REG then SetReg(s, x, s.regs[RSLT])
    else if op == OP_XFER_REG_TO_RSLT then SetReg(s, RSLT, GetReg(s, x))
    else if op == OP_XFER_RSLT_TO_DEST then Store(s, LitLoc(p, x), s.regs[RSLT])
    else if op == OP_XFER_SRC_TO_RSLT then SetReg(s, RSLT, Fetch(s, LitLoc(p, x)))
    else if op == OP_IND_LIT_TO_RSLT then SetReg(s, RSLT, Lit(p, x))
    else s.(status := Elsewhere)
  }

  function Exec1(p: Program, op: nat, a: nat, b: nat, s: State): State {
    if op == OP_XFER_ARG_TO_ARG then
      (if b < |s.args| then SetArg(s, a, s.args[b]) else Failed(s))
    else if op == OP_IND_LIT_TO_ARG then SetArg(s, a, Lit(p, b))
    else SetReg(s, a, Lit(p, b))
  }

  function Exec2(mc: Machine, p: Program, op: nat, a: nat, b: nat, s: State): State {
    if op == OP_LOOKUP_TO_ARG then
      var v := Lookup(mc, p, s, b);
      if v.None? then Failed(s) else SetArg(s, a, v.value)
    else if op == OP_LOOKUP_TO_REG then
      var v := Lookup(mc, p, s, b);
      if v.None? then Failed(s) else SetReg(s, a, v.value)
    else if op == OP_IMMEDIATE_LIT_TO_ARG then SetArg(s, b, Literal(a))
    else SetReg(s, b, Literal(a))
  }

  function Dispatch(s: State, m: nat, unwind: bool): State {
    var a := Actuals(s.args, m, unwind);
    if a.None? then Failed(s) else s.(status := Dispatched(s.regs[TRGT], a.value))
  }

  function Exec5(mc: Machine, p: Program, op: nat, u: bool, n: bool, m: nat, e: Ext, s: State): State {
    if e.E2? then
      var v := ApplyPrim(mc, s, e.k, m, u);
      if v.None? then Failed(s)
      else if n then s.(status := Elsewhere)
      else if op == OP_APPLY_PRIM_TAG then Store(s, LitLoc(p, e.b), v.value)
      else if op == OP_APPLY_PRIM_ARG then SetArg(s, e.b, v.value)
      else if op == OP_APPLY_PRIM_REG then SetReg(s, e.b, v.value)
      else s
    else if op == OP_XMIT && n then Dispatch(s, m, u)
    else if op == OP_RTN && n then s.(status := Returned(s.regs[RSLT]))
    else s.(status := Elsewhere)
  }

  function Exec6(op: nat, pc: nat, s: State): State {
    if op == OP_JMP then s.(pc := pc)
    else if op == OP_JMP_FALSE then (if s.regs[RSLT] == Bool(false) then s.(pc := pc) else s)
    else s.(status := Elsewhere)
  }

  function Exec7(op: nat, ind: bool, level: nat, off: nat, x: nat, s: State): State {
    var v := Variable(s.regs[ENV], s.cells, LexVar(ind, level, off));
    if op == OP_XFER_LEX_TO_ARG then SetArg(s, x, v) else SetReg(s, x, v)
  }

  // The effect of an instruction; s.pc is already past it.
  function Exec(mc: Machine, p: Program, i: Instr, s: State): State {
    match i
    case F0(op, x, e) => Exec0(p, op, x, e, s)
    case F1(op, a, b) => Exec1(p, op, a, b, s)
    case F2(op, a, b) => Exec2(mc, p, op, a, b, s)
    case F4(_, _, _, _, _) => s.(status := Elsewhere)
    case F5(op, u, n, x, e) => Exec5(mc, p, op, u, n, x, e, s)
    case F6(op, pc, _) => Exec6(op, pc, s)
    case F7(op, ind, l, o, x) => Exec7(op, ind, l, o, x, s)
  }

  function Step(mc: Machine, p: Program, s: State): State {
    if s.status != Running then s else
    var d := Decode(p.code, s.pc);
    if d.None? then Failed(s) else Exec(mc, p, d.value.0, s.(pc := s.pc + d.value.1))
  }

  // ------------------------------------------------------------------
  // Runs
  // ------------------------------------------------------------------

  ghost predicate Link(mc: Machine, p: Program, run: seq<State>, i: nat)
    requires i + 1 < |run|
  {
    run[i + 1] == Step(mc, p, run[i])
  }

  ghost predicate IsRun(mc: Machine, p: Program, run: seq<State>) {
    |run| > 0 && forall i: nat {:trigger Link(mc, p, run, i)} | i + 1 < |run| :: Link(mc, p, run, i)
  }

  // The machine gets from s to t in some number of steps.
  ghost predicate Reaches(mc: Machine, p: Program, s: State, t: State) {
    exists run :: IsRun(mc, p, run) && run[0] == s && run[|run| - 1] == t
  }

  lemma ReachesSelf(mc: Machine, p: Program, s: State)
    ensures Reaches(mc, p, s, s)
  {
    assert IsRun(mc, p, [s]);
  }

  lemma ReachesStep(mc: Machine, p: Program, s: State)
    ensures Reaches(mc, p, s, Step(mc, p, s))
  {
    var run := [s, Step(mc, p, s)];
    assert Link(mc, p, run, 0);
    assert IsRun(mc, p, run);
  }

  lemma ReachesTrans(mc: Machine, p: Program, s: State, t: State, u: State)
    requires Reaches(mc, p, s, t) && Reaches(mc, p, t, u)
    ensures Reaches(mc, p, s, u)
  {
    var r1 :| IsRun(mc, p, r1) && r1[0] == s && r1[|r1| - 1] == t;
    var r2 :| IsRun(mc, p, r2) && r2[0] == t && r2[|r2| - 1] == u;
    var run := r1 + r2[1..];
    forall i: nat | i + 1 < |run| ensures Link(mc, p, run, i) {
      if i + 1 < |r1| {
        assert Link(mc, p, r1, i);
      } else {
        assert Link(mc, p, r2, i + 1 - |r1|);
      }
    }
    assert IsRun(mc, p, run);
  }

  // One legal instruction.
  lemma ReachesExec(mc: Machine, p: Program, s: State, i: Instr, n: nat)
    requires s.status == Running && Decode(p.code, s.pc) == Some((i, n))
    ensures Reaches(mc, p, s, Exec(mc, p, i, s.(pc := s.pc + n)))
  {
    hide Exec, Decode, Reaches;
    ReachesStep(mc, p, s);
  }
}
