/**
 The meaning of expressions, independent of the compiler: arguments are evaluated,
 then the primitive is applied to them in order; an error anywhere is an error of the whole.
 */
module Meaning {
  import opened Codec
  import opened Wrappers
  import opened Vm
  import opened Compile

  // What an expression may refer to.
  datatype Scope = Scope(env: Val, selfEnv: Val, cells: Cells)

  datatype Outcome = Value(v: Val) | Message(trgt: Val, msg: seq<Val>) | Error

  function ScopeOf(s: State): Scope { Scope(s.regs[ENV], s.regs[SELF_ENV], s.cells) }

  // The message received: the arguments followed by the elements of the rest argument.
  function Spread(vs: seq<Val>, rest: Option<Val>): Option<seq<Val>> {
    if rest.None? then Some(vs)
    else if rest.value.Tup? then Some(vs + rest.value.elems)
    else None
  }

  function EvalAll(mc: Machine, sc: Scope, es: seq<Expr>): (r: Option<seq<Val>>)
    ensures r.Some? ==> |r.value| == |es|
    decreases es, 0
  {
    if es == [] then Some([])
    else
      var v := Eval(mc, sc, es[0]);
      var vs := EvalAll(mc, sc, es[1..]);
      if v.None? || vs.None? then None else Some([v.value] + vs.value)
  }

  function EvalMessage(mc: Machine, sc: Scope, e: Expr): Option<seq<Val>>
    requires e.Request?
    decreases e, 0
  {
    var vs := EvalAll(mc, sc, e.args);
    if vs.None? then None
    else if e.rest.None? then Some(vs.value)
    else
      var r := Eval(mc, sc, e.rest.value);
      if r.None? then None else Spread(vs.value, r)
  }

  // The value of an inlineable expression; None is an error.
  function Eval(mc: Machine, sc: Scope, e: Expr): Option<Val>
    decreases e, 1
  {
    match e
    case Const(v) => Some(v)
    case Var(loc) => Some(Variable(sc.env, sc.cells, loc))
    case Free(sym, deferred) => mc.lookup(sc.selfEnv, sym, deferred)
    case Request(target, _, _) =>
      var msg := EvalMessage(mc, sc, e);
      if msg.None? || target.Actor? then None else mc.prim(target.k, msg.value)
    case If(c, y, n) =>
      var b := Eval(mc, sc, c);
      if b.None? then None else if b.value == Bool(false) then Eval(mc, sc, n) else Eval(mc, sc, y)
    case Seq(a, b) =>
      if Eval(mc, sc, a).None? then None else Eval(mc, sc, b)
  }

  // What running an expression to its end yields: a value, a message to some target, or an error.
  function Result(mc: Machine, sc: Scope, e: Expr): Outcome {
    match e
    case If(c, y, n) =>
      var b := Eval(mc, sc, c);
      if b.None? then Error else if b.value == Bool(false) then Result(mc, sc, n) else Result(mc, sc, y)
    case Seq(a, b) =>
      if Eval(mc, sc, a).None? then Error else Result(mc, sc, b)
    case Request(Actor(t), _, _) =>
      var trgt := Eval(mc, sc, t);
      var msg := EvalMessage(mc, sc, e);
      if trgt.None? || msg.None? then Error else Message(trgt.value, msg.value)
    case _ =>
      var v := Eval(mc, sc, e);
      if v.None? then Error else Value(v.value)
  }

  // An inlineable expression yields its value.
  lemma {:induction false} InlineableResult(mc: Machine, sc: Scope, e: Expr)
    requires Inlineable(e)
    ensures Result(mc, sc, e) == (var v := Eval(mc, sc, e); if v.None? then Error else Value(v.value))
    decreases e
  {
    match e
    case If(c, y, n) =>
      InlineableResult(mc, sc, y);
      InlineableResult(mc, sc, n);
    case Seq(_, b) => InlineableResult(mc, sc, b);
    case _ =>
  }

  lemma {:induction false} EvalAllAt(mc: Machine, sc: Scope, es: seq<Expr>)
    ensures var r := EvalAll(mc, sc, es);
            && (r.None? <==> exists i :: 0 <= i < |es| && Eval(mc, sc, es[i]).None?)
            && (r.Some? ==> forall i :: 0 <= i < |es| ==> Eval(mc, sc, es[i]) == Some(r.value[i]))
    decreases |es|
  {
    if es != [] {
      EvalAllAt(mc, sc, es[1..]);
      var r := EvalAll(mc, sc, es);
      if Eval(mc, sc, es[0]).Some? && r.None? {
        var i :| 0 <= i < |es[1..]| && Eval(mc, sc, es[1..][i]).None?;
        assert Eval(mc, sc, es[i + 1]).None?;
      }
      if r.Some? {
        forall i | 0 <= i < |es| ensures Eval(mc, sc, es[i]) == Some(r.value[i]) {
          if i > 0 {
            assert es[i] == es[1..][i - 1];
          }
        }
      }
    }
  }
}
