/**
 Requests with suspending sub-expressions, and the contexts they run in
 (rosette/src/Compile.cc:907-917, 1144-1165 and 1422-1477).

 The compiler classifies each sub-expression of a request as simple, inlined or nested, and
 counts the nested ones in an 8-bit attribute.  A nested sub-expression gets a context of
 its own.  This module relates the classification to the trees of module ForkJoin.
 */
module Requests {
  import opened Codec
  import opened Wrappers
  import opened Vm
  import opened Schedule
  import opened Compile
  import opened ForkJoin
  import Meaning

  // Requests whose sub-expressions are inlineable or such requests themselves.
  ghost predicate Forks(e: Expr)
    decreases e
  {
    e.Request? && forall id :: IsKid(e, id) ==> Inlineable(Kid(e, id)) || Forks(Kid(e, id))
  }

  // The nested stack after analysis of the sub-expressions ids.
  function Nested(e: Expr, ids: seq<nat>): (r: seq<nat>)
    requires forall i :: 0 <= i < |ids| ==> IsKid(e, ids[i])
    ensures |r| <= |ids|
    ensures forall i :: 0 <= i < |r| ==> IsKid(e, r[i]) && !Inlineable(Kid(e, r[i]))
  {
    if ids == [] then []
    else (if Inlineable(Kid(e, ids[0])) then [] else [ids[0]]) + Nested(e, ids[1..])
  }

  // A request as a tree of contexts, slot j for sub-expression Kids(e)[j]; `ready` gives the values
  // of those that are inlineable.
  ghost function TreeOf(ready: Expr -> Val, e: Expr): (t: Tree)
    requires Forks(e)
    ensures |t.slots| == |Kids(e)|
    decreases e, 1
  {
    var op := if e.target.Prim? then PrimOp(e.target.k, e.rest.Some?) else CallOp(e.rest.Some?);
    Ctxt(op, SlotsOf(ready, e, Kids(e)))
  }

  ghost function SlotsOf(ready: Expr -> Val, e: Expr, ids: seq<nat>): (slots: seq<Slot>)
    requires Forks(e) && forall i :: 0 <= i < |ids| ==> IsKid(e, ids[i])
    ensures |slots| == |ids|
    decreases e, 0, |ids|
  {
    if ids == [] then []
    else
      var kid := Kid(e, ids[0]);
      var slot := if Inlineable(kid) then Ready(ready(kid)) else Awaits(TreeOf(ready, kid));
      [slot] + SlotsOf(ready, e, ids[1..])
  }

  lemma {:induction false} SlotsAt(ready: Expr -> Val, e: Expr, ids: seq<nat>, j: nat)
    requires Forks(e) && (forall i :: 0 <= i < |ids| ==> IsKid(e, ids[i])) && j < |ids|
    ensures var kid, slot := Kid(e, ids[j]), SlotsOf(ready, e, ids)[j];
            if Inlineable(kid) then slot == Ready(ready(kid)) else Forks(kid) && slot == Awaits(TreeOf(ready, kid))
    decreases j
  {
    if j > 0 {
      SlotsAt(ready, e, ids[1..], j - 1);
    }
  }

  // Different sub-expressions have different destinations, so replies go to different places.
  lemma DestsDiffer(e: Expr, i: nat, j: nat)
    requires e.Request? && i < j < |Kids(e)|
    ensures KidDest(e, Kids(e)[i]) != KidDest(e, Kids(e)[j])
  {
  }

  // Contexts are told to wait for exactly the nested sub-expressions.
  lemma {:induction false} CountsNested(ready: Expr -> Val, e: Expr, ids: seq<nat>, k: nat)
    requires Forks(e) && (forall i :: 0 <= i < |ids| ==> IsKid(e, ids[i])) && k <= |ids|
    ensures Pending(SlotsOf(ready, e, ids), k, [], {}) == |Nested(e, ids[..k])|
    decreases k
  {
    if k > 0 {
      CountsNested(ready, e, ids, k - 1);
      SlotsAt(ready, e, ids, k - 1);
      NestedSnoc(e, ids[..k - 1], ids[k - 1]);
      assert ids[..k] == ids[..k - 1] + [ids[k - 1]];
    }
  }

  lemma {:induction false} NestedSnoc(e: Expr, ids: seq<nat>, id: nat)
    requires (forall i :: 0 <= i < |ids| ==> IsKid(e, ids[i])) && IsKid(e, id)
    ensures Nested(e, ids + [id]) == Nested(e, ids) + if Inlineable(Kid(e, id)) then [] else [id]
    decreases |ids|
  {
    if ids == [] {
      assert ids + [id] == [id];
    } else {
      NestedSnoc(e, ids[1..], id);
      assert (ids + [id])[1..] == ids[1..] + [id];
    }
  }

  lemma OutstandingNested(ready: Expr -> Val, e: Expr)
    requires Forks(e)
    ensures Outstanding(TreeOf(ready, e), [], {}) == |Nested(e, Kids(e))|
  {
    CountsNested(ready, e, Kids(e), |Kids(e)|);
    assert Kids(e)[..|Kids(e)|] == Kids(e);
  }

  // No request has more than 255 nested sub-expressions.
  ghost predicate Countable(e: Expr)
    decreases e
  {
    e.Request? ==> |Nested(e, Kids(e))| <= 255 && forall id :: IsKid(e, id) ==> Countable(Kid(e, id))
  }

  lemma {:induction false} CountableNarrow(ready: Expr -> Val, e: Expr, p: Path)
    requires Forks(e) && Countable(e) && At(TreeOf(ready, e), p).Some?
    ensures Outstanding(At(TreeOf(ready, e), p).value, [], {}) <= 255
    decreases e
  {
    var t := TreeOf(ready, e);
    if p == [] {
      OutstandingNested(ready, e);
    } else {
      SlotsAt(ready, e, Kids(e), p[0]);
      CountableNarrow(ready, Kid(e, Kids(e)[p[0]]), p[1..]);
    }
  }

  // ------------------------------------------------------------------
  // Sequential evaluation
  // ------------------------------------------------------------------

  // What primitives and actors answer; a rest argument that is no tuple leaves them without a message.
  datatype Services = Services(prim: (nat, Option<seq<Val>>) -> Val, call: (Val, Option<seq<Val>>) -> Val)

  // A request evaluated without contexts: its arguments in the order in which they are written, the
  // rest argument, the target, and then the primitive or the actor.
  ghost function Sequential(sv: Services, ready: Expr -> Val, e: Expr): Val
    requires Forks(e)
    decreases e, 1
  {
    var args := SequentialArgs(sv, ready, e, |e.args|);
    var rest := if e.rest.None? then None else Some(SequentialKid(sv, ready, e, |e.args|));
    var msg := Meaning.Spread(args, rest);
    match e.target
    case Prim(k) => sv.prim(k, msg)
    case Actor(_) => sv.call(SequentialKid(sv, ready, e, |e.args| + 1), msg)
  }

  ghost function SequentialArgs(sv: Services, ready: Expr -> Val, e: Expr, n: nat): (vs: seq<Val>)
    requires Forks(e) && n <= |e.args|
    ensures |vs| == n && forall i :: 0 <= i < n ==> vs[i] == SequentialKid(sv, ready, e, i)
    decreases e, 0, n + 1
  {
    if n == 0 then [] else SequentialArgs(sv, ready, e, n - 1) + [SequentialKid(sv, ready, e, n - 1)]
  }

  ghost function SequentialKid(sv: Services, ready: Expr -> Val, e: Expr, id: nat): Val
    requires Forks(e) && IsKid(e, id)
    decreases e, 0, 0
  {
    var kid := Kid(e, id);
    if Inlineable(kid) then ready(kid) else Sequential(sv, ready, kid)
  }

  // The slots of a context in the order of its argument registers.
  function Registers(vs: seq<Val>): (args: seq<Val>)
    ensures |args| == |vs|
  {
    seq(|vs|, i requires 0 <= i < |vs| => vs[|vs| - 1 - i])
  }

  // The message that the machine reads from them.
  function MessageIn(vs: seq<Val>, unwind: bool): Option<seq<Val>> {
    if unwind && vs == [] then None
    else Actuals(Registers(vs), |vs| - if unwind then 1 else 0, unwind)
  }

  // What the strand of a context does.
  function Served(sv: Services): Apply {
    (op: Op, vs: seq<Val>) =>
      match op
      case PrimOp(k, unwind) => sv.prim(k, MessageIn(vs, unwind))
      case CallOp(unwind) => if vs == [] then Niv else sv.call(vs[0], MessageIn(vs[1..], unwind))
  }

  lemma SlotIs(sv: Services, ready: Expr -> Val, e: Expr, j: nat)
    requires Forks(e) && j < |Kids(e)|
    ensures Values(Served(sv), TreeOf(ready, e).slots)[j] == SequentialKid(sv, ready, e, Kids(e)[j])
    decreases e, 0
  {
    SlotsAt(ready, e, Kids(e), j);
    var kid := Kid(e, Kids(e)[j]);
    if !Inlineable(kid) {
      ContextsEvaluate(sv, ready, kid);
    }
  }

  // The registers hold the arguments, and behind them the rest.
  lemma MessageIs(sv: Services, ready: Expr -> Val, e: Expr, vs: seq<Val>)
    requires Forks(e) && |vs| == Arity(e)
    requires forall i :: 0 <= i < |e.args| ==> vs[|vs| - 1 - i] == SequentialKid(sv, ready, e, i)
    requires e.rest.Some? ==> vs[0] == SequentialKid(sv, ready, e, |e.args|)
    ensures MessageIn(vs, e.rest.Some?) ==
            Meaning.Spread(SequentialArgs(sv, ready, e, |e.args|),
                           if e.rest.None? then None else Some(SequentialKid(sv, ready, e, |e.args|)))
  {
    hide SequentialKid, SequentialArgs;
    assert Registers(vs)[..|e.args|] == SequentialArgs(sv, ready, e, |e.args|);
  }

  // Where the sub-expressions have their slots.
  lemma KidPlaces(e: Expr)
    requires e.Request?
    ensures var ids, d := Kids(e), if e.target.Actor? then 1 else 0;
            && |ids| == Arity(e) + d
            && (forall j :: |ids| - |e.args| <= j < |ids| ==> ids[j] == |ids| - 1 - j)
            && (e.rest.Some? ==> ids[d] == |e.args|) && (e.target.Actor? ==> ids[0] == |e.args| + 1)
  {
  }

  lemma MessageOf(sv: Services, ready: Expr -> Val, e: Expr, vs: seq<Val>, msg: seq<Val>)
    requires Forks(e) && |vs| == |Kids(e)| && msg == if e.target.Actor? then vs[1..] else vs
    requires forall j :: 0 <= j < |vs| ==> vs[j] == SequentialKid(sv, ready, e, Kids(e)[j])
    ensures MessageIn(msg, e.rest.Some?) ==
            Meaning.Spread(SequentialArgs(sv, ready, e, |e.args|),
                           if e.rest.None? then None else Some(SequentialKid(sv, ready, e, |e.args|)))
  {
    hide SequentialKid, SequentialArgs, MessageIn, Kids, Meaning.Spread;
    KidPlaces(e);
    forall i | 0 <= i < |e.args| ensures msg[|msg| - 1 - i] == SequentialKid(sv, ready, e, i) {
      assert msg[|msg| - 1 - i] == vs[|vs| - 1 - i];
    }
    MessageIs(sv, ready, e, msg);
  }

  // The tree of contexts stands for the sequential evaluation.
  lemma {:induction false} ContextsEvaluate(sv: Services, ready: Expr -> Val, e: Expr)
    requires Forks(e)
    ensures Value(Served(sv), TreeOf(ready, e)) == Sequential(sv, ready, e)
    decreases e, 1
  {
    hide *;
    var t, f := TreeOf(ready, e), Served(sv);
    TreeIs(f, ready, e);
    KidPlaces(e);
    var vs := Values(f, t.slots);
    forall j | 0 <= j < |vs| ensures vs[j] == SequentialKid(sv, ready, e, Kids(e)[j]) {
      SlotIs(sv, ready, e, j);
    }
    var msg := if e.target.Actor? then vs[1..] else vs;
    MessageOf(sv, ready, e, vs, msg);
    ServedIs(sv, t.op, vs);
    SequentialIs(sv, ready, e);
  }

  lemma TreeIs(f: Apply, ready: Expr -> Val, e: Expr)
    requires Forks(e)
    ensures e.Request?
    ensures var t := TreeOf(ready, e);
            && t.op == (if e.target.Prim? then PrimOp(e.target.k, e.rest.Some?) else CallOp(e.rest.Some?))
            && |t.slots| == |Kids(e)| && Value(f, t) == f(t.op, Values(f, t.slots))
  {
    hide Kids, SlotsOf, Values;
  }

  lemma ServedIs(sv: Services, op: Op, vs: seq<Val>)
    requires op.CallOp? ==> vs != []
    ensures Served(sv)(op, vs) == if op.PrimOp? then sv.prim(op.k, MessageIn(vs, op.unwind))
                                  else sv.call(vs[0], MessageIn(vs[1..], op.unwind))
  {
    hide MessageIn;
  }

  lemma SequentialIs(sv: Services, ready: Expr -> Val, e: Expr)
    requires Forks(e)
    ensures var msg := Meaning.Spread(SequentialArgs(sv, ready, e, |e.args|),
                                      if e.rest.None? then None else Some(SequentialKid(sv, ready, e, |e.args|)));
            Sequential(sv, ready, e) == if e.target.Prim? then sv.prim(e.target.k, msg)
                                        else sv.call(SequentialKid(sv, ready, e, |e.args| + 1), msg)
  {
    hide SequentialArgs, SequentialKid, Meaning.Spread;
  }

  /**
   The contexts of a request compute the value of its sequential evaluation, whatever the order
   in which they are dispatched and run and in which their replies arrive.
   */
  lemma RequestJoins(sv: Services, ready: Expr -> Val, e: Expr, es: seq<Event>)
    requires Forks(e) && Countable(e)
    requires After(Served(sv), TreeOf(ready, e), es).Some?
    requires Stuck(TreeOf(ready, e), After(Served(sv), TreeOf(ready, e), es).value)
    ensures After(Served(sv), TreeOf(ready, e), es).value.answers == [Sequential(sv, ready, e)]
  {
    var t := TreeOf(ready, e);
    forall p | At(t, p).Some? ensures Outstanding(At(t, p).value, [], {}) <= 255 {
      CountableNarrow(ready, e, p);
    }
    Confluence(Served(sv), t, es);
    ContextsEvaluate(sv, ready, e);
  }

  // ------------------------------------------------------------------
  // Classification of the sub-expressions
  // ------------------------------------------------------------------

  // The inlined stack after analysis of the sub-expressions ids.
  function InlinedIds(e: Expr, ids: seq<nat>): seq<nat>
    requires forall i :: 0 <= i < |ids| ==> IsKid(e, ids[i])
  {
    if ids == [] then []
    else
      var kid := Kid(e, ids[0]);
      (if Inlineable(kid) && !Simple(kid) then [ids[0]] else []) + InlinedIds(e, ids[1..])
  }

  // av_size after analysis of the sub-expressions ids.
  function AvAfter(e: Expr, ids: seq<nat>, n: nat): nat
    requires forall i :: 0 <= i < |ids| ==> IsKid(e, ids[i])
  {
    if ids == [] then n
    else
      var kid := Kid(e, ids[0]);
      AvAfter(e, ids[1..], if Inlineable(kid) && !Simple(kid) then Max(n, Av(kid)) else n)
  }

  // The attributes of a request node that its initialization computes; two of them have 8 bits.
  class CompoundNode {
    var avSize: nat
    var outstanding: nat
    var simple: seq<nat>
    var inlined: seq<nat>
    var nested: seq<nat>

    // What has been analyzed, and how.
    ghost predicate Analyzed(e: Expr, ids: seq<nat>)
      reads this
    {
      && e.Request? && (forall i :: 0 <= i < |ids| ==> IsKid(e, ids[i]))
      && simple == Simples(e, ids) && inlined == InlinedIds(e, ids) && nested == Nested(e, ids)
      && outstanding == |nested| % 256 && avSize == AvAfter(e, ids, Arity(e) % 256)
    }

    constructor (e: Expr)
      requires e.Request?
      ensures Analyzed(e, [])
    {
      avSize, outstanding := Arity(e) % 256, 0;
      simple, inlined, nested := [], [], [];
    }

    // CompoundNode::analyze
    method Analyze(e: Expr, id: nat, ghost ids: seq<nat>)
      requires Analyzed(e, ids) && IsKid(e, id)
      modifies this
      ensures Analyzed(e, ids + [id])
    {
      var kid := Kid(e, id);
      NestedSnoc(e, ids, id);
      InlinedSnoc(e, ids, id);
      SimplesSnoc(e, ids, id);
      AvSnoc(e, ids, id, Arity(e) % 256);
      hide Av, Nested, InlinedIds, Simples, Inlineable, AvAfter;
      SimpleInlines(kid);
      if Simple(kid) {
        simple := simple + [id];
      } else if Inlineable(kid) {
        avSize := Max(avSize, Av(kid));
        inlined := inlined + [id];
      } else {
        outstanding := (outstanding + 1) % 256;
        nested := nested + [id];
      }
    }
  }

  lemma SimpleInlines(e: Expr)
    ensures Simple(e) ==> Inlineable(e)
  {
  }

  lemma {:induction false} AvSnoc(e: Expr, ids: seq<nat>, id: nat, n: nat)
    requires (forall i :: 0 <= i < |ids| ==> IsKid(e, ids[i])) && IsKid(e, id)
    ensures var av, kid := AvAfter(e, ids, n), Kid(e, id);
            AvAfter(e, ids + [id], n) == if Inlineable(kid) && !Simple(kid) then Max(av, Av(kid)) else av
    decreases |ids|
  {
    hide Av, Inlineable;
    if ids == [] {
      assert ids + [id] == [id];
    } else {
      var kid := Kid(e, ids[0]);
      AvSnoc(e, ids[1..], id, if Inlineable(kid) && !Simple(kid) then Max(n, Av(kid)) else n);
      assert (ids + [id])[1..] == ids[1..] + [id];
    }
  }

  // If nothing suspends, av_size and the inlined stack are those that the scheduling starts from.
  lemma {:induction false} AvIsMax(e: Expr, ids: seq<nat>, n: nat)
    requires forall i :: 0 <= i < |ids| ==> IsKid(e, ids[i]) && Inlineable(Kid(e, ids[i]))
    ensures AvAfter(e, ids, n) == MaxAv(Inlined(e, ids), n)
    ensures |InlinedIds(e, ids)| == |Inlined(e, ids)|
    ensures forall i :: 0 <= i < |InlinedIds(e, ids)| ==> Inlined(e, ids)[i].id == InlinedIds(e, ids)[i]
    decreases |ids|
  {
    if ids != [] {
      var kid := Kid(e, ids[0]);
      AvIsMax(e, ids[1..], if Simple(kid) then n else Max(n, Av(kid)));
      hide Av, Inlineable;
      var items := Inlined(e, ids);
      assert items == Entry(e, ids[0]) + Inlined(e, ids[1..]);
      var rest := InlinedIds(e, ids[1..]);
      if Simple(kid) {
        assert items == Inlined(e, ids[1..]) && InlinedIds(e, ids) == rest;
      } else {
        assert items[1..] == Inlined(e, ids[1..]) && InlinedIds(e, ids) == [ids[0]] + rest;
        forall i | 0 <= i < |InlinedIds(e, ids)| ensures items[i].id == InlinedIds(e, ids)[i] {
          if i > 0 {
            assert items[i] == items[1..][i - 1];
          }
        }
      }
    }
  }

  lemma {:induction false} InlinedSnoc(e: Expr, ids: seq<nat>, id: nat)
    requires (forall i :: 0 <= i < |ids| ==> IsKid(e, ids[i])) && IsKid(e, id)
    ensures InlinedIds(e, ids + [id]) ==
            InlinedIds(e, ids) + if Inlineable(Kid(e, id)) && !Simple(Kid(e, id)) then [id] else []
    decreases |ids|
  {
    if ids == [] {
      assert ids + [id] == [id];
    } else {
      InlinedSnoc(e, ids[1..], id);
      assert (ids + [id])[1..] == ids[1..] + [id];
    }
  }

  lemma {:induction false} SimplesSnoc(e: Expr, ids: seq<nat>, id: nat)
    requires (forall i :: 0 <= i < |ids| ==> IsKid(e, ids[i])) && IsKid(e, id)
    ensures Simples(e, ids + [id]) == Simples(e, ids) + if Simple(Kid(e, id)) then [id] else []
    decreases |ids|
  {
    if ids == [] {
      assert ids + [id] == [id];
    } else {
      SimplesSnoc(e, ids[1..], id);
      assert (ids + [id])[1..] == ids[1..] + [id];
    }
  }

  // RequestNode::initialize: the target, the rest argument, then the arguments from the last.
  method Initialize(e: Expr) returns (node: CompoundNode)
    requires e.Request?
    ensures fresh(node) && node.Analyzed(e, Kids(e))
  {
    hide CompoundNode.Analyzed;
    node := new CompoundNode(e);
    ghost var ids: seq<nat> := [];
    if e.target.Actor? {
      node.Analyze(e, |e.args| + 1, ids);
      ids := ids + [|e.args| + 1];
    }
    if e.rest.Some? {
      node.Analyze(e, |e.args|, ids);
      ids := ids + [|e.args|];
    }
    var i := |e.args|;
    while i > 0
      invariant 0 <= i <= |e.args| && node.Analyzed(e, ids)
      invariant ids + Downto(i) == Kids(e) && fresh(node)
    {
      i := i - 1;
      node.Analyze(e, i, ids);
      assert ids + Downto(i + 1) == ids + [i] + Downto(i);
      ids := ids + [i];
    }
    assert ids == Kids(e);
  }

  // The context of a request starts with the counter that the compiler has computed.
  lemma CounterAgrees(ready: Expr -> Val, e: Expr, node: CompoundNode)
    requires Forks(e) && node.Analyzed(e, Kids(e))
    ensures InitialFrame(TreeOf(ready, e)).outstanding == node.outstanding
  {
    OutstandingNested(ready, e);
  }
}
