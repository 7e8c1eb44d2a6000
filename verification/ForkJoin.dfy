/**
 Fork and join of contexts (rosette/src/Ctxt.cc:219-234, rosette/src/Compile.cc:471-478 and
 907-917).
 */
module ForkJoin {
  import opened Codec
  import opened Wrappers
  import opened Vm

  /*
   A request with suspending sub-expressions runs in a context that counts the replies it
   still awaits.  Each suspending sub-expression has a context of its own, which replies into
   one slot of its parent.  A context whose counter reaches zero is scheduled; when its strand
   runs, it computes its own value from its slots and replies in turn.  Replies and strands are
   served in any order.
   */

  // What a context does once its slots are filled: apply a primitive or call another actor.
  datatype Op = PrimOp(k: nat, unwind: bool) | CallOp(unwind: bool)

  // A context and those it waits for.
  datatype Tree = Ctxt(op: Op, slots: seq<Slot>)
  datatype Slot = Ready(v: Val) | Awaits(t: Tree)

  // A context, or a slot of one, is named by the slots leading to it from the root.
  type Path = seq<nat>

  function At(t: Tree, p: Path): Option<Tree>
    decreases p
  {
    if p == [] then Some(t)
    else if p[0] < |t.slots| && t.slots[p[0]].Awaits? then At(t.slots[p[0]].t, p[1..])
    else None
  }

  // Sequential evaluation: the value that each context is to reply.
  type Apply = (Op, seq<Val>) -> Val

  function Value(f: Apply, t: Tree): Val
    decreases t, 1
  {
    f(t.op, Values(f, t.slots))
  }

  function Values(f: Apply, slots: seq<Slot>): (vs: seq<Val>)
    ensures |vs| == |slots|
    ensures forall i :: 0 <= i < |slots| ==> vs[i] == SlotValue(f, slots[i])
    decreases slots, 0
  {
    if slots == [] then [] else [SlotValue(f, slots[0])] + Values(f, slots[1..])
  }

  function SlotValue(f: Apply, s: Slot): Val
    decreases s, 2
  {
    match s case Ready(v) => v case Awaits(t) => Value(f, t)
  }

  // ------------------------------------------------------------------
  // The machine
  // ------------------------------------------------------------------

  // The part of a context that replies change: its slots and an 8-bit counter.
  datatype Frame = Frame(args: seq<Val>, outstanding: nat)

  // Ctxt::rcv: store, count down, and tell whether to schedule.  A failing store changes nothing.
  datatype Received = Received(c: Frame, failed: bool, schedule: bool)

  function Rcv(c: Frame, result: Val, i: nat): Received {
    if i >= |c.args| then Received(c, true, false)
    else
      var n := if c.outstanding == 0 then 255 else c.outstanding - 1;
      Received(Frame(c.args[i := result], n), false, n == 0)
  }

  // A reply on its way to a slot; [] is whoever asked for the root's value.
  datatype Reply = Reply(slot: Path, v: Val)

  datatype World = World(
    frames: map<Path, Frame>,
    pool: multiset<Path>,          // scheduled strands
    replies: multiset<Reply>,      // replies in flight
    answers: seq<Val>,             // replies of the root that have arrived
    delivered: set<Path>,          // history: the slots that replies have arrived in
    scheduled: multiset<Path>)     // history: how often each context has been scheduled

  // A context of a sub-expression is dispatched, a reply arrives, or a scheduled strand runs.
  datatype Event = Dispatch(p: Path) | Deliver(r: Reply) | Run(p: Path)

  predicate Enabled(t: Tree, s: World, e: Event) {
    match e
    case Dispatch(p) => p != [] && p !in s.frames && p[..|p| - 1] in s.frames && At(t, p).Some?
    case Deliver(r) => r in s.replies && (r.slot != [] ==> r.slot[..|r.slot| - 1] in s.frames)
    case Run(p) => p in s.pool && p in s.frames && At(t, p).Some?
  }

  function Step(f: Apply, t: Tree, s: World, e: Event): World
    requires Enabled(t, s, e)
  {
    match e
    case Dispatch(p) => Started(f, s, p, At(t, p).value)
    case Deliver(r) => Delivered(s, r)
    case Run(p) =>
      // The resumed code computes the context's value from its slots and replies to the parent.
      s.(pool := s.pool - multiset{p},
         replies := s.replies + multiset{Reply(p, f(At(t, p).value.op, s.frames[p].args))})
  }

  // A new context; one that counts no outstanding replies computes its value and replies at once.
  function Started(f: Apply, s: World, p: Path, n: Tree): World {
    var c := InitialFrame(n);
    var s1 := s.(frames := s.frames[p := c]);
    if c.outstanding == 0 then s1.(replies := s.replies + multiset{Reply(p, f(n.op, c.args))}) else s1
  }

  function Delivered(s: World, r: Reply): World
    requires r.slot != [] ==> r.slot[..|r.slot| - 1] in s.frames
  {
    var s1 := s.(replies := s.replies - multiset{r}, delivered := s.delivered + {r.slot});
    if r.slot == [] then s1.(answers := s.answers + [r.v])
    else
      var p := r.slot[..|r.slot| - 1];
      var x := Rcv(s.frames[p], r.v, r.slot[|r.slot| - 1]);
      var s2 := s1.(frames := s.frames[p := x.c]);
      if x.schedule then s2.(pool := s.pool + multiset{p}, scheduled := s.scheduled + multiset{p}) else s2
  }

  // Where a run, a sequence of events from the start, leads.
  function After(f: Apply, t: Tree, es: seq<Event>): Option<World> {
    if es == [] then Some(Init(f, t))
    else
      var s := After(f, t, es[..|es| - 1]);
      if s.Some? && Enabled(t, s.value, es[|es| - 1]) then Some(Step(f, t, s.value, es[|es| - 1])) else None
  }

  // ------------------------------------------------------------------
  // Contexts: their paths, counters and initial contents
  // ------------------------------------------------------------------

  function Paths(t: Tree): (ps: set<Path>)
    ensures forall p :: p in ps <==> At(t, p).Some?
    decreases t, 1
  {
    {[]} + PathsFrom(t.slots, 0)
  }

  function PathsFrom(slots: seq<Slot>, base: nat): (ps: set<Path>)
    ensures forall p :: p in ps <==>
              p != [] && base <= p[0] < base + |slots| && slots[p[0] - base].Awaits? &&
              At(slots[p[0] - base].t, p[1..]).Some?
    decreases slots, 0
  {
    if slots == [] then {}
    else
      var rest := PathsFrom(slots[1..], base + 1);
      assert forall p: Path :: p in rest ==> p[0] != base;
      SlotPaths(slots[0], base) + rest
  }

  function SlotPaths(s: Slot, i: nat): (ps: set<Path>)
    ensures forall p :: p in ps <==> p != [] && p[0] == i && s.Awaits? && At(s.t, p[1..]).Some?
    decreases s, 2
  {
    if s.Ready? then {}
    else
      var ps := set p | p in Paths(s.t) :: [i] + p;
      assert forall p: Path :: p != [] && p[0] == i ==> p == [i] + p[1..];
      ps
  }

  // Slots p + [i], ..., of which replies have not arrived.
  function Pending(slots: seq<Slot>, k: nat, p: Path, delivered: set<Path>): nat
    requires k <= |slots|
  {
    if k == 0 then 0
    else Pending(slots, k - 1, p, delivered) +
         if slots[k - 1].Awaits? && p + [k - 1] !in delivered then 1 else 0
  }

  function Outstanding(n: Tree, p: Path, delivered: set<Path>): nat {
    Pending(n.slots, |n.slots|, p, delivered)
  }

  function Initial(s: Slot): Val {
    if s.Ready? then s.v else Niv
  }

  function InitialArgs(slots: seq<Slot>): (vs: seq<Val>)
    ensures |vs| == |slots| && forall i :: 0 <= i < |slots| ==> vs[i] == Initial(slots[i])
  {
    if slots == [] then [] else [Initial(slots[0])] + InitialArgs(slots[1..])
  }

  function InitialFrame(n: Tree): Frame {
    Frame(InitialArgs(n.slots), Outstanding(n, [], {}) % 256)
  }

  function Init(f: Apply, t: Tree): World {
    Started(f, World(map[], multiset{}, multiset{}, [], {}, multiset{}), [], t)
  }

  // ------------------------------------------------------------------
  // Paths and counters
  // ------------------------------------------------------------------

  lemma {:induction false} AtSnoc(t: Tree, p: Path, i: nat)
    ensures At(t, p + [i]).Some? <==>
            At(t, p).Some? && i < |At(t, p).value.slots| && At(t, p).value.slots[i].Awaits?
    ensures At(t, p + [i]).Some? ==> At(t, p + [i]).value == At(t, p).value.slots[i].t
    decreases p
  {
    if p == [] {
      assert p + [i] == [i];
    } else {
      assert (p + [i])[0] == p[0] && (p + [i])[1..] == p[1..] + [i];
      if p[0] < |t.slots| && t.slots[p[0]].Awaits? {
        AtSnoc(t.slots[p[0]].t, p[1..], i);
      }
    }
  }

  lemma SnocDiffers(p: Path, q: Path, i: nat, j: nat)
    requires p != q || i != j
    ensures p + [i] != q + [j]
  {
    assert (p + [i])[..|p|] == p && (q + [j])[..|q|] == q;
    assert (p + [i])[|p|] == i && (q + [j])[|q|] == j;
  }

  // An arriving reply counts exactly one slot down, and only in its own context.
  lemma {:induction false} PendingArrives(slots: seq<Slot>, k: nat, p: Path, d: set<Path>, i: nat)
    requires k <= |slots| && i < |slots| && slots[i].Awaits? && p + [i] !in d
    ensures Pending(slots, k, p, d + {p + [i]}) == Pending(slots, k, p, d) - if i < k then 1 else 0
    decreases k
  {
    if k > 0 {
      PendingArrives(slots, k - 1, p, d, i);
      if k - 1 != i {
        SnocDiffers(p, p, k - 1, i);
      }
    }
  }

  lemma {:induction false} PendingElsewhere(slots: seq<Slot>, k: nat, p: Path, d: set<Path>, x: Path)
    requires k <= |slots| && (x == [] || x[..|x| - 1] != p)
    ensures Pending(slots, k, p, d + {x}) == Pending(slots, k, p, d)
    decreases k
  {
    if k > 0 {
      PendingElsewhere(slots, k - 1, p, d, x);
      assert (p + [k - 1])[..|p|] == p;
    }
  }

  lemma {:induction false} PendingNone(slots: seq<Slot>, k: nat, p: Path, d: set<Path>)
    requires k <= |slots|
    ensures Pending(slots, k, p, d) == 0 <==>
            forall i :: 0 <= i < k && slots[i].Awaits? ==> p + [i] in d
    decreases k
  {
    if k > 0 {
      PendingNone(slots, k - 1, p, d);
    }
  }

  lemma {:induction false} PendingFresh(slots: seq<Slot>, k: nat, p: Path, d: set<Path>)
    requires k <= |slots| && forall i :: 0 <= i < k ==> p + [i] !in d
    ensures Pending(slots, k, p, d) == Pending(slots, k, [], {})
    decreases k
  {
    if k > 0 {
      PendingFresh(slots, k - 1, p, d);
    }
  }

  // ------------------------------------------------------------------
  // The invariant
  // ------------------------------------------------------------------

  // No context awaits more replies than its 8-bit counter can count.
  ghost predicate Narrow(t: Tree) {
    forall p :: At(t, p).Some? ==> Outstanding(At(t, p).value, [], {}) <= 255
  }

  // What context p's frame holds: the counter counts the missing replies, the other slots are right.
  ghost predicate FrameOk(f: Apply, s: World, p: Path, n: Tree)
    requires p in s.frames
  {
    && |s.frames[p].args| == |n.slots|
    && s.frames[p].outstanding == Outstanding(n, p, s.delivered)
    && (forall i :: 0 <= i < |n.slots| && (n.slots[i].Ready? || p + [i] in s.delivered) ==>
          s.frames[p].args[i] == SlotValue(f, n.slots[i]))
  }

  // Context p waits, or is scheduled, or its reply is under way, or its reply has arrived.
  ghost predicate PhaseOk(f: Apply, s: World, p: Path, n: Tree)
    requires p in s.frames
  {
    var waiting := s.frames[p].outstanding > 0;
    && s.pool[p] + s.replies[Reply(p, Value(f, n))] == (if waiting || p in s.delivered then 0 else 1)
    && (p in s.delivered ==> !waiting) && s.pool[p] <= s.scheduled[p]
    && s.scheduled[p] == (if Outstanding(n, [], {}) > 0 && !waiting then 1 else 0)
  }

  ghost predicate ContextOk(f: Apply, t: Tree, s: World, p: Path) {
    if p in s.frames then
      && At(t, p).Some?
      && FrameOk(f, s, p, At(t, p).value)
      && PhaseOk(f, s, p, At(t, p).value)
    else
      p !in s.pool && p !in s.delivered && p !in s.scheduled
  }

  // A reply comes from a live context and carries its value.
  ghost predicate ReplyOk(f: Apply, t: Tree, s: World, r: Reply) {
    r in s.replies ==> r.slot in s.frames && At(t, r.slot).Some? && r.v == Value(f, At(t, r.slot).value)
  }

  ghost predicate Inv(f: Apply, t: Tree, s: World) {
    && [] in s.frames
    && (forall p :: p in s.frames && p != [] ==> p[..|p| - 1] in s.frames)
    && (forall r {:trigger ReplyOk(f, t, s, r)} :: ReplyOk(f, t, s, r))
    && s.answers == (if [] in s.delivered then [Value(f, t)] else [])
    && (forall p {:trigger ContextOk(f, t, s, p)} :: ContextOk(f, t, s, p))
  }

  // A context that awaits nothing has its value from the start.
  lemma LeafValue(f: Apply, n: Tree)
    ensures Outstanding(n, [], {}) == 0 ==> f(n.op, InitialArgs(n.slots)) == Value(f, n)
  {
    PendingNone(n.slots, |n.slots|, [], {});
    if Outstanding(n, [], {}) == 0 {
      assert InitialArgs(n.slots) == Values(f, n.slots);
    }
  }

  lemma InitOk(f: Apply, t: Tree)
    requires Narrow(t)
    ensures Inv(f, t, Init(f, t))
  {
    LeafValue(f, t);
    assert At(t, []) == Some(t);
    var s := Init(f, t);
    hide Outstanding, Value;
    forall r ensures ReplyOk(f, t, s, r) {
    }
    forall p ensures ContextOk(f, t, s, p) {
    }
  }

  // ------------------------------------------------------------------
  // Every step keeps it
  // ------------------------------------------------------------------

  // What concerns context p alone, apart from the replies arrived in its slots.
  ghost predicate Alike(f: Apply, t: Tree, s: World, s': World, p: Path) {
    && (p in s.frames <==> p in s'.frames) && (p in s.frames ==> s.frames[p] == s'.frames[p])
    && s.pool[p] == s'.pool[p] && s.scheduled[p] == s'.scheduled[p]
    && (p in s.delivered <==> p in s'.delivered)
    && (At(t, p).Some? ==>
          var r := Reply(p, Value(f, At(t, p).value));
          s.replies[r] == s'.replies[r])
  }

  lemma Untouched(f: Apply, t: Tree, s: World, s': World, p: Path)
    requires ContextOk(f, t, s, p) && Alike(f, t, s, s', p) && s.delivered == s'.delivered
    ensures ContextOk(f, t, s', p)
  {
    hide Outstanding, Value, At;
  }

  lemma DispatchOk(f: Apply, t: Tree, s: World, p: Path)
    requires Narrow(t) && Inv(f, t, s) && Enabled(t, s, Dispatch(p))
    ensures Inv(f, t, Step(f, t, s, Dispatch(p)))
  {
    var s' := Step(f, t, s, Dispatch(p));
    DispatchedOk(f, t, s, p);
    assert s'.frames.Keys == s.frames.Keys + {p} && s'.delivered == s.delivered && s'.answers == s.answers;
    assert forall r: Reply :: r.slot != p ==> s'.replies[r] == s.replies[r];
    assert forall q :: q != p ==> Alike(f, t, s, s', q);
    hide Outstanding, Value, At, Started, Step, ContextOk;
    forall r ensures ReplyOk(f, t, s', r) {
      assert ReplyOk(f, t, s, r);
    }
    forall q ensures ContextOk(f, t, s', q) {
      if q != p {
        assert ContextOk(f, t, s, q);
        Untouched(f, t, s, s', q);
      }
    }
  }

  // The new context has all its replies to come; a leaf has replied.
  lemma DispatchedOk(f: Apply, t: Tree, s: World, p: Path)
    requires Narrow(t) && Inv(f, t, s) && Enabled(t, s, Dispatch(p))
    ensures ContextOk(f, t, Step(f, t, s, Dispatch(p)), p)
    ensures forall r: Reply :: r.slot == p ==> ReplyOk(f, t, Step(f, t, s, Dispatch(p)), r)
  {
    var n := At(t, p).value;
    var s' := Started(f, s, p, n);
    LeafValue(f, n);
    assert Outstanding(n, p, s.delivered) == Outstanding(n, [], {}) by {
      FreshSlots(f, t, s, p, n);
      PendingFresh(n.slots, |n.slots|, p, s.delivered);
    }
    FreshSlots(f, t, s, p, n);
    assert ContextOk(f, t, s, p);
    forall r: Reply | r.slot == p ensures r !in s.replies {
      assert ReplyOk(f, t, s, r);
    }
    hide Outstanding, Value, At, Inv;
    assert ContextOk(f, t, s', p);
  }

  lemma FreshSlots(f: Apply, t: Tree, s: World, p: Path, n: Tree)
    requires Inv(f, t, s) && p !in s.frames
    ensures forall i :: 0 <= i < |n.slots| ==> p + [i] !in s.delivered
  {
    forall i | 0 <= i < |n.slots| ensures p + [i] !in s.delivered {
      assert (p + [i])[..|p|] == p;
      assert ContextOk(f, t, s, p + [i]);
    }
  }

  // A context runs with every slot filled, so its reply carries its value.
  lemma RunOk(f: Apply, t: Tree, s: World, p: Path)
    requires Inv(f, t, s) && Enabled(t, s, Run(p))
    ensures Inv(f, t, Step(f, t, s, Run(p)))
  {
    var n := At(t, p).value;
    assert ContextOk(f, t, s, p);
    PendingNone(n.slots, |n.slots|, p, s.delivered);
    assert s.frames[p].args == Values(f, n.slots);
    var s' := Step(f, t, s, Run(p));
    var v := f(n.op, s.frames[p].args);
    assert v == Value(f, n);
    assert s' == s.(pool := s.pool - multiset{p}, replies := s.replies + multiset{Reply(p, v)});
    assert p in s.pool && s.pool[p] == 1;
    hide Outstanding, Value, At, Step, ContextOk, FrameOk, PhaseOk;
    forall r ensures ReplyOk(f, t, s', r) {
      assert ReplyOk(f, t, s, r);
    }
    forall q ensures ContextOk(f, t, s', q) {
      RanOk(f, t, s, p, v, q);
    }
  }

  lemma RanOk(f: Apply, t: Tree, s: World, p: Path, v: Val, q: Path)
    requires ContextOk(f, t, s, q) && p in s.pool && p in s.frames && At(t, p).Some? && v == Value(f, At(t, p).value)
    ensures ContextOk(f, t, s.(pool := s.pool - multiset{p}, replies := s.replies + multiset{Reply(p, v)}), q)
  {
    hide Outstanding, Value, At;
  }

  // ------------------------------------------------------------------
  // Replies
  // ------------------------------------------------------------------

  // A reply under way has not arrived before, and its parent still counts it.
  lemma Awaited(f: Apply, t: Tree, s: World, r: Reply)
    requires Inv(f, t, s) && r in s.replies
    ensures r.slot in s.frames && r.slot !in s.delivered && s.replies[r] == 1 && s.pool[r.slot] == 0
    ensures At(t, r.slot).Some? && r.v == Value(f, At(t, r.slot).value)
    ensures s.frames[r.slot].outstanding == 0
  {
    hide Outstanding, Value, At;
    assert ReplyOk(f, t, s, r);
    assert ContextOk(f, t, s, r.slot);
  }

  lemma RootDeliverOk(f: Apply, t: Tree, s: World, r: Reply)
    requires Inv(f, t, s) && Enabled(t, s, Deliver(r)) && r.slot == []
    ensures Inv(f, t, Step(f, t, s, Deliver(r)))
  {
    var s' := Step(f, t, s, Deliver(r));
    Awaited(f, t, s, r);
    forall q ensures ContextOk(f, t, s', q) {
      RootDelivered(f, t, s, r, q);
    }
    hide ContextOk, Value;
    assert At(t, []) == Some(t);
    forall x ensures ReplyOk(f, t, s', x) {
      assert ReplyOk(f, t, s, x);
    }
  }

  lemma RootDelivered(f: Apply, t: Tree, s: World, r: Reply, q: Path)
    requires Inv(f, t, s) && Enabled(t, s, Deliver(r)) && r.slot == []
    ensures ContextOk(f, t, Step(f, t, s, Deliver(r)), q)
  {
    Awaited(f, t, s, r);
    assert ContextOk(f, t, s, q);
    if q in s.frames {
      var n := At(t, q).value;
      PendingElsewhere(n.slots, |n.slots|, q, s.delivered, []);
      assert Outstanding(n, q, s.delivered + {[]}) == Outstanding(n, q, s.delivered);
      hide Outstanding, Value, At, Inv;
      var s' := Step(f, t, s, Deliver(r));
      assert s'.delivered == s.delivered + {[]};
      assert FrameOk(f, s', q, n);
      assert PhaseOk(f, s', q, n);
    }
  }

  // The parent of a reply under way: its slot is one it awaits, and its counter still counts it.
  lemma ParentAwaits(f: Apply, t: Tree, s: World, r: Reply) returns (p: Path, i: nat, n: Tree)
    requires Inv(f, t, s) && r in s.replies && r.slot != []
    ensures p == r.slot[..|r.slot| - 1] && i == r.slot[|r.slot| - 1] && r.slot == p + [i]
    ensures p in s.frames && At(t, p) == Some(n) && i < |n.slots| && n.slots[i].Awaits?
    ensures r.v == SlotValue(f, n.slots[i]) && p + [i] !in s.delivered
    ensures |s.frames[p].args| == |n.slots| && s.frames[p].outstanding > 0
    ensures Outstanding(n, p, s.delivered + {r.slot}) == s.frames[p].outstanding - 1
    ensures Outstanding(n, [], {}) > 0
  {
    Awaited(f, t, s, r);
    p, i := r.slot[..|r.slot| - 1], r.slot[|r.slot| - 1];
    assert r.slot == p + [i];
    AtSnoc(t, p, i);
    n := At(t, p).value;
    assert ContextOk(f, t, s, p);
    PendingArrives(n.slots, |n.slots|, p, s.delivered, i);
    PendingNone(n.slots, |n.slots|, p, s.delivered);
    PendingNone(n.slots, |n.slots|, [], {});
  }

  // The parent's slot is filled and its counter goes down; at zero it is scheduled, for the only time.
  lemma DeliveredParent(f: Apply, t: Tree, s: World, r: Reply)
    requires Inv(f, t, s) && Enabled(t, s, Deliver(r)) && r.slot != []
    ensures ContextOk(f, t, Step(f, t, s, Deliver(r)), r.slot[..|r.slot| - 1])
  {
    var p: Path, i: nat, n: Tree := ParentAwaits(f, t, s, r);
    var s' := Step(f, t, s, Deliver(r));
    assert ContextOk(f, t, s, p);
    hide Outstanding, Value, At, Inv;
    assert s'.delivered == s.delivered + {r.slot};
    assert s'.frames[p].args == s.frames[p].args[i := r.v];
    assert s'.frames[p].outstanding == s.frames[p].outstanding - 1;
    assert FrameOk(f, s', p, n) by {
      forall j | 0 <= j < |n.slots| && (n.slots[j].Ready? || p + [j] in s'.delivered)
        ensures s'.frames[p].args[j] == SlotValue(f, n.slots[j])
      {
        if j != i {
          SnocDiffers(p, p, j, i);
        }
      }
    }
    DeliveredPhase(f, t, s, r, p, n);
  }

  lemma DeliveredPhase(f: Apply, t: Tree, s: World, r: Reply, p: Path, n: Tree)
    requires Inv(f, t, s) && Enabled(t, s, Deliver(r)) && r.slot != [] && p == r.slot[..|r.slot| - 1]
    requires At(t, p) == Some(n)
    ensures p in Step(f, t, s, Deliver(r)).frames && PhaseOk(f, Step(f, t, s, Deliver(r)), p, n)
  {
    var p': Path, i: nat, n': Tree := ParentAwaits(f, t, s, r);
    var s' := Step(f, t, s, Deliver(r));
    assert ContextOk(f, t, s, p);
    hide Outstanding, Value, At, Inv;
    assert s'.replies[Reply(p, Value(f, n))] == s.replies[Reply(p, Value(f, n))];
    assert s'.frames[p].outstanding == s.frames[p].outstanding - 1;
  }

  // Any other context, the sender included.
  lemma DeliveredOther(f: Apply, t: Tree, s: World, r: Reply, q: Path)
    requires Inv(f, t, s) && Enabled(t, s, Deliver(r)) && r.slot != [] && q != r.slot[..|r.slot| - 1]
    ensures ContextOk(f, t, Step(f, t, s, Deliver(r)), q)
  {
    Awaited(f, t, s, r);
    var s' := Step(f, t, s, Deliver(r));
    assert ContextOk(f, t, s, q);
    if q in s.frames {
      var n := At(t, q).value;
      PendingElsewhere(n.slots, |n.slots|, q, s.delivered, r.slot);
      assert Outstanding(n, q, s.delivered + {r.slot}) == Outstanding(n, q, s.delivered);
      hide Outstanding, Value, At, Inv;
      assert s'.delivered == s.delivered + {r.slot};
      assert s'.frames[q] == s.frames[q];
      assert FrameOk(f, s', q, n) by {
        forall j | 0 <= j < |n.slots| && q + [j] in s'.delivered ensures q + [j] in s.delivered {
          assert (q + [j])[..|q|] == q;
        }
      }
      assert PhaseOk(f, s', q, n);
    }
  }

  lemma SlotDeliverOk(f: Apply, t: Tree, s: World, r: Reply)
    requires Inv(f, t, s) && Enabled(t, s, Deliver(r)) && r.slot != []
    ensures Inv(f, t, Step(f, t, s, Deliver(r)))
  {
    var s' := Step(f, t, s, Deliver(r));
    var p := r.slot[..|r.slot| - 1];
    Awaited(f, t, s, r);
    assert s'.frames.Keys == s.frames.Keys;
    forall q ensures ContextOk(f, t, s', q) {
      if q == p {
        DeliveredParent(f, t, s, r);
      } else {
        DeliveredOther(f, t, s, r, q);
      }
    }
    hide ContextOk, Value, Rcv;
    assert forall q :: q in s'.frames <==> q in s.frames;
    forall x ensures ReplyOk(f, t, s', x) {
      assert ReplyOk(f, t, s, x);
    }
  }

  lemma StepOk(f: Apply, t: Tree, s: World, e: Event)
    requires Narrow(t) && Inv(f, t, s) && Enabled(t, s, e)
    ensures Inv(f, t, Step(f, t, s, e))
  {
    hide Inv, Step;
    match e
    case Dispatch(p) => DispatchOk(f, t, s, p);
    case Run(p) => RunOk(f, t, s, p);
    case Deliver(r) =>
      if r.slot == [] {
        RootDeliverOk(f, t, s, r);
      } else {
        SlotDeliverOk(f, t, s, r);
      }
  }

  // Safety: the invariant holds throughout every run.
  lemma {:induction false} EveryRunOk(f: Apply, t: Tree, es: seq<Event>)
    requires Narrow(t) && After(f, t, es).Some?
    ensures Inv(f, t, After(f, t, es).value)
    decreases |es|
  {
    hide Inv, Step, Narrow, Enabled;
    if es == [] {
      InitOk(f, t);
    } else {
      EveryRunOk(f, t, es[..|es| - 1]);
      StepOk(f, t, After(f, t, es[..|es| - 1]).value, es[|es| - 1]);
    }
  }

  // ------------------------------------------------------------------
  // Termination
  // ------------------------------------------------------------------

  // Steps that may still be taken: a dispatch, a delivery and a run for each context.
  function Left(t: Tree, s: World): int {
    |Paths(t)| - |s.frames| + 2 * (|Paths(t)| - |s.delivered|) + |s.pool|
  }

  lemma {:induction false} SubsetSize(xs: set<Path>, ys: set<Path>)
    requires xs <= ys
    ensures |xs| <= |ys|
    decreases xs
  {
    if xs != {} {
      var x :| x in xs;
      SubsetSize(xs - {x}, ys - {x});
    }
  }

  lemma LeftNatural(f: Apply, t: Tree, s: World)
    requires Inv(f, t, s)
    ensures Left(t, s) >= 0
  {
    forall p ensures (p in s.frames ==> p in Paths(t)) && (p in s.delivered ==> p in Paths(t)) {
      assert ContextOk(f, t, s, p);
    }
    hide Inv, ContextOk, Paths;
    SubsetSize(s.frames.Keys, Paths(t));
    SubsetSize(s.delivered, Paths(t));
  }

  lemma LeftShrinks(f: Apply, t: Tree, s: World, e: Event)
    requires Inv(f, t, s) && Enabled(t, s, e)
    ensures Left(t, Step(f, t, s, e)) < Left(t, s)
  {
    var s' := Step(f, t, s, e);
    match e {
      case Dispatch(p) =>
        assert s'.frames.Keys == s.frames.Keys + {p};
      case Run(p) =>
        assert |s'.pool| == |s.pool| - 1;
      case Deliver(r) =>
        Awaited(f, t, s, r);
        assert s'.frames.Keys == s.frames.Keys;
        assert |s'.delivered| == |s.delivered| + 1;
        assert |s'.pool| <= |s.pool| + 1;
    }
  }

  // No run takes more than three steps for each context.
  lemma {:induction false} RunsEnd(f: Apply, t: Tree, es: seq<Event>)
    requires Narrow(t) && After(f, t, es).Some?
    ensures |es| < 3 * |Paths(t)|
  {
    RunLength(f, t, es);
    EveryRunOk(f, t, es);
    LeftNatural(f, t, After(f, t, es).value);
  }

  lemma {:induction false} RunLength(f: Apply, t: Tree, es: seq<Event>)
    requires Narrow(t) && After(f, t, es).Some?
    ensures |es| + Left(t, After(f, t, es).value) < 3 * |Paths(t)|
    decreases |es|
  {
    if es == [] {
      assert Init(f, t).frames.Keys == {[]};
    } else {
      hide Inv, Step, Narrow, Enabled, Left;
      RunLength(f, t, es[..|es| - 1]);
      EveryRunOk(f, t, es[..|es| - 1]);
      LeftShrinks(f, t, After(f, t, es[..|es| - 1]).value, es[|es| - 1]);
    }
  }

  // ------------------------------------------------------------------
  // Every run that cannot go on has computed everything, whatever its order
  // ------------------------------------------------------------------

  function FinalFrame(f: Apply, n: Tree): Frame {
    Frame(Values(f, n.slots), 0)
  }

  // Contexts that wait for something are scheduled; the others never are.
  function Waiters(t: Tree): (ps: set<Path>)
    ensures forall p :: p in ps <==> At(t, p).Some? && Outstanding(At(t, p).value, [], {}) > 0
  {
    set p | p in Paths(t) && Outstanding(At(t, p).value, [], {}) > 0
  }

  function Final(f: Apply, t: Tree): World {
    World(map p | p in Paths(t) :: FinalFrame(f, At(t, p).value), multiset{}, multiset{}, [Value(f, t)],
          Paths(t), multiset(Waiters(t)))
  }

  ghost predicate Stuck(t: Tree, s: World) {
    forall e :: !Enabled(t, s, e)
  }

  lemma StuckQuiet(f: Apply, t: Tree, s: World)
    requires Inv(f, t, s) && Stuck(t, s)
    ensures s.pool == multiset{} && s.replies == multiset{}
  {
    forall p ensures p !in s.pool {
      assert ContextOk(f, t, s, p);
      assert !Enabled(t, s, Run(p));
    }
    forall r ensures r !in s.replies {
      assert ReplyOk(f, t, s, r);
      assert !Enabled(t, s, Deliver(r));
    }
  }

  lemma {:induction false} StuckStarted(f: Apply, t: Tree, s: World, p: Path)
    requires Inv(f, t, s) && Stuck(t, s) && At(t, p).Some?
    ensures p in s.frames
    decreases |p|
  {
    if p != [] {
      var q, i := p[..|p| - 1], p[|p| - 1];
      assert p == q + [i];
      AtSnoc(t, q, i);
      StuckStarted(f, t, s, q);
      assert !Enabled(t, s, Dispatch(p));
    }
  }

  // By induction on the context: all that it awaits has arrived, so it does not wait.
  lemma {:induction false} StuckDelivered(f: Apply, t: Tree, s: World, p: Path, n: Tree)
    requires Inv(f, t, s) && Stuck(t, s) && At(t, p) == Some(n)
    ensures p in s.delivered && p in s.frames && s.frames[p] == FinalFrame(f, n)
    ensures s.scheduled[p] == if Outstanding(n, [], {}) > 0 then 1 else 0
    decreases n
  {
    forall i | 0 <= i < |n.slots| && n.slots[i].Awaits? ensures p + [i] in s.delivered {
      AtSnoc(t, p, i);
      StuckDelivered(f, t, s, p + [i], n.slots[i].t);
    }
    PendingNone(n.slots, |n.slots|, p, s.delivered);
    StuckStarted(f, t, s, p);
    StuckQuiet(f, t, s);
    assert ContextOk(f, t, s, p);
    hide Outstanding, Value, At, Inv, Stuck;
    assert s.frames[p].args == Values(f, n.slots);
  }

  lemma StuckFinal(f: Apply, t: Tree, s: World)
    requires Inv(f, t, s) && Stuck(t, s)
    ensures s == Final(f, t)
  {
    StuckQuiet(f, t, s);
    forall p ensures p in s.frames <==> At(t, p).Some? {
      assert ContextOk(f, t, s, p);
      if At(t, p).Some? {
        StuckStarted(f, t, s, p);
      }
    }
    forall p ensures p in s.delivered <==> At(t, p).Some? {
      assert ContextOk(f, t, s, p);
      if At(t, p).Some? {
        StuckDelivered(f, t, s, p, At(t, p).value);
      }
    }
    forall p | At(t, p).Some? ensures s.frames[p] == FinalFrame(f, At(t, p).value) {
      StuckDelivered(f, t, s, p, At(t, p).value);
    }
    forall p ensures s.scheduled[p] == multiset(Waiters(t))[p] {
      assert ContextOk(f, t, s, p);
      if At(t, p).Some? {
        StuckDelivered(f, t, s, p, At(t, p).value);
      }
    }
    assert At(t, []) == Some(t);
    hide At, Paths, Inv, Stuck, Value, Waiters, ContextOk, FinalFrame;
    assert s.scheduled == multiset(Waiters(t));
    assert s.delivered == Paths(t);
    assert s.frames == Final(f, t).frames;
  }

  /**
   Every run is finite, and those that cannot be continued all end alike: the value of the
   sequential evaluation is the one answer, every slot holds the value of its sub-expression,
   and every context that had to wait was scheduled exactly once.
   */
  lemma Confluence(f: Apply, t: Tree, es: seq<Event>)
    requires Narrow(t) && After(f, t, es).Some? && Stuck(t, After(f, t, es).value)
    ensures After(f, t, es).value == Final(f, t)
  {
    EveryRunOk(f, t, es);
    StuckFinal(f, t, After(f, t, es).value);
  }

  // No run is ever in a dead end: each goes on to the end common to all.
  lemma {:induction false} Completes(f: Apply, t: Tree, es: seq<Event>) returns (more: seq<Event>)
    requires Narrow(t) && After(f, t, es).Some?
    ensures After(f, t, es + more) == Some(Final(f, t))
    decreases 3 * |Paths(t)| - |es|
  {
    hide Narrow, After, Final, Step, Paths, Enabled, Stuck;
    RunsEnd(f, t, es);
    if Stuck(t, After(f, t, es).value) {
      Confluence(f, t, es);
      more := [];
      assert es + more == es;
    } else {
      var e := Goes(f, t, es);
      var rest := Completes(f, t, es + [e]);
      more := [e] + rest;
      assert es + more == es + [e] + rest;
    }
  }

  lemma Goes(f: Apply, t: Tree, es: seq<Event>) returns (e: Event)
    requires After(f, t, es).Some? && !Stuck(t, After(f, t, es).value)
    ensures After(f, t, es + [e]).Some?
  {
    hide After, Step;
    e :| Enabled(t, After(f, t, es).value, e);
    RunExtends(f, t, es, e);
  }

  // A context is scheduled only once all replies it awaits have arrived.
  lemma ScheduledWhenFilled(f: Apply, t: Tree, es: seq<Event>, p: Path)
    requires Narrow(t) && After(f, t, es).Some? && p in After(f, t, es).value.pool
    ensures At(t, p).Some? && p in After(f, t, es).value.frames
    ensures After(f, t, es).value.frames[p].args == Values(f, At(t, p).value.slots)
    ensures After(f, t, es).value.scheduled[p] == 1
  {
    EveryRunOk(f, t, es);
    hide After, Narrow;
    PoolFilled(f, t, After(f, t, es).value, p);
  }

  lemma PoolFilled(f: Apply, t: Tree, s: World, p: Path)
    requires Inv(f, t, s) && p in s.pool
    ensures At(t, p).Some? && p in s.frames && s.scheduled[p] == 1
    ensures s.frames[p].args == Values(f, At(t, p).value.slots)
  {
    assert ContextOk(f, t, s, p);
    var n := At(t, p).value;
    PendingNone(n.slots, |n.slots|, p, s.delivered);
    hide At, Value, Outstanding;
    assert s.frames[p].args == Values(f, n.slots);
  }

  // ------------------------------------------------------------------
  // The counter has eight bits
  // ------------------------------------------------------------------

  // Dispatch the contexts on the way to p.
  function Descent(p: Path): seq<Event> {
    if p == [] then [] else Descent(p[..|p| - 1]) + [Dispatch(p)]
  }

  lemma {:induction false} DescentRuns(f: Apply, t: Tree, p: Path) returns (s: World)
    requires At(t, p).Some?
    ensures After(f, t, Descent(p)) == Some(s)
    ensures p in s.frames && s.frames[p] == InitialFrame(At(t, p).value) && s.delivered == {}
    ensures forall q :: q in s.frames ==> |q| <= |p|
    ensures InitialFrame(At(t, p).value).outstanding == 0 ==>
              Reply(p, f(At(t, p).value.op, InitialArgs(At(t, p).value.slots))) in s.replies
    decreases |p|
  {
    if p == [] {
      s := Init(f, t);
    } else {
      var q, i := p[..|p| - 1], p[|p| - 1];
      assert p == q + [i];
      AtSnoc(t, q, i);
      var s1 := DescentRuns(f, t, q);
      hide At, Outstanding, Init, Pending, InitialArgs;
      RunExtends(f, t, Descent(q), Dispatch(p));
      s := Step(f, t, s1, Dispatch(p));
    }
  }

  lemma RunExtends(f: Apply, t: Tree, es: seq<Event>, e: Event)
    requires After(f, t, es).Some? && Enabled(t, After(f, t, es).value, e)
    ensures After(f, t, es + [e]) == Some(Step(f, t, After(f, t, es).value, e))
  {
    hide Enabled, Step, Init;
    assert (es + [e])[..|es + [e]| - 1] == es;
  }

  // Every reply sent so far is the value of its sender.
  ghost predicate Truthful(f: Apply, t: Tree, s: World) {
    forall r :: r in s.replies ==> At(t, r.slot).Some? && r.v == Value(f, At(t, r.slot).value)
  }

  ghost predicate AlwaysTruthful(t: Tree) {
    forall f: Apply, es :: After(f, t, es).Some? ==> Truthful(f, t, After(f, t, es).value)
  }

  // Path x leads to context q or to one below it.
  ghost predicate Under(q: Path, x: Path) {
    |q| <= |x| && x[..|q|] == q
  }

  lemma UnderChild(p: Path, i: nat, x: Path)
    ensures Under(p + [i], x) ==> Under(p, x) && !Under(p + [i], p)
    ensures forall k: nat :: Under(p + [i], x) && Under(p + [k], x) ==> i == k
  {
    if Under(p + [i], x) {
      assert x[..|p|] == (p + [i])[..|p|] == p;
      assert x[|p|] == (p + [i])[|p|] == i;
      forall k: nat | Under(p + [k], x) ensures i == k {
        assert x[|p|] == (p + [k])[|p|] == k;
      }
    }
  }

  // The same contexts, with the same contents, outside of q.
  ghost predicate SameOutside(q: Path, s: World, s': World) {
    forall x :: !Under(q, x) ==> (x in s.frames <==> x in s'.frames) && (x in s.frames ==> s.frames[x] == s'.frames[x])
  }

  lemma SameOutsideTrans(q: Path, s: World, s1: World, s2: World)
    requires SameOutside(q, s, s1) && SameOutside(q, s1, s2)
    ensures SameOutside(q, s, s2)
  {
  }

  ghost predicate Fresh(q: Path, s: World) {
    forall x :: x in s.frames ==> !Under(q, x)
  }

  // The awaited slots from j on.
  function Ahead(n: Tree, j: nat): int
    requires j <= |n.slots|
  {
    Outstanding(n, [], {}) - Pending(n.slots, j, [], {})
  }

  // Every context can come to reply, with whatever value.
  lemma {:induction false} Replies(f: Apply, t: Tree, es: seq<Event>, s: World, q: Path, n: Tree)
    returns (es': seq<Event>, s': World, v: Val)
    requires After(f, t, es) == Some(s) && At(t, q) == Some(n) && q != [] && q[..|q| - 1] in s.frames && Fresh(q, s)
    ensures After(f, t, es') == Some(s') && Reply(q, v) in s'.replies && SameOutside(q, s, s')
    decreases n, 1, 0
  {
    hide After, At, Outstanding;
    assert Under(q, q);
    RunExtends(f, t, es, Dispatch(q));
    es', s' := es + [Dispatch(q)], Step(f, t, s, Dispatch(q));
    if InitialFrame(n).outstanding == 0 {
      v := f(n.op, InitialArgs(n.slots));
    } else {
      ghost var s1 := s';
      Startable(n);
      forall i: nat ensures Fresh(q + [i], s1) {
        NothingBelow(q, i, s, s1);
      }
      var k;
      es', s', k := Fills(f, t, es', s', q, n, 0);
      RunExtends(f, t, es', Run(q));
      v := f(n.op, s'.frames[q].args);
      es', s' := es' + [Run(q)], Step(f, t, s', Run(q));
    }
  }

  lemma Startable(n: Tree)
    requires InitialFrame(n).outstanding > 0
    ensures InitialFrame(n).outstanding <= Ahead(n, 0)
  {
  }

  // A context that has just been started has none below it.
  lemma NothingBelow(q: Path, i: nat, s: World, s1: World)
    requires Fresh(q, s) && s1.frames.Keys == s.frames.Keys + {q}
    ensures Fresh(q + [i], s1)
  {
    forall x | x in s1.frames ensures !Under(q + [i], x) {
      UnderChild(q, i, x);
      assert x in s1.frames.Keys;
    }
  }

  // Serving the slots in order until the counter reads zero.
  lemma {:induction false} Fills(f: Apply, t: Tree, es: seq<Event>, s: World, p: Path, n: Tree, j: nat)
    returns (es': seq<Event>, s': World, k: nat)
    requires After(f, t, es) == Some(s) && At(t, p) == Some(n) && p in s.frames && |s.frames[p].args| == |n.slots|
    requires j <= |n.slots| && 0 < s.frames[p].outstanding <= Ahead(n, j)
    requires forall i: nat :: j <= i ==> Fresh(p + [i], s)
    ensures After(f, t, es') == Some(s') && p in s'.pool && p in s'.frames && SameOutside(p, s, s')
    ensures |s'.frames[p].args| == |n.slots| && j <= k <= |n.slots|
    ensures forall i :: k <= i < |n.slots| ==> s'.frames[p].args[i] == s.frames[p].args[i]
    ensures Ahead(n, k) == Ahead(n, j) - s.frames[p].outstanding
    decreases n, 0, |n.slots| - j
  {
    hide After, At, Outstanding;
    AheadShort(n, j);
    if n.slots[j].Ready? {
      es', s', k := Fills(f, t, es, s, p, n, j + 1);
    } else {
      var es1, s1 := OneMore(f, t, es, s, p, n, j);
      if s.frames[p].outstanding == 1 {
        es', s', k := es1, s1, j + 1;
      } else {
        es', s', k := Fills(f, t, es1, s1, p, n, j + 1);
        SameOutsideTrans(p, s, s1, s');
      }
    }
  }

  lemma AheadShort(n: Tree, j: nat)
    requires j <= |n.slots| && Ahead(n, j) > 0
    ensures j < |n.slots| && Ahead(n, j + 1) == Ahead(n, j) - if n.slots[j].Awaits? then 1 else 0
  {
  }

  // The context of slot j replies, and the reply arrives.
  lemma {:induction false} OneMore(f: Apply, t: Tree, es: seq<Event>, s: World, p: Path, n: Tree, j: nat)
    returns (es': seq<Event>, s': World)
    requires After(f, t, es) == Some(s) && At(t, p) == Some(n) && p in s.frames && |s.frames[p].args| == |n.slots|
    requires j < |n.slots| && n.slots[j].Awaits? && s.frames[p].outstanding > 0
    requires forall i: nat :: j <= i ==> Fresh(p + [i], s)
    ensures After(f, t, es') == Some(s') && p in s'.frames && |s'.frames[p].args| == |n.slots| && SameOutside(p, s, s')
    ensures s'.frames[p].outstanding == s.frames[p].outstanding - 1
    ensures forall i :: j < i < |n.slots| ==> s'.frames[p].args[i] == s.frames[p].args[i]
    ensures s.frames[p].outstanding == 1 ==> p in s'.pool
    ensures forall i: nat :: j < i ==> Fresh(p + [i], s')
    decreases n, 0, 0
  {
    var q := p + [j];
    AtSnoc(t, p, j);
    hide After, At, Outstanding;
    assert q[..|q| - 1] == p;
    var es1, s1, v := Replies(f, t, es, s, q, n.slots[j].t);
    UnderChild(p, j, q);
    assert !Under(q, p);
    RunExtends(f, t, es1, Deliver(Reply(q, v)));
    es', s' := es1 + [Deliver(Reply(q, v))], Step(f, t, s1, Deliver(Reply(q, v)));
    assert s'.frames.Keys == s1.frames.Keys && forall x :: x in s1.frames && x != p ==> s'.frames[x] == s1.frames[x];
    AfterReply(p, j, s, s1, s');
  }

  lemma AfterReply(p: Path, j: nat, s: World, s1: World, s': World)
    requires SameOutside(p + [j], s, s1) && s'.frames.Keys == s1.frames.Keys
    requires forall x :: x in s1.frames && x != p ==> s'.frames[x] == s1.frames[x]
    requires forall i: nat :: j <= i ==> Fresh(p + [i], s)
    ensures SameOutside(p, s, s') && forall i: nat :: j < i ==> Fresh(p + [i], s')
  {
    forall x | !Under(p, x)
      ensures (x in s.frames <==> x in s'.frames) && (x in s.frames ==> s.frames[x] == s'.frames[x])
    {
      UnderChild(p, j, x);
      assert Under(p, p);
      assert x in s'.frames.Keys <==> x in s1.frames.Keys;
    }
    forall i: nat, x | j < i && x in s'.frames ensures !Under(p + [i], x) {
      assert x in s1.frames.Keys;
      UnderChild(p, j, x);
      if !Under(p + [j], x) {
        assert x in s.frames && Fresh(p + [i], s);
      }
    }
  }

  // A context answers with a slot unfilled.
  lemma Unfilled(n: Tree, args: seq<Val>, k: nat)
    requires |args| == |n.slots| && k <= |n.slots| && Ahead(n, k) > 0
    requires forall i :: k <= i < |n.slots| ==> args[i] == InitialArgs(n.slots)[i]
    ensures Tup(args) != Value((op, vs) => Tup(vs), n)
  {
    var f: Apply := (op, vs) => Tup(vs);
    var i := AwaitedFrom(n, k);
    assert args[i] == Niv;
    assert Values(f, n.slots)[i] == Value(f, n.slots[i].t) == Tup(Values(f, n.slots[i].t.slots));
    assert Value(f, n) == Tup(Values(f, n.slots));
  }

  lemma {:induction false} AwaitedFrom(n: Tree, k: nat) returns (i: nat)
    requires k <= |n.slots| && Ahead(n, k) > 0
    ensures k <= i < |n.slots| && n.slots[i].Awaits?
    decreases |n.slots| - k
  {
    AheadShort(n, k);
    if n.slots[k].Awaits? {
      i := k;
    } else {
      i := AwaitedFrom(n, k + 1);
    }
  }

  // A context with more than 255 replies to come answers before they have all arrived: once as many
  // have arrived as exceed a multiple of 256, its counter reads zero.
  lemma AnswersEarly(t: Tree, p: Path)
    requires At(t, p).Some? && Outstanding(At(t, p).value, [], {}) > 255
    ensures !AlwaysTruthful(t)
  {
    var f: Apply := (op, args) => Tup(args);
    var n := At(t, p).value;
    var s := DescentRuns(f, t, p);
    if InitialFrame(n).outstanding == 0 {
      Unfilled(n, InitialArgs(n.slots), 0);
      Untruthful(f, t, Descent(p), s, p, n, f(n.op, InitialArgs(n.slots)));
    } else {
      Startable(n);
      forall i: nat ensures Fresh(p + [i], s) {
      }
      assert InitialFrame(n).outstanding < Ahead(n, 0);
      hide After, At, Outstanding;
      var es', s', k := Fills(f, t, Descent(p), s, p, n, 0);
      RunExtends(f, t, es', Run(p));
      Unfilled(n, s'.frames[p].args, k);
      Untruthful(f, t, es' + [Run(p)], Step(f, t, s', Run(p)), p, n, f(n.op, s'.frames[p].args));
    }
  }

  lemma Untruthful(f: Apply, t: Tree, es: seq<Event>, s: World, p: Path, n: Tree, v: Val)
    requires After(f, t, es) == Some(s) && At(t, p) == Some(n) && Reply(p, v) in s.replies && v != Value(f, n)
    ensures !AlwaysTruthful(t)
  {
    hide After, At, Value;
    assert !Truthful(f, t, s);
  }

  // All answers are right throughout all runs exactly if no context awaits more than 255 replies.
  lemma TruthfulExact(t: Tree)
    ensures AlwaysTruthful(t) <==> Narrow(t)
  {
    if Narrow(t) {
      forall f: Apply, es | After(f, t, es).Some? ensures Truthful(f, t, After(f, t, es).value) {
        EveryRunOk(f, t, es);
        RepliesRight(f, t, After(f, t, es).value);
      }
    } else {
      var p :| At(t, p).Some? && Outstanding(At(t, p).value, [], {}) > 255;
      AnswersEarly(t, p);
    }
  }

  lemma RepliesRight(f: Apply, t: Tree, s: World)
    requires Inv(f, t, s)
    ensures Truthful(f, t, s)
  {
    forall r | r in s.replies ensures At(t, r.slot).Some? && r.v == Value(f, At(t, r.slot).value) {
      assert ReplyOk(f, t, s, r);
    }
  }

  // Each live context counts exactly the replies that have not arrived.
  ghost predicate Counted(t: Tree, s: World) {
    forall p :: p in s.frames && At(t, p).Some? ==>
      s.frames[p].outstanding == Outstanding(At(t, p).value, p, s.delivered)
  }

  ghost predicate AlwaysCounted(t: Tree) {
    forall f: Apply, es :: After(f, t, es).Some? ==> Counted(t, After(f, t, es).value)
  }

  // The counters are right throughout all runs exactly if no context awaits more than 255 replies.
  lemma NarrowExact(t: Tree)
    ensures AlwaysCounted(t) <==> Narrow(t)
  {
    if Narrow(t) {
      forall f: Apply, es | After(f, t, es).Some? ensures Counted(t, After(f, t, es).value) {
        EveryRunOk(f, t, es);
        CountersRight(f, t, After(f, t, es).value);
      }
    } else {
      var p :| At(t, p).Some? && Outstanding(At(t, p).value, [], {}) > 255;
      Miscounts(t, p);
    }
  }

  lemma Miscounts(t: Tree, p: Path)
    requires At(t, p).Some? && Outstanding(At(t, p).value, [], {}) > 255
    ensures !AlwaysCounted(t)
  {
    var f: Apply := (op, args) => Tup(args);
    var n := At(t, p).value;
    var s := DescentRuns(f, t, p);
    PendingFresh(n.slots, |n.slots|, p, s.delivered);
    assert s.frames[p].outstanding != Outstanding(n, p, s.delivered);
    hide After, At, Pending, InitialFrame, Outstanding;
    assert !Counted(t, s);
  }

  lemma CountersRight(f: Apply, t: Tree, s: World)
    requires Inv(f, t, s)
    ensures Counted(t, s)
  {
    forall p | p in s.frames && At(t, p).Some?
      ensures s.frames[p].outstanding == Outstanding(At(t, p).value, p, s.delivered)
    {
      assert ContextOk(f, t, s, p);
    }
  }
}
