/**
 Compiler correctness: running the emitted code has the meaning of the expression.

 The statements are about code that is emitted into a unit u, which has grown into a unit f by
 the time it is linked to the program p.  `Kept` says what a stretch of code may change: argument
 registers below av_size, its destinations and the result register.

 The proof follows the emitter.  SimplesRun covers the simple sub-expressions of a request,
 InlinedRun the inlined ones in the order of the plan, where Schedule.Safe protects every result
 until XfersRun has brought it home; KidsRun puts them together.  InlineRuns goes by induction on the
 expression: its value arrives in the destination, or the machine faults.  TailRuns does the same for
 tail position, where the code returns a value or dispatches a message, and CompilerCorrect links the
 program and starts it.
 */
module Correct {
  import opened Codec
  import opened Wrappers
  import opened Vm
  import opened Schedule
  import opened Compile
  import opened Meaning
  import opened Linking
  import opened Leaves
  import opened Growth
  import opened Plans

  // Destinations of sub-expressions that are evaluated in place.
  ghost predicate RegDest(dest: Location) {
    dest.ArgReg? || dest == LocRslt || dest == LocTrgt
  }

  // From s to t, only argument registers below av, the result register and `dests` change.
  ghost predicate Kept(s: State, t: State, av: nat, dests: set<Location>) {
    && |t.args| == |s.args| && t.cells == s.cells
    && (forall r :: 1 <= r < NUMBER_OF_CTXT_REGS && CtxtReg(r) !in dests ==> t.regs[r] == s.regs[r])
    && (forall k :: av <= k < |s.args| && ArgReg(k) !in dests ==> t.args[k] == s.args[k])
  }

  lemma KeptTrans(s: State, t: State, w: State, a: nat, b: nat, c: nat, d: set<Location>, e: set<Location>, g: set<Location>)
    requires Kept(s, t, a, d) && Kept(t, w, b, e) && a <= c && b <= c && d <= g && e <= g
    ensures Kept(s, w, c, g)
  {
  }

  // The environments are never a destination, so the scope stays.
  ghost predicate Outside(dests: set<Location>) {
    forall d :: d in dests ==> RegDest(d)
  }

  lemma KeptScope(s: State, t: State, av: nat, dests: set<Location>)
    requires Kept(s, t, av, dests) && Outside(dests)
    ensures ScopeOf(t) == ScopeOf(s)
  {
  }

  // The setting in which emitted code is run: u grew to w, and f is the finished unit, linked as p.
  ghost predicate Setting(u: Unit, w: Unit, f: Unit, p: Program) {
    Valid(u) && Extends(w, f) && Linked(f, p) && |f.code| < 1024
  }

  // ------------------------------------------------------------------
  // Simple expressions and transfers
  // ------------------------------------------------------------------

  lemma SimpleRuns(mc: Machine, p: Program, f: Unit, u: Unit, e: Expr, dest: Location, s: State) returns (t: State)
    requires Simple(e) && Representable(e) && RegDest(dest) && Storable(s, dest)
    requires Valid(u) && Extends(EmitSimple(u, e, dest), f) && Linked(f, p) && At(u, s)
    ensures var v := Eval(mc, ScopeOf(s), e);
            && Reaches(mc, p, s, t)
            && (v.None? ==> t.status == Fault)
            && (v.Some? ==> t.pc == |EmitSimple(u, e, dest).code| && Assigned(s, t, dest, v.value))
  {
    hide Extends, Linked, Valid, Reaches, Assigned;
    match e
    case Const(v) => t := LitRuns(mc, p, f, u, dest, v, s);
    case Var(loc) => t := XferRuns(mc, p, f, u, dest, loc, s);
    case Free(sym, deferred) => t := LookupRuns(mc, p, f, u, dest, sym, deferred, s);
  }

  lemma AssignedKept(s: State, t: State, dest: Location, v: Val)
    requires Assigned(s, t, dest, v) && RegDest(dest) && Storable(s, dest)
    ensures t.status == Running && Kept(s, t, 0, {dest}) && Fetch(t, dest) == v
  {
  }

  // A value elsewhere is still there.
  lemma FetchKept(s: State, t: State, av: nat, dests: set<Location>, loc: Location)
    requires Kept(s, t, av, dests) && loc !in dests
    requires (loc.ArgReg? && av <= loc.i < |s.args|) || loc == LocTrgt
    ensures Fetch(t, loc) == Fetch(s, loc)
  {
  }

  // What o's items hold: the first n in their final place, the others back home.
  ghost predicate Holding(o: Order, n: nat, s: State, vals: seq<Val>)
    requires |o.items| == |o.home| == |vals| && n <= |vals|
  {
    && (forall a :: 0 <= a < n ==> Fetch(s, o.items[a].dest) == vals[a])
    && (forall a :: n <= a < |vals| ==> Fetch(s, o.home[a].dest) == vals[a])
  }

  ghost predicate Reachable(o: Order, s: State) {
    && Safe(o) && o.av <= |s.args| && o.av <= 255
    && (forall a :: 0 <= a < |o.home| ==> o.home[a].dest.ArgReg? || o.home[a].dest == LocTrgt)
  }

  // Moving item n home disturbs no other item.
  lemma HomeStep(o: Order, n: nat, s: State, t: State, vals: seq<Val>)
    requires Reachable(o, s) && 0 < n <= |o.items| && |vals| == |o.items| && Holding(o, n, s, vals)
    requires o.items[n - 1].dest != o.home[n - 1].dest
    requires Kept(s, t, 0, {o.home[n - 1].dest}) && Fetch(t, o.home[n - 1].dest) == vals[n - 1]
    ensures Holding(o, n - 1, t, vals)
  {
    var d := o.home[n - 1].dest;
    forall a | 0 <= a < n - 1 ensures Fetch(t, o.items[a].dest) == vals[a] {
      assert Placed(o.home, o.items, a);
      assert o.items[a].dest != d;
    }
    forall a | n <= a < |vals| ensures Fetch(t, o.home[a].dest) == vals[a] {
      assert o.home[a].dest != d;
    }
  }

  // One transfer: item n goes home.
  lemma XferHome(mc: Machine, p: Program, f: Unit, u: Unit, o: Order, n: nat, s: State, vals: seq<Val>)
    returns (u1: Unit, m: State)
    requires Reachable(o, s) && 0 < n <= |o.items| && |vals| == |o.items| && Holding(o, n, s, vals)
    requires Valid(u) && Extends(EmitXfers(u, Xfers(o.home, o.items, n)), f) && Linked(f, p) && At(u, s)
    requires o.items[n - 1].dest != o.home[n - 1].dest
    ensures EmitXfers(u, Xfers(o.home, o.items, n)) == EmitXfers(u1, Xfers(o.home, o.items, n - 1))
    ensures Valid(u1) && At(u1, m) && Reaches(mc, p, s, m)
    ensures Holding(o, n - 1, m, vals) && Reachable(o, m) && Kept(s, m, o.av, {})
  {
    var xs, ys := Xfers(o.home, o.items, n), Xfers(o.home, o.items, n - 1);
    var d, src := o.home[n - 1].dest, o.items[n - 1].dest;
    assert Placed(o.home, o.items, n - 1);
    assert xs[|xs| - 1] == (src.i, d) && xs[..|xs| - 1] == ys;
    u1 := EmitXfer(u, d, src);
    assert EmitXfers(u, xs) == EmitXfers(u1, ys);
    hide EmitXfers, EmitXfer, Xfers;
    XferQuiet(u, d, src);
    XfersQuiet(u1, ys);
    ExtendsTrans(u1, EmitXfers(u1, ys), f);
    hide Extends, Linked, Valid, Reaches;
    m := XferRuns(mc, p, f, u, d, src, s);
    AssignedKept(s, m, d, vals[n - 1]);
    HomeStep(o, n, s, m, vals);
  }

  lemma XfersNone(u: Unit, o: Order, s: State)
    requires |o.items| == |o.home| && At(u, s)
    ensures EmitXfers(u, Xfers(o.home, o.items, 0)) == u && s.status == Running && s.pc == |u.code|
    ensures Kept(s, s, o.av, {})
  {
  }

  lemma XfersSame(o: Order, n: nat, s: State, vals: seq<Val>)
    requires 0 < n <= |o.items| == |o.home| == |vals| && Holding(o, n, s, vals)
    requires o.items[n - 1].dest == o.home[n - 1].dest
    ensures Xfers(o.home, o.items, n) == Xfers(o.home, o.items, n - 1) && Holding(o, n - 1, s, vals)
  {
  }

  lemma {:induction false} XfersRun(mc: Machine, p: Program, f: Unit, u: Unit, o: Order, n: nat, s: State, vals: seq<Val>)
    returns (t: State)
    requires Reachable(o, s) && n <= |o.items| == |o.home| == |vals| && Holding(o, n, s, vals)
    requires Valid(u) && Extends(EmitXfers(u, Xfers(o.home, o.items, n)), f) && Linked(f, p) && At(u, s)
    ensures Reaches(mc, p, s, t) && t.status == Running && t.pc == |EmitXfers(u, Xfers(o.home, o.items, n)).code|
    ensures Holding(o, 0, t, vals) && Kept(s, t, o.av, {})
    decreases n
  {
    hide *;
    if n == 0 {
      XfersNone(u, o, s);
      ReachesSelf(mc, p, s);
      t := s;
    } else if o.items[n - 1].dest == o.home[n - 1].dest {
      XfersSame(o, n, s, vals);
      t := XfersRun(mc, p, f, u, o, n - 1, s, vals);
    } else {
      var u1, m := XferHome(mc, p, f, u, o, n, s, vals);
      t := XfersRun(mc, p, f, u1, o, n - 1, m, vals);
      ReachesTrans(mc, p, s, m, t);
      KeptTrans(s, m, t, o.av, o.av, o.av, {}, {}, {});
    }
  }

  // ------------------------------------------------------------------
  // The simple sub-expressions of a request
  // ------------------------------------------------------------------

  ghost function KidDests(e: Expr, ids: seq<nat>): set<Location> {
    set i | 0 <= i < |ids| && IsKid(e, ids[i]) :: KidDest(e, ids[i])
  }

  // One of the sub-expressions has no value.
  ghost predicate Fails(mc: Machine, sc: Scope, e: Expr, ids: seq<nat>) {
    exists i :: 0 <= i < |ids| && IsKid(e, ids[i]) && Eval(mc, sc, Kid(e, ids[i])).None?
  }

  // Sub-expression id has been evaluated into its register.
  ghost predicate HasValue(mc: Machine, sc: Scope, e: Expr, id: nat, s: State, loc: Location)
    requires IsKid(e, id)
  {
    Eval(mc, sc, Kid(e, id)) == Some(Fetch(s, loc))
  }

  ghost predicate RequestFits(e: Expr, s: State) {
    e.Request? && Arity(e) <= |s.args| && Arity(e) <= 255
  }

  lemma KidDestOk(e: Expr, id: nat, s: State)
    requires RequestFits(e, s) && IsKid(e, id)
    ensures RegDest(KidDest(e, id)) && Storable(s, KidDest(e, id)) && KidDest(e, id) != LocRslt
    ensures KidDest(e, id).ArgReg? ==> KidDest(e, id).i < Arity(e)
  {
  }

  // Running sub-expression `last` first and the earlier ones of ids after it.
  lemma SimplesStep(mc: Machine, sc: Scope, e: Expr, ids: seq<nat>, s: State, m: State, t: State)
    requires RequestFits(e, s) && |ids| > 0 && AllKids(e, ids) && DistinctIds(ids)
    requires var last := ids[|ids| - 1]; var rest := ids[..|ids| - 1];
             && Kept(s, m, 0, {KidDest(e, last)}) && HasValue(mc, sc, e, last, m, KidDest(e, last))
             && Kept(m, t, 0, KidDests(e, rest))
             && (forall i :: 0 <= i < |rest| ==> HasValue(mc, sc, e, rest[i], t, KidDest(e, rest[i])))
    ensures Kept(s, t, 0, KidDests(e, ids))
    ensures forall i :: 0 <= i < |ids| ==> HasValue(mc, sc, e, ids[i], t, KidDest(e, ids[i]))
  {
    var last, rest := ids[|ids| - 1], ids[..|ids| - 1];
    KidDestOk(e, last, s);
    assert KidDest(e, last) !in KidDests(e, rest);
    FetchKept(m, t, 0, KidDests(e, rest), KidDest(e, last));
    assert KidDests(e, rest) <= KidDests(e, ids) by {
      forall d | d in KidDests(e, rest) ensures d in KidDests(e, ids) {
        var i :| 0 <= i < |rest| && IsKid(e, rest[i]) && KidDest(e, rest[i]) == d;
        assert ids[i] == rest[i];
      }
    }
    KeptTrans(s, m, t, 0, 0, 0, {KidDest(e, last)}, KidDests(e, rest), KidDests(e, ids));
    forall i | 0 <= i < |ids| ensures HasValue(mc, sc, e, ids[i], t, KidDest(e, ids[i])) {
      if i < |rest| {
        assert rest[i] == ids[i];
      }
    }
  }

  lemma {:induction false} SimplesRun(mc: Machine, p: Program, f: Unit, u: Unit, e: Expr, ids: seq<nat>, s: State)
    returns (t: State)
    requires RequestFits(e, s) && Representable(e) && AllKids(e, ids) && DistinctIds(ids)
    requires forall i :: 0 <= i < |ids| ==> Simple(Kid(e, ids[i]))
    requires Valid(u) && Extends(EmitSimples(u, e, ids), f) && Linked(f, p) && At(u, s)
    ensures Reaches(mc, p, s, t)
    ensures Fails(mc, ScopeOf(s), e, ids) ==> t.status == Fault
    ensures !Fails(mc, ScopeOf(s), e, ids) ==>
              && t.status == Running && t.pc == |EmitSimples(u, e, ids).code| && Kept(s, t, 0, KidDests(e, ids))
              && (forall i :: 0 <= i < |ids| ==> HasValue(mc, ScopeOf(s), e, ids[i], t, KidDest(e, ids[i])))
    decreases |ids|
  {
    if ids == [] {
      ReachesSelf(mc, p, s);
      t := s;
    } else {
      var last, rest := ids[|ids| - 1], ids[..|ids| - 1];
      var kid, dest := Kid(e, last), KidDest(e, last);
      var u1 := EmitSimple(u, kid, dest);
      assert EmitSimples(u, e, ids) == EmitSimples(u1, e, rest);
      SimpleQuiet(u, kid, dest);
      SimplesQuiet(u1, e, rest);
      ExtendsTrans(u1, EmitSimples(u1, e, rest), f);
      KidDestOk(e, last, s);
      KidRepresentable(e, last);
      hide Extends, Linked, Reaches, EmitSimple, EmitSimples, Eval, Kept, KidDest, Assigned;
      var m := SimpleRuns(mc, p, f, u, kid, dest, s);
      FailsLast(mc, ScopeOf(s), e, ids);
      if Eval(mc, ScopeOf(s), kid).None? {
        t := m;
      } else {
        AssignedKept(s, m, dest, Eval(mc, ScopeOf(s), kid).value);
        KeptScope(s, m, 0, {dest});
        KeptFits(e, s, m, 0, {dest});
        t := SimplesRun(mc, p, f, u1, e, rest, m);
        ReachesTrans(mc, p, s, m, t);
        if !Fails(mc, ScopeOf(s), e, rest) {
          SimplesStep(mc, ScopeOf(s), e, ids, s, m, t);
        }
      }
    }
  }

  lemma KeptFits(e: Expr, s: State, t: State, av: nat, dests: set<Location>)
    requires RequestFits(e, s) && Kept(s, t, av, dests)
    ensures RequestFits(e, t)
  {
  }

  lemma KidRepresentable(e: Expr, id: nat)
    requires Representable(e) && IsKid(e, id)
    ensures Representable(Kid(e, id))
  {
  }

  lemma FailsLast(mc: Machine, sc: Scope, e: Expr, ids: seq<nat>)
    requires AllKids(e, ids) && |ids| > 0
    ensures var last := ids[|ids| - 1];
            Fails(mc, sc, e, ids) <==> Eval(mc, sc, Kid(e, last)).None? || Fails(mc, sc, e, ids[..|ids| - 1])
  {
    hide Eval, Kid;
    var rest := ids[..|ids| - 1];
    if Fails(mc, sc, e, rest) {
      var i :| 0 <= i < |rest| && IsKid(e, rest[i]) && Eval(mc, sc, Kid(e, rest[i])).None?;
      assert ids[i] == rest[i];
    }
    if Fails(mc, sc, e, ids) {
      var i :| 0 <= i < |ids| && IsKid(e, ids[i]) && Eval(mc, sc, Kid(e, ids[i])).None?;
      if i < |rest| {
        assert rest[i] == ids[i];
      }
    }
  }

  // ------------------------------------------------------------------
  // What running an expression in place achieves
  // ------------------------------------------------------------------

  ghost predicate Compilable(e: Expr) {
    Fits(e) && Representable(e) && Inlineable(e)
  }

  // Control leaves the code of w at its end, or has jumped to the exit label.
  ghost predicate Exits(f: Unit, w: Unit, exit: nat, t: State) {
    t.pc == |w.code| || (exit < |f.labels| && t.pc == f.labels[exit] && |w.code| > 0)
  }

  ghost predicate Evaluated(mc: Machine, f: Unit, e: Expr, dest: Location, w: Unit, exit: nat, s: State, t: State) {
    var v := Eval(mc, ScopeOf(s), e);
    && (v.None? ==> t.status == Fault)
    && (v.Some? ==> t.status == Running && Kept(s, t, Av(e), {dest}) && Fetch(t, dest) == v.value && Exits(f, w, exit, t))
  }

  // Once the exit label is bound right behind the code, both ways out meet.
  lemma ExitBound(f: Unit, w: Unit, exit: nat, t: State)
    requires exit < |w.labels| && Extends(SetLabel(w, exit), f) && Exits(f, w, exit, t)
    ensures t.pc == |w.code| == |SetLabel(w, exit).code|
  {
  }

  // ------------------------------------------------------------------
  // The inlined sub-expressions of a request
  // ------------------------------------------------------------------

  ghost predicate Runnable(e: Expr, items: seq<Item>, m: nat, s: State) {
    && m <= |s.args|
    && (forall a :: 0 <= a < |items| ==>
          && IsKid(e, items[a].id) && Compilable(Kid(e, items[a].id))
          && items[a].av == Av(Kid(e, items[a].id)) <= m
          && (items[a].dest.ArgReg? || items[a].dest == LocTrgt) && Storable(s, items[a].dest))
    && (forall a, b :: 0 <= a < b < |items| ==> Spared(items, a, b))
  }

  ghost function ItemDests(items: seq<Item>): set<Location> {
    set a | 0 <= a < |items| :: items[a].dest
  }

  ghost predicate ItemsFail(mc: Machine, sc: Scope, e: Expr, items: seq<Item>) {
    exists a :: 0 <= a < |items| && IsKid(e, items[a].id) && Eval(mc, sc, Kid(e, items[a].id)).None?
  }

  ghost predicate ItemsDone(mc: Machine, sc: Scope, e: Expr, items: seq<Item>, t: State) {
    forall a :: 0 <= a < |items| ==> IsKid(e, items[a].id) && HasValue(mc, sc, e, items[a].id, t, items[a].dest)
  }

  // The registers the later items may overwrite, all below the first item's result.
  ghost function Rest(items: seq<Item>, m: nat): nat
    requires |items| > 0
  {
    if items[0].dest.ArgReg? && items[0].dest.i < m then items[0].dest.i else m
  }

  lemma RunnableTail(e: Expr, items: seq<Item>, m: nat, s: State, t: State)
    requires Runnable(e, items, m, s) && |items| > 0 && |t.args| == |s.args|
    ensures Runnable(e, items[1..], Rest(items, m), t)
  {
    hide Compilable, Av, Kid;
    var tail := items[1..];
    forall a | 0 <= a < |tail| ensures tail[a].av <= Rest(items, m) {
      assert tail[a] == items[a + 1];
      assert Spared(items, 0, a + 1);
    }
    forall a, b | 0 <= a < b < |tail| ensures Spared(tail, a, b) {
      assert Spared(items, a + 1, b + 1);
    }
  }

  lemma ItemsFailCons(mc: Machine, sc: Scope, e: Expr, items: seq<Item>)
    requires |items| > 0 && IsKid(e, items[0].id)
    ensures ItemsFail(mc, sc, e, items) <==>
            Eval(mc, sc, Kid(e, items[0].id)).None? || ItemsFail(mc, sc, e, items[1..])
  {
    hide Eval, Kid;
    var tail := items[1..];
    if ItemsFail(mc, sc, e, tail) {
      var a :| 0 <= a < |tail| && IsKid(e, tail[a].id) && Eval(mc, sc, Kid(e, tail[a].id)).None?;
      assert items[a + 1] == tail[a];
    }
    if ItemsFail(mc, sc, e, items) {
      var a :| 0 <= a < |items| && IsKid(e, items[a].id) && Eval(mc, sc, Kid(e, items[a].id)).None?;
      if a > 0 {
        assert items[a] == tail[a - 1];
      }
    }
  }

  // The first item's result survives the others.
  lemma ItemsCons(mc: Machine, sc: Scope, e: Expr, items: seq<Item>, m: nat, s: State, h: State, t: State)
    requires Runnable(e, items, m, s) && |items| > 0
    requires Kept(s, h, items[0].av, {items[0].dest}) && HasValue(mc, sc, e, items[0].id, h, items[0].dest)
    requires Kept(h, t, Rest(items, m), ItemDests(items[1..])) && ItemsDone(mc, sc, e, items[1..], t)
    ensures Kept(s, t, m, ItemDests(items)) && ItemsDone(mc, sc, e, items, t)
  {
    hide Compilable, Av, Kid, Eval;
    var tail := items[1..];
    var d := items[0].dest;
    forall a | 0 <= a < |tail| ensures tail[a].dest != d {
      assert tail[a] == items[a + 1] && Spared(items, 0, a + 1);
    }
    if d.ArgReg? && d.i >= Rest(items, m) {
      FetchKept(h, t, Rest(items, m), ItemDests(tail), d);
    } else {
      assert d == LocTrgt;
    }
    assert ItemDests(tail) <= ItemDests(items) by {
      forall x | x in ItemDests(tail) ensures x in ItemDests(items) {
        var a :| 0 <= a < |tail| && tail[a].dest == x;
        assert items[a + 1] == tail[a];
      }
    }
    KeptTrans(s, h, t, items[0].av, Rest(items, m), m, {d}, ItemDests(tail), ItemDests(items));
    forall a | 0 <= a < |items| ensures IsKid(e, items[a].id) && HasValue(mc, sc, e, items[a].id, t, items[a].dest) {
      if a > 0 {
        assert items[a] == tail[a - 1];
      }
    }
  }

  lemma {:induction false} InlinedRun(mc: Machine, p: Program, f: Unit, u: Unit, e: Expr, items: seq<Item>, exit: nat, m: nat, s: State)
    returns (t: State)
    requires |items| > 0 && Runnable(e, items, m, s)
    requires Setting(u, EmitInlined(u, e, items, exit), f, p) && exit < |u.labels| && At(u, s)
    ensures Reaches(mc, p, s, t)
    ensures ItemsFail(mc, ScopeOf(s), e, items) ==> t.status == Fault
    ensures !ItemsFail(mc, ScopeOf(s), e, items) ==>
              && t.status == Running && Kept(s, t, m, ItemDests(items)) && ItemsDone(mc, ScopeOf(s), e, items, t)
              && Exits(f, EmitInlined(u, e, items, exit), exit, t)
    decreases e, 0, |items|
  {
    var kid, dest := Kid(e, items[0].id), items[0].dest;
    var sc := ScopeOf(s);
    ItemsFailCons(mc, sc, e, items);
    if |items| == 1 {
      t := InlineRuns(mc, p, f, u, kid, dest, exit, s);
      if !ItemsFail(mc, sc, e, items) {
        SingleItem(mc, sc, e, items, m, s, t);
      }
    } else {
      var l := |u.labels|;
      var v := EmitDispatch(NewLabel(u), kid, dest, true, ImplicitRtn, To(l));
      var u1 := SetLabel(v, l);
      var w := EmitInlined(u, e, items, exit);
      InlinedSetting(u, e, items, exit, f, p);
      hide Extends, Linked, Valid, Reaches, Kept, Eval, EmitDispatch, EmitInlined, Runnable, ItemsDone, ItemsFail, Storable;
      assert At(NewLabel(u), s);
      RunnableHead(e, items, m, s);
      var h := InlineRuns(mc, p, f, NewLabel(u), kid, dest, l, s);
      if Eval(mc, sc, kid).None? {
        t := h;
      } else {
        ExitBound(f, v, l, h);
        KeptLength(s, h, Av(kid), {dest});
        RunnableTail(e, items, m, s, h);
        KeptScope(s, h, Av(kid), {dest});
        t := InlinedRun(mc, p, f, u1, e, items[1..], exit, Rest(items, m), h);
        ReachesTrans(mc, p, s, h, t);
        if !ItemsFail(mc, sc, e, items) {
          ItemsCons(mc, sc, e, items, m, s, h, t);
        }
      }
    }
  }

  lemma KeptLength(s: State, t: State, av: nat, dests: set<Location>)
    requires Kept(s, t, av, dests)
    ensures |t.args| == |s.args|
  {
  }

  lemma RunnableHead(e: Expr, items: seq<Item>, m: nat, s: State)
    requires Runnable(e, items, m, s) && |items| > 0
    ensures IsKid(e, items[0].id) && Compilable(Kid(e, items[0].id)) && items[0].av == Av(Kid(e, items[0].id)) <= m <= |s.args|
    ensures RegDest(items[0].dest) && Storable(s, items[0].dest)
  {
  }

  lemma SingleItem(mc: Machine, sc: Scope, e: Expr, items: seq<Item>, m: nat, s: State, t: State)
    requires |items| == 1 && Runnable(e, items, m, s)
    requires Kept(s, t, items[0].av, {items[0].dest}) && HasValue(mc, sc, e, items[0].id, t, items[0].dest)
    ensures Kept(s, t, m, ItemDests(items)) && ItemsDone(mc, sc, e, items, t)
  {
    hide Compilable, Av, Kid, Eval;
    assert items[0].dest in ItemDests(items);
  }

  // The setting of the first of several inlined sub-expressions, and of the others.
  lemma InlinedSetting(u: Unit, e: Expr, items: seq<Item>, exit: nat, f: Unit, p: Program)
    requires |items| > 1 && forall a :: 0 <= a < |items| ==> IsKid(e, items[a].id)
    requires Setting(u, EmitInlined(u, e, items, exit), f, p) && exit < |u.labels|
    ensures var l := |u.labels|;
            var v := EmitDispatch(NewLabel(u), Kid(e, items[0].id), items[0].dest, true, ImplicitRtn, To(l));
            var u1 := SetLabel(v, l);
            && EmitInlined(u, e, items, exit) == EmitInlined(u1, e, items[1..], exit)
            && Setting(NewLabel(u), v, f, p) && Extends(u1, f) && l < |v.labels| && |NewLabel(u).labels| == l + 1
            && Setting(u1, EmitInlined(u1, e, items[1..], exit), f, p) && exit < |u1.labels|
            && |NewLabel(u).code| == |u.code| && |u1.code| == |v.code|
  {
    var l := |u.labels|;
    var kid, dest := Kid(e, items[0].id), items[0].dest;
    var v := EmitDispatch(NewLabel(u), kid, dest, true, ImplicitRtn, To(l));
    var u1 := SetLabel(v, l);
    NewLabelExtends(u);
    DispatchGrows(NewLabel(u), kid, dest, true, ImplicitRtn, To(l));
    BindGrows(u, v, {l});
    InlinedGrows(u1, e, items[1..], exit);
    hide EmitDispatch;
    ExtendsTrans(u1, EmitInlined(u1, e, items[1..], exit), f);
    ExtendsTrans(v, u1, f);
  }

  // ------------------------------------------------------------------
  // All sub-expressions of a request
  // ------------------------------------------------------------------

  // Every sub-expression of e is in its register.
  ghost predicate AllIn(mc: Machine, sc: Scope, e: Expr, t: State) {
    forall id: nat :: IsKid(e, id) ==> HasValue(mc, sc, e, id, t, KidDest(e, id))
  }

  ghost predicate AnyFails(mc: Machine, sc: Scope, e: Expr) {
    exists id: nat :: IsKid(e, id) && Eval(mc, sc, Kid(e, id)).None?
  }

  // A request whose sub-expressions run in place.
  ghost predicate InPlace(e: Expr) {
    e.Request? && Fits(e) && Representable(e) && forall id: nat :: IsKid(e, id) ==> Inlineable(Kid(e, id))
  }

  // Where sub-expressions go besides argument registers.
  ghost function Extra(e: Expr): set<Location>
    requires e.Request?
  {
    if e.target.Actor? then {LocTrgt} else {}
  }

  lemma KidCompilable(e: Expr, id: nat)
    requires InPlace(e) && IsKid(e, id)
    ensures Compilable(Kid(e, id))
  {
    KidRepresentable(e, id);
  }

  lemma PlanRunnable(e: Expr, s: State)
    requires InPlace(e) && Plan(e).av <= |s.args|
    ensures var o := Plan(e); Reachable(o, s) && Runnable(e, o.items, o.av, s) && RequestFits(e, s)
  {
    PlanPlanned(e);
    var o := Plan(e);
    assert o.av <= 255;
    forall a | 0 <= a < |o.items|
      ensures IsKid(e, o.items[a].id) && Compilable(Kid(e, o.items[a].id))
      ensures o.items[a].av == Av(Kid(e, o.items[a].id)) <= o.av
      ensures (o.items[a].dest.ArgReg? || o.items[a].dest == LocTrgt) && Storable(s, o.items[a].dest)
    {
      assert ItemOf(e, o.home[a]) && Schedule.Placed(o.home, o.items, a);
      KidCompilable(e, o.items[a].id);
    }
    forall a | 0 <= a < |o.home| ensures o.home[a].dest.ArgReg? || o.home[a].dest == LocTrgt {
      assert ItemOf(e, o.home[a]);
    }
  }

  lemma ItemsKept(e: Expr, o: Order, s: State, t: State)
    requires e.Request? && Planned(e, o) && Kept(s, t, o.av, ItemDests(o.items))
    ensures Kept(s, t, o.av, Extra(e))
  {
    forall a | 0 <= a < |o.items| ensures o.items[a].dest in Extra(e) || (o.items[a].dest.ArgReg? && o.items[a].dest.i < o.av) {
      assert ItemOf(e, o.home[a]) && Schedule.Placed(o.home, o.items, a);
    }
  }

  // The inlined part leaves every inlined result in its final place.
  lemma InlinedPartRun(mc: Machine, p: Program, f: Unit, u: Unit, e: Expr, s: State) returns (t: State)
    requires InPlace(e) && Plan(e).av <= |s.args| && At(u, s)
    requires (forall a :: 0 <= a < |Plan(e).items| ==> IsKid(e, Plan(e).items[a].id))
    requires Setting(u, EmitInlinedPart(u, e, Plan(e).items), f, p)
    ensures Reaches(mc, p, s, t)
    ensures ItemsFail(mc, ScopeOf(s), e, Plan(e).items) ==> t.status == Fault
    ensures !ItemsFail(mc, ScopeOf(s), e, Plan(e).items) ==>
              && At(EmitInlinedPart(u, e, Plan(e).items), t)
              && Kept(s, t, Plan(e).av, Extra(e)) && ItemsDone(mc, ScopeOf(s), e, Plan(e).items, t)
    decreases e, 0, |Plan(e).items| + 1
  {
    var o := Plan(e);
    PlanPlanned(e);
    PlanRunnable(e, s);
    if o.items == [] {
      ReachesSelf(mc, p, s);
      t := s;
    } else {
      var l := |u.labels|;
      var v := EmitInlined(NewLabel(u), e, o.items, l);
      NewLabelExtends(u);
      InlinedPartGrows(u, e, o.items);
      InlinedGrows(NewLabel(u), e, o.items, l);
      ExtendsTrans(v, SetLabel(v, l), f);
      t := InlinedRun(mc, p, f, NewLabel(u), e, o.items, l, o.av, s);
      if !ItemsFail(mc, ScopeOf(s), e, o.items) {
        ExitBound(f, v, l, t);
        ItemsKept(e, o, s, t);
      }
    }
  }

  // The simple sub-expressions of e are those of ids.
  ghost predicate SimpleIds(e: Expr, ids: seq<nat>) {
    && AllKids(e, ids) && DistinctIds(ids)
    && (forall i :: 0 <= i < |ids| ==> Simple(Kid(e, ids[i])))
    && (forall id: nat :: IsKid(e, id) && Simple(Kid(e, id)) ==> id in ids)
  }

  // Transfers and simple sub-expressions complete the argument registers.
  lemma SimplePartRun(mc: Machine, p: Program, f: Unit, u: Unit, e: Expr, o: Order, ids: seq<nat>, sc: Scope, s: State)
    returns (t: State)
    requires Planned(e, o) && Reachable(o, s) && RequestFits(e, s) && Representable(e) && SimpleIds(e, ids)
    requires At(u, s) && sc == ScopeOf(s) && ItemsDone(mc, sc, e, o.items, s)
    requires Setting(u, EmitSimplePart(u, e, Xfers(o.home, o.items, |o.items|), ids), f, p)
    ensures Reaches(mc, p, s, t)
    ensures Fails(mc, sc, e, ids) ==> t.status == Fault
    ensures !Fails(mc, sc, e, ids) ==>
              && At(EmitSimplePart(u, e, Xfers(o.home, o.items, |o.items|), ids), t)
              && Kept(s, t, o.av, Extra(e)) && AllIn(mc, sc, e, t)
  {
    var xfers := Xfers(o.home, o.items, |o.items|);
    var u1 := if xfers == [] && ids == [] then u else NewLabel(u);
    var u2 := EmitXfers(u1, xfers);
    SimplePartSetting(u, e, xfers, ids, f, p);
    var vals := seq(|o.items|, a requires 0 <= a < |o.items| => Fetch(s, o.items[a].dest));
    hide Extends, Linked, Valid, Reaches, Eval, Xfers, EmitXfers, EmitSimples, EmitSimplePart, Kept, AllIn,
         Planned, KidDests, Fails, Reachable, Safe, DistinctIds, ItemsDone, Representable;
    var m := XfersPhase(mc, p, f, u1, e, o, s, vals);
    t := SimplesRun(mc, p, f, u2, e, ids, m);
    ReachesTrans(mc, p, s, m, t);
    if !Fails(mc, sc, e, ids) {
      Complete(mc, sc, e, o, ids, vals, s, m, t);
    }
  }

  lemma XfersPhase(mc: Machine, p: Program, f: Unit, u: Unit, e: Expr, o: Order, s: State, vals: seq<Val>)
    returns (m: State)
    requires Reachable(o, s) && RequestFits(e, s) && |vals| == |o.items|
    requires forall a :: 0 <= a < |vals| ==> vals[a] == Fetch(s, o.items[a].dest)
    requires Valid(u) && Extends(EmitXfers(u, Xfers(o.home, o.items, |o.items|)), f) && Linked(f, p) && At(u, s)
    ensures Reaches(mc, p, s, m) && At(EmitXfers(u, Xfers(o.home, o.items, |o.items|)), m)
    ensures Holding(o, 0, m, vals) && Kept(s, m, o.av, {}) && ScopeOf(m) == ScopeOf(s) && RequestFits(e, m)
  {
    assert |o.home| == |o.items|;
    hide Extends, Linked, Valid, Reaches, Xfers, EmitXfers, Kept, Reachable;
    m := XfersRun(mc, p, f, u, o, |o.items|, s, vals);
    KeptScope(s, m, o.av, {});
    KeptFits(e, s, m, o.av, {});
  }

  lemma SimplesAreIds(e: Expr)
    requires e.Request?
    ensures SimpleIds(e, Simples(e, Kids(e)))
  {
    KidsComplete(e);
    SimplesComplete(e, Kids(e));
    hide Kids, Simples;
    var ids := Simples(e, Kids(e));
    forall id: nat | IsKid(e, id) && Simple(Kid(e, id)) ensures id in ids {
      assert id in Kids(e);
    }
  }

  lemma SimplePartSetting(u: Unit, e: Expr, xfers: seq<(nat, Location)>, ids: seq<nat>, f: Unit, p: Program)
    requires forall i :: 0 <= i < |ids| ==> IsKid(e, ids[i]) && Simple(Kid(e, ids[i]))
    requires Setting(u, EmitSimplePart(u, e, xfers, ids), f, p)
    ensures var u1 := if xfers == [] && ids == [] then u else NewLabel(u);
            var u2 := EmitXfers(u1, xfers);
            var u3 := EmitSimples(u2, e, ids);
            && Valid(u1) && Valid(u2) && Extends(u2, f) && Extends(u3, f)
            && |u1.code| == |u.code| && |EmitSimplePart(u, e, xfers, ids).code| == |u3.code|
  {
    var u1 := if xfers == [] && ids == [] then u else NewLabel(u);
    var u2 := EmitXfers(u1, xfers);
    var u3 := EmitSimples(u2, e, ids);
    NewLabelExtends(u);
    XfersQuiet(u1, xfers);
    SimplesQuiet(u2, e, ids);
    if u1 != u {
      SimplePartGrows(u, e, xfers, ids);
      ExtendsTrans(u3, SetLabel(u3, |u.labels|), f);
    }
    ExtendsTrans(u2, u3, f);
  }

  lemma Complete(mc: Machine, sc: Scope, e: Expr, o: Order, ids: seq<nat>, vals: seq<Val>, s: State, m: State, t: State)
    requires RequestFits(e, s) && Planned(e, o) && AllKids(e, ids) && |vals| == |o.items| == |o.home|
    requires forall id: nat :: IsKid(e, id) && Simple(Kid(e, id)) ==> id in ids
    requires forall i :: 0 <= i < |ids| ==> Simple(Kid(e, ids[i]))
    requires ItemsDone(mc, sc, e, o.items, s) && forall a :: 0 <= a < |vals| ==> vals[a] == Fetch(s, o.items[a].dest)
    requires Kept(s, m, o.av, {}) && Holding(o, 0, m, vals)
    requires Kept(m, t, 0, KidDests(e, ids))
    requires forall i :: 0 <= i < |ids| ==> HasValue(mc, sc, e, ids[i], t, KidDest(e, ids[i]))
    ensures Kept(s, t, o.av, Extra(e)) && AllIn(mc, sc, e, t)
  {
    hide Eval;
    forall id: nat | IsKid(e, id) ensures HasValue(mc, sc, e, id, t, KidDest(e, id)) {
      if !Simple(Kid(e, id)) {
        assert Scheduled(o.home, id);
        var a :| 0 <= a < |o.home| && o.home[a].id == id;
        assert ItemOf(e, o.home[a]) && Schedule.Placed(o.home, o.items, a);
        assert HasValue(mc, sc, e, id, s, o.items[a].dest);
        assert Fetch(m, KidDest(e, id)) == vals[a];
        KidDestOk(e, id, s);
        assert KidDest(e, id) !in KidDests(e, ids);
        FetchKept(m, t, 0, KidDests(e, ids), KidDest(e, id));
      }
    }
    assert Kept(m, t, o.av, Extra(e)) by {
      forall i | 0 <= i < |ids|
        ensures KidDest(e, ids[i]) in Extra(e) || (KidDest(e, ids[i]).ArgReg? && KidDest(e, ids[i]).i < o.av)
      {
        KidDestOk(e, ids[i], s);
      }
    }
    KeptTrans(s, m, t, o.av, o.av, o.av, {}, Extra(e), Extra(e));
  }

  lemma FailsSplit(mc: Machine, sc: Scope, e: Expr)
    requires InPlace(e)
    ensures AnyFails(mc, sc, e) <==> ItemsFail(mc, sc, e, Plan(e).items) || Fails(mc, sc, e, Simples(e, Kids(e)))
  {
    var o, ids := Plan(e), Simples(e, Kids(e));
    PlanPlanned(e);
    KidsComplete(e);
    SimplesComplete(e, Kids(e));
    hide Plan, Simples, Kids, Eval;
    if AnyFails(mc, sc, e) {
      var id: nat :| IsKid(e, id) && Eval(mc, sc, Kid(e, id)).None?;
      if Simple(Kid(e, id)) {
        assert id in ids;
        var i :| 0 <= i < |ids| && ids[i] == id;
      } else {
        assert Scheduled(o.home, id);
        var a :| 0 <= a < |o.home| && o.home[a].id == id;
        assert Schedule.Placed(o.home, o.items, a);
        assert o.items[a].id == id;
      }
    }
  }

  lemma KidsRun(mc: Machine, p: Program, f: Unit, u: Unit, e: Expr, s: State) returns (t: State)
    requires InPlace(e) && Plan(e).av <= |s.args| && At(u, s) && Setting(u, EmitKids(u, e), f, p)
    ensures Reaches(mc, p, s, t)
    ensures AnyFails(mc, ScopeOf(s), e) ==> t.status == Fault
    ensures !AnyFails(mc, ScopeOf(s), e) ==>
              At(EmitKids(u, e), t) && Kept(s, t, Plan(e).av, Extra(e)) && AllIn(mc, ScopeOf(s), e, t)
    decreases e, 1
  {
    var o, ids, sc := Plan(e), Simples(e, Kids(e)), ScopeOf(s);
    var xfers := Xfers(o.home, o.items, |o.items|);
    PlanKids(e);
    FailsSplit(mc, sc, e);
    PlanPlanned(e);
    SimplesAreIds(e);
    var u1 := EmitInlinedPart(u, e, o.items);
    assert EmitKids(u, e) == EmitSimplePart(u1, e, xfers, ids);
    assert Setting(u, u1, f, p) && Valid(u1) by {
      InlinedPartGrows(u, e, o.items);
      SimplePartGrows(u1, e, xfers, ids);
      ExtendsTrans(u1, EmitKids(u, e), f);
    }
    hide Extends, Linked, Valid, Reaches, Eval, Plan, Simples, Kids, EmitSimplePart, EmitInlinedPart, Kept, Fails, ItemsFail,
         ItemsDone, AllIn, AnyFails, Planned, SimpleIds, Reachable, Runnable, RequestFits;
    var m := InlinedPartRun(mc, p, f, u, e, s);
    if ItemsFail(mc, sc, e, o.items) {
      t := m;
    } else {
      KeptLength(s, m, o.av, Extra(e));
      KeptScope(s, m, o.av, Extra(e));
      PlanRunnable(e, m);
      t := SimplePartRun(mc, p, f, u1, e, o, ids, sc, m);
      ReachesTrans(mc, p, s, m, t);
      if !Fails(mc, sc, e, ids) {
        KeptTrans(s, m, t, o.av, o.av, o.av, Extra(e), Extra(e), Extra(e));
      }
    }
  }

  // ------------------------------------------------------------------
  // Applying the primitive
  // ------------------------------------------------------------------

  // The evaluated registers are the message.
  lemma MessageIn(mc: Machine, sc: Scope, e: Expr, t: State)
    requires RequestFits(e, t) && AllIn(mc, sc, e, t)
    ensures EvalMessage(mc, sc, e) == Actuals(t.args, |e.args|, e.rest.Some?)
  {
    EvalAllAt(mc, sc, e.args);
    var n := |e.args|;
    forall i | 0 <= i < n ensures Eval(mc, sc, e.args[i]) == Some(t.args[i]) {
      assert IsKid(e, i) && HasValue(mc, sc, e, i, t, KidDest(e, i));
    }
    var vs := EvalAll(mc, sc, e.args);
    assert vs.Some?;
    assert vs.value == t.args[..n];
    if e.rest.Some? {
      assert IsKid(e, n) && HasValue(mc, sc, e, n, t, KidDest(e, n));
    }
  }

  lemma MessageFails(mc: Machine, sc: Scope, e: Expr)
    requires e.Request? && AnyFails(mc, sc, e)
    ensures EvalMessage(mc, sc, e).None? || (e.target.Actor? && Eval(mc, sc, e.target.e).None?)
  {
    EvalAllAt(mc, sc, e.args);
    var id: nat :| IsKid(e, id) && Eval(mc, sc, Kid(e, id)).None?;
    if id < |e.args| {
      assert Eval(mc, sc, e.args[id]).None?;
    }
  }

  // The primitive is applied to its message, and the result goes to dest.
  lemma ApplyRuns(mc: Machine, p: Program, f: Unit, u: Unit, e: Expr, dest: Location, l: nat, sc: Scope, s: State)
    returns (t: State)
    requires RequestFits(e, s) && e.target.Prim? && e.target.k < 65536 && AllIn(mc, sc, e, s)
    requires RegDest(dest) && Storable(s, dest) && At(u, s)
    requires Setting(u, EmitApplyPrim(u, dest, e.target.k, |e.args|, e.rest.Some?, ImplicitRtn, To(l)), f, p)
    ensures Reaches(mc, p, s, t)
    ensures var msg := EvalMessage(mc, sc, e);
            var v := if msg.None? then None else mc.prim(e.target.k, msg.value);
            && (v.None? ==> t.status == Fault)
            && (v.Some? ==>
                  && At(EmitApplyPrim(u, dest, e.target.k, |e.args|, e.rest.Some?, ImplicitRtn, To(l)), t)
                  && Kept(s, t, 0, {dest}) && Fetch(t, dest) == v.value)
  {
    hide Extends, Linked, Valid, Reaches, Eval, EvalMessage, EmitApplyPrim, AllIn, Kept, Fetch, Assigned;
    MessageIn(mc, sc, e, s);
    t := PrimRuns(mc, p, f, u, dest, e.target.k, |e.args|, e.rest.Some?, l, s);
    var msg := EvalMessage(mc, sc, e);
    var v := if msg.None? then None else mc.prim(e.target.k, msg.value);
    if v.Some? {
      AssignedKept(s, t, dest, v.value);
    }
  }

  lemma RequestCode(u: Unit, e: Expr, dest: Location, l: nat)
    requires e.Request? && e.target.Prim?
    ensures EmitDispatch(u, e, dest, true, ImplicitRtn, To(l)) ==
            EmitApplyPrim(EmitKids(u, e), dest, e.target.k, |e.args|, e.rest.Some?, ImplicitRtn, To(l))
  {
    hide EmitKids, EmitApplyPrim, Plan, EmitBranches, EmitFirst, EmitXmit, EmitRtn, EmitSimple, EmitAlloc, Av;
  }

  lemma RequestPlan(e: Expr)
    requires e.Request? && Compilable(e)
    ensures e.target.Prim? && Av(e) == Plan(e).av && InPlace(e)
  {
    hide Plan;
  }

  // The parts of a primitive request in place.
  lemma RequestParts(u: Unit, e: Expr, dest: Location, l: nat, f: Unit, p: Program)
    requires e.Request? && Compilable(e) && RegDest(dest)
    requires Setting(u, EmitDispatch(u, e, dest, true, ImplicitRtn, To(l)), f, p) && l < |u.labels|
    ensures var u1 := EmitKids(u, e);
            var w := EmitDispatch(u, e, dest, true, ImplicitRtn, To(l));
            && w == EmitApplyPrim(u1, dest, e.target.k, |e.args|, e.rest.Some?, ImplicitRtn, To(l))
            && Setting(u, u1, f, p) && Setting(u1, w, f, p)
    ensures e.target.Prim? && Av(e) == Plan(e).av && InPlace(e)
  {
    var u1 := EmitKids(u, e);
    var w := EmitDispatch(u, e, dest, true, ImplicitRtn, To(l));
    hide EmitDispatch, EmitKids, EmitApplyPrim, Plan, Compilable, InPlace, Av;
    RequestPlan(e);
    RequestCode(u, e, dest, l);
    KidsGrow(u, e);
    hide Valid, Extends, Linked;
    ApplyPrimQuiet(u1, dest, e.target.k, |e.args|, e.rest.Some?, ImplicitRtn, To(l));
    ExtendsTrans(u1, w, f);
  }

  // A primitive request in place.
  lemma RequestRuns(mc: Machine, p: Program, f: Unit, u: Unit, e: Expr, dest: Location, l: nat, s: State)
    returns (t: State)
    requires e.Request? && Compilable(e) && RegDest(dest) && Storable(s, dest) && Av(e) <= |s.args|
    requires Setting(u, EmitDispatch(u, e, dest, true, ImplicitRtn, To(l)), f, p) && l < |u.labels| && At(u, s)
    ensures Reaches(mc, p, s, t)
    ensures Evaluated(mc, f, e, dest, EmitDispatch(u, e, dest, true, ImplicitRtn, To(l)), l, s, t)
    decreases e, 2
  {
    var u1, sc := EmitKids(u, e), ScopeOf(s);
    RequestParts(u, e, dest, l, f, p);
    hide Extends, Linked, Valid, Reaches, Kept, EmitKids, EmitApplyPrim, EmitDispatch, Plan, AllIn, AnyFails, EvalMessage;
    var m := KidsRun(mc, p, f, u, e, s);
    if AnyFails(mc, sc, e) {
      MessageFails(mc, sc, e);
      t := m;
    } else {
      KeptLength(s, m, Av(e), {});
      PlanArity(e, m);
      t := ApplyRuns(mc, p, f, u1, e, dest, l, sc, m);
      ReachesTrans(mc, p, s, m, t);
      if Eval(mc, sc, e).Some? {
        KeptTrans(s, m, t, Av(e), 0, Av(e), {}, {dest}, {dest});
      }
    }
  }

  lemma PlanArity(e: Expr, s: State)
    requires e.Request? && Fits(e) && Plan(e).av <= |s.args|
    ensures RequestFits(e, s)
  {
    PlanPlanned(e);
  }

  // ------------------------------------------------------------------
  // Conditionals and sequences
  // ------------------------------------------------------------------

  // The condition of an if or the first part of a sequence, into the result register.
  lemma FirstRuns(mc: Machine, p: Program, f: Unit, u: Unit, c: Expr, s: State) returns (t: State)
    requires Compilable(c) && Av(c) <= |s.args| && At(u, s) && Setting(u, EmitFirst(u, c), f, p)
    ensures Reaches(mc, p, s, t)
    ensures Eval(mc, ScopeOf(s), c).None? ==> t.status == Fault
    ensures Eval(mc, ScopeOf(s), c).Some? ==>
              At(EmitFirst(u, c), t) && Kept(s, t, Av(c), {}) && t.regs[RSLT] == Eval(mc, ScopeOf(s), c).value
    decreases c, 4
  {
    var l := |u.labels|;
    var v := EmitDispatch(NewLabel(u), c, LocRslt, true, ImplicitRtn, To(l));
    FirstGrows(u, c);
    NewLabelExtends(u);
    DispatchGrows(NewLabel(u), c, LocRslt, true, ImplicitRtn, To(l));
    ExtendsTrans(v, EmitFirst(u, c), f);
    hide Linked, Valid, Reaches, EmitDispatch, Eval;
    t := InlineRuns(mc, p, f, NewLabel(u), c, LocRslt, l, s);
    if Eval(mc, ScopeOf(s), c).Some? {
      ExitBound(f, v, l, t);
    }
  }

  // The units between the parts of a conditional, and the address of its false branch.
  lemma BranchSetting(u: Unit, e: Expr, dest: Location, rtn: Rtn, next: Next, f: Unit, p: Program)
    requires e.If? && Usable(u, next) && Setting(u, EmitBranches(u, e, dest, rtn, next), f, p)
    ensures var no := |u.labels|;
            var j := Jump(NewLabel(u), OP_JMP_FALSE, no);
            var u2 := EmitDispatch(j, e.yes, dest, true, rtn, next);
            var u3 := if next.To? then Jump(u2, OP_JMP, next.l) else u2;
            var u4 := SetLabel(u3, no);
            && Valid(NewLabel(u)) && Valid(j) && Valid(u2) && Valid(u4)
            && Extends(j, f) && Extends(u2, f) && Extends(u3, f) && Extends(u4, f)
            && Usable(j, next) && Usable(u2, next) && Usable(u4, next)
            && no < |f.labels| && f.labels[no] == |u4.code| == |u3.code| && 0 < |u4.code| < 1024
            && |j.code| == |u.code| + 1
            && EmitBranches(u, e, dest, rtn, next) == EmitDispatch(u4, e.no, dest, true, rtn, next)
  {
    var no := |u.labels|;
    var j := Jump(NewLabel(u), OP_JMP_FALSE, no);
    var u2 := EmitDispatch(j, e.yes, dest, true, rtn, next);
    var u3 := if next.To? then Jump(u2, OP_JMP, next.l) else u2;
    var u4 := SetLabel(u3, no);
    YesGrows(u, e, dest, rtn, next);
    DispatchGrows(u4, e.no, dest, true, rtn, next);
    hide EmitDispatch;
    ExtendsTrans(u4, EmitBranches(u, e, dest, rtn, next), f);
    ExtendsTrans(u3, u4, f);
    ExtendsTrans(u2, u3, f);
    ExtendsTrans(j, u2, f);
  }

  lemma JumpFalseRuns(mc: Machine, p: Program, f: Unit, u: Unit, l: nat, s: State)
    requires Valid(u) && Extends(Jump(u, OP_JMP_FALSE, l), f) && Linked(f, p) && l < |f.labels| && f.labels[l] < 1024 && At(u, s)
    ensures Reaches(mc, p, s, s.(pc := if s.regs[RSLT] == Bool(false) then f.labels[l] else |u.code| + 1))
  {
    FetchJump(u, OP_JMP_FALSE, l, f, p);
    hide Decode, Extends, Linked, Valid, Reaches;
    ReachesExec(mc, p, s, F6(OP_JMP_FALSE, f.labels[l], NoExt), 1);
  }

  lemma JumpRuns(mc: Machine, p: Program, f: Unit, u: Unit, l: nat, s: State)
    requires Valid(u) && Extends(Jump(u, OP_JMP, l), f) && Linked(f, p) && l < |f.labels| && f.labels[l] < 1024 && At(u, s)
    ensures Reaches(mc, p, s, s.(pc := f.labels[l]))
  {
    FetchJump(u, OP_JMP, l, f, p);
    hide Decode, Extends, Linked, Valid, Reaches;
    ReachesExec(mc, p, s, F6(OP_JMP, f.labels[l], NoExt), 1);
  }

  // Both branches in place, after the condition has been evaluated.
  lemma BranchesRun(mc: Machine, p: Program, f: Unit, u: Unit, e: Expr, dest: Location, l: nat, s: State)
    returns (t: State)
    requires e.If? && Compilable(e) && RegDest(dest) && Storable(s, dest) && Av(e.yes) <= |s.args| && Av(e.no) <= |s.args|
    requires Setting(u, EmitBranches(u, e, dest, ImplicitRtn, To(l)), f, p) && l < |u.labels| && At(u, s)
    ensures Reaches(mc, p, s, t)
    ensures Evaluated(mc, f, if s.regs[RSLT] == Bool(false) then e.no else e.yes, dest,
                      EmitBranches(u, e, dest, ImplicitRtn, To(l)), l, s, t)
    decreases e, 1
  {
    var no := |u.labels|;
    BranchSetting(u, e, dest, ImplicitRtn, To(l), f, p);
    hide Extends, Linked, Valid, Reaches, EmitDispatch, EmitBranches, Eval, Kept, Av, Compilable;
    JumpFalseRuns(mc, p, f, NewLabel(u), no, s);
    BranchesCompilable(e);
    if s.regs[RSLT] == Bool(false) {
      var m := s.(pc := f.labels[no]);
      var j := Jump(NewLabel(u), OP_JMP_FALSE, no);
      var u3 := Jump(EmitDispatch(j, e.yes, dest, true, ImplicitRtn, To(l)), OP_JMP, l);
      t := InlineRuns(mc, p, f, SetLabel(u3, no), e.no, dest, l, m);
      ReachesTrans(mc, p, s, m, t);
      KeptPc(s, m, t, Av(e.no), dest);
    } else {
      var m := s.(pc := |u.code| + 1);
      t := YesRuns(mc, p, f, u, e, dest, l, m);
      ReachesTrans(mc, p, s, m, t);
      KeptPc(s, m, t, Av(e.yes), dest);
    }
  }

  lemma BranchesCompilable(e: Expr)
    requires e.If? && Compilable(e)
    ensures Compilable(e.yes) && Compilable(e.no)
  {
  }

  // The true branch, and the jump behind it.
  lemma YesRuns(mc: Machine, p: Program, f: Unit, u: Unit, e: Expr, dest: Location, l: nat, s: State)
    returns (t: State)
    requires e.If? && Compilable(e) && RegDest(dest) && Storable(s, dest) && Av(e.yes) <= |s.args|
    requires Setting(u, EmitBranches(u, e, dest, ImplicitRtn, To(l)), f, p) && l < |u.labels|
    requires s.status == Running && s.pc == |u.code| + 1
    ensures Reaches(mc, p, s, t)
    ensures Evaluated(mc, f, e.yes, dest, EmitBranches(u, e, dest, ImplicitRtn, To(l)), l, s, t)
    decreases e, 0
  {
    var j := Jump(NewLabel(u), OP_JMP_FALSE, |u.labels|);
    var u2 := EmitDispatch(j, e.yes, dest, true, ImplicitRtn, To(l));
    BranchSetting(u, e, dest, ImplicitRtn, To(l), f, p);
    LabelAddress(u, f, p, l);
    GrownCode(u, e, dest, l);
    hide Extends, Linked, Valid, Reaches, EmitDispatch, EmitBranches, Eval, Kept, Av, Compilable;
    BranchesCompilable(e);
    t := InlineRuns(mc, p, f, j, e.yes, dest, l, s);
    if Eval(mc, ScopeOf(s), e.yes).Some? && t.pc == |u2.code| {
      var h := t;
      JumpRuns(mc, p, f, u2, l, h);
      t := h.(pc := f.labels[l]);
      ReachesTrans(mc, p, s, h, t);
      KeptPc'(s, h, t, Av(e.yes), dest);
    }
  }

  lemma LabelAddress(u: Unit, f: Unit, p: Program, l: nat)
    requires Linked(f, p) && |f.code| < 1024 && l < |f.labels|
    ensures f.labels[l] < 1024
  {
  }

  lemma GrownCode(u: Unit, e: Expr, dest: Location, l: nat)
    requires Valid(u) && e.If? && l < |u.labels|
    ensures |EmitBranches(u, e, dest, ImplicitRtn, To(l)).code| > 0
  {
    YesGrows(u, e, dest, ImplicitRtn, To(l));
    var no := |u.labels|;
    var u2 := EmitDispatch(Jump(NewLabel(u), OP_JMP_FALSE, no), e.yes, dest, true, ImplicitRtn, To(l));
    var u4 := SetLabel(Jump(u2, OP_JMP, l), no);
    DispatchGrows(u4, e.no, dest, true, ImplicitRtn, To(l));
  }

  lemma KeptPc(s: State, m: State, t: State, av: nat, dest: Location)
    requires m == s.(pc := m.pc)
    ensures Kept(m, t, av, {dest}) ==> Kept(s, t, av, {dest})
    ensures ScopeOf(m) == ScopeOf(s)
  {
  }

  lemma KeptPc'(s: State, h: State, t: State, av: nat, dest: Location)
    requires t == h.(pc := t.pc) && Kept(s, h, av, {dest})
    ensures Kept(s, t, av, {dest}) && Fetch(t, dest) == Fetch(h, dest)
  {
  }

  // Code emitted for an inlineable expression computes its value into dest, changing nothing else
  // but the result register and argument registers below av_size; an error faults.
  lemma InlineRuns(mc: Machine, p: Program, f: Unit, u: Unit, e: Expr, dest: Location, l: nat, s: State)
    returns (t: State)
    requires Compilable(e) && RegDest(dest) && Storable(s, dest) && Av(e) <= |s.args|
    requires Setting(u, EmitDispatch(u, e, dest, true, ImplicitRtn, To(l)), f, p) && l < |u.labels| && At(u, s)
    ensures Reaches(mc, p, s, t)
    ensures Evaluated(mc, f, e, dest, EmitDispatch(u, e, dest, true, ImplicitRtn, To(l)), l, s, t)
    decreases e, 3
  {
    var w := EmitDispatch(u, e, dest, true, ImplicitRtn, To(l));
    if Simple(e) {
      assert w == EmitSimple(u, e, dest);
      t := SimpleRuns(mc, p, f, u, e, dest, s);
      var v := Eval(mc, ScopeOf(s), e);
      if v.Some? {
        AssignedKept(s, t, dest, v.value);
      }
    } else if e.Request? {
      t := RequestRuns(mc, p, f, u, e, dest, l, s);
    } else if e.If? {
      var u1 := EmitFirst(u, e.cond);
      assert w == EmitBranches(u1, e, dest, ImplicitRtn, To(l));
      FirstGrows(u, e.cond);
      BranchesGrow(u1, e, dest, ImplicitRtn, To(l));
      ExtendsTrans(u1, w, f);
      hide Extends, Linked, Valid, Reaches, EmitDispatch, EmitBranches, EmitFirst, Kept;
      var m := FirstRuns(mc, p, f, u, e.cond, s);
      if Eval(mc, ScopeOf(s), e.cond).None? {
        t := m;
      } else {
        t := IfRest(mc, p, f, u1, e, dest, l, s, m);
      }
    } else {
      t := SeqRuns(mc, p, f, u, e, dest, l, s);
    }
  }

  lemma SeqRuns(mc: Machine, p: Program, f: Unit, u: Unit, e: Expr, dest: Location, l: nat, s: State)
    returns (t: State)
    requires e.Seq? && Compilable(e) && RegDest(dest) && Storable(s, dest) && Av(e) <= |s.args|
    requires Setting(u, EmitDispatch(u, e, dest, true, ImplicitRtn, To(l)), f, p) && l < |u.labels| && At(u, s)
    ensures Reaches(mc, p, s, t)
    ensures Evaluated(mc, f, e, dest, EmitDispatch(u, e, dest, true, ImplicitRtn, To(l)), l, s, t)
    decreases e, 2
  {
    var w := EmitDispatch(u, e, dest, true, ImplicitRtn, To(l));
    var u1 := EmitFirst(u, e.first);
    assert w == EmitDispatch(u1, e.second, dest, true, ImplicitRtn, To(l));
    FirstGrows(u, e.first);
    DispatchGrows(u1, e.second, dest, true, ImplicitRtn, To(l));
    ExtendsTrans(u1, w, f);
    hide Extends, Linked, Valid, Reaches, EmitDispatch, EmitFirst, Kept;
    var m := FirstRuns(mc, p, f, u, e.first, s);
    if Eval(mc, ScopeOf(s), e.first).None? {
      t := m;
    } else {
      KeptLength(s, m, Av(e.first), {});
      KeptScope(s, m, Av(e.first), {});
      t := InlineRuns(mc, p, f, u1, e.second, dest, l, m);
      ReachesTrans(mc, p, s, m, t);
      if Eval(mc, ScopeOf(s), e.second).Some? {
        KeptTrans(s, m, t, Av(e.first), Av(e.second), Av(e), {}, {dest}, {dest});
      }
    }
  }

  lemma IfRest(mc: Machine, p: Program, f: Unit, u1: Unit, e: Expr, dest: Location, l: nat, s: State, m: State)
    returns (t: State)
    requires e.If? && Compilable(e) && RegDest(dest) && Storable(s, dest) && Av(e) <= |s.args|
    requires Setting(u1, EmitBranches(u1, e, dest, ImplicitRtn, To(l)), f, p) && l < |u1.labels| && At(u1, m)
    requires Kept(s, m, Av(e.cond), {}) && Eval(mc, ScopeOf(s), e.cond) == Some(m.regs[RSLT]) && Reaches(mc, p, s, m)
    ensures Reaches(mc, p, s, t)
    ensures Evaluated(mc, f, e, dest, EmitBranches(u1, e, dest, ImplicitRtn, To(l)), l, s, t)
    decreases e, 2
  {
    hide Extends, Linked, Valid, Reaches, EmitBranches;
    KeptScope(s, m, Av(e.cond), {});
    t := BranchesRun(mc, p, f, u1, e, dest, l, m);
    ReachesTrans(mc, p, s, m, t);
    var b := if m.regs[RSLT] == Bool(false) then e.no else e.yes;
    if Eval(mc, ScopeOf(s), b).Some? {
      KeptTrans(s, m, t, Av(e.cond), Av(b), Av(e), {}, {dest}, {dest});
    }
  }

  // ------------------------------------------------------------------
  // Whole programs
  // ------------------------------------------------------------------

  // The context has replied with the value, handed the message to its target, or faulted.
  ghost predicate Finished(mc: Machine, sc: Scope, e: Expr, t: State) {
    match Result(mc, sc, e)
    case Value(v) => t.status == Returned(v)
    case Message(trgt, msg) => t.status == Dispatched(trgt, msg)
    case Error => t.status == Fault
  }

  ghost function TailCode(u: Unit, e: Expr, argvec: bool): Unit {
    EmitDispatch(u, e, LocRslt, argvec, UntaggedRtn, NoneRemaining)
  }

  ghost predicate TailReady(e: Expr) {
    Tail(e) && Fits(e) && Representable(e)
  }

  lemma ReturnRuns(mc: Machine, p: Program, f: Unit, u: Unit, s: State) returns (t: State)
    requires At(u, s) && Setting(u, EmitRtn(u, LocRslt, UntaggedRtn, NoneRemaining), f, p)
    ensures Reaches(mc, p, s, t) && t.status == Returned(s.regs[RSLT])
  {
    var i := F5(OP_RTN, false, true, 0, NoExt);
    hide Extends, Linked, Valid, Reaches;
    One(mc, p, f, u, i, s);
    t := Exec(mc, p, i, s.(pc := |Deposit(u, i).code|));
  }

  lemma SimpleTail(mc: Machine, p: Program, f: Unit, u: Unit, e: Expr, argvec: bool, s: State) returns (t: State)
    requires Simple(e) && Representable(e) && At(u, s) && Setting(u, TailCode(u, e, argvec), f, p)
    ensures Reaches(mc, p, s, t) && Finished(mc, ScopeOf(s), e, t)
  {
    var u1 := EmitSimple(u, e, LocRslt);
    assert TailCode(u, e, argvec) == EmitRtn(u1, LocRslt, UntaggedRtn, NoneRemaining);
    SimpleQuiet(u, e, LocRslt);
    RtnQuiet(u1, LocRslt, UntaggedRtn, NoneRemaining);
    ExtendsTrans(u1, EmitRtn(u1, LocRslt, UntaggedRtn, NoneRemaining), f);
    hide Extends, Linked, Valid, Reaches, EmitSimple, EmitRtn;
    t := SimpleRuns(mc, p, f, u, e, LocRslt, s);
    var v := Eval(mc, ScopeOf(s), e);
    if v.Some? {
      var m := t;
      t := ReturnRuns(mc, p, f, u1, m);
      ReachesTrans(mc, p, s, m, t);
    }
  }

  lemma TailInPlace(e: Expr)
    requires e.Request? && TailReady(e)
    ensures InPlace(e) && Av(e) == Plan(e).av
  {
  }

  // Applying the primitive and replying with its result.
  lemma ReplyRuns(mc: Machine, p: Program, f: Unit, u: Unit, e: Expr, sc: Scope, s: State) returns (t: State)
    requires RequestFits(e, s) && e.target.Prim? && e.target.k < 65536 && AllIn(mc, sc, e, s) && At(u, s)
    requires Setting(u, EmitApplyPrim(u, LocRslt, e.target.k, |e.args|, e.rest.Some?, UntaggedRtn, NoneRemaining), f, p)
    ensures Reaches(mc, p, s, t) && Finished(mc, sc, e, t)
  {
    var n, unwind, k := |e.args|, e.rest.Some?, e.target.k;
    assert n % 256 == n;
    var i := F5(OP_APPLY_PRIM_REG, unwind, false, n, E2(k, RSLT));
    var u1 := Deposit(u, i);
    assert EmitApplyPrim(u, LocRslt, k, n, unwind, UntaggedRtn, NoneRemaining)
        == EmitRtn(u1, LocRslt, UntaggedRtn, NoneRemaining);
    assert EmitApplyPrim(u, LocRslt, k, n, unwind, ImplicitRtn, To(0)) == u1;
    DepositQuiet(u, i);
    RtnQuiet(u1, LocRslt, UntaggedRtn, NoneRemaining);
    ExtendsTrans(u1, EmitRtn(u1, LocRslt, UntaggedRtn, NoneRemaining), f);
    hide Extends, Linked, Valid, Reaches, EmitApplyPrim, EmitRtn, EvalMessage, Kept;
    t := ApplyRuns(mc, p, f, u, e, LocRslt, 0, sc, s);
    var msg := EvalMessage(mc, sc, e);
    if msg.Some? && mc.prim(k, msg.value).Some? {
      var m := t;
      t := ReturnRuns(mc, p, f, u1, m);
      ReachesTrans(mc, p, s, m, t);
    }
  }

  // Handing the message over to the target.
  lemma XmitRuns(mc: Machine, p: Program, f: Unit, u: Unit, e: Expr, sc: Scope, s: State) returns (t: State)
    requires RequestFits(e, s) && e.target.Actor? && AllIn(mc, sc, e, s) && At(u, s)
    requires Setting(u, EmitXmit(u, LocRslt, |e.args|, e.rest.Some?, UntaggedRtn, NoneRemaining), f, p)
    ensures Reaches(mc, p, s, t) && Finished(mc, sc, e, t)
  {
    XmitMeaning(mc, sc, e, s);
    var i := F5(OP_XMIT, e.rest.Some?, true, |e.args|, NoExt);
    hide Extends, Linked, Valid, Reaches, Result, AllIn, IsKid;
    One(mc, p, f, u, i, s);
    t := Exec(mc, p, i, s.(pc := |Deposit(u, i).code|));
  }

  lemma XmitMeaning(mc: Machine, sc: Scope, e: Expr, s: State)
    requires RequestFits(e, s) && e.target.Actor? && AllIn(mc, sc, e, s)
    ensures var a := Actuals(s.args, |e.args|, e.rest.Some?);
            Result(mc, sc, e) == if a.None? then Error else Message(s.regs[TRGT], a.value)
  {
    MessageIn(mc, sc, e, s);
    var id := |e.args| + 1;
    assert IsKid(e, id) && HasValue(mc, sc, e, id, s, KidDest(e, id));
  }

  // The code of a request in tail position.
  ghost function TailWrapup(u: Unit, e: Expr): Unit
    requires e.Request?
  {
    if e.target.Prim? then EmitApplyPrim(u, LocRslt, e.target.k, |e.args|, e.rest.Some?, UntaggedRtn, NoneRemaining)
    else EmitXmit(u, LocRslt, |e.args|, e.rest.Some?, UntaggedRtn, NoneRemaining)
  }

  lemma TailParts(u: Unit, e: Expr, f: Unit, p: Program)
    requires e.Request? && TailReady(e) && Setting(u, TailCode(u, e, true), f, p)
    ensures TailCode(u, e, true) == TailWrapup(EmitKids(u, e), e)
    ensures Setting(u, EmitKids(u, e), f, p) && Setting(EmitKids(u, e), TailCode(u, e, true), f, p)
  {
    var u1, w := EmitKids(u, e), TailCode(u, e, true);
    assert w == TailWrapup(u1, e) by {
      hide EmitKids, EmitApplyPrim, EmitXmit, Valid, Extends, Linked, TailReady;
    }
    hide EmitKids, EmitApplyPrim, EmitXmit, TailCode, TailReady;
    KidsGrow(u, e);
    if e.target.Prim? {
      ApplyPrimQuiet(u1, LocRslt, e.target.k, |e.args|, e.rest.Some?, UntaggedRtn, NoneRemaining);
    } else {
      XmitQuiet(u1, LocRslt, |e.args|, e.rest.Some?, UntaggedRtn, NoneRemaining);
    }
    hide Valid, Extends, Linked;
    ExtendsTrans(u1, w, f);
  }

  lemma RequestTail(mc: Machine, p: Program, f: Unit, u: Unit, e: Expr, s: State) returns (t: State)
    requires e.Request? && TailReady(e) && Av(e) <= |s.args| && At(u, s) && Setting(u, TailCode(u, e, true), f, p)
    ensures Reaches(mc, p, s, t) && Finished(mc, ScopeOf(s), e, t)
  {
    var u1, sc := EmitKids(u, e), ScopeOf(s);
    TailParts(u, e, f, p);
    TailInPlace(e);
    hide Extends, Linked, Valid, Reaches, Kept, EmitKids, EmitApplyPrim, EmitXmit, TailCode, Plan, AllIn, AnyFails, EvalMessage, Quiet, Grows;
    var m := KidsRun(mc, p, f, u, e, s);
    if AnyFails(mc, sc, e) {
      MessageFails(mc, sc, e);
      t := m;
    } else {
      KeptLength(s, m, Av(e), Extra(e));
      PlanArity(e, m);
      if e.target.Prim? {
        t := ReplyRuns(mc, p, f, u1, e, sc, m);
      } else {
        t := XmitRuns(mc, p, f, u1, e, sc, m);
      }
      ReachesTrans(mc, p, s, m, t);
    }
  }

  lemma IfTail(mc: Machine, p: Program, f: Unit, u: Unit, e: Expr, s: State) returns (t: State)
    requires e.If? && TailReady(e) && Av(e) <= |s.args| && At(u, s)
    requires Setting(u, EmitBranches(u, e, LocRslt, UntaggedRtn, NoneRemaining), f, p)
    ensures Reaches(mc, p, s, t)
    ensures Finished(mc, ScopeOf(s), if s.regs[RSLT] == Bool(false) then e.no else e.yes, t)
    decreases e, 0
  {
    var no := |u.labels|;
    var j := Jump(NewLabel(u), OP_JMP_FALSE, no);
    var u2 := EmitDispatch(j, e.yes, LocRslt, true, UntaggedRtn, NoneRemaining);
    var u4 := SetLabel(u2, no);
    BranchSetting(u, e, LocRslt, UntaggedRtn, NoneRemaining, f, p);
    hide Extends, Linked, Valid, Reaches, EmitDispatch, EmitBranches, Result;
    JumpFalseRuns(mc, p, f, NewLabel(u), no, s);
    if s.regs[RSLT] == Bool(false) {
      var m := s.(pc := f.labels[no]);
      t := TailRuns(mc, p, f, u4, e.no, true, m);
      ReachesTrans(mc, p, s, m, t);
    } else {
      var m := s.(pc := |u.code| + 1);
      t := TailRuns(mc, p, f, j, e.yes, true, m);
      ReachesTrans(mc, p, s, m, t);
    }
  }

  // With the argument vector in place.
  lemma ReadyTail(mc: Machine, p: Program, f: Unit, u: Unit, e: Expr, s: State) returns (t: State)
    requires !Simple(e) && TailReady(e) && Av(e) <= |s.args| && At(u, s) && Setting(u, TailCode(u, e, true), f, p)
    ensures Reaches(mc, p, s, t) && Finished(mc, ScopeOf(s), e, t)
    decreases e, 1
  {
    if e.Request? {
      t := RequestTail(mc, p, f, u, e, s);
    } else {
      var w := TailCode(u, e, true);
      var c := if e.If? then e.cond else e.first;
      var u1 := EmitFirst(u, c);
      ReadySetting(u, e, f, p);
      hide Extends, Linked, Valid, Reaches, EmitBranches, EmitFirst, EmitDispatch, TailCode, Kept, Grows, Finished, Av, Fits,
           Representable;
      PartsReady(e);
      var m := FirstRuns(mc, p, f, u, c, s);
      if Eval(mc, ScopeOf(s), c).None? {
        t := m;
        FinishedLater(mc, ScopeOf(s), e, t);
      } else {
        KeptLength(s, m, Av(c), {});
        KeptScope(s, m, Av(c), {});
        if e.If? {
          t := IfTail(mc, p, f, u1, e, m);
        } else {
          t := TailRuns(mc, p, f, u1, e.second, true, m);
        }
        FinishedLater(mc, ScopeOf(s), e, t);
        ReachesTrans(mc, p, s, m, t);
      }
    }
  }

  // The parts of a conditional or a sequence meet the same conditions.
  lemma PartsReady(e: Expr)
    requires TailReady(e) && (e.If? || e.Seq?)
    ensures e.If? ==> Compilable(e.cond) && TailReady(e.yes) && TailReady(e.no) && Av(e.cond) <= Av(e)
    ensures e.Seq? ==> Compilable(e.first) && TailReady(e.second) && Av(e.first) <= Av(e) && Av(e.second) <= Av(e)
  {
  }

  // The outcome of a conditional or a sequence is that of the part run last.
  lemma FinishedLater(mc: Machine, sc: Scope, e: Expr, t: State)
    requires e.If? || e.Seq?
    ensures var c := Eval(mc, sc, if e.If? then e.cond else e.first);
            && (c.None? && t.status == Fault ==> Finished(mc, sc, e, t))
            && (c.Some? ==>
                  var last := if e.Seq? then e.second else if c.value == Bool(false) then e.no else e.yes;
                  (Finished(mc, sc, last, t) ==> Finished(mc, sc, e, t)))
  {
    hide Eval;
  }

  lemma ReadySetting(u: Unit, e: Expr, f: Unit, p: Program)
    requires (e.If? || e.Seq?) && Setting(u, TailCode(u, e, true), f, p)
    ensures var u1 := EmitFirst(u, if e.If? then e.cond else e.first);
            && Setting(u, u1, f, p)
            && (e.If? ==> Setting(u1, EmitBranches(u1, e, LocRslt, UntaggedRtn, NoneRemaining), f, p))
            && (e.Seq? ==> Setting(u1, TailCode(u1, e.second, true), f, p))
  {
    var w := TailCode(u, e, true);
    var c := if e.If? then e.cond else e.first;
    var u1 := EmitFirst(u, c);
    assert w == if e.If? then EmitBranches(u1, e, LocRslt, UntaggedRtn, NoneRemaining) else TailCode(u1, e.second, true);
    FirstGrows(u, c);
    hide EmitBranches, EmitFirst, EmitDispatch, TailCode, Linked;
    GrowsValid(u, u1, {});
    if e.If? {
      BranchesGrow(u1, e, LocRslt, UntaggedRtn, NoneRemaining);
    } else {
      SecondGrows(u1, e.second);
    }
    ExtendsTrans(u1, w, f);
  }

  lemma SecondGrows(u: Unit, e: Expr)
    requires Valid(u)
    ensures Extends(u, TailCode(u, e, true))
  {
    DispatchGrows(u, e, LocRslt, true, UntaggedRtn, NoneRemaining);
  }

  lemma AllocRuns(mc: Machine, p: Program, f: Unit, u: Unit, n: nat, s: State) returns (t: State)
    requires n < 256 && At(u, s) && Setting(u, EmitAlloc(u, n), f, p)
    ensures Reaches(mc, p, s, t) && At(EmitAlloc(u, n), t) && n <= |t.args| && ScopeOf(t) == ScopeOf(s)
  {
    if n == 0 {
      ReachesSelf(mc, p, s);
      t := s;
    } else {
      var i := F0(OP_ALLOC, n, NoExt);
      hide Extends, Linked, Valid, Reaches;
      One(mc, p, f, u, i, s);
      t := Exec(mc, p, i, s.(pc := |Deposit(u, i).code|));
    }
  }

  // Code emitted for a whole expression replies with its value, or hands its message over, or faults,
  // exactly as the expression's meaning says.
  lemma TailRuns(mc: Machine, p: Program, f: Unit, u: Unit, e: Expr, argvec: bool, s: State) returns (t: State)
    requires TailReady(e) && (argvec ==> Av(e) <= |s.args|) && At(u, s) && Setting(u, TailCode(u, e, argvec), f, p)
    ensures Reaches(mc, p, s, t) && Finished(mc, ScopeOf(s), e, t)
    decreases e, 2
  {
    if Simple(e) {
      t := SimpleTail(mc, p, f, u, e, argvec, s);
    } else if argvec {
      t := ReadyTail(mc, p, f, u, e, s);
    } else {
      var u0 := EmitAlloc(u, Av(e));
      assert TailCode(u, e, false) == TailCode(u0, e, true);
      AllocQuiet(u, Av(e));
      DispatchGrows(u0, e, LocRslt, true, UntaggedRtn, NoneRemaining);
      ExtendsTrans(u0, TailCode(u0, e, true), f);
      AvSmall(e);
      hide Extends, Linked, Valid, Reaches, EmitDispatch, TailCode, EmitAlloc, Grows, Finished, Av;
      var m := AllocRuns(mc, p, f, u, Av(e), s);
      t := ReadyTail(mc, p, f, u0, e, m);
      ReachesTrans(mc, p, s, m, t);
    }
  }

  /** Compiler correctness.  If CompileExpr delivers a program below 1024 words for an expression that
      fits, then from any state at its start the machine reaches the outcome the expression means. */
  lemma CompilerCorrect(mc: Machine, e: Expr, source: Val, s: State) returns (t: State)
    requires Tail(e) && Fits(e) && Representable(e)
    requires CompileExpr(e, source).Some? && |CompileExpr(e, source).value.code| < 1024
    requires s.pc == 0 && s.status == Running
    ensures Reaches(mc, CompileExpr(e, source).value, s, t)
    ensures Finished(mc, ScopeOf(s), e, t)
  {
    var start, f := Unit([], [source], [], [], false), CompileUnit(e, source);
    var p := CompileExpr(e, source).value;
    DispatchGrows(start, e, LocRslt, false, UntaggedRtn, NoneRemaining);
    ResolveLinks(f);
    assert Extends(f, f);
    assert TailCode(start, e, false) == f;
    hide Extends, Linked, Valid, Reaches, EmitDispatch, TailCode, Grows, Finished;
    t := TailRuns(mc, p, f, start, e, false, s);
  }
}
