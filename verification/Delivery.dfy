/**
 When the compiler delivers code (rosette/src/Compile.cc:2392-2412, 1466-1468 and 2415-2452).

 A compilation is given up if the literal vector is full or if a sub-expression suspends.  The
 literals are those of the expression: constants that are not immediate, free symbols, variables too
 far away for the short forms, and the registers to which these go.
 */
module Delivery {
  import opened Codec
  import opened Wrappers
  import opened Vm
  import opened Schedule
  import opened Compile
  import opened Plans

  // No request has more than 255 arguments or needs more than 256 argument registers.
  predicate Modest(e: Expr) {
    match e
    case Request(target, args, rest) =>
      && Arity(e) <= 255 && Plan(e).av <= 256
      && (target.Actor? ==> Modest(target.e))
      && (forall a :: a in args ==> Modest(a)) && (rest.Some? ==> Modest(rest.value))
    case If(c, y, n) => Modest(c) && Modest(y) && Modest(n)
    case Seq(a, b) => Modest(a) && Modest(b)
    case _ => true
  }

  // The expressions whose code is right are among these.
  lemma {:induction false} FitsModest(e: Expr)
    requires Fits(e)
    ensures Modest(e)
    decreases e
  {
    match e
    case Request(target, args, rest) =>
      hide Plan;
      if target.Actor? {
        FitsModest(target.e);
      }
      forall a | a in args ensures Modest(a) {
        FitsModest(a);
      }
      if rest.Some? {
        FitsModest(rest.value);
      }
    case If(c, y, n) =>
      FitsModest(c);
      FitsModest(y);
      FitsModest(n);
    case Seq(a, b) =>
      FitsModest(a);
      FitsModest(b);
    case _ =>
  }

  // ------------------------------------------------------------------
  // The literals of an expression
  // ------------------------------------------------------------------

  predicate IsReg(loc: Location) {
    loc.CtxtReg? || loc.ArgReg?
  }

  // Variables that a single instruction can name.
  predicate Near(loc: Location) {
    loc.GlobalVar? || (loc.LexVar? && loc.level < 8 && loc.off < 16)
  }

  function VariableLits(loc: Location, dest: Location): set<Val> {
    if loc == dest || Near(loc) || (loc.ArgReg? && dest.ArgReg?) then {}
    else if dest != LocRslt then {Atom(loc), Atom(dest)}
    else if IsReg(loc) then {}
    else {Atom(loc)}
  }

  // What an expression puts into the literal vector if its value goes to dest.
  function Literals(e: Expr, dest: Location): set<Val>
    decreases e, 1, 0
  {
    match e
    case Const(v) => if Immediate(v).Some? then {} else {v}
    case Var(loc) => VariableLits(loc, dest)
    case Free(sym, _) => {sym}
    case Request(_, args, _) => KidsLits(e, |args| + 2)
    case If(c, y, n) => Literals(c, LocRslt) + Literals(y, dest) + Literals(n, dest)
    case Seq(a, b) => Literals(a, LocRslt) + Literals(b, dest)
  }

  // The first n sub-expressions of a request.
  function KidsLits(e: Expr, n: nat): set<Val>
    requires e.Request?
    decreases e, 0, n
  {
    if n == 0 then {}
    else KidsLits(e, n - 1) + if IsKid(e, n - 1) then Literals(Kid(e, n - 1), FirstDest(e, n - 1)) else {}
  }

  // The register into which a sub-expression is evaluated: its own, or a temporary.
  function FirstDest(e: Expr, id: nat): Location
    requires IsKid(e, id)
  {
    var items := Plan(e).items;
    var a := ItemAt(items, id, 0);
    if a < |items| then items[a].dest else KidDest(e, id)
  }

  function ItemAt(items: seq<Item>, id: nat, k: nat): (a: nat)
    requires k <= |items|
    ensures k <= a <= |items| && (a < |items| ==> items[a].id == id)
    ensures forall b :: k <= b < a ==> items[b].id != id
    decreases |items| - k
  {
    if k == |items| || items[k].id == id then k else ItemAt(items, id, k + 1)
  }

  // Their number, at most.
  function Needs(e: Expr): nat
    decreases e, 1, 0
  {
    match e
    case Const(v) => if Immediate(v).Some? then 0 else 1
    case Var(loc) => if Near(loc) then 0 else 2
    case Free(_, _) => 1
    case Request(_, args, _) => KidsNeed(e, |args| + 2)
    case If(c, y, n) => Needs(c) + Needs(y) + Needs(n)
    case Seq(a, b) => Needs(a) + Needs(b)
  }

  function KidsNeed(e: Expr, n: nat): nat
    requires e.Request?
    decreases e, 0, n
  {
    if n == 0 then 0 else KidsNeed(e, n - 1) + if IsKid(e, n - 1) then Needs(Kid(e, n - 1)) else 0
  }

  lemma SetSum(a: set<Val>, b: set<Val>)
    ensures |a + b| <= |a| + |b|
  {
    assert |a + b| + |a * b| == |a| + |b|;
  }

  lemma VariableBound(loc: Location, dest: Location)
    ensures |VariableLits(loc, dest)| <= if Near(loc) then 0 else 2
  {
    SetSum({Atom(loc)}, {Atom(dest)});
    assert {Atom(loc)} + {Atom(dest)} == {Atom(loc), Atom(dest)};
  }

  lemma {:induction false} NeedsBound(e: Expr, dest: Location)
    ensures |Literals(e, dest)| <= Needs(e)
    decreases e, 1, 0
  {
    match e
    case Var(loc) => VariableBound(loc, dest);
    case Request(_, args, _) => KidsBound(e, |args| + 2);
    case If(c, y, n) =>
      NeedsBound(c, LocRslt);
      NeedsBound(y, dest);
      NeedsBound(n, dest);
      SetSum(Literals(c, LocRslt), Literals(y, dest));
      SetSum(Literals(c, LocRslt) + Literals(y, dest), Literals(n, dest));
    case Seq(a, b) =>
      NeedsBound(a, LocRslt);
      NeedsBound(b, dest);
      SetSum(Literals(a, LocRslt), Literals(b, dest));
    case _ =>
  }

  lemma {:induction false} KidsBound(e: Expr, n: nat)
    requires e.Request?
    ensures |KidsLits(e, n)| <= KidsNeed(e, n)
    decreases e, 0, n
  {
    if n > 0 {
      KidsBound(e, n - 1);
      if IsKid(e, n - 1) {
        NeedsBound(Kid(e, n - 1), FirstDest(e, n - 1));
        SetSum(KidsLits(e, n - 1), Literals(Kid(e, n - 1), FirstDest(e, n - 1)));
      }
    }
  }

  // ------------------------------------------------------------------
  // The pool of a unit
  // ------------------------------------------------------------------

  const MOST: nat := MAXIMUM_LITVEC_SIZE + 1

  ghost function Pool(u: Unit): set<Val> {
    set v | v in u.lits
  }

  // No literal twice, and no more than there is room for.
  ghost predicate Tight(u: Unit) {
    |u.lits| <= MOST && |Pool(u)| == |u.lits|
  }

  // v is u with the literals added, and has been given up if they do not fit or something was not ok.
  ghost predicate Pools(u: Unit, v: Unit, lits: set<Val>, ok: bool) {
    Tight(u) ==>
      && Tight(v) && Pool(u) <= Pool(v) <= Pool(u) + lits
      && (v.aborted <==> u.aborted || !ok || |Pool(u) + lits| > MOST)
      && (!v.aborted ==> Pool(v) == Pool(u) + lits)
  }

  lemma Smaller(a: set<Val>, b: set<Val>)
    requires a <= b
    ensures |a| <= |b|
  {
    assert b == a + (b - a);
    assert |a + (b - a)| == |a| + |b - a|;
  }

  lemma PoolsTrans(u: Unit, v: Unit, w: Unit, a: set<Val>, b: set<Val>, ok: bool, ok': bool)
    requires Pools(u, v, a, ok) && Pools(v, w, b, ok')
    ensures Pools(u, w, a + b, ok && ok')
  {
    hide Pool;
    if Tight(u) {
      Smaller(Pool(u) + a, Pool(u) + (a + b));
      if !v.aborted {
        assert Pool(v) + b == Pool(u) + (a + b);
      }
    }
  }

  lemma SamePools(u: Unit, v: Unit)
    requires v.lits == u.lits && v.aborted == u.aborted
    ensures Pools(u, v, {}, true)
  {
    assert Pool(u) + {} == Pool(u);
  }

  lemma PoolsSame(u: Unit, v: Unit, w: Unit, a: set<Val>, ok: bool)
    requires Pools(u, v, a, ok) && w.lits == v.lits && w.aborted == v.aborted
    ensures Pools(u, w, a, ok)
  {
    SamePools(v, w);
    hide Pools;
    PoolsTrans(u, v, w, a, {}, ok, true);
    assert a + {} == a;
  }

  lemma {:induction false} FindsAll(lits: seq<Val>, v: Val, n: nat)
    requires n <= |lits|
    ensures Find(lits, v, n).Some? <==> v in lits[..n]
  {
    if n > 0 {
      FindsAll(lits, v, n - 1);
      assert lits[..n] == lits[..n - 1] + [lits[n - 1]];
    }
  }

  lemma ExtendPools(u: Unit, v: Val)
    ensures Pools(u, Extend(u, v), {v}, true)
  {
    FindsAll(u.lits, v, |u.lits|);
    assert u.lits[..|u.lits|] == u.lits;
    if v in u.lits {
      assert Pool(u) + {v} == Pool(u);
    } else {
      assert v !in Pool(u) && |Pool(u) + {v}| == |Pool(u)| + 1;
      assert Pool(u.(lits := u.lits + [v])) == Pool(u) + {v};
    }
  }

  // ------------------------------------------------------------------
  // Emission
  // ------------------------------------------------------------------

  lemma SimplePools(u: Unit, e: Expr, dest: Location)
    requires Simple(e) && IsReg(dest)
    ensures Pools(u, EmitSimple(u, e, dest), Literals(e, dest), true)
  {
    match e
    case Const(v) => LitPools(u, dest, v);
    case Var(loc) => XferPools(u, dest, loc);
    case Free(sym, deferred) =>
      ExtendPools(u, sym);
      PoolsSame(u, Extend(u, sym), EmitLookup(u, dest, sym, deferred), {sym}, true);
  }

  lemma LitPools(u: Unit, dest: Location, v: Val)
    requires IsReg(dest)
    ensures Pools(u, EmitLit(u, dest, v), if Immediate(v).Some? then {} else {v}, true)
  {
    if Immediate(v).Some? {
      SamePools(u, EmitLit(u, dest, v));
    } else {
      ExtendPools(u, v);
      PoolsSame(u, Extend(u, v), EmitLit(u, dest, v), {v}, true);
    }
  }

  lemma XferPools(u: Unit, dest: Location, src: Location)
    requires IsReg(dest)
    ensures Pools(u, EmitXfer(u, dest, src), VariableLits(src, dest), true)
  {
    var w := EmitXfer(u, dest, src);
    if VariableLits(src, dest) == {} {
      SamePools(u, w);
    } else if dest == LocRslt {
      ExtendPools(u, Atom(src));
      PoolsSame(u, Extend(u, Atom(src)), w, {Atom(src)}, true);
    } else {
      var u1 := Extend(u, Atom(src));
      var u2 := Extend(u1, Atom(dest));
      ExtendPools(u, Atom(src));
      ExtendPools(u1, Atom(dest));
      assert w.lits == u2.lits && w.aborted == u2.aborted;
      hide Pools;
      PoolsTrans(u, u1, u2, {Atom(src)}, {Atom(dest)}, true, true);
      assert {Atom(src)} + {Atom(dest)} == {Atom(src), Atom(dest)};
      PoolsSame(u, u2, w, {Atom(src), Atom(dest)}, true);
    }
  }

  // Transfers between argument registers need no literals.
  lemma {:induction false} XfersSame(u: Unit, xfers: seq<(nat, Location)>)
    requires forall i :: 0 <= i < |xfers| ==> xfers[i].1.ArgReg?
    ensures var w := EmitXfers(u, xfers); w.lits == u.lits && w.aborted == u.aborted
    decreases |xfers|
  {
    if xfers != [] {
      var last := xfers[|xfers| - 1];
      XfersSame(EmitXfer(u, last.1, ArgReg(last.0)), xfers[..|xfers| - 1]);
    }
  }

  // The literals of some sub-expressions, and of some inlined ones.
  ghost function IdsLits(e: Expr, ids: seq<nat>): set<Val>
    requires AllKids(e, ids)
    decreases |ids|
  {
    if ids == [] then {}
    else
      var last := ids[|ids| - 1];
      Literals(Kid(e, last), KidDest(e, last)) + IdsLits(e, ids[..|ids| - 1])
  }

  ghost function ItemsLits(e: Expr, items: seq<Item>): set<Val>
    requires forall a :: 0 <= a < |items| ==> IsKid(e, items[a].id)
    decreases |items|
  {
    if items == [] then {} else Literals(Kid(e, items[0].id), items[0].dest) + ItemsLits(e, items[1..])
  }

  lemma {:induction false} SimplesPools(u: Unit, e: Expr, ids: seq<nat>)
    requires forall i :: 0 <= i < |ids| ==> IsKid(e, ids[i]) && Simple(Kid(e, ids[i]))
    ensures Pools(u, EmitSimples(u, e, ids), IdsLits(e, ids), true)
    decreases |ids|
  {
    hide Pools, Literals, EmitSimple, Kid;
    if ids == [] {
      SamePools(u, u);
    } else {
      var last, rest := ids[|ids| - 1], ids[..|ids| - 1];
      var u1 := EmitSimple(u, Kid(e, last), KidDest(e, last));
      SimplePools(u, Kid(e, last), KidDest(e, last));
      SimplesPools(u1, e, rest);
      PoolsTrans(u, u1, EmitSimples(u1, e, rest), Literals(Kid(e, last), KidDest(e, last)), IdsLits(e, rest), true, true);
    }
  }

  // What a return code asks of an expression: no message unless it is the last thing done.
  predicate Returns(e: Expr, rtn: Rtn) {
    if rtn.ImplicitRtn? then Inlineable(e) else Tail(e)
  }

  ghost predicate ItemsReturn(e: Expr, items: seq<Item>)
    requires forall a :: 0 <= a < |items| ==> IsKid(e, items[a].id)
  {
    forall a :: 0 <= a < |items| ==> Inlineable(Kid(e, items[a].id))
  }

  ghost predicate RegItems(e: Expr, items: seq<Item>) {
    forall a :: 0 <= a < |items| ==> IsKid(e, items[a].id) && IsReg(items[a].dest) && Modest(Kid(e, items[a].id))
  }

  lemma {:induction false} InlinedPools(u: Unit, e: Expr, items: seq<Item>, exit: nat)
    requires RegItems(e, items)
    ensures Pools(u, EmitInlined(u, e, items, exit), ItemsLits(e, items), ItemsReturn(e, items))
    decreases e, 0, |items|
  {
    hide Pools, Literals, EmitDispatch, Inlineable, Modest, Kid;
    if items == [] {
      SamePools(u, u);
    } else {
      var kid, dest, l := Kid(e, items[0].id), items[0].dest, |u.labels|;
      var lits, ok := Literals(kid, dest), Inlineable(kid);
      KidLess(e, items[0].id);
      if |items| == 1 {
        DispatchPools(u, kid, dest, true, ImplicitRtn, To(exit));
        assert ItemsLits(e, items) == lits + {} == lits;
      } else {
        var v := EmitDispatch(NewLabel(u), kid, dest, true, ImplicitRtn, To(l));
        var u1 := SetLabel(v, l);
        SamePools(u, NewLabel(u));
        DispatchPools(NewLabel(u), kid, dest, true, ImplicitRtn, To(l));
        PoolsTrans(u, NewLabel(u), v, {}, lits, true, ok);
        assert {} + lits == lits;
        PoolsSame(u, v, u1, lits, ok);
        InlinedPools(u1, e, items[1..], exit);
        PoolsTrans(u, u1, EmitInlined(u1, e, items[1..], exit), lits, ItemsLits(e, items[1..]), ok, ItemsReturn(e, items[1..]));
        ReturnCons(e, items);
      }
    }
  }

  lemma KidLess(e: Expr, id: nat)
    requires IsKid(e, id)
    ensures Kid(e, id) < e
  {
  }

  lemma ReturnCons(e: Expr, items: seq<Item>)
    requires items != [] && forall a :: 0 <= a < |items| ==> IsKid(e, items[a].id)
    ensures ItemsReturn(e, items) <==> Inlineable(Kid(e, items[0].id)) && ItemsReturn(e, items[1..])
  {
    hide Inlineable, Kid;
    assert forall a :: 0 < a < |items| ==> items[a] == items[1..][a - 1];
  }

  ghost predicate KidsReturn(e: Expr) {
    forall id :: IsKid(e, id) ==> Inlineable(Kid(e, id))
  }

  // Items keep their identities, which are different.
  lemma ItemKept(e: Expr, o: Order, a: nat)
    requires Planned(e, o) && a < |o.items|
    ensures |o.home| == |o.items| && ItemOf(e, o.home[a]) && o.items[a].id == o.home[a].id && IsReg(o.items[a].dest)
    ensures o.items[a].dest != o.home[a].dest ==> o.home[a].dest.ArgReg?
    ensures forall b :: 0 <= b < |o.items| && o.items[b].id == o.items[a].id ==> b == a
  {
    hide Av;
    assert Placed(o.home, o.items, a) && ItemOf(e, o.home[a]);
    forall b | 0 <= b < |o.items| && o.items[b].id == o.items[a].id ensures b == a {
      assert Placed(o.home, o.items, b) && ItemOf(e, o.home[b]);
      assert o.home[a].dest == o.home[b].dest;
    }
  }

  lemma {:induction false} XfersArgs(e: Expr, o: Order, n: nat)
    requires Planned(e, o) && n <= |o.items| == |o.home|
    ensures forall i :: 0 <= i < |Xfers(o.home, o.items, n)| ==> Xfers(o.home, o.items, n)[i].1.ArgReg?
    decreases n
  {
    hide Planned;
    if n > 0 {
      XfersArgs(e, o, n - 1);
      ItemKept(e, o, n - 1);
    }
  }

  // Where the sub-expressions of a request go.
  lemma PlanParts(e: Expr)
    requires e.Request? && Modest(e)
    ensures Planned(e, Plan(e)) && RegItems(e, Plan(e).items)
    ensures forall a :: 0 <= a < |Plan(e).items| ==> FirstDest(e, Plan(e).items[a].id) == Plan(e).items[a].dest
  {
    var o := Plan(e);
    PlanPlanned(e);
    hide Plan, Planned;
    forall a | 0 <= a < |o.items|
      ensures IsKid(e, o.items[a].id) && IsReg(o.items[a].dest) && Modest(Kid(e, o.items[a].id))
      ensures FirstDest(e, o.items[a].id) == o.items[a].dest
    {
      ItemKept(e, o, a);
      KidFits(e, o.items[a].id);
      assert ItemAt(o.items, o.items[a].id, 0) == a;
    }
  }

  lemma KidFits(e: Expr, id: nat)
    requires IsKid(e, id) && Modest(e)
    ensures Modest(Kid(e, id))
  {
    hide Plan;
  }

  lemma SimpleDest(e: Expr, id: nat)
    requires Modest(e) && IsKid(e, id) && Simple(Kid(e, id))
    ensures FirstDest(e, id) == KidDest(e, id)
  {
    var o := Plan(e);
    PlanPlanned(e);
    hide Plan, Planned;
    var a := ItemAt(o.items, id, 0);
    if a < |o.items| {
      ItemKept(e, o, a);
    }
  }

  lemma {:induction false} IdsHave(e: Expr, ids: seq<nat>, v: Val)
    requires AllKids(e, ids)
    ensures v in IdsLits(e, ids) <==> exists i :: 0 <= i < |ids| && v in Literals(Kid(e, ids[i]), KidDest(e, ids[i]))
    decreases |ids|
  {
    hide Literals;
    if ids != [] {
      var n := |ids| - 1;
      IdsHave(e, ids[..n], v);
      if v in IdsLits(e, ids) && v !in Literals(Kid(e, ids[n]), KidDest(e, ids[n])) {
        var i :| 0 <= i < n && v in Literals(Kid(e, ids[..n][i]), KidDest(e, ids[..n][i]));
        assert v in Literals(Kid(e, ids[i]), KidDest(e, ids[i]));
      }
      if i :| 0 <= i < |ids| && v in Literals(Kid(e, ids[i]), KidDest(e, ids[i])) {
        assert i < n ==> ids[..n][i] == ids[i];
      }
    }
  }

  lemma {:induction false} ItemsHave(e: Expr, items: seq<Item>, v: Val)
    requires forall a :: 0 <= a < |items| ==> IsKid(e, items[a].id)
    ensures v in ItemsLits(e, items) <==> exists a :: 0 <= a < |items| && v in Literals(Kid(e, items[a].id), items[a].dest)
    decreases |items|
  {
    hide Literals;
    if items != [] {
      var rest := items[1..];
      ItemsHave(e, rest, v);
      if v in ItemsLits(e, items) && v !in Literals(Kid(e, items[0].id), items[0].dest) {
        var a :| 0 <= a < |rest| && v in Literals(Kid(e, rest[a].id), rest[a].dest);
        assert items[a + 1] == rest[a];
      }
      if a :| 0 <= a < |items| && v in Literals(Kid(e, items[a].id), items[a].dest) {
        assert a > 0 ==> rest[a - 1] == items[a];
      }
    }
  }

  ghost predicate KidHas(e: Expr, id: nat, v: Val) {
    IsKid(e, id) && v in Literals(Kid(e, id), FirstDest(e, id))
  }

  lemma {:induction false} KidsHave(e: Expr, n: nat, v: Val)
    requires e.Request?
    ensures v in KidsLits(e, n) <==> exists id: nat :: id < n && KidHas(e, id, v)
    decreases n
  {
    hide Literals, FirstDest;
    if n > 0 {
      KidsHave(e, n - 1, v);
      if v in KidsLits(e, n) {
        if v in KidsLits(e, n - 1) {
          var id: nat :| id < n - 1 && KidHas(e, id, v);
          assert id < n;
        } else {
          assert KidHas(e, n - 1, v);
        }
      }
    }
  }

  // The inlined and the simple sub-expressions are all of them.
  lemma PartsHave(e: Expr, v: Val)
    requires e.Request? && Modest(e) && RegItems(e, Plan(e).items) && AllKids(e, Simples(e, Kids(e)))
    ensures v in KidsLits(e, |e.args| + 2) <==> v in ItemsLits(e, Plan(e).items) || v in IdsLits(e, Simples(e, Kids(e)))
  {
    var o, ids := Plan(e), Simples(e, Kids(e));
    PlanParts(e);
    KidsComplete(e);
    SimplesComplete(e, Kids(e));
    hide Plan, Literals, FirstDest, Kids, Simples, Kid, KidDest;
    KidsHave(e, |e.args| + 2, v);
    ItemsHave(e, o.items, v);
    IdsHave(e, ids, v);
    if id: nat :| id < |e.args| + 2 && KidHas(e, id, v) {
      KidInPart(e, id, v, o, ids);
    }
    if a :| 0 <= a < |o.items| && v in Literals(Kid(e, o.items[a].id), o.items[a].dest) {
      assert KidHas(e, o.items[a].id, v);
    }
    if i :| 0 <= i < |ids| && v in Literals(Kid(e, ids[i]), KidDest(e, ids[i])) {
      SimpleDest(e, ids[i]);
      assert KidHas(e, ids[i], v);
    }
  }

  lemma KidInPart(e: Expr, id: nat, v: Val, o: Order, ids: seq<nat>)
    requires e.Request? && Modest(e) && KidHas(e, id, v) && o == Plan(e) && Planned(e, o) && AllKids(e, ids)
    requires RegItems(e, o.items)
    requires forall a :: 0 <= a < |o.items| ==> FirstDest(e, o.items[a].id) == o.items[a].dest
    requires Simple(Kid(e, id)) ==> id in ids
    ensures || (exists a :: 0 <= a < |o.items| && v in Literals(Kid(e, o.items[a].id), o.items[a].dest))
            || (exists i :: 0 <= i < |ids| && v in Literals(Kid(e, ids[i]), KidDest(e, ids[i])))
  {
    hide Literals, FirstDest, Plan, Kid;
    if Simple(Kid(e, id)) {
      SimpleDest(e, id);
      var i :| 0 <= i < |ids| && ids[i] == id;
      assert v in Literals(Kid(e, ids[i]), KidDest(e, ids[i]));
    } else {
      assert Scheduled(o.home, id);
      var a :| 0 <= a < |o.home| && o.home[a].id == id;
      ItemKept(e, o, a);
      assert v in Literals(Kid(e, o.items[a].id), o.items[a].dest);
    }
  }

  lemma PartsLits(e: Expr)
    requires e.Request? && Modest(e) && RegItems(e, Plan(e).items) && AllKids(e, Simples(e, Kids(e)))
    ensures KidsLits(e, |e.args| + 2) == ItemsLits(e, Plan(e).items) + IdsLits(e, Simples(e, Kids(e)))
  {
    forall v ensures v in KidsLits(e, |e.args| + 2) <==>
                     v in ItemsLits(e, Plan(e).items) + IdsLits(e, Simples(e, Kids(e)))
    {
      PartsHave(e, v);
    }
  }

  lemma PartsReturn(e: Expr)
    requires e.Request? && Modest(e) && RegItems(e, Plan(e).items)
    ensures ItemsReturn(e, Plan(e).items) <==> KidsReturn(e)
  {
    var o := Plan(e);
    PlanParts(e);
    hide Plan;
    forall id | ItemsReturn(e, o.items) && IsKid(e, id) ensures Inlineable(Kid(e, id)) {
      if !Simple(Kid(e, id)) {
        hide Inlineable;
        assert Scheduled(o.home, id);
        var a :| 0 <= a < |o.home| && o.home[a].id == id;
        ItemKept(e, o, a);
      }
    }
  }

  lemma {:induction false} KidsPools(u: Unit, e: Expr)
    requires e.Request? && Modest(e)
    ensures Pools(u, EmitKids(u, e), KidsLits(e, |e.args| + 2), KidsReturn(e))
    decreases e, 1, 0
  {
    var o, ids := Plan(e), Simples(e, Kids(e));
    PlanParts(e);
    PartsLits(e);
    PartsReturn(e);
    XfersArgs(e, o, |o.items|);
    var xfers := Xfers(o.home, o.items, |o.items|);
    var v := EmitInlinedPart(u, e, o.items);
    var w := EmitSimplePart(v, e, xfers, ids);
    assert EmitKids(u, e) == w;
    hide Pools, Plan, Planned, Kids, Simples, Modest, Inlineable, RegItems, Xfers, ItemsLits, IdsLits, ItemsReturn, KidsReturn, KidsLits,
         EmitInlinedPart, EmitSimplePart, EmitKids;
    InlinedPartPools(u, e, o.items);
    SimplePartPools(v, e, xfers, ids);
    PoolsTrans(u, v, w, ItemsLits(e, o.items), IdsLits(e, ids), ItemsReturn(e, o.items), true);
  }

  lemma {:induction false} InlinedPartPools(u: Unit, e: Expr, items: seq<Item>)
    requires RegItems(e, items)
    ensures Pools(u, EmitInlinedPart(u, e, items), ItemsLits(e, items), ItemsReturn(e, items))
    decreases e, 0, |items| + 1
  {
    hide Pools, EmitInlined, Inlineable, Literals, Modest;
    if items == [] {
      SamePools(u, u);
    } else {
      var l := |u.labels|;
      var v := EmitInlined(NewLabel(u), e, items, l);
      SamePools(u, NewLabel(u));
      InlinedPools(NewLabel(u), e, items, l);
      PoolsTrans(u, NewLabel(u), v, {}, ItemsLits(e, items), true, ItemsReturn(e, items));
      assert {} + ItemsLits(e, items) == ItemsLits(e, items);
      PoolsSame(u, v, SetLabel(v, l), ItemsLits(e, items), ItemsReturn(e, items));
    }
  }

  lemma SimplePartPools(u: Unit, e: Expr, xfers: seq<(nat, Location)>, ids: seq<nat>)
    requires forall i :: 0 <= i < |ids| ==> IsKid(e, ids[i]) && Simple(Kid(e, ids[i]))
    requires forall i :: 0 <= i < |xfers| ==> xfers[i].1.ArgReg?
    ensures Pools(u, EmitSimplePart(u, e, xfers, ids), IdsLits(e, ids), true)
  {
    hide Pools, EmitXfers, EmitSimples, Literals, Kid, Simple;
    if xfers == [] && ids == [] {
      SamePools(u, u);
    } else {
      var l, v := |u.labels|, EmitXfers(NewLabel(u), xfers);
      var w := EmitSimples(v, e, ids);
      XfersSame(NewLabel(u), xfers);
      SamePools(u, v);
      SimplesPools(v, e, ids);
      PoolsTrans(u, v, w, {}, IdsLits(e, ids), true, true);
      assert {} + IdsLits(e, ids) == IdsLits(e, ids);
      PoolsSame(u, w, SetLabel(w, l), IdsLits(e, ids), true);
    }
  }

  // The last instruction of a request needs no literal, and only a message must be the last thing done.
  lemma WrapupPools(u: Unit, e: Expr, dest: Location, rtn: Rtn, next: Next)
    requires e.Request? && IsReg(dest)
    ensures var w := if e.target.Prim? then EmitApplyPrim(u, dest, e.target.k, |e.args|, e.rest.Some?, rtn, next)
                     else EmitXmit(u, dest, |e.args|, e.rest.Some?, rtn, next);
            Pools(u, w, {}, e.target.Prim? || rtn.UntaggedRtn?)
  {
    if e.target.Prim? {
      SamePools(u, EmitApplyPrim(u, dest, e.target.k, |e.args|, e.rest.Some?, rtn, next));
    } else if rtn.UntaggedRtn? {
      SamePools(u, EmitXmit(u, dest, |e.args|, e.rest.Some?, rtn, next));
    } else {
      assert Pool(u) + {} == Pool(u);
    }
  }

  lemma {:induction false} RequestPools(u: Unit, e: Expr, dest: Location, rtn: Rtn, next: Next)
    requires Modest(e) && IsReg(dest) && e.Request?
    ensures Pools(u, EmitDispatch(u, e, dest, true, rtn, next), Literals(e, dest), Returns(e, rtn))
    decreases e, 1, 1
  {
    hide *;
    var u1, lits := EmitKids(u, e), KidsLits(e, |e.args| + 2);
    var w := EmitDispatch(u, e, dest, true, rtn, next);
    RequestEmits(u, e, dest, rtn, next);
    KidsPools(u, e);
    ReturnIs(e, rtn);
    WrapupPools(u1, e, dest, rtn, next);
    PoolsTrans(u, u1, w, lits, {}, KidsReturn(e), e.target.Prim? || rtn.UntaggedRtn?);
    assert lits + {} == lits;
  }

  lemma RequestEmits(u: Unit, e: Expr, dest: Location, rtn: Rtn, next: Next)
    requires e.Request?
    ensures Literals(e, dest) == KidsLits(e, |e.args| + 2)
    ensures var u1 := EmitKids(u, e);
            EmitDispatch(u, e, dest, true, rtn, next) ==
            if e.target.Prim? then EmitApplyPrim(u1, dest, e.target.k, |e.args|, e.rest.Some?, rtn, next)
            else EmitXmit(u1, dest, |e.args|, e.rest.Some?, rtn, next)
  {
    hide EmitKids, EmitApplyPrim, EmitXmit, KidsLits;
  }

  lemma ReturnIs(e: Expr, rtn: Rtn)
    requires e.Request?
    ensures Returns(e, rtn) <==> KidsReturn(e) && (e.target.Prim? || rtn.UntaggedRtn?)
  {
    var n := |e.args|;
    if KidsReturn(e) {
      forall a | a in e.args ensures Inlineable(a) {
        var i :| 0 <= i < n && e.args[i] == a;
        assert IsKid(e, i) && Kid(e, i) == a;
      }
      assert e.rest.Some? ==> IsKid(e, n) && Kid(e, n) == e.rest.value;
      assert e.target.Actor? ==> IsKid(e, n + 1) && Kid(e, n + 1) == e.target.e;
    }
  }

  lemma {:induction false} FirstPools(u: Unit, c: Expr)
    requires Modest(c)
    ensures Pools(u, EmitFirst(u, c), Literals(c, LocRslt), Inlineable(c))
    decreases c, 3, 0
  {
    var l := |u.labels|;
    var v := EmitDispatch(NewLabel(u), c, LocRslt, true, ImplicitRtn, To(l));
    SamePools(u, NewLabel(u));
    DispatchPools(NewLabel(u), c, LocRslt, true, ImplicitRtn, To(l));
    hide Pools, EmitDispatch, Literals, Inlineable, Modest;
    PoolsTrans(u, NewLabel(u), v, {}, Literals(c, LocRslt), true, Inlineable(c));
    assert {} + Literals(c, LocRslt) == Literals(c, LocRslt);
    PoolsSame(u, v, SetLabel(v, l), Literals(c, LocRslt), Inlineable(c));
  }

  lemma {:induction false} BranchesPools(u: Unit, e: Expr, dest: Location, rtn: Rtn, next: Next)
    requires Modest(e) && IsReg(dest) && e.If?
    ensures Pools(u, EmitBranches(u, e, dest, rtn, next), Literals(e.yes, dest) + Literals(e.no, dest),
                  Returns(e.yes, rtn) && Returns(e.no, rtn))
    decreases e, 1, 0
  {
    var no := |u.labels|;
    var u1 := Jump(NewLabel(u), OP_JMP_FALSE, no);
    var u2 := EmitDispatch(u1, e.yes, dest, true, rtn, next);
    var u3 := if next.To? then Jump(u2, OP_JMP, next.l) else u2;
    var u4 := SetLabel(u3, no);
    var w := EmitDispatch(u4, e.no, dest, true, rtn, next);
    assert w == EmitBranches(u, e, dest, rtn, next);
    var a, b, ok := Literals(e.yes, dest), Literals(e.no, dest), Returns(e.yes, rtn);
    assert Modest(e.yes) && Modest(e.no);
    hide Pools, EmitDispatch, Literals, Returns, Modest, EmitBranches;
    SamePools(u, u1);
    DispatchPools(u1, e.yes, dest, true, rtn, next);
    PoolsTrans(u, u1, u2, {}, a, true, ok);
    assert {} + a == a;
    PoolsSame(u, u2, u4, a, ok);
    DispatchPools(u4, e.no, dest, true, rtn, next);
    PoolsTrans(u, u4, w, a, b, ok, Returns(e.no, rtn));
  }

  lemma AllocPools(u: Unit, n: nat)
    ensures Pools(u, EmitAlloc(u, n), {}, true)
  {
    SamePools(u, EmitAlloc(u, n));
  }

  // Without an argument vector of its own, an expression allocates one first.
  lemma AllocFirst(u: Unit, e: Expr, dest: Location, rtn: Rtn, next: Next)
    requires !Simple(e)
    ensures EmitDispatch(u, e, dest, false, rtn, next) == EmitDispatch(EmitAlloc(u, Av(e)), e, dest, true, rtn, next)
  {
    hide EmitAlloc, EmitKids, EmitApplyPrim, EmitXmit, EmitBranches, EmitFirst, Av;
  }

  // Emission adds exactly the literals of the expression, and is given up exactly if they do not fit or
  // a message is not the last thing done.
  lemma {:induction false} DispatchPools(u: Unit, e: Expr, dest: Location, argvec: bool, rtn: Rtn, next: Next)
    requires Modest(e) && IsReg(dest)
    ensures Pools(u, EmitDispatch(u, e, dest, argvec, rtn, next), Literals(e, dest), Returns(e, rtn))
    decreases e, 2, 1
  {
    if !argvec && !Simple(e) {
      var u0 := EmitAlloc(u, Av(e));
      AllocFirst(u, e, dest, rtn, next);
      AllocPools(u, Av(e));
      ReadyPools(u0, e, dest, rtn, next);
      hide Pools, EmitDispatch, Literals, Returns, Modest, EmitAlloc;
      PoolsTrans(u, u0, EmitDispatch(u0, e, dest, true, rtn, next), {}, Literals(e, dest), true, Returns(e, rtn));
      assert {} + Literals(e, dest) == Literals(e, dest);
    } else {
      ReadyPools(u, e, dest, rtn, next);
      assert Simple(e) ==> EmitDispatch(u, e, dest, argvec, rtn, next) == EmitDispatch(u, e, dest, true, rtn, next);
    }
  }

  lemma {:induction false} ReadyPools(u: Unit, e: Expr, dest: Location, rtn: Rtn, next: Next)
    requires Modest(e) && IsReg(dest)
    ensures Pools(u, EmitDispatch(u, e, dest, true, rtn, next), Literals(e, dest), Returns(e, rtn))
    decreases e, 2, 0
  {
    var w := EmitDispatch(u, e, dest, true, rtn, next);
    match e
    case Request(_, _, _) => RequestPools(u, e, dest, rtn, next);
    case If(c, y, n) =>
      FirstPools(u, c);
      BranchesPools(EmitFirst(u, c), e, dest, rtn, next);
      IfPools(u, EmitFirst(u, c), w, e, dest, rtn);
    case Seq(a, b) =>
      var v := EmitFirst(u, a);
      FirstPools(u, a);
      DispatchPools(v, b, dest, true, rtn, next);
      PoolsTrans(u, v, w, Literals(a, LocRslt), Literals(b, dest), Inlineable(a), Returns(b, rtn));
    case _ =>
      SimplePools(u, e, dest);
      PoolsSame(u, EmitSimple(u, e, dest), w, Literals(e, dest), true);
  }

  lemma IfPools(u: Unit, v: Unit, w: Unit, e: Expr, dest: Location, rtn: Rtn)
    requires e.If? && Pools(u, v, Literals(e.cond, LocRslt), Inlineable(e.cond))
    requires Pools(v, w, Literals(e.yes, dest) + Literals(e.no, dest), Returns(e.yes, rtn) && Returns(e.no, rtn))
    ensures Pools(u, w, Literals(e, dest), Returns(e, rtn))
  {
    var c, y, n := Literals(e.cond, LocRslt), Literals(e.yes, dest), Literals(e.no, dest);
    assert Literals(e, dest) == c + (y + n);
    assert Returns(e, rtn) == (Inlineable(e.cond) && (Returns(e.yes, rtn) && Returns(e.no, rtn)));
    hide Pools, Literals, Returns, Inlineable;
    PoolsTrans(u, v, w, c, y + n, Inlineable(e.cond), Returns(e.yes, rtn) && Returns(e.no, rtn));
  }

  // ------------------------------------------------------------------
  // Delivery
  // ------------------------------------------------------------------

  lemma {:induction false} ModestAdmitted(e: Expr)
    requires Modest(e)
    ensures Admitted(e)
    decreases e
  {
    match e
    case Request(target, args, rest) =>
      hide Plan;
      if target.Actor? {
        ModestAdmitted(target.e);
      }
      forall a | a in args ensures Admitted(a) {
        ModestAdmitted(a);
      }
      if rest.Some? {
        ModestAdmitted(rest.value);
      }
    case If(c, y, n) =>
      ModestAdmitted(c);
      ModestAdmitted(y);
      ModestAdmitted(n);
    case Seq(a, b) =>
      ModestAdmitted(a);
      ModestAdmitted(b);
    case _ =>
  }

  /**
   An expression whose requests have at most 255 arguments and 256 argument registers is compiled
   exactly if nothing in it suspends and it has, together with its source, at most 128 literals.
   */
  lemma Delivered(e: Expr, source: Val)
    requires Modest(e)
    ensures CompileExpr(e, source).Some? <==> Tail(e) && |{source} + Literals(e, LocRslt)| <= 128
  {
    var u := Unit([], [source], [], [], false);
    ModestAdmitted(e);
    DispatchPools(u, e, LocRslt, false, UntaggedRtn, NoneRemaining);
    hide EmitDispatch, Literals, Modest, Admitted, Tail;
    assert Pool(u) == {source} && |{source}| == 1;
  }

  // Counted by occurrences.
  lemma DeliveredIfFew(e: Expr, source: Val)
    requires Modest(e) && Tail(e) && Needs(e) <= 127
    ensures CompileExpr(e, source).Some?
  {
    Delivered(e, source);
    hide CompileExpr, Literals, Needs, Modest, Tail;
    NeedsBound(e, LocRslt);
    SetSum({source}, Literals(e, LocRslt));
  }

  // q is the expression or part of it.
  ghost predicate Inside(q: Expr, e: Expr)
    decreases e
  {
    || q == e
    || match e
       case Request(_, _, _) => exists id :: IsKid(e, id) && Inside(q, Kid(e, id))
       case If(c, y, n) => Inside(q, c) || Inside(q, y) || Inside(q, n)
       case Seq(a, b) => Inside(q, a) || Inside(q, b)
       case _ => false
  }

  // No code is delivered for an expression with a request that needs more than 256 argument registers.
  lemma {:induction false} RefusedIfWide(e: Expr, source: Val, q: Expr)
    requires q.Request? && Inside(q, e) && (Arity(q) > 256 || Plan(q).av > 256)
    ensures CompileExpr(e, source).None?
  {
    WideInside(e, q);
    hide CompileUnit;
  }

  lemma {:induction false} WideInside(e: Expr, q: Expr)
    requires q.Request? && Inside(q, e) && (Arity(q) > 256 || Plan(q).av > 256)
    ensures !Admitted(e)
    decreases e
  {
    hide Plan;
    if q != e {
      match e
      case Request(_, _, _) =>
        var id :| IsKid(e, id) && Inside(q, Kid(e, id));
        WideInside(Kid(e, id), q);
      case If(c, y, n) => WideInside(if Inside(q, c) then c else if Inside(q, y) then y else n, q);
      case Seq(a, b) => WideInside(if Inside(q, a) then a else b, q);
    }
  }
}
