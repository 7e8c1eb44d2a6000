/**
 Register scheduling for inlined sub-expressions (rosette/src/Compile.cc:920-1023).

 Inlined sub-expressions of a request share one argument vector: running one of them
 may overwrite every argument register below its `av`, and it leaves its result in
 `dest`.  The compiler sorts them, and moves a result that a later one would
 overwrite to a temporary, from where an XferNode brings it home afterwards.
 */
module Schedule {
  import opened Vm

  // What scheduling sees of an AttrNode: its av_size, its destination, and which node it is.
  datatype Item = Item(av: nat, dest: Location, id: nat)

  // GET_ARGREG_INDEX; for a context register the same bits hold 16 times its number.
  function Index(loc: Location): nat {
    match loc
    case ArgReg(i) => i
    case CtxtReg(r) => 16 * r
    case _ => 0
  }

  function Highest(it: Item): int {
    var n := it.av - 1;
    if n > Index(it.dest) then n else Index(it.dest)
  }

  // The test that makes sortInlinedExprs exchange elements i and j > i.
  predicate Exchange(ni: Item, nj: Item) {
    || !nj.dest.ArgReg?
    || Highest(nj) > Highest(ni)
    || (Highest(nj) == Highest(ni) && (ni.av > Index(ni.dest) || nj.av >= Index(ni.dest)))
  }

  function Exchanged(s: seq<Item>, i: nat, j: nat): (r: seq<Item>)
    requires i < |s| && j < |s|
    ensures |r| == |s|
  {
    s[i := s[j]][j := s[i]]
  }

  // The inner loop of sortInlinedExprs.
  function Pass(s: seq<Item>, i: nat, j: nat): (r: seq<Item>)
    requires i < j <= |s|
    ensures |r| == |s|
    decreases |s| - j
  {
    if j == |s| then s
    else if Exchange(s[i], s[j]) then Pass(Exchanged(s, i, j), i, j + 1)
    else Pass(s, i, j + 1)
  }

  // sortInlinedExprs from element i on.
  function Sorted(s: seq<Item>, i: nat): (r: seq<Item>)
    requires i <= |s|
    ensures |r| == |s|
    decreases |s| - i
  {
    if i == |s| then s
    else Sorted(if s[i].dest.ArgReg? then Pass(s, i, i + 1) else s, i + 1)
  }

  // determineFree: the registers below n that are no item's destination, ascending.
  function FreeBelow(s: seq<Item>, n: nat): seq<nat> {
    if n == 0 then []
    else FreeBelow(s, n - 1) + (if Holds(s, n - 1) then [] else [n - 1])
  }

  predicate Holds(s: seq<Item>, r: nat) {
    exists a :: 0 <= a < |s| && s[a].dest == ArgReg(r)
  }

  // fixInlinedConflicts from the pair (k, k + 1) on: the items with their final destinations,
  // and the final av_size.
  function Fixed(s: seq<Item>, k: nat, free: seq<nat>, next: nat): (r: (seq<Item>, nat))
    requires k < |s|
    ensures |r.0| == |s| && r.1 >= next
    decreases |s| - k
  {
    if k + 1 == |s| then (s, next)
    else if Index(s[k].dest) > Highest(s[k + 1]) then Fixed(s, k + 1, free, next)
    else if |free| > 0 && free[|free| - 1] > Highest(s[k + 1]) then
      Fixed(s[k := s[k].(dest := ArgReg(free[|free| - 1]))], k + 1, free[..|free| - 1], next)
    else Fixed(s[k := s[k].(dest := ArgReg(next))], k + 1, free, next + 1)
  }

  // The position at which fixInlinedConflicts starts: past a leading target expression.
  function Start(s: seq<Item>, k: nat): (r: nat)
    requires k < |s|
    ensures k <= r < |s|
    decreases |s| - k
  {
    if k + 1 < |s| && !s[k].dest.ArgReg? then Start(s, k + 1) else k
  }

  // rearrangeInlinedExprs: the items in evaluation order with their original destinations,
  // the same with their final destinations, and the final av_size.
  datatype Order = Order(home: seq<Item>, items: seq<Item>, av: nat)

  function Rearranged(s: seq<Item>, av: nat): (r: Order)
    ensures |r.items| == |r.home| == |s|
  {
    if s == [] then Order([], [], av) else
    var home := Sorted(s, 0);
    var f := Fixed(home, Start(home, 0), FreeBelow(s, av), av);
    Order(home, f.0, f.1)
  }

  // The transfers for the first n items, in the order in which they are appended to the simple
  // expressions.
  function Xfers(home: seq<Item>, items: seq<Item>, n: nat): seq<(nat, Location)>
    requires n <= |items| == |home|
  {
    if n == 0 then []
    else Xfers(home, items, n - 1) +
         if items[n - 1].dest == home[n - 1].dest then []
         else [(Index(items[n - 1].dest), home[n - 1].dest)]
  }

  // ------------------------------------------------------------------
  // What the source promises of its input
  // ------------------------------------------------------------------

  // Only a leading item (the request's target) may have a destination other than an argument register.
  ghost predicate ArgsAfter(s: seq<Item>, k: nat) {
    forall a :: k <= a < |s| ==> s[a].dest.ArgReg?
  }

  ghost predicate Distinct(s: seq<Item>) {
    forall a, b :: 0 <= a < b < |s| ==> s[a].dest != s[b].dest
  }

  ghost predicate Bounded(s: seq<Item>, av: nat) {
    forall a :: 0 <= a < |s| ==> s[a].av <= av && (s[a].dest.ArgReg? ==> s[a].dest.i < av)
  }

  ghost predicate Schedulable(s: seq<Item>, av: nat) {
    Distinct(s) && Bounded(s, av) && ArgsAfter(s, 1)
  }

  // ------------------------------------------------------------------
  // Sorting
  // ------------------------------------------------------------------

  // What every step of the sort keeps.
  ghost predicate Same(s: seq<Item>, r: seq<Item>, k: nat, av: nat) {
    && |r| == |s| && k <= |s|
    && multiset(r) == multiset(s)
    && (forall a :: 0 <= a < k ==> r[a] == s[a])
    && (Distinct(s) ==> Distinct(r))
    && (Bounded(s, av) ==> Bounded(r, av))
    && (ArgsAfter(s, k) ==> ArgsAfter(r, k))
  }

  lemma ExchangedSame(s: seq<Item>, i: nat, j: nat, av: nat)
    requires i < j < |s|
    ensures Same(s, Exchanged(s, i, j), i, av)
  {
    var r := Exchanged(s, i, j);
    assert forall a :: 0 <= a < |s| ==> r[a] == if a == i then s[j] else if a == j then s[i] else s[a];
  }

  lemma SameTrans(s: seq<Item>, r: seq<Item>, t: seq<Item>, i: nat, j: nat, av: nat)
    requires i <= j && Same(s, r, i, av) && Same(r, t, j, av)
    requires ArgsAfter(s, i)
    ensures Same(s, t, i, av)
  {
    forall a | i <= a < |t| ensures t[a].dest.ArgReg? {
      if a < j {
        assert t[a] == r[a];
      }
    }
  }

  lemma {:induction false} PassSame(s: seq<Item>, i: nat, j: nat, av: nat)
    requires i < j <= |s| && ArgsAfter(s, i)
    ensures Same(s, Pass(s, i, j), i, av)
    decreases |s| - j
  {
    if j < |s| {
      if Exchange(s[i], s[j]) {
        ExchangedSame(s, i, j, av);
        PassSame(Exchanged(s, i, j), i, j + 1, av);
        SameTrans(s, Exchanged(s, i, j), Pass(s, i, j), i, i, av);
      } else {
        PassSame(s, i, j + 1, av);
      }
    }
  }

  // No item from position i on reaches above register h.
  ghost predicate Below(s: seq<Item>, i: nat, h: int) {
    forall b :: i <= b < |s| ==> Highest(s[b]) <= h
  }

  // A pass brings a highest item to position i.
  lemma {:induction false} PassHighest(s: seq<Item>, i: nat, j: nat, h: int)
    requires i < j <= |s| && ArgsAfter(s, i) && Below(s, i, h)
    requires forall b :: i < b < j ==> Highest(s[b]) <= Highest(s[i])
    ensures var r := Pass(s, i, j); Below(r, i, h) && Below(r, i, Highest(r[i]))
    decreases |s| - j
  {
    if j < |s| {
      if Exchange(s[i], s[j]) {
        PassHighest(Exchanged(s, i, j), i, j + 1, h);
      } else {
        PassHighest(s, i, j + 1, h);
      }
    }
  }

  // Highest registers descend from position k on.
  ghost predicate Descending(s: seq<Item>, k: nat) {
    forall a, b :: k <= a < b < |s| ==> Highest(s[b]) <= Highest(s[a])
  }

  lemma {:induction false} SortedDescends(s: seq<Item>, i: nat, h: int, av: nat)
    requires i <= |s| && ArgsAfter(s, i) && Below(s, i, h)
    ensures var r := Sorted(s, i); Same(s, r, i, av) && Below(r, i, h) && Descending(r, i)
    decreases |s| - i
  {
    if i < |s| {
      var t := Pass(s, i, i + 1);
      PassSame(s, i, i + 1, av);
      PassHighest(s, i, i + 1, h);
      SortedDescends(t, i + 1, Highest(t[i]), av);
      var r := Sorted(s, i);
      SameTrans(s, t, r, i, i + 1, av);
      assert r[i] == t[i];
    }
  }

  // ------------------------------------------------------------------
  // Spilling
  // ------------------------------------------------------------------

  // Running items[b] leaves the result of an earlier items[a] alone.
  ghost predicate Spared(items: seq<Item>, a: nat, b: nat)
    requires a < |items| && b < |items|
  {
    items[a].dest != items[b].dest && (items[a].dest.ArgReg? ==> items[a].dest.i >= items[b].av)
  }

  // The final destination of items[a] is its original one or a register nobody else is bound for.
  ghost predicate Placed(home: seq<Item>, items: seq<Item>, a: nat)
    requires a < |home| == |items|
  {
    && items[a] == home[a].(dest := items[a].dest)
    && (items[a].dest != home[a].dest ==>
          items[a].dest.ArgReg? && home[a].dest.ArgReg? &&
          forall b :: 0 <= b < |home| ==> home[b].dest != items[a].dest)
  }

  ghost predicate Safe(o: Order) {
    && |o.items| == |o.home|
    && Distinct(o.home)
    && Bounded(o.home, o.av) && Bounded(o.items, o.av)
    && (forall a :: 0 <= a < |o.home| ==> Placed(o.home, o.items, a))
    && (forall a, b :: 0 <= a < b < |o.items| ==> Spared(o.items, a, b))
  }

  // Registers still available as temporaries.
  ghost predicate Fresh(s: seq<Item>, free: seq<nat>, next: nat) {
    && Bounded(s, next)
    && (forall f :: 0 <= f < |free| ==> free[f] < next)
    && (forall f, g :: 0 <= f < g < |free| ==> free[f] < free[g])
    && (forall f, a :: 0 <= f < |free| && 0 <= a < |s| ==> s[a].dest != ArgReg(free[f]))
  }

  // The state of fixInlinedConflicts when it looks at the pair (k, k + 1).
  ghost predicate Fixing(home: seq<Item>, s: seq<Item>, k: nat, free: seq<nat>, next: nat) {
    && |s| == |home| && k < |s|
    && Distinct(home) && Distinct(s)
    && ArgsAfter(home, k) && Descending(home, k)
    && (forall a :: k <= a < |s| ==> s[a] == home[a])
    && (forall a :: 0 <= a < k ==> Placed(home, s, a))
    && (forall a, b :: 0 <= a < k && a < b < |s| ==> Spared(s, a, b))
    && Fresh(s, free, next) && Fresh(home, free, next)
  }

  // Giving item k the register t > Highest(k + 1) settles it for good.
  lemma Settle(home: seq<Item>, s: seq<Item>, k: nat, free: seq<nat>, next: nat, t: nat, free': seq<nat>, next': nat)
    requires Fixing(home, s, k, free, next) && k + 1 < |s| && t > Highest(s[k + 1])
    requires s[k].dest == ArgReg(t) || forall a :: 0 <= a < |s| ==> s[a].dest != ArgReg(t) && home[a].dest != ArgReg(t)
    requires t < next' && next <= next' && free' <= free && t !in free'
    ensures Fixing(home, s[k := s[k].(dest := ArgReg(t))], k + 1, free', next')
  {
    var r := s[k := s[k].(dest := ArgReg(t))];
    forall b | k < b < |s| ensures Spared(r, k, b) {
      assert Highest(s[b]) <= Highest(s[k + 1]) by {
        assert s[b] == home[b] && s[k + 1] == home[k + 1];
      }
      assert r[b] == s[b];
      assert s[k].dest != s[b].dest;
    }
    forall a, b | 0 <= a < k && a < b < |s| ensures Spared(r, a, b) {
      assert Spared(s, a, b);
      assert r[a] == s[a] && r[b].av == s[b].av;
    }
    assert Distinct(r);
    forall a | 0 <= a < k + 1 ensures Placed(home, r, a) {
      if a < k {
        assert Placed(home, s, a);
      }
    }
    assert Fresh(r, free', next');
  }

  lemma {:induction false} FixedSafe(home: seq<Item>, s: seq<Item>, k: nat, free: seq<nat>, next: nat)
    requires Fixing(home, s, k, free, next)
    ensures var f := Fixed(s, k, free, next); Safe(Order(home, f.0, f.1))
    decreases |s| - k
  {
    if k + 1 == |s| {
      assert forall a :: 0 <= a < |home| ==> Placed(home, s, a);
    } else {
      var i := Index(s[k].dest);
      assert s[k] == home[k] && s[k].dest == ArgReg(i);
      if i > Highest(s[k + 1]) {
        assert s[k := s[k].(dest := ArgReg(i))] == s;
        Settle(home, s, k, free, next, i, free, next);
        FixedSafe(home, s, k + 1, free, next);
      } else if |free| > 0 && free[|free| - 1] > Highest(s[k + 1]) {
        var t := free[|free| - 1];
        Settle(home, s, k, free, next, t, free[..|free| - 1], next);
        FixedSafe(home, s[k := s[k].(dest := ArgReg(t))], k + 1, free[..|free| - 1], next);
      } else {
        assert Highest(s[k + 1]) < next;
        Settle(home, s, k, free, next, next, free, next + 1);
        FixedSafe(home, s[k := s[k].(dest := ArgReg(next))], k + 1, free, next + 1);
      }
    }
  }

  // ------------------------------------------------------------------
  // The whole rearrangement
  // ------------------------------------------------------------------

  ghost predicate FreeList(s: seq<Item>, n: nat, free: seq<nat>) {
    && (forall f :: 0 <= f < |free| ==> free[f] < n && !Holds(s, free[f]))
    && (forall f, g :: 0 <= f < g < |free| ==> free[f] < free[g])
  }

  lemma {:induction false} FreeBelowFresh(s: seq<Item>, n: nat)
    ensures FreeList(s, n, FreeBelow(s, n))
    decreases n
  {
    if n > 0 {
      FreeBelowFresh(s, n - 1);
    }
  }

  lemma FreshFor(s: seq<Item>, home: seq<Item>, av: nat)
    requires Bounded(home, av) && multiset(home) == multiset(s)
    ensures Fresh(home, FreeBelow(s, av), av)
  {
    var free := FreeBelow(s, av);
    FreeBelowFresh(s, av);
    forall f, a | 0 <= f < |free| && 0 <= a < |home| ensures home[a].dest != ArgReg(free[f]) {
      assert home[a] in multiset(s);
      var b :| 0 <= b < |s| && s[b] == home[a];
    }
  }

  // Register scheduling is safe: whatever the sizes and destinations, no result is
  // overwritten before it is home, and temporaries stay below the final av_size.
  lemma RearrangedSafe(s: seq<Item>, av: nat)
    requires Schedulable(s, av)
    ensures var o := Rearranged(s, av);
            Safe(o) && multiset(o.home) == multiset(s) && o.av >= av
  {
    if s != [] {
      var home := Sorted(s, 0);
      var k := if s[0].dest.ArgReg? then 0 else 1;
      assert Below(s, k, av);
      SortedDescends(s, k, av, av);
      assert home == Sorted(s, k);
      var free := FreeBelow(s, av);
      FreshFor(s, home, av);
      if k == |s| {
        assert home == s && Start(home, 0) == 0;
      } else {
        assert k == 1 ==> home[0] == s[0];
        assert Start(home, 0) == k;
        assert forall a :: 0 <= a < k ==> Placed(home, home, a);
        assert forall a, b :: 0 <= a < k && a < b < |home| ==> Spared(home, a, b);
        FixedSafe(home, home, k, free, av);
      }
    }
  }

  // Whatever holds of all items' identities still does after rearranging.
  ghost predicate All(s: seq<Item>, ok: nat -> bool) {
    forall a :: 0 <= a < |s| ==> ok(s[a].id)
  }

  lemma {:induction false} PassIds(s: seq<Item>, i: nat, j: nat, ok: nat -> bool)
    requires i < j <= |s| && All(s, ok)
    ensures All(Pass(s, i, j), ok)
    decreases |s| - j
  {
    if j < |s| {
      PassIds(if Exchange(s[i], s[j]) then Exchanged(s, i, j) else s, i, j + 1, ok);
    }
  }

  lemma {:induction false} SortedIds(s: seq<Item>, i: nat, ok: nat -> bool)
    requires i <= |s| && All(s, ok)
    ensures All(Sorted(s, i), ok)
    decreases |s| - i
  {
    if i < |s| {
      PassIds(s, i, i + 1, ok);
      SortedIds(if s[i].dest.ArgReg? then Pass(s, i, i + 1) else s, i + 1, ok);
    }
  }

  lemma {:induction false} FixedIds(s: seq<Item>, k: nat, free: seq<nat>, next: nat, ok: nat -> bool)
    requires k < |s| && All(s, ok)
    ensures All(Fixed(s, k, free, next).0, ok)
    decreases |s| - k
  {
    if k + 1 < |s| {
      if Index(s[k].dest) > Highest(s[k + 1]) {
        FixedIds(s, k + 1, free, next, ok);
      } else if |free| > 0 && free[|free| - 1] > Highest(s[k + 1]) {
        FixedIds(s[k := s[k].(dest := ArgReg(free[|free| - 1]))], k + 1, free[..|free| - 1], next, ok);
      } else {
        FixedIds(s[k := s[k].(dest := ArgReg(next))], k + 1, free, next + 1, ok);
      }
    }
  }

  lemma IdsKept(s: seq<Item>, av: nat, ok: nat -> bool)
    requires All(s, ok)
    ensures All(Rearranged(s, av).items, ok)
  {
    if s != [] {
      SortedIds(s, 0, ok);
      var home := Sorted(s, 0);
      FixedIds(home, Start(home, 0), FreeBelow(s, av), av, ok);
    }
  }
}
