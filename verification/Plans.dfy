/** What the analysis of a request's sub-expressions delivers to the scheduler and the emitter. */
module Plans {
  import opened Vm
  import opened Schedule
  import opened Compile

  ghost predicate DistinctIds(ids: seq<nat>) {
    forall i, j :: 0 <= i < j < |ids| ==> ids[i] != ids[j]
  }

  ghost predicate AllKids(e: Expr, ids: seq<nat>) {
    forall i :: 0 <= i < |ids| ==> IsKid(e, ids[i])
  }

  // The item under which a sub-expression is scheduled.
  ghost predicate ItemOf(e: Expr, it: Item) {
    IsKid(e, it.id) && !Simple(Kid(e, it.id)) && it == Item(Av(Kid(e, it.id)), KidDest(e, it.id), it.id)
  }

  ghost predicate Inlines(e: Expr, ids: seq<nat>, items: seq<Item>) {
    && (forall a :: 0 <= a < |items| ==> ItemOf(e, items[a]) && items[a].id in ids)
    && (forall a, b :: 0 <= a < b < |items| ==> items[a].id != items[b].id)
    && (forall i :: 0 <= i < |ids| && IsKid(e, ids[i]) && !Simple(Kid(e, ids[i])) ==> Scheduled(items, ids[i]))
  }

  ghost predicate Scheduled(items: seq<Item>, id: nat) {
    exists a :: 0 <= a < |items| && items[a].id == id
  }

  lemma ConsInlines(e: Expr, id: nat, rest: seq<nat>, head: seq<Item>, tail: seq<Item>)
    requires IsKid(e, id) && id !in rest && Inlines(e, rest, tail)
    requires if Simple(Kid(e, id)) then head == [] else |head| == 1 && ItemOf(e, head[0]) && head[0].id == id
    ensures Inlines(e, [id] + rest, head + tail)
  {
    hide ItemOf, Kid, Simple;
    var ids, items := [id] + rest, head + tail;
    forall i | 0 <= i < |ids| && IsKid(e, ids[i]) && !Simple(Kid(e, ids[i])) ensures Scheduled(items, ids[i]) {
      if i == 0 {
        assert items[0].id == id;
      } else {
        assert Scheduled(tail, rest[i - 1]);
        var a :| 0 <= a < |tail| && tail[a].id == rest[i - 1];
        assert items[|head| + a].id == ids[i];
      }
    }
    forall a | 0 <= a < |items| ensures ItemOf(e, items[a]) && items[a].id in ids {
      if a >= |head| {
        assert items[a] == tail[a - |head|];
      }
    }
    forall a, b | 0 <= a < b < |items| ensures items[a].id != items[b].id {
      assert items[b] == tail[b - |head|];
      assert a >= |head| ==> items[a] == tail[a - |head|];
    }
  }

  lemma {:induction false} InlinedInlines(e: Expr, ids: seq<nat>)
    requires AllKids(e, ids) && DistinctIds(ids)
    ensures Inlines(e, ids, Inlined(e, ids))
    decreases |ids|
  {
    if ids != [] {
      assert ids == [ids[0]] + ids[1..];
      InlinedInlines(e, ids[1..]);
      hide Inlines, Av, Kid;
      ConsInlines(e, ids[0], ids[1..], Entry(e, ids[0]), Inlined(e, ids[1..]));
    }
  }

  lemma {:induction false} SimplesComplete(e: Expr, ids: seq<nat>)
    requires AllKids(e, ids) && DistinctIds(ids)
    ensures var r := Simples(e, ids);
            && DistinctIds(r) && (forall i :: 0 <= i < |r| ==> r[i] in ids)
            && (forall i :: 0 <= i < |ids| && Simple(Kid(e, ids[i])) ==> ids[i] in r)
    decreases |ids|
  {
    if ids != [] {
      SimplesComplete(e, ids[1..]);
      assert forall j :: 0 <= j < |ids[1..]| ==> ids[1..][j] == ids[j + 1];
    }
  }

  // Kids lists every sub-expression once.
  lemma KidsComplete(e: Expr)
    requires e.Request?
    ensures AllKids(e, Kids(e)) && DistinctIds(Kids(e))
    ensures forall id: nat :: IsKid(e, id) ==> id in Kids(e)
  {
    var n := |e.args|;
    var d := Downto(n);
    var pre := (if e.target.Actor? then [n + 1] else []) + (if e.rest.Some? then [n] else []);
    assert Kids(e) == pre + d;
    forall id: nat | IsKid(e, id) ensures id in Kids(e) {
      if id < n {
        assert d[n - 1 - id] == id;
        assert Kids(e)[|pre| + (n - 1 - id)] == id;
      }
    }
  }

  lemma {:induction false} MaxAvBounds(items: seq<Item>, n: nat)
    ensures MaxAv(items, n) >= n
    ensures forall a :: 0 <= a < |items| ==> items[a].av <= MaxAv(items, n)
    decreases |items|
  {
    if items != [] {
      MaxAvBounds(items[1..], Max(n, items[0].av));
      assert forall a :: 0 < a < |items| ==> items[a] == items[1..][a - 1];
    }
  }

  // Only the target has a destination outside the argument registers, and it is analyzed first.
  lemma TargetFirst(e: Expr)
    requires e.Request?
    ensures ArgsAfter(Inlined(e, Kids(e)), 1)
  {
    var ids := Kids(e);
    KidsComplete(e);
    if e.target.Actor? {
      var rest := ids[1..];
      assert ids[0] == |e.args| + 1 && |e.args| + 1 !in rest;
      assert AllKids(e, rest) && DistinctIds(rest);
      InlinedInlines(e, rest);
      assert Inlined(e, ids) == Entry(e, ids[0]) + Inlined(e, rest);
      hide Inlined, Entry, Av, Kids;
      TailArgs(e, rest, Entry(e, ids[0]), Inlined(e, rest));
    } else {
      InlinedInlines(e, ids);
      hide Inlined, Entry, Av, Kids;
      TailArgs(e, ids, [], Inlined(e, ids));
      assert [] + Inlined(e, ids) == Inlined(e, ids);
    }
  }

  lemma TailArgs(e: Expr, ids: seq<nat>, head: seq<Item>, tail: seq<Item>)
    requires e.Request? && |head| <= 1 && Inlines(e, ids, tail) && |e.args| + 1 !in ids
    ensures ArgsAfter(head + tail, 1)
  {
    var items := head + tail;
    forall a | 1 <= a < |items| ensures items[a].dest.ArgReg? {
      var it := tail[a - |head|];
      assert items[a] == it && ItemOf(e, it) && it.id in ids;
    }
  }

  lemma InlinedSchedulable(e: Expr)
    requires e.Request? && Arity(e) <= 255
    ensures var items := Inlined(e, Kids(e)); Schedulable(items, MaxAv(items, Arity(e)))
  {
    var items := Inlined(e, Kids(e));
    hide Inlined, Av, Kids;
    KidsComplete(e);
    InlinedInlines(e, Kids(e));
    MaxAvBounds(items, Arity(e));
    TargetFirst(e);
  }

  ghost predicate Planned(e: Expr, o: Order) {
    && Safe(o)
    && (forall a :: 0 <= a < |o.home| ==> ItemOf(e, o.home[a]))
    && (forall id: nat :: IsKid(e, id) && !Simple(Kid(e, id)) ==> Scheduled(o.home, id))
    && (e.Request? ==> Arity(e) <= o.av)
  }

  lemma PlanPlanned(e: Expr)
    requires e.Request? && Arity(e) <= 255
    ensures Planned(e, Plan(e))
  {
    assert Arity(e) % 256 == Arity(e);
    var ids := Kids(e);
    var items := Inlined(e, ids);
    var o := Plan(e);
    KidsComplete(e);
    InlinedInlines(e, ids);
    InlinedSchedulable(e);
    RearrangedSafe(items, MaxAv(items, Arity(e)));
    MaxAvBounds(items, Arity(e));
    hide Inlined, Av, Kids, Rearranged, Plan, Safe, MaxAv;
    forall a | 0 <= a < |o.home| ensures ItemOf(e, o.home[a]) {
      assert o.home[a] in multiset(items);
    }
    forall id: nat | IsKid(e, id) && !Simple(Kid(e, id)) ensures Scheduled(o.home, id) {
      assert Scheduled(items, id);
      var a :| 0 <= a < |items| && items[a].id == id;
      assert items[a] in multiset(o.home);
    }
  }
}
