/** The loops of rosette/src/Compile.cc:932-1023, proved to compute the functions of module Schedule. */
module Rearrange {
  import opened Vm
  import opened Schedule

  // CompoundNode::determineFree: the destinations come in descending order.
  method DetermineFree(inlined: seq<Item>, avSize: nat) returns (free: seq<nat>)
    requires Bounded(inlined, avSize)
    requires forall a, b :: 0 <= a < b < |inlined| && inlined[a].dest.ArgReg? && inlined[b].dest.ArgReg?
               ==> inlined[a].dest.i > inlined[b].dest.i
    ensures free == FreeBelow(inlined, avSize)
  {
    free := [];
    var nextNode := |inlined|;
    var arg := 0;
    while nextNode > 0
      invariant 0 <= nextNode <= |inlined| && arg <= avSize
      invariant free == FreeBelow(inlined, arg)
      invariant forall a :: nextNode <= a < |inlined| && inlined[a].dest.ArgReg? ==> inlined[a].dest.i < arg
      invariant forall a :: 0 <= a < nextNode && inlined[a].dest.ArgReg? ==> inlined[a].dest.i >= arg
    {
      nextNode := nextNode - 1;
      var dest := inlined[nextNode].dest;
      if dest.ArgReg? {
        while arg < dest.i
          invariant arg <= dest.i && free == FreeBelow(inlined, arg)
          invariant forall a :: nextNode < a < |inlined| && inlined[a].dest.ArgReg? ==> inlined[a].dest.i < arg
        {
          assert !Holds(inlined, arg);
          free := free + [arg];
          arg := arg + 1;
        }
        assert Holds(inlined, arg);
        assert FreeBelow(inlined, arg + 1) == free;
        arg := arg + 1;
      }
    }
    while arg < avSize
      invariant arg <= avSize && free == FreeBelow(inlined, arg)
      invariant forall a :: 0 <= a < |inlined| && inlined[a].dest.ArgReg? ==> inlined[a].dest.i < arg
    {
      assert !Holds(inlined, arg);
      free := free + [arg];
      arg := arg + 1;
    }
  }

  // CompoundNode::sortInlinedExprs
  method SortInlinedExprs(exprs: array<Item>)
    modifies exprs
    ensures exprs[..] == Sorted(old(exprs[..]), 0)
  {
    var i := 0;
    while i < exprs.Length
      invariant 0 <= i <= exprs.Length
      invariant Sorted(exprs[..], i) == Sorted(old(exprs[..]), 0)
    {
      if exprs[i].dest.ArgReg? {
        ghost var was := exprs[..];
        var j := i + 1;
        while j < exprs.Length
          invariant i < j <= exprs.Length
          invariant Pass(exprs[..], i, j) == Pass(was, i, i + 1)
        {
          if Exchange(exprs[i], exprs[j]) {
            ghost var before := exprs[..];
            exprs[i], exprs[j] := exprs[j], exprs[i];
            assert exprs[..] == Exchanged(before, i, j);
          }
          j := j + 1;
        }
      }
      i := i + 1;
    }
  }

  // CompoundNode::fixInlinedConflicts: destinations change in place; the transfers are returned.
  method FixInlinedConflicts(exprs: array<Item>, free: seq<nat>, avSize: nat)
    returns (xfers: seq<(nat, Location)>, newSize: nat)
    requires exprs.Length > 0 && Fresh(exprs[..], free, avSize)
    modifies exprs
    ensures (exprs[..], newSize) == Fixed(old(exprs[..]), Start(old(exprs[..]), 0), free, avSize)
    ensures xfers == Xfers(old(exprs[..]), exprs[..], exprs.Length)
  {
    var top, nextTemp := |free|, avSize;
    xfers := [];
    var j := 1;
    ghost var was := exprs[..];
    while j < exprs.Length && !exprs[j - 1].dest.ArgReg?
      invariant 1 <= j <= exprs.Length && exprs[..] == was
      invariant Start(was, j - 1) == Start(was, 0)
      invariant Xfers(was, was, j - 1) == []
    {
      j := j + 1;
    }
    assert free[..top] == free;
    while j < exprs.Length
      invariant 1 <= j <= exprs.Length && 0 <= top <= |free| && nextTemp >= avSize
      invariant forall a :: j - 1 <= a < exprs.Length ==> exprs[a] == was[a]
      invariant Fixed(exprs[..], j - 1, free[..top], nextTemp) == Fixed(was, Start(was, 0), free, avSize)
      invariant xfers == Xfers(was, exprs[..], j - 1)
    {
      var ni, nj := exprs[j - 1], exprs[j];
      ghost var before, tops := exprs[..], free[..top];
      if Index(ni.dest) <= Highest(nj) {
        var temp;
        if top > 0 && free[top - 1] > Highest(nj) {
          top := top - 1;
          temp := free[top];
          assert tops[..|tops| - 1] == free[..top];
        } else {
          temp := nextTemp;
          nextTemp := nextTemp + 1;
        }
        xfers := xfers + [(temp, ni.dest)];
        exprs[j - 1] := ni.(dest := ArgReg(temp));
        assert exprs[..] == before[j - 1 := ni.(dest := ArgReg(temp))];
        assert was[j - 1].dest != ArgReg(temp);
      }
      XfersPrefix(was, before, exprs[..], j - 1);
      j := j + 1;
    }
    newSize := nextTemp;
  }

  lemma {:induction false} XfersPrefix(home: seq<Item>, s: seq<Item>, r: seq<Item>, n: nat)
    requires |home| == |s| == |r| && n <= |s| && s[..n] == r[..n]
    ensures Xfers(home, s, n) == Xfers(home, r, n)
    decreases n
  {
    if n > 0 {
      assert s[..n - 1] == s[..n][..n - 1] == r[..n][..n - 1] == r[..n - 1];
      assert s[n - 1] == s[..n][n - 1] == r[..n][n - 1] == r[n - 1];
      XfersPrefix(home, s, r, n - 1);
    }
  }
}
