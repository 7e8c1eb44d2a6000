/**
 tuple-unzip and tuple-zip (rosette/src/BaseSupp.cc:920-1009): dealing the elements of a tuple to
 n parts in turn, and collecting them again.
 */
module Zip {
  // The length of part j: the first sz % n parts are one longer.
  function PartSize(sz: nat, n: nat, j: nat): nat
    requires n > 0
  {
    sz / n + if j < sz % n then 1 else 0
  }

  // The element dealt to slot i of part j.
  function Place(i: nat, n: nat, j: nat): nat {
    i * n + j
  }

  // Slot i of part j has an element exactly if element i * n + j exists.
  lemma SlotExists(sz: nat, n: nat, i: nat, j: nat)
    requires j < n
    ensures i < PartSize(sz, n, j) <==> Place(i, n, j) < sz
  {
    var q, r := sz / n, sz % n;
    assert sz == q * n + r;
    if i < q {
      MulLess(i, q, n);
    } else if i > q {
      MulLess(q, i, n);
    }
  }

  lemma MulLess(a: nat, b: nat, n: nat)
    requires a < b
    ensures a * n + n <= b * n
  {
    assert b * n == (b - a - 1) * n + a * n + n;
  }

  // Every slot of part j has been written, from the element it belongs to.
  ghost predicate DealtTo<T>(t: seq<T>, n: nat, j: nat, part: seq<T>)
    requires n > 0
  {
    && |part| == PartSize(|t|, n, j)
    && forall i :: 0 <= i < |part| ==> Place(i, n, j) < |t| && part[i] == t[Place(i, n, j)]
  }

  ghost predicate Dealt<T>(t: seq<T>, n: nat, parts: seq<seq<T>>)
    requires n > 0
  {
    |parts| == n && forall j :: 0 <= j < n ==> DealtTo(t, n, j, parts[j])
  }

  // tuple-unzip with a stride n of two or more
  method Unzip<T>(t: seq<T>, n: nat) returns (parts: seq<seq<T>>)
    requires n > 0
    ensures Dealt(t, n, parts)
  {
    parts := [];
    for j := 0 to n
      invariant |parts| == j && forall k :: 0 <= k < j ==> DealtTo(t, n, k, parts[k])
    {
      hide DealtTo;
      var part := Part(t, n, j);
      parts := parts + [part];
    }
  }

  method Part<T>(t: seq<T>, n: nat, j: nat) returns (part: seq<T>)
    requires j < n
    ensures DealtTo(t, n, j, part)
  {
    part := [];
    for i := 0 to |t| / n + 1
      invariant |part| == (if i <= |t| / n then i else PartSize(|t|, n, j))
      invariant forall k :: 0 <= k < |part| ==> Place(k, n, j) < |t| && part[k] == t[Place(k, n, j)]
    {
      SlotExists(|t|, n, i, j);
      var x := Place(i, n, j);
      if x < |t| {
        part := part + [t[x]];
      }
    }
  }

  // tuple-zip of the parts of a tuple restores the tuple.
  method ZipParts<T>(parts: seq<seq<T>>, ghost t: seq<T>) returns (ans: seq<T>)
    requires |parts| > 0 && Dealt(t, |parts|, parts)
    ensures ans == t
  {
    var n: nat, mx: nat := |parts|, 0;
    for j := 0 to n
      invariant forall k :: 0 <= k < j ==> |parts[k]| <= mx
    {
      if mx < |parts[j]| {
        mx := |parts[j]|;
      }
    }
    ans := [];
    for i := 0 to mx
      invariant |ans| == Least(i * n, |t|) && ans == t[..|ans|]
    {
      ghost var row := i * n;
      for j := 0 to n
        invariant |ans| == Least(row + j, |t|) && ans == t[..|ans|]
      {
        SlotExists(|t|, n, i, j);
        assert DealtTo(t, n, j, parts[j]);
        if i < |parts[j]| {
          ans := ans + [parts[j][i]];
        }
      }
      assert (i + 1) * n == row + n;
    }
    Enough(t, parts, mx);
    assert t[..|t|] == t;
  }

  function Least(a: nat, b: nat): nat {
    if a < b then a else b
  }

  lemma Enough<T>(t: seq<T>, parts: seq<seq<T>>, mx: nat)
    requires |parts| > 0 && Dealt(t, |parts|, parts) && |parts[0]| <= mx
    ensures mx * |parts| >= |t|
  {
    SlotExists(|t|, |parts|, mx, 0);
    assert DealtTo(t, |parts|, 0, parts[0]);
  }
}
