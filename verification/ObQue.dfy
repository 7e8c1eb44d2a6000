/**
 The ring buffer that holds the scheduled strands (rosette/h/ObQue.h:51-88,
 rosette/src/ObQue.cc:36-88).

 enq stores below tail, deq takes from below head, and push stores at head, so that a pushed
 element is the next one taken.  head may stand at the end of the array.
 */
module ObQue {
  import opened Wrappers

  // The elements in the order of the array: from the one enqueued last to the next one to be taken.
  function Ring<T>(a: seq<T>, tail: nat, head: nat, added: bool): seq<T>
    requires tail < |a| && head <= |a|
  {
    if tail < head then a[tail..head]
    else if tail == head && !added then []
    else a[tail..] + a[..head]
  }

  lemma RingFull<T>(a: seq<T>, tail: nat, head: nat, added: bool)
    requires tail < |a| && head <= |a|
    ensures |Ring(a, tail, head, added)| == |a| <==> (head == tail && added) || (tail == 0 && head == |a|)
  {
  }

  // Storing below tail.
  lemma EnqRing<T>(a: seq<T>, tail: nat, head: nat, added: bool, o: T)
    requires tail < |a| && head <= |a| && |Ring(a, tail, head, added)| < |a|
    ensures var k := (if tail == 0 then |a| else tail) - 1;
            Ring(a[k := o], k, head, true) == [o] + Ring(a, tail, head, added)
  {
    var k := (if tail == 0 then |a| else tail) - 1;
    var b := a[k := o];
    if tail == 0 {
      assert b[k..] + b[..head] == [o] + a[..head];
    } else if k < head {
      assert b[k..head] == [o] + a[tail..head];
    } else {
      assert b[k..] == [o] + a[tail..] && b[..head] == a[..head];
    }
  }

  // The index that deq takes.
  function Taken(size: nat, head: nat): nat
    requires 0 < size && head <= size
  {
    if head == 0 then size - 1 else head - 1
  }

  // deq leaves one element less exactly if there was one; from an empty queue it makes a full one but for one.
  lemma DeqCounts<T>(a: seq<T>, tail: nat, head: nat, added: bool)
    requires tail < |a| && head <= |a|
    ensures var ring, k := Ring(a, tail, head, added), Taken(|a|, head);
            if ring == [] then |Ring(a, tail, k, false)| == |a| - 1 else ring == Ring(a, tail, k, false) + [a[k]]
  {
    var k := Taken(|a|, head);
    assert a[k..k + 1] == [a[k]];
    if tail < head {
      assert a[tail..head] == a[tail..k] + a[k..head];
    } else if head == 0 {
      assert a[tail..] + a[..0] == a[tail..k] + a[k..];
    } else {
      assert a[..head] == a[..k] + a[k..head];
    }
  }

  // memcpy
  method Copy<T>(dst: array<T>, at: nat, src: array<T>, start: nat, n: nat)
    requires at + n <= dst.Length && start + n <= src.Length && dst != src
    modifies dst
    ensures dst[..at] == old(dst[..at]) && dst[at..at + n] == src[start..start + n]
  {
    forall i | 0 <= i < n {
      dst[at + i] := src[start + i];
    }
  }

  class ObQue<T(0)> {
    var array_: array<T>
    var head: nat
    var tail: nat
    var added: bool

    ghost predicate Valid()
      reads this
    {
      tail < array_.Length && head <= array_.Length
    }

    ghost function Contents(): seq<T>
      reads this, array_
      requires Valid()
    {
      Ring(array_[..], tail, head, added)
    }

    constructor (size: nat)
      requires size > 0
      ensures Valid() && Contents() == [] && array_.Length == size && fresh(array_)
    {
      array_ := new T[size];
      head, tail, added := 0, 0, false;
    }

    method Empty() returns (b: bool)
      requires Valid()
      ensures b <==> Contents() == []
    {
      b := head == tail && !added;
    }

    method Resize()
      requires Valid()
      modifies this
      ensures Valid() && Contents() == old(Contents()) && fresh(array_) && added == old(added)
      ensures array_.Length == 2 * old(array_.Length) && tail == 0
    {
      var size := array_.Length;
      var a := new T[2 * size];
      var offset;
      if tail < head {
        offset := head - tail;
        Copy(a, 0, array_, tail, offset);
      } else {
        offset := size - tail;
        Copy(a, 0, array_, tail, offset);
        Copy(a, offset, array_, 0, head);
        assert a[..offset + head] == a[..offset] + a[offset..offset + head];
        offset := if head == tail && !added then 0 else size - (tail - head);
      }
      assert a[..offset] == Contents();
      array_, tail, head := a, 0, offset;
      assert array_[..][0..offset] == a[..offset];
    }

    method Enq(o: T)
      requires Valid()
      modifies this, array_
      ensures Valid() && Contents() == [o] + old(Contents())
      ensures array_ == old(array_) || fresh(array_)
      ensures array_ != old(array_) <==> |old(Contents())| == old(array_.Length)
    {
      RingFull(array_[..], tail, head, added);
      if (head == tail && added) || (tail == 0 && head == array_.Length) {
        Resize();
      }
      ghost var was := array_[..];
      EnqRing(was, tail, head, added, o);
      if tail == 0 {
        tail := array_.Length;
      }
      added := true;
      tail := tail - 1;
      array_[tail] := o;
      assert array_[..] == was[tail := o];
    }

    // There is no return after the test for an empty queue, which therefore seems to hold elements
    // afterwards: as many as fit, but for one.
    method Deq() returns (o: T)
      requires Valid()
      modifies this
      ensures Valid() && array_ == old(array_)
      ensures old(Contents()) != [] ==> old(Contents()) == Contents() + [o]
      ensures old(Contents()) == [] ==> |Contents()| == array_.Length - 1
    {
      DeqCounts(array_[..], tail, head, added);
      if head == 0 {
        head := array_.Length;
      }
      added := false;
      head := head - 1;
      o := array_[head];
    }

    method Push(o: T)
      requires Valid()
      modifies this, array_
      ensures Valid() && Contents() == old(Contents()) + [o]
      ensures array_ == old(array_) || fresh(array_)
      ensures array_ != old(array_) <==> |old(Contents())| == old(array_.Length)
    {
      RingFull(array_[..], tail, head, added);
      if head == tail && added {
        Resize();
      } else if head == array_.Length {
        if tail == 0 {
          Resize();
        } else {
          head := 0;
        }
      }
      added := true;
      array_[head] := o;
      head := head + 1;
    }

    method Reset()
      requires Valid()
      modifies this
      ensures Valid() && Contents() == [] && array_ == old(array_)
    {
      head, tail, added := 0, 0, false;
    }
  }

  // ------------------------------------------------------------------
  // First in, first out
  // ------------------------------------------------------------------

  datatype Op<T> = Enq(x: T) | Deq

  // A run of enq and deq on a queue that is not empty when something is taken; None otherwise.
  datatype Run<T> = Run(contents: seq<T>, taken: seq<T>)

  function After<T>(q: seq<T>, ops: seq<Op<T>>): Option<Run<T>>
    decreases |ops|
  {
    if ops == [] then Some(Run(q, []))
    else
      var r := After(q, ops[..|ops| - 1]);
      if r.None? then None
      else
        match ops[|ops| - 1]
        case Enq(x) => Some(Run([x] + r.value.contents, r.value.taken))
        case Deq =>
          var c := r.value.contents;
          if c == [] then None else Some(Run(c[..|c| - 1], r.value.taken + [c[|c| - 1]]))
  }

  function Enqueued<T>(ops: seq<Op<T>>): seq<T> {
    if ops == [] then []
    else Enqueued(ops[..|ops| - 1]) + match ops[|ops| - 1] case Enq(x) => [x] case Deq => []
  }

  function Reversed<T>(s: seq<T>): seq<T> {
    if s == [] then [] else Reversed(s[1..]) + [s[0]]
  }

  lemma {:induction false} ReversedLast<T>(s: seq<T>)
    requires s != []
    ensures Reversed(s) == [s[|s| - 1]] + Reversed(s[..|s| - 1])
    decreases |s|
  {
    if |s| > 1 {
      ReversedLast(s[1..]);
      assert s[1..][..|s| - 2] == s[..|s| - 1][1..];
    }
  }

  // What was taken, followed by what is left, is what was there followed by what was enqueued.
  lemma {:induction false} FirstInFirstOut<T>(q: seq<T>, ops: seq<Op<T>>)
    requires After(q, ops).Some?
    ensures var r := After(q, ops).value;
            r.taken + Reversed(r.contents) == Reversed(q) + Enqueued(ops)
    decreases |ops|
  {
    if ops != [] {
      FirstInFirstOut(q, ops[..|ops| - 1]);
      var c := After(q, ops[..|ops| - 1]).value.contents;
      match ops[|ops| - 1]
      case Enq(x) =>
        assert ([x] + c)[1..] == c;
        var taken := After(q, ops[..|ops| - 1]).value.taken;
        assert taken + Reversed([x] + c) == taken + Reversed(c) + [x];
      case Deq =>
        ReversedLast(c);
        var taken := After(q, ops[..|ops| - 1]).value.taken;
        assert taken + Reversed(c) == taken + [c[|c| - 1]] + Reversed(c[..|c| - 1]);
        assert Enqueued(ops) == Enqueued(ops[..|ops| - 1]) + [];
    }
  }

  lemma AfterPrefix<T>(q: seq<T>, ops: seq<Op<T>>, i: nat)
    requires After(q, ops).Some? && i <= |ops|
    ensures After(q, ops[..i]).Some?
    decreases |ops|
  {
    if i == |ops| {
      assert ops[..i] == ops;
    } else {
      AfterPrefix(q, ops[..|ops| - 1], i);
      assert ops[..|ops| - 1][..i] == ops[..i];
    }
  }

  // The ring buffer is a queue: over any run that never takes from it when it is empty, elements
  // leave in the order in which they came.
  method Perform<T(0)>(q: ObQue<T>, ops: seq<Op<T>>) returns (taken: seq<T>)
    requires q.Valid() && After(q.Contents(), ops).Some?
    modifies q, q.array_
    ensures q.Valid() && After(old(q.Contents()), ops) == Some(Run(q.Contents(), taken))
    ensures taken + Reversed(q.Contents()) == Reversed(old(q.Contents())) + Enqueued(ops)
  {
    taken := [];
    for i := 0 to |ops|
      invariant q.Valid() && (q.array_ == old(q.array_) || fresh(q.array_))
      invariant After(old(q.Contents()), ops[..i]) == Some(Run(q.Contents(), taken))
    {
      AfterPrefix(old(q.Contents()), ops, i + 1);
      assert ops[..i + 1][..i] == ops[..i];
      match ops[i]
      case Enq(x) => q.Enq(x);
      case Deq =>
        var o := q.Deq();
        taken := taken + [o];
    }
    assert ops[..|ops|] == ops;
    FirstInFirstOut(old(q.Contents()), ops);
  }
}
