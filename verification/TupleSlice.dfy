/**
 Oversized tuple expressions (rosette/src/Compile.cc:2573-2645, rosette/src/Expr.cc:534-543).
 */
module TupleSlice {
  import opened Wrappers

  /*
   A tuple expression that does not fit into an argument vector is compiled as a concatenation of
   slices, which are tuple expressions themselves.  The bound for slicing on one level only is
   written with the macro of rosette/h/Location.h:37, which lacks parentheses: it comes to 2, so the
   slicing is always the recursive one.  That one stores a tail one place behind the vector
   of slices; the model reports this store as `None`.
   */

  const MAX_ARGS: nat := 255

  // MaxArgs * (MaxArgs - 1) as the preprocessor leaves it
  const ONE_LEVEL_BOUND: int := 256 - 1 * (256 - 1 - 1)

  datatype Expr = Fixed(v: int) | Computed(id: int)

  datatype TupleExpr = TupleExpr(elems: seq<Expr>, rest: Option<Expr>)

  predicate Constant(t: TupleExpr) {
    && (t.rest.Some? ==> t.rest.value.Fixed?)
    && forall i :: 0 <= i < |t.elems| ==> t.elems[i].Fixed?
  }

  // A literal with its values, a tuple built in the argument vector, or a request to a primitive.
  datatype Node =
    | ConstNode(vs: seq<int>, last: Option<int>)
    | TupleNode(elems: seq<Expr>)
    | ConsStar(elems: seq<Expr>, rest: Expr)
    | Concat(parts: seq<Node>)
    | TailNode(rest: Expr)

  // ------------------------------------------------------------------
  // Slices
  // ------------------------------------------------------------------

  // The number of slices: one less if a tail follows them.
  predicate SliceCount(k: nat) {
    k == MAX_ARGS || k == MAX_ARGS - 1
  }

  function Size(n: nat, k: nat): nat
    requires SliceCount(k)
  {
    n / k
  }

  // Where slice i ends; the first one takes the excess.
  function End(n: nat, k: nat, i: nat): nat
    requires SliceCount(k)
  {
    if i == 0 then Size(n, k) + n % k else End(n, k, i - 1) + Size(n, k)
  }

  function Times(k: nat, size: nat): nat {
    if k == 0 then 0 else Times(k - 1, size) + size
  }

  lemma {:induction false} TimesIs(k: nat, size: nat)
    ensures Times(k, size) == k * size
  {
    if k > 0 {
      TimesIs(k - 1, size);
    }
  }

  lemma {:induction false} EndAt(n: nat, k: nat, i: nat)
    requires SliceCount(k) && i < k
    ensures End(n, k, i) + Times(k - 1 - i, Size(n, k)) == n
    decreases i
  {
    if i == 0 {
      TimesIs(k - 1, Size(n, k));
      if k == MAX_ARGS {
        assert n == MAX_ARGS * (n / MAX_ARGS) + n % MAX_ARGS;
      } else {
        assert n == (MAX_ARGS - 1) * (n / (MAX_ARGS - 1)) + n % (MAX_ARGS - 1);
      }
    } else {
      EndAt(n, k, i - 1);
    }
  }

  lemma Ends(n: nat, k: nat, i: nat)
    requires SliceCount(k) && k < n && i < k
    ensures Size(n, k) > 0 && 0 < End(n, k, i) <= n
    ensures i == k - 1 ==> End(n, k, i) == n
    ensures i < k - 1 ==> End(n, k, i) < n && End(n, k, i + 1) == End(n, k, i) + Size(n, k) <= n
  {
    EndAt(n, k, i);
    if i < k - 1 {
      EndAt(n, k, i + 1);
    }
  }

  function Slice(elems: seq<Expr>, k: nat, i: nat): (s: seq<Expr>)
    requires SliceCount(k) && k < |elems| && i < k
    ensures 0 < |s| < |elems|
  {
    Ends(|elems|, k, i);
    if i == 0 then elems[..End(|elems|, k, 0)]
    else
      Ends(|elems|, k, i - 1);
      elems[End(|elems|, k, i - 1)..End(|elems|, k, i)]
  }

  // The first i of k slices.
  function Slices(elems: seq<Expr>, k: nat, i: nat): (parts: seq<seq<Expr>>)
    requires SliceCount(k) && k < |elems| && i <= k
    ensures |parts| == i && forall j :: 0 <= j < i ==> parts[j] == Slice(elems, k, j)
  {
    if i == 0 then [] else Slices(elems, k, i - 1) + [Slice(elems, k, i - 1)]
  }

  function Joined(parts: seq<seq<Expr>>): seq<Expr> {
    if parts == [] then [] else Joined(parts[..|parts| - 1]) + parts[|parts| - 1]
  }

  lemma JoinedSnoc(parts: seq<seq<Expr>>, s: seq<Expr>)
    ensures Joined(parts + [s]) == Joined(parts) + s
  {
    assert (parts + [s])[..|parts|] == parts;
  }

  lemma SliceExtends(elems: seq<Expr>, k: nat, i: nat)
    requires SliceCount(k) && k < |elems| && 0 < i < k
    ensures End(|elems|, k, i - 1) <= |elems| && End(|elems|, k, i) <= |elems|
    ensures elems[..End(|elems|, k, i - 1)] + Slice(elems, k, i) == elems[..End(|elems|, k, i)]
  {
    Ends(|elems|, k, i - 1);
    Ends(|elems|, k, i);
    hide End, Size;
  }

  // The slices put together are the elements, none lost, none repeated, in order.
  lemma {:induction false} SlicesJoin(elems: seq<Expr>, k: nat, i: nat)
    requires SliceCount(k) && k < |elems| && 0 < i <= k
    ensures End(|elems|, k, i - 1) <= |elems|
    ensures Joined(Slices(elems, k, i)) == elems[..End(|elems|, k, i - 1)]
    decreases i
  {
    assert Slices(elems, k, i) == Slices(elems, k, i - 1) + [Slice(elems, k, i - 1)];
    if i == 1 {
      assert Slices(elems, k, 0) == [];
      assert Slice(elems, k, 0) == elems[..End(|elems|, k, 0)];
    } else {
      SlicesJoin(elems, k, i - 1);
      SliceExtends(elems, k, i - 1);
    }
    hide End, Slice, Slices;
    JoinedSnoc(Slices(elems, k, i - 1), Slice(elems, k, i - 1));
  }

  lemma AllSlicesJoin(elems: seq<Expr>, k: nat)
    requires SliceCount(k) && k < |elems|
    ensures Joined(Slices(elems, k, k)) == elems
  {
    hide Slices, Joined;
    SlicesJoin(elems, k, k);
    Ends(|elems|, k, k - 1);
    assert elems[..|elems|] == elems;
  }

  // The loop that cuts the slices.
  method MakeSlices(elems: seq<Expr>, k: nat) returns (parts: seq<seq<Expr>>)
    requires SliceCount(k) && k < |elems|
    ensures parts == Slices(elems, k, k) && Joined(parts) == elems
  {
    var sliceSize, excessSize := |elems| / k, |elems| % k;
    Ends(|elems|, k, 0);
    assert sliceSize == Size(|elems|, k) && sliceSize + excessSize == End(|elems|, k, 0);
    assert Slices(elems, k, 1) == Slices(elems, k, 0) + [Slice(elems, k, 0)];
    hide Size, End;
    parts := [elems[..sliceSize + excessSize]];
    var offset := sliceSize + excessSize;
    for i := 1 to k
      invariant offset == End(|elems|, k, i - 1) <= |elems|
      invariant parts == Slices(elems, k, i)
    {
      Ends(|elems|, k, i - 1);
      Ends(|elems|, k, i);
      parts := parts + [elems[offset..offset + sliceSize]];
      offset := offset + sliceSize;
    }
    AllSlicesJoin(elems, k);
  }

  // ------------------------------------------------------------------
  // Nodes
  // ------------------------------------------------------------------

  // unquote: what stands there, be it a value or not.
  function Unquote(e: Expr): int {
    match e case Fixed(v) => v case Computed(id) => id
  }

  function Unquoted(t: TupleExpr): Node {
    ConstNode(seq(|t.elems|, i requires 0 <= i < |t.elems| => Unquote(t.elems[i])),
              if t.rest.None? then None else Some(Unquote(t.rest.value)))
  }

  // TupleExpr::makeAttrNode
  function NodeFor(t: TupleExpr): Option<Node>
    decreases |t.elems|
  {
    var tail := if t.rest.Some? then 1 else 0;
    if Constant(t) then Some(Unquoted(t))
    else if |t.elems| + tail <= MAX_ARGS then
      if t.rest.None? then Some(TupleNode(t.elems)) else Some(ConsStar(t.elems, t.rest.value))
    else
      assert |t.elems| >= ONE_LEVEL_BOUND;
      if t.rest.Some? then None
      else
        var parts := NodesFor(t.elems, MAX_ARGS);
        if parts.None? then None else Some(Concat(parts.value))
  }

  function NodesFor(elems: seq<Expr>, i: nat): (r: Option<seq<Node>>)
    requires MAX_ARGS < |elems| && i <= MAX_ARGS
    ensures r.Some? ==> |r.value| == i
    decreases |elems|, i
  {
    if i == 0 then Some([])
    else
      var before := NodesFor(elems, i - 1);
      var last := NodeFor(TupleExpr(Slice(elems, MAX_ARGS, i - 1), None));
      if before.None? || last.None? then None else Some(before.value + [last.value])
  }

  // What a node evaluates to: elements, and a tail whose elements follow.
  datatype Piece = Elem(e: Expr) | Rest(e: Expr)

  function Elems(es: seq<Expr>): (ps: seq<Piece>)
    ensures |ps| == |es| && forall i :: 0 <= i < |es| ==> ps[i] == Elem(es[i])
  {
    if es == [] then [] else Elems(es[..|es| - 1]) + [Elem(es[|es| - 1])]
  }

  function Pieces(t: TupleExpr): seq<Piece> {
    Elems(t.elems) + if t.rest.Some? then [Rest(t.rest.value)] else []
  }

  function Quoted(vs: seq<int>, last: Option<int>): TupleExpr {
    TupleExpr(seq(|vs|, i requires 0 <= i < |vs| => Fixed(vs[i])), if last.None? then None else Some(Fixed(last.value)))
  }

  // A literal stands for the expression exactly if that has no computed parts.
  lemma UnquotedMeans(t: TupleExpr)
    ensures Meaning(Unquoted(t)) == Pieces(t) <==> Constant(t)
  {
    var n := Unquoted(t);
    var q := Quoted(n.vs, n.last);
    if Constant(t) {
      assert q.elems == t.elems;
    } else if t.rest.Some? && !t.rest.value.Fixed? {
      assert Pieces(t)[|t.elems|] == Rest(t.rest.value) && Pieces(q)[|t.elems|] == Rest(q.rest.value);
    } else {
      var i :| 0 <= i < |t.elems| && !t.elems[i].Fixed?;
      assert Pieces(t)[i] == Elem(t.elems[i]) && Pieces(q)[i] == Elem(q.elems[i]);
    }
  }

  function Meaning(n: Node): seq<Piece> {
    match n
    case ConstNode(vs, last) => Pieces(Quoted(vs, last))
    case TupleNode(elems) => Elems(elems)
    case ConsStar(elems, rest) => Elems(elems) + [Rest(rest)]
    case Concat(parts) => Meanings(parts)
    case TailNode(rest) => [Rest(rest)]
  }

  function Meanings(ns: seq<Node>): seq<Piece> {
    if ns == [] then [] else Meanings(ns[..|ns| - 1]) + Meaning(ns[|ns| - 1])
  }

  // No request or tuple needs an argument vector of more than 255 places.
  predicate Narrow(n: Node) {
    match n
    case ConstNode(_, _) => true
    case TupleNode(elems) => |elems| <= MAX_ARGS
    case ConsStar(elems, _) => |elems| + 1 <= MAX_ARGS
    case Concat(parts) => |parts| <= MAX_ARGS && AllNarrow(parts)
    case TailNode(_) => true
  }

  predicate AllNarrow(ns: seq<Node>) {
    ns == [] || (AllNarrow(ns[..|ns| - 1]) && Narrow(ns[|ns| - 1]))
  }

  lemma ElemsJoin(a: seq<Expr>, b: seq<Expr>)
    ensures Elems(a + b) == Elems(a) + Elems(b)
  {
  }

  lemma UnquotedNarrow(t: TupleExpr)
    ensures Narrow(Unquoted(t))
  {
  }

  lemma PlainPieces(t: TupleExpr)
    ensures Pieces(t) == if t.rest.None? then Elems(t.elems) else Elems(t.elems) + [Rest(t.rest.value)]
  {
    hide Elems;
  }

  // Slicing never loses, repeats or reorders an element, and the vectors are narrow enough.
  lemma {:induction false} NodeMeans(t: TupleExpr)
    ensures NodeFor(t).Some? ==> Meaning(NodeFor(t).value) == Pieces(t) && Narrow(NodeFor(t).value)
    decreases |t.elems|
  {
    hide *;
    if Constant(t) || |t.elems| + Tail(t) <= MAX_ARGS {
      NodeSmall(t);
    } else if t.rest.None? {
      TailIs(t);
      NodesMean(t.elems, MAX_ARGS);
      NodeLarge(t);
      AllSlicesJoin(t.elems, MAX_ARGS);
      PlainPieces(t);
      ConcatMeans(NodesFor(t.elems, MAX_ARGS).value);
    } else {
      NodeLost(t);
    }
  }

  lemma TailIs(t: TupleExpr)
    ensures Tail(t) == (if t.rest.Some? then 1 else 0) && SliceCount(MAX_ARGS)
  {
  }

  lemma NodeSmall(t: TupleExpr)
    requires Constant(t) || |t.elems| + Tail(t) <= MAX_ARGS
    ensures NodeFor(t).Some? && Meaning(NodeFor(t).value) == Pieces(t) && Narrow(NodeFor(t).value)
  {
    hide NodesFor, Elems, Constant, Unquoted, Pieces;
    PlainPieces(t);
    if Constant(t) {
      hide Meaning;
      UnquotedMeans(t);
      UnquotedNarrow(t);
    }
  }

  lemma NodeLarge(t: TupleExpr)
    requires !Constant(t) && |t.elems| > MAX_ARGS && t.rest.None? && NodesFor(t.elems, MAX_ARGS).Some?
    ensures NodeFor(t) == Some(Concat(NodesFor(t.elems, MAX_ARGS).value))
  {
    hide NodesFor, Constant, Unquoted;
  }

  lemma NodeLost(t: TupleExpr)
    requires !Constant(t) && |t.elems| + Tail(t) > MAX_ARGS && t.rest.Some?
    ensures NodeFor(t).None?
  {
    hide NodesFor, Constant, Unquoted;
  }

  lemma ConcatMeans(parts: seq<Node>)
    ensures Meaning(Concat(parts)) == Meanings(parts)
    ensures Narrow(Concat(parts)) <==> |parts| <= MAX_ARGS && AllNarrow(parts)
  {
    hide Meanings, AllNarrow;
  }

  lemma {:induction false} NodesMean(elems: seq<Expr>, i: nat)
    requires MAX_ARGS < |elems| && i <= MAX_ARGS
    ensures NodesFor(elems, i).Some?
    ensures Meanings(NodesFor(elems, i).value) == Elems(Joined(Slices(elems, MAX_ARGS, i)))
    ensures AllNarrow(NodesFor(elems, i).value)
    decreases |elems|, i
  {
    hide NodesFor, NodeFor, Slices, Slice, Joined, Meanings, Meaning, AllNarrow, Narrow, Elems, Pieces;
    if i == 0 {
      NodesNone(elems);
    } else {
      NodesMean(elems, i - 1);
      var s := Slice(elems, MAX_ARGS, i - 1);
      NodeMeans(TupleExpr(s, None));
      NodesStep(elems, i);
      var before, last := NodesFor(elems, i - 1).value, NodeFor(TupleExpr(s, None)).value;
      JoinedSnoc(Slices(elems, MAX_ARGS, i - 1), s);
      ElemsJoin(Joined(Slices(elems, MAX_ARGS, i - 1)), s);
      MeaningsSnoc(before, last);
    }
  }

  lemma NodesNone(elems: seq<Expr>)
    requires MAX_ARGS < |elems|
    ensures NodesFor(elems, 0) == Some([]) && AllNarrow([])
    ensures Meanings([]) == Elems(Joined(Slices(elems, MAX_ARGS, 0)))
  {
  }

  lemma NodesStep(elems: seq<Expr>, i: nat)
    requires MAX_ARGS < |elems| && 0 < i <= MAX_ARGS && NodesFor(elems, i - 1).Some?
    ensures NodeFor(TupleExpr(Slice(elems, MAX_ARGS, i - 1), None)).Some?
    ensures NodesFor(elems, i) ==
            Some(NodesFor(elems, i - 1).value + [NodeFor(TupleExpr(Slice(elems, MAX_ARGS, i - 1), None)).value])
    ensures Slices(elems, MAX_ARGS, i) == Slices(elems, MAX_ARGS, i - 1) + [Slice(elems, MAX_ARGS, i - 1)]
    ensures Pieces(TupleExpr(Slice(elems, MAX_ARGS, i - 1), None)) == Elems(Slice(elems, MAX_ARGS, i - 1))
  {
    NodeExists(TupleExpr(Slice(elems, MAX_ARGS, i - 1), None));
    hide NodeFor, Slice;
  }

  lemma MeaningsSnoc(ns: seq<Node>, n: Node)
    ensures Meanings(ns + [n]) == Meanings(ns) + Meaning(n)
    ensures AllNarrow(ns + [n]) <==> AllNarrow(ns) && Narrow(n)
  {
    assert (ns + [n])[..|ns|] == ns;
  }

  // All stores are within bounds exactly if the expression is constant, has no tail, or fits.
  lemma {:induction false} NodeExists(t: TupleExpr)
    ensures NodeFor(t).Some? <==> Constant(t) || t.rest.None? || |t.elems| < MAX_ARGS
    decreases |t.elems|
  {
    if !Constant(t) && |t.elems| > MAX_ARGS && t.rest.None? {
      NodesExist(t.elems, MAX_ARGS);
    }
  }

  lemma {:induction false} NodesExist(elems: seq<Expr>, i: nat)
    requires MAX_ARGS < |elems| && i <= MAX_ARGS
    ensures NodesFor(elems, i).Some?
    decreases |elems|, i
  {
    if i > 0 {
      NodesExist(elems, i - 1);
      NodeExists(TupleExpr(Slice(elems, MAX_ARGS, i - 1), None));
    }
  }

  // ------------------------------------------------------------------
  // What is meant
  // ------------------------------------------------------------------

  // The bound that the unparenthesised macro misses.
  const MEANT_BOUND: nat := MAX_ARGS * (MAX_ARGS - 1)

  function Tail(t: TupleExpr): nat {
    if t.rest.Some? then 1 else 0
  }

  // The first m slices of full length.
  function Full(elems: seq<Expr>, m: nat): (parts: seq<seq<Expr>>)
    requires MAX_ARGS * m <= |elems|
    ensures |parts| == m && forall j :: 0 <= j < m ==> |parts[j]| == MAX_ARGS
  {
    if m == 0 then [] else Full(elems, m - 1) + [elems[MAX_ARGS * (m - 1)..MAX_ARGS * m]]
  }

  lemma {:induction false} FullJoin(elems: seq<Expr>, m: nat)
    requires MAX_ARGS * m <= |elems|
    ensures Joined(Full(elems, m)) == elems[..MAX_ARGS * m]
    decreases m
  {
    if m > 0 {
      FullJoin(elems, m - 1);
      JoinedSnoc(Full(elems, m - 1), elems[MAX_ARGS * (m - 1)..MAX_ARGS * m]);
    }
  }

  // Full slices, and one more if something is left.
  function OneLevel(elems: seq<Expr>): seq<seq<Expr>> {
    var m := |elems| / MAX_ARGS;
    Full(elems, m) + if MAX_ARGS * m < |elems| then [elems[MAX_ARGS * m..]] else []
  }

  lemma OneLevelJoin(elems: seq<Expr>)
    ensures Joined(OneLevel(elems)) == elems
  {
    var m := |elems| / MAX_ARGS;
    FullJoin(elems, m);
    if MAX_ARGS * m < |elems| {
      JoinedSnoc(Full(elems, m), elems[MAX_ARGS * m..]);
      assert elems[..MAX_ARGS * m] + elems[MAX_ARGS * m..] == elems;
    } else {
      assert OneLevel(elems) == Full(elems, m);
    }
  }

  // The loop of the one-level branch, with the bounds that are meant.
  method MakeOneLevel(elems: seq<Expr>) returns (parts: seq<seq<Expr>>)
    ensures parts == OneLevel(elems) && Joined(parts) == elems
  {
    var nslices, nrest := |elems| / MAX_ARGS, |elems| % MAX_ARGS;
    parts := [];
    for i := 0 to nslices
      invariant parts == Full(elems, i)
    {
      parts := parts + [elems[i * MAX_ARGS..(i + 1) * MAX_ARGS]];
    }
    if nrest != 0 {
      parts := parts + [elems[|elems| - nrest..]];
    }
    OneLevelJoin(elems);
  }

  // How an expression that does not fit is cut.
  function Cuts(t: TupleExpr): seq<seq<Expr>>
    requires |t.elems| + Tail(t) > MAX_ARGS
  {
    if |t.elems| < MEANT_BOUND then OneLevel(t.elems)
    else Slices(t.elems, MAX_ARGS - Tail(t), MAX_ARGS - Tail(t))
  }

  // Nothing is lost, every slice is smaller than the expression, and the tail finds its place.
  lemma CutsFit(t: TupleExpr)
    requires |t.elems| + Tail(t) > MAX_ARGS
    ensures Joined(Cuts(t)) == t.elems && |Cuts(t)| + Tail(t) <= MAX_ARGS
    ensures forall j :: 0 <= j < |Cuts(t)| ==> |Cuts(t)[j]| < |t.elems| + Tail(t)
  {
    hide Joined;
    if |t.elems| < MEANT_BOUND {
      OneLevelJoin(t.elems);
      assert |t.elems| / MAX_ARGS <= MAX_ARGS - 2;
    } else {
      AllSlicesJoin(t.elems, MAX_ARGS - Tail(t));
    }
  }

  // makeAttrNode with the bound as it is meant and a vector that has room for the tail.
  function MeantNode(t: TupleExpr): Node
    decreases |t.elems| + Tail(t), MAX_ARGS + 1
  {
    if Constant(t) then Unquoted(t)
    else if |t.elems| + Tail(t) <= MAX_ARGS then
      if t.rest.None? then TupleNode(t.elems) else ConsStar(t.elems, t.rest.value)
    else
      CutsFit(t);
      var parts := MeantNodes(Cuts(t), |t.elems| + Tail(t));
      Concat(if t.rest.None? then parts else parts + [TailNode(t.rest.value)])
  }

  function MeantNodes(parts: seq<seq<Expr>>, bound: nat): (ns: seq<Node>)
    requires forall j :: 0 <= j < |parts| ==> |parts[j]| < bound
    requires |parts| <= MAX_ARGS
    ensures |ns| == |parts|
    decreases bound, |parts|
  {
    if parts == [] then []
    else MeantNodes(parts[..|parts| - 1], bound) + [MeantNode(TupleExpr(parts[|parts| - 1], None))]
  }

  // Every expression, of any length and with or without a tail, is meant to compile to a node that
  // stands for its elements and its tail in order and that needs no more than 255 places anywhere.
  lemma {:induction false} MeantMeans(t: TupleExpr)
    ensures Meaning(MeantNode(t)) == Pieces(t) && Narrow(MeantNode(t))
    decreases |t.elems| + Tail(t), MAX_ARGS + 1
  {
    hide MeantNodes, MeantNode, Cuts, Joined, Meanings, AllNarrow, Elems, Pieces, Meaning, Narrow, Constant;
    if Constant(t) || |t.elems| + Tail(t) <= MAX_ARGS {
      MeantSmall(t);
    } else {
      CutsFit(t);
      MeantLarge(t);
      MeantParts(Cuts(t), |t.elems| + Tail(t));
      WithTail(t, MeantNodes(Cuts(t), |t.elems| + Tail(t)));
    }
  }

  lemma MeantSmall(t: TupleExpr)
    requires Constant(t) || |t.elems| + Tail(t) <= MAX_ARGS
    ensures Meaning(MeantNode(t)) == Pieces(t) && Narrow(MeantNode(t))
  {
    hide MeantNodes, Cuts, Elems, Constant, Unquoted, Pieces;
    PlainPieces(t);
    if Constant(t) {
      hide Meaning;
      UnquotedMeans(t);
      UnquotedNarrow(t);
    }
  }

  lemma MeantLarge(t: TupleExpr)
    requires !Constant(t) && |t.elems| + Tail(t) > MAX_ARGS && |Cuts(t)| <= MAX_ARGS
    requires forall j :: 0 <= j < |Cuts(t)| ==> |Cuts(t)[j]| < |t.elems| + Tail(t)
    ensures var parts := MeantNodes(Cuts(t), |t.elems| + Tail(t));
            MeantNode(t) == Concat(if t.rest.None? then parts else parts + [TailNode(t.rest.value)])
  {
    hide MeantNodes, Cuts, Constant;
  }

  lemma WithTail(t: TupleExpr, parts: seq<Node>)
    requires Meanings(parts) == Elems(t.elems) && AllNarrow(parts) && |parts| + Tail(t) <= MAX_ARGS
    ensures var n := Concat(if t.rest.None? then parts else parts + [TailNode(t.rest.value)]);
            Meaning(n) == Pieces(t) && Narrow(n)
  {
    hide *;
    TailIs(t);
    PlainPieces(t);
    ConcatMeans(parts);
    if t.rest.Some? {
      var last := TailNode(t.rest.value);
      MeaningsSnoc(parts, last);
      ConcatMeans(parts + [last]);
      assert Meaning(last) == [Rest(t.rest.value)] && Narrow(last) by {
        TailMeans(t.rest.value);
      }
    }
  }

  lemma TailMeans(e: Expr)
    ensures Meaning(TailNode(e)) == [Rest(e)] && Narrow(TailNode(e))
  {
  }

  lemma {:induction false} MeantParts(parts: seq<seq<Expr>>, bound: nat)
    requires forall j :: 0 <= j < |parts| ==> |parts[j]| < bound
    requires |parts| <= MAX_ARGS
    ensures Meanings(MeantNodes(parts, bound)) == Elems(Joined(parts)) && AllNarrow(MeantNodes(parts, bound))
    decreases bound, |parts|
  {
    if parts != [] {
      var front, last := parts[..|parts| - 1], parts[|parts| - 1];
      MeantParts(front, bound);
      MeantMeans(TupleExpr(last, None));
      assert Pieces(TupleExpr(last, None)) == Elems(last);
      ElemsJoin(Joined(front), last);
      hide MeantNode, Meaning, Narrow;
      MeaningsSnoc(MeantNodes(front, bound), MeantNode(TupleExpr(last, None)));
    }
  }
}
