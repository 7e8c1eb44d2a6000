/**
 Tuple expressions and the primitives on them (rosette/src/Expr.cc:416-543 and 653-837).

 A tuple expression holds its elements and, as `rest`, what follows them.  NILexpr is the
 empty one; its rest is NILexpr itself (rosette/src/BigBang.cc:314-315).  The constructor relies on
 rests that are "normalized": NILexpr or not a tuple expression.
 */
module TupleExprs {
  import opened Wrappers

  datatype Ob = Tx(t: TupleExpr) | Other(id: int)

  // What a tuple expression puts into a tuple: an element, or all that its rest has.
  datatype Piece = Elem(o: Ob) | All(r: Ob)

  // What the slots of a new object hold until they are filled.
  const INVALID := Other(-1)

  class TupleExpr {
    var elems: seq<Ob>
    var rest: Ob

    constructor (n: nat, r: Ob)
      ensures elems == seq(n, _ => INVALID) && rest == r
    {
      elems := seq(n, _ => INVALID);
      rest := r;
    }

    // memcpy into the slots from `at` on
    method Copy(at: nat, src: seq<Ob>)
      requires at + |src| <= |elems|
      modifies this`elems
      ensures elems == old(elems)[..at] + src + old(elems)[at + |src|..]
    {
      elems := elems[..at] + src + elems[at + |src|..];
    }
  }

  class Exprs {
    const nil: TupleExpr

    ghost predicate Valid()
      reads nil
    {
      nil.elems == [] && nil.rest == Tx(nil)
    }

    // The rest is NILexpr or no tuple expression, and only NILexpr has neither elements nor a rest.
    ghost predicate Normal(x: TupleExpr)
      reads x
    {
      && (x.rest.Tx? ==> x.rest.t == nil)
      && (x.elems == [] && x.rest == Tx(nil) ==> x == nil)
    }

    ghost predicate NormalOb(o: Ob)
      reads if o.Tx? then {o.t} else {}
    {
      o.Tx? ==> Normal(o.t)
    }

    // What an object stands for behind other elements: more elements, and what follows them.
    ghost function Elems(o: Ob): seq<Ob>
      reads if o.Tx? then {o.t} else {}
    {
      if o.Tx? then o.t.elems else []
    }

    ghost function Rest(o: Ob): Ob
      reads if o.Tx? then {o.t} else {}
    {
      if o.Tx? then o.t.rest else o
    }

    ghost function Pieces(elems: seq<Ob>, rest: Ob): seq<Piece> {
      seq(|elems|, i requires 0 <= i < |elems| => Elem(elems[i])) + if rest == Tx(nil) then [] else [All(rest)]
    }

    // The pieces of two expressions follow one another in an expression with both lists of elements
    // and the second rest exactly if the first has no rest.
    lemma PiecesJoin(e1: seq<Ob>, r1: Ob, e2: seq<Ob>, r2: Ob)
      ensures Pieces(e1 + e2, r2) == Pieces(e1, r1) + Pieces(e2, r2) <==> r1 == Tx(nil)
    {
      if r1 == Tx(nil) {
        assert Pieces(e1 + e2, r2) == Pieces(e1, r1) + Pieces(e2, r2);
      } else {
        assert |Pieces(e1 + e2, r2)| < |Pieces(e1, r1) + Pieces(e2, r2)|;
      }
    }

    constructor ()
      ensures Valid() && Normal(nil) && fresh(nil)
    {
      var n := new TupleExpr(0, INVALID);
      nil := n;
      new;
      nil.rest := Tx(nil);
    }

    // create(int, Ob*)
    method Blank(n: nat, r: Ob) returns (x: TupleExpr)
      requires Valid() && NormalOb(r)
      ensures Normal(x) && (x == nil || fresh(x)) && (x == nil <==> n == 0 && r == Tx(nil))
      ensures x.elems == seq(n, _ => INVALID) + Elems(r) && x.rest == Rest(r)
    {
      if n == 0 && r == Tx(nil) {
        x := nil;
      } else if r.Other? || r.t == nil {
        x := new TupleExpr(n, r);
      } else {
        var m := |r.t.elems|;
        x := new TupleExpr(n + m, r.t.rest);
        x.Copy(n, r.t.elems);
      }
    }

    // create(Ob**, int, Ob*)
    method Create(p: seq<Ob>, r: Ob) returns (x: TupleExpr)
      requires Valid() && NormalOb(r)
      ensures Normal(x) && (x == nil || fresh(x))
      ensures x.elems == p + Elems(r) && x.rest == Rest(r)
    {
      if p == [] && r == Tx(nil) {
        x := nil;
      } else if r.Other? || r.t == nil {
        x := new TupleExpr(|p|, r);
        x.Copy(0, p);
      } else {
        x := new TupleExpr(|p| + |r.t.elems|, r.t.rest);
        x.Copy(0, p);
        x.Copy(|p|, r.t.elems);
      }
    }

    method Cons(self: TupleExpr, val: Ob) returns (x: TupleExpr)
      requires Valid() && Normal(self)
      ensures Normal(x) && fresh(x) && x.elems == [val] + self.elems && x.rest == self.rest
    {
      x := Blank(|self.elems| + 1, self.rest);
      x.Copy(0, [val]);
      x.Copy(1, self.elems);
    }

    method MakeSlice(self: TupleExpr, start: nat, span: nat) returns (x: TupleExpr)
      requires Valid() && start + span <= |self.elems|
      ensures Normal(x) && (x == nil <==> span == 0) && (x == nil || fresh(x))
      ensures x.elems == self.elems[start..start + span] && x.rest == Tx(nil)
    {
      if self == nil || span == 0 {
        return nil;
      }
      x := Blank(span, Tx(nil));
      x.Copy(0, self.elems[start..start + span]);
    }

    // tupleexpr-new
    method New(rest: Ob, subExprs: seq<Ob>) returns (x: TupleExpr)
      requires Valid() && NormalOb(rest)
      ensures Normal(x) && (x == nil || fresh(x)) && x.elems == subExprs + Elems(rest) && x.rest == Rest(rest)
    {
      if subExprs == [] && rest == Tx(nil) {
        return nil;
      }
      x := Blank(|subExprs|, rest);
      x.Copy(0, subExprs);
    }

    // tupleexpr-split: the first n elements, then a tuple expression with the others; or an error.
    // Only for NILexpr is a negative n checked.
    method Split(expr: TupleExpr, n: int) returns (r: Option<seq<Ob>>)
      requires Valid() && Normal(expr) && (expr == nil || n >= 0)
      ensures r.Some? <==> 0 <= n <= |expr.elems|
      ensures r.Some? ==>
                && |r.value| == n + 1 && r.value[..n] == expr.elems[..n] && r.value[n].Tx?
                && Normal(r.value[n].t) && r.value[n].t.elems == expr.elems[n..] && r.value[n].t.rest == expr.rest
    {
      if expr == nil {
        return if n == 0 then Some([Tx(nil)]) else None;
      }
      var s := |expr.elems|;
      if n > s {
        return None;
      }
      var t: TupleExpr;
      if s == n {
        if expr.rest == Tx(nil) {
          t := nil;
        } else {
          t := Blank(0, expr.rest);
        }
      } else {
        t := MakeSlice(expr, n, s - n);
        t.rest := expr.rest;
      }
      r := Some(expr.elems[..n] + [Tx(t)]);
    }

    // tupleexpr-tail
    method Tail(expr: TupleExpr) returns (x: TupleExpr)
      requires Valid() && Normal(expr)
      ensures Normal(x) && (x == nil || fresh(x))
      ensures x.elems == (if expr.elems == [] then [] else expr.elems[1..]) && x.rest == expr.rest
    {
      if expr == nil {
        return nil;
      }
      var n := |expr.elems|;
      if n > 1 {
        x := MakeSlice(expr, 1, n - 1);
        x.rest := expr.rest;
      } else if expr.rest == Tx(nil) {
        x := nil;
      } else {
        x := Blank(0, expr.rest);
      }
    }

    // tupleexpr-concat.  The assignments may hit NILexpr, and then leave it as it is.  A rest of the
    // first expression is dropped, so that the result stands for the two exactly if there is none.
    method Concat(x1: TupleExpr, x2: TupleExpr) returns (ans: TupleExpr)
      requires Valid() && Normal(x1) && Normal(x2)
      modifies nil
      ensures Valid() && Normal(ans) && (ans == nil || fresh(ans))
      ensures ans.elems == old(x1.elems + x2.elems) && ans.rest == old(x2.rest)
      ensures Pieces(ans.elems, ans.rest) == old(Pieces(x1.elems, x1.rest) + Pieces(x2.elems, x2.rest))
              <==> old(x1.rest) == Tx(nil)
    {
      PiecesJoin(x1.elems, x1.rest, x2.elems, x2.rest);
      var n1, n2 := |x1.elems|, |x2.elems|;
      ans := Blank(n1 + n2, x2.rest);
      assert ans == nil ==> x1.elems == [] && x2.elems == [] && x2.rest == Tx(nil);
      assert ans != nil ==> ans != x1 && ans != x2 && |ans.elems| == n1 + n2;
      ans.Copy(0, x1.elems);
      ans.Copy(n1, x2.elems);
      ans.rest := x2.rest;
    }

    // [& 7] and [] become [].
    method RestLost() returns (x1: TupleExpr, ans: TupleExpr)
      requires Valid() && Normal(nil)
      modifies nil
      ensures fresh(x1) && x1.elems == [] && x1.rest == Other(7) && ans.elems == [] && ans.rest == Tx(nil)
      ensures Pieces(x1.elems, x1.rest) == [All(Other(7))] && Pieces(ans.elems, ans.rest) == []
    {
      x1 := new TupleExpr(0, Other(7));
      ans := Concat(x1, nil);
    }

    // Splitting and putting the parts together again.
    method SplitJoin(expr: TupleExpr, n: nat) returns (x: TupleExpr)
      requires Valid() && Normal(expr) && n <= |expr.elems|
      ensures Normal(x) && x.elems == expr.elems && x.rest == expr.rest && (x == nil <==> expr == nil)
    {
      var parts := Split(expr, n);
      x := Create(parts.value[..n], parts.value[n]);
      assert expr.elems[..n] + expr.elems[n..] == expr.elems;
    }
  }
}
