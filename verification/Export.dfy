/**
 The object-graph exporter (rosette/src/Export.cc:49-134 and 799-839): a depth-first walk over
 a heap that may be cyclic, with a list of exported records, a set of finished objects and a
 stack of objects being populated.

 Objects are named by their object id, which is unique.  A handler writes the scalar data of
 an object and populates the object's fields one by one; the table of handlers is a parameter.
 */
module Export {
  type Ob = nat

  // A pointer to a heap object, or an atom, which has no identity.
  datatype Value = Ptr(o: Ob) | Atomic(ty: string, payload: int)

  // What a handler sees of a heap object, and the two pointers that every object has.
  datatype Node = Node(ty: string, data: string, fields: seq<Value>, meta: Value, parent: Value)

  datatype Graph = Graph(heap: map<Ob, Node>, handlers: map<string, nat>)

  // An exported field and an exported object.
  datatype Field =
    | Unset
    | Unknown
    | ByValue(ty: nat, payload: int)
    | Reference(ty: nat, o: Ob, looped: bool)

  datatype CodeBlock = CodeBlock(o: Ob, opcodes: seq<nat>, lits: seq<Field>)

  datatype Record = Record(ty: nat, o: Ob, data: string, fields: seq<Field>, meta: Field, parent: Field)

  predicate InHeap(g: Graph, v: Value) {
    v.Ptr? ==> v.o in g.heap
  }

  // No pointer dangles.
  predicate Closed(g: Graph) {
    forall o :: o in g.heap ==>
      && (forall i :: 0 <= i < |g.heap[o].fields| ==> InHeap(g, g.heap[o].fields[i]))
      && InHeap(g, g.heap[o].meta) && InHeap(g, g.heap[o].parent)
  }

  function TypeOf(g: Graph, v: Value): string
    requires InHeap(g, v)
  {
    if v.Ptr? then g.heap[v.o].ty else v.ty
  }

  predicate Handled(g: Graph, v: Value) {
    InHeap(g, v) && TypeOf(g, v) in g.handlers
  }

  function Listed(objects: seq<Record>): set<Ob> {
    set i | 0 <= i < |objects| :: objects[i].o
  }

  // Field f stands for value v: an atom by value, an object by a reference to a listed object.
  predicate Denotes(g: Graph, listed: set<Ob>, v: Value, f: Field) {
    if !Handled(g, v) then f == Unknown
    else if v.Atomic? then f == ByValue(g.handlers[v.ty], v.payload)
    else f.Reference? && f.ty == g.handlers[TypeOf(g, v)] && f.o == v.o && v.o in listed
  }

  // Record r is a full account of the object it names.
  predicate Complete(g: Graph, listed: set<Ob>, r: Record) {
    && r.o in g.heap && g.heap[r.o].ty in g.handlers
    && var n := g.heap[r.o];
    && r.ty == g.handlers[n.ty] && r.data == n.data && Fields(g, listed, n.fields, r.fields)
    && Denotes(g, listed, n.meta, r.meta) && Denotes(g, listed, n.parent, r.parent)
  }

  ghost predicate Distinct(objects: seq<Record>) {
    forall i, j :: 0 <= i < j < |objects| ==> objects[i].o != objects[j].o
  }

  /**
   The invariant between calls: no object is listed twice, the stack holds listed objects, and
   the listed objects that are not on the stack are finished and have complete records.
   */
  ghost predicate Sound(g: Graph, objects: seq<Record>, exported: set<Ob>, stack: seq<Value>) {
    && Distinct(objects)
    && exported <= Listed(objects) <= g.heap.Keys
    && (forall v :: v in stack ==> v.Ptr? && v.o in Listed(objects))
    && (forall i :: 0 <= i < |objects| && Ptr(objects[i].o) !in stack ==>
          objects[i].o in exported && Complete(g, Listed(objects), objects[i]))
  }

  // ------------------------------------------------------------------
  // Reachability through handled objects
  // ------------------------------------------------------------------

  function Pointers(n: Node): seq<Value> {
    n.fields + [n.meta, n.parent]
  }

  // A chain of handled objects, each pointing to the next.
  predicate Chain(g: Graph, p: seq<Ob>) {
    && (forall i :: 0 <= i < |p| ==> Handled(g, Ptr(p[i])))
    && (forall i {:trigger p[i + 1]} :: 0 <= i < |p| - 1 ==> Ptr(p[i + 1]) in Pointers(g.heap[p[i]]))
  }

  ghost predicate Reachable(g: Graph, v: Value, o: Ob) {
    exists p :: p != [] && Chain(g, p) && v == Ptr(p[0]) && p[|p| - 1] == o
  }

  lemma ReachableSelf(g: Graph, o: Ob)
    requires Handled(g, Ptr(o))
    ensures Reachable(g, Ptr(o), o)
  {
    assert Chain(g, [o]);
  }

  lemma ReachableStep(g: Graph, o: Ob, v: Value, x: Ob)
    requires Handled(g, Ptr(o)) && v in Pointers(g.heap[o]) && Reachable(g, v, x)
    ensures Reachable(g, Ptr(o), x)
  {
    var p :| p != [] && Chain(g, p) && v == Ptr(p[0]) && p[|p| - 1] == x;
    var q := [o] + p;
    forall i {:trigger q[i + 1]} | 0 <= i < |q| - 1 ensures Ptr(q[i + 1]) in Pointers(g.heap[q[i]]) {
      if i > 0 {
        var j := i - 1;
        assert q[i] == p[j] && q[i + 1] == p[j + 1];
      }
    }
    assert Chain(g, q);
  }

  // ------------------------------------------------------------------
  // What each step of the walk keeps
  // ------------------------------------------------------------------

  lemma ListedSnoc(objects: seq<Record>, r: Record)
    ensures Listed(objects + [r]) == Listed(objects) + {r.o}
  {
    var all := objects + [r];
    forall x ensures x in Listed(all) <==> x in Listed(objects) + {r.o} {
      if x in Listed(objects) {
        var i :| 0 <= i < |objects| && objects[i].o == x;
        assert all[i].o == x;
      }
      if x == r.o {
        assert all[|objects|].o == x;
      }
    }
  }

  lemma ListedGrows(before: seq<Record>, after: seq<Record>)
    requires before <= after
    ensures Listed(before) <= Listed(after)
  {
    forall x | x in Listed(before) ensures x in Listed(after) {
      var i :| 0 <= i < |before| && before[i].o == x;
      assert after[i].o == x;
    }
  }

  lemma DenotesGrows(g: Graph, before: set<Ob>, after: set<Ob>, v: Value, f: Field)
    requires before <= after && Denotes(g, before, v, f)
    ensures Denotes(g, after, v, f)
  {
  }

  // An object enters the list when it enters the stack.
  lemma SoundAdd(g: Graph, objects: seq<Record>, exported: set<Ob>, stack: seq<Value>, r: Record)
    requires Sound(g, objects, exported, stack) && r.o !in Listed(objects) && r.o in g.heap
    ensures Sound(g, objects + [r], exported, [Ptr(r.o)] + stack)
  {
    var all, grey := objects + [r], [Ptr(r.o)] + stack;
    ListedSnoc(objects, r);
    forall i, j | 0 <= i < j < |all| ensures all[i].o != all[j].o {
      assert all[i].o in Listed(objects);
    }
    forall i | 0 <= i < |all| && Ptr(all[i].o) !in grey
      ensures all[i].o in exported && Complete(g, Listed(all), all[i])
    {
      assert Ptr(r.o) in grey;
      assert all[i] == objects[i] && Ptr(objects[i].o) !in stack;
      assert Complete(g, Listed(objects), objects[i]);
    }
  }

  // The record of an object on the stack may be filled in.
  lemma SoundUpdate(g: Graph, objects: seq<Record>, exported: set<Ob>, stack: seq<Value>, k: nat, r: Record)
    requires Sound(g, objects, exported, stack) && k < |objects|
    requires r.o == objects[k].o && Ptr(r.o) in stack
    ensures Sound(g, objects[k := r], exported, stack) && Listed(objects[k := r]) == Listed(objects)
  {
    var all := objects[k := r];
    forall x ensures x in Listed(all) <==> x in Listed(objects) {
      if x in Listed(all) {
        var i :| 0 <= i < |all| && all[i].o == x;
        assert objects[i].o == x;
      }
      if x in Listed(objects) {
        var i :| 0 <= i < |objects| && objects[i].o == x;
        assert all[i].o == x;
      }
    }
    assert Listed(all) == Listed(objects);
  }

  // An object leaves the stack finished, with a complete record.
  lemma SoundFinish(g: Graph, objects: seq<Record>, exported: set<Ob>, stack: seq<Value>, k: nat)
    requires k < |objects| && Sound(g, objects, exported, [Ptr(objects[k].o)] + stack)
    requires objects[k].o in exported && Complete(g, Listed(objects), objects[k])
    ensures Sound(g, objects, exported, stack)
  {
    var grey := [Ptr(objects[k].o)] + stack;
    forall v | v in stack ensures v.Ptr? && v.o in Listed(objects) {
      assert v in grey;
    }
    forall i | 0 <= i < |objects| && Ptr(objects[i].o) !in stack
      ensures objects[i].o in exported && Complete(g, Listed(objects), objects[i])
    {
      if i != k {
        assert objects[i].o != objects[k].o;
        assert Ptr(objects[i].o) !in grey;
      }
    }
  }

  // Records before the k-th are untouched, and all new objects can be reached from o.
  ghost predicate Grew(g: Graph, before: seq<Record>, after: seq<Record>, k: nat, o: Ob) {
    && k < |before| <= |after| && before[..k] == after[..k] && Listed(before) <= Listed(after)
    && (forall x :: x in Listed(after) && x !in Listed(before) ==> Reachable(g, Ptr(o), x))
  }

  lemma GrewBy(g: Graph, start: seq<Record>, before: seq<Record>, after: seq<Record>, k: nat, o: Ob, v: Value)
    requires (start == before && k < |start|) || Grew(g, start, before, k, o)
    requires before <= after && Handled(g, Ptr(o)) && v in Pointers(g.heap[o])
    requires forall x :: x in Listed(after) && x !in Listed(before) ==> Reachable(g, v, x)
    ensures Grew(g, start, after, k, o) && Listed(before) <= Listed(after)
  {
    ListedGrows(before, after);
    forall x | x in Listed(after) && x !in Listed(start) ensures Reachable(g, Ptr(o), x) {
      if x !in Listed(before) {
        ReachableStep(g, o, v, x);
      }
    }
  }

  predicate Fields(g: Graph, listed: set<Ob>, vs: seq<Value>, fs: seq<Field>) {
    |vs| == |fs| && forall i :: 0 <= i < |vs| ==> Denotes(g, listed, vs[i], fs[i])
  }

  lemma FieldsSnoc(g: Graph, before: set<Ob>, after: set<Ob>, vs: seq<Value>, fs: seq<Field>, v: Value, f: Field)
    requires Fields(g, before, vs, fs) && before <= after && Denotes(g, after, v, f)
    ensures Fields(g, after, vs + [v], fs + [f])
  {
  }

  lemma FieldsGrow(g: Graph, before: set<Ob>, after: set<Ob>, vs: seq<Value>, fs: seq<Field>)
    requires Fields(g, before, vs, fs) && before <= after
    ensures Fields(g, after, vs, fs)
  {
  }

  // ------------------------------------------------------------------
  // With an empty stack, the list is closed
  // ------------------------------------------------------------------

  lemma CompletePointers(g: Graph, listed: set<Ob>, r: Record, v: Value)
    requires Complete(g, listed, r) && v in Pointers(g.heap[r.o]) && v.Ptr? && Handled(g, v)
    ensures v.o in listed
  {
    var n := g.heap[r.o];
    var i :| 0 <= i < |Pointers(n)| && Pointers(n)[i] == v;
    if i < |n.fields| {
      assert Denotes(g, listed, n.fields[i], r.fields[i]);
    }
  }

  lemma {:induction false} ChainListed(g: Graph, objects: seq<Record>, exported: set<Ob>, p: seq<Ob>, k: nat)
    requires Sound(g, objects, exported, []) && Chain(g, p) && k < |p| && p[0] in Listed(objects)
    ensures p[k] in Listed(objects)
    decreases k
  {
    if k > 0 {
      var m := k - 1;
      ChainListed(g, objects, exported, p, m);
      var j :| 0 <= j < |objects| && objects[j].o == p[m];
      assert Ptr(p[m + 1]) in Pointers(g.heap[p[m]]);
      CompletePointers(g, Listed(objects), objects[j], Ptr(p[k]));
    }
  }

  lemma ReachableListed(g: Graph, objects: seq<Record>, exported: set<Ob>, v: Value, o: Ob)
    requires Sound(g, objects, exported, []) && Reachable(g, v, o) && (v.Ptr? && Handled(g, v) ==> v.o in Listed(objects))
    ensures o in Listed(objects)
  {
    var p :| p != [] && Chain(g, p) && v == Ptr(p[0]) && p[|p| - 1] == o;
    ChainListed(g, objects, exported, p, |p| - 1);
  }

  predicate NoDangling(listed: set<Ob>, fs: seq<Field>) {
    forall i :: 0 <= i < |fs| && fs[i].Reference? ==> fs[i].o in listed
  }

  lemma LitvecListed(g: Graph, objects: seq<Record>, exported: set<Ob>, litvec: seq<Value>, lits: seq<Field>)
    requires Sound(g, objects, exported, []) && Fields(g, Listed(objects), litvec, lits)
    ensures NoDangling(Listed(objects), lits)
    ensures forall i, o :: 0 <= i < |litvec| && Reachable(g, litvec[i], o) ==> o in Listed(objects)
  {
    forall i, o | 0 <= i < |litvec| && Reachable(g, litvec[i], o) ensures o in Listed(objects) {
      assert Denotes(g, Listed(objects), litvec[i], lits[i]);
      ReachableListed(g, objects, exported, litvec[i], o);
    }
  }

  // ------------------------------------------------------------------
  // The exporter
  // ------------------------------------------------------------------

  class Exporter {
    const g: Graph
    var objects: seq<Record>
    var exported: set<Ob>
    var stack: seq<Value>
    var blocks: seq<CodeBlock>

    ghost predicate Valid()
      reads this
    {
      Closed(g) && Sound(g, objects, exported, stack)
    }

    constructor (g: Graph)
      requires Closed(g)
      ensures Finished() && this.g == g && objects == [] && blocks == []
    {
      this.g := g;
      objects, exported, stack, blocks := [], {}, [], [];
    }

    // Between exports nothing is under way, and every reference in a code block names a listed object.
    ghost predicate Finished()
      reads this
    {
      && Valid() && stack == []
      && forall b :: b in blocks ==> NoDangling(Listed(objects), b.lits)
    }

    // collectExportCode
    method Collect(code: Ob, codevec: seq<nat>, litvec: seq<Value>)
      requires Finished() && forall i :: 0 <= i < |litvec| ==> InHeap(g, litvec[i])
      modifies this
      ensures Finished() && old(objects) <= objects
      ensures |blocks| == |old(blocks)| + 1 && blocks[..|old(blocks)|] == old(blocks)
      ensures var b := blocks[|old(blocks)|];
              b.o == code && b.opcodes == codevec && Fields(g, Listed(objects), litvec, b.lits)
      ensures forall o :: o in Listed(objects) <==>
                o in Listed(old(objects)) || exists i :: 0 <= i < |litvec| && Reachable(g, litvec[i], o)
    {
      var opcodes, k := [], 0;
      while k < |codevec|
        invariant 0 <= k <= |codevec| && opcodes == codevec[..k]
      {
        opcodes := opcodes + [codevec[k]];
        k := k + 1;
      }
      var lits, i := [], 0;
      while i < |litvec|
        invariant 0 <= i <= |litvec| && Valid() && stack == [] && blocks == old(blocks) && old(objects) <= objects
        invariant Fields(g, Listed(objects), litvec[..i], lits)
        invariant forall o :: o in Listed(objects) && o !in Listed(old(objects)) ==>
                    exists j :: 0 <= j < i && Reachable(g, litvec[j], o)
      {
        ghost var before := objects;
        var f := Populate(litvec[i]);
        ListedGrows(before, objects);
        FieldsSnoc(g, Listed(before), Listed(objects), litvec[..i], lits, litvec[i], f);
        assert litvec[..i + 1] == litvec[..i] + [litvec[i]];
        lits := lits + [f];
        i := i + 1;
      }
      assert litvec[..i] == litvec;
      ListedGrows(old(objects), objects);
      blocks := blocks + [CodeBlock(code, opcodes, lits)];
      LitvecListed(g, objects, exported, litvec, lits);
    }

    // populateObjectByType
    method Populate(v: Value) returns (f: Field)
      requires Valid() && InHeap(g, v)
      modifies this
      ensures Valid() && stack == old(stack) && old(objects) <= objects && old(exported) <= exported
      ensures blocks == old(blocks)
      ensures Denotes(g, Listed(objects), v, f)
      ensures f.Reference? ==> (f.looped <==> v in old(stack))
      ensures forall o :: o in Listed(objects) && o !in Listed(old(objects)) ==> Reachable(g, v, o)
      decreases g.heap.Keys - Listed(objects), 2
    {
      var looped := v in stack;
      stack := [v] + stack;
      var ty := TypeOf(g, v);
      if ty !in g.handlers {
        f := Unknown;
      } else if looped {
        f := Reference(g.handlers[ty], v.o, true);
      } else if v.Atomic? {
        f := ByValue(g.handlers[ty], v.payload);
      } else {
        f := Reference(g.handlers[ty], v.o, false);
        if v.o !in exported {
          assert v.o !in Listed(objects);
          Store(v.o);
        }
      }
      stack := stack[1..];
    }

    // The first visit of an object: list it, run its handler, mark it, then follow meta and parent.
    method Store(o: Ob)
      requires Closed(g) && stack != [] && stack[0] == Ptr(o) && Sound(g, objects, exported, stack[1..])
      requires Handled(g, Ptr(o)) && o !in Listed(objects)
      modifies this
      ensures stack == old(stack) && Sound(g, objects, exported, stack[1..])
      ensures old(objects) <= objects && old(exported) <= exported && o in Listed(objects)
      ensures blocks == old(blocks)
      ensures forall x :: x in Listed(objects) && x !in Listed(old(objects)) ==> Reachable(g, Ptr(o), x)
      decreases g.heap.Keys - Listed(objects), 1
    {
      var k, n := |objects|, g.heap[o];
      var r := Record(g.handlers[n.ty], o, n.data, [], Unset, Unset);
      SoundAdd(g, objects, exported, stack[1..], r);
      ListedSnoc(objects, r);
      ReachableSelf(g, o);
      assert stack == [Ptr(o)] + stack[1..];
      objects := objects + [r];
      Handler(o, k);
      exported := exported + {o};
      ghost var before := Listed(objects);
      MetaAndParent(o, k);
      FieldsGrow(g, before, Listed(objects), n.fields, objects[k].fields);
      assert Complete(g, Listed(objects), objects[k]);
      assert old(objects) == objects[..k];
      SoundFinish(g, objects, exported, stack[1..], k);
    }

    // A handler populates the fields of its object in order.
    method Handler(o: Ob, k: nat)
      requires Valid() && Handled(g, Ptr(o)) && Ptr(o) in stack
      requires k < |objects| && objects[k] == Record(g.handlers[g.heap[o].ty], o, g.heap[o].data, [], Unset, Unset)
      modifies this
      ensures Valid() && stack == old(stack) && old(exported) <= exported && blocks == old(blocks)
      ensures Grew(g, old(objects), objects, k, o)
      ensures objects[k] == old(objects[k]).(fields := objects[k].fields)
      ensures Fields(g, Listed(objects), g.heap[o].fields, objects[k].fields)
      decreases g.heap.Keys - Listed(objects), 3
    {
      var n, i := g.heap[o], 0;
      while i < |n.fields|
        invariant 0 <= i <= |n.fields| && Valid() && stack == old(stack) && old(exported) <= exported
        invariant blocks == old(blocks)
        invariant Grew(g, old(objects), objects, k, o)
        invariant objects[k] == old(objects[k]).(fields := objects[k].fields)
        invariant Fields(g, Listed(objects), n.fields[..i], objects[k].fields)
      {
        ghost var before := objects;
        var f := Populate(n.fields[i]);
        assert n.fields[i] in Pointers(n);
        GrewBy(g, old(objects), before, objects, k, o, n.fields[i]);
        FieldsSnoc(g, Listed(before), Listed(objects), n.fields[..i], objects[k].fields, n.fields[i], f);
        assert n.fields[..i + 1] == n.fields[..i] + [n.fields[i]];
        var r := objects[k].(fields := objects[k].fields + [f]);
        SoundUpdate(g, objects, exported, stack, k, r);
        objects := objects[k := r];
        i := i + 1;
      }
      assert n.fields[..i] == n.fields;
    }

    method MetaAndParent(o: Ob, k: nat)
      requires Valid() && Handled(g, Ptr(o)) && Ptr(o) in stack && k < |objects| && objects[k].o == o
      modifies this
      ensures Valid() && stack == old(stack) && old(exported) <= exported && blocks == old(blocks)
      ensures Grew(g, old(objects), objects, k, o)
      ensures objects[k] == old(objects[k]).(meta := objects[k].meta, parent := objects[k].parent)
      ensures Denotes(g, Listed(objects), g.heap[o].meta, objects[k].meta)
      ensures Denotes(g, Listed(objects), g.heap[o].parent, objects[k].parent)
      decreases g.heap.Keys - Listed(objects), 3
    {
      var n := g.heap[o];
      ghost var start := objects;
      var f := Populate(n.meta);
      assert n.meta in Pointers(n) && n.parent in Pointers(n);
      GrewBy(g, start, start, objects, k, o, n.meta);
      var r := objects[k].(meta := f);
      SoundUpdate(g, objects, exported, stack, k, r);
      objects := objects[k := r];
      ghost var middle := objects;
      f := Populate(n.parent);
      GrewBy(g, start, middle, objects, k, o, n.parent);
      DenotesGrows(g, Listed(middle), Listed(objects), n.meta, objects[k].meta);
      r := objects[k].(parent := f);
      SoundUpdate(g, objects, exported, stack, k, r);
      objects := objects[k := r];
    }
  }
}
