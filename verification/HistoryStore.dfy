/**
 Histories over a key-value store (rspace++/src/rspace/history/radix_tree.rs:1440-1630,
 rspace++/src/rspace/history/instances/radix_history.rs:47-101).

 A batch is processed on stored nodes; the root hash that comes out is the hash of the tree that
 module History describes, so it depends on the contents only.
 */
module HistoryStore {
  import opened Wrappers
  import opened Radix
  import opened History
  import opened NodeCodec
  import opened RadixStore

  // The hashes inserted have their fixed size.
  ghost predicate SizedBatch(actions: seq<Action>) {
    forall i :: 0 <= i < |actions| && actions[i].Insert? ==> |actions[i].hash| == DEF_SIZE
  }

  // Stored items that look alike stand for the same tree.
  lemma SameForm(st: Store, h: Digest, a: Item, b: Item)
    requires Held(st, h, a) && Held(st, h, b) && StoredForm(h, a) == StoredForm(h, b)
    ensures a == b
  {
    if a.NodePtr? {
      SameAddress(st, h, a.node, b.node);
    }
  }

  lemma SameNodes(st: Store, h: Digest, a: Node, b: Node)
    requires |a| == |b| && HeldItems(st, h, a) && HeldItems(st, h, b)
    ensures StoredNode(h, a) == StoredNode(h, b) <==> a == b
  {
    if StoredNode(h, a) == StoredNode(h, b) {
      forall i | 0 <= i < |a| ensures a[i] == b[i] {
        assert StoredNode(h, a)[i] == StoredNode(h, b)[i];
        SameForm(st, h, a[i], b[i]);
      }
    }
  }

  // ------------------------------------------------------------------
  // Sizes
  // ------------------------------------------------------------------

  lemma SizedFrom(item: Item)
    requires Sized(item) && (item.Leaf? ==> item.prefix != []) && (item.NodePtr? ==> |item.node| == NUM_ITEMS)
    ensures SizedNode(NodeFrom(item))
  {
  }

  lemma SizedTrim(g: seq<Action>)
    requires SizedBatch(g) && forall i :: 0 <= i < |g| ==> g[i].key != []
    ensures SizedBatch(Trim(g))
  {
  }

  lemma SizedGroup(actions: seq<Action>, b: Byte)
    requires SizedBatch(actions)
    ensures SizedBatch(Group(actions, b))
  {
    var g := Group(actions, b);
    forall i | 0 <= i < |g| && g[i].Insert? ensures |g[i].hash| == DEF_SIZE {
      assert g[i] in actions;
    }
  }

  lemma {:induction false} SizedNewItem(item: Item, g: seq<Action>, b: Byte, n: nat)
    requires Valid(item, n) && Batch(g, n + 1) && (forall i :: 0 <= i < |g| ==> g[i].key[0] == b)
    requires Sized(item) && SizedBatch(g)
    ensures Sized(NewItem(item, g, b, n))
    decreases n, 1
  {
    if g == [] {
    } else if |g| == 1 {
      if g[0].Insert? {
        SizedUpdate(item, g[0].key[1..], g[0].hash);
      } else {
        SizedDelete(item, g[0].key[1..]);
      }
    } else if item.EmptyItem? && !Inserts(g) {
    } else {
      SizedSeveral(item, g, b, n);
    }
  }

  lemma {:induction false} SizedSeveral(item: Item, g: seq<Action>, b: Byte, n: nat)
    requires Several(item, g, b, n) && Sized(item) && SizedBatch(g)
    ensures Sized(NewItem(item, g, b, n))
    decreases n, 0
  {
    var start, t := SeveralParts(item, g, b, n);
    hide Several, Batch, NewItem, MakeActions, Compact, Sized;
    SizedActions(start, t, n - 1);
    var r := MakeActions(start, t, n - 1);
    if r.Some? {
      SizedCompact(r.value, []);
    }
  }

  lemma SeveralParts(item: Item, g: seq<Action>, b: Byte, n: nat) returns (start: Node, t: seq<Action>)
    requires Several(item, g, b, n) && Sized(item) && SizedBatch(g)
    ensures n > 0 && Batch(t, n) && ValidNode(start, n - 1) && SizedNode(start) && SizedBatch(t)
    ensures (item.Leaf? ==> item.prefix != []) && (item.NodePtr? ==> |item.node| == NUM_ITEMS)
    ensures (forall i :: 0 <= i < |g| ==> g[i].key != []) && start == NodeFrom(item) && t == Trim(g)
    ensures var r := MakeActions(start, t, n - 1);
            NewItem(item, g, b, n) == if r.None? then item else Compact(r.value, [])
  {
    TrimBatch(g, b, n);
    NodeFromValid(item, n);
    SizedFrom(item);
    SizedTrim(g);
    start, t := NodeFrom(item), Trim(g);
  }

  lemma {:induction false} SizedActions(node: Node, actions: seq<Action>, n: nat)
    requires ValidNode(node, n) && Batch(actions, n + 1) && SizedNode(node) && SizedBatch(actions)
    ensures MakeActions(node, actions, n).Some? ==> SizedNode(MakeActions(node, actions, n).value)
    decreases n, 2
  {
    var new_ := NewItems(node, actions, n, NUM_ITEMS);
    forall i | 0 <= i < NUM_ITEMS ensures Sized(new_[i]) {
      NewItemsAt(node, actions, n, NUM_ITEMS, i);
      SizedGroup(actions, i);
      SizedNewItem(node[i], Group(actions, i), i, n);
    }
  }

  // ------------------------------------------------------------------
  // make_actions on stored nodes
  // ------------------------------------------------------------------

  // construct_node_from_item
  method StoredFrom(tree: RadixTree, item: Stored, ghost t: Item) returns (node: seq<Stored>)
    requires item == StoredForm(tree.h, t) && Held(tree.store, tree.h, t)
    requires (t.Leaf? ==> t.prefix != []) && (t.NodePtr? ==> |t.node| == NUM_ITEMS)
    ensures node == StoredNode(tree.h, NodeFrom(t)) && HeldItems(tree.store, tree.h, NodeFrom(t))
  {
    match item
    case Nothing => node := Blank();
    case Value(prefix, value) => node := Blank()[prefix[0] := Stored.Value(prefix[1..], value)];
    case Pointer(prefix, ptr) =>
      if prefix == [] {
        node := tree.LoadNode(ptr, t.node);
      } else {
        node := Blank()[prefix[0] := Pointer(prefix[1..], ptr)];
        assert Held(tree.store, tree.h, NodePtr(prefix[1..], t.node));
      }
  }

  // What a method needs to know of an item.
  ghost predicate Ready(tree: RadixTree, item: Stored, t: Item, n: nat)
    reads tree
  {
    && item == StoredForm(tree.h, t) && Held(tree.store, tree.h, t)
    && Valid(t, n) && Sized(t) && n <= MAX_KEY && Digests(tree.h)
  }

  // process_one_action
  method OneStored(tree: RadixTree, item: Stored, a: Action, b: Byte, n: nat, ghost t: Item) returns (r: Result<Stored>)
    requires Ready(tree, item, t, n) && |a.key| == n + 1 && a.key[0] == b && Batch([a], n + 1)
    requires a.Insert? ==> |a.hash| == DEF_SIZE
    modifies tree
    ensures Grows(old(tree.store), tree.store) && Honest(old(tree.store), tree.store, tree.h, r.Collision?)
    ensures r.Ok? ==> r.value == StoredForm(tree.h, NewItem(t, [a], b, n)) && Held(tree.store, tree.h, NewItem(t, [a], b, n))
  {
    ghost var before := tree.store;
    var key := a.key[1..];
    var x: Result<Option<Stored>>;
    assert [a][0] == a;
    if a.Insert? {
      x := tree.Update(item, key, a.hash, t);
      assert NewItem(t, [a], b, n) == Updated(t, key, a.hash);
    } else {
      x := tree.Remove(item, key, t);
      assert NewItem(t, [a], b, n) == Deleted(t, key);
    }
    hide NewItem, Held, Radix.Update, Delete;
    HeldGrows(before, tree.store, tree.h, t);
    if x.Collision? {
      return Collision;
    }
    r := Ok(if x.value.None? then item else x.value.value);
  }

  // The item of one group.
  method GroupStored(tree: RadixTree, item: Stored, g: seq<Action>, b: Byte, n: nat, ghost t: Item)
    returns (r: Result<Stored>)
    requires Ready(tree, item, t, n) && SizedBatch(g)
    requires Batch(g, n + 1) && forall i :: 0 <= i < |g| ==> g[i].key[0] == b
    modifies tree
    ensures Grows(old(tree.store), tree.store) && Honest(old(tree.store), tree.store, tree.h, r.Collision?)
    ensures r.Ok? ==> r.value == StoredForm(tree.h, NewItem(t, g, b, n)) && Held(tree.store, tree.h, NewItem(t, g, b, n))
    decreases n, 2
  {
    if g == [] {
      r := Ok(item);
    } else if |g| == 1 {
      assert g == [g[0]];
      r := OneStored(tree, item, g[0], b, n, t);
    } else if item == Nothing && !Inserts(g) {
      r := Ok(item);
    } else {
      NothingStored(tree.h, t);
      r := SeveralStored(tree, item, g, b, n, t);
    }
  }

  // process_several_actions
  method SeveralStored(tree: RadixTree, item: Stored, g: seq<Action>, b: Byte, n: nat, ghost t: Item)
    returns (r: Result<Stored>)
    requires Ready(tree, item, t, n) && SizedBatch(g) && Several(t, g, b, n)
    modifies tree
    ensures Grows(old(tree.store), tree.store) && Honest(old(tree.store), tree.store, tree.h, r.Collision?)
    ensures r.Ok? ==> r.value == StoredForm(tree.h, NewItem(t, g, b, n)) && Held(tree.store, tree.h, NewItem(t, g, b, n))
    decreases n, 1
  {
    ghost var before := tree.store;
    ghost var start, acts := SeveralParts(t, g, b, n);
    hide Several, Batch, NewItem, MakeActions, Compact, Sized, Held, Valid, NodeFrom, StoredForm, SizedBatch;
    var x := Descend(tree, item, Trim(g), n, t, start);
    HeldGrows(before, tree.store, tree.h, t);
    r := if x.Collision? then Collision else Ok(if x.value.None? then item else x.value.value);
  }

  // Process the trimmed actions on a node made from the item, and make an item of the outcome.
  method Descend(tree: RadixTree, item: Stored, acts: seq<Action>, n: nat, ghost t: Item, ghost start: Node)
    returns (r: Result<Option<Stored>>)
    requires Ready(tree, item, t, n) && (t.Leaf? ==> t.prefix != []) && (t.NodePtr? ==> |t.node| == NUM_ITEMS)
    requires start == NodeFrom(t) && n > 0 && ValidNode(start, n - 1) && SizedNode(start)
    requires Batch(acts, n) && SizedBatch(acts)
    modifies tree
    ensures Grows(old(tree.store), tree.store) && Honest(old(tree.store), tree.store, tree.h, r.Collision?)
    ensures r.Ok? ==>
              var o := MakeActions(start, acts, n - 1);
              && (r.value.None? <==> o.None?)
              && (o.Some? ==> r.value.value == StoredForm(tree.h, Compact(o.value, [])) &&
                              Held(tree.store, tree.h, Compact(o.value, [])))
    decreases n, 0
  {
    ghost var before := tree.store;
    assert item == StoredForm(tree.h, t) && Held(before, tree.h, t) && Digests(tree.h) && n <= MAX_KEY;
    hide *;
    SeveralFits(tree.h, start, acts, n);
    var node := StoredFrom(tree, item, t);
    var x := ActionsStored(tree, node, acts, n - 1, start);
    if x.Collision? {
      return Collision;
    }
    if x.value.None? {
      return Ok(None);
    }
    ghost var between := tree.store;
    var y := tree.SaveCompact(x.value.value, [], MakeActions(start, acts, n - 1).value);
    GrowsTrans(before, between, tree.store);
    HonestTrans(before, between, tree.store, tree.h, y.Collision?);
    r := if y.Ok? then Ok(Some(y.value)) else Collision;
  }

  lemma SeveralFits(h: Digest, start: Node, acts: seq<Action>, n: nat)
    requires 0 < n <= MAX_KEY && Digests(h) && ValidNode(start, n - 1) && Batch(acts, n)
    requires SizedNode(start) && SizedBatch(acts)
    ensures var u := MakeActions(start, acts, n - 1);
            u.Some? ==> |u.value| == NUM_ITEMS && EncodableNode(StoredNode(h, u.value))
  {
    SizedActions(start, acts, n - 1);
    hide MakeActions;
    var u := MakeActions(start, acts, n - 1);
    if u.Some? {
      NodeFits(h, u.value, n - 1);
    }
  }

  // make_actions
  method ActionsStored(tree: RadixTree, node: seq<Stored>, actions: seq<Action>, n: nat, ghost t: Node)
    returns (r: Result<Option<seq<Stored>>>)
    requires node == StoredNode(tree.h, t) && HeldItems(tree.store, tree.h, t) && ValidNode(t, n) && SizedNode(t)
    requires Batch(actions, n + 1) && SizedBatch(actions) && n <= MAX_KEY && Digests(tree.h)
    modifies tree
    ensures Grows(old(tree.store), tree.store) && Honest(old(tree.store), tree.store, tree.h, r.Collision?)
    ensures r.Ok? ==>
              var o := MakeActions(t, actions, n);
              && (r.value.None? <==> o.None?)
              && (o.Some? ==> r.value.value == StoredNode(tree.h, o.value) && HeldItems(tree.store, tree.h, o.value))
    decreases n, 3
  {
    hide Honest, Grows;
    var new_: seq<Stored> := [];
    ghost var items := NewItems(t, actions, n, NUM_ITEMS);
    Unchanged(tree.store, tree.h);
    for k := 0 to NUM_ITEMS
      invariant Grows(old(tree.store), tree.store) && Honest(old(tree.store), tree.store, tree.h, false) && |new_| == k
      invariant forall i :: 0 <= i < k ==> new_[i] == StoredForm(tree.h, items[i]) && Held(tree.store, tree.h, items[i])
    {
      GroupReady(old(tree.store), tree.store, tree.h, node, actions, n, t, k);
      ghost var before := tree.store;
      var x := GroupStored(tree, node[k], Group(actions, k), k, n, t[k]);
      GrowsTrans(old(tree.store), before, tree.store);
      HonestTrans(old(tree.store), before, tree.store, tree.h, x.Collision?);
      if x.Collision? {
        return Collision;
      }
      forall i | 0 <= i < k ensures Held(tree.store, tree.h, items[i]) {
        HeldGrows(before, tree.store, tree.h, items[i]);
      }
      new_ := new_ + [x.value];
    }
    assert new_ == StoredNode(tree.h, items);
    HeldAll(old(tree.store), tree.store, tree.h, t);
    SameNodes(tree.store, tree.h, items, t);
    r := Ok(if new_ == node then None else Some(new_));
  }

  lemma HeldAll(st: Store, st': Store, h: Digest, t: Node)
    requires HeldItems(st, h, t) && Grows(st, st')
    ensures HeldItems(st', h, t)
  {
    forall i | 0 <= i < |t| ensures Held(st', h, t[i]) {
      HeldGrows(st, st', h, t[i]);
    }
  }

  lemma GroupReady(st: Store, st': Store, h: Digest, node: seq<Stored>, actions: seq<Action>, n: nat, t: Node, k: Byte)
    requires node == StoredNode(h, t) && HeldItems(st, h, t) && Grows(st, st') && ValidNode(t, n) && SizedNode(t)
    requires Batch(actions, n + 1) && SizedBatch(actions)
    ensures node[k] == StoredForm(h, t[k]) && Held(st', h, t[k]) && Valid(t[k], n) && Sized(t[k])
    ensures Batch(Group(actions, k), n + 1) && SizedBatch(Group(actions, k))
    ensures NewItems(t, actions, n, NUM_ITEMS)[k] == NewItem(t[k], Group(actions, k), k, n)
  {
    HeldGrows(st, st', h, t[k]);
    SizedGroup(actions, k);
    NewItemsAt(t, actions, n, NUM_ITEMS, k);
  }

  // ------------------------------------------------------------------
  // Histories
  // ------------------------------------------------------------------

  ghost predicate DistinctKeys(actions: seq<Action>) {
    forall i, j :: 0 <= i < j < |actions| ==> actions[i].key != actions[j].key
  }

  // has_no_duplicates: as many keys as actions
  method NoDuplicates(actions: seq<Action>) returns (b: bool)
    ensures b <==> DistinctKeys(actions)
  {
    var keys: set<Key> := {};
    for k := 0 to |actions|
      invariant forall x :: x in keys <==> exists i :: 0 <= i < k && actions[i].key == x
      invariant |keys| <= k && (|keys| == k <==> DistinctKeys(actions[..k]))
    {
      var x := actions[k].key;
      assert actions[..k + 1] == actions[..k] + [actions[k]];
      if x in keys {
        var i :| 0 <= i < k && actions[i].key == x;
        assert actions[..k + 1][i].key == actions[..k + 1][k].key;
        assert keys + {x} == keys;
      } else {
        DistinctSnoc(actions[..k], actions[k]);
      }
      keys := keys + {x};
    }
    assert actions[..|actions|] == actions;
    b := |keys| == |actions|;
  }

  lemma DistinctSnoc(s: seq<Action>, a: Action)
    requires forall i :: 0 <= i < |s| ==> s[i].key != a.key
    ensures DistinctKeys(s + [a]) <==> DistinctKeys(s)
  {
    if DistinctKeys(s + [a]) {
      forall i, j | 0 <= i < j < |s| ensures s[i].key != s[j].key {
        assert (s + [a])[i] == s[i] && (s + [a])[j] == s[j];
      }
    }
  }

  datatype Processed = Duplicates | Collided | Done(node: seq<Stored>, hash: Bytes)

  /**
   RadixHistory::process: duplicate keys are refused; otherwise the new root node and root hash
   are those of the tree after the batch, and the store holds that tree.
   */
  method ProcessBatch(tree: RadixTree, root: seq<Stored>, hash: Bytes, actions: seq<Action>, n: nat, ghost t: Node)
    returns (r: Processed)
    requires root == StoredNode(tree.h, t) && hash == Address(tree.h, t) && HeldItems(tree.store, tree.h, t)
    requires ValidNode(t, n) && SizedNode(t) && n <= MAX_KEY && Digests(tree.h)
    requires (forall i :: 0 <= i < |actions| ==> |actions[i].key| == n + 1) && SizedBatch(actions)
    modifies tree
    ensures Grows(old(tree.store), tree.store) && Honest(old(tree.store), tree.store, tree.h, r.Collided?)
    ensures r.Duplicates? <==> !DistinctKeys(actions)
    ensures Sound(old(tree.store), tree.h) && !Collides(tree.h) && DistinctKeys(actions) ==> r.Done?
    ensures r.Done? ==>
              && Batch(actions, n + 1)
              && r.node == StoredNode(tree.h, Process(t, actions, n)) && r.hash == Address(tree.h, Process(t, actions, n))
              && HeldItems(tree.store, tree.h, Process(t, actions, n))
              && (Process(t, actions, n) != t ==> Kept(tree.store, tree.h, Process(t, actions, n)))
  {
    var ok := NoDuplicates(actions);
    if !ok {
      return Duplicates;
    }
    assert Batch(actions, n + 1);
    SizedActions(t, actions, n);
    hide MakeActions, StoredForm, Address, Held, Batch, DistinctKeys, SizedBatch;
    ghost var before := tree.store;
    var x := ActionsStored(tree, root, actions, n, t);
    if x.Collision? {
      return Collided;
    }
    HeldAll(before, tree.store, tree.h, t);
    if x.value.None? {
      return Done(root, hash);
    }
    ghost var u := MakeActions(t, actions, n).value;
    r := SaveRoot(tree, x.value.value, n, u);
  }

  method SaveRoot(tree: RadixTree, node: seq<Stored>, n: nat, ghost u: Node) returns (r: Processed)
    requires node == StoredNode(tree.h, u) && HeldItems(tree.store, tree.h, u)
    requires ValidNode(u, n) && SizedNode(u) && n <= MAX_KEY && Digests(tree.h)
    modifies tree
    ensures Grows(old(tree.store), tree.store) && Honest(old(tree.store), tree.store, tree.h, r.Collided?) && !r.Duplicates?
    ensures r.Done? ==> r.node == node && r.hash == Address(tree.h, u)
    ensures r.Done? ==> HeldItems(tree.store, tree.h, u) && Kept(tree.store, tree.h, u)
  {
    NodeFits(tree.h, u, n);
    ghost var before := tree.store;
    var ptr := tree.SaveNode(node);
    if ptr.Collision? {
      return Collided;
    }
    HeldAll(before, tree.store, tree.h, u);
    r := Done(node, ptr.value);
  }

  /**
   The root hash is a fingerprint of the contents: in one store, two histories have the same
   root hash exactly if they agree on every key.
   */
  lemma HashIsContents(st: Store, h: Digest, xs: seq<seq<Action>>, ys: seq<seq<Action>>, n: nat)
    requires Batches(xs, n) && Batches(ys, n)
    requires Kept(st, h, Root(xs, n)) && HeldItems(st, h, Root(xs, n))
    requires Kept(st, h, Root(ys, n)) && HeldItems(st, h, Root(ys, n))
    ensures Address(h, Root(xs, n)) == Address(h, Root(ys, n)) <==>
            forall k: Key :: |k| == n + 1 ==> State(xs, k) == State(ys, k)
  {
    HistoryIndependent(xs, ys, n);
    hide Root, State, Address, Kept;
    if Address(h, Root(xs, n)) == Address(h, Root(ys, n)) {
      SameAddress(st, h, Root(xs, n), Root(ys, n));
    }
  }
}
