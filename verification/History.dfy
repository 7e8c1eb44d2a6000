/**
 Batches of history actions on the radix tree
 (rspace++/src/rspace/history/radix_tree.rs:1119-1178 and 1440-1630,
 rspace++/src/rspace/history/instances/radix_history.rs:47-101).
 */
module History {
  import opened Wrappers
  import opened Radix

  /*
   The actions of a batch are grouped by the next byte of their keys and each group works on its
   own item, so the groups may run in parallel.  A group of one action uses update or delete; a
   larger one builds a node from the item, descends, and compacts what comes back.
   */

  datatype Action = Insert(key: Key, hash: Value) | Remove(key: Key)

  // All keys have length n, and no two actions have the same key.
  ghost predicate Batch(actions: seq<Action>, n: nat) {
    && (forall i :: 0 <= i < |actions| ==> |actions[i].key| == n)
    && (forall i, j :: 0 <= i < j < |actions| ==> actions[i].key != actions[j].key)
  }

  // ------------------------------------------------------------------
  // What a batch means for one key
  // ------------------------------------------------------------------

  function Outcome(a: Action): Option<Value> {
    match a case Insert(_, hash) => Some(hash) case Remove(_) => None
  }

  function Effect(actions: seq<Action>, key: Key, was: Option<Value>): Option<Value> {
    if actions == [] then was
    else if actions[0].key == key then Outcome(actions[0])
    else Effect(actions[1..], key, was)
  }

  // ------------------------------------------------------------------
  // make_actions
  // ------------------------------------------------------------------

  // The actions of the group of byte b, in their order.
  function Group(actions: seq<Action>, b: Byte): (g: seq<Action>)
    ensures forall i :: 0 <= i < |g| ==> g[i] in actions && g[i].key != [] && g[i].key[0] == b
    ensures |g| <= |actions|
  {
    if actions == [] then []
    else
      var rest := Group(actions[1..], b);
      var a := actions[0];
      if a.key != [] && a.key[0] == b then [a] + rest else rest
  }

  function Trimmed(a: Action): Action
    requires a.key != []
  {
    match a case Insert(key, hash) => Insert(key[1..], hash) case Remove(key) => Remove(key[1..])
  }

  // trim_keys
  function Trim(actions: seq<Action>): (r: seq<Action>)
    requires forall i :: 0 <= i < |actions| ==> actions[i].key != []
    ensures |r| == |actions| && forall i :: 0 <= i < |r| ==> r[i] == Trimmed(actions[i])
  {
    if actions == [] then [] else [Trimmed(actions[0])] + Trim(actions[1..])
  }

  // construct_node_from_item
  function NodeFrom(item: Item): (node: Node)
    requires item.Leaf? ==> item.prefix != []
    requires item.NodePtr? ==> |item.node| == NUM_ITEMS
    ensures |node| == NUM_ITEMS
  {
    match item
    case EmptyItem => EmptyNode()
    case Leaf(prefix, value) => EmptyNode()[prefix[0] := Leaf(prefix[1..], value)]
    case NodePtr(prefix, node) =>
      if prefix == [] then node else EmptyNode()[prefix[0] := NodePtr(prefix[1..], node)]
  }

  predicate Inserts(actions: seq<Action>) {
    exists i :: 0 <= i < |actions| && actions[i].Insert?
  }

  lemma {:induction false} GroupBatch(actions: seq<Action>, b: Byte, n: nat)
    requires Batch(actions, n)
    ensures Batch(Group(actions, b), n)
    decreases |actions|
  {
    if actions != [] {
      var rest := Group(actions[1..], b);
      GroupBatch(actions[1..], b, n);
      forall i | 0 <= i < |rest| ensures rest[i].key != actions[0].key {
        assert rest[i] in actions[1..];
      }
    }
  }

  // Two keys in the same group differ behind the first byte.
  lemma TailsDiffer(x: Key, y: Key)
    requires x != [] && y != [] && x[0] == y[0] && x != y
    ensures x[1..] != y[1..]
  {
    assert x == [x[0]] + x[1..] && y == [y[0]] + y[1..];
  }

  lemma TrimBatch(g: seq<Action>, b: Byte, n: nat)
    requires Batch(g, n + 1) && forall i :: 0 <= i < |g| ==> g[i].key[0] == b
    ensures Batch(Trim(g), n) && (|g| > 1 ==> n > 0)
  {
    var t := Trim(g);
    forall i, j | 0 <= i < j < |t| ensures t[i].key != t[j].key {
      TailsDiffer(g[i].key, g[j].key);
    }
    if |g| > 1 {
      assert t[0].key != t[1].key;
    }
  }

  lemma NodeFromValid(item: Item, n: nat)
    requires Valid(item, n) && n > 0
    ensures (item.Leaf? ==> item.prefix != []) && (item.NodePtr? ==> |item.node| == NUM_ITEMS)
    ensures ValidNode(NodeFrom(item), n - 1)
  {
    if item.NodePtr? {
      assert ValidNode(item.node, n - |item.prefix| - 1);
    }
  }

  // The item of one group after its actions.
  function NewItem(item: Item, g: seq<Action>, b: Byte, n: nat): (r: Item)
    requires Valid(item, n) && Batch(g, n + 1) && forall i :: 0 <= i < |g| ==> g[i].key[0] == b
    ensures Valid(r, n)
    decreases n, 0
  {
    if g == [] then item
    else if |g| == 1 then
      var key := g[0].key[1..];
      if g[0].Insert? then UpdateValid(item, key, g[0].hash); Updated(item, key, g[0].hash)
      else DeleteValid(item, key); Deleted(item, key)
    else if item.EmptyItem? && !Inserts(g) then item
    else
      TrimBatch(g, b, n);
      NodeFromValid(item, n);
      var node := MakeActions(NodeFrom(item), Trim(g), n - 1);
      if node.None? then item else CompactValid(node.value, [], n); Compact(node.value, [])
  }

  function NewItems(node: Node, actions: seq<Action>, n: nat, k: nat): (r: seq<Item>)
    requires ValidNode(node, n) && Batch(actions, n + 1) && k <= NUM_ITEMS
    ensures |r| == k && forall i :: 0 <= i < k ==> Valid(r[i], n)
    decreases n, 1, k
  {
    if k == 0 then []
    else
      GroupBatch(actions, k - 1, n + 1);
      NewItems(node, actions, n, k - 1) + [NewItem(node[k - 1], Group(actions, k - 1), k - 1, n)]
  }

  // None if the node stays as it is
  function MakeActions(node: Node, actions: seq<Action>, n: nat): (r: Option<Node>)
    requires ValidNode(node, n) && Batch(actions, n + 1)
    ensures r.Some? ==> ValidNode(r.value, n)
    decreases n, 2
  {
    var new_ := NewItems(node, actions, n, NUM_ITEMS);
    if new_ == node then None else Some(new_)
  }

  // ------------------------------------------------------------------
  // A batch does to every key what it says
  // ------------------------------------------------------------------

  lemma {:induction false} EffectGroup(actions: seq<Action>, key: Key, was: Option<Value>)
    requires key != []
    ensures Effect(Group(actions, key[0]), key, was) == Effect(actions, key, was)
    decreases |actions|
  {
    if actions != [] {
      EffectGroup(actions[1..], key, was);
    }
  }

  lemma {:induction false} EffectTrim(g: seq<Action>, key: Key, was: Option<Value>)
    requires key != [] && forall i :: 0 <= i < |g| ==> g[i].key != [] && g[i].key[0] == key[0]
    ensures Effect(Trim(g), key[1..], was) == Effect(g, key, was)
    decreases |g|
  {
    if g != [] {
      EffectTrim(g[1..], key, was);
      assert Trim(g)[1..] == Trim(g[1..]);
      assert g[0].key == [key[0]] + g[0].key[1..] && key == [key[0]] + key[1..];
    }
  }

  lemma {:induction false} EffectRemoves(g: seq<Action>, key: Key)
    requires !Inserts(g)
    ensures Effect(g, key, None) == None
    decreases |g|
  {
    if g != [] {
      EffectRemoves(g[1..], key);
    }
  }

  lemma NodeFromReads(item: Item, k: Key)
    requires Valid(item, |k|) && k != []
    requires (item.Leaf? ==> item.prefix != []) && (item.NodePtr? ==> |item.node| == NUM_ITEMS)
    ensures ReadNode(NodeFrom(item), k) == Read(item, k)
  {
    match item
    case EmptyItem =>
    case Leaf(prefix, _) =>
      Pieces(prefix, k, 0);
    case NodePtr(prefix, node) =>
      assert ValidNode(node, |k| - |prefix| - 1);
      if prefix != [] {
        PtrPieces(prefix, node, 0, k);
      } else {
        assert k[0..] == k;
      }
  }

  lemma {:induction false} NewItemReads(item: Item, g: seq<Action>, b: Byte, n: nat, k: Key)
    requires Valid(item, n) && Batch(g, n + 1) && (forall i :: 0 <= i < |g| ==> g[i].key[0] == b) && |k| == n
    ensures Read(NewItem(item, g, b, n), k) == Effect(g, [b] + k, Read(item, k))
    decreases n, 1
  {
    var key := [b] + k;
    assert key[0] == b && key[1..] == k;
    if g == [] {
    } else if |g| == 1 {
      assert g == [g[0]];
      OneAction(item, g[0], b, n, k);
    } else if item.EmptyItem? && !Inserts(g) {
      EffectRemoves(g, key);
    } else {
      ManyActions(item, g, b, n, k);
    }
  }

  ghost predicate Several(item: Item, g: seq<Action>, b: Byte, n: nat) {
    && Valid(item, n) && Batch(g, n + 1) && (forall i :: 0 <= i < |g| ==> g[i].key[0] == b)
    && |g| > 1 && (item.EmptyItem? ==> Inserts(g))
  }

  lemma SeveralIs(item: Item, g: seq<Action>, b: Byte, n: nat) returns (start: Node, t: seq<Action>)
    requires Several(item, g, b, n)
    ensures n > 0 && Batch(t, n) && ValidNode(start, n - 1)
    ensures var r := MakeActions(start, t, n - 1);
            NewItem(item, g, b, n) == if r.None? then item else Compact(r.value, [])
    ensures forall k: Key :: |k| == n ==> ReadNode(start, k) == Read(item, k)
    ensures forall k: Key, was :: Effect(t, k, was) == Effect(g, [b] + k, was)
  {
    TrimBatch(g, b, n);
    NodeFromValid(item, n);
    start, t := NodeFrom(item), Trim(g);
    forall k: Key | |k| == n ensures ReadNode(start, k) == Read(item, k) {
      NodeFromReads(item, k);
    }
    forall k: Key, was ensures Effect(t, k, was) == Effect(g, [b] + k, was) {
      EffectTrim(g, [b] + k, was);
      assert ([b] + k)[1..] == k;
    }
  }

  lemma {:induction false} ManyActions(item: Item, g: seq<Action>, b: Byte, n: nat, k: Key)
    requires Several(item, g, b, n) && |k| == n
    ensures Read(NewItem(item, g, b, n), k) == Effect(g, [b] + k, Read(item, k))
    decreases n, 0
  {
    var start, t := SeveralIs(item, g, b, n);
    hide Several, Batch, NewItem, MakeActions, Effect, Compact;
    MakeActionsReads(start, t, n - 1, k);
    var r := MakeActions(start, t, n - 1);
    if r.Some? {
      CompactedReads(r.value, k);
    }
  }

  lemma CompactedReads(node: Node, k: Key)
    requires k != [] && ValidNode(node, |k| - 1)
    ensures Read(Compact(node, []), k) == ReadNode(node, k)
  {
    CompactReads(node, [], k);
    assert k[0..] == k;
  }

  lemma OneAction(item: Item, a: Action, b: Byte, n: nat, k: Key)
    requires Valid(item, n) && |a.key| == n + 1 && a.key[0] == b && |k| == n
    ensures Read(NewItem(item, [a], b, n), k) == Effect([a], [b] + k, Read(item, k))
  {
    var key := [b] + k;
    assert a.key == [b] + a.key[1..];
    assert a.key == key <==> a.key[1..] == k;
    if a.Insert? {
      UpdateReads(item, a.key[1..], a.hash, k);
    } else {
      DeleteReads(item, a.key[1..], k);
    }
  }

  lemma {:induction false} NewItemsAt(node: Node, actions: seq<Action>, n: nat, k: nat, i: nat)
    requires ValidNode(node, n) && Batch(actions, n + 1) && i < k <= NUM_ITEMS
    ensures Batch(Group(actions, i), n + 1)
    ensures NewItems(node, actions, n, k)[i] == NewItem(node[i], Group(actions, i), i, n)
    decreases k
  {
    GroupBatch(actions, i, n + 1);
    if i < k - 1 {
      NewItemsAt(node, actions, n, k - 1, i);
    }
  }

  lemma {:induction false} MakeActionsReads(node: Node, actions: seq<Action>, n: nat, k: Key)
    requires ValidNode(node, n) && Batch(actions, n + 1) && |k| == n + 1
    ensures var r := MakeActions(node, actions, n);
            ReadNode(if r.None? then node else r.value, k) == Effect(actions, k, ReadNode(node, k))
    decreases n, 2
  {
    var i := k[0];
    var new_ := NewItems(node, actions, n, NUM_ITEMS);
    NewItemsAt(node, actions, n, NUM_ITEMS, i);
    NewItemReads(node[i], Group(actions, i), i, n, k[1..]);
    EffectGroup(actions, k, ReadNode(node, k));
    assert k == [i] + k[1..];
  }

  // ------------------------------------------------------------------
  // Histories
  // ------------------------------------------------------------------

  // The root node after a batch.
  function Process(node: Node, actions: seq<Action>, n: nat): (r: Node)
    requires ValidNode(node, n) && Batch(actions, n + 1)
    ensures ValidNode(r, n)
  {
    var new_ := MakeActions(node, actions, n);
    if new_.None? then node else new_.value
  }

  lemma ProcessReads(node: Node, actions: seq<Action>, n: nat, k: Key)
    requires ValidNode(node, n) && Batch(actions, n + 1) && |k| == n + 1
    ensures ReadNode(Process(node, actions, n), k) == Effect(actions, k, ReadNode(node, k))
  {
    MakeActionsReads(node, actions, n, k);
  }

  ghost predicate Batches(bs: seq<seq<Action>>, n: nat) {
    forall i :: 0 <= i < |bs| ==> Batch(bs[i], n + 1)
  }

  lemma EmptyValid(n: nat)
    ensures ValidNode(EmptyNode(), n)
  {
  }

  // The root node of a history: batches processed one after the other, from the empty node.
  function Root(bs: seq<seq<Action>>, n: nat): (r: Node)
    requires Batches(bs, n)
    ensures ValidNode(r, n)
  {
    if bs == [] then EmptyValid(n); EmptyNode()
    else Process(Root(bs[..|bs| - 1], n), bs[|bs| - 1], n)
  }

  // What a history says about a key, without any tree.
  function State(bs: seq<seq<Action>>, k: Key): Option<Value> {
    if bs == [] then None else Effect(bs[|bs| - 1], k, State(bs[..|bs| - 1], k))
  }

  // Reading the tree of a history gives the last action on the key.
  lemma {:induction false} RootReads(bs: seq<seq<Action>>, n: nat, k: Key)
    requires Batches(bs, n) && |k| == n + 1
    ensures ReadNode(Root(bs, n), k) == State(bs, k)
    decreases |bs|
  {
    if bs != [] {
      var before := bs[..|bs| - 1];
      RootReads(before, n, k);
      ProcessReads(Root(before, n), bs[|bs| - 1], n, k);
    }
  }

  /**
   The tree depends on the contents only: histories that agree on every key have the same root
   node, whatever their batches, their order, and what was inserted and removed on the way.
   */
  lemma HistoryIndependent(xs: seq<seq<Action>>, ys: seq<seq<Action>>, n: nat)
    requires Batches(xs, n) && Batches(ys, n)
    ensures Root(xs, n) == Root(ys, n) <==> forall k: Key :: |k| == n + 1 ==> State(xs, k) == State(ys, k)
  {
    forall k: Key | |k| == n + 1
      ensures ReadNode(Root(xs, n), k) == State(xs, k) && ReadNode(Root(ys, n), k) == State(ys, k)
    {
      RootReads(xs, n, k);
      RootReads(ys, n, k);
    }
    if forall k: Key :: |k| == n + 1 ==> State(xs, k) == State(ys, k) {
      hide Root, State;
      UniqueNode(Root(xs, n), Root(ys, n), n);
    }
  }

  // One action after the other.
  function OneByOne(node: Node, actions: seq<Action>, n: nat): (r: Node)
    requires ValidNode(node, n) && Batch(actions, n + 1)
    ensures ValidNode(r, n)
    decreases |actions|
  {
    if actions == [] then node
    else Process(OneByOne(node, actions[..|actions| - 1], n), [actions[|actions| - 1]], n)
  }

  lemma {:induction false} EffectSnoc(actions: seq<Action>, a: Action, k: Key, was: Option<Value>)
    requires forall i :: 0 <= i < |actions| ==> actions[i].key != a.key
    ensures Effect(actions + [a], k, was) == if k == a.key then Outcome(a) else Effect(actions, k, was)
    decreases |actions|
  {
    if actions == [] {
      assert actions + [a] == [a];
    } else {
      EffectSnoc(actions[1..], a, k, was);
      assert (actions + [a])[1..] == actions[1..] + [a];
    }
  }

  lemma {:induction false} OneByOneReads(node: Node, actions: seq<Action>, n: nat, k: Key)
    requires ValidNode(node, n) && Batch(actions, n + 1) && |k| == n + 1
    ensures ReadNode(OneByOne(node, actions, n), k) == Effect(actions, k, ReadNode(node, k))
    decreases |actions|
  {
    if actions != [] {
      var before, a := actions[..|actions| - 1], actions[|actions| - 1];
      OneByOneReads(node, before, n, k);
      ProcessReads(OneByOne(node, before, n), [a], n, k);
      EffectSnoc(before, a, k, ReadNode(node, k));
      assert actions == before + [a];
    }
  }

  // The grouped processing of a batch builds the same tree as its actions one at a time.
  lemma BatchIsSequence(node: Node, actions: seq<Action>, n: nat)
    requires ValidNode(node, n) && Batch(actions, n + 1)
    ensures Process(node, actions, n) == OneByOne(node, actions, n)
  {
    forall k: Key | |k| == n + 1
      ensures ReadNode(Process(node, actions, n), k) == ReadNode(OneByOne(node, actions, n), k)
    {
      ProcessReads(node, actions, n, k);
      OneByOneReads(node, actions, n, k);
    }
    hide Process, OneByOne;
    UniqueNode(Process(node, actions, n), OneByOne(node, actions, n), n);
  }

  // Removing a key that was not there before its insertion restores the tree.
  lemma RemoveUndoes(node: Node, key: Key, value: Value, n: nat)
    requires ValidNode(node, n) && |key| == n + 1 && ReadNode(node, key).None?
    ensures Process(Process(node, [Insert(key, value)], n), [Remove(key)], n) == node
  {
    var mid := Process(node, [Insert(key, value)], n);
    var end := Process(mid, [Remove(key)], n);
    forall k: Key | |k| == n + 1 ensures ReadNode(end, k) == ReadNode(node, k) {
      ProcessReads(node, [Insert(key, value)], n, k);
      ProcessReads(mid, [Remove(key)], n, k);
    }
    hide Process;
    UniqueNode(end, node, n);
  }
}
