/**
 The radix tree that holds the state of the tuple space
 (rspace++/src/rspace/history/radix_tree.rs:16-40, 1053-1630).

 Nodes have 256 items, one for each next byte of a key.  Here a node pointer holds the node it
 points to; module RadixStore has the pointers.  All keys have the same length.
 */
module Radix {
  import opened Wrappers

  type Byte = b: nat | b < 256
  type Key = seq<Byte>
  type Value = seq<Byte>

  datatype Item = EmptyItem | Leaf(prefix: Key, value: Value) | NodePtr(prefix: Key, node: seq<Item>)

  type Node = seq<Item>

  const NUM_ITEMS: nat := 256

  function EmptyNode(): (n: Node)
    ensures |n| == NUM_ITEMS && forall i :: 0 <= i < NUM_ITEMS ==> n[i] == EmptyItem
  {
    seq(NUM_ITEMS, i => EmptyItem)
  }

  // ------------------------------------------------------------------
  // Reading
  // ------------------------------------------------------------------

  // read_at_cached, from the item selected by the first byte of the key
  function Read(item: Item, key: Key): Option<Value>
    decreases item
  {
    match item
    case EmptyItem => None
    case Leaf(prefix, value) => if prefix == key then Some(value) else None
    case NodePtr(prefix, node) =>
      if prefix <= key then ReadNode(node, key[|prefix|..]) else None
  }

  function ReadNode(node: Node, key: Key): Option<Value>
    decreases node
  {
    if key == [] || |node| != NUM_ITEMS then None else Read(node[key[0]], key[1..])
  }

  // ------------------------------------------------------------------
  // Canonical trees
  // ------------------------------------------------------------------

  // The item holds keys of length n; nodes behind pointers have at least two items.
  ghost predicate Valid(item: Item, n: nat)
    decreases item
  {
    match item
    case EmptyItem => true
    case Leaf(prefix, _) => |prefix| == n
    case NodePtr(prefix, node) =>
      |prefix| < n && Branches(node) && ValidNode(node, n - |prefix| - 1)
  }

  // The node holds keys of length n + 1.
  ghost predicate ValidNode(node: Node, n: nat)
    decreases node
  {
    |node| == NUM_ITEMS && forall i :: 0 <= i < NUM_ITEMS ==> Valid(node[i], n)
  }

  ghost predicate Branches(node: Node) {
    exists i, j :: 0 <= i < j < |node| && node[i] != EmptyItem && node[j] != EmptyItem
  }

  // ------------------------------------------------------------------
  // Prefixes
  // ------------------------------------------------------------------

  // common_prefix: the length of the common part
  function Common(a: Key, b: Key): (c: nat)
    ensures c <= |a| && c <= |b| && a[..c] == b[..c]
    ensures c < |a| && c < |b| ==> a[c] != b[c]
  {
    if a == [] || b == [] || a[0] != b[0] then 0
    else
      var c := 1 + Common(a[1..], b[1..]);
      assert a[..c] == [a[0]] + a[1..][..c - 1] && b[..c] == [b[0]] + b[1..][..c - 1];
      c
  }

  // ------------------------------------------------------------------
  // Updating
  // ------------------------------------------------------------------

  // A node with two items.
  function Pair(i: Byte, x: Item, j: Byte, y: Item): (n: Node)
    ensures |n| == NUM_ITEMS
  {
    EmptyNode()[i := x][j := y]
  }

  // A new leaf beside another item, which follows byte b behind the c bytes that both have in common.
  function Fork(b: Byte, other: Item, key: Key, value: Value, c: nat): Item
    requires c < |key|
  {
    NodePtr(key[..c], Pair(b, other, key[c], Leaf(key[c + 1..], value)))
  }

  // update; None if nothing changes
  function Update(item: Item, key: Key, value: Value): Option<Item>
    requires Valid(item, |key|)
    decreases item
  {
    match item
    case EmptyItem => Some(Leaf(key, value))
    case Leaf(prefix, was) =>
      if prefix == key then (if value == was then None else Some(Leaf(key, value)))
      else
        Parted(key, prefix);
        var c := Common(key, prefix);
        Some(Fork(prefix[c], Leaf(prefix[c + 1..], was), key, value, c))
    case NodePtr(prefix, node) =>
      var c := Common(key, prefix);
      if c == |prefix| then
        var i := key[c];
        assert ValidNode(node, |key| - c - 1);
        assert Valid(node[i], |key[c + 1..]|);
        var child := Update(node[i], key[c + 1..], value);
        if child.None? then None else Some(NodePtr(prefix, node[i := child.value]))
      else
        Some(Fork(prefix[c], NodePtr(prefix[c + 1..], node), key, value, c))
  }

  lemma Parted(a: Key, b: Key)
    requires |a| == |b| && a != b
    ensures Common(a, b) < |a|
  {
    assert a[..|a|] == a && b[..|b|] == b;
  }

  // ------------------------------------------------------------------
  // Deleting
  // ------------------------------------------------------------------

  // The first non-empty item, from k on.
  function First(node: Node, k: nat): (r: nat)
    requires k <= |node|
    ensures k <= r <= |node| && (r < |node| ==> node[r] != EmptyItem)
    ensures forall i :: k <= i < r ==> node[i] == EmptyItem
    decreases |node| - k
  {
    if k == |node| || node[k] != EmptyItem then k else First(node, k + 1)
  }

  // save_node_and_create_item with compaction: a node with a single item is merged into its parent.
  function Compact(node: Node, prefix: Key): Item
    requires |node| == NUM_ITEMS
  {
    var i := First(node, 0);
    if i == NUM_ITEMS then EmptyItem
    else if First(node, i + 1) < NUM_ITEMS then NodePtr(prefix, node)
    else Lengthened(prefix, i, node[i])
  }

  // The item that follows byte i, moved up one node.
  function Lengthened(prefix: Key, i: Byte, item: Item): Item {
    match item
    case EmptyItem => EmptyItem
    case Leaf(p, v) => Leaf(prefix + [i] + p, v)
    case NodePtr(p, child) => NodePtr(prefix + [i] + p, child)
  }

  // delete; None if the key is not there
  function Delete(item: Item, key: Key): Option<Item>
    requires Valid(item, |key|)
    decreases item
  {
    match item
    case EmptyItem => None
    case Leaf(prefix, _) => if prefix == key then Some(EmptyItem) else None
    case NodePtr(prefix, node) =>
      var c := Common(key, prefix);
      if c < |prefix| then None
      else
        var i := key[c];
        assert ValidNode(node, |key| - c - 1);
        assert Valid(node[i], |key[c + 1..]|);
        var child := Delete(node[i], key[c + 1..]);
        if child.None? then None else Some(Compact(node[i := child.value], prefix))
  }

  // ------------------------------------------------------------------
  // Update is insertion into a map
  // ------------------------------------------------------------------

  lemma PairAt(i: Byte, x: Item, j: Byte, y: Item, k: Byte)
    ensures i != j ==> Pair(i, x, j, y)[k] == if k == j then y else if k == i then x else EmptyItem
  {
  }

  // What a pointer finds.
  lemma ReadPtr(prefix: Key, node: Node, key: Key)
    requires |node| == NUM_ITEMS && |prefix| < |key|
    ensures Read(NodePtr(prefix, node), key) ==
            if prefix <= key then Read(node[key[|prefix|]], key[|prefix| + 1..]) else None
  {
    if prefix <= key {
      var rest := key[|prefix|..];
      assert rest[0] == key[|prefix|] && rest[1..] == key[|prefix| + 1..];
    }
  }

  // A key, in three pieces.
  lemma Pieces(a: Key, k: Key, c: nat)
    requires c < |a| <= |k|
    ensures a <= k <==> a[..c] == k[..c] && a[c] == k[c] && a[c + 1..] <= k[c + 1..]
    ensures |a| == |k| ==> (a == k <==> a[..c] == k[..c] && a[c] == k[c] && a[c + 1..] == k[c + 1..])
  {
    assert a == a[..c] + [a[c]] + a[c + 1..];
    assert k == k[..c] + [k[c]] + k[c + 1..];
    if a <= k {
      var at, kt := a[c + 1..], k[c + 1..];
      assert forall i :: 0 <= i < |a| ==> a[i] == k[i];
      assert forall i :: 0 <= i < |at| ==> at[i] == kt[i];
    }
    if a[..c] == k[..c] && a[c] == k[c] && a[c + 1..] <= k[c + 1..] {
      forall i | 0 <= i < |a| ensures a[i] == k[i] {
        if i < c {
          assert a[..c][i] == k[..c][i];
        } else if i > c {
          assert a[c + 1..][i - c - 1] == k[c + 1..][i - c - 1];
        }
      }
    }
  }

  lemma ForkValid(b: Byte, other: Item, key: Key, value: Value, c: nat)
    requires c < |key| && b != key[c] && other != EmptyItem && Valid(other, |key| - c - 1)
    ensures Valid(Fork(b, other, key, value, c), |key|)
  {
    PairValid(b, other, key[c], Leaf(key[c + 1..], value), |key| - c - 1);
  }

  lemma ForkReads(b: Byte, other: Item, key: Key, value: Value, c: nat, k: Key)
    requires c < |key| == |k| && b != key[c]
    ensures Read(Fork(b, other, key, value, c), k) ==
            if k == key then Some(value)
            else if k[..c] == key[..c] && k[c] == b then Read(other, k[c + 1..])
            else None
  {
    var node := Pair(b, other, key[c], Leaf(key[c + 1..], value));
    ReadPtr(key[..c], node, k);
    PairAt(b, other, key[c], Leaf(key[c + 1..], value), k[c]);
    Pieces(key, k, c);
    assert key[..c] <= k <==> k[..c] == key[..c];
  }

  lemma {:induction false} UpdateValid(item: Item, key: Key, value: Value)
    requires Valid(item, |key|)
    ensures Update(item, key, value).Some? ==>
              Valid(Update(item, key, value).value, |key|) && Update(item, key, value).value != EmptyItem
    decreases item
  {
    match item
    case EmptyItem =>
    case Leaf(prefix, was) =>
      if prefix != key {
        Parted(key, prefix);
        var c := Common(key, prefix);
        ForkValid(prefix[c], Leaf(prefix[c + 1..], was), key, value, c);
      }
    case NodePtr(prefix, node) =>
      var c := Common(key, prefix);
      assert ValidNode(node, |key| - |prefix| - 1);
      if c == |prefix| {
        var i := key[c];
        assert Valid(node[i], |key[c + 1..]|);
        UpdateValid(node[i], key[c + 1..], value);
        var child := Update(node[i], key[c + 1..], value);
        hide Update, ValidNode;
        if child.Some? {
          ReplaceValid(node, i, child.value, |key| - |prefix| - 1);
        }
      } else {
        hide Update, ValidNode;
        ForkValid(prefix[c], NodePtr(prefix[c + 1..], node), key, value, c);
      }
  }

  // The item after an update.
  function Updated(item: Item, key: Key, value: Value): Item
    requires Valid(item, |key|)
  {
    var r := Update(item, key, value);
    if r.None? then item else r.value
  }

  // Insertion: the new value at its key, all other keys as before; None says that nothing changed.
  lemma {:induction false} UpdateReads(item: Item, key: Key, value: Value, k: Key)
    requires Valid(item, |key|) && |k| == |key|
    ensures Read(Updated(item, key, value), k) == if k == key then Some(value) else Read(item, k)
    decreases item
  {
    match item
    case EmptyItem =>
    case Leaf(prefix, was) =>
      if prefix != key {
        Parted(key, prefix);
        var c := Common(key, prefix);
        ForkReads(prefix[c], Leaf(prefix[c + 1..], was), key, value, c, k);
        Pieces(prefix, k, c);
      }
    case NodePtr(prefix, node) =>
      var c := Common(key, prefix);
      assert ValidNode(node, |key| - |prefix| - 1);
      if c == |prefix| {
        UpdateChildReads(prefix, node, key, value, k);
      } else {
        ForkReads(prefix[c], NodePtr(prefix[c + 1..], node), key, value, c, k);
        PtrPieces(prefix, node, c, k);
      }
  }

  // A shortened pointer finds what the whole one does, behind the bytes cut off.
  lemma PtrPieces(prefix: Key, node: Node, c: nat, k: Key)
    requires c < |prefix| < |k| && |node| == NUM_ITEMS
    ensures Read(NodePtr(prefix, node), k) ==
            if prefix[..c] == k[..c] && prefix[c] == k[c] then Read(NodePtr(prefix[c + 1..], node), k[c + 1..]) else None
  {
    Pieces(prefix, k, c);
    ReadPtr(prefix, node, k);
    ReadPtr(prefix[c + 1..], node, k[c + 1..]);
    var m := |prefix| - c - 1;
    assert k[c + 1..][m] == k[|prefix|] && k[c + 1..][m + 1..] == k[|prefix| + 1..];
  }

  lemma {:induction false} UpdateChildReads(prefix: Key, node: Node, key: Key, value: Value, k: Key)
    requires Valid(NodePtr(prefix, node), |key|) && |k| == |key| && Common(key, prefix) == |prefix|
    ensures var item := NodePtr(prefix, node);
            Read(Updated(item, key, value), k) == if k == key then Some(value) else Read(item, k)
    decreases node
  {
    var c, i := |prefix|, key[|prefix|];
    assert ValidNode(node, |key| - c - 1);
    var child := Update(node[i], key[c + 1..], value);
    UpdateReads(node[i], key[c + 1..], value, k[c + 1..]);
    var item' := Updated(node[i], key[c + 1..], value);
    assert Updated(NodePtr(prefix, node), key, value) == NodePtr(prefix, node[i := item']) by {
      assert node[i := node[i]] == node;
    }
    hide Update, Updated, Valid;
    assert prefix <= key;
    ReplaceReads(prefix, node, key, item', Some(value), k);
  }

  // A node whose item for one key is replaced by one that differs at that key only.
  lemma ReplaceReads(prefix: Key, node: Node, key: Key, item': Item, v: Option<Value>, k: Key)
    requires |node| == NUM_ITEMS && |prefix| < |key| == |k| && prefix <= key
    requires var c := |prefix|;
             Read(item', k[c + 1..]) == if k[c + 1..] == key[c + 1..] then v else Read(node[key[c]], k[c + 1..])
    ensures Read(NodePtr(prefix, node[key[|prefix|] := item']), k)
         == if k == key then v else Read(NodePtr(prefix, node), k)
  {
    var c, i := |prefix|, key[|prefix|];
    ReadPtr(prefix, node, k);
    ReadPtr(prefix, node[i := item'], k);
    Pieces(key, k, c);
    assert prefix == key[..c];
    assert prefix <= k <==> k[..c] == key[..c];
  }

  lemma PairValid(i: Byte, x: Item, j: Byte, y: Item, n: nat)
    requires i != j && x != EmptyItem && y != EmptyItem && Valid(x, n) && Valid(y, n)
    ensures ValidNode(Pair(i, x, j, y), n) && Branches(Pair(i, x, j, y))
  {
    var node := Pair(i, x, j, y);
    assert node[i] == x && node[j] == y;
    if i < j {
      assert node[i] != EmptyItem && node[j] != EmptyItem;
    } else {
      assert node[j] != EmptyItem && node[i] != EmptyItem;
    }
  }

  lemma ReplaceValid(node: Node, i: Byte, item: Item, n: nat)
    requires ValidNode(node, n) && Branches(node) && Valid(item, n) && item != EmptyItem
    ensures ValidNode(node[i := item], n) && Branches(node[i := item])
  {
    var a, b :| 0 <= a < b < |node| && node[a] != EmptyItem && node[b] != EmptyItem;
    var new_ := node[i := item];
    assert new_[a] != EmptyItem && new_[b] != EmptyItem;
  }

  lemma {:induction false} UpdateNone(item: Item, key: Key, value: Value)
    requires Valid(item, |key|)
    ensures Update(item, key, value).None? <==> Read(item, key) == Some(value)
    decreases item
  {
    match item
    case EmptyItem =>
    case Leaf(prefix, _) =>
    case NodePtr(prefix, node) =>
      var c := Common(key, prefix);
      assert ValidNode(node, |key| - |prefix| - 1);
      ReadPtr(prefix, node, key);
      if c == |prefix| {
        assert prefix <= key;
        UpdateNone(node[key[c]], key[c + 1..], value);
      } else {
        assert key[c] != prefix[c];
      }
  }

  // ------------------------------------------------------------------
  // Delete is removal from a map
  // ------------------------------------------------------------------

  // The only item of a node.
  lemma Only(node: Node, i: nat)
    requires |node| == NUM_ITEMS && i == First(node, 0) < NUM_ITEMS && First(node, i + 1) == NUM_ITEMS
    ensures node[i] != EmptyItem && forall j :: 0 <= j < NUM_ITEMS && j != i ==> node[j] == EmptyItem
  {
  }

  lemma CompactValid(node: Node, prefix: Key, n: nat)
    requires |prefix| < n && ValidNode(node, n - |prefix| - 1)
    ensures Valid(Compact(node, prefix), n)
  {
    var i := First(node, 0);
    if i < NUM_ITEMS {
      var j := First(node, i + 1);
      if j < NUM_ITEMS {
        assert node[i] != EmptyItem && node[j] != EmptyItem;
        assert Branches(node);
      } else {
        assert Valid(node[i], n - |prefix| - 1);
      }
    }
  }

  lemma LengthenedReads(prefix: Key, i: Byte, item: Item, k: Key)
    requires |prefix| < |k| && Valid(item, |k| - |prefix| - 1)
    ensures Read(Lengthened(prefix, i, item), k) ==
            if prefix <= k && k[|prefix|] == i then Read(item, k[|prefix| + 1..]) else None
  {
    var c := |prefix|;
    assert k[..c] == prefix <==> prefix <= k;
    match item
    case EmptyItem =>
    case Leaf(p, v) =>
      var q := prefix + [i] + p;
      assert q[..c] == prefix && q[c] == i && q[c + 1..] == p;
      Pieces(q, k, c);
    case NodePtr(p, child) =>
      var q := prefix + [i] + p;
      assert q[..c] == prefix && q[c] == i && q[c + 1..] == p;
      PtrPieces(q, child, c, k);
  }

  // Compaction does not change what can be read.
  lemma CompactReads(node: Node, prefix: Key, k: Key)
    requires |prefix| < |k| && ValidNode(node, |k| - |prefix| - 1)
    ensures Read(Compact(node, prefix), k) == Read(NodePtr(prefix, node), k)
  {
    var i := First(node, 0);
    ReadPtr(prefix, node, k);
    if i < NUM_ITEMS && First(node, i + 1) == NUM_ITEMS {
      Only(node, i);
      assert Compact(node, prefix) == Lengthened(prefix, i, node[i]);
      LengthenedReads(prefix, i, node[i], k);
      hide Compact, Lengthened, Valid, First;
    }
  }

  lemma CompactSlot(node: Node, prefix: Key, i: Byte, item: Item, n: nat)
    requires |prefix| < n && ValidNode(node, n - |prefix| - 1) && Valid(item, n - |prefix| - 1)
    ensures Valid(Compact(node[i := item], prefix), n)
  {
    CompactValid(node[i := item], prefix, n);
  }

  lemma {:induction false} DeleteValid(item: Item, key: Key)
    requires Valid(item, |key|)
    ensures Delete(item, key).Some? ==> Valid(Delete(item, key).value, |key|)
    decreases item
  {
    if item.NodePtr? {
      var c := Common(key, item.prefix);
      assert ValidNode(item.node, |key| - |item.prefix| - 1);
      if c == |item.prefix| {
        DeleteValid(item.node[key[c]], key[c + 1..]);
        var child := Delete(item.node[key[c]], key[c + 1..]);
        if child.Some? {
          CompactSlot(item.node, item.prefix, key[c], child.value, |key|);
        }
      }
    }
  }

  function Deleted(item: Item, key: Key): Item
    requires Valid(item, |key|)
  {
    var r := Delete(item, key);
    if r.None? then item else r.value
  }

  lemma {:induction false} DeleteNone(item: Item, key: Key)
    requires Valid(item, |key|)
    ensures Delete(item, key).None? <==> Read(item, key).None?
    decreases item
  {
    if item.NodePtr? {
      var prefix, node, c := item.prefix, item.node, Common(key, item.prefix);
      assert ValidNode(node, |key| - |prefix| - 1);
      ReadPtr(prefix, node, key);
      if c == |prefix| {
        assert prefix <= key;
        DeleteNone(node[key[c]], key[c + 1..]);
      } else {
        assert key[c] != prefix[c];
      }
    }
  }

  lemma DeleteStep(prefix: Key, t: Node, key: Key)
    requires Valid(NodePtr(prefix, t), |key|) && Common(key, prefix) == |prefix|
    ensures |t| == NUM_ITEMS && ValidNode(t, |key| - |prefix| - 1) && Valid(t[key[|prefix|]], |key[|prefix| + 1..]|)
    ensures var u := Delete(t[key[|prefix|]], key[|prefix| + 1..]);
            && (u.None? ==> Delete(NodePtr(prefix, t), key).None?)
            && (u.Some? ==> Delete(NodePtr(prefix, t), key) == Some(Compact(t[key[|prefix|] := u.value], prefix)))
  {
    hide Compact;
    var c, i := |prefix|, key[|prefix|];
    assert ValidNode(t, |key| - c - 1);
    assert Valid(t[i], |key[c + 1..]|);
    var u := Delete(t[i], key[c + 1..]);
    assert Delete(NodePtr(prefix, t), key) == if u.None? then None else Some(Compact(t[i := u.value], prefix));
  }

  lemma SlotValid(node: Node, i: Byte, item: Item, n: nat)
    requires ValidNode(node, n) && Valid(item, n)
    ensures ValidNode(node[i := item], n)
  {
    hide Valid;
  }

  lemma SlotDeleted(prefix: Key, node: Node, key: Key, child: Item, k: Key)
    requires Valid(NodePtr(prefix, node), |key|) && |k| == |key| && Common(key, prefix) == |prefix| && prefix <= key
    requires var c := |prefix|;
             && |node| == NUM_ITEMS && Valid(node[key[c]], |key[c + 1..]|)
             && Delete(node[key[c]], key[c + 1..]) == Some(child) && Valid(child, |key[c + 1..]|)
             && Read(child, k[c + 1..]) == if k[c + 1..] == key[c + 1..] then None else Read(node[key[c]], k[c + 1..])
    ensures Read(Deleted(NodePtr(prefix, node), key), k) == if k == key then None else Read(NodePtr(prefix, node), k)
  {
    var c := |prefix|;
    var node' := node[key[c] := child];
    assert Deleted(NodePtr(prefix, node), key) == Compact(node', prefix) by {
      hide Delete, Valid, ValidNode, Compact, Read;
      DeleteStep(prefix, node, key);
    }
    hide *;
    DeleteStep(prefix, node, key);
    SlotValid(node, key[c], child, |key| - c - 1);
    CompactReads(node', prefix, k);
    ReplaceReads(prefix, node, key, child, None, k);
  }

  // Removal: nothing at the key, all other keys as before; None says that the key was not there.
  lemma {:induction false} DeleteReads(item: Item, key: Key, k: Key)
    requires Valid(item, |key|) && |k| == |key|
    ensures Read(Deleted(item, key), k) == if k == key then None else Read(item, k)
    decreases item
  {
    DeleteNone(item, key);
    if item.NodePtr? && Delete(item, key).Some? {
      var prefix, node, c := item.prefix, item.node, |item.prefix|;
      assert Common(key, prefix) == c && prefix <= key;
      DeleteStep(prefix, node, key);
      hide Delete, Compact, Read, ValidNode;
      DeleteReads(node[key[c]], key[c + 1..], k[c + 1..]);
      DeleteValid(node[key[c]], key[c + 1..]);
      assert Deleted(node[key[c]], key[c + 1..]) == Delete(node[key[c]], key[c + 1..]).value;
      SlotDeleted(prefix, node, key, Delete(node[key[c]], key[c + 1..]).value, k);
    }
  }

  // ------------------------------------------------------------------
  // A canonical tree is determined by what can be read from it
  // ------------------------------------------------------------------

  ghost predicate SameReads(a: Item, b: Item, n: nat) {
    forall k: Key :: |k| == n ==> Read(a, k) == Read(b, k)
  }

  lemma {:induction false} Inhabited(item: Item, n: nat) returns (k: Key)
    requires Valid(item, n) && item != EmptyItem
    ensures |k| == n && Read(item, k).Some?
    decreases item
  {
    match item
    case Leaf(prefix, _) => k := prefix;
    case NodePtr(prefix, node) =>
      var i, j :| 0 <= i < j < |node| && node[i] != EmptyItem && node[j] != EmptyItem;
      k := Under(prefix, node, i, n);
  }

  // A key that goes through item i of a node.
  lemma {:induction false} Under(prefix: Key, node: Node, i: Byte, n: nat) returns (k: Key)
    requires |prefix| < n && ValidNode(node, n - |prefix| - 1) && node[i] != EmptyItem
    ensures |k| == n && prefix <= k && k[|prefix|] == i && Read(NodePtr(prefix, node), k).Some?
    decreases node
  {
    assert Valid(node[i], n - |prefix| - 1);
    var r := Inhabited(node[i], n - |prefix| - 1);
    k := prefix + [i] + r;
    ReadPtr(prefix, node, k);
    assert k[|prefix| + 1..] == r;
  }

  // The prefix of a pointer is all that its keys have in common.
  lemma PrefixShort(prefix: Key, node: Node, b: Item, n: nat)
    requires Valid(NodePtr(prefix, node), n) && Valid(b, n) && SameReads(NodePtr(prefix, node), b, n)
    ensures b.NodePtr? && |b.prefix| <= |prefix| && b.prefix <= prefix
  {
    var i, j :| 0 <= i < j < |node| && node[i] != EmptyItem && node[j] != EmptyItem;
    var x := Under(prefix, node, i, n);
    var y := Under(prefix, node, j, n);
    assert Read(b, x).Some? && Read(b, y).Some?;
    assert x[|prefix|] != y[|prefix|];
    assert b != EmptyItem;
    var q := b.prefix;
    assert b.Leaf? ==> q == x && q == y;
    assert forall m :: 0 <= m < |q| ==> q[m] == x[m] == y[m];
    assert forall m :: 0 <= m < |q| && m < |prefix| ==> q[m] == prefix[m];
  }

  lemma {:induction false} Unique(a: Item, b: Item, n: nat)
    requires Valid(a, n) && Valid(b, n) && SameReads(a, b, n)
    ensures a == b
    decreases a
  {
    match a
    case EmptyItem =>
      if b != EmptyItem {
        var k := Inhabited(b, n);
      }
    case Leaf(prefix, v) =>
      assert Read(b, prefix) == Some(v);
      if b.NodePtr? {
        PrefixShort(b.prefix, b.node, a, n);
      }
    case NodePtr(prefix, node) =>
      PrefixShort(prefix, node, b, n);
      PrefixShort(b.prefix, b.node, a, n);
      assert prefix == b.prefix;
      forall i | 0 <= i < NUM_ITEMS ensures node[i] == b.node[i] {
        SameBelow(prefix, node, b.node, i, n);
        Unique(node[i], b.node[i], n - |prefix| - 1);
      }
      assert node == b.node;
  }

  lemma SameBelow(prefix: Key, a: Node, b: Node, i: Byte, n: nat)
    requires |prefix| < n && |a| == |b| == NUM_ITEMS && SameReads(NodePtr(prefix, a), NodePtr(prefix, b), n)
    ensures SameReads(a[i], b[i], n - |prefix| - 1)
  {
    forall r: Key | |r| == n - |prefix| - 1 ensures Read(a[i], r) == Read(b[i], r) {
      var k := prefix + [i] + r;
      ReadPtr(prefix, a, k);
      ReadPtr(prefix, b, k);
      assert k[|prefix| + 1..] == r;
      assert Read(NodePtr(prefix, a), k) == Read(NodePtr(prefix, b), k);
    }
  }

  // The same for whole trees.
  lemma UniqueNode(a: Node, b: Node, n: nat)
    requires ValidNode(a, n) && ValidNode(b, n)
    requires forall k: Key :: |k| == n + 1 ==> ReadNode(a, k) == ReadNode(b, k)
    ensures a == b
  {
    forall i | 0 <= i < NUM_ITEMS ensures a[i] == b[i] {
      forall r: Key | |r| == n ensures Read(a[i], r) == Read(b[i], r) {
        var k: Key := [i] + r;
        assert k[0] == i && k[1..] == r;
        assert ReadNode(a, k) == ReadNode(b, k);
      }
      Unique(a[i], b[i], n);
    }
  }
}
