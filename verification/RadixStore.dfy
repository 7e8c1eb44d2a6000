/**
 The radix tree over a key-value store (rspace++/src/rspace/history/radix_tree.rs:830-1250 and
 1251-1430): a node is stored under the hash of its serialization, and items point to nodes
 by that hash.

 Cache and database are one map here.  A node whose key is taken by other bytes is a collision,
 which the code answers with a panic or an error.
 */
module RadixStore {
  import opened Wrappers
  import opened Radix
  import opened NodeCodec

  type Store = map<Bytes, Bytes>

  type Digest = Bytes -> Bytes

  const MAX_KEY: nat := 127

  // ------------------------------------------------------------------
  // Trees in a store
  // ------------------------------------------------------------------

  function StoredForm(h: Digest, item: Item): Stored
    decreases item, 0
  {
    match item
    case EmptyItem => Nothing
    case Leaf(prefix, value) => Stored.Value(prefix, value)
    case NodePtr(prefix, node) => Pointer(prefix, Address(h, node))
  }

  function StoredNode(h: Digest, node: Node): (r: seq<Stored>)
    ensures |r| == |node| && forall i :: 0 <= i < |node| ==> r[i] == StoredForm(h, node[i])
    decreases node, 1
  {
    seq(|node|, i requires 0 <= i < |node| => StoredForm(h, node[i]))
  }

  // hash_node
  function Address(h: Digest, node: Node): Bytes
    decreases node, 2
  {
    var s := StoredNode(h, node);
    if EncodableNode(s) then h(Serialized(s)) else []
  }

  // Values have the size of a hash.
  ghost predicate Sized(item: Item)
    decreases item
  {
    match item
    case EmptyItem => true
    case Leaf(_, value) => |value| == DEF_SIZE
    case NodePtr(_, node) => forall i :: 0 <= i < |node| ==> Sized(node[i])
  }

  ghost predicate SizedNode(node: Node) {
    forall i :: 0 <= i < |node| ==> Sized(node[i])
  }

  ghost predicate Digests(h: Digest) {
    forall b :: |h(b)| == DEF_SIZE
  }

  // Every node below the item is in the store, under its hash.
  ghost predicate Held(st: Store, h: Digest, item: Item)
    decreases item
  {
    item.NodePtr? ==>
      && Kept(st, h, item.node)
      && forall i :: 0 <= i < |item.node| ==> Held(st, h, item.node[i])
  }

  ghost predicate Kept(st: Store, h: Digest, node: Node) {
    var s := StoredNode(h, node);
    EncodableNode(s) && Address(h, node) in st && st[Address(h, node)] == Serialized(s)
  }

  ghost predicate HeldItems(st: Store, h: Digest, node: Node) {
    forall i :: 0 <= i < |node| ==> Held(st, h, node[i])
  }

  // Everything is stored under its hash.
  ghost predicate Sound(st: Store, h: Digest) {
    forall p :: p in st ==> h(st[p]) == p
  }

  // The hash has a collision.
  ghost predicate Collides(h: Digest) {
    exists a, b :: a != b && h(a) == h(b)
  }

  // A method has gone well, or it has met a collision of the hash.
  ghost predicate Honest(st: Store, st': Store, h: Digest, collision: bool) {
    Sound(st, h) ==> Sound(st', h) && (collision ==> Collides(h))
  }

  lemma HonestTrans(a: Store, b: Store, c: Store, h: Digest, collision: bool)
    requires Honest(a, b, h, false) && Honest(b, c, h, collision)
    ensures Honest(a, c, h, collision)
  {
  }

  ghost predicate Grows(st: Store, st': Store) {
    forall p :: p in st ==> p in st' && st'[p] == st[p]
  }

  lemma GrowsTrans(a: Store, b: Store, c: Store)
    requires Grows(a, b) && Grows(b, c)
    ensures Grows(a, c)
  {
  }

  lemma Unchanged(st: Store, h: Digest)
    ensures Grows(st, st) && Honest(st, st, h, false)
  {
  }

  lemma {:induction false} HeldGrows(st: Store, st': Store, h: Digest, item: Item)
    requires Held(st, h, item) && Grows(st, st')
    ensures Held(st', h, item)
    decreases item
  {
    if item.NodePtr? {
      forall i | 0 <= i < |item.node| ensures Held(st', h, item.node[i]) {
        HeldGrows(st, st', h, item.node[i]);
      }
    }
  }

  // Valid trees with values of the right size can be serialized.
  lemma {:induction false} Fits(h: Digest, item: Item, n: nat)
    requires Valid(item, n) && Sized(item) && n <= MAX_KEY && Digests(h)
    ensures Encodable(StoredForm(h, item))
    decreases item, 0
  {
    if item.NodePtr? {
      NodeFits(h, item.node, n - |item.prefix| - 1);
    }
  }

  lemma {:induction false} NodeFits(h: Digest, node: Node, n: nat)
    requires ValidNode(node, n) && SizedNode(node) && n <= MAX_KEY && Digests(h)
    ensures EncodableNode(StoredNode(h, node)) && |Address(h, node)| == DEF_SIZE
    decreases node, 1
  {
    forall i | 0 <= i < NUM_ITEMS ensures Encodable(StoredNode(h, node)[i]) {
      Fits(h, node[i], n);
    }
  }

  /**
   Within a store, a hash stands for one tree: two trees that are held under the same hash are
   equal, down to their leaves.
   */
  lemma {:induction false} SameAddress(st: Store, h: Digest, a: Node, b: Node)
    requires Kept(st, h, a) && HeldItems(st, h, a) && Kept(st, h, b) && HeldItems(st, h, b)
    requires Address(h, a) == Address(h, b)
    ensures a == b
    decreases a
  {
    var s, t := StoredNode(h, a), StoredNode(h, b);
    EncodeInjective(s, t);
    forall i | 0 <= i < NUM_ITEMS ensures a[i] == b[i] {
      assert s[i] == StoredForm(h, a[i]) && t[i] == StoredForm(h, b[i]);
      if a[i].NodePtr? {
        assert b[i].NodePtr?;
        SameAddress(st, h, a[i].node, b[i].node);
      }
    }
  }

  // ------------------------------------------------------------------
  // Stored nodes
  // ------------------------------------------------------------------

  function StoredPair(i: Byte, x: Stored, j: Byte, y: Stored): seq<Stored> {
    Blank()[i := x][j := y]
  }

  lemma PairStored(h: Digest, i: Byte, x: Item, j: Byte, y: Item)
    ensures StoredNode(h, Pair(i, x, j, y)) == StoredPair(i, StoredForm(h, x), j, StoredForm(h, y))
  {
    var node := Pair(i, x, j, y);
    forall k | 0 <= k < NUM_ITEMS
      ensures StoredNode(h, node)[k] == StoredPair(i, StoredForm(h, x), j, StoredForm(h, y))[k]
    {
      assert node[k] == if k == j then y else if k == i then x else EmptyItem;
    }
  }

  lemma ReplaceStored(h: Digest, node: Node, i: Byte, item: Item)
    requires |node| == NUM_ITEMS
    ensures StoredNode(h, node[i := item]) == StoredNode(h, node)[i := StoredForm(h, item)]
  {
  }

  lemma NothingStored(h: Digest, item: Item)
    ensures StoredForm(h, item) == Nothing <==> item == EmptyItem
  {
  }

  lemma {:induction false} SizedUpdate(item: Item, key: Key, value: Bytes)
    requires Valid(item, |key|) && Sized(item) && |value| == DEF_SIZE
    ensures Sized(Updated(item, key, value))
    decreases item
  {
    match item
    case EmptyItem =>
    case Leaf(prefix, was) =>
      if prefix != key {
        Parted(key, prefix);
        var c := Common(key, prefix);
        SizedPair(prefix[c], Leaf(prefix[c + 1..], was), key[c], Leaf(key[c + 1..], value));
      }
    case NodePtr(prefix, node) =>
      var c := Common(key, prefix);
      assert ValidNode(node, |key| - |prefix| - 1);
      if c == |prefix| {
        SizedUpdate(node[key[c]], key[c + 1..], value);
      } else {
        SizedPair(prefix[c], NodePtr(prefix[c + 1..], node), key[c], Leaf(key[c + 1..], value));
      }
  }

  lemma SizedPair(i: Byte, x: Item, j: Byte, y: Item)
    requires Sized(x) && Sized(y)
    ensures SizedNode(Pair(i, x, j, y))
  {
  }

  // ------------------------------------------------------------------
  // The tree
  // ------------------------------------------------------------------

  datatype Result<+T> = Ok(value: T) | Collision

  class RadixTree {
    const h: Digest
    var store: Store

    constructor (h: Digest, store: Store)
      ensures this.h == h && this.store == store
    {
      this.h := h;
      this.store := store;
    }

    // load_node
    method LoadNode(ptr: Bytes, ghost t: Node) returns (node: seq<Stored>)
      requires Kept(store, h, t) && ptr == Address(h, t)
      ensures node == StoredNode(h, t)
    {
      RoundTrip(StoredNode(h, t));
      var r := DecodeNode(store[ptr]);
      node := r.value;
    }

    // save_node
    method SaveNode(node: seq<Stored>) returns (r: Result<Bytes>)
      requires EncodableNode(node)
      modifies this
      ensures Grows(old(store), store) && Honest(old(store), store, h, r.Collision?)
      ensures r.Ok? ==> r.value == h(Serialized(node)) && store == old(store)[r.value := Serialized(node)]
      ensures r.Collision? ==>
                store == old(store) && h(Serialized(node)) in store && store[h(Serialized(node))] != Serialized(node)
    {
      var buf := EncodeNode(node);
      var bytes := buf[..];
      var ptr := h(bytes);
      if ptr in store && store[ptr] != bytes {
        assert h(store[ptr]) == ptr ==> Collides(h);
        return Collision;
      }
      store := store[ptr := bytes];
      r := Ok(ptr);
    }

    // read_at_cached
    method ReadAt(item: Stored, key: Key, ghost t: Item) returns (r: Option<Bytes>)
      requires item == StoredForm(h, t) && Held(store, h, t) && Valid(t, |key|)
      ensures r == Read(t, key)
      decreases t
    {
      match item
      case Nothing => r := None;
      case Value(prefix, value) => r := if prefix == key then Some(value) else None;
      case Pointer(prefix, ptr) =>
        if !(prefix <= key) {
          return None;
        }
        ReadPtr(prefix, t.node, key);
        var c := |prefix|;
        assert ValidNode(t.node, |key| - c - 1) && Kept(store, h, t.node) && ptr == Address(h, t.node);
        assert HeldItems(store, h, t.node);
        hide Held, Kept, Valid, Address, StoredForm, Read;
        var node := LoadNode(ptr, t.node);
        r := ReadAt(node[key[c]], key[c + 1..], t.node[key[c]]);
    }

    // save_node_and_create_item without compaction
    method SaveItem(node: seq<Stored>, prefix: Key, ghost t: Node) returns (r: Result<Stored>)
      requires node == StoredNode(h, t) && EncodableNode(node) && HeldItems(store, h, t)
      modifies this
      ensures Grows(old(store), store) && Honest(old(store), store, h, r.Collision?)
      ensures r.Ok? ==> r.value == StoredForm(h, NodePtr(prefix, t)) && Held(store, h, NodePtr(prefix, t))
    {
      ghost var before := store;
      var ptr := SaveNode(node);
      if ptr.Collision? {
        return Collision;
      }
      forall i | 0 <= i < |t| ensures Held(store, h, t[i]) {
        HeldGrows(before, store, h, t[i]);
      }
      r := Ok(Pointer(prefix, ptr.value));
    }

    // A result for the item t stands for the result o on trees.
    ghost predicate Refines(s: Option<Stored>, o: Option<Item>)
      reads this
    {
      && (s.None? <==> o.None?)
      && (o.Some? ==> s.value == StoredForm(h, o.value) && Held(store, h, o.value))
    }

    // A new leaf beside another item.
    method ForkItem(b: Byte, other: Stored, key: Key, value: Bytes, c: nat, ghost o: Item) returns (r: Result<Option<Stored>>)
      requires other == StoredForm(h, o) && Held(store, h, o) && Sized(o) && o != EmptyItem
      requires c < |key| <= MAX_KEY && b != key[c] && Valid(o, |key| - c - 1) && |value| == DEF_SIZE && Digests(h)
      modifies this
      ensures Grows(old(store), store) && Honest(old(store), store, h, r.Collision?)
      ensures r.Ok? ==> Refines(r.value, Some(Fork(b, o, key, value, c)))
    {
      ghost var t := Pair(b, o, key[c], Leaf(key[c + 1..], value));
      ForkReady(store, h, b, o, key, value, c);
      hide *;
      var x := SaveItem(StoredPair(b, other, key[c], Stored.Value(key[c + 1..], value)), key[..c], t);
      r := if x.Ok? then Ok(Some(x.value)) else Collision;
    }

    // update
    method Update(item: Stored, key: Key, value: Bytes, ghost t: Item) returns (r: Result<Option<Stored>>)
      requires item == StoredForm(h, t) && Held(store, h, t) && Valid(t, |key|) && Sized(t)
      requires |key| <= MAX_KEY && |value| == DEF_SIZE && Digests(h)
      modifies this
      ensures Grows(old(store), store) && Honest(old(store), store, h, r.Collision?)
      ensures r.Ok? ==> Refines(r.value, Radix.Update(t, key, value))
      decreases t
    {
      match item
      case Nothing => r := Ok(Some(Stored.Value(key, value)));
      case Value(prefix, was) =>
        if prefix == key {
          r := Ok(if value == was then None else Some(Stored.Value(key, value)));
        } else {
          Parted(key, prefix);
          var c := Common(key, prefix);
          ghost var o := Leaf(prefix[c + 1..], was);
          assert Radix.Update(t, key, value) == Some(Fork(prefix[c], o, key, value, c));
          assert StoredForm(h, o) == Stored.Value(prefix[c + 1..], was) && Held(store, h, o) && Sized(o);
          assert Valid(o, |key| - c - 1);
          hide Radix.Update, StoredForm, Held, Sized, Valid, Fork;
          r := ForkItem(prefix[c], Stored.Value(prefix[c + 1..], was), key, value, c, o);
        }
      case Pointer(prefix, ptr) =>
        var c := Common(key, prefix);
        if c == |prefix| {
          assert t == NodePtr(prefix, t.node) && ptr == Address(h, t.node);
          hide Radix.Update, StoredForm, Held, Sized, Valid, Fork;
          r := UpdateChild(prefix, ptr, key, value, t.node);
        } else {
          ghost var o := NodePtr(prefix[c + 1..], t.node);
          assert Radix.Update(t, key, value) == Some(Fork(prefix[c], o, key, value, c));
          assert StoredForm(h, o) == Pointer(prefix[c + 1..], ptr) && Held(store, h, o) && Sized(o);
          assert Valid(o, |key| - c - 1);
          hide Radix.Update, StoredForm, Held, Sized, Valid, Fork;
          r := ForkItem(prefix[c], Pointer(prefix[c + 1..], ptr), key, value, c, o);
        }
    }

    method UpdateChild(prefix: Key, ptr: Bytes, key: Key, value: Bytes, ghost t: Node) returns (r: Result<Option<Stored>>)
      requires ptr == Address(h, t) && Held(store, h, NodePtr(prefix, t))
      requires Valid(NodePtr(prefix, t), |key|) && Sized(NodePtr(prefix, t)) && Common(key, prefix) == |prefix|
      requires |key| <= MAX_KEY && |value| == DEF_SIZE && Digests(h)
      modifies this
      ensures Grows(old(store), store) && Honest(old(store), store, h, r.Collision?)
      ensures r.Ok? ==> Refines(r.value, Radix.Update(NodePtr(prefix, t), key, value))
      decreases t
    {
      hide Address, Valid, ValidNode, Radix.Update, EncodableNode, Encodable, Serialized, Grows, Honest, Digests, Branches;
      UpdateStep(prefix, t, key, value);
      assert HeldItems(store, h, t) && SizedNode(t) && Kept(store, h, t);
      assert Held(store, h, t[key[|prefix|]]) && Sized(t[key[|prefix|]]);
      hide Sized, Held, Kept, StoredForm, HeldItems, SizedNode;
      var node := LoadNode(ptr, t);
      var c := |prefix|;
      var i := key[c];
      ghost var before := store;
      var child := Update(node[i], key[c + 1..], value, t[i]);
      if child.Collision? {
        return Collision;
      }
      if child.value.None? {
        return Ok(None);
      }
      ghost var u := Radix.Update(t[i], key[c + 1..], value).value;
      ghost var t' := t[i := u];
      UpdatedNode(before, store, h, t, i, u, key[c + 1..], value);
      ghost var between := store;
      var x := SaveItem(node[i := child.value.value], prefix, t');
      GrowsTrans(before, between, store);
      HonestTrans(before, between, store, h, x.Collision?);
      r := if x.Ok? then Ok(Some(x.value)) else Collision;
    }

    // save_node_and_create_item with compaction
    method SaveCompact(node: seq<Stored>, prefix: Key, ghost t: Node) returns (r: Result<Stored>)
      requires |t| == NUM_ITEMS && node == StoredNode(h, t) && EncodableNode(node) && HeldItems(store, h, t)
      modifies this
      ensures Grows(old(store), store) && Honest(old(store), store, h, r.Collision?)
      ensures r.Ok? ==> r.value == StoredForm(h, Compact(t, prefix)) && Held(store, h, Compact(t, prefix))
    {
      FirstStored(h, t, 0);
      var i := FirstOf(node, 0);
      if i == NUM_ITEMS {
        return Ok(Nothing);
      }
      FirstStored(h, t, i + 1);
      if FirstOf(node, i + 1) < NUM_ITEMS {
        r := SaveItem(node, prefix, t);
      } else {
        assert Held(store, h, t[i]) && node[i] == StoredForm(h, t[i]);
        match node[i]
        case Nothing => r := Ok(Nothing);
        case Value(p, v) => r := Ok(Stored.Value(prefix + [i] + p, v));
        case Pointer(p, ptr) => r := Ok(Pointer(prefix + [i] + p, ptr));
      }
    }

    // delete
    method Remove(item: Stored, key: Key, ghost t: Item) returns (r: Result<Option<Stored>>)
      requires item == StoredForm(h, t) && Held(store, h, t) && Valid(t, |key|) && Sized(t)
      requires |key| <= MAX_KEY && Digests(h)
      modifies this
      ensures Grows(old(store), store) && Honest(old(store), store, h, r.Collision?)
      ensures r.Ok? ==> Refines(r.value, Delete(t, key))
      decreases t
    {
      match item
      case Nothing => r := Ok(None);
      case Value(prefix, _) => r := Ok(if prefix == key then Some(Nothing) else None);
      case Pointer(prefix, ptr) =>
        var c := Common(key, prefix);
        if c < |prefix| {
          r := Ok(None);
        } else {
          r := RemoveChild(prefix, ptr, key, t.node);
        }
    }

    method RemoveChild(prefix: Key, ptr: Bytes, key: Key, ghost t: Node) returns (r: Result<Option<Stored>>)
      requires ptr == Address(h, t) && Held(store, h, NodePtr(prefix, t))
      requires Valid(NodePtr(prefix, t), |key|) && Sized(NodePtr(prefix, t)) && Common(key, prefix) == |prefix|
      requires |key| <= MAX_KEY && Digests(h)
      modifies this
      ensures Grows(old(store), store) && Honest(old(store), store, h, r.Collision?)
      ensures r.Ok? ==> Refines(r.value, Delete(NodePtr(prefix, t), key))
      decreases t
    {
      assert HeldItems(store, h, t) && SizedNode(t) && Kept(store, h, t) && Branches(t);
      assert Held(store, h, t[key[|prefix|]]) && Sized(t[key[|prefix|]]);
      hide Address, Valid, ValidNode, Sized, Held, Delete, Compact, Kept, StoredForm, HeldItems, SizedNode, EncodableNode,
           Encodable, Serialized, Grows, Honest, Digests, Branches;
      DeleteStep(prefix, t, key);
      var node := LoadNode(ptr, t);
      var c := |prefix|;
      var i := key[c];
      ghost var before := store;
      var child := Remove(node[i], key[c + 1..], t[i]);
      if child.Collision? {
        return Collision;
      }
      if child.value.None? {
        return Ok(None);
      }
      ghost var u := Delete(t[i], key[c + 1..]).value;
      ghost var t' := t[i := u];
      DeletedNode(before, store, h, t, i, u, key[c + 1..]);
      ghost var between := store;
      var x := SaveCompact(node[i := child.value.value], prefix, t');
      GrowsTrans(before, between, store);
      HonestTrans(before, between, store, h, x.Collision?);
      r := if x.Ok? then Ok(Some(x.value)) else Collision;
    }
  }

  // The node of a fork can be saved.
  lemma ForkReady(st: Store, h: Digest, b: Byte, o: Item, key: Key, value: Bytes, c: nat)
    requires Held(st, h, o) && Sized(o) && o != EmptyItem
    requires c < |key| <= MAX_KEY && b != key[c] && Valid(o, |key| - c - 1) && |value| == DEF_SIZE && Digests(h)
    ensures var t := Pair(b, o, key[c], Leaf(key[c + 1..], value));
            && StoredNode(h, t) == StoredPair(b, StoredForm(h, o), key[c], Stored.Value(key[c + 1..], value))
            && EncodableNode(StoredNode(h, t)) && HeldItems(st, h, t)
            && Fork(b, o, key, value, c) == NodePtr(key[..c], t)
  {
    var leaf := Leaf(key[c + 1..], value);
    var t := Pair(b, o, key[c], leaf);
    assert Valid(leaf, |key| - c - 1) && Sized(leaf) && HeldItems(st, h, t);
    assert StoredForm(h, leaf) == Stored.Value(key[c + 1..], value);
    hide Address, Pair, StoredPair, Valid, ValidNode, Sized, SizedNode, Held, HeldItems, StoredForm, EncodableNode;
    PairValid(b, o, key[c], leaf, |key| - c - 1);
    SizedPair(b, o, key[c], leaf);
    NodeFits(h, t, |key| - c - 1);
    PairStored(h, b, o, key[c], leaf);
  }

  // A node with one item deleted, before its compaction.
  lemma DeletedNode(st: Store, st': Store, h: Digest, t: Node, i: Byte, u: Item, key: Key)
    requires ValidNode(t, |key|) && SizedNode(t) && HeldItems(st, h, t) && Grows(st, st')
    requires |key| <= MAX_KEY && Digests(h) && Delete(t[i], key) == Some(u) && Held(st', h, u)
    ensures StoredNode(h, t[i := u]) == StoredNode(h, t)[i := StoredForm(h, u)]
    ensures EncodableNode(StoredNode(h, t[i := u])) && HeldItems(st', h, t[i := u])
  {
    DeleteValid(t[i], key);
    SizedDelete(t[i], key);
    var t' := t[i := u];
    assert ValidNode(t', |key|) && SizedNode(t');
    NodeFits(h, t', |key|);
    ReplaceStored(h, t, i, u);
    HeldReplaced(st, st', h, t, i, u);
  }

  lemma UpdateStep(prefix: Key, t: Node, key: Key, value: Bytes)
    requires Valid(NodePtr(prefix, t), |key|) && Common(key, prefix) == |prefix|
    ensures var c := |prefix|;
            && c < |key| && |t| == NUM_ITEMS && Branches(t)
            && ValidNode(t, |key| - c - 1) && Valid(t[key[c]], |key| - c - 1)
            && Radix.Update(NodePtr(prefix, t), key, value) ==
               (var u := Radix.Update(t[key[c]], key[c + 1..], value);
                if u.None? then None else Some(NodePtr(prefix, t[key[c] := u.value])))
  {
    assert ValidNode(t, |key| - |prefix| - 1);
  }

  lemma SizedCompact(node: Node, prefix: Key)
    requires |node| == NUM_ITEMS && SizedNode(node)
    ensures Sized(Compact(node, prefix))
  {
    var i := First(node, 0);
    if i < NUM_ITEMS {
      assert Sized(node[i]);
    }
  }

  lemma {:induction false} SizedDelete(item: Item, key: Key)
    requires Valid(item, |key|) && Sized(item)
    ensures Sized(Deleted(item, key))
    decreases item
  {
    if item.NodePtr? && Delete(item, key).Some? {
      var c := |item.prefix|;
      assert ValidNode(item.node, |key| - c - 1);
      SizedDelete(item.node[key[c]], key[c + 1..]);
      var child := Delete(item.node[key[c]], key[c + 1..]).value;
      SizedCompact(item.node[key[c] := child], item.prefix);
    }
  }

  lemma {:induction false} FirstStored(h: Digest, t: Node, k: nat)
    requires k <= |t|
    ensures FirstOf(StoredNode(h, t), k) == First(t, k)
    decreases |t| - k
  {
    if k < |t| {
      NothingStored(h, t[k]);
      FirstStored(h, t, k + 1);
    }
  }

  function FirstOf(node: seq<Stored>, k: nat): (r: nat)
    requires k <= |node|
    ensures k <= r <= |node|
    decreases |node| - k
  {
    if k == |node| || node[k] != Nothing then k else FirstOf(node, k + 1)
  }

  // A node with one item updated can be saved again.
  lemma UpdatedNode(st: Store, st': Store, h: Digest, t: Node, i: Byte, u: Item, key: Key, value: Bytes)
    requires ValidNode(t, |key|) && Branches(t) && SizedNode(t) && HeldItems(st, h, t) && Grows(st, st')
    requires |key| <= MAX_KEY && |value| == DEF_SIZE && Digests(h)
    requires Radix.Update(t[i], key, value) == Some(u) && Held(st', h, u)
    ensures StoredNode(h, t[i := u]) == StoredNode(h, t)[i := StoredForm(h, u)]
    ensures EncodableNode(StoredNode(h, t[i := u])) && HeldItems(st', h, t[i := u])
  {
    UpdateValid(t[i], key, value);
    SizedUpdate(t[i], key, value);
    ReplaceValid(t, i, u, |key|);
    NodeFits(h, t[i := u], |key|);
    ReplaceStored(h, t, i, u);
    HeldReplaced(st, st', h, t, i, u);
  }

  lemma HeldReplaced(st: Store, st': Store, h: Digest, t: Node, i: Byte, u: Item)
    requires |t| == NUM_ITEMS && HeldItems(st, h, t) && Grows(st, st') && Held(st', h, u)
    ensures HeldItems(st', h, t[i := u])
  {
    var t' := t[i := u];
    forall k | 0 <= k < NUM_ITEMS ensures Held(st', h, t'[k]) {
      if k != i {
        HeldGrows(st, st', h, t[k]);
      }
    }
  }
}
