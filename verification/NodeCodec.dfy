/**
 Serialized radix-tree nodes (rspace++/src/rspace/history/radix_tree.rs:18-33 and 66-247).

 An item is written as its index, a byte with its kind and the length of its prefix, the prefix,
 and 32 bytes of value or pointer; empty items are not written.
 */
module NodeCodec {
  import opened Wrappers
  import opened Radix

  type Bytes = seq<Byte>

  // An item as it is stored: children by pointer.
  datatype Stored = Nothing | Value(prefix: Key, value: Bytes) | Pointer(prefix: Key, ptr: Bytes)

  const DEF_SIZE: nat := 32
  const HEAD_SIZE: nat := 2

  // What the assertions of encode demand.
  predicate Encodable(s: Stored) {
    match s
    case Nothing => true
    case Value(prefix, value) => |prefix| <= 127 && |value| == DEF_SIZE
    case Pointer(prefix, ptr) => |prefix| <= 127 && |ptr| == DEF_SIZE
  }

  predicate EncodableNode(node: seq<Stored>) {
    |node| == NUM_ITEMS && forall i :: 0 <= i < NUM_ITEMS ==> Encodable(node[i])
  }

  function Blank(): (node: seq<Stored>)
    ensures |node| == NUM_ITEMS && forall i :: 0 <= i < NUM_ITEMS ==> node[i] == Nothing
  {
    seq(NUM_ITEMS, i => Nothing)
  }

  function EncodeItem(s: Stored, i: Byte): Bytes
    requires Encodable(s)
  {
    match s
    case Nothing => []
    case Value(prefix, value) => [i, |prefix|] + prefix + value
    case Pointer(prefix, ptr) => [i, 128 + |prefix|] + prefix + ptr
  }

  // The items from index k on.
  function EncodeFrom(node: seq<Stored>, k: nat): Bytes
    requires EncodableNode(node) && k <= NUM_ITEMS
    decreases |node| - k
  {
    if k == NUM_ITEMS then [] else EncodeItem(node[k], k) + EncodeFrom(node, k + 1)
  }

  function Serialized(node: seq<Stored>): Bytes
    requires EncodableNode(node)
  {
    EncodeFrom(node, 0)
  }

  // Decoding continues with `bytes`, the items in `node` being decoded; None is a failed assertion
  // or an index out of range.
  function DecodeFrom(bytes: Bytes, node: seq<Stored>): Option<seq<Stored>>
    requires |node| == NUM_ITEMS
    decreases |bytes|
  {
    if bytes == [] then Some(node)
    else if |bytes| < HEAD_SIZE then None
    else
      var i, m := bytes[0], bytes[1] % 128;
      if node[i] != Nothing || |bytes| < HEAD_SIZE + m + DEF_SIZE then None
      else
        var at := HEAD_SIZE + m;
        var prefix, data := bytes[HEAD_SIZE..at], bytes[at..at + DEF_SIZE];
        var item := if bytes[1] < 128 then Value(prefix, data) else Pointer(prefix, data);
        DecodeFrom(bytes[at + DEF_SIZE..], node[i := item])
  }

  // The first k items of a node.
  function Upto(node: seq<Stored>, k: nat): (r: seq<Stored>)
    requires |node| == NUM_ITEMS && k <= NUM_ITEMS
    ensures |r| == NUM_ITEMS && forall i :: 0 <= i < NUM_ITEMS ==> r[i] == if i < k then node[i] else Nothing
  {
    seq(NUM_ITEMS, i requires 0 <= i < NUM_ITEMS => if i < k then node[i] else Nothing)
  }

  lemma DecodeItem(s: Stored, i: Byte, rest: Bytes, node: seq<Stored>)
    requires Encodable(s) && s != Nothing && |node| == NUM_ITEMS && node[i] == Nothing
    ensures DecodeFrom(EncodeItem(s, i) + rest, node) == DecodeFrom(rest, node[i := s])
  {
    var bytes := EncodeItem(s, i) + rest;
    var data := if s.Value? then s.value else s.ptr;
    var kind := |s.prefix| + if s.Value? then 0 else 128;
    assert EncodeItem(s, i) == [i, kind] + s.prefix + data;
    Slices(i, kind, s.prefix, data, rest);
    assert kind % 128 == |s.prefix|;
    hide EncodeItem;
    assert bytes == [i, kind] + s.prefix + data + rest;
  }

  lemma Slices(i: Byte, kind: Byte, prefix: Key, data: Bytes, rest: Bytes)
    requires |data| == DEF_SIZE
    ensures var bytes, at := [i, kind] + prefix + data + rest, HEAD_SIZE + |prefix|;
            && bytes[0] == i && bytes[1] == kind && |bytes| >= at + DEF_SIZE
            && bytes[HEAD_SIZE..at] == prefix && bytes[at..at + DEF_SIZE] == data && bytes[at + DEF_SIZE..] == rest
  {
  }

  lemma {:induction false} DecodeUpto(node: seq<Stored>, k: nat)
    requires EncodableNode(node) && k <= NUM_ITEMS
    ensures DecodeFrom(EncodeFrom(node, k), Upto(node, k)) == Some(node)
    decreases NUM_ITEMS - k
  {
    if k == NUM_ITEMS {
      assert Upto(node, k) == node;
    } else {
      DecodeUpto(node, k + 1);
      var before := Upto(node, k);
      assert before[k := node[k]] == Upto(node, k + 1);
      if node[k] == Nothing {
        assert before == Upto(node, k + 1);
        assert EncodeFrom(node, k) == EncodeFrom(node, k + 1);
      } else {
        DecodeItem(node[k], k, EncodeFrom(node, k + 1), before);
      }
    }
  }

  // Decoding an encoded node gives the node back.
  lemma RoundTrip(node: seq<Stored>)
    requires EncodableNode(node)
    ensures DecodeFrom(Serialized(node), Blank()) == Some(node)
  {
    DecodeUpto(node, 0);
    assert Upto(node, 0) == Blank();
  }

  // Different nodes have different serializations.
  lemma EncodeInjective(a: seq<Stored>, b: seq<Stored>)
    requires EncodableNode(a) && EncodableNode(b) && Serialized(a) == Serialized(b)
    ensures a == b
  {
    RoundTrip(a);
    RoundTrip(b);
  }

  // decode: items are filled in place while the cursor advances.
  method DecodeNode(bytes: Bytes) returns (r: Option<seq<Stored>>)
    ensures r == DecodeFrom(bytes, Blank())
  {
    var node, pos := Blank(), 0;
    assert bytes[0..] == bytes;
    while pos < |bytes|
      invariant 0 <= pos <= |bytes| && |node| == NUM_ITEMS
      invariant DecodeFrom(bytes[pos..], node) == DecodeFrom(bytes, Blank())
    {
      ghost var rest := bytes[pos..];
      if pos + 1 >= |bytes| {
        return None;
      }
      var i, m := bytes[pos], bytes[pos + 1] % 128;
      assert rest[0] == i && rest[1] == bytes[pos + 1];
      if node[i] != Nothing || pos + HEAD_SIZE + m + DEF_SIZE > |bytes| {
        return None;
      }
      var start := pos + HEAD_SIZE;
      var prefix, data := bytes[start..start + m], bytes[start + m..start + m + DEF_SIZE];
      assert prefix == rest[HEAD_SIZE..HEAD_SIZE + m];
      assert data == rest[HEAD_SIZE + m..HEAD_SIZE + m + DEF_SIZE];
      assert bytes[start + m + DEF_SIZE..] == rest[HEAD_SIZE + m + DEF_SIZE..];
      node := node[i := if bytes[pos + 1] < 128 then Value(prefix, data) else Pointer(prefix, data)];
      pos := start + m + DEF_SIZE;
    }
    assert bytes[pos..] == [];
    r := Some(node);
  }

  function ItemSize(s: Stored): nat {
    if s == Nothing then 0 else HEAD_SIZE + |s.prefix| + DEF_SIZE
  }

  lemma EncodeStep(node: seq<Stored>, k: nat)
    requires EncodableNode(node) && k < NUM_ITEMS
    ensures EncodeFrom(node, k) == EncodeItem(node[k], k) + EncodeFrom(node, k + 1)
    ensures |EncodeItem(node[k], k)| == ItemSize(node[k])
    ensures node[k] == Nothing ==> EncodeFrom(node, k) == EncodeFrom(node, k + 1)
    ensures EncodeFrom(node, NUM_ITEMS) == []
  {
  }

  method Size(node: seq<Stored>) returns (size: nat)
    requires EncodableNode(node)
    ensures size == |Serialized(node)|
  {
    EncodeStep(node, 0);
    hide EncodeFrom, EncodeItem, ItemSize;
    size := 0;
    for k := 0 to NUM_ITEMS
      invariant size + |EncodeFrom(node, k)| == |Serialized(node)|
    {
      EncodeStep(node, k);
      size := size + ItemSize(node[k]);
    }
  }

  // encode: the size is computed first, then the buffer is filled item by item.
  method EncodeNode(node: seq<Stored>) returns (buf: array<Byte>)
    requires EncodableNode(node)
    ensures buf[..] == Serialized(node) && fresh(buf)
  {
    hide EncodeFrom, EncodeItem;
    var size := Size(node);
    buf := new Byte[size];
    EncodeStep(node, 0);
    var i, pos := 0, 0;
    while pos < size
      invariant 0 <= i <= NUM_ITEMS && 0 <= pos <= size && fresh(buf)
      invariant buf[..pos] + EncodeFrom(node, i) == Serialized(node) && |Serialized(node)| == size
      decreases NUM_ITEMS - i
    {
      if i == NUM_ITEMS {
        assert false;
      }
      EncodeStep(node, i);
      if node[i] != Nothing {
        ghost var done := buf[..pos];
        pos := Put(buf, pos, EncodeItem(node[i], i));
        assert done + (EncodeItem(node[i], i) + EncodeFrom(node, i + 1)) == buf[..pos] + EncodeFrom(node, i + 1);
      }
      i := i + 1;
    }
    assert buf[..] == buf[..pos];
  }

  method Put(buf: array<Byte>, pos: nat, bytes: Bytes) returns (end: nat)
    requires pos + |bytes| <= buf.Length
    modifies buf
    ensures end == pos + |bytes| && buf[..end] == old(buf[..pos]) + bytes
  {
    for k := 0 to |bytes|
      invariant buf[..pos + k] == old(buf[..pos]) + bytes[..k]
    {
      buf[pos + k] := bytes[k];
    }
    end := pos + |bytes|;
    assert bytes[..|bytes|] == bytes;
  }
}
