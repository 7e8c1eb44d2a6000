/**
 From a compilation unit to the finished code vector (rosette/src/Labels.cc,
 rosette/src/Code.cc): words deposited early keep their place and meaning while the
 unit grows, and resolving the labels changes nothing but the 10-bit addresses of
 registered jumps.
 */
module Linking {
  import Bits
  import opened Codec
  import opened Wrappers
  import opened Vm
  import opened Compile

  // ------------------------------------------------------------------
  // Growth of a unit
  // ------------------------------------------------------------------

  // Fixups lie inside the code, in ascending order, and name existing labels; labels are bound
  // inside the code.
  ghost predicate Valid(u: Unit) {
    && (forall i :: 0 <= i < |u.fixups| ==> u.fixups[i].0 < |u.code| && u.fixups[i].1 < |u.labels|)
    && (forall i, j :: 0 <= i < j < |u.fixups| ==> u.fixups[i].0 < u.fixups[j].0)
    && (forall l :: 0 <= l < |u.labels| ==> u.labels[l] <= |u.code|)
    && (u.aborted || |u.lits| <= MAXIMUM_LITVEC_SIZE + 1)
  }

  // f is a later state of u.
  ghost predicate Extends(u: Unit, f: Unit) {
    && u.code <= f.code && u.lits <= f.lits && u.fixups <= f.fixups
    && (forall i :: |u.fixups| <= i < |f.fixups| ==> f.fixups[i].0 >= |u.code|)
    && |u.labels| <= |f.labels|
    && (forall l :: 0 <= l < |u.labels| && u.labels[l] != 0 ==> f.labels[l] == u.labels[l])
    && (u.aborted ==> f.aborted)
  }

  // The same, but labels may have been bound anew.
  ghost predicate Later(u: Unit, f: Unit) {
    && u.code <= f.code && u.lits <= f.lits && u.fixups <= f.fixups
    && (forall i :: |u.fixups| <= i < |f.fixups| ==> f.fixups[i].0 >= |u.code|)
    && |u.labels| <= |f.labels|
    && (u.aborted ==> f.aborted)
  }

  lemma ExtendsTrans(u: Unit, v: Unit, f: Unit)
    requires Extends(u, v) && Extends(v, f)
    ensures Extends(u, f)
  {
    forall i | |u.fixups| <= i < |f.fixups| ensures f.fixups[i].0 >= |u.code| {
      if i < |v.fixups| {
        assert f.fixups[i] == v.fixups[i];
      }
    }
  }

  lemma DepositExtends(u: Unit, i: Instr)
    requires Valid(u)
    ensures Valid(Deposit(u, i)) && Extends(u, Deposit(u, i)) && |Deposit(u, i).code| > |u.code|
  {
  }

  lemma ExtendExtends(u: Unit, v: Val)
    requires Valid(u)
    ensures Valid(Extend(u, v)) && Extends(u, Extend(u, v))
  {
  }

  lemma JumpExtends(u: Unit, op: nat, l: nat)
    requires Valid(u) && l < |u.labels|
    ensures Valid(Jump(u, op, l)) && Extends(u, Jump(u, op, l)) && |Jump(u, op, l).code| == |u.code| + 1
  {
  }

  lemma NewLabelExtends(u: Unit)
    requires Valid(u)
    ensures Valid(NewLabel(u)) && Extends(u, NewLabel(u))
  {
  }

  lemma SetLabelExtends(u: Unit, l: nat)
    requires Valid(u) && l < |u.labels| && u.labels[l] == 0
    ensures Valid(SetLabel(u, l)) && Extends(u, SetLabel(u, l))
  {
  }

  // The literal at the offset handed out stays there as the pool grows.
  lemma OffsetStays(u: Unit, v: Val, f: Unit)
    requires Valid(u) && Extends(Extend(u, v), f) && !f.aborted
    ensures Offset(u, v) < |f.lits| && f.lits[Offset(u, v)] == v && Offset(u, v) <= MAXIMUM_LITVEC_SIZE
  {
    var n := Offset(u, v);
    assert Extend(u, v).lits[n] == v;
  }

  // ------------------------------------------------------------------
  // Back-patching
  // ------------------------------------------------------------------

  ghost predicate NoFixup(f: Unit, k: nat) {
    forall i :: 0 <= i < |f.fixups| ==> f.fixups[i].0 != k
  }

  ghost predicate Patches(f: Unit, code: seq<nat>, i: nat)
    requires Valid(f) && |code| == |f.code| && i < |f.fixups|
  {
    code[f.fixups[i].0] == Patched(f.code[f.fixups[i].0], f.labels[f.fixups[i].1])
  }

  // p is f's code with every registered jump patched, and nothing else changed.
  ghost predicate Linked(f: Unit, p: Program) {
    && Valid(f) && !f.aborted && p.lits == f.lits && |p.code| == |f.code|
    && (forall k :: 0 <= k < |f.code| && NoFixup(f, k) ==> p.code[k] == f.code[k])
    && (forall i :: 0 <= i < |f.fixups| ==> Patches(f, p.code, i))
  }

  ghost predicate Ascending(fixups: seq<(nat, nat)>, labels: seq<nat>, n: nat) {
    && (forall i :: 0 <= i < |fixups| ==> fixups[i].0 < n && fixups[i].1 < |labels|)
    && (forall i, j :: 0 <= i < j < |fixups| ==> fixups[i].0 < fixups[j].0)
  }

  // Resolving touches exactly the registered words.
  lemma {:induction false} ResolvedAt(code: seq<nat>, fixups: seq<(nat, nat)>, labels: seq<nat>, k: nat)
    requires Ascending(fixups, labels, |code|) && k < |code|
    ensures (forall i :: 0 <= i < |fixups| ==> fixups[i].0 != k) ==> Resolved(code, fixups, labels)[k] == code[k]
    ensures forall i :: 0 <= i < |fixups| && fixups[i].0 == k ==>
              Resolved(code, fixups, labels)[k] == Patched(code[k], labels[fixups[i].1])
    decreases |fixups|
  {
    if fixups != [] {
      var (loc, l) := fixups[0];
      var rest := fixups[1..];
      var c := code[loc := Patched(code[loc], labels[l])];
      assert Ascending(rest, labels, |c|);
      ResolvedAt(c, rest, labels, k);
      assert Resolved(code, fixups, labels) == Resolved(c, rest, labels);
      forall i | 0 <= i < |fixups| && fixups[i].0 == k
        ensures Resolved(code, fixups, labels)[k] == Patched(code[k], labels[fixups[i].1])
      {
        if i > 0 {
          assert rest[i - 1] == fixups[i] && loc != k;
        } else {
          assert forall j :: 0 <= j < |rest| ==> rest[j] == fixups[j + 1] && rest[j].0 != k;
        }
      }
      if forall i :: 0 <= i < |fixups| ==> fixups[i].0 != k {
        assert forall j :: 0 <= j < |rest| ==> rest[j] == fixups[j + 1];
      }
    }
  }

  // resolveLabels links the unit.
  lemma ResolveLinks(f: Unit)
    requires Valid(f) && !f.aborted
    ensures Linked(f, Program(Resolved(f.code, f.fixups, f.labels), f.lits))
  {
    var code := Resolved(f.code, f.fixups, f.labels);
    forall k | 0 <= k < |f.code| && NoFixup(f, k) ensures code[k] == f.code[k] {
      ResolvedAt(f.code, f.fixups, f.labels, k);
    }
    forall i | 0 <= i < |f.fixups| ensures Patches(f, code, i) {
      ResolvedAt(f.code, f.fixups, f.labels, f.fixups[i].0);
    }
  }

  // ------------------------------------------------------------------
  // Fetching from the linked program
  // ------------------------------------------------------------------

  // A plain instruction is found where it was deposited.
  lemma FetchPlain(u: Unit, i: Instr, f: Unit, p: Program)
    requires Valid(u) && Legal(i) && Extends(Deposit(u, i), f) && Linked(f, p)
    ensures Decode(p.code, |u.code|) == Some((i, |Encode(i)|))
    ensures |u.code| + |Encode(i)| == |Deposit(u, i).code|
  {
    LaterPlain(u, i, f, p);
  }

  lemma LaterPlain(u: Unit, i: Instr, f: Unit, p: Program)
    requires Valid(u) && Legal(i) && Later(Deposit(u, i), f) && Linked(f, p)
    ensures Decode(p.code, |u.code|) == Some((i, |Encode(i)|))
  {
    var a, n := |u.code|, |Encode(i)|;
    var u1 := Deposit(u, i);
    forall k | a <= k < a + n ensures p.code[k] == Encode(i)[k - a] {
      forall j | 0 <= j < |f.fixups| ensures f.fixups[j].0 != k {
        if j < |u.fixups| {
          assert f.fixups[j] == u.fixups[j];
        }
      }
      assert NoFixup(f, k);
      assert f.code[k] == u1.code[k];
    }
    assert p.code[a..a + n] == Encode(i);
    RoundTrip(p.code, a, i);
  }

  lemma PatchedJump(op: nat, addr: nat)
    requires op % 4 == 0 && op < 256 && addr < 1024
    ensures Patched(Head(F6(op, 0, NoExt)), addr) == Head(F6(op, addr, NoExt))
  {
    hide Patched;
    assert Head(F6(op, 0, NoExt)) == 256 * op && Head(F6(op, addr, NoExt)) == 256 * op + addr;
    PatchedIs(256 * op, addr);
    assert 256 * op == 1024 * (op / 4);
  }

  // An address that fits replaces the low ten bits of the word and nothing else.
  lemma PatchedIs(w: nat, addr: nat)
    requires w < Bits.WORD && addr < 1024
    ensures Patched(w, addr) == w / 1024 * 1024 + addr
  {
    assert Patched(w, addr) == (1 * (1024 * (w / 1 / 1024)) + w % 1 + 1 * addr) % Bits.WORD by {
      Bits.Set(w, 0, 10, addr, 1, 1024);
    }
    TenBits(w, addr);
  }

  lemma TenBits(w: nat, addr: nat)
    requires w < Bits.WORD && addr < 1024
    ensures (1 * (1024 * (w / 1 / 1024)) + w % 1 + 1 * addr) % Bits.WORD == w / 1024 * 1024 + addr
  {
    assert w / 1 == w && w % 1 == 0;
  }

  lemma DecodeJump(code: seq<nat>, a: nat, op: nat, addr: nat)
    requires a < |code| && addr < 1024 && (op == OP_JMP || op == OP_JMP_FALSE)
    requires code[a] == Head(F6(op, addr, NoExt))
    ensures Decode(code, a) == Some((F6(op, addr, NoExt), 1))
  {
    var jump := F6(op, addr, NoExt);
    assert Legal(jump) && Encode(jump) == [code[a]] == code[a..a + 1];
    hide *;
    RoundTrip(code, a, jump);
  }

  // A registered jump is found with its label's address in it.
  lemma FetchJump(u: Unit, op: nat, l: nat, f: Unit, p: Program)
    requires Valid(u) && Extends(Jump(u, op, l), f) && Linked(f, p) && l < |f.labels| && f.labels[l] < 1024
    requires op == OP_JMP || op == OP_JMP_FALSE
    ensures Decode(p.code, |u.code|) == Some((F6(op, f.labels[l], NoExt), 1))
  {
    LaterJump(u, op, l, f, p);
  }

  lemma LaterJump(u: Unit, op: nat, l: nat, f: Unit, p: Program)
    requires Valid(u) && Later(Jump(u, op, l), f) && Linked(f, p) && l < |f.labels| && f.labels[l] < 1024
    requires op == OP_JMP || op == OP_JMP_FALSE
    ensures Decode(p.code, |u.code|) == Some((F6(op, f.labels[l], NoExt), 1))
  {
    var a, i := |u.code|, |u.fixups|;
    var u1 := Jump(u, op, l);
    assert f.fixups[i] == u1.fixups[i] == (a, l);
    assert f.code[a] == u1.code[a] == Head(F6(op, 0, NoExt));
    assert p.code[a] == Patched(f.code[a], f.labels[l]) by {
      assert Patches(f, p.code, i);
    }
    PatchedJump(op, f.labels[l]);
    DecodeJump(p.code, a, op, f.labels[l]);
  }
}
