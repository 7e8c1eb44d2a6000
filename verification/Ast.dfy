/**
 Equality and hashing of Rholang terms (models/src/lib.rs:58-1046).
 */
module Ast {
  import opened Wrappers

  /*
   The messages of models/src/main/protobuf/RhoTypes.proto carry a field `locallyFree`, an analysis
   result that must not distinguish terms.  Each message has a hand-written comparison and a
   hand-written hash, which name the fields they look at.  The three tables below hold, message
   by message, the fields of the message, the fields the comparison looks at and the fields the hash
   feeds to the hasher, each in the order of its source.

   A scalar stands for the tokens that its own hash writes, which determine it.  The alternatives of a
   `oneof` are messages with a single field; neither their comparison nor their hash wraps that
   field, and the hash does not feed the alternative's number.
   */

  datatype Field =
    | LocallyFree | ConnectiveUsed
    | Sends | Receives | News | Exprs | Matches | Unforgeables | Bundles | Connectives
    | TaggedCont | Body | RandomState | Cost | Pars | VarInstance | WriteFlag | ReadFlag
    | Chan | Data | Persistent | Patterns | Source | Remainder | FreeCount | Binds | Peek | BindCount
    | P | Uri | Injections | Pattern | Target | Cases | ExprInstance
    | Numerator | Denominator | Unscaled | Scale | Ps | Kvs | Pathmap | CurrentPath | IsWriteZipper
    | MethodName | Arguments | Key | Value | V | P1 | P2
    | ConnectiveInstance | Index | Depth | Sig | PublicKey | UnfInstance | Id | Payload

  datatype Kind =
    | Par | TaggedContinuation | ParWithRandom | PCost | ListParWithRandom | Var | WildcardMsg
    | Bundle | Send | ReceiveBind | BindPattern | ListBindPatterns | Receive | New | Injection
    | MatchCase | Match | Expr | GBigRational | GFixedPoint
    | EList | ETuple | ESet | EMap | EPathMap | EZipper | EMethod | KeyValuePair | EVar | ENot | ENeg
    | EMult | EDiv | EMod | EPlus | EMinus | ELt | ELte | EGt | EGte | EEq | ENeq | EAnd | EOr
    | EMatches | EPercentPercent | EPlusPlus | EMinusMinus
    | Connective | VarRef | ConnectiveBody | DeployId | DeployerId | GUnforgeable | GPrivate | GSysAuthToken
    | OneOf(number: nat)

  // ------------------------------------------------------------------
  // The tables
  // ------------------------------------------------------------------

  // RhoTypes.proto
  function Fields(k: Kind): seq<Field> {
    match k
    case Par => [Sends, Receives, News, Exprs, Matches, Unforgeables, Bundles, Connectives, LocallyFree, ConnectiveUsed]
    case TaggedContinuation => [TaggedCont]
    case ParWithRandom => [Body, RandomState]
    case PCost => [Cost]
    case ListParWithRandom => [Pars, RandomState]
    case Var => [VarInstance]
    case WildcardMsg | GSysAuthToken => []
    case Bundle => [Body, WriteFlag, ReadFlag]
    case Send => [Chan, Data, Persistent, LocallyFree, ConnectiveUsed]
    case ReceiveBind => [Patterns, Source, Remainder, FreeCount]
    case BindPattern => [Patterns, Remainder, FreeCount]
    case ListBindPatterns => [Patterns]
    case Receive => [Binds, Body, Persistent, Peek, BindCount, LocallyFree, ConnectiveUsed]
    case New => [BindCount, P, Uri, Injections, LocallyFree]
    case Injection => [Key, Value]
    case MatchCase => [Pattern, Source, FreeCount]
    case Match => [Target, Cases, LocallyFree, ConnectiveUsed]
    case Expr => [ExprInstance]
    case GBigRational => [Numerator, Denominator]
    case GFixedPoint => [Unscaled, Scale]
    case EList | ESet | EPathMap => [Ps, LocallyFree, ConnectiveUsed, Remainder]
    case ETuple => [Ps, LocallyFree, ConnectiveUsed]
    case EMap => [Kvs, LocallyFree, ConnectiveUsed, Remainder]
    case EZipper => [Pathmap, CurrentPath, IsWriteZipper, LocallyFree, ConnectiveUsed]
    case EMethod => [MethodName, Target, Arguments, LocallyFree, ConnectiveUsed]
    case KeyValuePair => [Key, Value]
    case EVar => [V]
    case ENot | ENeg => [P]
    case EMatches => [Target, Pattern]
    case Connective => [ConnectiveInstance]
    case VarRef => [Index, Depth]
    case ConnectiveBody => [Ps]
    case DeployId => [Sig]
    case DeployerId => [PublicKey]
    case GUnforgeable => [UnfInstance]
    case GPrivate => [Id]
    case OneOf(_) => [Payload]
    case _ => [P1, P2]
  }

  // The implementations of PartialEq.
  function Compared(k: Kind): seq<Field> {
    match k
    case Par => [Sends, Receives, News, Exprs, Matches, Unforgeables, Bundles, Connectives, ConnectiveUsed]
    case TaggedContinuation => [TaggedCont]
    case ParWithRandom => [Body, RandomState]
    case PCost => [Cost]
    case ListParWithRandom => [Pars, RandomState]
    case Var => [VarInstance]
    case WildcardMsg | GSysAuthToken => []
    case Bundle => [Body, WriteFlag, ReadFlag]
    case Send => [Chan, Data, Persistent, ConnectiveUsed]
    case ReceiveBind => [Patterns, Source, Remainder, FreeCount]
    case BindPattern => [Patterns, Remainder, FreeCount]
    case ListBindPatterns => [Patterns]
    case Receive => [Binds, Body, Persistent, Peek, BindCount, ConnectiveUsed]
    case New => [BindCount, P, Uri, Injections]
    case Injection => [Key, Value]
    case MatchCase => [Pattern, Source, FreeCount]
    case Match => [Target, Cases, ConnectiveUsed]
    case Expr => [ExprInstance]
    case GBigRational => [Numerator, Denominator]
    case GFixedPoint => [Unscaled, Scale]
    case EList | ESet | EPathMap => [Ps, ConnectiveUsed, Remainder]
    case ETuple => [Ps, ConnectiveUsed]
    case EMap => [Kvs, ConnectiveUsed, Remainder]
    case EZipper => [Pathmap, CurrentPath, IsWriteZipper, ConnectiveUsed]
    case EMethod => [MethodName, Target, Arguments, ConnectiveUsed]
    case KeyValuePair => [Key, Value]
    case EVar => [V]
    case ENot | ENeg => [P]
    case EMatches => [Target, Pattern]
    case Connective => [ConnectiveInstance]
    case VarRef => [Index, Depth]
    case ConnectiveBody => [Ps]
    case DeployId => [Sig]
    case DeployerId => [PublicKey]
    case GUnforgeable => [UnfInstance]
    case GPrivate => [Id]
    case OneOf(_) => [Payload]
    case _ => [P1, P2]
  }

  // The implementations of Hash.
  function Hashed(k: Kind): seq<Field> {
    match k
    case Par => [Sends, Receives, News, Exprs, Matches, Unforgeables, Bundles, Connectives, ConnectiveUsed]
    case TaggedContinuation => [TaggedCont]
    case ParWithRandom => [Body, RandomState]
    case PCost => [Cost]
    case ListParWithRandom => [Pars, RandomState]
    case Var => [VarInstance]
    case WildcardMsg | GSysAuthToken => []
    case Bundle => [Body, WriteFlag, ReadFlag]
    case Send => [Chan, Data, Persistent, ConnectiveUsed]
    case ReceiveBind => [Patterns, Source, Remainder, FreeCount]
    case BindPattern => [Patterns, Remainder, FreeCount]
    case ListBindPatterns => [Patterns]
    case Receive => [Binds, Body, Persistent, Peek, BindCount, ConnectiveUsed]
    case New => [BindCount, P, Uri, Injections]
    case Injection => [Key, Value]
    case MatchCase => [Pattern, Source, FreeCount]
    case Match => [Target, Cases, ConnectiveUsed]
    case Expr => [ExprInstance]
    case GBigRational => [Numerator, Denominator]
    case GFixedPoint => [Unscaled, Scale]
    case EList | ESet | EPathMap => [Ps, ConnectiveUsed, Remainder]
    case ETuple => [Ps, ConnectiveUsed]
    case EMap => [Kvs, ConnectiveUsed, Remainder]
    case EZipper => [Pathmap, CurrentPath, IsWriteZipper, ConnectiveUsed]
    case EMethod => [MethodName, Target, Arguments, ConnectiveUsed]
    case KeyValuePair => [Key, Value]
    case EVar => [V]
    case ENot | ENeg => [P]
    case EMatches => [Target, Pattern]
    case Connective => [ConnectiveInstance]
    case VarRef => [Index, Depth]
    case ConnectiveBody => [Ps]
    case DeployId => [Sig]
    case DeployerId => [PublicKey]
    case GUnforgeable => [UnfInstance]
    case GPrivate => [Id]
    case OneOf(_) => [Payload]
    case _ => [P1, P2]
  }

  // Every comparison looks at all fields but `locallyFree`, and at nothing else.
  lemma ComparesAll(k: Kind, i: nat)
    requires i < |Fields(k)|
    ensures Fields(k)[i] in Compared(k) <==> Fields(k)[i] != LocallyFree
  {
    hide Fields, Compared;
    if k.Par? {
      ParCompares(i);
    } else if Analysed(k) {
      AnalysedCompares(k, i);
    } else {
      PlainFields(k);
    }
  }

  lemma ParCompares(i: nat)
    requires i < |Fields(Par)|
    ensures Fields(Par)[i] in Compared(Par) <==> Fields(Par)[i] != LocallyFree
  {
  }

  lemma AnalysedCompares(k: Kind, i: nat)
    requires Analysed(k) && !k.Par? && i < |Fields(k)|
    ensures Fields(k)[i] in Compared(k) <==> Fields(k)[i] != LocallyFree
  {
  }

  predicate Analysed(k: Kind) {
    || k.Par? || k.Send? || k.Receive? || k.New? || k.Match?
    || k.EList? || k.ESet? || k.EPathMap? || k.ETuple? || k.EMap? || k.EZipper? || k.EMethod?
  }

  lemma PlainFields(k: Kind)
    requires !Analysed(k)
    ensures Compared(k) == Fields(k) && LocallyFree !in Fields(k)
  {
  }

  // Every hash feeds the fields that the comparison looks at, in the same order.
  lemma HashesCompared(k: Kind, j: nat)
    requires j < |Hashed(k)|
    ensures Hashed(k) == Compared(k) && Hashed(k)[j] in Fields(k)
  {
    assert Hashed(k) == Compared(k);
    hide Fields, Compared, Hashed;
    if Analysed(k) {
      AnalysedHas(k, j);
    } else {
      PlainFields(k);
    }
  }

  lemma AnalysedHas(k: Kind, j: nat)
    requires Analysed(k) && j < |Compared(k)|
    ensures Compared(k)[j] in Fields(k)
  {
  }

  // ------------------------------------------------------------------
  // Terms
  // ------------------------------------------------------------------

  datatype Term = Term(kind: Kind, fields: seq<Content>)

  datatype Content =
    | Scalar(tokens: seq<nat>)
    | Direct(t: Term)
    | Optional(o: Option<Term>)
    | Vector(ts: seq<Term>)

  ghost predicate Proper(t: Term)
    decreases t
  {
    |t.fields| == |Fields(t.kind)| && forall i :: 0 <= i < |t.fields| ==> ProperContent(t.fields[i])
  }

  ghost predicate ProperContent(c: Content)
    decreases c
  {
    match c
    case Scalar(_) => true
    case Direct(t) => Proper(t)
    case Optional(o) => o.Some? ==> Proper(o.value)
    case Vector(ts) => forall i :: 0 <= i < |ts| ==> Proper(ts[i])
  }

  // eq
  ghost predicate Eq(a: Term, b: Term)
    requires Proper(a) && Proper(b)
    decreases a
  {
    && a.kind == b.kind
    && forall i :: 0 <= i < |a.fields| && Fields(a.kind)[i] in Compared(a.kind) ==> EqContent(a.fields[i], b.fields[i])
  }

  ghost predicate EqContent(c: Content, d: Content)
    requires ProperContent(c) && ProperContent(d)
    decreases c
  {
    if c.Scalar? && d.Scalar? then c == d
    else if c.Direct? && d.Direct? then Eq(c.t, d.t)
    else if c.Optional? && d.Optional? then
      if c.o.Some? && d.o.Some? then Eq(c.o.value, d.o.value) else c.o == d.o
    else
      && c.Vector? && d.Vector? && |c.ts| == |d.ts|
      && forall i :: 0 <= i < |c.ts| ==> Eq(c.ts[i], d.ts[i])
  }

  // The term without its `locallyFree` fields.
  function Erased(t: Term): Term
    decreases t
  {
    Term(t.kind, seq(|t.fields|, i requires 0 <= i < |t.fields| =>
      if i < |Fields(t.kind)| && Fields(t.kind)[i] == LocallyFree then Scalar([]) else ErasedContent(t.fields[i])))
  }

  function ErasedContent(c: Content): Content
    decreases c
  {
    match c
    case Scalar(_) => c
    case Direct(t) => Direct(Erased(t))
    case Optional(o) => Optional(if o.None? then None else Some(Erased(o.value)))
    case Vector(ts) => Vector(seq(|ts|, i requires 0 <= i < |ts| => Erased(ts[i])))
  }

  // hash: what a term feeds to the hasher.
  function Feed(t: Term): seq<nat>
    decreases t, 1, 0
  {
    FeedFields(t, |Hashed(t.kind)|)
  }

  // The first n fields of the hash.
  function FeedFields(t: Term, n: nat): seq<nat>
    requires n <= |Hashed(t.kind)|
    decreases t, 0, n
  {
    if n == 0 then []
    else
      var i := Position(Fields(t.kind), Hashed(t.kind)[n - 1]);
      FeedFields(t, n - 1) + if i < |t.fields| then FeedContent(t.fields[i]) else []
  }

  function FeedContent(c: Content): seq<nat>
    decreases c, 1, 0
  {
    match c
    case Scalar(tokens) => tokens
    case Direct(t) => Feed(t)
    case Optional(o) => if o.None? then [0] else [1] + Feed(o.value)
    case Vector(ts) => [|ts|] + FeedAll(ts, |ts|)
  }

  function FeedAll(ts: seq<Term>, n: nat): seq<nat>
    requires n <= |ts|
    decreases ts, 0, n
  {
    if n == 0 then [] else FeedAll(ts, n - 1) + Feed(ts[n - 1])
  }

  function Position(fs: seq<Field>, f: Field): (i: nat)
    ensures i <= |fs| && (i < |fs| ==> fs[i] == f) && (f in fs ==> i < |fs|)
  {
    if fs == [] || fs[0] == f then 0 else 1 + Position(fs[1..], f)
  }

  // ------------------------------------------------------------------
  // The contract
  // ------------------------------------------------------------------

  // Terms are equal exactly when they agree after erasing every `locallyFree`, at any depth.
  lemma {:induction false} EqErased(a: Term, b: Term)
    requires Proper(a) && Proper(b)
    ensures Eq(a, b) <==> Erased(a) == Erased(b)
    decreases a
  {
    if a.kind == b.kind {
      var x, y := Erased(a).fields, Erased(b).fields;
      forall i | 0 <= i < |a.fields|
        ensures x[i] == y[i] <==> (Fields(a.kind)[i] in Compared(a.kind) ==> EqContent(a.fields[i], b.fields[i]))
      {
        ComparesAll(a.kind, i);
        ContentErased(a.fields[i], b.fields[i]);
      }
      hide Fields, Compared, EqContent, ErasedContent;
      if Eq(a, b) {
        assert x == y;
      }
      assert Erased(a) == Erased(b) ==> x == y;
    }
  }

  lemma {:induction false} ContentErased(c: Content, d: Content)
    requires ProperContent(c) && ProperContent(d)
    ensures EqContent(c, d) <==> ErasedContent(c) == ErasedContent(d)
    decreases c
  {
    if c.Direct? && d.Direct? {
      EqErased(c.t, d.t);
    } else if c.Optional? && d.Optional? && c.o.Some? && d.o.Some? {
      EqErased(c.o.value, d.o.value);
    } else if c.Vector? && d.Vector? && |c.ts| != |d.ts| {
      assert |ErasedContent(c).ts| == |c.ts| && |ErasedContent(d).ts| == |d.ts|;
    } else if c.Vector? && d.Vector? {
      var x, y := ErasedContent(c).ts, ErasedContent(d).ts;
      forall i | 0 <= i < |c.ts| ensures Eq(c.ts[i], d.ts[i]) <==> x[i] == y[i] {
        EqErased(c.ts[i], d.ts[i]);
      }
      hide Eq, Erased;
      if EqContent(c, d) {
        assert x == y;
      }
    }
  }

  // So equality is an equivalence.
  lemma EqIsEquivalence(a: Term, b: Term, c: Term)
    requires Proper(a) && Proper(b) && Proper(c)
    ensures Eq(a, a) && (Eq(a, b) ==> Eq(b, a)) && (Eq(a, b) && Eq(b, c) ==> Eq(a, c))
  {
    hide *;
    EqErased(a, a);
    EqErased(a, b);
    EqErased(b, a);
    EqErased(b, c);
    EqErased(a, c);
  }

  // Equal terms feed the same tokens to the hasher.
  lemma {:induction false} EqFeeds(a: Term, b: Term)
    requires Proper(a) && Proper(b) && Eq(a, b)
    ensures Feed(a) == Feed(b)
    decreases a, 1, 0
  {
    FieldsFeed(a, b, |Hashed(a.kind)|);
  }

  lemma {:induction false} FieldsFeed(a: Term, b: Term, n: nat)
    requires Proper(a) && Proper(b) && Eq(a, b) && n <= |Hashed(a.kind)|
    ensures FeedFields(a, n) == FeedFields(b, n)
    decreases a, 0, n
  {
    hide Fields, Compared, Hashed;
    if n > 0 {
      FieldsFeed(a, b, n - 1);
      HashesCompared(a.kind, n - 1);
      var i := Position(Fields(a.kind), Hashed(a.kind)[n - 1]);
      assert EqContent(a.fields[i], b.fields[i]);
      ContentFeeds(a.fields[i], b.fields[i]);
    }
  }

  lemma {:induction false} ContentFeeds(c: Content, d: Content)
    requires ProperContent(c) && ProperContent(d) && EqContent(c, d)
    ensures FeedContent(c) == FeedContent(d)
    decreases c, 1, 0
  {
    if c.Direct? {
      EqFeeds(c.t, d.t);
    } else if c.Optional? && c.o.Some? {
      EqFeeds(c.o.value, d.o.value);
    } else if c.Vector? {
      AllFeed(c.ts, d.ts, |c.ts|);
    }
  }

  lemma {:induction false} AllFeed(xs: seq<Term>, ys: seq<Term>, n: nat)
    requires n <= |xs| == |ys|
    requires forall i :: 0 <= i < |xs| ==> Proper(xs[i]) && Proper(ys[i]) && Eq(xs[i], ys[i])
    ensures FeedAll(xs, n) == FeedAll(ys, n)
    decreases xs, 0, n
  {
    hide Eq, Proper, Feed;
    if n > 0 {
      AllFeed(xs, ys, n - 1);
      EqFeeds(xs[n - 1], ys[n - 1]);
    }
  }

  // The converse fails: the hash does not tell which alternative of a `oneof` it feeds.
  lemma AlternativesCollide(m: nat, n: nat, payload: Content)
    requires m != n && ProperContent(payload)
    ensures var a, b := Term(OneOf(m), [payload]), Term(OneOf(n), [payload]);
            Proper(a) && Proper(b) && Feed(a) == Feed(b) && !Eq(a, b)
  {
    var a, b := Term(OneOf(m), [payload]), Term(OneOf(n), [payload]);
    assert Position([Payload], Payload) == 0;
    assert FeedFields(a, 1) == FeedFields(a, 0) + FeedContent(payload);
    assert FeedFields(b, 1) == FeedFields(b, 0) + FeedContent(payload);
  }

  // ------------------------------------------------------------------
  // The hash depends on everything that is compared
  // ------------------------------------------------------------------

  // The terms differ in one place, at any depth: a scalar, the presence of an optional or the length
  // of a vector, and `locallyFree` is not on the way there.
  ghost predicate Differ(a: Term, b: Term)
    requires Proper(a) && Proper(b)
    decreases a
  {
    && a.kind == b.kind
    && exists i :: 0 <= i < |a.fields| && Fields(a.kind)[i] != LocallyFree
                   && b.fields == a.fields[i := b.fields[i]] && ContentsDiffer(a.fields[i], b.fields[i])
  }

  ghost predicate ContentsDiffer(c: Content, d: Content)
    requires ProperContent(c) && ProperContent(d)
    decreases c
  {
    if c.Scalar? && d.Scalar? then c.tokens != d.tokens
    else if c.Direct? && d.Direct? then Differ(c.t, d.t)
    else if c.Optional? && d.Optional? then
      if c.o.Some? && d.o.Some? then Differ(c.o.value, d.o.value) else c.o.Some? != d.o.Some?
    else
      && c.Vector? && d.Vector?
      && (|c.ts| != |d.ts| || exists j :: 0 <= j < |c.ts| && d.ts == c.ts[j := d.ts[j]] && Differ(c.ts[j], d.ts[j]))
  }

  // Each field has a place of its own, ...
  lemma FieldsDiffer(k: Kind, i: nat, j: nat)
    requires i < j < |Fields(k)|
    ensures Fields(k)[i] != Fields(k)[j]
  {
    hide Fields;
    if k.Par? {
      ParFields(i, j);
    } else if Analysed(k) {
      AnalysedDiffer(k, i, j);
    } else {
      PlainDiffer(k, i, j);
    }
  }

  lemma ParFields(i: nat, j: nat)
    requires i < j < |Fields(Par)|
    ensures Fields(Par)[i] != Fields(Par)[j]
    ensures i < j < |Compared(Par)| ==> Compared(Par)[i] != Compared(Par)[j]
  {
  }

  lemma AnalysedDiffer(k: Kind, i: nat, j: nat)
    requires Analysed(k) && !k.Par? && i < j < |Fields(k)|
    ensures Fields(k)[i] != Fields(k)[j]
  {
  }

  lemma PlainDiffer(k: Kind, i: nat, j: nat)
    requires !Analysed(k) && i < j < |Fields(k)|
    ensures Fields(k)[i] != Fields(k)[j]
  {
  }

  lemma {:induction false} PositionIs(fs: seq<Field>, i: nat)
    requires i < |fs| && forall j :: 0 <= j < i ==> fs[j] != fs[i]
    ensures Position(fs, fs[i]) == i
    decreases i
  {
    if i > 0 {
      PositionIs(fs[1..], i - 1);
    }
  }

  // ... and a hash names none twice.
  lemma HashedOnce(k: Kind, i: nat, j: nat)
    requires i < j < |Hashed(k)|
    ensures Hashed(k)[i] != Hashed(k)[j]
  {
    hide Fields, Compared, Hashed;
    HashesCompared(k, i);
    if Analysed(k) {
      AnalysedOnce(k, i, j);
    } else {
      PlainFields(k);
      PlainDiffer(k, i, j);
    }
  }

  lemma AnalysedOnce(k: Kind, i: nat, j: nat)
    requires Analysed(k) && i < j < |Compared(k)|
    ensures Compared(k)[i] != Compared(k)[j]
  {
    if k.Par? {
      ParFields(i, j);
    }
  }

  lemma Middle(a: seq<nat>, x: seq<nat>, y: seq<nat>, b: seq<nat>)
    requires x != y
    ensures a + x + b != a + y + b
  {
    if |x| == |y| {
      var k :| 0 <= k < |x| && x[k] != y[k];
      assert (a + x + b)[|a| + k] == x[k] && (a + y + b)[|a| + k] == y[k];
    } else {
      assert |a + x + b| != |a + y + b|;
    }
  }

  // The feed up to hashed field n, if the terms differ in field i at most, which is hashed as number h.
  lemma {:induction false} FieldsMatter(a: Term, b: Term, i: nat, h: nat, n: nat) returns (u: seq<nat>, v: seq<nat>)
    requires Proper(a) && Proper(b) && a.kind == b.kind && i < |a.fields| && b.fields == a.fields[i := b.fields[i]]
    requires h < |Hashed(a.kind)| && Hashed(a.kind)[h] == Fields(a.kind)[i] && n <= |Hashed(a.kind)|
    ensures n <= h ==> FeedFields(a, n) == FeedFields(b, n)
    ensures n > h ==> FeedFields(a, n) == u + FeedContent(a.fields[i]) + v && FeedFields(b, n) == u + FeedContent(b.fields[i]) + v
    decreases n
  {
    hide Fields, Hashed, FeedContent, Position, Proper;
    u, v := [], [];
    if n > 0 {
      u, v := FieldsMatter(a, b, i, h, n - 1);
      FeedStep(a, n);
      FeedStep(b, n);
      FieldPlace(a, b, i, h, n);
      if n - 1 == h {
        u, v := FeedFields(a, n - 1), [];
      } else if n - 1 > h {
        var j := Position(Fields(a.kind), Hashed(a.kind)[n - 1]);
        ghost var w := if j < |a.fields| then FeedContent(a.fields[j]) else [];
        Append(u, FeedContent(a.fields[i]), v, w);
        Append(u, FeedContent(b.fields[i]), v, w);
        v := v + w;
      }
    }
  }

  lemma FeedStep(t: Term, n: nat)
    requires 0 < n <= |Hashed(t.kind)|
    ensures var i := Position(Fields(t.kind), Hashed(t.kind)[n - 1]);
            FeedFields(t, n) == FeedFields(t, n - 1) + if i < |t.fields| then FeedContent(t.fields[i]) else []
  {
    hide Fields, Hashed, FeedContent, Position;
  }

  lemma Append(u: seq<nat>, x: seq<nat>, v: seq<nat>, w: seq<nat>)
    ensures u + x + v + w == u + x + (v + w)
  {
  }

  // Only hashed field h is at place i.
  lemma FieldPlace(a: Term, b: Term, i: nat, h: nat, n: nat)
    requires Proper(a) && Proper(b) && a.kind == b.kind && i < |a.fields| && b.fields == a.fields[i := b.fields[i]]
    requires h < |Hashed(a.kind)| && Hashed(a.kind)[h] == Fields(a.kind)[i] && 0 < n <= |Hashed(a.kind)|
    ensures |a.fields| == |b.fields|
    ensures var j := Position(Fields(a.kind), Hashed(a.kind)[n - 1]);
            if n - 1 == h then j == i else j < |a.fields| ==> a.fields[j] == b.fields[j]
  {
    hide Fields, Hashed, Position;
    var fs, hs := Fields(a.kind), Hashed(a.kind);
    assert |fs| == |a.fields|;
    if n - 1 == h {
      forall j | 0 <= j < i ensures fs[j] != fs[i] {
        FieldsDiffer(a.kind, j, i);
      }
      PositionIs(fs, i);
    } else {
      if h < n - 1 {
        HashedOnce(a.kind, h, n - 1);
      } else {
        HashedOnce(a.kind, n - 1, h);
      }
    }
  }

  // Terms that differ in what is compared feed different tokens.
  lemma {:induction false} DifferFeeds(a: Term, b: Term)
    requires Proper(a) && Proper(b) && Differ(a, b)
    ensures Feed(a) != Feed(b)
    decreases a, 1
  {
    var i :| 0 <= i < |a.fields| && Fields(a.kind)[i] != LocallyFree
             && b.fields == a.fields[i := b.fields[i]] && ContentsDiffer(a.fields[i], b.fields[i]);
    ContentDiffers(a.fields[i], b.fields[i]);
    hide Fields, Hashed, Compared, FeedContent, ContentsDiffer;
    ComparesAll(a.kind, i);
    HashesCompared(a.kind, 0);
    var h :| 0 <= h < |Hashed(a.kind)| && Hashed(a.kind)[h] == Fields(a.kind)[i];
    var u, v := FieldsMatter(a, b, i, h, |Hashed(a.kind)|);
    Middle(u, FeedContent(a.fields[i]), FeedContent(b.fields[i]), v);
  }

  lemma {:induction false} ContentDiffers(c: Content, d: Content)
    requires ProperContent(c) && ProperContent(d) && ContentsDiffer(c, d)
    ensures FeedContent(c) != FeedContent(d)
    decreases c, 0
  {
    hide Feed, Differ, Proper, FeedAll;
    if c.Direct? && d.Direct? {
      DifferFeeds(c.t, d.t);
    } else if c.Optional? && d.Optional? && c.o.Some? && d.o.Some? {
      DifferFeeds(c.o.value, d.o.value);
      Middle([1], Feed(c.o.value), Feed(d.o.value), []);
      assert [1] + Feed(c.o.value) + [] == FeedContent(c) && [1] + Feed(d.o.value) + [] == FeedContent(d);
    } else if c.Vector? && d.Vector? && |c.ts| == |d.ts| {
      var j :| 0 <= j < |c.ts| && d.ts == c.ts[j := d.ts[j]] && Differ(c.ts[j], d.ts[j]);
      DifferFeeds(c.ts[j], d.ts[j]);
      VectorFeeds(c.ts, d.ts, j);
    } else if !c.Scalar? {
      assert FeedContent(c)[0] != FeedContent(d)[0];
    }
  }

  lemma VectorFeeds(xs: seq<Term>, ys: seq<Term>, j: nat)
    requires j < |xs| == |ys| && ys == xs[j := ys[j]] && Feed(xs[j]) != Feed(ys[j])
    ensures FeedContent(Vector(xs)) != FeedContent(Vector(ys))
  {
    hide Feed, FeedAll;
    var u, v := AllMatter(xs, ys, j, |xs|);
    var n := [|xs|];
    Middle(n + u, Feed(xs[j]), Feed(ys[j]), v);
    assert n + u + Feed(xs[j]) + v == n + FeedAll(xs, |xs|);
    assert n + u + Feed(ys[j]) + v == n + FeedAll(ys, |ys|);
  }

  lemma {:induction false} AllMatter(xs: seq<Term>, ys: seq<Term>, j: nat, n: nat) returns (u: seq<nat>, v: seq<nat>)
    requires n <= |xs| && j < |xs| == |ys| && ys == xs[j := ys[j]]
    ensures n <= j ==> FeedAll(xs, n) == FeedAll(ys, n)
    ensures n > j ==> FeedAll(xs, n) == u + Feed(xs[j]) + v && FeedAll(ys, n) == u + Feed(ys[j]) + v
    decreases n
  {
    hide Feed;
    u, v := [], [];
    if n > 0 {
      u, v := AllMatter(xs, ys, j, n - 1);
      if n - 1 == j {
        u, v := FeedAll(xs, n - 1), [];
      } else if n - 1 > j {
        Append(u, Feed(xs[j]), v, Feed(xs[n - 1]));
        Append(u, Feed(ys[j]), v, Feed(xs[n - 1]));
        v := v + Feed(xs[n - 1]);
      }
    }
  }
}
