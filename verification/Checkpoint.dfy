/**
 Soft checkpoints as protobuf records (rholang/src/lib.rs:225-481 and 484-740).
 */
module Checkpoint {
  import opened Wrappers
  import opened Ast

  /*
   A checkpoint holds the five maps of the hot store, the event log and the produce counter.  A hash
   map is keyed by equality of terms, which ignores their `locallyFree` fields, and is listed in an
   order of its own.  A produce counter is an ordered map in which a produce is known by its hash
   alone (rspace++/src/rspace/trace/event.rs:115-139).  The records do not carry the flag `failed`
   of a produce; reverting clears it.

   A map is represented by the entries under the identities of their keys.
   */

  type Bytes = seq<nat>

  // ------------------------------------------------------------------
  // Maps whose keys are told apart by an identity
  // ------------------------------------------------------------------

  ghost predicate Keyed<I, K, V>(m: map<I, (K, V)>, ident: K -> I) {
    forall k :: k in m ==> ident(m[k].0) == k
  }

  // s lists the entries of m, in some order.
  ghost predicate Lists<I, K, V>(m: map<I, (K, V)>, ident: K -> I, s: seq<(K, V)>) {
    && (forall i, j :: 0 <= i < j < |s| ==> ident(s[i].0) != ident(s[j].0))
    && (forall i :: 0 <= i < |s| ==> ident(s[i].0) in m && m[ident(s[i].0)] == s[i])
    && (forall k :: k in m ==> m[k] in s)
  }

  // insert: an equal key stays and its value is replaced.
  function Inserted<I, K, V>(m: map<I, (K, V)>, ident: K -> I, e: (K, V)): map<I, (K, V)> {
    var k := ident(e.0);
    m[k := (if k in m then m[k].0 else e.0, e.1)]
  }

  function Collected<I, K, V>(s: seq<(K, V)>, ident: K -> I): map<I, (K, V)> {
    if s == [] then map[] else Inserted(Collected(s[..|s| - 1], ident), ident, s[|s| - 1])
  }

  // Inserting entries with different keys keeps each of them.
  lemma {:induction false} CollectedAre<I, K, V>(s: seq<(K, V)>, ident: K -> I)
    requires forall i, j :: 0 <= i < j < |s| ==> ident(s[i].0) != ident(s[j].0)
    ensures forall i :: 0 <= i < |s| ==>
              ident(s[i].0) in Collected(s, ident) && Collected(s, ident)[ident(s[i].0)] == s[i]
    ensures forall k :: k in Collected(s, ident) ==> Collected(s, ident)[k] in s && k == ident(Collected(s, ident)[k].0)
  {
    if s != [] {
      var t, e := s[..|s| - 1], s[|s| - 1];
      CollectedAre(t, ident);
      var m := Collected(t, ident);
      assert forall i :: 0 <= i < |t| ==> t[i] == s[i] && ident(t[i].0) != ident(e.0);
      assert ident(e.0) !in m;
      assert Collected(s, ident) == m[ident(e.0) := e];
      forall k | k in Collected(s, ident) ensures Collected(s, ident)[k] in s && k == ident(Collected(s, ident)[k].0) {
        assert k != ident(e.0) ==> m[k] in t;
        assert k == ident(e.0) ==> e in s;
      }
    }
  }

  lemma CollectedLists<I, K, V>(m: map<I, (K, V)>, ident: K -> I, s: seq<(K, V)>)
    requires Keyed(m, ident) && Lists(m, ident, s)
    ensures Collected(s, ident) == m
  {
    CollectedAre(s, ident);
    var c := Collected(s, ident);
    forall k | k in m ensures k in c && c[k] == m[k] {
      assert m[k] in s && ident(m[k].0) == k;
    }
    forall k | k in c ensures k in m {
      assert c[k] in s;
    }
  }

  // The map with every entry rewritten.
  function Mapped<I, K, V>(m: map<I, (K, V)>, f: ((K, V)) -> (K, V)): map<I, (K, V)> {
    map k | k in m :: f(m[k])
  }

  lemma MappedLists<I, K, V>(m: map<I, (K, V)>, ident: K -> I, s: seq<(K, V)>, f: ((K, V)) -> (K, V))
    requires Keyed(m, ident) && Lists(m, ident, s) && forall e :: ident(f(e).0) == ident(e.0)
    ensures Keyed(Mapped(m, f), ident) && Lists(Mapped(m, f), ident, Each(s, f))
  {
    var t := Each(s, f);
    assert forall i :: 0 <= i < |t| ==> t[i] == f(s[i]);
    forall k | k in m ensures f(m[k]) in t {
      var i :| 0 <= i < |s| && s[i] == m[k];
      assert t[i] == f(m[k]);
    }
  }

  function Each<A, B>(s: seq<A>, f: A -> B): (r: seq<B>)
    ensures |r| == |s| && forall i :: 0 <= i < |s| ==> r[i] == f(s[i])
  {
    seq(|s|, i requires 0 <= i < |s| => f(s[i]))
  }

  // All results, if there is one for every element; otherwise an unwrap has failed.
  function All<A, B>(s: seq<A>, f: A -> Option<B>): Option<seq<B>> {
    if s == [] then Some([])
    else
      var front, last := All(s[..|s| - 1], f), f(s[|s| - 1]);
      if front.None? || last.None? then None else Some(front.value + [last.value])
  }

  lemma {:induction false} AllEach<A, B, C>(s: seq<A>, enc: A -> B, dec: B -> Option<C>, f: A -> C)
    requires forall a :: a in s ==> dec(enc(a)) == Some(f(a))
    ensures All(Each(s, enc), dec) == Some(Each(s, f))
  {
    if s != [] {
      var t := s[..|s| - 1];
      AllEach(t, enc, dec, f);
      assert Each(s, enc)[..|s| - 1] == Each(t, enc);
      assert Each(s, f) == Each(t, f) + [f(s[|s| - 1])];
    } else {
      assert Each(s, f) == [];
    }
  }

  // Saving a map's entries and restoring a map from them.
  function Restored<I, K, V, E>(entries: seq<E>, dec: E -> Option<(K, V)>, ident: K -> I): Option<map<I, (K, V)>> {
    var s := All(entries, dec);
    if s.None? then None else Some(Collected(s.value, ident))
  }

  lemma RestoredMap<I, K, V, E>(m: map<I, (K, V)>, ident: K -> I, s: seq<(K, V)>, enc: ((K, V)) -> E,
                                dec: E -> Option<(K, V)>, f: ((K, V)) -> (K, V))
    requires Keyed(m, ident) && Lists(m, ident, s)
    requires forall e :: dec(enc(e)) == Some(f(e)) && ident(f(e).0) == ident(e.0)
    ensures Restored(Each(s, enc), dec, ident) == Some(Mapped(m, f))
  {
    AllEach(s, enc, dec, f);
    MappedLists(m, ident, s, f);
    CollectedLists(Mapped(m, f), ident, Each(s, f));
  }

  // The entries of m, encoded one by one in some order.
  ghost predicate Saved<I, K(!new), V(!new), E>(m: map<I, (K, V)>, ident: K -> I, enc: ((K, V)) -> E, entries: seq<E>) {
    exists s :: Lists(m, ident, s) && entries == Each(s, enc)
  }

  lemma RestoredSaved<I, K(!new), V(!new), E>(m: map<I, (K, V)>, ident: K -> I, enc: ((K, V)) -> E,
                                              dec: E -> Option<(K, V)>, f: ((K, V)) -> (K, V), entries: seq<E>)
    requires Keyed(m, ident) && Saved(m, ident, enc, entries)
    requires forall e :: dec(enc(e)) == Some(f(e)) && ident(f(e).0) == ident(e.0)
    ensures Restored(entries, dec, ident) == Some(Mapped(m, f))
  {
    var s :| Lists(m, ident, s) && entries == Each(s, enc);
    RestoredMap(m, ident, s, enc, dec, f);
  }

  lemma RestoredSame<I, K(!new), V(!new), E>(m: map<I, (K, V)>, ident: K -> I, enc: ((K, V)) -> E,
                                             dec: E -> Option<(K, V)>, entries: seq<E>)
    requires Keyed(m, ident) && Saved(m, ident, enc, entries)
    requires forall e :: dec(enc(e)) == Some(e)
    ensures Restored(entries, dec, ident) == Some(m)
  {
    var f := (e: (K, V)) => e;
    RestoredSaved(m, ident, enc, dec, f, entries);
    assert Mapped(m, f) == m;
  }

  // Iterating over a map.
  method Listing<I, K, V>(m: map<I, (K, V)>, ghost ident: K -> I) returns (s: seq<(K, V)>)
    requires Keyed(m, ident)
    ensures Lists(m, ident, s)
  {
    s := [];
    var left := m.Keys;
    while left != {}
      invariant left <= m.Keys
      invariant forall i :: 0 <= i < |s| ==> ident(s[i].0) in m.Keys - left && m[ident(s[i].0)] == s[i]
      invariant forall i, j :: 0 <= i < j < |s| ==> ident(s[i].0) != ident(s[j].0)
      invariant forall k :: k in m.Keys - left ==> m[k] in s
      decreases left
    {
      var k :| k in left;
      left := left - {k};
      ghost var was := s;
      s := s + [m[k]];
      assert s[|was|] == m[k];
      assert forall q :: q in was ==> q in s;
    }
  }

  // for (key, value) in map { entries.push(..) }
  method Save<I, K(!new), V(!new), E>(m: map<I, (K, V)>, ghost ident: K -> I, enc: ((K, V)) -> E)
    returns (entries: seq<E>)
    requires Keyed(m, ident)
    ensures Saved(m, ident, enc, entries)
  {
    var order := Listing(m, ident);
    entries := [];
    for i := 0 to |order|
      invariant entries == Each(order[..i], enc)
    {
      entries := entries + [enc(order[i])];
      assert order[..i + 1] == order[..i] + [order[i]];
    }
    assert order[..|order|] == order;
  }

  // for entry in entries { map.insert(key, value) }
  method Load<I(==), K, V, E>(entries: seq<E>, dec: E -> Option<(K, V)>, ident: K -> I)
    returns (r: Option<map<I, (K, V)>>)
    ensures r == Restored(entries, dec, ident)
  {
    var m: map<I, (K, V)> := map[];
    ghost var s: seq<(K, V)> := [];
    for i := 0 to |entries|
      invariant All(entries[..i], dec) == Some(s) && m == Collected(s, ident)
    {
      assert entries[..i + 1][..i] == entries[..i] && entries[..i + 1][i] == entries[i];
      var e := dec(entries[i]);
      if e.None? {
        AllNone(entries, dec, i);
        return None;
      }
      assert (s + [e.value])[..|s|] == s;
      s := s + [e.value];
      m := Inserted(m, ident, e.value);
    }
    assert entries[..|entries|] == entries;
    r := Some(m);
  }

  lemma {:induction false} AllNone<A, B>(s: seq<A>, f: A -> Option<B>, i: nat)
    requires i < |s| && f(s[i]).None?
    ensures All(s, f).None?
  {
    if i < |s| - 1 {
      AllNone(s[..|s| - 1], f, i);
    }
  }

  // ------------------------------------------------------------------
  // Records
  // ------------------------------------------------------------------

  datatype Produce = Produce(channelHash: Bytes, hash: Bytes, persistent: bool, isDeterministic: bool,
                             outputValue: seq<Bytes>, failed: bool)

  datatype Consume = Consume(channelHashes: seq<Bytes>, hash: Bytes, persistent: bool)

  datatype Datum = Datum(a: Term, persist: bool, source: Produce)

  datatype Waiting = Waiting(patterns: seq<Term>, continuation: Term, persist: bool, peeks: set<int>, source: Consume)

  // The identity of a produce is its hash.
  type Counter = map<Bytes, (Produce, int)>

  datatype Event =
    | Comm(consume: Consume, produces: seq<Produce>, peeks: set<int>, timesRepeated: Counter)
    | ProduceEvent(produce: Produce)
    | ConsumeEvent(consume: Consume)

  type ByTerm<V> = map<Term, (Term, V)>
  type ByTerms<V> = map<seq<Term>, (seq<Term>, V)>

  datatype HotStore = HotStore(
    continuations: ByTerms<seq<Waiting>>,
    installedContinuations: ByTerms<Waiting>,
    data: ByTerm<seq<Datum>>,
    joins: ByTerm<seq<seq<Term>>>,
    installedJoins: ByTerm<seq<seq<Term>>>)

  datatype SoftCheckpoint = SoftCheckpoint(store: HotStore, log: seq<Event>, counter: Counter)

  function TermsId(ts: seq<Term>): seq<Term> { Each(ts, Erased) }

  function HashOf(p: Produce): Bytes { p.hash }

  ghost predicate Proper(c: SoftCheckpoint) {
    && Keyed(c.store.continuations, TermsId) && Keyed(c.store.installedContinuations, TermsId)
    && Keyed(c.store.data, Erased) && Keyed(c.store.joins, Erased) && Keyed(c.store.installedJoins, Erased)
    && Keyed(c.counter, HashOf)
    && forall e :: e in c.log && e.Comm? ==> Keyed(e.timesRepeated, HashOf)
  }

  datatype ProduceProto = ProduceProto(channelHash: Bytes, hash: Bytes, persistent: bool, isDeterministic: bool,
                                       outputValue: seq<Bytes>)

  datatype ConsumeProto = ConsumeProto(channelHashes: seq<Bytes>, hash: Bytes, persistent: bool)

  datatype DatumProto = DatumProto(a: Option<Term>, persist: bool, source: Option<ProduceProto>)

  datatype WaitingProto = WaitingProto(patterns: seq<Term>, continuation: Option<Term>, persist: bool, peeks: seq<int>,
                                       source: Option<ConsumeProto>)

  datatype CounterEntry = CounterEntry(key: Option<ProduceProto>, value: int)

  datatype EventProto =
    | CommProto(consume: Option<ConsumeProto>, produces: seq<ProduceProto>, peeks: seq<int>,
                timesRepeated: seq<CounterEntry>)
    | ProduceEventProto(p: ProduceProto)
    | ConsumeEventProto(c: ConsumeProto)
    | NoIoEvent

  datatype ContEntry = ContEntry(key: seq<Term>, value: seq<WaitingProto>)
  datatype InstalledEntry = InstalledEntry(key: seq<Term>, value: Option<WaitingProto>)
  datatype DataEntry = DataEntry(key: Option<Term>, value: seq<DatumProto>)
  datatype JoinsEntry = JoinsEntry(key: Option<Term>, value: seq<seq<Term>>)

  datatype HotStoreProto = HotStoreProto(
    continuations: seq<ContEntry>,
    installedContinuations: seq<InstalledEntry>,
    data: seq<DataEntry>,
    joins: seq<JoinsEntry>,
    installedJoins: seq<JoinsEntry>)

  datatype SoftCheckpointProto = SoftCheckpointProto(
    cacheSnapshot: Option<HotStoreProto>,
    log: seq<Option<EventProto>>,
    produceCounter: seq<CounterEntry>)

  // ------------------------------------------------------------------
  // Single records
  // ------------------------------------------------------------------

  function EncodeProduce(p: Produce): ProduceProto {
    ProduceProto(p.channelHash, p.hash, p.persistent, p.isDeterministic, p.outputValue)
  }

  function DecodeProduce(p: ProduceProto): Produce {
    Produce(p.channelHash, p.hash, p.persistent, p.isDeterministic, p.outputValue, false)
  }

  function EncodeConsume(c: Consume): ConsumeProto { ConsumeProto(c.channelHashes, c.hash, c.persistent) }

  function DecodeConsume(c: ConsumeProto): Consume { Consume(c.channelHashes, c.hash, c.persistent) }

  function EncodeDatum(d: Datum): DatumProto { DatumProto(Some(d.a), d.persist, Some(EncodeProduce(d.source))) }

  function DecodeDatum(d: DatumProto): Option<Datum> {
    if d.a.None? || d.source.None? then None else Some(Datum(d.a.value, d.persist, DecodeProduce(d.source.value)))
  }

  // An ordered set, in ascending order.
  function Ascending(s: set<int>): (r: seq<int>)
    ensures forall x :: x in r <==> x in s
    decreases |s|
  {
    if s == {} then []
    else
      var m := Least(s);
      [m] + Ascending(s - {m})
  }

  ghost predicate IsLeast(s: set<int>, m: int) {
    m in s && forall x :: x in s ==> m <= x
  }

  function Least(s: set<int>): (m: int)
    requires s != {}
    ensures IsLeast(s, m)
  {
    HasLeast(s);
    var m :| m in s && forall x :: x in s ==> m <= x;
    m
  }

  lemma {:induction false} HasLeast(s: set<int>)
    requires s != {}
    ensures exists m :: IsLeast(s, m)
    decreases |s|
  {
    assert (forall x :: x !in s) ==> s == {};
    var a :| a in s;
    var t := s - {a};
    if t == {} {
      assert forall x :: x in s && x != a ==> x in t;
      assert IsLeast(s, a);
    } else {
      HasLeast(t);
      var m :| IsLeast(t, m);
      assert forall x :: x in s && x != a ==> x in t;
      assert IsLeast(s, if a < m then a else m);
    }
  }

  function SetOf(s: seq<int>): set<int> { set x | x in s }

  function EncodeWaiting(w: Waiting): WaitingProto {
    WaitingProto(w.patterns, Some(w.continuation), w.persist, Ascending(w.peeks), Some(EncodeConsume(w.source)))
  }

  function DecodeWaiting(w: WaitingProto): Option<Waiting> {
    if w.continuation.None? || w.source.None? then None
    else Some(Waiting(w.patterns, w.continuation.value, w.persist, SetOf(w.peeks), DecodeConsume(w.source.value)))
  }

  function EncodeCount(e: (Produce, int)): CounterEntry { CounterEntry(Some(EncodeProduce(e.0)), e.1) }

  function DecodeCount(e: CounterEntry): Option<(Produce, int)> {
    if e.key.None? then None else Some((DecodeProduce(e.key.value), e.value))
  }

  // ------------------------------------------------------------------
  // Entries of the maps
  // ------------------------------------------------------------------

  function EncodeConts(e: (seq<Term>, seq<Waiting>)): ContEntry { ContEntry(e.0, Each(e.1, EncodeWaiting)) }

  function DecodeConts(e: ContEntry): Option<(seq<Term>, seq<Waiting>)> {
    var v := All(e.value, DecodeWaiting);
    if v.None? then None else Some((e.key, v.value))
  }

  function EncodeInstalled(e: (seq<Term>, Waiting)): InstalledEntry { InstalledEntry(e.0, Some(EncodeWaiting(e.1))) }

  function DecodeInstalled(e: InstalledEntry): Option<(seq<Term>, Waiting)> {
    if e.value.None? then None
    else
      var w := DecodeWaiting(e.value.value);
      if w.None? then None else Some((e.key, w.value))
  }

  function EncodeData(e: (Term, seq<Datum>)): DataEntry { DataEntry(Some(e.0), Each(e.1, EncodeDatum)) }

  function DecodeData(e: DataEntry): Option<(Term, seq<Datum>)> {
    var v := All(e.value, DecodeDatum);
    if e.key.None? || v.None? then None else Some((e.key.value, v.value))
  }

  function EncodeJoins(e: (Term, seq<seq<Term>>)): JoinsEntry { JoinsEntry(Some(e.0), e.1) }

  function DecodeJoins(e: JoinsEntry): Option<(Term, seq<seq<Term>>)> {
    if e.key.None? then None else Some((e.key.value, e.value))
  }

  function DecodeEvent(e: Option<EventProto>): Option<Event> {
    if e.None? then None
    else match e.value
      case CommProto(consume, produces, peeks, times) =>
        var t := Restored(times, DecodeCount, HashOf);
        if consume.None? || t.None? then None
        else Some(Comm(DecodeConsume(consume.value), Each(produces, DecodeProduce), SetOf(peeks), t.value))
      case ProduceEventProto(p) => Some(ProduceEvent(DecodeProduce(p)))
      case ConsumeEventProto(c) => Some(ConsumeEvent(DecodeConsume(c)))
      case NoIoEvent => None
  }

  // revert_to_soft_checkpoint
  function Reverted(p: SoftCheckpointProto): Option<SoftCheckpoint> {
    if p.cacheSnapshot.None? then None
    else
      var s := p.cacheSnapshot.value;
      var conts := Restored(s.continuations, DecodeConts, TermsId);
      var installed := Restored(s.installedContinuations, DecodeInstalled, TermsId);
      var data := Restored(s.data, DecodeData, Erased);
      var joins := Restored(s.joins, DecodeJoins, Erased);
      var installedJoins := Restored(s.installedJoins, DecodeJoins, Erased);
      var log := All(p.log, DecodeEvent);
      var counter := Restored(p.produceCounter, DecodeCount, HashOf);
      if conts.None? || installed.None? || data.None? || joins.None? || installedJoins.None? || log.None? || counter.None?
      then None
      else Some(SoftCheckpoint(HotStore(conts.value, installed.value, data.value, joins.value, installedJoins.value),
                               log.value, counter.value))
  }

  // ------------------------------------------------------------------
  // What is left of a checkpoint: every produce has lost its flag
  // ------------------------------------------------------------------

  function Cleared(p: Produce): Produce { p.(failed := false) }

  function ClearedDatum(d: Datum): Datum { d.(source := Cleared(d.source)) }

  function ClearedData(e: (Term, seq<Datum>)): (Term, seq<Datum>) { (e.0, Each(e.1, ClearedDatum)) }

  function ClearedCount(e: (Produce, int)): (Produce, int) { (Cleared(e.0), e.1) }

  function ClearedEvent(e: Event): Event {
    match e
    case Comm(consume, produces, peeks, times) =>
      Comm(consume, Each(produces, Cleared), peeks, Mapped(times, ClearedCount))
    case ProduceEvent(p) => ProduceEvent(Cleared(p))
    case ConsumeEvent(c) => e
  }

  function ClearedCheckpoint(c: SoftCheckpoint): SoftCheckpoint {
    SoftCheckpoint(c.store.(data := Mapped(c.store.data, ClearedData)), Each(c.log, ClearedEvent),
                   Mapped(c.counter, ClearedCount))
  }

  ghost predicate NoneFailed(c: SoftCheckpoint) {
    && DataFine(c.store.data)
    && (forall e :: e in c.log ==> EventFine(e))
    && CounterFine(c.counter)
  }

  ghost predicate DataFine(d: ByTerm<seq<Datum>>) {
    forall k, i :: k in d && 0 <= i < |d[k].1| ==> !d[k].1[i].source.failed
  }

  ghost predicate CounterFine(c: Counter) {
    forall k :: k in c ==> !c[k].0.failed
  }

  ghost predicate EventFine(e: Event) {
    match e
    case Comm(_, produces, _, times) => (forall i :: 0 <= i < |produces| ==> !produces[i].failed) && CounterFine(times)
    case ProduceEvent(p) => !p.failed
    case ConsumeEvent(_) => true
  }

  // ------------------------------------------------------------------
  // The round trip
  // ------------------------------------------------------------------

  ghost predicate EncodesEvent(e: Event, p: Option<EventProto>) {
    match e
    case Comm(consume, produces, peeks, times) =>
      && p.Some? && p.value.CommProto?
      && p.value.consume == Some(EncodeConsume(consume)) && p.value.produces == Each(produces, EncodeProduce)
      && p.value.peeks == Ascending(peeks) && Saved(times, HashOf, EncodeCount, p.value.timesRepeated)
    case ProduceEvent(x) => p == Some(ProduceEventProto(EncodeProduce(x)))
    case ConsumeEvent(x) => p == Some(ConsumeEventProto(EncodeConsume(x)))
  }

  ghost predicate EncodesStore(s: HotStore, p: HotStoreProto) {
    && Saved(s.continuations, TermsId, EncodeConts, p.continuations)
    && Saved(s.installedContinuations, TermsId, EncodeInstalled, p.installedContinuations)
    && Saved(s.data, Erased, EncodeData, p.data)
    && Saved(s.joins, Erased, EncodeJoins, p.joins)
    && Saved(s.installedJoins, Erased, EncodeJoins, p.installedJoins)
  }

  // p is a record of c, whatever the orders in which the maps are listed.
  ghost predicate Encodes(c: SoftCheckpoint, p: SoftCheckpointProto) {
    && p.cacheSnapshot.Some? && EncodesStore(c.store, p.cacheSnapshot.value)
    && |p.log| == |c.log| && (forall i :: 0 <= i < |c.log| ==> EncodesEvent(c.log[i], p.log[i]))
    && Saved(c.counter, HashOf, EncodeCount, p.produceCounter)
  }

  lemma WaitingTrip(w: Waiting)
    ensures DecodeWaiting(EncodeWaiting(w)) == Some(w)
  {
    assert SetOf(Ascending(w.peeks)) == w.peeks;
  }

  lemma ContsTrip(e: (seq<Term>, seq<Waiting>))
    ensures DecodeConts(EncodeConts(e)) == Some(e)
  {
    var same := (w: Waiting) => w;
    forall w ensures DecodeWaiting(EncodeWaiting(w)) == Some(same(w)) {
      WaitingTrip(w);
    }
    AllEach(e.1, EncodeWaiting, DecodeWaiting, same);
    assert Each(e.1, same) == e.1;
  }

  lemma DataTrip(e: (Term, seq<Datum>))
    ensures DecodeData(EncodeData(e)) == Some(ClearedData(e))
  {
    AllEach(e.1, EncodeDatum, DecodeDatum, ClearedDatum);
  }

  lemma StoreTrip(s: HotStore, p: HotStoreProto)
    requires EncodesStore(s, p)
    requires Keyed(s.continuations, TermsId) && Keyed(s.installedContinuations, TermsId)
    requires Keyed(s.data, Erased) && Keyed(s.joins, Erased) && Keyed(s.installedJoins, Erased)
    ensures Restored(p.continuations, DecodeConts, TermsId) == Some(s.continuations)
    ensures Restored(p.installedContinuations, DecodeInstalled, TermsId) == Some(s.installedContinuations)
    ensures Restored(p.data, DecodeData, Erased) == Some(Mapped(s.data, ClearedData))
    ensures Restored(p.joins, DecodeJoins, Erased) == Some(s.joins)
    ensures Restored(p.installedJoins, DecodeJoins, Erased) == Some(s.installedJoins)
  {
    forall e ensures DecodeConts(EncodeConts(e)) == Some(e) {
      ContsTrip(e);
    }
    forall e ensures DecodeInstalled(EncodeInstalled(e)) == Some(e) {
      WaitingTrip(e.1);
    }
    forall e ensures DecodeData(EncodeData(e)) == Some(ClearedData(e)) {
      DataTrip(e);
    }
    RestoredSame(s.continuations, TermsId, EncodeConts, DecodeConts, p.continuations);
    RestoredSame(s.installedContinuations, TermsId, EncodeInstalled, DecodeInstalled, p.installedContinuations);
    RestoredSaved(s.data, Erased, EncodeData, DecodeData, ClearedData, p.data);
    RestoredSame(s.joins, Erased, EncodeJoins, DecodeJoins, p.joins);
    RestoredSame(s.installedJoins, Erased, EncodeJoins, DecodeJoins, p.installedJoins);
  }

  lemma EventTrip(e: Event, p: Option<EventProto>)
    requires EncodesEvent(e, p) && (e.Comm? ==> Keyed(e.timesRepeated, HashOf))
    ensures DecodeEvent(p) == Some(ClearedEvent(e))
  {
    if e.Comm? {
      RestoredSaved(e.timesRepeated, HashOf, EncodeCount, DecodeCount, ClearedCount, p.value.timesRepeated);
      assert SetOf(Ascending(e.peeks)) == e.peeks;
      assert Each(Each(e.produces, EncodeProduce), DecodeProduce) == Each(e.produces, Cleared);
    }
  }

  lemma {:induction false} LogTrip(log: seq<Event>, p: seq<Option<EventProto>>)
    requires |p| == |log| && forall i :: 0 <= i < |log| ==> EncodesEvent(log[i], p[i])
    requires forall e :: e in log && e.Comm? ==> Keyed(e.timesRepeated, HashOf)
    ensures All(p, DecodeEvent) == Some(Each(log, ClearedEvent))
  {
    hide EncodesEvent, DecodeEvent, ClearedEvent, Keyed;
    if log == [] {
      assert Each(log, ClearedEvent) == [];
    } else {
      var n := |log| - 1;
      EventTrip(log[n], p[n]);
      LogTrip(log[..n], p[..n]);
      assert Each(log, ClearedEvent) == Each(log[..n], ClearedEvent) + [ClearedEvent(log[n])];
    }
  }

  // Reverting to the record of a checkpoint restores all of it but the flags of failed produces.
  lemma RoundTrip(c: SoftCheckpoint, p: SoftCheckpointProto)
    requires Proper(c) && Encodes(c, p)
    ensures Reverted(p) == Some(ClearedCheckpoint(c))
  {
    hide Restored, All, Mapped, EncodesEvent, EncodesStore, Saved, Keyed;
    StoreTrip(c.store, p.cacheSnapshot.value);
    LogTrip(c.log, p.log);
    RestoredSaved(c.counter, HashOf, EncodeCount, DecodeCount, ClearedCount, p.produceCounter);
  }

  // So the checkpoint comes back exactly when it holds no failed produce.
  lemma RoundTripExact(c: SoftCheckpoint, p: SoftCheckpointProto)
    requires Proper(c) && Encodes(c, p)
    ensures Reverted(p) == Some(c) <==> NoneFailed(c)
  {
    RoundTrip(c, p);
    DataSame(c.store.data);
    EventsSame(c.log);
    CounterSame(c.counter);
  }

  lemma DatumsSame(ds: seq<Datum>)
    ensures Each(ds, ClearedDatum) == ds <==> forall i :: 0 <= i < |ds| ==> !ds[i].source.failed
  {
    var t := Each(ds, ClearedDatum);
    assert forall i :: 0 <= i < |ds| ==> (t[i] == ds[i] <==> !ds[i].source.failed);
    if forall i :: 0 <= i < |ds| ==> !ds[i].source.failed {
      assert t == ds;
    }
  }

  lemma DataSame(d: ByTerm<seq<Datum>>)
    ensures Mapped(d, ClearedData) == d <==> DataFine(d)
  {
    var m := Mapped(d, ClearedData);
    forall k | k in d ensures m[k] == d[k] <==> forall i :: 0 <= i < |d[k].1| ==> !d[k].1[i].source.failed {
      DatumsSame(d[k].1);
    }
    if DataFine(d) {
      assert m == d;
    }
  }

  lemma CounterSame(c: Counter)
    ensures Mapped(c, ClearedCount) == c <==> CounterFine(c)
  {
    var m := Mapped(c, ClearedCount);
    forall k | k in c ensures m[k] == c[k] <==> !c[k].0.failed {
    }
    if CounterFine(c) {
      assert m == c;
    }
  }

  lemma EventSame(e: Event)
    ensures ClearedEvent(e) == e <==> EventFine(e)
  {
    if e.Comm? {
      CounterSame(e.timesRepeated);
      var ps := Each(e.produces, Cleared);
      if EventFine(e) {
        assert ps == e.produces;
      }
      if ClearedEvent(e) == e {
        assert forall i :: 0 <= i < |e.produces| ==> e.produces[i] == Cleared(e.produces[i]);
      }
    }
  }

  lemma EventsSame(log: seq<Event>)
    ensures Each(log, ClearedEvent) == log <==> forall e :: e in log ==> EventFine(e)
  {
    var t := Each(log, ClearedEvent);
    forall i | 0 <= i < |log| ensures t[i] == log[i] <==> EventFine(log[i]) {
      EventSame(log[i]);
    }
    if forall e :: e in log ==> EventFine(e) {
      assert t == log;
    }
  }

  // ------------------------------------------------------------------
  // create_soft_checkpoint and revert_to_soft_checkpoint
  // ------------------------------------------------------------------

  method EncodeEvent(e: Event) returns (p: Option<EventProto>)
    requires e.Comm? ==> Keyed(e.timesRepeated, HashOf)
    ensures EncodesEvent(e, p)
  {
    match e
    case Comm(consume, produces, peeks, times) =>
      var entries := Save(times, HashOf, EncodeCount);
      p := Some(CommProto(Some(EncodeConsume(consume)), Each(produces, EncodeProduce), Ascending(peeks), entries));
    case ProduceEvent(x) => p := Some(ProduceEventProto(EncodeProduce(x)));
    case ConsumeEvent(x) => p := Some(ConsumeEventProto(EncodeConsume(x)));
  }

  method CreateSoftCheckpoint(c: SoftCheckpoint) returns (p: SoftCheckpointProto)
    requires Proper(c)
    ensures Encodes(c, p)
  {
    var conts := Save(c.store.continuations, TermsId, EncodeConts);
    var installed := Save(c.store.installedContinuations, TermsId, EncodeInstalled);
    var data := Save(c.store.data, Erased, EncodeData);
    var joins := Save(c.store.joins, Erased, EncodeJoins);
    var installedJoins := Save(c.store.installedJoins, Erased, EncodeJoins);
    var log: seq<Option<EventProto>> := [];
    for i := 0 to |c.log|
      invariant |log| == i && forall j :: 0 <= j < i ==> EncodesEvent(c.log[j], log[j])
    {
      var e := EncodeEvent(c.log[i]);
      log := log + [e];
    }
    var counter := Save(c.counter, HashOf, EncodeCount);
    p := SoftCheckpointProto(Some(HotStoreProto(conts, installed, data, joins, installedJoins)), log, counter);
  }

  // A missing part makes an unwrap fail.
  method RevertToSoftCheckpoint(p: SoftCheckpointProto) returns (r: Option<SoftCheckpoint>)
    ensures r == Reverted(p)
  {
    if p.cacheSnapshot.None? {
      return None;
    }
    var s := p.cacheSnapshot.value;
    var conts := Load(s.continuations, DecodeConts, TermsId);
    var installed := Load(s.installedContinuations, DecodeInstalled, TermsId);
    var data := Load(s.data, DecodeData, Erased);
    var joins := Load(s.joins, DecodeJoins, Erased);
    var installedJoins := Load(s.installedJoins, DecodeJoins, Erased);
    var log := All(p.log, DecodeEvent);
    var counter := Load(p.produceCounter, DecodeCount, HashOf);
    if conts.None? || installed.None? || data.None? || joins.None? || installedJoins.None? || log.None? || counter.None? {
      return None;
    }
    r := Some(SoftCheckpoint(HotStore(conts.value, installed.value, data.value, joins.value, installedJoins.value),
                             log.value, counter.value));
  }
}
