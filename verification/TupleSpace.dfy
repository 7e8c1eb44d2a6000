/**
 Matching data with the continuations that wait for them
 (rspace++/src/rspace/space_matcher.rs:24-174, rspace++/src/rspace/rspace.rs:650-658 and 1076-1134).

 Data wait on channels for continuations, and continuations wait for data on the channels that
 they join.  Data and continuations are tried in an arbitrary order, which is a parameter here.
 A join may name a channel more than once; it then takes different data for its positions, except
 that a persistent datum may serve several.
 */
module TupleSpace {
  import opened Wrappers

  type Chan = nat
  type Pattern = nat
  type Payload = nat

  datatype Datum = Datum(a: Payload, persist: bool, source: nat)
  datatype Waiting = Waiting(patterns: seq<Pattern>, continuation: nat, persist: bool, peeks: set<nat>, source: nat)

  // The matcher: what a pattern makes of a datum, if it matches.
  type Matcher = (Pattern, Payload) -> Option<Payload>

  // A datum with its index in the store; -1 is the datum being produced.
  datatype Indexed = Indexed(d: Datum, index: int)

  datatype Candidate = Candidate(channel: Chan, datum: Datum, removed: Payload, index: int)

  type Cache = map<Chan, seq<Indexed>>

  // The contents of the cache entries that a match has changed, in the order of the changes.
  type Saved = seq<(Chan, seq<Indexed>)>

  predicate Matches(m: Matcher, p: Pattern, d: Datum) {
    m(p, d.a).Some?
  }

  predicate Distinct<T(==)>(s: seq<T>) {
    forall i, j :: 0 <= i < j < |s| ==> s[i] != s[j]
  }

  // ------------------------------------------------------------------
  // Finding one datum
  // ------------------------------------------------------------------

  // The first datum that matches, or the number of data.
  function FirstAt(m: Matcher, p: Pattern, data: seq<Indexed>): (k: nat)
    ensures k <= |data| && (forall j :: 0 <= j < k ==> !Matches(m, p, data[j].d))
    ensures k < |data| ==> Matches(m, p, data[k].d)
  {
    if data == [] || Matches(m, p, data[0].d) then 0 else 1 + FirstAt(m, p, data[1..])
  }

  function CandidateFor(m: Matcher, c: Chan, p: Pattern, x: Indexed): Candidate
    requires Matches(m, p, x.d)
  {
    Candidate(c, x.d.(a := m(p, x.d.a).value), x.d.a, x.index)
  }

  function Pick(m: Matcher, c: Chan, p: Pattern, data: seq<Indexed>): Option<Candidate> {
    var k := FirstAt(m, p, data);
    if k == |data| then None else Some(CandidateFor(m, c, p, data[k]))
  }

  function Without<T>(s: seq<T>, k: nat): seq<T>
    requires k < |s|
  {
    s[..k] + s[k + 1..]
  }

  // What the cache holds afterwards: a persistent datum stays.
  function Rest(m: Matcher, p: Pattern, data: seq<Indexed>): seq<Indexed> {
    var k := FirstAt(m, p, data);
    if k == |data| || data[k].d.persist then data else Without(data, k)
  }

  ghost predicate IsFirst(m: Matcher, p: Pattern, data: seq<Indexed>, k: nat)
    requires k < |data|
  {
    m(p, data[k].d.a).Some? && forall j :: 0 <= j < k ==> m(p, data[j].d.a).None?
  }

  // The payload is what the matcher makes of the datum; everything else is the datum's.
  ghost predicate Delivers(m: Matcher, c: Chan, p: Pattern, x: Indexed, r: Candidate) {
    && r.channel == c && r.index == x.index && r.removed == x.d.a
    && m(p, x.d.a) == Some(r.datum.a) && r.datum.persist == x.d.persist && r.datum.source == x.d.source
  }

  // find_matching_data_candidate: the first datum that matches.
  method FindMatching(m: Matcher, c: Chan, data: seq<Indexed>, p: Pattern)
    returns (r: Option<Candidate>, rest: seq<Indexed>)
    ensures r == Pick(m, c, p, data) && rest == Rest(m, p, data)
    ensures r.None? <==> forall k :: 0 <= k < |data| ==> m(p, data[k].d.a).None?
    ensures r.None? ==> rest == data
    ensures r.Some? ==> exists k :: 0 <= k < |data| && IsFirst(m, p, data, k) && Delivers(m, c, p, data[k], r.value)
                                    && rest == if data[k].d.persist then data else data[..k] + data[k + 1..]
  {
    for k := 0 to |data|
      invariant k <= FirstAt(m, p, data)
    {
      var x := data[k];
      var mat := m(p, x.d.a);
      if mat.Some? {
        rest := if x.d.persist then data else data[..k] + data[k + 1..];
        r := Some(Candidate(c, x.d.(a := mat.value), x.d.a, x.index));
        assert IsFirst(m, p, data, k) && Delivers(m, c, p, data[k], r.value);
        return;
      }
    }
    r, rest := None, data;
  }

  // ------------------------------------------------------------------
  // Matching a join against a cache of data
  // ------------------------------------------------------------------

  datatype Extraction = Extraction(cands: seq<Option<Candidate>>, cache: Cache, saved: Saved)

  // The first k positions of a join.
  function Extracted(m: Matcher, channels: seq<Chan>, patterns: seq<Pattern>, cache: Cache, k: nat): (e: Extraction)
    requires k <= |channels| == |patterns|
    ensures |e.cands| == k && e.cache.Keys == cache.Keys
  {
    if k == 0 then Extraction([], cache, []) else
    var e := Extracted(m, channels, patterns, cache, k - 1);
    var c, p := channels[k - 1], patterns[k - 1];
    if c !in cache then e.(cands := e.cands + [None]) else
    var cand := Pick(m, c, p, e.cache[c]);
    if cand.None? then e.(cands := e.cands + [None])
    else Extraction(e.cands + [cand], e.cache[c := Rest(m, p, e.cache[c])], e.saved + [(c, e.cache[c])])
  }

  // extract_data_candidates_rollback
  method Extract(m: Matcher, channels: seq<Chan>, patterns: seq<Pattern>, cache: Cache)
    returns (cands: seq<Option<Candidate>>, cache': Cache, saved: Saved)
    requires |channels| == |patterns|
    ensures Extraction(cands, cache', saved) == Extracted(m, channels, patterns, cache, |channels|)
  {
    hide Pick, Rest;
    cands, cache', saved := [], cache, [];
    for k := 0 to |channels|
      invariant Extraction(cands, cache', saved) == Extracted(m, channels, patterns, cache, k)
    {
      var c := channels[k];
      if c !in cache' {
        cands := cands + [None];
      } else {
        var cand, rest := FindMatching(m, c, cache'[c], patterns[k]);
        cands := cands + [cand];
        if cand.Some? {
          saved := saved + [(c, cache'[c])];
          cache' := cache'[c := rest];
        }
      }
    }
  }

  // All candidates, if there is one for every position.
  function Whole(cands: seq<Option<Candidate>>): (r: Option<seq<Candidate>>)
    ensures r.Some? <==> forall i :: 0 <= i < |cands| ==> cands[i].Some?
    ensures r.Some? ==> |r.value| == |cands| && forall i :: 0 <= i < |cands| ==> cands[i] == Some(r.value[i])
  {
    if cands == [] then Some([])
    else
      var front, last := Whole(cands[..|cands| - 1]), cands[|cands| - 1];
      if front.None? || last.None? then None else Some(front.value + [last.value])
  }

  method Collect(cands: seq<Option<Candidate>>) returns (r: Option<seq<Candidate>>)
    ensures r == Whole(cands)
  {
    var all: seq<Candidate> := [];
    for k := 0 to |cands|
      invariant Whole(cands[..k]) == Some(all)
    {
      assert cands[..k + 1][..k] == cands[..k];
      if cands[k].None? {
        return None;
      }
      all := all + [cands[k].value];
    }
    assert cands[..|cands|] == cands;
    r := Some(all);
  }

  // One more position: it takes the first datum of its channel, ...
  lemma StepTakes(m: Matcher, channels: seq<Chan>, patterns: seq<Pattern>, cache: Cache, k: nat)
    requires 0 < k <= |channels| == |patterns| && channels[k - 1] in cache
    requires var s := Extracted(m, channels, patterns, cache, k - 1).cache[channels[k - 1]];
             s != [] && Matches(m, patterns[k - 1], s[0].d) && !s[0].d.persist
    ensures var e, c := Extracted(m, channels, patterns, cache, k - 1), channels[k - 1];
            var e' := Extracted(m, channels, patterns, cache, k);
            e'.cache == e.cache[c := e.cache[c][1..]] && e'.saved == e.saved + [(c, e.cache[c])]
  {
    var s := Extracted(m, channels, patterns, cache, k - 1).cache[channels[k - 1]];
    assert FirstAt(m, patterns[k - 1], s) == 0;
    assert Without(s, 0) == s[1..];
  }

  // ... or it finds nothing.
  lemma StepSkips(m: Matcher, channels: seq<Chan>, patterns: seq<Pattern>, cache: Cache, k: nat)
    requires 0 < k <= |channels| == |patterns|
    requires channels[k - 1] in cache ==>
               var s := Extracted(m, channels, patterns, cache, k - 1).cache[channels[k - 1]];
               forall j :: 0 <= j < |s| ==> !Matches(m, patterns[k - 1], s[j].d)
    ensures var e := Extracted(m, channels, patterns, cache, k - 1);
            Extracted(m, channels, patterns, cache, k) == e.(cands := e.cands + [None])
  {
  }

  // Positions of a channel that come later do not change its entry.
  lemma {:induction false} Untouched(m: Matcher, channels: seq<Chan>, patterns: seq<Pattern>, cache: Cache, k: nat, c: Chan)
    requires k <= |channels| == |patterns| && c in cache && c !in channels[..k]
    ensures Extracted(m, channels, patterns, cache, k).cache[c] == cache[c]
    decreases k
  {
    if k > 0 {
      assert channels[..k - 1] <= channels[..k] && channels[k - 1] in channels[..k];
      Untouched(m, channels, patterns, cache, k - 1, c);
    }
  }

  // A later position does not change an earlier candidate.
  lemma {:induction false} CandidateAt(m: Matcher, channels: seq<Chan>, patterns: seq<Pattern>, cache: Cache, k: nat, i: nat)
    requires i < k <= |channels| == |patterns|
    ensures Extracted(m, channels, patterns, cache, k).cands[i] ==
            if channels[i] !in cache then None
            else Pick(m, channels[i], patterns[i], Extracted(m, channels, patterns, cache, i).cache[channels[i]])
    decreases k
  {
    if i < k - 1 {
      CandidateAt(m, channels, patterns, cache, k - 1, i);
    }
  }

  // ------------------------------------------------------------------
  // Rolling back
  // ------------------------------------------------------------------

  // The caller's loop that puts the saved entries back, first to last.
  function Undone(saved: Saved, cache: Cache): Cache
    decreases |saved|
  {
    if saved == [] then cache else Undone(saved[1..], cache[saved[0].0 := saved[0].1])
  }

  method Rollback(saved: Saved, cache: Cache) returns (r: Cache)
    ensures r == Undone(saved, cache)
  {
    r := cache;
    for k := 0 to |saved|
      invariant Undone(saved[k..], r) == Undone(saved, cache)
    {
      assert saved[k..][1..] == saved[k + 1..];
      r := r[saved[k].0 := saved[k].1];
    }
  }

  lemma {:induction false} UndoneSnoc(saved: Saved, x: (Chan, seq<Indexed>), cache: Cache)
    ensures Undone(saved + [x], cache) == Undone(saved, cache)[x.0 := x.1]
    decreases |saved|
  {
    if saved == [] {
      assert saved + [x] == [x];
    } else {
      assert (saved + [x])[1..] == saved[1..] + [x];
      UndoneSnoc(saved[1..], x, cache[saved[0].0 := saved[0].1]);
    }
  }

  // An entry that is not saved keeps what the cache holds for it.
  lemma {:induction false} UndoneOther(saved: Saved, cache: Cache, c: Chan, rest: seq<Indexed>)
    requires forall x :: x in saved ==> x.0 != c
    ensures Undone(saved, cache[c := rest]) == Undone(saved, cache)[c := rest]
    ensures c in cache ==> c in Undone(saved, cache) && Undone(saved, cache)[c] == cache[c]
    decreases |saved|
  {
    if saved != [] {
      var x := saved[0];
      assert cache[c := rest][x.0 := x.1] == cache[x.0 := x.1][c := rest];
      UndoneOther(saved[1..], cache[x.0 := x.1], c, rest);
    }
  }

  // The cache is as it was after trying a join and rolling back.
  ghost predicate Restores(m: Matcher, channels: seq<Chan>, patterns: seq<Pattern>, cache: Cache, k: nat)
    requires k <= |channels| == |patterns|
  {
    var e := Extracted(m, channels, patterns, cache, k);
    Undone(e.saved, e.cache) == cache
  }

  lemma {:induction false} SavedChannels(m: Matcher, channels: seq<Chan>, patterns: seq<Pattern>, cache: Cache, k: nat)
    requires k <= |channels| == |patterns|
    ensures forall x :: x in Extracted(m, channels, patterns, cache, k).saved ==> x.0 in channels[..k]
    decreases k
  {
    if k > 0 {
      SavedChannels(m, channels, patterns, cache, k - 1);
      assert channels[..k] == channels[..k - 1] + [channels[k - 1]];
    }
  }

  lemma {:induction false} DistinctRestores(m: Matcher, channels: seq<Chan>, patterns: seq<Pattern>, cache: Cache, k: nat)
    requires k <= |channels| == |patterns| && Distinct(channels)
    ensures Restores(m, channels, patterns, cache, k)
    decreases k
  {
    if k > 0 {
      DistinctRestores(m, channels, patterns, cache, k - 1);
      var e := Extracted(m, channels, patterns, cache, k - 1);
      var c, p := channels[k - 1], patterns[k - 1];
      if c in cache {
        SavedChannels(m, channels, patterns, cache, k - 1);
        assert c !in channels[..k - 1];
        UndoneSnoc(e.saved, (c, e.cache[c]), e.cache[c := Rest(m, p, e.cache[c])]);
        UndoneOther(e.saved, e.cache, c, Rest(m, p, e.cache[c]));
      }
    }
  }

  // A join that names a channel twice, tried with patterns of which two take a datum each.
  function TwoPatterns(n: nat, a: nat, b: nat): (ps: seq<Pattern>)
    ensures |ps| == n && forall i :: 0 <= i < n ==> ps[i] == if i == a || i == b then 1 else 0
  {
    seq(n, i => if i == a || i == b then 1 else 0)
  }

  function OnlyOne(): Matcher {
    (p: Pattern, x: Payload) => if p == 1 then Some(x) else None
  }

  function Second(): Indexed { Indexed(Datum(1, false, 1), 1) }

  function TwoData(): seq<Indexed> {
    [Indexed(Datum(0, false, 0), 0), Second()]
  }

  lemma {:induction false} BothTaken(channels: seq<Chan>, a: nat, b: nat, k: nat)
    requires a < b < |channels| && channels[a] == channels[b] && k <= |channels|
    ensures var c := channels[a];
            var e := Extracted(OnlyOne(), channels, TwoPatterns(|channels|, a, b), map[c := TwoData()], k);
            && e.cache == map[c := if k <= a then TwoData() else if k <= b then [Second()] else []]
            && e.saved == if k <= a then [] else if k <= b then [(c, TwoData())] else [(c, TwoData()), (c, [Second()])]
    decreases k
  {
    hide Extracted;
    var c, patterns := channels[a], TwoPatterns(|channels|, a, b);
    var cache := map[c := TwoData()];
    if k == 0 {
      ExtractedNone(OnlyOne(), channels, patterns, cache);
    } else {
      BothTaken(channels, a, b, k - 1);
      if k - 1 == a || k - 1 == b {
        StepTakes(OnlyOne(), channels, patterns, cache, k);
        assert TwoData()[1..] == [Second()] && [Second()][1..] == [];
      } else {
        StepSkips(OnlyOne(), channels, patterns, cache, k);
      }
    }
  }

  lemma ExtractedNone(m: Matcher, channels: seq<Chan>, patterns: seq<Pattern>, cache: Cache)
    requires |channels| == |patterns|
    ensures Extracted(m, channels, patterns, cache, 0) == Extraction([], cache, [])
  {
  }

  // Entries saved twice for one channel are put back in the wrong order: the older one is lost.
  lemma OlderLost(c: Chan, older: seq<Indexed>, newer: seq<Indexed>, cache: Cache)
    ensures Undone([(c, older), (c, newer)], cache) == cache[c := newer]
  {
    var all := [(c, older), (c, newer)];
    assert all[1..] == [(c, newer)];
    assert Undone(all, cache) == Undone([(c, newer)], cache[c := older]);
    assert Undone([(c, newer)], cache[c := older]) == cache[c := older][c := newer];
  }

  // A concrete case for any join that names a channel twice.
  lemma RollbackLoses(channels: seq<Chan>, a: nat, b: nat)
    requires a < b < |channels| && channels[a] == channels[b]
    ensures !Restores(OnlyOne(), channels, TwoPatterns(|channels|, a, b), map[channels[a] := TwoData()], |channels|)
  {
    var c := channels[a];
    BothTaken(channels, a, b, |channels|);
    hide Extracted;
    OlderLost(c, TwoData(), [Second()], map[c := []]);
    assert map[c := []][c := [Second()]][c] == [Second()];
    assert |TwoData()| == 2;
  }

  // Rolling back restores the cache, whatever is matched with whatever, exactly if the join names no
  // channel twice.
  lemma RollbackExact(channels: seq<Chan>)
    ensures Distinct(channels) <==>
            forall m: Matcher, patterns: seq<Pattern>, cache: Cache :: |patterns| == |channels| ==>
              Restores(m, channels, patterns, cache, |channels|)
  {
    if Distinct(channels) {
      forall m: Matcher, patterns: seq<Pattern>, cache: Cache | |patterns| == |channels|
        ensures Restores(m, channels, patterns, cache, |channels|)
      {
        DistinctRestores(m, channels, patterns, cache, |channels|);
      }
    } else {
      var a, b :| 0 <= a < b < |channels| && channels[a] == channels[b];
      RollbackLoses(channels, a, b);
    }
  }

  // ------------------------------------------------------------------
  // What is there to be matched
  // ------------------------------------------------------------------

  type Pool = Chan -> seq<Datum>

  // A datum just produced on a channel, not stored yet.
  type Extra = Option<(Chan, Datum)>

  function Added(extra: Extra, c: Chan): seq<Datum> {
    if extra.Some? && extra.value.0 == c then [extra.value.1] else []
  }

  function With(pool: Pool, extra: Extra): Pool {
    (c: Chan) => Added(extra, c) + pool(c)
  }

  // Position i of a join takes datum at[i] of its channel.
  ghost predicate Chooses(m: Matcher, pool: Pool, c: Chan, p: Pattern, k: nat) {
    k < |pool(c)| && Matches(m, p, pool(c)[k])
  }

  ghost predicate Choice(m: Matcher, pool: Pool, channels: seq<Chan>, patterns: seq<Pattern>, at: seq<nat>) {
    && |at| == |channels| == |patterns|
    && (forall i :: 0 <= i < |at| ==> Chooses(m, pool, channels[i], patterns[i], at[i]))
    && (forall i, j :: 0 <= i < j < |at| && channels[i] == channels[j] && at[i] == at[j] ==>
          pool(channels[i])[at[i]].persist)
  }

  // All data that a continuation waits for are there: different data for different positions.
  ghost predicate Fireable(m: Matcher, pool: Pool, channels: seq<Chan>, patterns: seq<Pattern>) {
    exists at :: Choice(m, pool, channels, patterns, at)
  }

  // Only the channels of the join matter.
  lemma FireableSame(m: Matcher, pool: Pool, pool': Pool, channels: seq<Chan>, patterns: seq<Pattern>)
    requires forall c :: c in channels ==> pool(c) == pool'(c)
    ensures Fireable(m, pool, channels, patterns) <==> Fireable(m, pool', channels, patterns)
  {
    if Fireable(m, pool, channels, patterns) {
      var at :| Choice(m, pool, channels, patterns, at);
      assert Choice(m, pool', channels, patterns, at);
    }
    if Fireable(m, pool', channels, patterns) {
      var at :| Choice(m, pool', channels, patterns, at);
      assert Choice(m, pool, channels, patterns, at);
    }
  }

  // ------------------------------------------------------------------
  // The cache of data
  // ------------------------------------------------------------------

  // The orders in which data and continuations are tried.
  datatype Orders = Orders(data: Chan -> seq<nat>, conts: seq<Chan> -> seq<nat>)

  predicate Permutation(perm: seq<nat>, n: nat) {
    && |perm| == n && Distinct(perm)
    && (forall i :: 0 <= i < n ==> perm[i] < n)
    && (forall x :: 0 <= x < n ==> x in perm)
  }

  function Permuted<T>(s: seq<T>, perm: seq<nat>): (r: seq<T>)
    ensures |r| == |s| && forall i :: 0 <= i < |s| ==> r[i] == s[if Permutation(perm, |s|) then perm[i] else i]
  {
    if Permutation(perm, |s|) then seq(|s|, i requires 0 <= i < |s| => s[perm[i]]) else s
  }

  // shuffle_with_index
  method Shuffle<T>(s: seq<T>, perm: seq<nat>) returns (r: seq<T>)
    ensures r == Permuted(s, perm)
  {
    if !Permutation(perm, |s|) {
      return s;
    }
    r := [];
    for k := 0 to |s|
      invariant r == Permuted(s, perm)[..k]
    {
      r := r + [s[perm[k]]];
    }
  }

  // Every element has its place in a shuffle.
  lemma PermutedHas<T>(s: seq<T>, perm: seq<nat>, i: nat) returns (j: nat)
    requires i < |s|
    ensures j < |s| && Permuted(s, perm)[j] == s[i]
  {
    if Permutation(perm, |s|) {
      assert i in perm;
      j :| 0 <= j < |perm| && perm[j] == i;
    } else {
      j := i;
    }
  }

  function WithIndex(s: seq<Datum>): (r: seq<Indexed>)
    ensures |r| == |s| && forall i :: 0 <= i < |s| ==> r[i] == Indexed(s[i], i)
  {
    seq(|s|, i requires 0 <= i < |s| => Indexed(s[i], i))
  }

  function AddedFirst(extra: Extra, c: Chan): seq<Indexed> {
    if extra.Some? && extra.value.0 == c then [Indexed(extra.value.1, -1)] else []
  }

  function Fetched(pool: Pool, extra: Extra, o: Orders, c: Chan): seq<Indexed> {
    AddedFirst(extra, c) + Permuted(WithIndex(pool(c)), o.data(c))
  }

  function FetchedAll(pool: Pool, extra: Extra, o: Orders, channels: seq<Chan>): Cache {
    map c | c in channels :: Fetched(pool, extra, o, c)
  }

  lemma FetchedNone(pool: Pool, extra: Extra, o: Orders)
    ensures FetchedAll(pool, extra, o, []) == map[]
  {
  }

  lemma FetchedSnoc(pool: Pool, extra: Extra, o: Orders, channels: seq<Chan>, c: Chan)
    ensures FetchedAll(pool, extra, o, channels + [c]) == FetchedAll(pool, extra, o, channels)[c := Fetched(pool, extra, o, c)]
  {
    hide Fetched;
  }

  ghost predicate IsDatum(pool: Pool, extra: Extra, c: Chan, x: Indexed) {
    || (0 <= x.index < |pool(c)| && x.d == pool(c)[x.index])
    || (x.index == -1 && extra == Some((c, x.d)))
  }

  // An entry holds data of its channel, each at most once.
  ghost predicate GoodEntry(pool: Pool, extra: Extra, c: Chan, s: seq<Indexed>) {
    && (forall k :: 0 <= k < |s| ==> IsDatum(pool, extra, c, s[k]))
    && (forall i, j :: 0 <= i < j < |s| ==> s[i].index != s[j].index)
  }

  ghost predicate Good(pool: Pool, extra: Extra, cache: Cache) {
    forall c :: c in cache ==> GoodEntry(pool, extra, c, cache[c])
  }

  lemma FetchedGood(pool: Pool, extra: Extra, o: Orders, c: Chan)
    ensures GoodEntry(pool, extra, c, Fetched(pool, extra, o, c))
  {
  }

  lemma FetchedAllGood(pool: Pool, extra: Extra, o: Orders, channels: seq<Chan>)
    ensures Good(pool, extra, FetchedAll(pool, extra, o, channels))
  {
    forall c | c in channels ensures GoodEntry(pool, extra, c, Fetched(pool, extra, o, c)) {
      FetchedGood(pool, extra, o, c);
    }
  }

  // Every datum is in the cache.
  lemma FetchedHas(pool: Pool, extra: Extra, o: Orders, c: Chan, k: nat) returns (j: nat)
    requires k < |With(pool, extra)(c)|
    ensures j < |Fetched(pool, extra, o, c)| && Fetched(pool, extra, o, c)[j].d == With(pool, extra)(c)[k]
  {
    var a := |Added(extra, c)|;
    if k < a {
      j := k;
    } else {
      hide Permuted, Permutation;
      var i := PermutedHas(WithIndex(pool(c)), o.data(c), k - a);
      j := a + i;
    }
  }

  // ------------------------------------------------------------------
  // What is found is there
  // ------------------------------------------------------------------

  lemma RestGood(m: Matcher, pool: Pool, extra: Extra, c: Chan, p: Pattern, s: seq<Indexed>)
    requires GoodEntry(pool, extra, c, s)
    ensures GoodEntry(pool, extra, c, Rest(m, p, s))
  {
  }

  ghost predicate GoodSaved(pool: Pool, extra: Extra, saved: Saved) {
    forall i :: 0 <= i < |saved| ==> GoodEntry(pool, extra, saved[i].0, saved[i].1)
  }

  lemma {:induction false} ExtractedGood(m: Matcher, pool: Pool, extra: Extra, channels: seq<Chan>, patterns: seq<Pattern>,
                                         cache: Cache, k: nat)
    requires k <= |channels| == |patterns| && Good(pool, extra, cache)
    ensures var e := Extracted(m, channels, patterns, cache, k); Good(pool, extra, e.cache) && GoodSaved(pool, extra, e.saved)
    decreases k
  {
    hide GoodEntry;
    if k > 0 {
      ExtractedGood(m, pool, extra, channels, patterns, cache, k - 1);
      var e, c := Extracted(m, channels, patterns, cache, k - 1), channels[k - 1];
      if c in cache {
        RestGood(m, pool, extra, c, patterns[k - 1], e.cache[c]);
      }
    }
  }

  lemma {:induction false} UndoneGood(pool: Pool, extra: Extra, saved: Saved, cache: Cache)
    requires Good(pool, extra, cache) && GoodSaved(pool, extra, saved)
    ensures Good(pool, extra, Undone(saved, cache))
    decreases |saved|
  {
    hide GoodEntry;
    if saved != [] {
      UndoneGood(pool, extra, saved[1..], cache[saved[0].0 := saved[0].1]);
    }
  }

  // Candidate x delivers what pattern p makes of a datum of channel c, or of the datum produced: the
  // payload is the matcher's, everything else is the datum's.
  ghost predicate Suits(m: Matcher, pool: Pool, extra: Extra, c: Chan, p: Pattern, x: Candidate) {
    && x.channel == c && m(p, x.removed) == Some(x.datum.a)
    && IsDatum(pool, extra, c, Indexed(Datum(x.removed, x.datum.persist, x.datum.source), x.index))
  }

  // One candidate for each position, and different ones where the datum is not persistent.
  ghost predicate AllSuit(m: Matcher, pool: Pool, extra: Extra, channels: seq<Chan>, patterns: seq<Pattern>,
                          cands: seq<Candidate>) {
    && |cands| == |channels| == |patterns|
    && (forall i :: 0 <= i < |cands| ==> Suits(m, pool, extra, channels[i], patterns[i], cands[i]))
    && (forall i, j :: 0 <= i < j < |cands| && channels[i] == channels[j] && !cands[i].datum.persist ==>
          cands[i].index != cands[j].index)
  }

  ghost predicate Lacks(s: seq<Indexed>, index: int) {
    forall k :: 0 <= k < |s| ==> s[k].index != index
  }

  lemma RestLacks(m: Matcher, p: Pattern, s: seq<Indexed>, index: int)
    requires Lacks(s, index)
    ensures Lacks(Rest(m, p, s), index)
  {
  }

  lemma StepEntry(m: Matcher, channels: seq<Chan>, patterns: seq<Pattern>, cache: Cache, k: nat, c: Chan)
    requires 0 < k <= |channels| == |patterns| && c in cache
    ensures var s := Extracted(m, channels, patterns, cache, k - 1).cache[c];
            var s' := Extracted(m, channels, patterns, cache, k).cache[c];
            s' == s || s' == Rest(m, patterns[k - 1], s)
  {
    hide Rest, Pick;
  }

  // What has been taken does not come back.
  lemma {:induction false} StaysAway(m: Matcher, channels: seq<Chan>, patterns: seq<Pattern>, cache: Cache, j: nat, k: nat,
                                     c: Chan, index: int)
    requires j <= k <= |channels| == |patterns| && c in cache
    requires Lacks(Extracted(m, channels, patterns, cache, j).cache[c], index)
    ensures Lacks(Extracted(m, channels, patterns, cache, k).cache[c], index)
    decreases k
  {
    hide Extracted, Lacks, Rest;
    if j < k {
      StaysAway(m, channels, patterns, cache, j, k - 1, c, index);
      StepEntry(m, channels, patterns, cache, k, c);
      RestLacks(m, patterns[k - 1], Extracted(m, channels, patterns, cache, k - 1).cache[c], index);
    }
  }

  // The candidate of a position: what it stands for, and that it leaves the cache.
  lemma PickSuits(m: Matcher, pool: Pool, extra: Extra, channels: seq<Chan>, patterns: seq<Pattern>, cache: Cache, i: nat,
                  x: Candidate)
    requires i < |channels| == |patterns| && Good(pool, extra, cache) && channels[i] in cache
    requires Pick(m, channels[i], patterns[i], Extracted(m, channels, patterns, cache, i).cache[channels[i]]) == Some(x)
    ensures Suits(m, pool, extra, channels[i], patterns[i], x)
    ensures !Lacks(Extracted(m, channels, patterns, cache, i).cache[channels[i]], x.index)
    ensures !x.datum.persist ==> Lacks(Extracted(m, channels, patterns, cache, i + 1).cache[channels[i]], x.index)
  {
    ExtractedGood(m, pool, extra, channels, patterns, cache, i);
    var e, c, p := Extracted(m, channels, patterns, cache, i), channels[i], patterns[i];
    assert Extracted(m, channels, patterns, cache, i + 1).cache[c] == Rest(m, p, e.cache[c]);
    hide Extracted;
    assert GoodEntry(pool, extra, c, e.cache[c]);
    EntrySuits(m, pool, extra, c, p, e.cache[c], x);
  }

  lemma EntrySuits(m: Matcher, pool: Pool, extra: Extra, c: Chan, p: Pattern, s: seq<Indexed>, x: Candidate)
    requires GoodEntry(pool, extra, c, s) && Pick(m, c, p, s) == Some(x)
    ensures Suits(m, pool, extra, c, p, x) && !Lacks(s, x.index)
    ensures !x.datum.persist ==> Lacks(Rest(m, p, s), x.index)
  {
    var k := FirstAt(m, p, s);
    assert IsDatum(pool, extra, c, s[k]);
    assert s[k] == Indexed(Datum(x.removed, x.datum.persist, x.datum.source), x.index);
  }

  lemma WholePicks(m: Matcher, channels: seq<Chan>, patterns: seq<Pattern>, cache: Cache, cands: seq<Candidate>, i: nat)
    requires i < |channels| == |patterns|
    requires Whole(Extracted(m, channels, patterns, cache, |channels|).cands) == Some(cands)
    ensures channels[i] in cache && i < |cands|
    ensures Pick(m, channels[i], patterns[i], Extracted(m, channels, patterns, cache, i).cache[channels[i]]) == Some(cands[i])
  {
    hide Extracted, Pick;
    CandidateAt(m, channels, patterns, cache, |channels|, i);
  }

  // Whatever a complete extraction delivers is there, in different data.
  lemma ExtractedSuits(m: Matcher, pool: Pool, extra: Extra, channels: seq<Chan>, patterns: seq<Pattern>, cache: Cache,
                       cands: seq<Candidate>)
    requires |channels| == |patterns| && Good(pool, extra, cache)
    requires Whole(Extracted(m, channels, patterns, cache, |channels|).cands) == Some(cands)
    ensures AllSuit(m, pool, extra, channels, patterns, cands)
  {
    hide Extracted, Whole, Pick, Suits, Good;
    var n := |channels|;
    forall i | 0 <= i < n
      ensures channels[i] in cache
      ensures Pick(m, channels[i], patterns[i], Extracted(m, channels, patterns, cache, i).cache[channels[i]]) == Some(cands[i])
    {
      WholePicks(m, channels, patterns, cache, cands, i);
    }
    forall i | 0 <= i < n ensures Suits(m, pool, extra, channels[i], patterns[i], cands[i]) {
      PickSuits(m, pool, extra, channels, patterns, cache, i, cands[i]);
    }
    forall i, j | 0 <= i < j < n && channels[i] == channels[j] && !cands[i].datum.persist
      ensures cands[i].index != cands[j].index
    {
      OtherPicked(m, pool, extra, channels, patterns, cache, i, j, cands[i], cands[j]);
    }
  }

  lemma OtherPicked(m: Matcher, pool: Pool, extra: Extra, channels: seq<Chan>, patterns: seq<Pattern>, cache: Cache,
                    i: nat, j: nat, x: Candidate, y: Candidate)
    requires i < j < |channels| == |patterns| && Good(pool, extra, cache) && channels[i] == channels[j] && channels[i] in cache
    requires Pick(m, channels[i], patterns[i], Extracted(m, channels, patterns, cache, i).cache[channels[i]]) == Some(x)
    requires Pick(m, channels[j], patterns[j], Extracted(m, channels, patterns, cache, j).cache[channels[j]]) == Some(y)
    requires !x.datum.persist
    ensures x.index != y.index
  {
    hide Extracted, Pick, Lacks, Good;
    PickSuits(m, pool, extra, channels, patterns, cache, i, x);
    PickSuits(m, pool, extra, channels, patterns, cache, j, y);
    StaysAway(m, channels, patterns, cache, i + 1, j, channels[i], x.index);
  }

  // The position in the pool of what a candidate stands for.
  function At(extra: Extra, x: Candidate): int {
    |Added(extra, x.channel)| + x.index
  }

  lemma SuitsChoose(m: Matcher, pool: Pool, extra: Extra, c: Chan, p: Pattern, x: Candidate)
    requires Suits(m, pool, extra, c, p, x)
    ensures x.channel == c && At(extra, x) >= 0 && Chooses(m, With(pool, extra), c, p, At(extra, x))
    ensures With(pool, extra)(c)[At(extra, x)].persist == x.datum.persist
    ensures x.index != -1 ==> x.index >= 0 && Chooses(m, pool, c, p, x.index) && pool(c)[x.index].persist == x.datum.persist
    ensures x.index == -1 ==> extra.Some? && extra.value.0 == c && x.removed == extra.value.1.a
  {
  }

  lemma SuitFireable(m: Matcher, pool: Pool, extra: Extra, channels: seq<Chan>, patterns: seq<Pattern>, cands: seq<Candidate>)
    requires AllSuit(m, pool, extra, channels, patterns, cands)
    ensures Fireable(m, With(pool, extra), channels, patterns)
    ensures (forall i :: 0 <= i < |cands| ==> cands[i].index != -1) ==> Fireable(m, pool, channels, patterns)
  {
    forall i | 0 <= i < |cands|
      ensures cands[i].channel == channels[i] && At(extra, cands[i]) >= 0
      ensures Chooses(m, With(pool, extra), channels[i], patterns[i], At(extra, cands[i]))
      ensures With(pool, extra)(channels[i])[At(extra, cands[i])].persist == cands[i].datum.persist
    {
      SuitsChoose(m, pool, extra, channels[i], patterns[i], cands[i]);
    }
    var at: seq<nat> := seq(|cands|, i requires 0 <= i < |cands| => At(extra, cands[i]));
    hide Suits, With;
    assert Choice(m, With(pool, extra), channels, patterns, at);
    if forall i :: 0 <= i < |cands| ==> cands[i].index != -1 {
      StoredOnly(m, pool, extra, channels, patterns, cands);
    }
  }

  lemma StoredOnly(m: Matcher, pool: Pool, extra: Extra, channels: seq<Chan>, patterns: seq<Pattern>, cands: seq<Candidate>)
    requires AllSuit(m, pool, extra, channels, patterns, cands) && forall i :: 0 <= i < |cands| ==> cands[i].index != -1
    ensures Fireable(m, pool, channels, patterns)
  {
    forall i | 0 <= i < |cands|
      ensures cands[i].index >= 0 && Chooses(m, pool, channels[i], patterns[i], cands[i].index)
      ensures pool(channels[i])[cands[i].index].persist == cands[i].datum.persist
    {
      SuitsChoose(m, pool, extra, channels[i], patterns[i], cands[i]);
    }
    var at: seq<nat> := seq(|cands|, i requires 0 <= i < |cands| => cands[i].index);
    hide Suits;
    assert Choice(m, pool, channels, patterns, at);
  }

  // ------------------------------------------------------------------
  // What is there is found, if the join names no channel twice
  // ------------------------------------------------------------------

  ghost predicate Finds(m: Matcher, pool: Pool, extra: Extra, o: Orders, channels: seq<Chan>, patterns: seq<Pattern>)
    requires |channels| == |patterns|
  {
    Whole(Extracted(m, channels, patterns, FetchedAll(pool, extra, o, channels), |channels|).cands).Some?
  }

  lemma FindsSame(m: Matcher, pool: Pool, pool': Pool, extra: Extra, o: Orders, channels: seq<Chan>, patterns: seq<Pattern>)
    requires |channels| == |patterns| && forall c :: c in channels ==> pool(c) == pool'(c)
    ensures Finds(m, pool, extra, o, channels, patterns) <==> Finds(m, pool', extra, o, channels, patterns)
  {
    hide Extracted, Whole;
    assert FetchedAll(pool, extra, o, channels) == FetchedAll(pool', extra, o, channels);
  }

  lemma DistinctFinds(m: Matcher, pool: Pool, extra: Extra, o: Orders, channels: seq<Chan>, patterns: seq<Pattern>)
    requires |channels| == |patterns| && Distinct(channels) && Fireable(m, With(pool, extra), channels, patterns)
    ensures Finds(m, pool, extra, o, channels, patterns)
  {
    var cache := FetchedAll(pool, extra, o, channels);
    var at :| Choice(m, With(pool, extra), channels, patterns, at);
    forall i | 0 <= i < |channels| ensures Extracted(m, channels, patterns, cache, |channels|).cands[i].Some? {
      assert channels[i] !in channels[..i];
      CandidateAt(m, channels, patterns, cache, |channels|, i);
      Untouched(m, channels, patterns, cache, i, channels[i]);
      hide Extracted;
      assert Chooses(m, With(pool, extra), channels[i], patterns[i], at[i]);
      var j := FetchedHas(pool, extra, o, channels[i], at[i]);
    }
  }

  // The first position takes the datum that the second one needs.
  function Picky(): Matcher {
    (p: Pattern, x: Payload) =>
      if (p == 0 && x < 2) || (p == 1 && x == 0) || (p == 2 && x == 2) then Some(x) else None
  }

  function GreedyPatterns(n: nat, a: nat, b: nat): (ps: seq<Pattern>)
    ensures |ps| == n && forall i :: 0 <= i < n ==> ps[i] == if i == a then 0 else if i == b then 1 else 2
  {
    seq(n, i => if i == a then 0 else if i == b then 1 else 2)
  }

  const D0 := Datum(0, false, 0)
  const D1 := Datum(1, false, 1)
  const D2 := Datum(2, true, 2)

  function GreedyPool(c: Chan): Pool {
    (x: Chan) => if x == c then [D0, D1, D2] else [D2]
  }

  function AsStored(): Orders {
    Orders((c: Chan) => [], (cs: seq<Chan>) => [])
  }

  lemma GreedyFireable(channels: seq<Chan>, a: nat, b: nat)
    requires a < b < |channels| && channels[a] == channels[b]
    ensures Fireable(Picky(), GreedyPool(channels[a]), channels, GreedyPatterns(|channels|, a, b))
  {
    var c := channels[a];
    var at: seq<nat> := seq(|channels|, i requires 0 <= i < |channels| =>
      if i == a then 1 else if i == b then 0 else if channels[i] == c then 2 else 0);
    assert Choice(Picky(), GreedyPool(c), channels, GreedyPatterns(|channels|, a, b), at);
  }

  const I0 := Indexed(D0, 0)
  const I1 := Indexed(D1, 1)
  const I2 := Indexed(D2, 2)

  lemma GreedyEntry(c: Chan)
    ensures Fetched(GreedyPool(c), None, AsStored(), c) == [I0, I1, I2]
  {
  }

  lemma {:induction false} GreedyRun(channels: seq<Chan>, a: nat, b: nat, cache: Cache, k: nat)
    requires a < b < |channels| && channels[a] == channels[b] && k <= b
    requires channels[a] in cache && cache[channels[a]] == [I0, I1, I2]
    ensures Extracted(Picky(), channels, GreedyPatterns(|channels|, a, b), cache, k).cache[channels[a]] ==
            if k <= a then [I0, I1, I2] else [I1, I2]
    decreases k
  {
    hide Extracted, Picky;
    var patterns := GreedyPatterns(|channels|, a, b);
    if k == 0 {
      ExtractedNone(Picky(), channels, patterns, cache);
    } else {
      GreedyRun(channels, a, b, cache, k - 1);
      if k - 1 == a {
        AnyTakes();
        StepTakes(Picky(), channels, patterns, cache, k);
        assert [I0, I1, I2][1..] == [I1, I2];
      } else {
        PersistentStays(channels, patterns, cache, k, channels[a]);
      }
    }
  }

  lemma AnyTakes()
    ensures Matches(Picky(), 0, I0.d) && !I0.d.persist
  {
  }

  lemma GreedyCache(channels: seq<Chan>, a: nat, b: nat)
    requires a < b < |channels| && channels[a] == channels[b]
    ensures var cache := FetchedAll(GreedyPool(channels[a]), None, AsStored(), channels);
            && channels[a] in cache
            && Extracted(Picky(), channels, GreedyPatterns(|channels|, a, b), cache, b).cache[channels[a]] == [I1, I2]
  {
    GreedyEntry(channels[a]);
    hide Fetched, Extracted;
    GreedyRun(channels, a, b, FetchedAll(GreedyPool(channels[a]), None, AsStored(), channels), b);
  }

  // Pattern 2 takes the persistent datum, which stays.
  lemma PersistentStays(channels: seq<Chan>, patterns: seq<Pattern>, cache: Cache, k: nat, c: Chan)
    requires 0 < k <= |channels| == |patterns| && c in cache && patterns[k - 1] == 2
    requires var s := Extracted(Picky(), channels, patterns, cache, k - 1).cache[c]; s == [I0, I1, I2] || s == [I1, I2]
    ensures Extracted(Picky(), channels, patterns, cache, k).cache[c] == Extracted(Picky(), channels, patterns, cache, k - 1).cache[c]
  {
    var s := Extracted(Picky(), channels, patterns, cache, k - 1).cache[c];
    var f := FirstAt(Picky(), 2, s);
    assert f == |s| || s[f] == I2;
  }

  lemma NoneLeft(c: Chan)
    ensures Pick(Picky(), c, 1, [I1, I2]).None?
  {
    assert forall j :: 0 <= j < 2 ==> !Matches(Picky(), 1, [I1, I2][j].d);
  }

  // Everything is there, and yet it is not found.
  lemma GreedyMisses(channels: seq<Chan>, a: nat, b: nat)
    requires a < b < |channels| && channels[a] == channels[b]
    ensures Fireable(Picky(), GreedyPool(channels[a]), channels, GreedyPatterns(|channels|, a, b))
    ensures !Finds(Picky(), GreedyPool(channels[a]), None, AsStored(), channels, GreedyPatterns(|channels|, a, b))
  {
    GreedyFireable(channels, a, b);
    var c, patterns := channels[a], GreedyPatterns(|channels|, a, b);
    var cache := FetchedAll(GreedyPool(c), None, AsStored(), channels);
    hide Extracted, FetchedAll;
    GreedyCache(channels, a, b);
    CandidateAt(Picky(), channels, patterns, cache, |channels|, b);
    NoneLeft(c);
  }

  // A join finds its data whenever they are there, whatever the matcher, the patterns, the data and the
  // order, exactly if it names no channel twice.
  lemma JoinExact(channels: seq<Chan>)
    ensures Distinct(channels) <==>
            forall m: Matcher, pool: Pool, o: Orders, patterns: seq<Pattern> ::
              |patterns| == |channels| && Fireable(m, pool, channels, patterns) ==> Finds(m, pool, None, o, channels, patterns)
  {
    if Distinct(channels) {
      forall m: Matcher, pool: Pool, o: Orders, patterns: seq<Pattern>
        | |patterns| == |channels| && Fireable(m, pool, channels, patterns)
        ensures Finds(m, pool, None, o, channels, patterns)
      {
        FireableSame(m, pool, With(pool, None), channels, patterns);
        DistinctFinds(m, pool, None, o, channels, patterns);
      }
    } else {
      var a, b :| 0 <= a < b < |channels| && channels[a] == channels[b];
      GreedyMisses(channels, a, b);
    }
  }

  // ------------------------------------------------------------------
  // The continuations of a join
  // ------------------------------------------------------------------

  datatype Found = Found(w: Waiting, index: nat, cands: seq<Candidate>)

  ghost predicate Arity(channels: seq<Chan>, conts: seq<(Waiting, nat)>) {
    forall k :: 0 <= k < |conts| ==> |conts[k].0.patterns| == |channels|
  }

  // The first continuation that can be served; what has been tried before is rolled back.
  ghost function Served(m: Matcher, channels: seq<Chan>, conts: seq<(Waiting, nat)>, cache: Cache): (r: Option<Found>)
    requires Arity(channels, conts)
    ensures r.Some? ==> (r.value.w, r.value.index) in conts
    decreases |conts|
  {
    if conts == [] then None
    else
      var e := Extracted(m, channels, conts[0].0.patterns, cache, |channels|);
      var all := Whole(e.cands);
      if all.Some? then Some(Found(conts[0].0, conts[0].1, all.value))
      else Served(m, channels, conts[1..], Undone(e.saved, e.cache))
  }

  // extract_first_match
  method FirstMatch(m: Matcher, channels: seq<Chan>, conts: seq<(Waiting, nat)>, cache: Cache)
    returns (r: Option<Found>)
    requires Arity(channels, conts)
    ensures r == Served(m, channels, conts, cache)
  {
    var cur := cache;
    for k := 0 to |conts|
      invariant Arity(channels, conts[k..]) && Served(m, channels, conts[k..], cur) == Served(m, channels, conts, cache)
    {
      assert conts[k..][1..] == conts[k + 1..] && conts[k..][0] == conts[k];
      var w := conts[k].0;
      var cands, after, saved := Extract(m, channels, w.patterns, cur);
      var all := Collect(cands);
      if all.Some? {
        return Some(Found(w, conts[k].1, all.value));
      }
      cur := Rollback(saved, after);
    }
    r := None;
  }

  // What is served is there, even for joins that name a channel twice.
  lemma {:induction false} ServedSuits(m: Matcher, pool: Pool, extra: Extra, channels: seq<Chan>, conts: seq<(Waiting, nat)>,
                                       cache: Cache)
    requires Arity(channels, conts) && Good(pool, extra, cache)
    ensures var r := Served(m, channels, conts, cache);
            r.Some? ==> AllSuit(m, pool, extra, channels, r.value.w.patterns, r.value.cands)
    decreases |conts|
  {
    if conts != [] {
      var patterns := conts[0].0.patterns;
      var e := Extracted(m, channels, patterns, cache, |channels|);
      if Whole(e.cands).Some? {
        ExtractedSuits(m, pool, extra, channels, patterns, cache, Whole(e.cands).value);
      } else {
        ExtractedGood(m, pool, extra, channels, patterns, cache, |channels|);
        UndoneGood(pool, extra, e.saved, e.cache);
        ServedSuits(m, pool, extra, channels, conts[1..], Undone(e.saved, e.cache));
      }
    }
  }

  // If the join names no channel twice, none that could be served is missed.
  lemma {:induction false} DistinctServed(m: Matcher, pool: Pool, extra: Extra, o: Orders, channels: seq<Chan>,
                                          conts: seq<(Waiting, nat)>, k: nat)
    requires Arity(channels, conts) && Distinct(channels) && k < |conts|
    requires Fireable(m, With(pool, extra), channels, conts[k].0.patterns)
    ensures Served(m, channels, conts, FetchedAll(pool, extra, o, channels)).Some?
    decreases |conts|
  {
    hide Extracted, FetchedAll, Fireable, Undone;
    var cache := FetchedAll(pool, extra, o, channels);
    var e := Extracted(m, channels, conts[0].0.patterns, cache, |channels|);
    if k == 0 {
      DistinctFinds(m, pool, extra, o, channels, conts[0].0.patterns);
    } else if Whole(e.cands).None? {
      DistinctRestores(m, channels, conts[0].0.patterns, cache, |channels|);
      assert conts[1..][k - 1] == conts[k];
      DistinctServed(m, pool, extra, o, channels, conts[1..], k - 1);
    }
  }

  ghost predicate ServesAll(channels: seq<Chan>, m: Matcher, pool: Pool, extra: Extra, o: Orders, conts: seq<(Waiting, nat)>, k: nat)
    requires Arity(channels, conts) && k < |conts|
  {
    Fireable(m, With(pool, extra), channels, conts[k].0.patterns) ==>
      Served(m, channels, conts, FetchedAll(pool, extra, o, channels)).Some?
  }

  // No continuation that could be served is missed, exactly if the join names no channel twice.
  lemma ServeExact(channels: seq<Chan>)
    ensures Distinct(channels) <==>
            forall m: Matcher, pool: Pool, extra: Extra, o: Orders, conts: seq<(Waiting, nat)>, k: nat
              {:trigger ServesAll(channels, m, pool, extra, o, conts, k)} ::
              Arity(channels, conts) && k < |conts| ==> ServesAll(channels, m, pool, extra, o, conts, k)
  {
    hide Served, Extracted, FetchedAll, Fireable;
    if Distinct(channels) {
      forall m: Matcher, pool: Pool, extra: Extra, o: Orders, conts: seq<(Waiting, nat)>, k: nat
        | Arity(channels, conts) && k < |conts|
        ensures ServesAll(channels, m, pool, extra, o, conts, k)
      {
        if Fireable(m, With(pool, extra), channels, conts[k].0.patterns) {
          DistinctServed(m, pool, extra, o, channels, conts, k);
        }
      }
    } else {
      var a, b :| 0 <= a < b < |channels| && channels[a] == channels[b];
      var conts := ServeMisses(channels, a, b);
    }
  }

  lemma ServeMisses(channels: seq<Chan>, a: nat, b: nat) returns (conts: seq<(Waiting, nat)>)
    requires a < b < |channels| && channels[a] == channels[b]
    ensures Arity(channels, conts) && |conts| == 1
    ensures !ServesAll(channels, Picky(), GreedyPool(channels[a]), None, AsStored(), conts, 0)
  {
    var pool, patterns := GreedyPool(channels[a]), GreedyPatterns(|channels|, a, b);
    conts := [(Waiting(patterns, 0, false, {}, 0), 0)];
    GreedyMisses(channels, a, b);
    hide Extracted, FetchedAll, Fireable;
    FireableSame(Picky(), pool, With(pool, None), channels, patterns);
    assert conts[1..] == [];
  }
}
