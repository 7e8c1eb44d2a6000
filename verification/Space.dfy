/**
 produce and consume (rspace++/src/rspace/rspace.rs:563-797, 870-930 and 1040-1134) on the hot
 store (rspace++/src/rspace/hot_store.rs:187-595).

 The law of the tuple space: after every operation, no continuation is waiting for which all
 data are there.  The hot store is a cache over the history: what has not been touched is read from
 there.
 */
module Space {
  import opened Wrappers
  import opened TupleSpace

  function Drop<T>(s: seq<T>, i: int): seq<T> {
    if 0 <= i < |s| then s[..i] + s[i + 1..] else s
  }

  // ------------------------------------------------------------------
  // Removing matched data
  // ------------------------------------------------------------------

  // The data of channel c after the candidates have been removed one by one; a persistent datum
  // stays, and an index out of range is an error that is not reported.
  function Removed(cands: seq<Candidate>, c: Chan, d: seq<Datum>): seq<Datum> {
    if cands == [] then d
    else
      var before, x := Removed(cands[..|cands| - 1], c, d), cands[|cands| - 1];
      if x.channel == c && !x.datum.persist then Drop(before, x.index) else before
  }

  lemma {:induction false} RemovedNone(cands: seq<Candidate>, c: Chan, d: seq<Datum>)
    requires forall i :: 0 <= i < |cands| ==> cands[i].channel != c
    ensures Removed(cands, c, d) == d
    decreases |cands|
  {
    if cands != [] {
      RemovedNone(cands[..|cands| - 1], c, d);
    }
  }

  // A channel that occurs once loses exactly its candidate.
  lemma {:induction false} RemovedOnce(cands: seq<Candidate>, c: Chan, d: seq<Datum>, k: nat)
    requires k < |cands| && cands[k].channel == c
    requires forall i :: 0 <= i < |cands| && i != k ==> cands[i].channel != c
    ensures Removed(cands, c, d) == if cands[k].datum.persist then d else Drop(d, cands[k].index)
    decreases |cands|
  {
    var before := cands[..|cands| - 1];
    if k == |cands| - 1 {
      RemovedNone(before, c, d);
    } else {
      RemovedOnce(before, c, d, k);
    }
  }

  // Sorted for removal: by ascending index.
  function Insert(x: Candidate, s: seq<Candidate>): (r: seq<Candidate>)
    ensures multiset(r) == multiset(s) + multiset{x}
  {
    if s == [] || x.index <= s[0].index then [x] + s
    else
      assert s == [s[0]] + s[1..];
      [s[0]] + Insert(x, s[1..])
  }

  function Ascending(s: seq<Candidate>): (r: seq<Candidate>)
    ensures multiset(r) == multiset(s)
  {
    if s == [] then [] else assert s == [s[0]] + s[1..]; Insert(s[0], Ascending(s[1..]))
  }

  // In a permutation of candidates for different channels, each channel still occurs once.
  lemma OnceInPermutation(s: seq<Candidate>, r: seq<Candidate>, k: nat) returns (j: nat)
    requires multiset(r) == multiset(s) && k < |s| && forall a, b :: 0 <= a < b < |s| ==> s[a].channel != s[b].channel
    ensures j < |r| && r[j] == s[k] && forall i :: 0 <= i < |r| && i != j ==> r[i].channel != s[k].channel
  {
    assert s[k] in multiset(r);
    j :| 0 <= j < |r| && r[j] == s[k];
    forall i | 0 <= i < |r| && i != j ensures r[i].channel != s[k].channel {
      assert r[i] in multiset(s);
      var a :| 0 <= a < |s| && s[a] == r[i];
      if a == k {
        Twice(r, i, j);
        OnceOnly(s, k);
      }
    }
  }

  lemma Twice(r: seq<Candidate>, i: nat, j: nat)
    requires i < |r| && j < |r| && i != j && r[i] == r[j]
    ensures multiset(r)[r[j]] >= 2
  {
    var a, b := if i < j then i else j, if i < j then j else i;
    assert r == r[..a] + [r[a]] + r[a + 1..b] + [r[b]] + r[b + 1..];
  }

  lemma OnceOnly(s: seq<Candidate>, k: nat)
    requires k < |s| && forall a, b :: 0 <= a < b < |s| ==> s[a].channel != s[b].channel
    ensures multiset(s)[s[k]] == 1
  {
    assert s == s[..k] + [s[k]] + s[k + 1..];
    assert s[k] !in s[..k] && s[k] !in s[k + 1..];
  }

  // ------------------------------------------------------------------
  // Fewer data
  // ------------------------------------------------------------------

  // s is what is left of t when some elements have been taken out.
  ghost predicate Embeds(s: seq<Datum>, t: seq<Datum>, f: seq<nat>) {
    |f| == |s| && Distinct(f) && forall i :: 0 <= i < |f| ==> f[i] < |t| && s[i] == t[f[i]]
  }

  ghost predicate Thinner(s: seq<Datum>, t: seq<Datum>) {
    exists f :: Embeds(s, t, f)
  }

  ghost function Embedding(s: seq<Datum>, t: seq<Datum>): (f: seq<nat>)
    requires Thinner(s, t)
    ensures Embeds(s, t, f)
  {
    var f :| Embeds(s, t, f);
    f
  }

  lemma DropThinner(t: seq<Datum>, i: int)
    ensures Thinner(Drop(t, i), t)
  {
    var s := Drop(t, i);
    var f: seq<nat> := seq(|s|, k requires 0 <= k < |s| => if 0 <= i <= k && i < |t| then k + 1 else k);
    assert Embeds(s, t, f);
  }

  lemma ThinnerTrans(s: seq<Datum>, t: seq<Datum>, u: seq<Datum>)
    requires Thinner(s, t) && Thinner(t, u)
    ensures Thinner(s, u)
  {
    var f, g := Embedding(s, t), Embedding(t, u);
    var h: seq<nat> := seq(|s|, k requires 0 <= k < |s| => g[f[k]]);
    assert Embeds(s, u, h);
  }

  lemma {:induction false} RemovedThinner(cands: seq<Candidate>, c: Chan, d: seq<Datum>)
    ensures Thinner(Removed(cands, c, d), d)
    decreases |cands|
  {
    if cands == [] {
      DropThinner(d, -1);
    } else {
      var before := Removed(cands[..|cands| - 1], c, d);
      RemovedThinner(cands[..|cands| - 1], c, d);
      DropThinner(before, cands[|cands| - 1].index);
      ThinnerTrans(Drop(before, cands[|cands| - 1].index), before, d);
    }
  }

  // Fewer data make nothing fireable.
  lemma ThinFireable(m: Matcher, pool: Pool, pool': Pool, channels: seq<Chan>, patterns: seq<Pattern>)
    requires forall c :: Thinner(pool(c), pool'(c))
    requires Fireable(m, pool, channels, patterns)
    ensures Fireable(m, pool', channels, patterns)
  {
    var at :| Choice(m, pool, channels, patterns, at);
    forall i | 0 <= i < |at| ensures at[i] < |pool(channels[i])| && Thinner(pool(channels[i]), pool'(channels[i])) {
      assert Chooses(m, pool, channels[i], patterns[i], at[i]);
    }
    var at': seq<nat> := seq(|at|, i requires 0 <= i < |at| => Embedding(pool(channels[i]), pool'(channels[i]))[at[i]]);
    forall i | 0 <= i < |at| ensures Chooses(m, pool', channels[i], patterns[i], at'[i]) {
      assert Chooses(m, pool, channels[i], patterns[i], at[i]);
    }
    assert Choice(m, pool', channels, patterns, at');
  }

  // ------------------------------------------------------------------
  // The space
  // ------------------------------------------------------------------

  class RSpace {
    const m: Matcher
    const historyData: Chan -> seq<Datum>
    const historyConts: seq<Chan> -> seq<Waiting>
    const historyJoins: Chan -> seq<seq<Chan>>
    var data: map<Chan, seq<Datum>>
    var conts: map<seq<Chan>, seq<Waiting>>
    var joins: map<Chan, seq<seq<Chan>>>

    constructor (m: Matcher, d: Chan -> seq<Datum>, w: seq<Chan> -> seq<Waiting>, j: Chan -> seq<seq<Chan>>)
      ensures this.m == m && historyData == d && historyConts == w && historyJoins == j
      ensures data == map[] && conts == map[] && joins == map[]
      ensures QuietHistory(m, d, w, j) ==> Inv() && Quiescent()
      ensures PlainHistory(w) ==> Plain()
      ensures (forall js: seq<Chan> :: Single(w(js))) ==> Singles()
    {
      this.m, historyData, historyConts, historyJoins := m, d, w, j;
      data, conts, joins := map[], map[], map[];
      new;
      if QuietHistory(m, d, w, j) {
        forall js: seq<Chan>, v | v in Conts(js) ensures !Fireable(m, Pool(), js, v.patterns) {
          FireableSame(m, d, Pool(), js, v.patterns);
        }
      }
    }

    // get_data, get_continuations, get_joins: the cache, or else the history
    function Data(c: Chan): seq<Datum>
      reads this
    {
      if c in data then data[c] else historyData(c)
    }

    function Conts(cs: seq<Chan>): seq<Waiting>
      reads this
    {
      if cs in conts then conts[cs] else historyConts(cs)
    }

    function Joins(c: Chan): seq<seq<Chan>>
      reads this
    {
      if c in joins then joins[c] else historyJoins(c)
    }

    ghost function Pool(): (p: Pool)
      reads this
      ensures forall c :: p(c) == Data(c)
    {
      var d, h := data, historyData;
      (c: Chan) => if c in d then d[c] else h(c)
    }

    // ----------------------------------------------------------------
    // The invariant and the law
    // ----------------------------------------------------------------

    // The joins of a channel are the groups of channels, the channel among them, on which something waits.
    ghost predicate JoinsKnown()
      reads this
    {
      && (forall c: Chan, j: seq<Chan> {:trigger j in Joins(c)} :: j in Joins(c) <==> c in j && Conts(j) != [])
      && (forall c :: Distinct(Joins(c)))
    }

    ghost predicate Arities()
      reads this
    {
      forall j: seq<Chan>, w :: w in Conts(j) ==> |w.patterns| == |j|
    }

    ghost predicate Inv()
      reads this
    {
      JoinsKnown() && Arities()
    }

    // Nothing waits on a join that names a channel twice.
    ghost predicate Plain()
      reads this
    {
      forall j: seq<Chan>, w :: w in Conts(j) ==> Distinct(j)
    }

    // No continuation waits twice.
    ghost predicate Singles()
      reads this
    {
      forall j: seq<Chan> :: Single(Conts(j))
    }

    // The law: whatever waits, waits for something.
    ghost predicate Quiescent()
      reads this
    {
      forall j: seq<Chan>, w :: w in Conts(j) ==> !Fireable(m, Pool(), j, w.patterns)
    }

    // Data may have been taken, and continuations removed, but nothing has been added.
    twostate predicate Reduced()
      reads this
    {
      && (forall c :: Thinner(Data(c), old(Data(c))))
      && (forall j: seq<Chan>, w :: w in Conts(j) ==> w in old(Conts(j)))
    }

    twostate lemma StillQuiet()
      requires Reduced()
      ensures old(Quiescent()) ==> Quiescent()
      ensures old(Plain()) ==> Plain()
      ensures old(Arities()) ==> Arities()
    {
      if old(Quiescent()) {
        forall j: seq<Chan>, w | w in Conts(j) ensures !Fireable(m, Pool(), j, w.patterns) {
          if Fireable(m, Pool(), j, w.patterns) {
            ThinFireable(m, Pool(), old(Pool()), j, w.patterns);
          }
        }
      }
    }

    // ----------------------------------------------------------------
    // Data
    // ----------------------------------------------------------------

    // fetch_channel_to_index_data, and the same with a datum that is being produced
    method FetchData(channels: seq<Chan>, extra: Extra, o: Orders) returns (cache: Cache)
      ensures cache == FetchedAll(Pool(), extra, o, channels)
    {
      hide FetchedAll, Permutation;
      FetchedNone(Pool(), extra, o);
      cache := map[];
      assert channels[..0] == [];
      for k := 0 to |channels|
        invariant cache == FetchedAll(Pool(), extra, o, channels[..k])
      {
        var c := channels[k];
        var s := Shuffle(WithIndex(Data(c)), o.data(c));
        if extra.Some? && extra.value.0 == c {
          s := [Indexed(extra.value.1, -1)] + s;
        }
        assert s == Fetched(Pool(), extra, o, c);
        FetchedSnoc(Pool(), extra, o, channels[..k], c);
        cache := cache[c := s];
        assert channels[..k + 1] == channels[..k] + [c];
      }
      assert channels[..|channels|] == channels;
    }

    twostate predicate Took(cands: seq<Candidate>)
      reads this
    {
      forall c :: Data(c) == Removed(Ascending(cands), c, old(Data(c)))
    }

    // store_persistent_data and the removals of remove_matched_datum_and_join
    method RemoveMatched(cands: seq<Candidate>)
      modifies this`data
      ensures Took(cands)
    {
      var sorted := Ascending(cands);
      for k := 0 to |sorted|
        invariant forall c :: Data(c) == Removed(sorted[..k], c, old(Data(c)))
      {
        var x := sorted[k];
        assert sorted[..k + 1][..k] == sorted[..k];
        if !x.datum.persist {
          data := data[x.channel := Drop(Data(x.channel), x.index)];
        }
      }
      assert sorted[..|sorted|] == sorted;
    }

    twostate lemma TookReduces(cands: seq<Candidate>)
      requires Took(cands) && forall j: seq<Chan>, w :: w in Conts(j) ==> w in old(Conts(j))
      ensures Reduced()
    {
      forall c ensures Thinner(Data(c), old(Data(c))) {
        RemovedThinner(Ascending(cands), c, old(Data(c)));
      }
    }

    // Each matched datum that is not persistent is gone; all other data are as before.
    twostate predicate Taken(channels: seq<Chan>, cands: seq<Candidate>)
      requires |cands| == |channels|
      reads this
    {
      && (forall i :: 0 <= i < |channels| ==>
            Data(channels[i]) ==
            if cands[i].datum.persist then old(Data(channels[i])) else Drop(old(Data(channels[i])), cands[i].index))
      && (forall c :: c !in channels ==> Data(c) == old(Data(c)))
    }

    twostate lemma TookTaken(x: (seq<Chan>, seq<Candidate>))
      requires Took(x.1) && |x.1| == |x.0| && Distinct(x.0)
      requires forall i :: 0 <= i < |x.1| ==> x.1[i].channel == x.0[i]
      ensures Taken(x.0, x.1)
    {
      var (channels, cands) := x;
      forall i | 0 <= i < |channels|
        ensures Data(channels[i]) ==
                if cands[i].datum.persist then old(Data(channels[i])) else Drop(old(Data(channels[i])), cands[i].index)
      {
        RemovedAt(channels, cands, i, old(Data(channels[i])));
      }
      forall c | c !in channels ensures Data(c) == old(Data(c)) {
        RemovedElse(channels, cands, c, old(Data(c)));
      }
    }

    // ----------------------------------------------------------------
    // Continuations and joins
    // ----------------------------------------------------------------

    // put_continuation: one that is there already is not added again.
    method PutContinuation(channels: seq<Chan>, w: Waiting)
      modifies this`conts
      ensures ContPut(channels, w)
    {
      conts := conts[channels := WithWaiting(Conts(channels), w)];
    }

    twostate predicate JoinsPut(channels: seq<Chan>)
      reads this
    {
      forall c :: Joins(c) == if c in channels then WithJoin(old(Joins(c)), channels) else old(Joins(c))
    }

    twostate predicate ContPut(channels: seq<Chan>, w: Waiting)
      reads this
    {
      && Conts(channels) == WithWaiting(old(Conts(channels)), w)
      && forall j :: j != channels ==> Conts(j) == old(Conts(j))
    }

    // put_join
    method PutJoins(channels: seq<Chan>)
      modifies this`joins
      ensures JoinsPut(channels)
    {
      for k := 0 to |channels|
        invariant forall c :: Joins(c) == if c in channels[..k] then WithJoin(old(Joins(c)), channels) else old(Joins(c))
      {
        assert channels[..k + 1] == channels[..k] + [channels[k]];
        var c := channels[k];
        joins := joins[c := WithJoin(Joins(c), channels)];
      }
      assert channels[..|channels|] == channels;
    }

    twostate predicate JoinsRemoved(channels: seq<Chan>)
      reads this
    {
      forall c :: Joins(c) ==
        if c in channels && Conts(channels) == [] then WithoutJoin(old(Joins(c)), channels) else old(Joins(c))
    }

    // remove_join, for all channels of a join on which nothing waits any more
    method RemoveJoins(channels: seq<Chan>)
      requires forall c :: Distinct(Joins(c))
      modifies this`joins
      ensures JoinsRemoved(channels)
    {
      for k := 0 to |channels|
        invariant forall c :: Joins(c) ==
                    if c in channels[..k] && Conts(channels) == [] then WithoutJoin(old(Joins(c)), channels) else old(Joins(c))
      {
        assert channels[..k + 1] == channels[..k] + [channels[k]];
        var c := channels[k];
        WithoutJoinIs(old(Joins(c)), channels);
        if Conts(channels) == [] {
          joins := joins[c := WithoutJoin(Joins(c), channels)];
        }
      }
      assert channels[..|channels|] == channels;
    }

    // ----------------------------------------------------------------
    // consume
    // ----------------------------------------------------------------

    // locked_consume: a match takes its data, otherwise the continuation waits.
    method Consume(channels: seq<Chan>, w: Waiting, o: Orders) returns (r: Option<seq<Candidate>>)
      requires Inv() && |channels| == |w.patterns| > 0
      modifies this
      ensures Inv()
      ensures r.Some? <==> old(Finds(m, Pool(), None, o, channels, w.patterns))
      ensures r.Some? ==> old(AllSuit(m, Pool(), None, channels, w.patterns, r.value)) && Took(r.value)
      ensures r.Some? ==> conts == old(conts) && joins == old(joins)
      ensures r.None? ==> data == old(data) && ContPut(channels, w)
      ensures old(Quiescent()) ==> (Quiescent() <==> r.Some? || !old(Fireable(m, Pool(), channels, w.patterns)))
      ensures Distinct(channels) && old(Quiescent()) ==> Quiescent()
      ensures Distinct(channels) && old(Plain()) ==> Plain()
      ensures Distinct(channels) && r.Some? ==> Taken(channels, r.value)
      ensures old(Singles()) ==> Singles()
    {
      hide RSpace.Inv, AllSuit, WithWaiting, Distinct, Finds, Fireable, RSpace.Quiescent, RSpace.Plain;
      r := Candidates(channels, w.patterns, o);
      if r.Some? {
        Take(channels, r.value);
      } else {
        StoreWaiting(channels, w);
      }
    }

    method Candidates(channels: seq<Chan>, patterns: seq<Pattern>, o: Orders) returns (r: Option<seq<Candidate>>)
      requires |channels| == |patterns|
      ensures r.Some? <==> Finds(m, Pool(), None, o, channels, patterns)
      ensures r.Some? ==> AllSuit(m, Pool(), None, channels, patterns, r.value)
      ensures r.Some? ==> |r.value| == |channels| && forall i :: 0 <= i < |channels| ==> r.value[i].channel == channels[i]
      ensures r.None? && Distinct(channels) ==> !Fireable(m, Pool(), channels, patterns)
    {
      var cache := FetchData(channels, None, o);
      var cands, after, saved := Extract(m, channels, patterns, cache);
      r := Collect(cands);
      FetchedAllGood(Pool(), None, o, channels);
      hide Extracted, Whole, FetchedAll, Fireable, AllSuit;
      if r.Some? {
        ExtractedSuits(m, Pool(), None, channels, patterns, cache, r.value);
        SuitChannels(m, Pool(), None, channels, patterns, r.value);
      } else if Distinct(channels) {
        FireableSame(m, Pool(), With(Pool(), None), channels, patterns);
        if Fireable(m, Pool(), channels, patterns) {
          DistinctFinds(m, Pool(), None, o, channels, patterns);
        }
      }
    }

    method Take(channels: seq<Chan>, cands: seq<Candidate>)
      requires Inv() && |cands| == |channels|
      requires forall i :: 0 <= i < |cands| ==> cands[i].channel == channels[i]
      modifies this`data
      ensures Inv() && Took(cands)
      ensures old(Quiescent()) ==> Quiescent()
      ensures old(Plain()) ==> Plain()
      ensures Distinct(channels) ==> Taken(channels, cands)
    {
      hide RSpace.Quiescent, RSpace.Plain, RSpace.Arities, Distinct, RSpace.Took, RSpace.Taken;
      RemoveMatched(cands);
      assert forall j :: Conts(j) == old(Conts(j));
      assert forall c :: Joins(c) == old(Joins(c));
      TookReduces(cands);
      StillQuiet();
      if Distinct(channels) {
        TookTaken((channels, cands));
      }
    }

    // store_waiting_continuation
    method StoreWaiting(channels: seq<Chan>, w: Waiting)
      requires Inv() && |channels| == |w.patterns| > 0
      modifies this`conts, this`joins
      ensures Inv() && ContPut(channels, w)
      ensures old(Quiescent()) ==> (Quiescent() <==> !old(Fireable(m, Pool(), channels, w.patterns)))
      ensures Distinct(channels) && old(Plain()) ==> Plain()
      ensures (exists v :: v in Conts(channels) && Same(v, w)) && (old(Singles()) ==> Singles())
    {
      hide Fireable, Distinct, Single;
      WaitingOnce(Conts(channels), w);
      PutContinuation(channels, w);
      WaitingRest((channels, w));
      WaitingJoins((channels, w));
      AddJoins(channels);
    }

    // The joins are known, but for one.
    ghost predicate JoinsKnownBut(channels: seq<Chan>)
      reads this
    {
      && (forall c: Chan, j: seq<Chan> {:trigger j in Joins(c)} :: j != channels ==> (j in Joins(c) <==> c in j && Conts(j) != []))
      && (forall c :: Distinct(Joins(c)) && (channels in Joins(c) ==> c in channels))
    }

    twostate lemma WaitingRest(x: (seq<Chan>, Waiting))
      requires |x.0| == |x.1.patterns| && ContPut(x.0, x.1) && data == old(data)
      ensures old(Arities()) ==> Arities()
      ensures old(Plain()) && Distinct(x.0) ==> Plain()
      ensures old(Quiescent()) ==> (Quiescent() <==> !old(Fireable(m, Pool(), x.0, x.1.patterns)))
    {
      var (channels, w) := x;
      hide Distinct, Fireable;
      assert Pool() == old(Pool());
      forall j: seq<Chan>, v | v in Conts(j) ensures v in old(Conts(j)) || (j == channels && v == w) {
      }
      KnownWaits(old(Conts(channels)), w);
    }

    twostate lemma WaitingJoins(x: (seq<Chan>, Waiting))
      requires old(JoinsKnown()) && ContPut(x.0, x.1) && joins == old(joins)
      ensures JoinsKnownBut(x.0) && Conts(x.0) != []
    {
      var (channels, w) := x;
      hide Distinct;
      forall c: Chan, j: seq<Chan> | j != channels ensures j in Joins(c) <==> c in j && Conts(j) != [] {
        assert Joins(c) == old(Joins(c)) && Conts(j) == old(Conts(j));
      }
      forall c ensures Distinct(Joins(c)) && (channels in Joins(c) ==> c in channels) {
        assert Joins(c) == old(Joins(c));
      }
    }

    method AddJoins(channels: seq<Chan>)
      requires JoinsKnownBut(channels) && Conts(channels) != []
      modifies this`joins
      ensures JoinsKnown() && conts == old(conts) && data == old(data)
    {
      PutJoins(channels);
      forall c ensures Distinct(Joins(c)) && forall j {:trigger j in Joins(c)} :: j in Joins(c) <==> c in j && Conts(j) != [] {
        WithJoinIs(old(Joins(c)), channels);
      }
    }

    // ----------------------------------------------------------------
    // produce
    // ----------------------------------------------------------------

    // The datum completes no continuation that waits for its channel.
    ghost predicate Useless(channel: Chan, datum: Datum)
      reads this
    {
      forall j: seq<Chan>, w :: w in Conts(j) && channel in j ==>
        !Fireable(m, With(Pool(), Some((channel, datum))), j, w.patterns)
    }

    lemma NumberedArity(j: seq<Chan>, perm: seq<nat>)
      requires Arities()
      ensures Arity(j, Permuted(Numbered(Conts(j)), perm))
    {
    }

    // What the continuations of a join get.
    ghost function JoinServed(j: seq<Chan>, extra: Extra, o: Orders): Option<Found>
      requires Arities()
      reads this
    {
      NumberedArity(j, o.conts(j));
      Served(m, j, Permuted(Numbered(Conts(j)), o.conts(j)), FetchedAll(Pool(), extra, o, j))
    }

    // The continuations waiting on one join.
    method TryJoin(channels: seq<Chan>, extra: Extra, o: Orders) returns (r: Option<Found>)
      requires Arities()
      ensures r == JoinServed(channels, extra, o)
      ensures r.Some? ==> r.value.index < |Conts(channels)| && r.value.w == Conts(channels)[r.value.index]
      ensures r.Some? ==> AllSuit(m, Pool(), extra, channels, r.value.w.patterns, r.value.cands)
      ensures r.None? && Distinct(channels) ==>
                forall w :: w in Conts(channels) ==> !Fireable(m, With(Pool(), extra), channels, w.patterns)
    {
      hide Fireable, AllSuit, Served, FetchedAll, Distinct;
      var all := Numbered(Conts(channels));
      var tried := Shuffle(all, o.conts(channels));
      NumberedArity(channels, o.conts(channels));
      var cache := FetchData(channels, extra, o);
      r := FirstMatch(m, channels, tried, cache);
      FetchedAllGood(Pool(), extra, o, channels);
      ServedSuits(m, Pool(), extra, channels, tried, cache);
      if r.None? && Distinct(channels) {
        forall w | w in Conts(channels) ensures !Fireable(m, With(Pool(), extra), channels, w.patterns) {
          var i :| 0 <= i < |Conts(channels)| && Conts(channels)[i] == w;
          var k := PermutedHas(all, o.conts(channels), i);
          if Fireable(m, With(Pool(), extra), channels, w.patterns) {
            DistinctServed(m, Pool(), extra, o, channels, tried, k);
          }
        }
      }
    }

    ghost predicate IsWaiting(x: Match)
      reads this
    {
      x.index < |Conts(x.channels)| && x.w == Conts(x.channels)[x.index]
    }

    // run_matcher_for_channels: the joins of the channel, one after the other
    method FindMatch(channel: Chan, datum: Datum, o: Orders) returns (r: Option<Match>)
      requires Inv()
      ensures r.None? <==> forall j :: j in Joins(channel) ==> JoinServed(j, Some((channel, datum)), o).None?
      ensures r.None? && Plain() ==> Useless(channel, datum)
      ensures r.Some? ==> channel in r.value.channels && IsWaiting(r.value)
      ensures r.Some? ==> AllSuit(m, Pool(), Some((channel, datum)), r.value.channels, r.value.w.patterns, r.value.cands)
    {
      hide Fireable, AllSuit, RSpace.JoinServed, Distinct;
      var groups := Joins(channel);
      ghost var pool := With(Pool(), Some((channel, datum)));
      for k := 0 to |groups|
        invariant forall i :: 0 <= i < k ==> JoinServed(groups[i], Some((channel, datum)), o).None?
        invariant forall i, w :: 0 <= i < k && w in Conts(groups[i]) && Distinct(groups[i]) ==>
                    !Fireable(m, pool, groups[i], w.patterns)
      {
        assert groups[k] in Joins(channel);
        var found := TryJoin(groups[k], Some((channel, datum)), o);
        if found.Some? {
          return Some(Match(groups[k], found.value.w, found.value.index, found.value.cands));
        }
      }
      forall j: seq<Chan>, w | Plain() && w in Conts(j) && channel in j ensures !Fireable(m, pool, j, w.patterns) {
        assert j in Joins(channel) && Distinct(j);
      }
      r := None;
    }

    // put_datum
    method PutDatum(channel: Chan, datum: Datum)
      requires Inv()
      modifies this`data
      ensures Inv() && Data(channel) == [datum] + old(Data(channel))
      ensures forall c :: c != channel ==> Data(c) == old(Data(c))
      ensures old(Plain()) ==> Plain()
      ensures old(Quiescent()) ==> (Quiescent() <==> old(Useless(channel, datum)))
    {
      data := data[channel := [datum] + Data(channel)];
      assert forall j :: Conts(j) == old(Conts(j));
      assert forall c :: Joins(c) == old(Joins(c));
      PutQuiet((channel, datum));
    }

    twostate lemma PutQuiet(x: (Chan, Datum))
      requires Data(x.0) == [x.1] + old(Data(x.0)) && forall c :: c != x.0 ==> Data(c) == old(Data(c))
      requires forall j :: Conts(j) == old(Conts(j))
      ensures old(Quiescent()) ==> (Quiescent() <==> old(Useless(x.0, x.1)))
    {
      var (channel, datum) := x;
      forall j: seq<Chan>, w | w in Conts(j)
        ensures channel in j ==>
                  (Fireable(m, Pool(), j, w.patterns) <==> Fireable(m, With(old(Pool()), Some((channel, datum))), j, w.patterns))
        ensures channel !in j ==> (Fireable(m, Pool(), j, w.patterns) <==> Fireable(m, old(Pool()), j, w.patterns))
      {
        PutFireable((channel, datum, j, w));
      }
      hide Fireable;
    }

    twostate lemma PutFireable(x: (Chan, Datum, seq<Chan>, Waiting))
      requires Data(x.0) == [x.1] + old(Data(x.0)) && forall c :: c != x.0 ==> Data(c) == old(Data(c))
      ensures Fireable(m, Pool(), x.2, x.3.patterns) <==>
              Fireable(m, With(old(Pool()), Some((x.0, x.1))), x.2, x.3.patterns)
      ensures x.0 !in x.2 ==> (Fireable(m, Pool(), x.2, x.3.patterns) <==> Fireable(m, old(Pool()), x.2, x.3.patterns))
    {
      var (channel, datum, j, w) := x;
      forall c ensures Pool()(c) == With(old(Pool()), Some((channel, datum)))(c) {
      }
      FireableSame(m, Pool(), With(old(Pool()), Some((channel, datum))), j, w.patterns);
      if channel !in j {
        FireableSame(m, Pool(), old(Pool()), j, w.patterns);
      }
    }

    // locked_produce: a continuation that the datum completes takes it, otherwise the datum is stored.
    method Produce(channel: Chan, datum: Datum, o: Orders) returns (r: Option<Match>)
      requires Inv()
      modifies this
      ensures Inv()
      ensures r.None? <==> forall j :: j in old(Joins(channel)) ==> old(JoinServed(j, Some((channel, datum)), o)).None?
      ensures r.None? ==> Data(channel) == [datum] + old(Data(channel)) && conts == old(conts) && joins == old(joins)
      ensures r.None? ==> forall c :: c != channel ==> Data(c) == old(Data(c))
      ensures r.Some? ==> old(Completed(r.value, channel, datum)) && Resumed(r.value) && Took(r.value.cands)
      ensures r.Some? && Distinct(r.value.channels) ==> Taken(r.value.channels, r.value.cands)
      ensures old(Quiescent()) ==> (Quiescent() <==> r.Some? || old(Useless(channel, datum)))
      ensures old(Plain()) ==> Plain() && (r.None? <==> old(Useless(channel, datum)))
      ensures old(Plain()) && old(Quiescent()) ==> Quiescent()
      ensures old(Singles()) ==> Singles()
    {
      hide RSpace.Inv, RSpace.Plain, RSpace.Quiescent, RSpace.Useless, Single, AllSuit, RSpace.JoinServed, Distinct;
      r := FindMatch(channel, datum, o);
      if r.None? {
        PutDatum(channel, datum);
        assert forall j: seq<Chan> :: Conts(j) == old(Conts(j));
      } else {
        MatchFound(r.value, channel, datum);
        ProcessMatch(r.value);
      }
    }

    // The match is one of a waiting continuation whose data are all there, counting the produced one,
    // which is among them unless all were there before.
    ghost predicate Completed(x: Match, channel: Chan, datum: Datum)
      reads this
    {
      && IsWaiting(x) && AllSuit(m, Pool(), Some((channel, datum)), x.channels, x.w.patterns, x.cands)
      && (Quiescent() ==> exists i :: 0 <= i < |x.cands| && x.channels[i] == channel && x.cands[i].index == -1)
    }

    // The continuation is gone unless it is persistent; all others still wait.
    twostate predicate Resumed(x: Match)
      requires old(IsWaiting(x))
      reads this
    {
      && Conts(x.channels) == (if x.w.persist then old(Conts(x.channels)) else Drop(old(Conts(x.channels)), x.index))
      && forall j :: j != x.channels ==> Conts(j) == old(Conts(j))
    }

    lemma MatchFound(x: Match, channel: Chan, datum: Datum)
      requires channel in x.channels && IsWaiting(x)
      requires AllSuit(m, Pool(), Some((channel, datum)), x.channels, x.w.patterns, x.cands)
      ensures Completed(x, channel, datum) && !Useless(channel, datum) && |x.cands| == |x.channels|
      ensures forall i :: 0 <= i < |x.cands| ==> x.cands[i].channel == x.channels[i]
    {
      var extra := Some((channel, datum));
      assert x.w in Conts(x.channels);
      SuitChannels(m, Pool(), extra, x.channels, x.w.patterns, x.cands);
      SuitFireable(m, Pool(), extra, x.channels, x.w.patterns, x.cands);
      hide Fireable, Suits;
      if Quiescent() {
        var i :| 0 <= i < |x.cands| && x.cands[i].index == -1;
        SuitsChoose(m, Pool(), extra, x.channels[i], x.w.patterns[i], x.cands[i]);
      }
    }

    // remove_continuation
    method RemoveContinuation(x: Match)
      requires IsWaiting(x)
      modifies this`conts
      ensures Conts(x.channels) == Drop(old(Conts(x.channels)), x.index)
      ensures forall j :: j != x.channels ==> Conts(j) == old(Conts(j))
    {
      conts := conts[x.channels := Drop(Conts(x.channels), x.index)];
    }

    // process_match_found
    method ProcessMatch(x: Match)
      requires Inv() && IsWaiting(x) && |x.cands| == |x.channels|
      requires forall i :: 0 <= i < |x.cands| ==> x.cands[i].channel == x.channels[i]
      modifies this
      ensures Inv() && Resumed(x) && Took(x.cands)
      ensures old(Quiescent()) ==> Quiescent()
      ensures old(Plain()) ==> Plain()
      ensures Distinct(x.channels) ==> Taken(x.channels, x.cands)
      ensures old(Singles()) ==> Singles()
    {
      SingleDrop(Conts(x.channels), x.index);
      hide Single, RSpace.Quiescent, RSpace.Plain, RSpace.Arities, Distinct, WithoutJoin, RSpace.Taken;
      if !x.w.persist {
        RemoveContinuation(x);
      }
      assert Resumed(x) && forall c :: Data(c) == old(Data(c));
      RemoveMatched(x.cands);
      assert Resumed(x) && Took(x.cands) && forall c :: Joins(c) == old(Joins(c));
      RemoveJoins(x.channels);
      assert Resumed(x) && Took(x.cands);
      ResumedJoins(x);
      TookReduces(x.cands);
      StillQuiet();
      if Distinct(x.channels) {
        TookTaken((x.channels, x.cands));
      }
    }

    twostate lemma ResumedJoins(x: Match)
      requires old(JoinsKnown()) && old(IsWaiting(x)) && Resumed(x) && JoinsRemoved(x.channels)
      ensures JoinsKnown()
    {
      forall c ensures Distinct(Joins(c)) && forall j {:trigger j in Joins(c)} :: j in Joins(c) <==> c in j && Conts(j) != [] {
        WithoutJoinIs(old(Joins(c)), x.channels);
      }
    }
  }

  lemma SuitChannels(m: Matcher, pool: Pool, extra: Extra, channels: seq<Chan>, patterns: seq<Pattern>, cands: seq<Candidate>)
    requires AllSuit(m, pool, extra, channels, patterns, cands)
    ensures |cands| == |channels| && forall i :: 0 <= i < |cands| ==> cands[i].channel == channels[i]
  {
  }

  // ------------------------------------------------------------------
  // Histories
  // ------------------------------------------------------------------

  // A history in which the joins are known and nothing waits for data that are there.
  ghost predicate QuietHistory(m: Matcher, d: Chan -> seq<Datum>, w: seq<Chan> -> seq<Waiting>, j: Chan -> seq<seq<Chan>>) {
    && (forall c: Chan, js: seq<Chan> {:trigger js in j(c)} :: js in j(c) <==> c in js && w(js) != [])
    && (forall c :: Distinct(j(c)))
    && (forall js: seq<Chan>, v :: v in w(js) ==> |v.patterns| == |js| && !Fireable(m, d, js, v.patterns))
  }

  ghost predicate PlainHistory(w: seq<Chan> -> seq<Waiting>) {
    forall js: seq<Chan>, v :: v in w(js) ==> Distinct(js)
  }

  // A history in which nothing waits is one, whatever the data.
  lemma NothingWaits(m: Matcher, d: Chan -> seq<Datum>)
    ensures QuietHistory(m, d, (js: seq<Chan>) => [], (c: Chan) => []) && PlainHistory((js: seq<Chan>) => [])
  {
  }

  datatype Match = Match(channels: seq<Chan>, w: Waiting, index: nat, cands: seq<Candidate>)

  function Numbered(ws: seq<Waiting>): (r: seq<(Waiting, nat)>)
    ensures |r| == |ws| && forall i :: 0 <= i < |ws| ==> r[i] == (ws[i], i)
  {
    seq(|ws|, i requires 0 <= i < |ws| => (ws[i], i))
  }

  // Candidates for different channels are removed independently of each other, in any order.
  lemma RemovedAt(channels: seq<Chan>, cands: seq<Candidate>, i: nat, d: seq<Datum>)
    requires Distinct(channels) && |cands| == |channels| && i < |channels|
    requires forall k :: 0 <= k < |cands| ==> cands[k].channel == channels[k]
    ensures Removed(Ascending(cands), channels[i], d) == if cands[i].datum.persist then d else Drop(d, cands[i].index)
  {
    var j := OnceInPermutation(cands, Ascending(cands), i);
    RemovedOnce(Ascending(cands), channels[i], d, j);
  }

  lemma RemovedElse(channels: seq<Chan>, cands: seq<Candidate>, c: Chan, d: seq<Datum>)
    requires |cands| == |channels| && c !in channels
    requires forall k :: 0 <= k < |cands| ==> cands[k].channel == channels[k]
    ensures Removed(Ascending(cands), c, d) == d
  {
    var r := Ascending(cands);
    forall i | 0 <= i < |r| ensures r[i].channel != c {
      assert r[i] in multiset(cands);
    }
    RemovedNone(r, c, d);
  }

  // The identity of a continuation leaves out its source.
  predicate Same(v: Waiting, w: Waiting) {
    v.patterns == w.patterns && v.continuation == w.continuation && v.persist == w.persist && v.peeks == w.peeks
  }

  predicate Known(ws: seq<Waiting>, w: Waiting) {
    ws != [] && (Same(ws[0], w) || Known(ws[1..], w))
  }

  function WithWaiting(ws: seq<Waiting>, w: Waiting): (r: seq<Waiting>)
    ensures r != [] && forall v :: v in r ==> v in ws || v == w
  {
    if Known(ws, w) then ws else [w] + ws
  }

  ghost predicate Single(ws: seq<Waiting>) {
    forall i, k :: 0 <= i < k < |ws| ==> !Same(ws[i], ws[k])
  }

  lemma {:induction false} KnownIs(ws: seq<Waiting>, w: Waiting)
    ensures Known(ws, w) <==> exists v :: v in ws && Same(v, w)
  {
    if ws != [] {
      KnownIs(ws[1..], w);
      assert forall v :: v in ws <==> v == ws[0] || v in ws[1..];
    }
  }

  // What is put waits afterwards, and nothing waits twice.
  lemma WaitingOnce(ws: seq<Waiting>, w: Waiting)
    ensures exists v :: v in WithWaiting(ws, w) && Same(v, w)
    ensures Single(ws) ==> Single(WithWaiting(ws, w))
  {
    KnownIs(ws, w);
    var r := WithWaiting(ws, w);
    if !Known(ws, w) {
      assert r[0] == w && Same(w, w);
      forall i, k | Single(ws) && 0 <= i < k < |r| ensures !Same(r[i], r[k]) {
        assert r[k] == ws[k - 1] && r[k] in ws;
        if i > 0 {
          assert r[i] == ws[i - 1];
        }
      }
    }
  }

  lemma SingleDrop(ws: seq<Waiting>, i: int)
    ensures Single(ws) ==> Single(Drop(ws, i))
  {
  }

  // One that is known leaves what waits as it is; otherwise it waits afterwards.
  lemma {:induction false} KnownWaits(ws: seq<Waiting>, w: Waiting)
    ensures Known(ws, w) ==> exists v :: v in ws && v.patterns == w.patterns
    ensures !Known(ws, w) ==> w in WithWaiting(ws, w)
    ensures forall v :: v in ws ==> v in WithWaiting(ws, w)
    decreases |ws|
  {
    if ws != [] {
      KnownWaits(ws[1..], w);
      if Known(ws[1..], w) {
        var v :| v in ws[1..] && v.patterns == w.patterns;
        assert v in ws;
      } else if Same(ws[0], w) {
        assert ws[0] in ws;
      }
    }
  }

  function WithJoin(js: seq<seq<Chan>>, j: seq<Chan>): seq<seq<Chan>> {
    if j in js then js else [j] + js
  }

  function WithoutJoin(js: seq<seq<Chan>>, j: seq<Chan>): (r: seq<seq<Chan>>)
    ensures j !in js ==> r == js
  {
    if js == [] then [] else if js[0] == j then js[1..] else [js[0]] + WithoutJoin(js[1..], j)
  }

  lemma {:induction false} WithoutJoinIs(js: seq<seq<Chan>>, j: seq<Chan>)
    requires Distinct(js)
    ensures Distinct(WithoutJoin(js, j))
    ensures forall x :: x in WithoutJoin(js, j) <==> x in js && x != j
    decreases |js|
  {
    if js != [] {
      assert Distinct(js[1..]);
      WithoutJoinIs(js[1..], j);
      assert js[0] !in js[1..];
    }
  }

  lemma WithJoinIs(js: seq<seq<Chan>>, j: seq<Chan>)
    requires Distinct(js)
    ensures Distinct(WithJoin(js, j)) && forall x :: x in WithJoin(js, j) <==> x in js || x == j
  {
  }

  // ------------------------------------------------------------------
  // Runs
  // ------------------------------------------------------------------

  datatype Op = DoConsume(channels: seq<Chan>, w: Waiting, o: Orders) | DoProduce(channel: Chan, datum: Datum, o: Orders)

  predicate Possible(op: Op) {
    op.DoConsume? ==> |op.channels| == |op.w.patterns| > 0
  }

  predicate PlainOp(op: Op) {
    op.DoConsume? ==> Distinct(op.channels)
  }

  // Whatever is produced and consumed, in whatever order: if no join names a channel twice, no
  // continuation is left waiting for data that are there.
  method Perform(space: RSpace, ops: seq<Op>)
    requires space.Inv() && forall i :: 0 <= i < |ops| ==> Possible(ops[i])
    modifies space
    ensures space.Inv()
    ensures old(space.Plain()) && old(space.Quiescent()) && (forall i :: 0 <= i < |ops| ==> PlainOp(ops[i])) ==>
              space.Plain() && space.Quiescent()
    ensures old(space.Singles()) ==> space.Singles()
  {
    hide RSpace.Inv, RSpace.Plain, RSpace.Quiescent, RSpace.Singles, Distinct;
    ghost var plain := space.Plain() && space.Quiescent() && forall i :: 0 <= i < |ops| ==> PlainOp(ops[i]);
    for k := 0 to |ops|
      invariant space.Inv()
      invariant plain ==> space.Plain() && space.Quiescent()
      invariant old(space.Singles()) ==> space.Singles()
    {
      assert Possible(ops[k]) && (plain ==> PlainOp(ops[k]));
      if ops[k].DoConsume? {
        var _ := space.Consume(ops[k].channels, ops[k].w, ops[k].o);
      } else {
        var _ := space.Produce(ops[k].channel, ops[k].datum, ops[k].o);
      }
    }
  }

  // ------------------------------------------------------------------
  // Joining a channel with itself
  // ------------------------------------------------------------------

  /**
   Two candidates on one channel: the removal of the first moves the second one down, and the
   removal of the second misses it.  The datum stays, although it has been consumed.
   */
  lemma SecondStays(c: Chan, x: Candidate, y: Candidate, d: seq<Datum>)
    requires x.channel == c && y.channel == c && !x.datum.persist && !y.datum.persist
    requires 0 <= x.index < y.index < |d|
    ensures Ascending([y, x]) == [x, y] && Ascending([x, y]) == [x, y]
    ensures |Removed([x, y], c, d)| >= y.index && Removed([x, y], c, d)[y.index - 1] == d[y.index]
  {
    SortsPair(x, y);
    hide Ascending;
    RemovedPair(c, x, y, d);
    var once := Drop(d, x.index);
    assert once[y.index - 1] == d[y.index];
  }

  lemma SortsPair(x: Candidate, y: Candidate)
    requires x.index < y.index
    ensures Ascending([x, y]) == [x, y] && Ascending([y, x]) == [x, y]
  {
    assert [x, y][1..] == [y] && [y, x][1..] == [x];
    assert Ascending([x]) == [x] && Ascending([y]) == [y];
    assert [x][1..] == [];
    assert Insert(y, []) == [y];
    assert Insert(y, [x]) == [x] + Insert(y, [x][1..]);
    assert Insert(x, [y]) == [x, y];
  }

  lemma RemovedPair(c: Chan, x: Candidate, y: Candidate, d: seq<Datum>)
    requires x.channel == c && y.channel == c && !x.datum.persist && !y.datum.persist
    ensures Removed([x, y], c, d) == Drop(Drop(d, x.index), y.index)
  {
    assert [x, y][..1] == [x] && [x][..0] == [];
    assert Removed([], c, d) == d;
    assert Removed([x], c, d) == Drop(d, x.index);
  }

  // The positions that candidates on channel c take from it, in the order of the candidates.
  function Takes(cands: seq<Candidate>, c: Chan): seq<int> {
    if cands == [] then []
    else
      var before, x := Takes(cands[..|cands| - 1], c), cands[|cands| - 1];
      if x.channel == c && !x.datum.persist then before + [x.index] else before
  }

  function DropAll(at: seq<int>, d: seq<Datum>): seq<Datum> {
    if at == [] then d else Drop(DropAll(at[..|at| - 1], d), at[|at| - 1])
  }

  lemma {:induction false} RemovedDrops(cands: seq<Candidate>, c: Chan, d: seq<Datum>)
    ensures Removed(cands, c, d) == DropAll(Takes(cands, c), d)
    decreases |cands|
  {
    if cands != [] {
      var front, x := cands[..|cands| - 1], cands[|cands| - 1];
      RemovedDrops(front, c, d);
      var before := Takes(front, c);
      assert (before + [x.index])[..|before|] == before;
    }
  }

  ghost predicate Positions(at: seq<int>, d: seq<Datum>) {
    && (forall i :: 0 <= i < |at| ==> 0 <= at[i] < |d|)
    && (forall i, j :: 0 <= i < j < |at| ==> at[i] < at[j])
  }

  // The second datum to be taken stays, whatever follows.
  lemma {:induction false} SecondKept(at: seq<int>, d: seq<Datum>)
    requires Positions(at, d) && |at| >= 2
    ensures 1 <= at[1] <= |DropAll(at, d)| && DropAll(at, d)[at[1] - 1] == d[at[1]]
    decreases |at|
  {
    var front := at[..|at| - 1];
    if |at| == 2 {
      assert front[..0] == [] && DropAll(front, d) == Drop(d, at[0]);
    } else {
      SecondKept(front, d);
      assert at[1] < at[|at| - 1];
    }
  }

  // The data that have been taken, and no others, are gone.
  ghost predicate ExactlyGone(at: seq<int>, d: seq<Datum>, left: seq<Datum>) {
    forall k :: 0 <= k < |d| ==> (d[k] in left <==> k !in at)
  }

  lemma OneGone(d: seq<Datum>, i: nat)
    requires i < |d| && forall a, b :: 0 <= a < b < |d| ==> d[a] != d[b]
    ensures ExactlyGone([i], d, Drop(d, i))
  {
    var left := Drop(d, i);
    forall k | 0 <= k < |d| ensures d[k] in left <==> k != i {
      if k < i {
        assert left[k] == d[k];
      } else if k > i {
        assert left[k - 1] == d[k];
      }
    }
  }

  lemma ExactWhenSorted(cands: seq<Candidate>, c: Chan, d: seq<Datum>)
    requires Positions(Takes(cands, c), d) && forall a, b :: 0 <= a < b < |d| ==> d[a] != d[b]
    ensures ExactlyGone(Takes(cands, c), d, Removed(cands, c, d)) <==> |Takes(cands, c)| <= 1
  {
    var at := Takes(cands, c);
    RemovedDrops(cands, c, d);
    if |at| >= 2 {
      SecondKept(at, d);
      assert d[at[1]] in DropAll(at, d) && at[1] in at;
    } else if |at| == 1 {
      assert at == [at[0]] && at[..0] == [];
      OneGone(d, at[0]);
    }
  }

  lemma {:induction false} TakesCons(x: Candidate, s: seq<Candidate>, c: Chan)
    ensures Takes([x] + s, c) == Takes([x], c) + Takes(s, c)
    decreases |s|
  {
    if s != [] {
      var front := s[..|s| - 1];
      TakesCons(x, front, c);
      assert ([x] + s)[..|s|] == [x] + front && ([x] + s)[|s|] == s[|s| - 1];
    } else {
      assert [x] + s == [x];
    }
  }

  lemma {:induction false} TakesInsert(x: Candidate, s: seq<Candidate>, c: Chan)
    ensures multiset(Takes(Insert(x, s), c)) == multiset(Takes([x], c)) + multiset(Takes(s, c))
    decreases |s|
  {
    if s == [] || x.index <= s[0].index {
      TakesCons(x, s, c);
    } else {
      assert s == [s[0]] + s[1..];
      TakesInsert(x, s[1..], c);
      TakesCons(s[0], s[1..], c);
      TakesCons(s[0], Insert(x, s[1..]), c);
    }
  }

  // Sorting does not change what is taken.
  lemma {:induction false} TakesSame(s: seq<Candidate>, c: Chan)
    ensures multiset(Takes(Ascending(s), c)) == multiset(Takes(s, c))
    decreases |s|
  {
    if s != [] {
      assert s == [s[0]] + s[1..];
      TakesSame(s[1..], c);
      TakesInsert(s[0], Ascending(s[1..]), c);
      TakesCons(s[0], s[1..], c);
    }
  }

  ghost predicate Ordered(s: seq<Candidate>) {
    forall i, j :: 0 <= i < j < |s| ==> s[i].index <= s[j].index
  }

  lemma {:induction false} InsertOrdered(x: Candidate, s: seq<Candidate>)
    requires Ordered(s)
    ensures Ordered(Insert(x, s))
    decreases |s|
  {
    if s != [] && x.index > s[0].index {
      var r := Insert(x, s[1..]);
      InsertOrdered(x, s[1..]);
      forall i | 0 <= i < |r| ensures s[0].index <= r[i].index {
        assert r[i] in multiset(r);
        assert r[i] == x || r[i] in s[1..];
      }
      hide Insert;
      assert Ordered([s[0]] + r);
    }
  }

  lemma {:induction false} AscendingOrdered(s: seq<Candidate>)
    ensures Ordered(Ascending(s))
    decreases |s|
  {
    if s != [] {
      AscendingOrdered(s[1..]);
      InsertOrdered(s[0], Ascending(s[1..]));
    }
  }

  lemma {:induction false} TakesOrdered(s: seq<Candidate>, c: Chan)
    requires Ordered(s)
    ensures forall i, j :: 0 <= i < j < |Takes(s, c)| ==> Takes(s, c)[i] <= Takes(s, c)[j]
    ensures forall i :: 0 <= i < |Takes(s, c)| ==> Takes(s, c)[i] <= s[|s| - 1].index
    decreases |s|
  {
    if s != [] {
      TakesOrdered(s[..|s| - 1], c);
    }
  }

  lemma TakesOnce(at: seq<int>, i: nat, j: nat)
    requires i < j < |at| && multiset(at)[at[i]] <= 1
    ensures at[i] != at[j]
  {
    assert at == at[..i] + [at[i]] + at[i + 1..j] + [at[j]] + at[j + 1..];
  }

  // Different data are removed as they should be exactly if the join takes at most one from the channel.
  lemma RemovalExact(cands: seq<Candidate>, c: Chan, d: seq<Datum>)
    requires forall x :: x in Takes(cands, c) ==> 0 <= x < |d| && multiset(Takes(cands, c))[x] == 1
    requires forall a, b :: 0 <= a < b < |d| ==> d[a] != d[b]
    ensures ExactlyGone(Takes(cands, c), d, Removed(Ascending(cands), c, d)) <==> |Takes(cands, c)| <= 1
  {
    SortedPositions(cands, c, d);
    ExactWhenSorted(Ascending(cands), c, d);
    hide Takes, Ascending, Removed;
    assert ExactlyGone(Takes(cands, c), d, Removed(Ascending(cands), c, d)) <==>
           ExactlyGone(Takes(Ascending(cands), c), d, Removed(Ascending(cands), c, d));
  }

  lemma SortedPositions(cands: seq<Candidate>, c: Chan, d: seq<Datum>)
    requires forall x :: x in Takes(cands, c) ==> 0 <= x < |d| && multiset(Takes(cands, c))[x] == 1
    ensures Positions(Takes(Ascending(cands), c), d) && |Takes(Ascending(cands), c)| == |Takes(cands, c)|
    ensures forall x :: x in Takes(Ascending(cands), c) <==> x in Takes(cands, c)
  {
    TakesSame(cands, c);
    AscendingOrdered(cands);
    TakesOrdered(Ascending(cands), c);
    hide Takes, Ascending;
    SortedOnce(Takes(cands, c), Takes(Ascending(cands), c), |d|);
  }

  lemma SortedOnce(was: seq<int>, at: seq<int>, n: nat)
    requires multiset(at) == multiset(was) && forall i, j :: 0 <= i < j < |at| ==> at[i] <= at[j]
    requires forall x :: x in was ==> 0 <= x < n && multiset(was)[x] == 1
    ensures |at| == |was| && (forall x :: x in at <==> x in was)
    ensures (forall i :: 0 <= i < |at| ==> 0 <= at[i] < n) && forall i, j :: 0 <= i < j < |at| ==> at[i] < at[j]
  {
    assert |at| == |multiset(at)| == |multiset(was)| == |was|;
    forall x ensures x in at <==> x in was {
      assert x in at <==> x in multiset(at);
      assert x in was <==> x in multiset(was);
    }
    forall i | 0 <= i < |at| ensures 0 <= at[i] < n && multiset(at)[at[i]] == 1 {
      assert at[i] in at && at[i] in was;
    }
    forall i, j | 0 <= i < j < |at| ensures at[i] < at[j] {
      TakesOnce(at, i, j);
    }
  }

  // ------------------------------------------------------------------
  // The law broken: the first position takes what the second one needs
  // ------------------------------------------------------------------

  // Any join that names a channel twice can be left waiting although its data are there.
  method ConsumeBreaks(space: RSpace, channels: seq<Chan>, a: nat, b: nat) returns (w: Waiting)
    requires space.Inv() && space.Quiescent() && a < b < |channels| && channels[a] == channels[b]
    requires space.m == Picky() && forall c :: space.Data(c) == GreedyPool(channels[a])(c)
    modifies space
    ensures space.Inv() && w in space.Conts(channels) && Fireable(space.m, space.Pool(), channels, w.patterns)
    ensures !space.Quiescent()
  {
    w := Waiting(GreedyPatterns(|channels|, a, b), 0, false, {}, 0);
    ghost var pool, was := space.Pool(), space.Conts(channels);
    GreedyMisses(channels, a, b);
    hide Fireable, Finds, RSpace.Inv;
    FindsSame(Picky(), pool, GreedyPool(channels[a]), None, AsStored(), channels, w.patterns);
    FireableSame(Picky(), pool, GreedyPool(channels[a]), channels, w.patterns);
    var r := space.Consume(channels, w, AsStored());
    FireableSame(Picky(), pool, space.Pool(), channels, w.patterns);
    KnownWaits(was, w);
  }

  // The smallest case, from a space in which nothing waits.
  method ConsumeMisses() returns (space: RSpace, w: Waiting)
    ensures space.Inv() && w in space.Conts([0, 0]) && Fireable(space.m, space.Pool(), [0, 0], w.patterns)
  {
    NothingWaits(Picky(), GreedyPool(0));
    space := new RSpace(Picky(), GreedyPool(0), (js: seq<Chan>) => [], (c: Chan) => []);
    w := ConsumeBreaks(space, [0, 0], 0, 1);
  }

  // ------------------------------------------------------------------
  // The law broken: a failed match has spoilt the cache
  // ------------------------------------------------------------------

  const JOIN: seq<Chan> := [0, 0, 1]
  const DATUM := Datum(5, false, 9)
  const GREEDY := Waiting([0, 0, 4], 0, false, {}, 0)
  const HELD := Waiting([1, 2, 3], 1, false, {}, 0)

  function Fussy(): Matcher {
    (p: Pattern, x: Payload) =>
      if (p == 0 && x < 2) || (p == 1 && x == 0) || (p == 2 && x == 1) || (p == 3 && x == 5) then Some(x) else None
  }

  function TwoStored(): Chan -> seq<Datum> {
    (c: Chan) => if c == 0 then [D0, D1] else []
  }

  function BothWait(): seq<Chan> -> seq<Waiting> {
    (js: seq<Chan>) => if js == JOIN then [GREEDY, HELD] else []
  }

  function OneJoin(): Chan -> seq<seq<Chan>> {
    (c: Chan) => if c == 0 || c == 1 then [JOIN] else []
  }

  lemma BothQuiet()
    ensures QuietHistory(Fussy(), TwoStored(), BothWait(), OneJoin())
  {
    forall patterns: seq<Pattern> ensures !Fireable(Fussy(), TwoStored(), JOIN, patterns) {
      forall at ensures !Choice(Fussy(), TwoStored(), JOIN, patterns, at) {
        assert |at| == |patterns| == 3 ==> !Chooses(Fussy(), TwoStored(), JOIN[2], patterns[2], at[2]);
      }
    }
  }

  // What the cache holds for the join when the datum is produced, and after the first continuation.
  function Stocked(s: seq<Indexed>): Cache {
    map[0 := s, 1 := [Indexed(DATUM, -1)]]
  }

  lemma StockedIs()
    ensures FetchedAll(TwoStored(), Some((1, DATUM)), AsStored(), JOIN) == Stocked([I0, I1])
  {
    assert Fetched(TwoStored(), Some((1, DATUM)), AsStored(), 0) == [I0, I1];
    assert Fetched(TwoStored(), Some((1, DATUM)), AsStored(), 1) == [Indexed(DATUM, -1)];
  }

  // The first continuation takes both data, finds nothing on the other channel and is rolled back.
  lemma GreedyFails()
    ensures var e := Extracted(Fussy(), JOIN, GREEDY.patterns, Stocked([I0, I1]), 3);
            Whole(e.cands).None? && Undone(e.saved, e.cache) == Stocked([I1])
  {
    var cache, ps := Stocked([I0, I1]), GREEDY.patterns;
    hide Extracted, Undone;
    ExtractedNone(Fussy(), JOIN, ps, cache);
    StepTakes(Fussy(), JOIN, ps, cache, 1);
    assert [I0, I1][1..] == [I1] && [I1][1..] == [];
    StepTakes(Fussy(), JOIN, ps, cache, 2);
    StepSkips(Fussy(), JOIN, ps, cache, 3);
    var e := Extracted(Fussy(), JOIN, ps, cache, 3);
    assert e.cands[2].None?;
    OlderLost(0, [I0, I1], [I1], e.cache);
    assert e.saved == [(0, [I0, I1]), (0, [I1])];
  }

  // The second one finds its data in the full cache, ...
  lemma HeldWouldFind()
    ensures Whole(Extracted(Fussy(), JOIN, HELD.patterns, Stocked([I0, I1]), 3).cands).Some?
  {
    var cache, ps := Stocked([I0, I1]), HELD.patterns;
    hide Extracted, Whole;
    ExtractedNone(Fussy(), JOIN, ps, cache);
    StepTakes(Fussy(), JOIN, ps, cache, 1);
    assert [I0, I1][1..] == [I1];
    StepTakes(Fussy(), JOIN, ps, cache, 2);
    CandidateAt(Fussy(), JOIN, ps, cache, 3, 0);
    CandidateAt(Fussy(), JOIN, ps, cache, 3, 1);
    CandidateAt(Fussy(), JOIN, ps, cache, 3, 2);
  }

  // ... but not in what the first one has left.
  lemma HeldFails()
    ensures Whole(Extracted(Fussy(), JOIN, HELD.patterns, Stocked([I1]), 3).cands).None?
  {
    var cache, ps := Stocked([I1]), HELD.patterns;
    ExtractedNone(Fussy(), JOIN, ps, cache);
    CandidateAt(Fussy(), JOIN, ps, cache, 3, 0);
  }

  lemma NoneServed()
    ensures Arity(JOIN, [(GREEDY, 0), (HELD, 1)])
    ensures Served(Fussy(), JOIN, [(GREEDY, 0), (HELD, 1)], Stocked([I0, I1])).None?
  {
    var both := [(GREEDY, 0), (HELD, 1)];
    assert both[1..] == [(HELD, 1)] && [(HELD, 1)][1..] == [];
    GreedyFails();
    HeldFails();
    hide Extracted, Whole, Undone;
    assert Served(Fussy(), JOIN, [(HELD, 1)], Stocked([I1])).None?;
  }

  // Producing the datum for which the second continuation waits stores it and leaves both waiting.
  method ProduceMisses() returns (space: RSpace)
    ensures space.Inv() && HELD in space.Conts(JOIN) && Fireable(space.m, space.Pool(), JOIN, HELD.patterns)
    ensures Whole(Extracted(Fussy(), JOIN, HELD.patterns, Stocked([I0, I1]), 3).cands).Some?
  {
    hide Fireable, Whole, Extracted, RSpace.JoinServed, QuietHistory, RSpace.Quiescent, RSpace.Useless, AllSuit, Fussy, Removed,
         Single, RSpace.Singles, RSpace.Plain, PlainHistory, Distinct, RSpace.Inv;
    BothQuiet();
    space := new RSpace(Fussy(), TwoStored(), BothWait(), OneJoin());
    NotServed(space);
    var r := space.Produce(1, DATUM, AsStored());
    HeldFireable(space.Pool());
    HeldWouldFind();
  }

  lemma NotServed(space: RSpace)
    requires space.m == Fussy() && space.Inv() && space.data == map[] && space.conts == map[]
    requires space.historyData == TwoStored() && space.historyConts == BothWait()
    ensures space.JoinServed(JOIN, Some((1, DATUM)), AsStored()).None?
  {
    var all := Numbered(space.Conts(JOIN));
    assert all == [(GREEDY, 0), (HELD, 1)] == Permuted(all, AsStored().conts(JOIN));
    StockedIs();
    assert FetchedAll(space.Pool(), Some((1, DATUM)), AsStored(), JOIN) ==
           FetchedAll(TwoStored(), Some((1, DATUM)), AsStored(), JOIN);
    hide FetchedAll, Served;
    NoneServed();
  }

  lemma HeldFireable(pool: Pool)
    requires pool(0) == [D0, D1] && pool(1) == [DATUM]
    ensures Fireable(Fussy(), pool, JOIN, HELD.patterns)
  {
    var at: seq<nat> := [0, 1, 0];
    assert Choice(Fussy(), pool, JOIN, HELD.patterns, at);
  }
}
