/** Theorems about the harvester: batching, order and replay leave the derived tables alone. */
module Replay {
  import opened Sums
  import opened Sorting
  import opened Signals
  import opened GitReader
  import opened History
  import opened HarvesterStore
  import opened GitIngestion

  /** The tables a rebuild computes and no other. */
  ghost predicate Rebuilt(env: Env, truth: Truth, t: Tables) {
    Reflects(env, truth, Singles(TruthOrder(env, truth)), t)
  }

  ghost predicate SameAggregates(a: Tables, b: Tables) {
    a.defects == b.defects && a.pairs == b.pairs && a.signals == b.signals
  }

  // ---- Order and batching ----

  ghost predicate SameCounts(a: seq<CommitRecord>, b: seq<CommitRecord>) {
    && (forall k :: PairFrequency(a, k) == PairFrequency(b, k))
    && (forall f :: Touches(a, f) == Touches(b, f))
  }

  lemma PermutationCounts(a: seq<CommitRecord>, b: seq<CommitRecord>)
    requires multiset(a) == multiset(b)
    ensures SameCounts(a, b)
  {
    forall k ensures PairFrequency(a, k) == PairFrequency(b, k) { CountPermutation(a, b, ContributionTo(k)); }
    forall f ensures Touches(a, f) == Touches(b, f) { CountPermutation(a, b, Touching(f)); }
  }

  /** Aggregates are determined by the truth table and by the counts of the history, not by its order or batches. */
  lemma CountsDetermineAggregates(env: Env, truth: Truth, h1: seq<seq<CommitRecord>>, t1: Tables,
                                  h2: seq<seq<CommitRecord>>, t2: Tables)
    requires Reflects(env, truth, h1, t1) && Reflects(env, truth, h2, t2)
    requires SameCounts(Flat(h1), Flat(h2))
    ensures SameAggregates(t1, t2)
  {
    forall k ensures Get(t1.pairs, k) == Get(t2.pairs, k) {
      assert Get(t1.pairs, k) == PairFrequency(Flat(h1), k);
      assert Get(t2.pairs, k) == PairFrequency(Flat(h2), k);
    }
    CountsDetermineMap(t1.pairs, t2.pairs);
    forall f ensures At(t1.signals, f) == At(t2.signals, f) {
      assert Touches(Flat(h1), f) == Touches(Flat(h2), f);
      CouplingPermutation(Flat(h1), Flat(h2), f);
      assert Entropies(env, Flat(h1))(f) == Entropies(env, Flat(h2))(f);
    }
    assert t1.signals == t2.signals by {
      assert forall f :: At(t1.signals, f) == At(t2.signals, f);
      forall f ensures f in t1.signals <==> f in t2.signals { assert At(t1.signals, f) == At(t2.signals, f); }
      forall f | f in t1.signals ensures t1.signals[f] == t2.signals[f] {
        assert At(t1.signals, f) == At(t2.signals, f);
      }
    }
  }

  // ---- First and repeated shas ----

  /** The commits the truth table takes, and those it ignores because their sha is stored already. */
  ghost function Kept(truth: Truth, log: seq<CommitRecord>): seq<CommitRecord>
    decreases |log|
  {
    if log == [] then []
    else if log[0].sha in truth then Kept(truth, log[1..])
    else [log[0]] + Kept(truth[log[0].sha := log[0]], log[1..])
  }

  ghost function Ignored(truth: Truth, log: seq<CommitRecord>): seq<CommitRecord>
    decreases |log|
  {
    if log == [] then []
    else if log[0].sha in truth then [log[0]] + Ignored(truth, log[1..])
    else Ignored(truth[log[0].sha := log[0]], log[1..])
  }

  lemma {:induction false} KeptOrIgnored(truth: Truth, log: seq<CommitRecord>)
    ensures multiset(log) == multiset(Kept(truth, log)) + multiset(Ignored(truth, log))
    decreases |log|
  {
    if log == [] {
    } else {
      assert log == [log[0]] + log[1..];
      assert multiset(log) == multiset{log[0]} + multiset(log[1..]);
      KeptOrIgnored(if log[0].sha in truth then truth else truth[log[0].sha := log[0]], log[1..]);
    }
  }

  lemma {:induction false} KeptIsStored(truth: Truth, log: seq<CommitRecord>)
    requires KeyedBySha(truth)
    ensures Distinct(Kept(truth, log))
    ensures forall c ::
      c in Kept(truth, log) <==> c.sha !in truth && c.sha in Append(truth, log) && Append(truth, log)[c.sha] == c
    decreases |log|
  {
    if log == [] {
    } else {
      var c := log[0];
      AppendKeeps(if c.sha in truth then truth else truth[c.sha := c], log[1..]);
      KeptIsStored(if c.sha in truth then truth else truth[c.sha := c], log[1..]);
      if c.sha !in truth {
        var rest := Kept(truth[c.sha := c], log[1..]);
        assert forall i :: 0 <= i < |rest| ==> rest[i] in rest;
      }
    }
  }

  lemma {:induction false} TruthOrderDistinct(env: Env, truth: Truth)
    requires KeyedBySha(truth)
    ensures Distinct(TruthOrder(env, truth))
  {
    var keys := Listing(truth.Keys);
    var rows := Collect(keys, RowAt(truth));
    DistinctRows(truth, keys);
    CommitOrder(env);
    SortIsSortedPermutation(rows, CommitLe(env));
    forall c ensures multiset(TruthOrder(env, truth))[c] <= 1 {
      DistinctMultiplicity(rows, c);
    }
    OnceIsDistinct(TruthOrder(env, truth));
  }

  lemma {:induction false} DistinctRows(truth: Truth, keys: seq<string>)
    requires KeyedBySha(truth) && Distinct(keys)
    ensures Distinct(Collect(keys, RowAt(truth)))
    ensures forall c :: c in Collect(keys, RowAt(truth)) ==> c.sha in keys
  {
    if keys == [] {
    } else {
      DistinctRows(truth, keys[1..]);
      DistinctMultiplicity(keys, keys[0]);
      assert keys == [keys[0]] + keys[1..];
      var rest := Collect(keys[1..], RowAt(truth));
      assert forall i :: 0 <= i < |rest| ==> rest[i] in rest;
    }
  }

  /** What the truth table keeps of a history is, up to order, what a rebuild replays. */
  lemma KeptIsReplayed(env: Env, log: seq<CommitRecord>)
    ensures multiset(Kept(map[], log)) == multiset(TruthOrder(env, Append(map[], log)))
  {
    var truth := Append(map[], log);
    AppendKeeps(map[], log);
    KeptIsStored(map[], log);
    TruthOrderDistinct(env, truth);
    forall c ensures c in Kept(map[], log) <==> c in TruthOrder(env, truth) {
      TruthOrderMembers(env, truth, c);
    }
    DistinctSameMembers(Kept(map[], log), TruthOrder(env, truth));
  }

  // ---- Replay ----

  /** A commit whose sha came before changes no file. */
  ghost predicate RepeatsTouchNothing(log: seq<CommitRecord>) {
    forall i, j :: 0 <= i < j < |log| && log[i].sha == log[j].sha ==> log[j].filesChanged == []
  }

  ghost predicate TouchNothing(commits: seq<CommitRecord>) {
    forall i :: 0 <= i < |commits| ==> commits[i].filesChanged == []
  }

  ghost predicate RepeatsOf(truth: Truth, log: seq<CommitRecord>) {
    && RepeatsTouchNothing(log)
    && forall j :: 0 <= j < |log| && log[j].sha in truth ==> log[j].filesChanged == []
  }

  lemma {:induction false} IgnoredAreRepeats(truth: Truth, log: seq<CommitRecord>)
    ensures TouchNothing(Ignored(truth, log)) <==> RepeatsOf(truth, log)
    decreases |log|
  {
    if log == [] {
    } else {
      var c, rest := log[0], log[1..];
      var next := if c.sha in truth then truth else truth[c.sha := c];
      IgnoredAreRepeats(next, rest);
      RepeatsStep(truth, log);
      if c.sha in truth {
        TouchNothingStep(c, Ignored(truth, rest));
      }
    }
  }

  lemma TouchNothingStep(c: CommitRecord, rest: seq<CommitRecord>)
    ensures TouchNothing([c] + rest) <==> c.filesChanged == [] && TouchNothing(rest)
  {
    if TouchNothing([c] + rest) {
      assert ([c] + rest)[0] == c;
      forall i | 0 <= i < |rest| ensures rest[i].filesChanged == [] {
        assert ([c] + rest)[i + 1] == rest[i];
      }
    }
  }

  lemma RepeatsStep(truth: Truth, log: seq<CommitRecord>)
    requires log != []
    ensures
      var c, rest := log[0], log[1..];
      RepeatsOf(truth, log) <==>
        (c.sha in truth ==> c.filesChanged == [])
          && RepeatsOf(if c.sha in truth then truth else truth[c.sha := c], rest)
  {
  }

  lemma RepeatsTouchNothingIff(log: seq<CommitRecord>)
    ensures TouchNothing(Ignored(map[], log)) <==> RepeatsTouchNothing(log)
  {
    IgnoredAreRepeats(map[], log);
  }

  /** A history counts what its replay counts and, on top, what its repeated shas touch. */
  lemma HistoryCounts(env: Env, log: seq<CommitRecord>)
    ensures
      var replay, repeats := TruthOrder(env, Append(map[], log)), Ignored(map[], log);
      && (forall k :: PairFrequency(log, k) == PairFrequency(replay, k) + PairFrequency(repeats, k))
      && (forall f :: Touches(log, f) == Touches(replay, f) + Touches(repeats, f))
  {
    var replay, repeats := TruthOrder(env, Append(map[], log)), Ignored(map[], log);
    KeptOrIgnored(map[], log);
    KeptIsReplayed(env, log);
    assert multiset(log) == multiset(replay + repeats);
    PermutationCounts(log, replay + repeats);
    forall k ensures PairFrequency(replay + repeats, k) == PairFrequency(replay, k) + PairFrequency(repeats, k) {
      CountAppend(replay, repeats, ContributionTo(k));
    }
    forall f ensures Touches(replay + repeats, f) == Touches(replay, f) + Touches(repeats, f) {
      CountAppend(replay, repeats, Touching(f));
    }
  }

  lemma {:induction false} NothingTouchedCounts(commits: seq<CommitRecord>)
    requires TouchNothing(commits)
    ensures forall k :: PairFrequency(commits, k) == 0
    ensures forall f :: Touches(commits, f) == 0
  {
    if commits == [] {
    } else {
      assert commits[0].filesChanged == [];
      NothingTouchedCounts(commits[1..]);
      forall k ensures PairFrequency(commits, k) == 0 {
        ContributionNeedsBoth(commits[0], k);
        assert PairFrequency(commits, k) == Contribution(commits[0], k) + PairFrequency(commits[1..], k);
      }
      forall f ensures Touches(commits, f) == 0 {
        assert Touches(commits, f) == Touching(f)(commits[0]) + Touches(commits[1..], f);
      }
    }
  }

  lemma TouchedCounts(commits: seq<CommitRecord>, i: nat)
    requires i < |commits| && commits[i].filesChanged != []
    ensures Touches(commits, commits[i].filesChanged[0]) > 0
  {
    TouchesPositive(commits, commits[i].filesChanged[0]);
  }

  /** Replaying the truth table gives the aggregates of any ingestion history, whatever its order and batches,
      exactly when no commit that changes files was ingested under a sha already stored. */
  lemma ReplayAgreesIff(env: Env, history: seq<seq<CommitRecord>>, t: Tables, r: Tables)
    requires Reflects(env, Append(map[], Flat(history)), history, t)
    requires Rebuilt(env, Append(map[], Flat(history)), r)
    ensures SameAggregates(t, r) <==> RepeatsTouchNothing(Flat(history))
  {
    hide Reflects, Append, TruthOrder, Ignored, Singles, Flat, PairFrequency, Touches, RepeatsTouchNothing,
      SameAggregates;
    var log := Flat(history);
    var truth := Append(map[], log);
    var replay, repeats := TruthOrder(env, truth), Ignored(map[], log);
    FlatSingles(replay);
    HistoryCounts(env, log);
    RepeatsTouchNothingIff(log);
    if TouchNothing(repeats) {
      NothingTouchedCounts(repeats);
      CountsDetermineAggregates(env, truth, history, t, Singles(replay), r);
    } else {
      var i :| 0 <= i < |repeats| && repeats[i].filesChanged != [];
      var f := repeats[i].filesChanged[0];
      TouchedCounts(repeats, i);
      ChurnTells(env, truth, history, t, Singles(replay), r, f);
      assert !SameAggregates(t, r);
    }
  }

  lemma ChurnTells(env: Env, truth: Truth, h1: seq<seq<CommitRecord>>, t1: Tables,
                   h2: seq<seq<CommitRecord>>, t2: Tables, f: string)
    requires Reflects(env, truth, h1, t1) && Reflects(env, truth, h2, t2)
    requires Touches(Flat(h1), f) > Touches(Flat(h2), f)
    ensures !SameAggregates(t1, t2)
  {
  }

  /** A caller's check before an ingestion: commits with a stored or repeated sha must change no file. */
  ghost predicate FreshOrEmpty(truth: Truth, batch: seq<CommitRecord>) {
    forall j :: 0 <= j < |batch| && (batch[j].sha in truth || batch[j].sha in Shas(batch[..j])) ==>
      batch[j].filesChanged == []
  }

  lemma FreshBatchKeepsAgreement(log: seq<CommitRecord>, batch: seq<CommitRecord>)
    ensures RepeatsTouchNothing(log + batch) <==> RepeatsTouchNothing(log) && FreshOrEmpty(Append(map[], log), batch)
  {
    var truth, all := Append(map[], log), log + batch;
    AppendKeeps(map[], log);
    assert forall i :: 0 <= i < |log| ==> all[i] == log[i];
    assert forall j :: 0 <= j < |batch| ==> all[|log| + j] == batch[j];
    if RepeatsTouchNothing(all) {
      forall j | 0 <= j < |batch| && (batch[j].sha in truth || batch[j].sha in Shas(batch[..j]))
        ensures batch[j].filesChanged == []
      {
        if batch[j].sha in truth {
          var i :| 0 <= i < |log| && Shas(log)[i] == batch[j].sha;
          assert all[i].sha == all[|log| + j].sha;
        } else {
          var i :| 0 <= i < j && Shas(batch[..j])[i] == batch[j].sha;
          assert all[|log| + i].sha == all[|log| + j].sha;
        }
      }
    }
    if RepeatsTouchNothing(log) && FreshOrEmpty(truth, batch) {
      forall i, j | 0 <= i < j < |all| && all[i].sha == all[j].sha ensures all[j].filesChanged == [] {
        if j >= |log| {
          if i < |log| {
            assert Shas(log)[i] == batch[j - |log|].sha;
          } else {
            assert Shas(batch[..j - |log|])[i - |log|] == batch[j - |log|].sha;
          }
        }
      }
    }
  }

  ghost predicate DistinctShas(log: seq<CommitRecord>) {
    forall i, j :: 0 <= i < j < |log| ==> log[i].sha != log[j].sha
  }

  lemma {:induction false} FreshCommitsAreStored(truth: Truth, log: seq<CommitRecord>)
    requires KeyedBySha(truth) && DistinctShas(log) && forall i :: 0 <= i < |log| ==> log[i].sha !in truth
    ensures forall i :: 0 <= i < |log| ==> log[i].sha in Append(truth, log) && Append(truth, log)[log[i].sha] == log[i]
    decreases |log|
  {
    if log == [] {
    } else {
      var next := truth[log[0].sha := log[0]];
      FreshCommitsAreStored(next, log[1..]);
      AppendKeeps(next, log[1..]);
      assert next[log[0].sha] == log[0];
      assert forall i :: 1 <= i < |log| ==> log[i] == log[1..][i - 1];
    }
  }

  /** With fresh shas, ingesting the same commits in any order and in any batches ends in the same tables. */
  lemma AnyOrderAnySplit(env: Env, h1: seq<seq<CommitRecord>>, t1: Tables, h2: seq<seq<CommitRecord>>, t2: Tables)
    requires multiset(Flat(h1)) == multiset(Flat(h2)) && DistinctShas(Flat(h1))
    requires Reflects(env, Append(map[], Flat(h1)), h1, t1) && Reflects(env, Append(map[], Flat(h2)), h2, t2)
    ensures Append(map[], Flat(h1)) == Append(map[], Flat(h2)) && SameAggregates(t1, t2)
  {
    PermutationCounts(Flat(h1), Flat(h2));
    SameTruth(Flat(h1), Flat(h2));
    CountsDetermineAggregates(env, Append(map[], Flat(h1)), h1, t1, h2, t2);
  }

  lemma RowsComeFrom(log: seq<CommitRecord>)
    ensures forall sha :: sha in Append(map[], log) ==>
      Append(map[], log)[sha] in multiset(log) && Append(map[], log)[sha].sha == sha
    ensures forall c :: c in multiset(log) ==> c.sha in Append(map[], log)
  {
    AppendKeeps(map[], log);
    KeptOrIgnored(map[], log);
    KeptIsStored(map[], log);
    forall sha | sha in Append(map[], log) ensures Append(map[], log)[sha] in multiset(log) {
      assert Append(map[], log)[sha] in Kept(map[], log);
    }
    forall c | c in multiset(log) ensures c.sha in Append(map[], log) {
      var i :| 0 <= i < |log| && log[i] == c;
      assert Shas(log)[i] == c.sha;
    }
  }

  lemma FreshRows(log: seq<CommitRecord>, c: CommitRecord)
    requires DistinctShas(log) && c in multiset(log)
    ensures c.sha in Append(map[], log) && Append(map[], log)[c.sha] == c
  {
    FreshCommitsAreStored(map[], log);
    var i :| 0 <= i < |log| && log[i] == c;
  }

  lemma SameTruth(a: seq<CommitRecord>, b: seq<CommitRecord>)
    requires multiset(a) == multiset(b) && DistinctShas(a)
    ensures Append(map[], a) == Append(map[], b)
  {
    hide Append;
    var ta, tb := Append(map[], a), Append(map[], b);
    RowsComeFrom(a);
    RowsComeFrom(b);
    forall sha | sha in ta ensures sha in tb {
      assert ta[sha] in multiset(b);
    }
    forall sha | sha in tb ensures sha in ta && ta[sha] == tb[sha] {
      FreshRows(a, tb[sha]);
    }
  }

  /** A rebuild depends on the truth table alone, so a second one changes nothing. */
  lemma RebuildDetermined(env: Env, truth: Truth, t1: Tables, t2: Tables)
    requires Rebuilt(env, truth, t1) && Rebuilt(env, truth, t2)
    ensures t1 == t2
  {
    var history := Singles(TruthOrder(env, truth));
    CountsDetermineAggregates(env, truth, history, t1, history, t2);
  }
}
