/** src/chips/harvester/ingestion.py: whole-batch ingestion and per-commit replay from the truth table. */
module GitIngestion {
  import opened Sums
  import opened Sorting
  import opened Signals
  import opened GitReader
  import opened History
  import opened HarvesterStore

  class GitIngestion {
    const store: PostgresHarvesterStore
    /** The batches the derived tables stand for. */
    ghost var history: seq<seq<CommitRecord>>

    constructor (store: PostgresHarvesterStore)
      requires ValidEnv(store.env) && store.commits == map[] && store.Derived() == Tables(map[], map[], map[], [])
      ensures this.store == store && history == [] && Agrees()
    {
      this.store := store;
      history := [];
    }

    /** The derived tables stand for the ingested batches. */
    ghost predicate Agrees()
      reads this, store
    {
      && ValidEnv(store.env)
      && KeyedBySha(store.commits)
      && store.commits == Append(map[], Flat(history))
      && Reflects(store.env, store.commits, history, store.Derived())
    }

    /** Any batch, fresh or not: the derived tables go on standing for everything ingested. */
    method IngestCommits(commits: seq<CommitRecord>)
      requires Agrees()
      modifies this`history, store
      ensures Agrees()
      ensures store.commits == Append(old(store.commits), commits)
      ensures history == if commits == [] then old(history) else old(history) + [commits]
    {
      if commits == [] {
        return;
      }
      hide Reflects, Built, EvidenceOf, EvidenceFor, Append, KeyedBySha, ValidEnv, Flat;
      ghost var before := store.Derived();
      BuiltIsReflected(store.env, store.commits, history, before);
      UpsertAll(commits);
      IngestedReflects(store.env, old(store.commits), old(history), commits, before, store.Derived());
    }

    /** Truth, corpus, pairs and signals, in this order. */
    method UpsertAll(commits: seq<CommitRecord>)
      requires ValidEnv(store.env)
      requires Built(store.env, history, store.pairs, store.signals, store.snapshots)
      modifies this`history, store
      ensures store.commits == Append(old(store.commits), commits)
      ensures store.defects == old(store.defects) + EvidenceFor(store.env, store.commits, commits)
      ensures history == old(history) + [commits]
      ensures Built(store.env, history, store.pairs, store.signals, store.snapshots)
    {
      hide Built, EvidenceFor, Append, ValidEnv;
      UpsertCommits(commits);
      UpsertDefectCorpus(commits);
      UpsertPairsAndSignals(commits);
    }

    /** First all pairs of the batch, then its signals. */
    method UpsertPairsAndSignals(batch: seq<CommitRecord>)
      requires ValidEnv(store.env)
      requires Built(store.env, history, store.pairs, store.signals, store.snapshots)
      modifies this`history, store`pairs, store`signals, store`snapshots, store`queries, store`upserts
      ensures history == old(history) + [batch]
      ensures Built(store.env, history, store.pairs, store.signals, store.snapshots)
    {
      ghost var log, entropies := Flat(history), Entropies(store.env, Flat(history) + batch);
      ghost var signals := store.signals;
      UpsertCochangePairs(batch, log);
      EntropiesHold(store.env, log + batch);
      UpsertFileSignals(batch, log + batch, entropies);
      BuiltGrows(store.env, history, batch, store.pairs, signals, store.signals, store.snapshots);
      history := history + [batch];
    }

    /** Replays the truth table, whatever the derived tables held. */
    method RebuildDerivedFromTruth()
      requires ValidEnv(store.env) && KeyedBySha(store.commits)
      modifies this`history, store
      ensures Agrees()
      ensures store.commits == old(store.commits)
      ensures history == Singles(TruthOrder(store.env, store.commits)) && OldestFirst(store.env, Flat(history))
    {
      hide PairsReflect, SignalsReflect, SnapshotsOf, EvidenceOf, EvidenceFor, Singles, Flat, TruthOrder, Built, Append;
      var commits := store.TruthCommits();
      store.ClearDerivedTables();
      NothingBuilt(store.env, store.commits);
      history := [];
      var i := 0;
      while i < |commits|
        invariant 0 <= i <= |commits|
        invariant store.commits == old(store.commits)
        invariant history == Singles(commits[..i])
        invariant store.defects == EvidenceFor(store.env, store.commits, commits[..i])
        invariant Built(store.env, history, store.pairs, store.signals, store.snapshots)
      {
        assert commits[..i + 1] == commits[..i] + [commits[i]];
        SinglesAppend(commits[..i], commits[i]);
        UpsertDefectCorpus([commits[i]]);
        EvidenceStep(store.env, store.commits, commits, i);
        UpsertPairsAndSignals([commits[i]]);
        i := i + 1;
      }
      assert commits[..i] == commits;
      TruthOrderComplete(store.env, store.commits);
      AppendTruthOrder(store.env, store.commits);
      FlatSingles(commits);
      BuiltIsReflected(store.env, store.commits, history, store.Derived());
    }

    method UpsertCommits(commits: seq<CommitRecord>)
      modifies store`commits
      ensures store.commits == Append(old(store.commits), commits)
    {
      store.AppendGitCommits(commits);
    }

    method UpsertDefectCorpus(commits: seq<CommitRecord>)
      modifies store`defects
      ensures store.defects == old(store.defects) + EvidenceFor(store.env, store.commits, commits)
    {
      store.RebuildDefectCorpusForShas(Shas(commits));
    }

    method UpsertCochangePairs(commits: seq<CommitRecord>, ghost log: seq<CommitRecord>)
      requires PairsReflect(store.pairs, log)
      modifies store`pairs
      ensures PairsReflect(store.pairs, log + commits)
    {
      var rows := ComputeCochangePairs(commits);
      store.MergeCochangePairs(rows);
      CountAppend(log, commits, PairBudget());
      forall k ensures PairFrequency(log + commits, k) == PairFrequency(log, k) + PairFrequency(commits, k) {
        CountAppend(log, commits, ContributionTo(k));
      }
    }

    method ComputeStoredCochangeEntropy(f: string, kind: Option<GeneratedKind>, ghost log: seq<CommitRecord>,
      ghost entropies: string -> real)
      returns (entropy: real)
      requires ValidEnv(store.env) && PairsReflect(store.pairs, log) && EntropiesAre(store.env, log, entropies)
      requires kind == store.env.classify(f)
      modifies store`queries
      ensures entropy == entropies(f)
      ensures store.queries == if kind.None? then old(store.queries) + multiset{f} else old(store.queries)
    {
      assert FileName(f);
      if kind.Some? {
        return 0.0;
      }
      PartnersReflect(store.pairs, log, f);
      var partners := store.PartnerFrequencies(f);
      assert File(f, partners);
      entropy := CochangeEntropyForFile(store.env.ln, store.env.classify, f, partners);
    }

    /** The body of the inner loop: one file of one commit, with the batch's memo of entropies. */
    method UpsertSignal(
      c: CommitRecord, signal: FileSignal, memo0: map<string, real>, ghost log: seq<CommitRecord>,
      ghost entropies: string -> real)
      returns (memo: map<string, real>)
      requires ValidEnv(store.env) && PairsReflect(store.pairs, log) && EntropiesAre(store.env, log, entropies)
      requires MemoOf(entropies, memo0)
      requires signal.churnScore == 1.0 && signal.generatedKind == store.env.classify(signal.filePath)
      modifies store`signals, store`snapshots, store`queries, store`upserts
      ensures MemoOf(entropies, memo) && memo.Keys == memo0.Keys + {signal.filePath}
      ensures Emitted(store.env, entropies, old(store.Written()), store.Written(), memo0.Keys, memo.Keys,
                      multiset{signal.filePath}, SnapshotRowOf(store.env.classify, entropies, c.sha)(signal.filePath))
    {
      hide PairsReflect, EntropiesAre, SignalsMoved, FirstReads;
      memo := memo0;
      var kind := if signal.generatedKind.Some? then signal.generatedKind else store.env.classify(signal.filePath);
      var entropy;
      if signal.filePath in memo {
        entropy := memo[signal.filePath];
      } else {
        entropy := ComputeStoredCochangeEntropy(signal.filePath, kind, log, entropies);
        memo := memo[signal.filePath := entropy];
      }
      OneRead(store.env, old(store.queries), memo0.Keys, signal.filePath);
      OneMoved(store.env.classify, entropies, store.signals, signal.filePath);
      store.UpsertFileSignal(signal.filePath, signal.churnScore, entropy, kind);
      store.SnapshotFileSignal(SnapshotRow(c.sha, signal.filePath, signal.churnScore, entropy, kind));
      CollectSingle(SnapshotRow(c.sha, signal.filePath, signal.churnScore, entropy, kind), UpsertOf());
    }

    /** The inner loop: the signals of one commit. */
    method UpsertCommitSignals(
      c: CommitRecord, memo0: map<string, real>, ghost log: seq<CommitRecord>,
      ghost entropies: string -> real)
      returns (memo: map<string, real>)
      requires ValidEnv(store.env) && PairsReflect(store.pairs, log) && EntropiesAre(store.env, log, entropies)
      requires MemoOf(entropies, memo0)
      modifies store`signals, store`snapshots, store`queries, store`upserts
      ensures MemoOf(entropies, memo)
      ensures memo.Keys == memo0.Keys + Names(SortedSet(c.filesChanged))
      ensures Emitted(store.env, entropies, old(store.Written()), store.Written(), memo0.Keys, memo.Keys,
                      multiset(SortedSet(c.filesChanged)), CommitSnapshots(store.env.classify, entropies)(c))
    {
      hide Collect, SnapshotRowOf, Emitted, PairsReflect, EntropiesAre, MemoOf, SortedSet, Names;
      memo := memo0;
      NothingEmitted(store.env, entropies, store.Written(), memo.Keys);
      CollectNone(SnapshotRowOf(store.env.classify, entropies, c.sha));
      var fileSignals := CommitSignals(store.env.ln, store.env.classify, c);
      ghost var files := SortedSet(c.filesChanged);
      var i := 0;
      while i < |fileSignals|
        invariant 0 <= i <= |fileSignals| == |files|
        invariant MemoOf(entropies, memo)
        invariant memo.Keys == memo0.Keys + Names(files[..i])
        invariant Emitted(store.env, entropies, old(store.Written()), store.Written(), memo0.Keys, memo.Keys,
                          multiset(files[..i]),
                          Collect(files[..i], SnapshotRowOf(store.env.classify, entropies, c.sha)))
      {
        PrefixStep(files, i);
        CollectStep(files, i, SnapshotRowOf(store.env.classify, entropies, c.sha));
        ghost var written, keys := store.Written(), memo.Keys;
        memo := UpsertSignal(c, fileSignals[i], memo, log, entropies);
        EmittedTwice(store.env, entropies, old(store.Written()), written, store.Written(), memo0.Keys, keys, memo.Keys,
                     multiset(files[..i]), multiset{files[i]},
                     Collect(files[..i], SnapshotRowOf(store.env.classify, entropies, c.sha)),
                     SnapshotRowOf(store.env.classify, entropies, c.sha)(files[i]));
        i := i + 1;
      }
      assert files[..i] == files;
    }

    /** Commit by commit, with one memo of entropies for the whole batch; the pairs table stands still. */
    method UpsertFileSignals(commits: seq<CommitRecord>, ghost log: seq<CommitRecord>, ghost entropies: string -> real)
      requires ValidEnv(store.env) && PairsReflect(store.pairs, log) && EntropiesAre(store.env, log, entropies)
      modifies store`signals, store`snapshots, store`queries, store`upserts
      ensures Emitted(store.env, entropies, old(store.Written()), store.Written(),
                      {}, Names(Collect(commits, TouchedFiles())),
                      multiset(Collect(commits, TouchedFiles())),
                      BatchSnapshots(store.env.classify, entropies, commits))
    {
      hide Collect, SnapshotRowOf, CommitSnapshots, Emitted, PairsReflect, EntropiesAre, SortedSet, Names;
      var memo: map<string, real> := map[];
      NothingEmitted(store.env, entropies, store.Written(), memo.Keys);
      CollectNone(CommitSnapshots(store.env.classify, entropies));
      CollectNone(TouchedFiles());
      var i := 0;
      while i < |commits|
        invariant 0 <= i <= |commits|
        invariant MemoOf(entropies, memo)
        invariant memo.Keys == Names(Collect(commits[..i], TouchedFiles()))
        invariant Emitted(store.env, entropies, old(store.Written()), store.Written(), {}, memo.Keys,
                          multiset(Collect(commits[..i], TouchedFiles())),
                          BatchSnapshots(store.env.classify, entropies, commits[..i]))
      {
        CollectStep(commits, i, TouchedFiles());
        NamesAppend(Collect(commits[..i], TouchedFiles()), SortedSet(commits[i].filesChanged));
        assert TouchedFiles()(commits[i]) == SortedSet(commits[i].filesChanged);
        CollectStep(commits, i, CommitSnapshots(store.env.classify, entropies));
        ghost var written, keys := store.Written(), memo.Keys;
        memo := UpsertCommitSignals(commits[i], memo, log, entropies);
        EmittedTwice(store.env, entropies, old(store.Written()), written, store.Written(), {}, keys, memo.Keys,
                     multiset(Collect(commits[..i], TouchedFiles())), multiset(SortedSet(commits[i].filesChanged)),
                     BatchSnapshots(store.env.classify, entropies, commits[..i]),
                     CommitSnapshots(store.env.classify, entropies)(commits[i]));
        i := i + 1;
      }
      assert commits[..i] == commits;
    }
  }

  /** One stretch of the loop, from ledger `a` to ledger `b`: the signal rows of `files` moved; a hand-written file was
      read exactly when it joined the memo; `rows` were appended to the snapshot log, each with the upsert of its
      values. */
  ghost predicate Emitted(env: Env, entropies: string -> real, a: Ledger, b: Ledger, memo0: set<string>,
                          memo: set<string>, files: multiset<string>, rows: seq<SnapshotRow>)
  {
    && SignalsMoved(env.classify, entropies, a.signals, b.signals, files)
    && FirstReads(env, a.queries, b.queries, memo0, memo)
    && b.snapshots == a.snapshots + rows
    && b.upserts == a.upserts + Collect(rows, UpsertOf())
  }

  lemma NothingEmitted(env: Env, entropies: string -> real, a: Ledger, memo: set<string>)
    ensures Emitted(env, entropies, a, a, memo, memo, multiset{}, [])
    ensures Names([]) == {}
  {
    NothingMoved(env, entropies, a.signals, a.queries, memo);
  }

  lemma EmittedTwice(env: Env, entropies: string -> real, a: Ledger, b: Ledger, c: Ledger,
                     memo0: set<string>, memo1: set<string>, memo2: set<string>,
                     first: multiset<string>, second: multiset<string>, done: seq<SnapshotRow>, more: seq<SnapshotRow>)
    requires Emitted(env, entropies, a, b, memo0, memo1, first, done)
    requires Emitted(env, entropies, b, c, memo1, memo2, second, more)
    ensures Emitted(env, entropies, a, c, memo0, memo2, first + second, done + more)
  {
    hide Collect, SignalsMoved, FirstReads;
    SignalsMovedTwice(env.classify, entropies, a.signals, b.signals, c.signals, first, second);
    FirstReadsTwice(env, a.queries, b.queries, c.queries, memo0, memo1, memo2);
    CollectAppend(done, more, UpsertOf());
    Extended(a.snapshots, done, more);
    Extended(a.upserts, Collect(done, UpsertOf()), Collect(more, UpsertOf()));
  }

  lemma EntropiesHold(env: Env, log: seq<CommitRecord>)
    ensures EntropiesAre(env, log, Entropies(env, log))
  {
  }

  /** The evidence of the stored commits among `commits`. */
  function EvidenceFor(env: Env, truth: Truth, commits: seq<CommitRecord>): map<string, DefectEvidence> {
    EvidenceAt(env, truth, Shas(commits))
  }

  lemma {:induction false} AppendKeeps(truth: Truth, commits: seq<CommitRecord>)
    requires KeyedBySha(truth)
    ensures KeyedBySha(Append(truth, commits))
    ensures forall sha :: sha in truth ==> sha in Append(truth, commits) && Append(truth, commits)[sha] == truth[sha]
    ensures forall sha :: sha in Append(truth, commits) <==> sha in truth || sha in Shas(commits)
    decreases |commits|
  {
    if commits == [] {
    } else {
      var c := commits[0];
      AppendKeeps(if c.sha in truth then truth else truth[c.sha := c], commits[1..]);
      assert Shas(commits) == [c.sha] + Shas(commits[1..]);
    }
  }

  lemma {:induction false} AppendAppend(truth: Truth, a: seq<CommitRecord>, b: seq<CommitRecord>)
    ensures Append(truth, a + b) == Append(Append(truth, a), b)
    decreases |a|
  {
    if a == [] {
      assert a + b == b;
    } else {
      assert (a + b)[1..] == a[1..] + b;
      AppendAppend(if a[0].sha in truth then truth else truth[a[0].sha := a[0]], a[1..], b);
    }
  }

  /** Appending commits that the table `stored` holds under their shas yields its rows for those shas. */
  lemma {:induction false} AppendStored(truth: Truth, commits: seq<CommitRecord>, stored: Truth)
    requires forall c :: c in commits ==> c.sha in stored && stored[c.sha] == c
    requires forall sha :: sha in truth ==> sha in stored && stored[sha] == truth[sha]
    ensures forall sha :: sha in Append(truth, commits) <==> sha in truth || sha in Shas(commits)
    ensures forall sha :: sha in Append(truth, commits) ==> sha in stored && stored[sha] == Append(truth, commits)[sha]
    decreases |commits|
  {
    if commits == [] {
    } else {
      var c := commits[0];
      assert c in commits;
      AppendStored(if c.sha in truth then truth else truth[c.sha := c], commits[1..], stored);
      assert Shas(commits) == [c.sha] + Shas(commits[1..]);
    }
  }

  lemma AppendTruthOrder(env: Env, truth: Truth)
    requires KeyedBySha(truth)
    ensures Append(map[], TruthOrder(env, truth)) == truth
  {
    hide Append, TruthOrder;
    var commits := TruthOrder(env, truth);
    forall c | c in commits ensures c.sha in truth && truth[c.sha] == c {
      TruthOrderMembers(env, truth, c);
    }
    AppendStored(map[], commits, truth);
    forall sha | sha in truth ensures sha in Append(map[], commits) {
      TruthOrderShas(env, truth, sha);
    }
  }

  lemma TruthOrderShas(env: Env, truth: Truth, sha: string)
    requires KeyedBySha(truth) && sha in truth
    ensures sha in Shas(TruthOrder(env, truth))
  {
    var commits := TruthOrder(env, truth);
    TruthOrderMembers(env, truth, truth[sha]);
    var i :| 0 <= i < |commits| && commits[i] == truth[sha];
    assert Shas(commits)[i] == sha;
  }

  lemma EvidenceGrows(env: Env, truth: Truth, commits: seq<CommitRecord>)
    requires KeyedBySha(truth)
    ensures KeyedBySha(Append(truth, commits))
    ensures EvidenceOf(env, truth) + EvidenceFor(env, Append(truth, commits), commits)
         == EvidenceOf(env, Append(truth, commits))
  {
    AppendKeeps(truth, commits);
  }

  /** The heart of the refinement: a file the batch does not touch keeps an up-to-date entropy,
      and the last upsert of a touched file sees the final pairs. */
  lemma SignalsGrow(env: Env, log: seq<CommitRecord>, batch: seq<CommitRecord>,
                    before: map<string, SignalRow>, after: map<string, SignalRow>)
    requires SignalsReflect(env.classify, Entropies(env, log), before, log)
    requires SignalsMoved(env.classify, Entropies(env, log + batch), before, after,
      multiset(Collect(batch, TouchedFiles())))
    ensures SignalsReflect(env.classify, Entropies(env, log + batch), after, log + batch)
  {
    forall f ensures f in after <==> Touches(log + batch, f) > 0
             ensures f in after ==>
               after[f] == SignalRow(Touches(log + batch, f) as real, Entropies(env, log + batch)(f), env.classify(f))
    {
      CountAppend(log, batch, Touching(f));
      TouchesAreOccurrences(batch, f);
      assert At(after, f) == Upserted(env.classify, Entropies(env, log + batch), before, f, Touches(batch, f));
      if Touches(batch, f) == 0 {
        EntropyUntouched(env, log, batch, f);
      }
    }
  }

  lemma NothingBuilt(env: Env, truth: Truth)
    ensures Built(env, [], map[], map[], [])
    ensures Singles([]) == [] && EvidenceFor(env, truth, []) == map[]
  {
  }

  lemma BuiltGrows(env: Env, history: seq<seq<CommitRecord>>, batch: seq<CommitRecord>, pairs: map<Pair, nat>,
                   before: map<string, SignalRow>, after: map<string, SignalRow>, snapshots: seq<SnapshotRow>)
    requires PairsReflect(pairs, Flat(history) + batch)
    requires SignalsReflect(env.classify, Entropies(env, Flat(history)), before, Flat(history))
    requires SignalsMoved(env.classify, Entropies(env, Flat(history) + batch), before, after,
                          multiset(Collect(batch, TouchedFiles())))
    requires snapshots == SnapshotsOf(env, history)
      + BatchSnapshots(env.classify, Entropies(env, Flat(history) + batch), batch)
    ensures Built(env, history + [batch], pairs, after, snapshots)
  {
    hide EntropyAfter, Entropies, BatchSnapshots, PairsReflect, SignalsReflect, SignalsMoved, Flat, Collect,
      SnapshotsFrom;
    FlatAppend(history, batch);
    SignalsGrow(env, Flat(history), batch, before, after);
    SnapshotsAppend(env, [], history, batch);
    assert [] + Flat(history) + batch == Flat(history) + batch;
  }

  lemma BuiltIsReflected(env: Env, truth: Truth, history: seq<seq<CommitRecord>>, t: Tables)
    ensures Reflects(env, truth, history, t)
      <==> t.defects == EvidenceOf(env, truth) && Built(env, history, t.pairs, t.signals, t.snapshots)
  {
  }

  /** The whole of one ingestion, on values. */
  lemma IngestedReflects(env: Env, truth: Truth, history: seq<seq<CommitRecord>>, batch: seq<CommitRecord>,
                         before: Tables, after: Tables)
    requires KeyedBySha(truth) && truth == Append(map[], Flat(history))
    requires before.defects == EvidenceOf(env, truth)
    requires after.defects == before.defects + EvidenceFor(env, Append(truth, batch), batch)
    requires Built(env, history + [batch], after.pairs, after.signals, after.snapshots)
    ensures KeyedBySha(Append(truth, batch)) && Append(truth, batch) == Append(map[], Flat(history + [batch]))
    ensures Reflects(env, Append(truth, batch), history + [batch], after)
  {
    hide Built, EvidenceOf, EvidenceFor, KeyedBySha, Flat;
    EvidenceGrows(env, truth, batch);
    FlatAppend(history, batch);
    AppendAppend(map[], Flat(history), batch);
    BuiltIsReflected(env, Append(truth, batch), history + [batch], after);
  }

  lemma EvidenceStep(env: Env, truth: Truth, commits: seq<CommitRecord>, i: nat)
    requires i < |commits|
    ensures EvidenceFor(env, truth, commits[..i + 1])
         == EvidenceFor(env, truth, commits[..i]) + EvidenceFor(env, truth, [commits[i]])
  {
    assert Shas(commits[..i + 1]) == Shas(commits[..i]) + Shas([commits[i]]);
  }

  /** The ordered rows are the stored commits. */
  lemma TruthOrderComplete(env: Env, truth: Truth)
    requires KeyedBySha(truth)
    ensures EvidenceFor(env, truth, TruthOrder(env, truth)) == EvidenceOf(env, truth)
  {
    forall sha | sha in truth ensures sha in Shas(TruthOrder(env, truth)) {
      TruthOrderShas(env, truth, sha);
    }
  }

  lemma TruthOrderMembers(env: Env, truth: Truth, c: CommitRecord)
    requires KeyedBySha(truth)
    ensures c in TruthOrder(env, truth) <==> c.sha in truth && truth[c.sha] == c
  {
    var rows := Collect(Listing(truth.Keys), RowAt(truth));
    CommitOrder(env);
    SortIsSortedPermutation(rows, CommitLe(env));
    RowsAreStored(truth, Listing(truth.Keys));
    assert c in TruthOrder(env, truth) <==> c in multiset(rows);
    if c.sha in truth && truth[c.sha] == c {
      RowIsCollected(truth, Listing(truth.Keys), c.sha);
    }
  }

  lemma {:induction false} RowIsCollected(truth: Truth, keys: seq<string>, sha: string)
    requires sha in keys && sha in truth
    ensures truth[sha] in Collect(keys, RowAt(truth))
  {
    if keys[0] != sha {
      RowIsCollected(truth, keys[1..], sha);
    }
  }

  /** reader._compute_file_signals([commit]) */
  method CommitSignals(ln: real -> real, classify: Classifier, c: CommitRecord) returns (signals: seq<FileSignal>)
    requires LnLaws(ln)
    ensures |signals| == |SortedSet(c.filesChanged)|
    ensures forall i :: 0 <= i < |signals| ==>
      && signals[i].filePath == SortedSet(c.filesChanged)[i]
      && signals[i].churnScore == 1.0
      && signals[i].generatedKind == classify(signals[i].filePath)
  {
    signals := ComputeFileSignals(ln, classify, [c]);
    SingleCommitSignals(ln, c);
    forall i | 0 <= i < |signals| ensures signals[i].churnScore == 1.0
                                  ensures signals[i].generatedKind == classify(signals[i].filePath)
    {
      var f := TouchOrder([c])[i];
      assert f in TouchOrder([c]);
      assert IsSignalOf(ln, classify, [c], f, signals[i]);
    }
  }

  function Names(files: seq<string>): set<string> {
    set f | f in files
  }

  lemma NamesAppend(a: seq<string>, b: seq<string>)
    ensures Names(a + b) == Names(a) + Names(b)
  {
  }

  lemma PrefixStep(files: seq<string>, i: nat)
    requires i < |files|
    ensures multiset(files[..i + 1]) == multiset(files[..i]) + multiset{files[i]}
    ensures Names(files[..i + 1]) == Names(files[..i]) + {files[i]}
  {
    assert files[..i + 1] == files[..i] + [files[i]];
  }

  /** Every memoised entropy is the one the pairs table gives. */
  ghost predicate MemoOf(entropies: string -> real, memo: map<string, real>) {
    forall f :: f in memo ==> memo[f] == entropies(f)
  }

  predicate FileName(f: string) {
    true
  }

  /** `entropies` gives what the pairs table holding `log` gives. */
  ghost predicate EntropiesAre(env: Env, log: seq<CommitRecord>, entropies: string -> real)
  {
    forall f {:trigger FileName(f)} :: FileName(f) ==> entropies(f) == EntropyAfter(env, log, f)
  }

  /** A file is read once, when it enters the memo, unless it is generated. */
  ghost predicate FirstReads(env: Env, q0: multiset<string>, q: multiset<string>, memo0: set<string>,
                             memo: set<string>)
  {
    && memo0 <= memo
    && forall f :: q[f] == q0[f] + if f in memo && f !in memo0 && env.classify(f).None? then 1 else 0
  }

  lemma FirstReadsTwice(env: Env, q0: multiset<string>, q1: multiset<string>, q2: multiset<string>,
                        memo0: set<string>, memo1: set<string>, memo2: set<string>)
    requires FirstReads(env, q0, q1, memo0, memo1) && FirstReads(env, q1, q2, memo1, memo2)
    ensures FirstReads(env, q0, q2, memo0, memo2)
  {
  }

  function At(signals: map<string, SignalRow>, f: string): Option<SignalRow> {
    if f in signals then Some(signals[f]) else None
  }

  /** The row of `f` after n upserts of score 1 that all carry the given entropy. */
  ghost function Upserted(classify: Classifier, entropies: string -> real, before: map<string, SignalRow>, f: string,
                          n: nat)
    : Option<SignalRow>
  {
    if n == 0 then At(before, f)
    else
      var churn := if f in before then before[f].churnScore else 0.0;
      Some(SignalRow(churn + n as real, entropies(f), classify(f)))
  }

  /** Each file was upserted as often as `files` says. */
  ghost predicate SignalsMoved(classify: Classifier, entropies: string -> real, before: map<string, SignalRow>,
                               after: map<string, SignalRow>, files: multiset<string>)
  {
    forall f :: At(after, f) == Upserted(classify, entropies, before, f, files[f])
  }

  lemma NothingMoved(env: Env, entropies: string -> real, signals: map<string, SignalRow>, queries: multiset<string>,
                     memo: set<string>)
    ensures SignalsMoved(env.classify, entropies, signals, signals, multiset{})
    ensures FirstReads(env, queries, queries, memo, memo)
    ensures Names([]) == {}
  {
  }

  lemma OneMoved(classify: Classifier, entropies: string -> real, signals: map<string, SignalRow>, f: string)
    ensures
      var churn := if f in signals then signals[f].churnScore else 0.0;
      SignalsMoved(classify, entropies, signals, signals[f := SignalRow(churn + 1.0, entropies(f), classify(f))],
        multiset{f})
  {
  }

  lemma OneRead(env: Env, queries: multiset<string>, memo: set<string>, f: string)
    ensures FirstReads(env, queries, if f in memo || env.classify(f).Some? then queries else queries + multiset{f},
                       memo, memo + {f})
  {
  }

  lemma SignalsMovedTwice(classify: Classifier, entropies: string -> real, before: map<string, SignalRow>,
                          middle: map<string, SignalRow>, after: map<string, SignalRow>,
                          first: multiset<string>, second: multiset<string>)
    requires SignalsMoved(classify, entropies, before, middle, first)
    requires SignalsMoved(classify, entropies, middle, after, second)
    ensures SignalsMoved(classify, entropies, before, after, first + second)
  {
  }

  function Shas(commits: seq<CommitRecord>): seq<string> {
    seq(|commits|, i requires 0 <= i < |commits| => commits[i].sha)
  }
}
