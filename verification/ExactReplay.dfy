/** When a rebuild reproduces the snapshot log to the last column. */
module ExactReplay {
  import opened Sums
  import opened Sorting
  import opened Signals
  import opened GitReader
  import opened History
  import opened HarvesterStore
  import opened GitIngestion
  import opened Replay
  import opened Snapshots

  // ---- One batch ----

  /** Each commit of the batch finds the entropies of its files as the whole batch leaves them. */
  ghost predicate Settled(env: Env, log: seq<CommitRecord>, batch: seq<CommitRecord>) {
    forall i, f :: 0 <= i < |batch| && f in batch[i].filesChanged ==>
      Entropies(env, log + batch[..i + 1])(f) == Entropies(env, log + batch)(f)
  }

  ghost predicate SameFor(files: seq<string>, e: string -> real, e': string -> real) {
    forall f :: f in files ==> e(f) == e'(f)
  }

  lemma {:induction false} RowsIff(classify: Classifier, e: string -> real, e': string -> real, sha: string,
                                   files: seq<string>)
    ensures |Collect(files, SnapshotRowOf(classify, e, sha))| == |files|
    ensures Collect(files, SnapshotRowOf(classify, e, sha)) == Collect(files, SnapshotRowOf(classify, e', sha))
      <==> SameFor(files, e, e')
  {
    if files != [] {
      var row, row' := SnapshotRowOf(classify, e, sha), SnapshotRowOf(classify, e', sha);
      RowsIff(classify, e, e', sha, files[1..]);
      assert files == [files[0]] + files[1..];
      SameHalves(row(files[0]), Collect(files[1..], row), row'(files[0]), Collect(files[1..], row'));
    }
  }

  lemma SameHalves<T>(a: seq<T>, b: seq<T>, c: seq<T>, d: seq<T>)
    requires |a| == |c|
    ensures a + b == c + d <==> a == c && b == d
  {
    if a + b == c + d {
      assert a == (a + b)[..|a|] && b == (a + b)[|a|..];
      assert c == (c + d)[..|a|] && d == (c + d)[|a|..];
    }
  }

  /** A commit's rows tell its files' entropies. */
  lemma CommitRowsIff(classify: Classifier, e: string -> real, e': string -> real, c: CommitRecord)
    ensures |CommitSnapshots(classify, e)(c)| == |CommitSnapshots(classify, e')(c)|
    ensures CommitSnapshots(classify, e)(c) == CommitSnapshots(classify, e')(c) <==> SameFor(c.filesChanged, e, e')
  {
    hide SortedSet;
    RowsIff(classify, e, e', c.sha, SortedSet(c.filesChanged));
    RowsIff(classify, e', e, c.sha, SortedSet(c.filesChanged));
    SortedSetMembers(c.filesChanged);
  }

  lemma SettledStep(env: Env, log: seq<CommitRecord>, batch: seq<CommitRecord>)
    requires batch != []
    ensures Settled(env, log, batch)
      <==> (SameFor(batch[0].filesChanged, Entropies(env, log + [batch[0]]), Entropies(env, log + batch))
            && Settled(env, log + [batch[0]], batch[1..]))
  {
    hide Entropies;
    var c, rest := batch[0], batch[1..];
    assert log + [c] + rest == log + batch;
    assert batch[..1] == [c];
    forall i | 0 <= i < |rest| ensures log + [c] + rest[..i + 1] == log + batch[..i + 2] && batch[i + 1] == rest[i] {
    }
    if Settled(env, log, batch) {
      forall i, f | 0 <= i < |rest| && f in rest[i].filesChanged
        ensures Entropies(env, log + [c] + rest[..i + 1])(f) == Entropies(env, log + [c] + rest)(f)
      {
        assert f in batch[i + 1].filesChanged;
      }
      assert forall f :: f in batch[0].filesChanged ==>
        Entropies(env, log + batch[..0 + 1])(f) == Entropies(env, log + batch)(f);
    }
    if SameFor(c.filesChanged, Entropies(env, log + [c]), Entropies(env, log + batch))
       && Settled(env, log + [c], rest)
    {
      forall i, f | 0 <= i < |batch| && f in batch[i].filesChanged
        ensures Entropies(env, log + batch[..i + 1])(f) == Entropies(env, log + batch)(f)
      {
        if i > 0 {
          assert batch[i] == rest[i - 1] && log + [c] + rest[..i - 1 + 1] == log + batch[..i + 1];
        }
      }
    }
  }

  /** A batch records what its commits one by one would have recorded exactly when it is settled. */
  lemma {:induction false} BatchSplitsIff(env: Env, log: seq<CommitRecord>, batch: seq<CommitRecord>)
    ensures SnapshotsFrom(env, log, Singles(batch)) == BatchSnapshots(env.classify, Entropies(env, log + batch), batch)
      <==> Settled(env, log, batch)
    decreases |batch|
  {
    hide Entropies, CommitSnapshots;
    if batch != [] {
      var c, rest := batch[0], batch[1..];
      var early, late := Entropies(env, log + [c]), Entropies(env, log + batch);
      BatchSplitsIff(env, log + [c], rest);
      assert log + [c] + rest == log + batch;
      assert Singles(batch)[1..] == Singles(rest);
      SingleBatch(env.classify, early, c);
      CommitRowsIff(env.classify, early, late, c);
      SettledStep(env, log, batch);
      SameHalves(CommitSnapshots(env.classify, early)(c), SnapshotsFrom(env, log + [c], Singles(rest)),
                 CommitSnapshots(env.classify, late)(c), BatchSnapshots(env.classify, late, rest));
    }
  }

  /** Whatever the logarithm: a batch is settled when no later commit of it moves the partners of a file. */
  lemma CouplingSettles(env: Env, log: seq<CommitRecord>, batch: seq<CommitRecord>)
    requires forall i, f :: 0 <= i < |batch| && f in batch[i].filesChanged ==>
      Coupling(log + batch[..i + 1], f) == Coupling(log + batch, f)
    ensures Settled(env, log, batch)
  {
  }

  /** No two commits of the batch touch the same file. */
  ghost predicate TouchedOnce(batch: seq<CommitRecord>) {
    forall i, j, f :: 0 <= i < j < |batch| && f in batch[i].filesChanged ==> f !in batch[j].filesChanged
  }

  /** In particular when no file is touched twice. */
  lemma TouchedOnceSettles(env: Env, log: seq<CommitRecord>, batch: seq<CommitRecord>)
    requires TouchedOnce(batch)
    ensures Settled(env, log, batch)
  {
    forall i, f | 0 <= i < |batch| && f in batch[i].filesChanged
      ensures Coupling(log + batch[..i + 1], f) == Coupling(log + batch, f)
    {
      var rest := batch[i + 1..];
      assert log + batch[..i + 1] + rest == log + batch;
      assert forall j :: 0 <= j < |rest| ==> rest[j] == batch[i + 1 + j];
      TouchesPositive(rest, f);
      CouplingUntouched(log + batch[..i + 1], rest, f);
    }
    CouplingSettles(env, log, batch);
  }

  // ---- A history of batches ----

  ghost predicate AllSettled(env: Env, log: seq<CommitRecord>, history: seq<seq<CommitRecord>>)
    decreases |history|
  {
    history == [] || (Settled(env, log, history[0]) && AllSettled(env, log + history[0], history[1..]))
  }

  lemma {:induction false} SnapshotsOfTwo(env: Env, log: seq<CommitRecord>, h1: seq<seq<CommitRecord>>,
                                          h2: seq<seq<CommitRecord>>)
    ensures SnapshotsFrom(env, log, h1 + h2) == SnapshotsFrom(env, log, h1) + SnapshotsFrom(env, log + Flat(h1), h2)
    decreases |h1|
  {
    hide BatchSnapshots, Entropies;
    if h1 == [] {
      assert h1 + h2 == h2 && log + Flat(h1) == log;
    } else {
      assert (h1 + h2)[1..] == h1[1..] + h2;
      SnapshotsOfTwo(env, log + h1[0], h1[1..], h2);
      assert log + h1[0] + Flat(h1[1..]) == log + Flat(h1);
    }
  }

  lemma {:induction false} SinglesOfTwo(a: seq<CommitRecord>, b: seq<CommitRecord>)
    ensures Singles(a + b) == Singles(a) + Singles(b)
  {
    if a == [] {
      assert a + b == b;
    } else {
      assert (a + b)[1..] == a[1..] + b;
      SinglesOfTwo(a[1..], b);
    }
  }

  lemma {:induction false} ColumnsLength(rows: seq<SnapshotRow>)
    ensures |Collect(rows, WithoutEntropy())| == |rows|
  {
    if rows != [] {
      ColumnsLength(rows[1..]);
    }
  }

  /** One by one or in one batch, as many rows. */
  lemma SameLength(env: Env, log: seq<CommitRecord>, batch: seq<CommitRecord>, entropies: string -> real)
    ensures |SnapshotsFrom(env, log, Singles(batch))| == |BatchSnapshots(env.classify, entropies, batch)|
  {
    hide SnapshotsFrom, BatchSnapshots, Collect;
    SnapshotColumns(env, log, Singles(batch));
    FlatSingles(batch);
    BatchColumns(env.classify, entropies, batch);
    ColumnsLength(SnapshotsFrom(env, log, Singles(batch)));
    ColumnsLength(BatchSnapshots(env.classify, entropies, batch));
  }

  /** A history records what its commits one by one would have recorded exactly when every batch is settled. */
  lemma {:induction false} HistorySplitsIff(env: Env, log: seq<CommitRecord>, history: seq<seq<CommitRecord>>)
    ensures SnapshotsFrom(env, log, history) == SnapshotsFrom(env, log, Singles(Flat(history)))
      <==> AllSettled(env, log, history)
    decreases |history|
  {
    hide BatchSnapshots, Entropies, Settled;
    if history != [] {
      var batch, rest := history[0], history[1..];
      BatchSplitsIff(env, log, batch);
      HistorySplitsIff(env, log + batch, rest);
      assert Flat(history) == batch + Flat(rest);
      SinglesOfTwo(batch, Flat(rest));
      SnapshotsOfTwo(env, log, Singles(batch), Singles(Flat(rest)));
      FlatSingles(batch);
      SameLength(env, log, batch, Entropies(env, log + batch));
      SameHalves(BatchSnapshots(env.classify, Entropies(env, log + batch), batch),
                 SnapshotsFrom(env, log + batch, rest),
                 SnapshotsFrom(env, log, Singles(batch)), SnapshotsFrom(env, log + batch, Singles(Flat(rest))));
    }
  }

  // ---- Commits that change no file ----

  function Changes(): CommitRecord -> seq<CommitRecord> {
    (c: CommitRecord) => if c.filesChanged == [] then [] else [c]
  }

  /** The commits that change files. */
  function Changing(commits: seq<CommitRecord>): seq<CommitRecord> {
    Collect(commits, Changes())
  }

  lemma ChangingMore(log: seq<CommitRecord>, c: CommitRecord)
    ensures Changing(log + [c]) == Changing(log) + if c.filesChanged == [] then [] else [c]
  {
    CollectAppend(log, [c], Changes());
    CollectSingle(c, Changes());
  }

  lemma {:induction false} ChangingCounts(log: seq<CommitRecord>, k: Pair)
    ensures PairFrequency(Changing(log), k) == PairFrequency(log, k)
  {
    if log != [] {
      ChangingCounts(log[1..], k);
      CountAppend(Changes()(log[0]), Changing(log[1..]), ContributionTo(k));
      CountSingle(log[0], ContributionTo(k));
      if log[0].filesChanged == [] {
        ContributionNeedsBoth(log[0], k);
      }
    }
  }

  lemma ChangingEntropies(env: Env, log: seq<CommitRecord>, f: string)
    ensures Entropies(env, Changing(log))(f) == Entropies(env, log)(f)
  {
    forall k ensures PairFrequency(Changing(log), k) == PairFrequency(log, k) {
      ChangingCounts(log, k);
    }
    CouplingPermutation(Changing(log), log, f);
  }

  lemma OneMoreSingle(env: Env, log: seq<CommitRecord>, c: CommitRecord, rest: seq<CommitRecord>)
    ensures SnapshotsFrom(env, log, Singles([c] + rest))
      == CommitSnapshots(env.classify, Entropies(env, log + [c]))(c) + SnapshotsFrom(env, log + [c], Singles(rest))
  {
    hide Entropies, CommitSnapshots, BatchSnapshots;
    assert ([c] + rest)[1..] == rest;
    assert Singles([c] + rest)[1..] == Singles(rest);
    SingleBatch(env.classify, Entropies(env, log + [c]), c);
  }

  /** They alone show in the snapshots. */
  lemma {:induction false} ChangingSnapshots(env: Env, log: seq<CommitRecord>, commits: seq<CommitRecord>)
    ensures SnapshotsFrom(env, log, Singles(commits)) == SnapshotsFrom(env, Changing(log), Singles(Changing(commits)))
    decreases |commits|
  {
    hide Entropies, CommitSnapshots, BatchSnapshots, SnapshotsFrom, Singles;
    if commits == [] {
      NothingToSplit(env, log);
      NothingToSplit(env, Changing(log));
    } else {
      var c, rest := commits[0], commits[1..];
      ChangingSnapshots(env, log + [c], rest);
      ChangingMore(log, c);
      assert commits == [c] + rest;
      OneMoreSingle(env, log, c, rest);
      if c.filesChanged == [] {
        NoRowsOf(env.classify, Entropies(env, log + [c]), c);
        assert Changing(commits) == [] + Changing(rest) == Changing(rest);
        assert Changing(log + [c]) == Changing(log) + [] == Changing(log);
        assert SnapshotsFrom(env, log, Singles(commits)) == [] + SnapshotsFrom(env, log + [c], Singles(rest));
      } else {
        assert Changing(commits) == [c] + Changing(rest);
        OneMoreSingle(env, Changing(log), c, Changing(rest));
        forall f ensures Entropies(env, Changing(log) + [c])(f) == Entropies(env, log + [c])(f) {
          ChangingEntropies(env, log + [c], f);
        }
        CommitRowsIff(env.classify, Entropies(env, log + [c]), Entropies(env, Changing(log) + [c]), c);
      }
    }
  }

  lemma NothingToSplit(env: Env, log: seq<CommitRecord>)
    ensures SnapshotsFrom(env, log, Singles([])) == [] && Changing([]) == []
  {
  }

  lemma NoRowsOf(classify: Classifier, entropies: string -> real, c: CommitRecord)
    requires c.filesChanged == []
    ensures CommitSnapshots(classify, entropies)(c) == []
  {
    assert SortedSet([]) == [];
  }

  lemma ChangingColumns(classify: Classifier, entropies: string -> real, commits: seq<CommitRecord>)
    ensures BatchSnapshots(classify, entropies, Changing(commits)) == BatchSnapshots(classify, entropies, commits)
  {
    hide SortedSet, CommitSnapshots;
    var rows := CommitSnapshots(classify, entropies);
    CollectTwice(commits, Changes(), rows);
    forall c | c in commits ensures Then(Changes(), rows)(c) == rows(c) {
      if c.filesChanged == [] {
        NoRowsOf(classify, entropies, c);
        CollectNone(rows);
      } else {
        CollectSingle(c, rows);
      }
    }
    CollectAgrees(commits, Then(Changes(), rows), rows);
  }

  lemma {:induction false} ChangingMembers(commits: seq<CommitRecord>)
    ensures forall c :: c in Changing(commits) <==> c in commits && c.filesChanged != []
  {
    if commits != [] {
      ChangingMembers(commits[1..]);
      assert commits == [commits[0]] + commits[1..];
    }
  }

  // ---- The columns tell the order ----

  lemma FirstRow(classify: Classifier, entropies: string -> real, commits: seq<CommitRecord>)
    requires commits != [] && commits[0].filesChanged != []
    ensures BatchSnapshots(classify, entropies, commits) != []
    ensures BatchSnapshots(classify, entropies, commits)[0].basisSha == commits[0].sha
  {
    hide SortedSet;
    var c := commits[0];
    SortedSetMembers(c.filesChanged);
    assert c.filesChanged[0] in SortedSet(c.filesChanged);
    assert CommitSnapshots(classify, entropies)(c) != [];
    assert CommitSnapshots(classify, entropies)(c)[0].basisSha == c.sha;
  }

  ghost predicate ByShaAndChanging(commits: seq<CommitRecord>) {
    && (forall c :: c in commits ==> c.filesChanged != [])
    && forall c, d :: c in commits && d in commits && c.sha == d.sha ==> c == d
  }

  lemma HeadRows(classify: Classifier, entropies: string -> real, commits: seq<CommitRecord>)
    requires commits != []
    ensures BatchSnapshots(classify, entropies, commits)
      == CommitSnapshots(classify, entropies)(commits[0]) + BatchSnapshots(classify, entropies, commits[1..])
  {
  }

  /** The rows of commits that change files, identified by their shas, tell the order of the commits. */
  lemma {:induction false} ColumnsTellOrder(classify: Classifier, entropies: string -> real, a: seq<CommitRecord>,
                                            b: seq<CommitRecord>)
    requires ByShaAndChanging(a) && multiset(a) == multiset(b)
    requires BatchSnapshots(classify, entropies, a) == BatchSnapshots(classify, entropies, b)
    ensures a == b
  {
    hide CommitSnapshots, BatchSnapshots;
    assert |multiset(a)| == |a| && |multiset(b)| == |b|;
    if a != [] {
      assert a[0] in multiset(a) && b[0] in multiset(b);
      FirstRow(classify, entropies, a);
      FirstRow(classify, entropies, b);
      assert a[0] == b[0];
      HeadRows(classify, entropies, a);
      HeadRows(classify, entropies, b);
      SameHalves(CommitSnapshots(classify, entropies)(a[0]), BatchSnapshots(classify, entropies, a[1..]),
                 CommitSnapshots(classify, entropies)(b[0]), BatchSnapshots(classify, entropies, b[1..]));
      HeadAndRest(a);
      HeadAndRest(b);
      assert forall c :: c in a[1..] ==> c in a;
      ColumnsTellOrder(classify, entropies, a[1..], b[1..]);
    }
  }

  /** When no repeated sha changes a file, ingested and replayed commits that change files are the same up to order,
      each known by its sha. */
  lemma ChangingReplayed(env: Env, log: seq<CommitRecord>)
    requires RepeatsTouchNothing(log)
    ensures var replay := TruthOrder(env, Append(map[], log));
      multiset(Changing(log)) == multiset(Changing(replay)) && ByShaAndChanging(Changing(replay))
  {
    hide TruthOrder, Append, Ignored, RepeatsTouchNothing;
    var truth := Append(map[], log);
    var replay, repeats := TruthOrder(env, truth), Ignored(map[], log);
    KeptOrIgnored(map[], log);
    KeptIsReplayed(env, log);
    RepeatsTouchNothingIff(log);
    assert multiset(log) == multiset(replay + repeats);
    CollectPermutation(log, replay + repeats, Changes());
    CollectAppend(replay, repeats, Changes());
    NothingChanging(repeats);
    assert Changing(replay) + [] == Changing(replay);
    ChangingMembers(replay);
    AppendKeeps(map[], log);
    forall c | c in Changing(replay) ensures c.sha in truth && truth[c.sha] == c {
      TruthOrderMembers(env, truth, c);
    }
  }

  lemma {:induction false} NothingChanging(commits: seq<CommitRecord>)
    requires TouchNothing(commits)
    ensures Changing(commits) == []
  {
    if commits != [] {
      assert commits == [commits[0]] + commits[1..];
      TouchNothingStep(commits[0], commits[1..]);
      NothingChanging(commits[1..]);
    }
  }

  // ---- All columns ----

  /** A rebuild reproduces all four tables to the last column exactly when no repeated sha changes a file, the
      commits that change files were ingested in truth order, and every batch was settled. */
  lemma ExactReplayIff(env: Env, history: seq<seq<CommitRecord>>, t: Tables, r: Tables)
    requires Reflects(env, Append(map[], Flat(history)), history, t)
    requires Rebuilt(env, Append(map[], Flat(history)), r)
    ensures t == r <==>
      && RepeatsTouchNothing(Flat(history))
      && Changing(Flat(history)) == Changing(TruthOrder(env, Append(map[], Flat(history))))
      && AllSettled(env, [], history)
  {
    hide Append, TruthOrder, Flat, RepeatsTouchNothing, AllSettled, SnapshotsFrom, Singles, Changing, PairsReflect,
      SignalsReflect;
    var log := Flat(history);
    var replay := TruthOrder(env, Append(map[], log));
    ReplayAgreesIff(env, history, t, r);
    HistorySplitsIff(env, [], history);
    ChangingSnapshots(env, [], log);
    ChangingSnapshots(env, [], replay);
    if t == r {
      ChangingReplayed(env, log);
      SameColumns(env, history, replay);
      ColumnsTellOrder(env.classify, NoEntropy(), Changing(replay), Changing(log));
    }
  }

  lemma SameColumns(env: Env, history: seq<seq<CommitRecord>>, replay: seq<CommitRecord>)
    requires SnapshotsOf(env, history) == SnapshotsOf(env, Singles(replay))
    ensures BatchSnapshots(env.classify, NoEntropy(), Changing(Flat(history)))
      == BatchSnapshots(env.classify, NoEntropy(), Changing(replay))
  {
    hide SnapshotsFrom, BatchSnapshots, Changing, Flat, Singles;
    SnapshotColumns(env, [], history);
    SnapshotColumns(env, [], Singles(replay));
    FlatSingles(replay);
    ChangingColumns(env.classify, NoEntropy(), Flat(history));
    ChangingColumns(env.classify, NoEntropy(), replay);
  }

  lemma {:induction false} AllTouchedOnce(env: Env, log: seq<CommitRecord>, history: seq<seq<CommitRecord>>)
    requires forall i :: 0 <= i < |history| ==> TouchedOnce(history[i])
    ensures AllSettled(env, log, history)
    decreases |history|
  {
    hide TouchedOnce, Settled;
    if history != [] {
      TouchedOnceSettles(env, log, history[0]);
      AllTouchedOnce(env, log + history[0], history[1..]);
    }
  }

  /** Batches in truth order, none of which touches a file twice, are replayed to the last column. */
  lemma FullReplay(env: Env, history: seq<seq<CommitRecord>>, t: Tables, r: Tables)
    requires Reflects(env, Append(map[], Flat(history)), history, t)
    requires Rebuilt(env, Append(map[], Flat(history)), r)
    requires Flat(history) == TruthOrder(env, Append(map[], Flat(history)))
    requires forall i :: 0 <= i < |history| ==> TouchedOnce(history[i])
    ensures t == r
  {
    hide BatchSnapshots, SnapshotsFrom, Append, TruthOrder, Singles, Flat;
    var truth := Append(map[], Flat(history));
    AllTouchedOnce(env, [], history);
    HistorySplitsIff(env, [], history);
    FlatSingles(TruthOrder(env, truth));
    CountsDetermineAggregates(env, truth, history, t, Singles(TruthOrder(env, truth)), r);
  }
}
