/** The snapshot log: which of its columns a replay reproduces, and when it reproduces all of them. */
module Snapshots {
  import opened Sums
  import opened Sorting
  import opened Signals
  import opened GitReader
  import opened History
  import opened HarvesterStore
  import opened GitIngestion
  import opened Replay

  // ---- The columns other than entropy ----

  function WithoutEntropy(): SnapshotRow -> seq<SnapshotRow> {
    (row: SnapshotRow) => [row.(cochangeEntropy := 0.0)]
  }

  function NoEntropy(): string -> real {
    f => 0.0
  }

  lemma {:induction false} RowColumns(classify: Classifier, entropies: string -> real, sha: string, files: seq<string>)
    ensures Collect(Collect(files, SnapshotRowOf(classify, entropies, sha)), WithoutEntropy())
         == Collect(files, SnapshotRowOf(classify, NoEntropy(), sha))
  {
    if files == [] {
    } else {
      RowColumns(classify, entropies, sha, files[1..]);
      var row := SnapshotRowOf(classify, entropies, sha)(files[0]);
      CollectAppend(row, Collect(files[1..], SnapshotRowOf(classify, entropies, sha)), WithoutEntropy());
      CollectSingle(row[0], WithoutEntropy());
    }
  }

  lemma {:induction false} BatchColumns(classify: Classifier, entropies: string -> real, batch: seq<CommitRecord>)
    ensures Collect(BatchSnapshots(classify, entropies, batch), WithoutEntropy())
         == BatchSnapshots(classify, NoEntropy(), batch)
  {
    if batch == [] {
    } else {
      var c := batch[0];
      BatchColumns(classify, entropies, batch[1..]);
      CollectAppend(CommitSnapshots(classify, entropies)(c), BatchSnapshots(classify, entropies, batch[1..]),
        WithoutEntropy());
      RowColumns(classify, entropies, c.sha, SortedSet(c.filesChanged));
    }
  }

  /** Apart from entropy the log holds, in order of ingestion, one row for each commit and distinct file. */
  lemma {:induction false} SnapshotColumns(env: Env, log: seq<CommitRecord>, history: seq<seq<CommitRecord>>)
    ensures Collect(SnapshotsFrom(env, log, history), WithoutEntropy())
         == BatchSnapshots(env.classify, NoEntropy(), Flat(history))
    decreases |history|
  {
    hide BatchSnapshots, Entropies, EntropyAfter;
    if history == [] {
      NoSnapshots(env.classify, NoEntropy());
    } else {
      var entropies := Entropies(env, log + history[0]);
      SnapshotColumns(env, log + history[0], history[1..]);
      CollectAppend(BatchSnapshots(env.classify, entropies, history[0]),
                    SnapshotsFrom(env, log + history[0], history[1..]), WithoutEntropy());
      BatchColumns(env.classify, entropies, history[0]);
      BatchesAppend(env.classify, NoEntropy(), history[0], Flat(history[1..]));
    }
  }

  lemma NoSnapshots(classify: Classifier, entropies: string -> real)
    ensures BatchSnapshots(classify, entropies, []) == []
  {
  }

  lemma BatchesAppend(classify: Classifier, entropies: string -> real, a: seq<CommitRecord>, b: seq<CommitRecord>)
    ensures BatchSnapshots(classify, entropies, a + b)
         == BatchSnapshots(classify, entropies, a) + BatchSnapshots(classify, entropies, b)
  {
    CollectAppend(a, b, CommitSnapshots(classify, entropies));
  }

  lemma {:induction false} SnapshotsOfNothing(classify: Classifier, entropies: string -> real,
                                              commits: seq<CommitRecord>)
    ensures BatchSnapshots(classify, entropies, commits) == [] <==> TouchNothing(commits)
  {
    if commits == [] {
    } else {
      SnapshotsOfNothing(classify, entropies, commits[1..]);
      assert commits == [commits[0]] + commits[1..];
      TouchNothingStep(commits[0], commits[1..]);
      SortedSetMembers(commits[0].filesChanged);
      var files := SortedSet(commits[0].filesChanged);
      if commits[0].filesChanged != [] {
        assert commits[0].filesChanged[0] in files;
      }
    }
  }

  /** The columns other than entropy are those of a replay, up to row order, exactly when the aggregates are. */
  lemma ColumnsReplayedIff(env: Env, history: seq<seq<CommitRecord>>, t: Tables, r: Tables)
    requires Reflects(env, Append(map[], Flat(history)), history, t)
    requires Rebuilt(env, Append(map[], Flat(history)), r)
    ensures multiset(Collect(t.snapshots, WithoutEntropy())) == multiset(Collect(r.snapshots, WithoutEntropy()))
        <==> RepeatsTouchNothing(Flat(history))
  {
    hide BatchSnapshots, SnapshotsFrom, Append, TruthOrder, Singles, Flat, Ignored, RepeatsTouchNothing;
    var log := Flat(history);
    var replay, repeats := TruthOrder(env, Append(map[], log)), Ignored(map[], log);
    var rows := f => BatchSnapshots(env.classify, NoEntropy(), f);
    SnapshotColumns(env, [], history);
    SnapshotColumns(env, [], Singles(replay));
    FlatSingles(replay);
    SplitRows(env, log);
    SnapshotsOfNothing(env.classify, NoEntropy(), repeats);
    RepeatsTouchNothingIff(log);
    assert |multiset(rows(repeats))| == |rows(repeats)|;
  }

  lemma SplitRows(env: Env, log: seq<CommitRecord>)
    ensures
      var replay, repeats := TruthOrder(env, Append(map[], log)), Ignored(map[], log);
      multiset(BatchSnapshots(env.classify, NoEntropy(), log))
      == multiset(BatchSnapshots(env.classify, NoEntropy(), replay))
       + multiset(BatchSnapshots(env.classify, NoEntropy(), repeats))
  {
    var replay, repeats := TruthOrder(env, Append(map[], log)), Ignored(map[], log);
    KeptOrIgnored(map[], log);
    KeptIsReplayed(env, log);
    assert multiset(log) == multiset(replay + repeats);
    CollectPermutation(log, replay + repeats, CommitSnapshots(env.classify, NoEntropy()));
    BatchesAppend(env.classify, NoEntropy(), replay, repeats);
  }

  lemma SingleBatch(classify: Classifier, entropies: string -> real, c: CommitRecord)
    ensures BatchSnapshots(classify, entropies, [c]) == CommitSnapshots(classify, entropies)(c)
  {
    CollectSingle(c, CommitSnapshots(classify, entropies));
  }

  // ---- In general the entropies are not replayed ----

  function Edit(sha: string, partner: string): CommitRecord {
    CommitRecord(sha, "author", "2026-05-10", "edit", [partner, "h"])
  }

  function FourEdits(): seq<CommitRecord> {
    [Edit("1", "a"), Edit("2", "a"), Edit("3", "b"), Edit("4", "b")]
  }

  lemma EditPairs(sha: string, partner: string, k: Pair)
    requires partner == "a" || partner == "b"
    ensures Contribution(Edit(sha, partner), k) == if k == (partner, "h") then 1 else 0
  {
    var files := Edit(sha, partner).filesChanged;
    assert multiset(files) == multiset{partner, "h"};
    assert StrLe("a", "h") && StrLe("b", "h");
    StrTotal(partner, "h");
    var m := multiset(files);
    ProductStep(0, m[k.1]);
    assert Product(m[k.0], 0) == 0;
    if k.0 == partner && k.1 == "h" {
      assert Product(1, 1) == 1;
    } else if k.0 == k.1 {
      assert Choose2(m[k.0]) == 0;
    } else if k.0 == "h" && k.1 == partner {
      assert !StrLe("h", partner);
    } else {
      assert m[k.0] == 0 || m[k.1] == 0;
    }
  }

  lemma FourEditPairs(k: Pair)
    ensures PairFrequency(FourEdits(), k) == if k == ("a", "h") || k == ("b", "h") then 2 else 0
    ensures PairFrequency([Edit("1", "a")], k) == if k == ("a", "h") then 1 else 0
  {
    EditPairs("1", "a", k);
    EditPairs("2", "a", k);
    EditPairs("3", "b", k);
    EditPairs("4", "b", k);
    var all := FourEdits();
    assert all[1..][1..][1..] == [Edit("4", "b")];
    CountSingle(Edit("4", "b"), ContributionTo(k));
    CountSingle(Edit("1", "a"), ContributionTo(k));
  }

  lemma FourEditCoupled(g: string)
    ensures Coupled(FourEdits(), "h", g) == if g == "a" || g == "b" then 2 else 0
    ensures Coupled([Edit("1", "a")], "h", g) == if g == "a" then 1 else 0
  {
    hide FourEdits, Edit, PairFrequency;
    assert StrLe("a", "h") && StrLe("b", "h") && !StrLe("h", "a") && !StrLe("h", "b");
    FourEditPairs(OrderedPair("h", g));
  }

  lemma FourEditCoupling()
    ensures Coupling(FourEdits(), "h") == map["a" := 2, "b" := 2]
    ensures Coupling([Edit("1", "a")], "h") == map["a" := 1]
  {
    hide FourEdits, Edit, Coupling, Coupled;
    CouplingIs(FourEdits(), "h");
    CouplingIs([Edit("1", "a")], "h");
    forall g ensures Get(Coupling(FourEdits(), "h"), g) == Get(map["a" := 2, "b" := 2], g)
             ensures Get(Coupling([Edit("1", "a")], "h"), g) == Get(map["a" := 1], g)
    {
      FourEditCoupled(g);
    }
    CountsDetermineMap(Coupling(FourEdits(), "h"), map["a" := 2, "b" := 2]);
    CountsDetermineMap(Coupling([Edit("1", "a")], "h"), map["a" := 1]);
  }

  lemma TwoEqualFrequencies(ln: real -> real)
    requires LnLaws(ln)
    ensures NormalizedEntropy(ln, [2.0, 2.0]) == 1.0 && NormalizedEntropy(ln, []) == 0.0
  {
    hide NormalizedEntropy, Ratio;
    assert PositiveValues([2.0, 2.0]) == [2.0, 2.0] by { assert [2.0, 2.0][1..] == [2.0]; }
    NormalizedEntropyBounds(ln, [2.0, 2.0]);
    NormalizedEntropyBounds(ln, []);
  }

  /** The three files of the four edits are hand-written. */
  predicate HandWritten(classify: Classifier) {
    classify("a").None? && classify("b").None? && classify("h").None?
  }

  lemma FrequenciesOfTwo(classify: Classifier)
    requires HandWritten(classify)
    ensures Collect(["a", "b"], RealFrequency(classify, map["a" := 2, "b" := 2])) == [2.0, 2.0]
    ensures Collect(["a"], RealFrequency(classify, map["a" := 1])) == []
  {
  }

  /** Two partners of equal support give entropy 1, a single unsupported one gives 0. */
  lemma FourEditEntropies(env: Env)
    requires ValidEnv(env) && HandWritten(env.classify)
    ensures EntropyAfter(env, FourEdits(), "h") == 1.0
    ensures EntropyAfter(env, [Edit("1", "a")], "h") == 0.0
  {
    hide FourEdits, Edit, Coupling, CochangeEntropy, NormalizedEntropy, Collect, RealFrequency;
    FourEditCoupling();
    var both, one := map["a" := 2, "b" := 2], map["a" := 1];
    assert File("h", both) && File("h", one);
    CochangeEntropyListing(env.ln, env.classify, "h", both, ["a", "b"]);
    CochangeEntropyListing(env.ln, env.classify, "h", one, ["a"]);
    FrequenciesOfTwo(env.classify);
    TwoEqualFrequencies(env.ln);
  }

  /** The four commits are replayed in the order they are listed. */
  lemma FourEditsOrder(env: Env)
    ensures KeyedBySha(Append(map[], FourEdits())) && TruthOrder(env, Append(map[], FourEdits())) == FourEdits()
  {
    var log, keys := FourEdits(), ["1", "2", "3", "4"];
    var truth := map["1" := log[0], "2" := log[1], "3" := log[2], "4" := log[3]];
    FourRows(log);
    FourCollected(log, truth);
    TruthOrderListing(env, truth, keys);
    FourSorted(env, log);
  }

  lemma FourSorted(env: Env, log: seq<CommitRecord>)
    requires log == FourEdits()
    ensures Sort(log, CommitLe(env)) == log
  {
    assert StrLe("1", "2") && StrLe("1", "3") && StrLe("1", "4") && StrLe("2", "3") && StrLe("2", "4")
      && StrLe("3", "4");
    SortOfSorted(log, CommitLe(env));
  }

  lemma FourCollected(log: seq<CommitRecord>, truth: Truth)
    requires |log| == 4 && truth == map["1" := log[0], "2" := log[1], "3" := log[2], "4" := log[3]]
    ensures Collect(["1", "2", "3", "4"], RowAt(truth)) == log
  {
    hide Collect;
    var keys := ["1", "2", "3", "4"];
    assert keys == ["1"] + (["2"] + (["3"] + ["4"]));
    CollectAppend(["1"], ["2"] + (["3"] + ["4"]), RowAt(truth));
    CollectAppend(["2"], ["3"] + ["4"], RowAt(truth));
    CollectAppend(["3"], ["4"], RowAt(truth));
    forall key ensures Collect([key], RowAt(truth)) == RowAt(truth)(key) {
      CollectSingle(key, RowAt(truth));
    }
    assert log == [log[0]] + ([log[1]] + ([log[2]] + [log[3]]));
  }

  lemma FourRows(log: seq<CommitRecord>)
    requires |log| == 4 && log[0].sha == "1" && log[1].sha == "2" && log[2].sha == "3" && log[3].sha == "4"
    ensures Append(map[], log) == map["1" := log[0], "2" := log[1], "3" := log[2], "4" := log[3]]
  {
    var a, b, c, d := log[0], log[1], log[2], log[3];
    assert log[1..] == [b, c, d] && [b, c, d][1..] == [c, d] && [c, d][1..] == [d] && [d][1..] == [];
    var one: Truth := map["1" := a];
    var two := one["2" := b];
    var three := two["3" := c];
    assert Append(three, [d]) == three["4" := d];
    assert Append(two, [c, d]) == Append(three, [d]);
    assert Append(one, [b, c, d]) == Append(two, [c, d]);
  }

  /** Four commits ingested in one batch and replayed: the aggregates agree, the logs do not. The first commit's
      row for "h" carries entropy 1 in the one and 0 in the other. */
  lemma BatchingShowsInSnapshots(env: Env, whole: Tables, replayed: Tables)
    requires ValidEnv(env) && HandWritten(env.classify)
    requires Reflects(env, Append(map[], FourEdits()), [FourEdits()], whole)
    requires Rebuilt(env, Append(map[], FourEdits()), replayed)
    ensures SameAggregates(whole, replayed) && whole.snapshots != replayed.snapshots
  {
    hide FourEdits, SnapshotsFrom, Append, TruthOrder, Singles, EntropyAfter, PairsReflect, SignalsReflect;
    var log, c := FourEdits(), Edit("1", "a");
    FourEditsOrder(env);
    CollectSingle(log, Batch());
    FlatSingles(log);
    CountsDetermineAggregates(env, Append(map[], log), [log], whole, Singles(log), replayed);
    SecondRow(env, Entropies(env, log), c);
    SecondRow(env, Entropies(env, [c]), c);
    FirstRows(env);
    FourEditEntropies(env);
  }

  lemma SecondRow(env: Env, entropies: string -> real, c: CommitRecord)
    requires c == Edit("1", "a")
    ensures
      var rows := CommitSnapshots(env.classify, entropies)(c);
      |rows| == 2 && rows[1] == SnapshotRow("1", "h", 1.0, entropies("h"), env.classify("h"))
  {
    var files := ["a", "h"];
    SortedPair();
    var row := SnapshotRowOf(env.classify, entropies, "1");
    assert files[1..] == ["h"];
    CollectSingle("h", row);
    assert Collect(files, row) == row("a") + row("h");
  }

  lemma SortedPair()
    ensures SortedSet(["a", "h"]) == ["a", "h"]
  {
    var files := ["a", "h"];
    assert files[1..] == ["h"] && ["h"][1..] == [];
    assert FirstSeen(files, {}) == files;
    assert StrLe("a", "h");
    SortOfSorted(files, StrLe);
  }

  /** Both logs start with the rows of the first commit. */
  lemma FirstRows(env: Env)
    ensures
      var log, c := FourEdits(), Edit("1", "a");
      && CommitSnapshots(env.classify, Entropies(env, log))(c) <= SnapshotsOf(env, [log])
      && CommitSnapshots(env.classify, Entropies(env, [c]))(c) <= SnapshotsOf(env, Singles(log))
  {
    hide Entropies, CommitSnapshots;
    var log, c := FourEdits(), Edit("1", "a");
    assert [] + log == log && [] + [c] == [c];
    SingleBatch(env.classify, Entropies(env, [c]), c);
    assert Singles(log)[0] == [c];
  }
}
