/** src/chips/harvester/ingestion.py and storage.py: what the tables say, in terms of the commits alone. */
module TableMeaning {
  import opened Sums
  import opened Sorting
  import opened Signals
  import opened GitReader
  import opened History
  import opened HarvesterStore

  // ---- The truth table ----

  ghost predicate IsFirst(log: seq<CommitRecord>, i: nat, sha: string) {
    && i < |log| && log[i].sha == sha
    && forall j :: 0 <= j < i ==> log[j].sha != sha
  }

  lemma {:induction false} StoredStays(truth: Truth, log: seq<CommitRecord>, sha: string)
    requires sha in truth
    ensures sha in Append(truth, log) && Append(truth, log)[sha] == truth[sha]
    decreases |log|
  {
    if log != [] {
      var c := log[0];
      StoredStays(if c.sha in truth then truth else truth[c.sha := c], log[1..], sha);
    }
  }

  lemma {:induction false} AppendAdds(truth: Truth, log: seq<CommitRecord>, sha: string)
    requires sha !in truth
    ensures sha in Append(truth, log) <==> exists i: nat :: IsFirst(log, i, sha)
    ensures forall i: nat :: IsFirst(log, i, sha) ==> sha in Append(truth, log) && Append(truth, log)[sha] == log[i]
    decreases |log|
  {
    if log != [] {
      var c := log[0];
      if c.sha == sha {
        StoredStays(truth[sha := c], log[1..], sha);
        assert IsFirst(log, 0, sha);
      } else {
        AppendAdds(if c.sha in truth then truth else truth[c.sha := c], log[1..], sha);
        forall i: nat ensures IsFirst(log, i, sha) <==> i > 0 && IsFirst(log[1..], i - 1, sha) {
          assert i > 0 ==> forall j :: 0 < j < |log| ==> log[j] == log[1..][j - 1];
          assert forall j :: 0 <= j < |log| - 1 ==> log[1..][j] == log[j + 1];
        }
        if i: nat :| IsFirst(log[1..], i, sha) {
          assert IsFirst(log, i + 1, sha);
        }
      }
    }
  }

  /** The truth table holds the first commit of every sha in the log, and nothing else. */
  lemma TruthSays(log: seq<CommitRecord>, sha: string)
    ensures sha in Append(map[], log) <==> exists i: nat :: IsFirst(log, i, sha)
    ensures forall i: nat :: IsFirst(log, i, sha) ==> sha in Append(map[], log) && Append(map[], log)[sha] == log[i]
  {
    AppendAdds(map[], log, sha);
  }

  // ---- The derived tables ----

  /** The corpus holds, for every sha of the log, the evidence in the message of its first commit. */
  lemma CorpusSays(env: Env, history: seq<seq<CommitRecord>>, t: Tables, sha: string)
    requires Reflects(env, Append(map[], Flat(history)), history, t)
    ensures sha in t.defects <==> exists i: nat :: IsFirst(Flat(history), i, sha)
    ensures forall i: nat :: IsFirst(Flat(history), i, sha) ==>
      sha in t.defects && t.defects[sha] == env.extractDefectEvidence(Flat(history)[i].message)
  {
    hide Built, Append, Flat, IsFirst;
    TruthSays(Flat(history), sha);
  }

  /** A pair's frequency is that of the commits, whatever the batches. */
  lemma PairsSay(env: Env, truth: Truth, history: seq<seq<CommitRecord>>, t: Tables, f: string, g: string)
    requires Reflects(env, truth, history, t)
    ensures (f, g) in t.pairs <==> StrLe(f, g) && CountBy(Flat(history), Meetings(f, g)) > 0
    ensures (f, g) in t.pairs ==> t.pairs[(f, g)] == CountBy(Flat(history), Meetings(f, g))
  {
    hide Flat, PairFrequency, SignalsReflect, SnapshotsOf, EvidenceOf;
    PairFrequencyIs(Flat(history), f, g);
    assert Get(t.pairs, (f, g)) == PairFrequency(Flat(history), (f, g));
  }

  /** A file has a signal exactly when some commit lists it; its churn is the number of the commits that do. */
  lemma SignalsSay(env: Env, truth: Truth, history: seq<seq<CommitRecord>>, t: Tables, f: string)
    requires Reflects(env, truth, history, t)
    ensures
      var log := Flat(history);
      && (f in t.signals <==> exists i :: 0 <= i < |log| && f in log[i].filesChanged)
      && (f in t.signals ==>
            && t.signals[f].churnScore == |CommitsListing(log, f)| as real
            && t.signals[f].generatedKind == env.classify(f)
            && (env.classify(f) != None ==> t.signals[f].cochangeEntropy == 0.0))
  {
    hide Flat, Touches, PairsReflect, SnapshotsOf, EvidenceOf;
    TouchesPositive(Flat(history), f);
    TouchesAre(Flat(history), f);
  }

  /** The partners that bear on a file's entropy: hand-written, and changed with it at least twice. */
  ghost predicate ArePartners(env: Env, log: seq<CommitRecord>, f: string, partners: seq<string>) {
    && Distinct(partners)
    && forall g :: g in partners <==> env.classify(g) == None && CountBy(log, Meetings(f, g)) >= 2
  }

  ghost function MeetingCounts(log: seq<CommitRecord>, f: string, partners: seq<string>): seq<real> {
    seq(|partners|, i requires 0 <= i < |partners| => CountBy(log, Meetings(f, partners[i])) as real)
  }

  lemma CoupledIs(log: seq<CommitRecord>, f: string, g: string)
    ensures Get(Coupling(log, f), g) == CountBy(log, Meetings(f, g))
  {
    CouplingIs(log, f);
    StrTotal(f, g);
    if StrLe(f, g) {
      PairFrequencyIs(log, f, g);
    } else {
      PairFrequencyIs(log, g, f);
      CountAgrees(log, Meetings(f, g), Meetings(g, f));
    }
  }

  lemma MeetingCountsAre(log: seq<CommitRecord>, f: string, partners: seq<string>)
    ensures FrequenciesOf(Coupling(log, f), partners) == MeetingCounts(log, f, partners)
  {
    hide Coupling, Meetings;
    forall i | 0 <= i < |partners|
      ensures Get(Coupling(log, f), partners[i]) == CountBy(log, Meetings(f, partners[i]))
    {
      CoupledIs(log, f, partners[i]);
    }
  }

  /** The entropy stored for a hand-written file is that of how often it was changed with each such partner, once all
      commits are in. */
  lemma EntropySays(env: Env, truth: Truth, history: seq<seq<CommitRecord>>, t: Tables, f: string,
                    partners: seq<string>)
    requires ValidEnv(env) && Reflects(env, truth, history, t)
    requires f in t.signals && env.classify(f) == None && ArePartners(env, Flat(history), f, partners)
    ensures t.signals[f].cochangeEntropy == NormalizedEntropy(env.ln, MeetingCounts(Flat(history), f, partners))
    ensures t.signals[f].cochangeEntropy > 0.0 <==> |partners| >= 2
  {
    hide Reflects, Flat, Coupling, CochangeEntropy, NormalizedEntropy, AreCounted, ArePartners, Meetings, MeetingCounts;
    hide FrequenciesOf;
    var log := Flat(history);
    CouplingCounted(env, log, f, partners);
    EntropyStored(env, truth, history, t, f);
    CountedPartners(env.ln, env.classify, f, Coupling(log, f), partners);
    MeetingCountsAre(log, f, partners);
  }

  lemma EntropyStored(env: Env, truth: Truth, history: seq<seq<CommitRecord>>, t: Tables, f: string)
    requires ValidEnv(env) && Reflects(env, truth, history, t) && f in t.signals && env.classify(f) == None
    ensures t.signals[f].cochangeEntropy == CochangeEntropy(env.ln, env.classify, f, Coupling(Flat(history), f))
  {
    hide Flat, Coupling, CochangeEntropy, Touches, PairsReflect, SnapshotsOf, EvidenceOf;
    assert File(f, Coupling(Flat(history), f));
  }

  lemma CouplingCounted(env: Env, log: seq<CommitRecord>, f: string, partners: seq<string>)
    requires ArePartners(env, log, f, partners)
    ensures AreCounted(env.classify, Coupling(log, f), partners)
  {
    hide Coupling, Meetings;
    forall g
      ensures g in partners <==> g in Coupling(log, f) && env.classify(g) == None && Coupling(log, f)[g] >= 2
    {
      CoupledIs(log, f, g);
    }
  }

  /** A commit's snapshot rows: one for each file it lists, once and in sorted order, with the commit's sha, a churn of
      1 and the file's entropy and kind of the moment. */
  lemma SnapshotRowsSay(classify: Classifier, entropies: string -> real, c: CommitRecord)
    ensures
      var rows := CommitSnapshots(classify, entropies)(c);
      && (forall i :: 0 <= i < |rows| ==>
            var f := rows[i].filePath;
            rows[i] == SnapshotRow(c.sha, f, 1.0, entropies(f), classify(f)))
      && (forall i, j :: 0 <= i < j < |rows| ==> rows[i].filePath != rows[j].filePath)
      && (forall i, j :: 0 <= i < j < |rows| ==> StrLe(rows[i].filePath, rows[j].filePath))
      && (forall f :: f in c.filesChanged <==> exists i :: 0 <= i < |rows| && rows[i].filePath == f)
  {
    hide SortedSet;
    var files, rows := SortedSet(c.filesChanged), CommitSnapshots(classify, entropies)(c);
    RowsOfFiles(classify, entropies, c.sha, files);
    SortedSetMembers(c.filesChanged);
    forall f | f in c.filesChanged ensures exists i :: 0 <= i < |rows| && rows[i].filePath == f {
      var i :| 0 <= i < |files| && files[i] == f;
      assert rows[i].filePath == f;
    }
    forall i | 0 <= i < |rows| ensures rows[i].filePath in c.filesChanged {
      assert files[i] in files;
    }
  }

  lemma {:induction false} RowsOfFiles(classify: Classifier, entropies: string -> real, sha: string, files: seq<string>)
    ensures
      var rows := Collect(files, SnapshotRowOf(classify, entropies, sha));
      && |rows| == |files|
      && forall i :: 0 <= i < |rows| ==>
           rows[i] == SnapshotRow(sha, files[i], 1.0, entropies(files[i]), classify(files[i]))
  {
    if files != [] {
      RowsOfFiles(classify, entropies, sha, files[1..]);
    }
  }
}
