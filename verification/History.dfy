/** The specification of the harvester's tables as functions of the commits ingested so far. */
module History {
  import opened Sums
  import opened Sorting
  import opened Signals
  import opened GitReader

  datatype DefectEvidence = DefectEvidence(
    issueRefs: seq<string>, revertOfSha: Option<string>,
    hasBugKeyword: bool, hasDefectKeyword: bool, hasHotfixKeyword: bool, hasIncidentKeyword: bool)

  /** What the tables depend on besides the commits: the path classifier, the entropy of a file with given partner
      frequencies, the regular expressions that read a commit message, and the instant a timestamp text denotes. */
  datatype Env = Env(
    ln: real -> real,
    classify: Classifier,
    entropy: (string, Partners) -> real,
    extractDefectEvidence: string -> DefectEvidence,
    instant: string -> int)

  predicate File(f: string, partners: Partners) {
    true
  }

  /** `entropy` is cochange_entropy_for_file. */
  ghost predicate ValidEnv(env: Env) {
    && LnLaws(env.ln)
    && forall f, partners {:trigger File(f, partners)} :: File(f, partners) ==>
         env.entropy(f, partners) == CochangeEntropy(env.ln, env.classify, f, partners)
  }

  datatype SignalRow = SignalRow(churnScore: real, cochangeEntropy: real, generatedKind: Option<GeneratedKind>)

  datatype SnapshotRow = SnapshotRow(
    basisSha: string, filePath: string, churnScore: real, cochangeEntropy: real, generatedKind: Option<GeneratedKind>)

  /** The arguments of one upsert of a file signal. */
  datatype Upsert = Upsert(filePath: string, churnScore: real, cochangeEntropy: real,
                           generatedKind: Option<GeneratedKind>)

  /** The upsert that goes with a snapshot row. */
  function UpsertOf(): SnapshotRow -> seq<Upsert> {
    (row: SnapshotRow) => [Upsert(row.filePath, row.churnScore, row.cochangeEntropy, row.generatedKind)]
  }

  /** The signal rows, and the logs of snapshots, pair reads and upserts. */
  datatype Ledger = Ledger(
    signals: map<string, SignalRow>, snapshots: seq<SnapshotRow>, queries: multiset<string>, upserts: seq<Upsert>)

  type Truth = map<string, CommitRecord>

  /** The four derived tables. */
  datatype Tables = Tables(
    defects: map<string, DefectEvidence>,
    pairs: map<Pair, nat>,
    signals: map<string, SignalRow>,
    snapshots: seq<SnapshotRow>)

  // ---- The truth table ----

  /** The primary key of a row is its sha. */
  ghost predicate KeyedBySha(truth: Truth) {
    forall sha :: sha in truth ==> truth[sha].sha == sha
  }

  /** INSERT ... ON CONFLICT (sha) DO NOTHING, row by row. */
  function Append(truth: Truth, commits: seq<CommitRecord>): Truth
    decreases |commits|
  {
    if commits == [] then truth
    else
      var c := commits[0];
      Append(if c.sha in truth then truth else truth[c.sha := c], commits[1..])
  }

  function CommitLe(env: Env): (CommitRecord, CommitRecord) -> bool {
    (a: CommitRecord, b: CommitRecord) =>
      env.instant(a.committedAt) < env.instant(b.committedAt)
      || (env.instant(a.committedAt) == env.instant(b.committedAt) && StrLe(a.sha, b.sha))
  }

  function RowAt(truth: Truth): string -> seq<CommitRecord> {
    sha => if sha in truth then [truth[sha]] else []
  }

  /** SELECT ... ORDER BY committed_at ASC, sha ASC */
  ghost function TruthOrder(env: Env, truth: Truth): seq<CommitRecord> {
    Sort(Collect(Listing(truth.Keys), RowAt(truth)), CommitLe(env))
  }

  // ---- Co-change partners ----

  function OrderedPair(f: string, g: string): Pair {
    if StrLe(f, g) then (f, g) else (g, f)
  }

  /** How often f and g were changed together. */
  ghost function Coupled(log: seq<CommitRecord>, f: string, g: string): nat {
    PairFrequency(log, OrderedPair(f, g))
  }

  ghost function Coupling(log: seq<CommitRecord>, f: string): Partners {
    map g | g in FilesOf(log) && Coupled(log, f, g) > 0 :: Coupled(log, f, g)
  }

  /** The entropy that the stored pairs give a file once the commits `log` are in. */
  ghost function EntropyAfter(env: Env, log: seq<CommitRecord>, f: string): real
  {
    if env.classify(f).Some? then 0.0 else env.entropy(f, Coupling(log, f))
  }

  ghost function Entropies(env: Env, log: seq<CommitRecord>): string -> real
  {
    f => EntropyAfter(env, log, f)
  }

  // ---- What the derived tables hold ----

  function Batch(): seq<CommitRecord> -> seq<CommitRecord> {
    (b: seq<CommitRecord>) => b
  }

  /** All ingested commits, batch after batch. */
  function Flat(history: seq<seq<CommitRecord>>): seq<CommitRecord> {
    Collect(history, Batch())
  }

  function Singles(commits: seq<CommitRecord>): seq<seq<CommitRecord>> {
    if commits == [] then [] else [[commits[0]]] + Singles(commits[1..])
  }

  ghost predicate PairsReflect(pairs: map<Pair, nat>, log: seq<CommitRecord>) {
    && NoZeros(pairs)
    && (forall k :: Get(pairs, k) == PairFrequency(log, k))
    && MapTotal(pairs) == CountBy(log, PairBudget())
  }

  /** One row per touched file: its commits counted, its entropy up to date. */
  ghost predicate SignalsReflect(classify: Classifier, entropies: string -> real,
                                 signals: map<string, SignalRow>, log: seq<CommitRecord>)
  {
    && (forall f :: f in signals <==> Touches(log, f) > 0)
    && (forall f :: f in signals ==> signals[f] == SignalRow(Touches(log, f) as real, entropies(f), classify(f)))
  }

  ghost function SnapshotRowOf(classify: Classifier, entropies: string -> real, sha: string)
    : string -> seq<SnapshotRow>
  {
    f => [SnapshotRow(sha, f, 1.0, entropies(f), classify(f))]
  }

  /** The rows one commit adds, given the entropies of the moment. */
  ghost function CommitSnapshots(classify: Classifier, entropies: string -> real): CommitRecord -> seq<SnapshotRow> {
    (c: CommitRecord) => Collect(SortedSet(c.filesChanged), SnapshotRowOf(classify, entropies, c.sha))
  }

  /** The rows one batch adds, all with the same entropies. */
  ghost function BatchSnapshots(classify: Classifier, entropies: string -> real, batch: seq<CommitRecord>)
    : seq<SnapshotRow>
  {
    Collect(batch, CommitSnapshots(classify, entropies))
  }

  /** Each batch is recorded with the entropies of its own end. */
  ghost function SnapshotsFrom(env: Env, log: seq<CommitRecord>, history: seq<seq<CommitRecord>>): seq<SnapshotRow>
    decreases |history|
  {
    if history == [] then [] else
      BatchSnapshots(env.classify, Entropies(env, log + history[0]), history[0])
      + SnapshotsFrom(env, log + history[0], history[1..])
  }

  ghost function SnapshotsOf(env: Env, history: seq<seq<CommitRecord>>): seq<SnapshotRow>
  {
    SnapshotsFrom(env, [], history)
  }

  /** The evidence of the stored commits among `shas`. */
  function EvidenceAt(env: Env, truth: Truth, shas: seq<string>): map<string, DefectEvidence> {
    map sha | sha in shas && sha in truth :: env.extractDefectEvidence(truth[sha].message)
  }

  lemma EvidenceNext(env: Env, truth: Truth, shas: seq<string>, i: nat)
    requires i < |shas|
    ensures EvidenceAt(env, truth, shas[..i + 1])
      == if shas[i] in truth then
           EvidenceAt(env, truth, shas[..i])[shas[i] := env.extractDefectEvidence(truth[shas[i]].message)]
         else EvidenceAt(env, truth, shas[..i])
  {
    assert shas[..i + 1] == shas[..i] + [shas[i]];
  }

  function EvidenceOf(env: Env, truth: Truth): map<string, DefectEvidence> {
    map sha | sha in truth :: env.extractDefectEvidence(truth[sha].message)
  }

  /** The tables computed from the commits alone. */
  ghost predicate Built(env: Env, history: seq<seq<CommitRecord>>, pairs: map<Pair, nat>,
                        signals: map<string, SignalRow>, snapshots: seq<SnapshotRow>)
  {
    && PairsReflect(pairs, Flat(history))
    && SignalsReflect(env.classify, Entropies(env, Flat(history)), signals, Flat(history))
    && snapshots == SnapshotsOf(env, history)
  }

  /** The tables say exactly what the ingested batches make them say. */
  ghost predicate Reflects(env: Env, truth: Truth, history: seq<seq<CommitRecord>>, t: Tables)
  {
    && t.defects == EvidenceOf(env, truth)
    && Built(env, history, t.pairs, t.signals, t.snapshots)
  }

  // ---- A commit only moves the pairs of the files it touches ----

  lemma ContributionNeedsBoth(c: CommitRecord, k: Pair)
    requires k.0 !in c.filesChanged || k.1 !in c.filesChanged
    ensures Contribution(c, k) == 0
  {
  }

  lemma {:induction false} FrequencyNeedsTouch(commits: seq<CommitRecord>, f: string, g: string)
    requires Touches(commits, f) == 0
    ensures PairFrequency(commits, OrderedPair(f, g)) == 0
  {
    if commits == [] {
    } else {
      assert Touching(f)(commits[0]) == 0;
      ContributionNeedsBoth(commits[0], OrderedPair(f, g));
      FrequencyNeedsTouch(commits[1..], f, g);
    }
  }

  lemma {:induction false} FrequencyNeedsFile(commits: seq<CommitRecord>, f: string, g: string)
    requires PairFrequency(commits, OrderedPair(f, g)) > 0
    ensures g in FilesOf(commits)
  {
    if Contribution(commits[0], OrderedPair(f, g)) == 0 {
      FrequencyNeedsFile(commits[1..], f, g);
      var c :| c in commits[1..] && g in c.filesChanged;
      assert c in commits;
    } else {
      if g !in commits[0].filesChanged {
        ContributionNeedsBoth(commits[0], OrderedPair(f, g));
      }
      assert commits[0] in commits;
    }
  }

  lemma CouplingIs(log: seq<CommitRecord>, f: string)
    ensures NoZeros(Coupling(log, f))
    ensures forall g :: Get(Coupling(log, f), g) == Coupled(log, f, g)
  {
    forall g ensures Get(Coupling(log, f), g) == Coupled(log, f, g) {
      if Coupled(log, f, g) > 0 {
        FrequencyNeedsFile(log, f, g);
      }
    }
  }

  lemma CouplingUntouched(log: seq<CommitRecord>, more: seq<CommitRecord>, f: string)
    requires Touches(more, f) == 0
    ensures Coupling(log + more, f) == Coupling(log, f)
  {
    CouplingIs(log, f);
    CouplingIs(log + more, f);
    forall g ensures Coupled(log + more, f, g) == Coupled(log, f, g) {
      CountAppend(log, more, ContributionTo(OrderedPair(f, g)));
      FrequencyNeedsTouch(more, f, g);
    }
    CountsDetermineMap(Coupling(log + more, f), Coupling(log, f));
  }

  lemma CouplingPermutation(a: seq<CommitRecord>, b: seq<CommitRecord>, f: string)
    requires forall k :: PairFrequency(a, k) == PairFrequency(b, k)
    ensures Coupling(a, f) == Coupling(b, f)
  {
    CouplingIs(a, f);
    CouplingIs(b, f);
    CountsDetermineMap(Coupling(a, f), Coupling(b, f));
  }

  // ---- The stored pairs of one file ----

  /** SELECT ... WHERE file_a = f OR file_b = f, as a dictionary from the partner. */
  ghost function PartnersIn(pairs: map<Pair, nat>, f: string): Partners {
    map g | g in PartnerNames(pairs, f) :: Get(pairs, OrderedPair(f, g))
  }

  function Partner(row: Pair, f: string): string {
    if row.0 == f then row.1 else row.0
  }

  ghost function PartnerNames(pairs: map<Pair, nat>, f: string): set<string> {
    set row | row in pairs && (row.0 == f || row.1 == f) :: Partner(row, f)
  }

  /** Every stored row has its smaller file first. */
  ghost predicate SmallerFirst(pairs: map<Pair, nat>) {
    forall row :: row in pairs ==> StrLe(row.0, row.1)
  }

  /** A row that mentions f is the row of f and its partner, so no two rows compete for one entry. */
  lemma PartnerRow(row: Pair, f: string)
    requires StrLe(row.0, row.1) && (row.0 == f || row.1 == f)
    ensures row == OrderedPair(f, Partner(row, f))
  {
    StrTotal(row.0, row.1);
  }

  lemma PartnersInIs(pairs: map<Pair, nat>, f: string)
    requires SmallerFirst(pairs)
    ensures forall g :: g in PartnersIn(pairs, f) <==> OrderedPair(f, g) in pairs
    ensures forall g :: Get(PartnersIn(pairs, f), g) == Get(pairs, OrderedPair(f, g))
  {
    forall g ensures g in PartnersIn(pairs, f) <==> OrderedPair(f, g) in pairs {
      if OrderedPair(f, g) in pairs {
        assert Partner(OrderedPair(f, g), f) == g;
      }
      if g in PartnersIn(pairs, f) {
        var row :| row in pairs && (row.0 == f || row.1 == f) && Partner(row, f) == g;
        PartnerRow(row, f);
      }
    }
  }

  lemma PartnersSymmetric(pairs: map<Pair, nat>, f: string, g: string)
    requires SmallerFirst(pairs)
    ensures Get(PartnersIn(pairs, f), g) == Get(PartnersIn(pairs, g), f)
  {
    PartnersInIs(pairs, f);
    PartnersInIs(pairs, g);
    StrTotal(f, g);
  }

  lemma ReflectedPairsOrdered(pairs: map<Pair, nat>, log: seq<CommitRecord>)
    requires PairsReflect(pairs, log)
    ensures SmallerFirst(pairs)
  {
    forall row | row in pairs ensures StrLe(row.0, row.1) {
      assert Get(pairs, row) == PairFrequency(log, row) > 0;
      if !StrLe(row.0, row.1) {
        UnorderedNeverCounted(log, row);
      }
    }
  }

  lemma {:induction false} UnorderedNeverCounted(log: seq<CommitRecord>, k: Pair)
    requires !StrLe(k.0, k.1)
    ensures PairFrequency(log, k) == 0
  {
    StrTotal(k.0, k.1);
    if log == [] {
    } else {
      UnorderedNeverCounted(log[1..], k);
    }
  }

  /** What the pairs table says about a file is what the commits say. */
  lemma PartnersReflect(pairs: map<Pair, nat>, log: seq<CommitRecord>, f: string)
    requires PairsReflect(pairs, log)
    ensures SmallerFirst(pairs) && PartnersIn(pairs, f) == Coupling(log, f)
  {
    ReflectedPairsOrdered(pairs, log);
    PartnersInIs(pairs, f);
    CouplingIs(log, f);
    CountsDetermineMap(PartnersIn(pairs, f), Coupling(log, f));
  }

  // ---- Histories ----

  lemma FlatAppend(history: seq<seq<CommitRecord>>, batch: seq<CommitRecord>)
    ensures Flat(history + [batch]) == Flat(history) + batch
  {
    CollectAppend(history, [batch], Batch());
    CollectSingle(batch, Batch());
  }

  lemma {:induction false} SnapshotsAppend(env: Env, log: seq<CommitRecord>, history: seq<seq<CommitRecord>>,
                                           batch: seq<CommitRecord>)
    ensures SnapshotsFrom(env, log, history + [batch]) == SnapshotsFrom(env, log, history)
      + BatchSnapshots(env.classify, Entropies(env, log + Flat(history) + batch), batch)
    decreases |history|
  {
    hide EntropyAfter, Entropies, BatchSnapshots;
    if history == [] {
      assert history + [batch] == [batch];
      assert log + Flat(history) + batch == log + batch;
      assert SnapshotsFrom(env, log + batch, [batch][1..]) == [];
    } else {
      assert (history + [batch])[1..] == history[1..] + [batch];
      SnapshotsAppend(env, log + history[0], history[1..], batch);
      assert log + history[0] + Flat(history[1..]) + batch == log + Flat(history) + batch;
    }
  }

  lemma {:induction false} SinglesAppend(commits: seq<CommitRecord>, c: CommitRecord)
    ensures Singles(commits + [c]) == Singles(commits) + [[c]]
  {
    if commits == [] {
      assert commits + [c] == [c];
    } else {
      assert (commits + [c])[1..] == commits[1..] + [c];
      SinglesAppend(commits[1..], c);
    }
  }

  lemma {:induction false} FlatSingles(commits: seq<CommitRecord>)
    ensures Flat(Singles(commits)) == commits
  {
    if commits == [] {
    } else {
      FlatSingles(commits[1..]);
      assert Singles(commits)[1..] == Singles(commits[1..]);
    }
  }

  /** A file's touches are its occurrences in the list of touched files. */
  lemma {:induction false} TouchesAreOccurrences(commits: seq<CommitRecord>, f: string)
    ensures multiset(Collect(commits, TouchedFiles()))[f] == Touches(commits, f)
  {
    if commits == [] {
    } else {
      TouchesAreOccurrences(commits[1..], f);
      SortedSetMembers(commits[0].filesChanged);
    }
  }

  /** Commits leave the entropy of every file they do not touch as it was. */
  lemma EntropyUntouched(env: Env, log: seq<CommitRecord>, more: seq<CommitRecord>, f: string)
    requires Touches(more, f) == 0
    ensures Entropies(env, log + more)(f) == Entropies(env, log)(f)
  {
    CouplingUntouched(log, more, f);
  }
}
