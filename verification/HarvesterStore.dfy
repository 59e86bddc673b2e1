/** src/chips/harvester/storage.py: the truth table and the four derived tables, as one object. */
module HarvesterStore {
  import opened Sums
  import opened Sorting
  import opened Signals
  import opened GitReader
  import opened History

  class PostgresHarvesterStore {
    const env: Env
    var commits: Truth
    var defects: map<string, DefectEvidence>
    var pairs: map<Pair, nat>
    var signals: map<string, SignalRow>
    var snapshots: seq<SnapshotRow>
    /** How often the pairs of a file have been read. */
    ghost var queries: multiset<string>
    /** The upserts of file signals so far, in order. */
    ghost var upserts: seq<Upsert>

    constructor (env: Env)
      ensures this.env == env && commits == map[] && Derived() == Tables(map[], map[], map[], [])
    {
      this.env := env;
      commits, defects, pairs, signals, snapshots := map[], map[], map[], map[], [];
      queries := multiset{};
      upserts := [];
    }

    ghost function Derived(): Tables
      reads this
    {
      Tables(defects, pairs, signals, snapshots)
    }

    /** What the signal loop writes and reads. */
    ghost function Written(): Ledger
      reads this
    {
      Ledger(signals, snapshots, queries, upserts)
    }

    method AppendGitCommits(batch: seq<CommitRecord>)
      modifies this`commits
      ensures commits == Append(old(commits), batch)
    {
      var i := 0;
      while i < |batch|
        invariant 0 <= i <= |batch|
        invariant Append(commits, batch[i..]) == Append(old(commits), batch)
      {
        assert batch[i..][0] == batch[i] && batch[i..][1..] == batch[i + 1..];
        if batch[i].sha !in commits {
          commits := commits[batch[i].sha := batch[i]];
        }
        i := i + 1;
      }
    }

    /** Reads the rows in an arbitrary order and sorts them. */
    method TruthCommits() returns (ordered: seq<CommitRecord>)
      requires KeyedBySha(commits)
      ensures ordered == TruthOrder(env, commits)
      ensures OldestFirst(env, ordered)
    {
      var rows: seq<CommitRecord> := [];
      var unread := commits.Keys;
      ghost var read: seq<string> := [];
      while unread != {}
        invariant unread <= commits.Keys
        invariant Distinct(read) && forall k :: k in read <==> k in commits.Keys - unread
        invariant rows == Collect(read, RowAt(commits))
        decreases unread
      {
        var sha :| sha in unread;
        CollectAppend(read, [sha], RowAt(commits));
        CollectSingle(sha, RowAt(commits));
        assert forall i :: 0 <= i < |read| ==> read[i] in read;
        rows := rows + [commits[sha]];
        unread := unread - {sha};
        read := read + [sha];
      }
      TruthOrderListing(env, commits, read);
      TruthOldestFirst(env, commits);
      ordered := Sort(rows, CommitLe(env));
    }

    method ClearDerivedTables()
      modifies this`defects, this`pairs, this`signals, this`snapshots
      ensures Derived() == Tables(map[], map[], map[], [])
    {
      defects, pairs, signals, snapshots := map[], map[], map[], [];
    }

    /** Re-extracts the evidence of the stored commits among `shas`. */
    method RebuildDefectCorpusForShas(shas: seq<string>)
      modifies this`defects
      ensures defects == old(defects) + EvidenceAt(env, commits, shas)
    {
      hide EvidenceAt;
      NoEvidence(env, commits, old(defects));
      var i := 0;
      while i < |shas|
        invariant 0 <= i <= |shas|
        invariant defects == old(defects) + EvidenceAt(env, commits, shas[..i])
      {
        EvidenceNext(env, commits, shas, i);
        if shas[i] in commits {
          defects := defects[shas[i] := env.extractDefectEvidence(commits[shas[i]].message)];
        }
        i := i + 1;
      }
      assert shas[..i] == shas;
    }

    method MergeCochangePairs(rows: seq<CochangePair>)
      requires NoZeros(pairs) && forall i :: 0 <= i < |rows| ==> rows[i].frequency > 0
      modifies this`pairs
      ensures NoZeros(pairs)
      ensures forall k :: Get(pairs, k) == Get(old(pairs), k) + RowsFrequency(rows, k)
      ensures MapTotal(pairs) == MapTotal(old(pairs)) + CountBy(rows, FrequencyOf())
    {
      var i := 0;
      while i < |rows|
        invariant 0 <= i <= |rows|
        invariant NoZeros(pairs)
        invariant forall k :: Get(pairs, k) == Get(old(pairs), k) + RowsFrequency(rows[..i], k)
        invariant MapTotal(pairs) == MapTotal(old(pairs)) + CountBy(rows[..i], FrequencyOf())
      {
        assert rows[..i + 1] == rows[..i] + [rows[i]];
        RowsFrequencyAppend(rows[..i], rows[i]);
        var key := (rows[i].fileA, rows[i].fileB);
        IncrementAdds(pairs, key, rows[i].frequency);
        pairs := Increment(pairs, key, rows[i].frequency);
        i := i + 1;
      }
      assert rows[..i] == rows;
    }

    /** Fills the dictionary from the matching rows, in an arbitrary order. */
    method PartnerFrequencies(f: string) returns (partners: Partners)
      requires SmallerFirst(pairs)
      modifies this`queries
      ensures partners == PartnersIn(pairs, f)
      ensures queries == old(queries) + multiset{f}
    {
      partners := map[];
      var rows := set row | row in pairs && (row.0 == f || row.1 == f);
      ghost var unread := rows;
      while rows != {}
        invariant queries == old(queries)
        invariant rows <= unread
        invariant forall row :: row in unread ==> row in pairs && (row.0 == f || row.1 == f)
        invariant forall g :: g in partners <==> OrderedPair(f, g) in unread - rows
        invariant forall g :: g in partners ==> partners[g] == pairs[OrderedPair(f, g)]
        decreases rows
      {
        var row :| row in rows;
        PartnerRow(row, f);
        OrderedPairInjective(f);
        partners := partners[Partner(row, f) := pairs[row]];
        rows := rows - {row};
      }
      PartnersInIs(pairs, f);
      OrderedPairMentions(f);
      assert forall g :: g in partners <==> g in PartnersIn(pairs, f);
      queries := queries + multiset{f};
    }

    method UpsertFileSignal(f: string, churnScore: real, cochangeEntropy: real, kind: Option<GeneratedKind>)
      modifies this`signals, this`upserts
      ensures upserts == old(upserts) + [Upsert(f, churnScore, cochangeEntropy, kind)]
      ensures signals == old(signals)[f :=
        SignalRow((if f in old(signals) then old(signals)[f].churnScore else 0.0) + churnScore, cochangeEntropy, kind)]
    {
      upserts := upserts + [Upsert(f, churnScore, cochangeEntropy, kind)];
      if f in signals {
        signals := signals[f := SignalRow(signals[f].churnScore + churnScore, cochangeEntropy, kind)];
      } else {
        signals := signals[f := SignalRow(churnScore, cochangeEntropy, kind)];
      }
    }

    method SnapshotFileSignal(row: SnapshotRow)
      modifies this`snapshots
      ensures snapshots == old(snapshots) + [row]
    {
      snapshots := snapshots + [row];
    }
  }

  lemma NoEvidence(env: Env, truth: Truth, defects: map<string, DefectEvidence>)
    ensures defects + EvidenceAt(env, truth, []) == defects
  {
  }

  lemma OrderedPairInjective(f: string)
    ensures forall g, h :: OrderedPair(f, g) == OrderedPair(f, h) ==> g == h
  {
  }

  lemma OrderedPairMentions(f: string)
    ensures forall g :: OrderedPair(f, g).0 == f || OrderedPair(f, g).1 == f
  {
  }

  lemma CommitOrder(env: Env)
    ensures TotalPreorder(CommitLe(env))
  {
    var le := CommitLe(env);
    forall a, b ensures le(a, b) || le(b, a) {
      StrTotal(a.sha, b.sha);
    }
    forall a, b, c | le(a, b) && le(b, c) ensures le(a, c) {
      if StrLe(a.sha, b.sha) && StrLe(b.sha, c.sha) {
        StrTransitive(a.sha, b.sha, c.sha);
      }
    }
  }

  /** Earlier instants come first, and of one instant the smaller sha. */
  ghost predicate OldestFirst(env: Env, commits: seq<CommitRecord>) {
    forall i, j :: 0 <= i < j < |commits| ==>
      var a, b := commits[i], commits[j];
      || env.instant(a.committedAt) < env.instant(b.committedAt)
      || (env.instant(a.committedAt) == env.instant(b.committedAt) && StrLe(a.sha, b.sha))
  }

  /** The truth order is that order, whatever the rows. */
  lemma TruthOldestFirst(env: Env, truth: Truth)
    ensures OldestFirst(env, TruthOrder(env, truth))
  {
    CommitOrder(env);
    SortIsSortedPermutation(Collect(Listing(truth.Keys), RowAt(truth)), CommitLe(env));
  }

  /** With the sha as key, the order of reading the rows does not show in the sorted result. */
  lemma TruthOrderListing(env: Env, truth: Truth, keys: seq<string>)
    requires KeyedBySha(truth)
    requires Distinct(keys) && forall k :: k in keys <==> k in truth
    ensures Sort(Collect(keys, RowAt(truth)), CommitLe(env)) == TruthOrder(env, truth)
  {
    var rows, others := Collect(keys, RowAt(truth)), Collect(Listing(truth.Keys), RowAt(truth));
    DistinctSameMembers(keys, Listing(truth.Keys));
    CollectPermutation(keys, Listing(truth.Keys), RowAt(truth));
    CommitOrder(env);
    RowsAreStored(truth, keys);
    forall a, b | a in rows && b in rows && CommitLe(env)(a, b) && CommitLe(env)(b, a) ensures a == b {
      StrTotal(a.sha, b.sha);
    }
    SortPermutationInvariant(rows, others, CommitLe(env));
  }

  lemma {:induction false} RowsAreStored(truth: Truth, keys: seq<string>)
    requires KeyedBySha(truth)
    ensures forall c :: c in Collect(keys, RowAt(truth)) ==> c.sha in truth && truth[c.sha] == c
  {
    if keys == [] {
    } else {
      RowsAreStored(truth, keys[1..]);
    }
  }
}
