/** src/chips/harvester/git_reader.py: co-change pairs and file signals of a list of commits. */
module GitReader {
  import opened Sums
  import opened Sorting
  import opened Signals

  datatype CommitRecord = CommitRecord(
    sha: string, author: string, committedAt: string, message: string, filesChanged: seq<string>)

  datatype FileSignal = FileSignal(
    filePath: string, churnCount: nat, churnScore: real, cochangeEntropy: real, generatedKind: Option<GeneratedKind>)

  type Pair = (string, string)

  const MAX_FILES_FOR_COCHANGE: nat := 100

  /** n(n-1)/2, the number of pairs of n positions. */
  function Choose2(n: nat): nat {
    if n == 0 then 0 else Choose2(n - 1) + (n - 1)
  }

  lemma {:induction false} Choose2Closed(n: nat)
    ensures Choose2(n) == n * (n - 1) / 2
  {
    if n == 0 {
    } else {
      Choose2Closed(n - 1);
      assert n * (n - 1) == (n - 1) * (n - 2) + 2 * (n - 1);
    }
  }

  // ---- What one commit adds to a pair ----

  /** Pairs of positions i < j of the list that hold the two files of `k`. */
  ghost function PairsIn(s: seq<string>, k: Pair): nat {
    if s == [] then 0 else (if s[0] == k.0 then multiset(s[1..])[k.1] else 0) + PairsIn(s[1..], k)
  }

  /** The same number without the order: products of multiplicities, smaller file first. */
  ghost function PairsOf(files: multiset<string>, k: Pair): nat {
    if k.0 == k.1 then Choose2(files[k.0])
    else if StrLe(k.0, k.1) then Product(files[k.0], files[k.1])
    else 0
  }

  /** Adding a smallest file pairs it with every later one. */
  lemma PairsOfAdd(t: multiset<string>, h: string, k: Pair)
    requires forall x :: x in t ==> StrLe(h, x)
    ensures PairsOf(t + multiset{h}, k) == (if h == k.0 then t[k.1] else 0) + PairsOf(t, k)
  {
    var (a, b) := k;
    var m := t + multiset{h};
    if a == b {
    } else if !StrLe(a, b) {
      StrTotal(a, b);
      assert h == a ==> b !in t;
    } else {
      StrTotal(a, b);
      ProductStep(t[a], t[b]);
      if h == a {
        assert m[a] == t[a] + 1 && m[b] == t[b];
      } else if h == b {
        assert a !in t;
        assert m[a] == 0 && t[a] == 0;
        ProductStep(0, m[b]);
      } else {
        assert m[a] == t[a] && m[b] == t[b];
      }
    }
  }

  lemma {:induction false} PairsInSorted(s: seq<string>, k: Pair)
    requires SortedBy(StrLe, s)
    ensures PairsIn(s, k) == PairsOf(multiset(s), k)
  {
    if s == [] {
    } else {
      assert s == [s[0]] + s[1..];
      PairsInSorted(s[1..], k);
      forall x | x in multiset(s[1..]) ensures StrLe(s[0], x) {
        var i :| 0 <= i < |s[1..]| && s[1..][i] == x;
        assert x == s[i + 1];
      }
      PairsOfAdd(multiset(s[1..]), s[0], k);
      assert multiset(s) == multiset(s[1..]) + multiset{s[0]};
    }
  }

  /** Above the bound a commit contributes no pair at all. */
  ghost function Contribution(c: CommitRecord, k: Pair): nat {
    if |c.filesChanged| > MAX_FILES_FOR_COCHANGE then 0 else PairsOf(multiset(c.filesChanged), k)
  }

  ghost function ContributionTo(k: Pair): CommitRecord -> nat {
    c => Contribution(c, k)
  }

  /** How often the commits changed the two files of `k` together. */
  ghost function PairFrequency(commits: seq<CommitRecord>, k: Pair): nat {
    CountBy(commits, ContributionTo(k))
  }

  function PairBudget(): CommitRecord -> nat {
    (c: CommitRecord) => if |c.filesChanged| > MAX_FILES_FOR_COCHANGE then 0 else Choose2(|c.filesChanged|)
  }

  /** How often one commit changes f and g together: once for each pair of positions that hold them. */
  function Meetings(f: string, g: string): CommitRecord -> nat {
    (c: CommitRecord) =>
      var files := multiset(c.filesChanged);
      if |c.filesChanged| > 100 then 0 else if f == g then Choose2(files[f]) else files[f] * files[g]
  }

  /** The frequency of a pair counts the commits of at most 100 files that list both files, the smaller file first. */
  lemma PairFrequencyIs(commits: seq<CommitRecord>, f: string, g: string)
    ensures StrLe(f, g) ==> PairFrequency(commits, (f, g)) == CountBy(commits, Meetings(f, g))
    ensures !StrLe(f, g) ==> PairFrequency(commits, (f, g)) == 0
  {
    StrTotal(f, g);
    forall c | c in commits
      ensures ContributionTo((f, g))(c) == if StrLe(f, g) then Meetings(f, g)(c) else 0
    {
    }
    if StrLe(f, g) {
      CountAgrees(commits, ContributionTo((f, g)), Meetings(f, g));
    } else {
      AllZero(commits, ContributionTo((f, g)));
    }
  }

  lemma {:induction false} AllZero<T>(s: seq<T>, f: T -> nat)
    requires forall x :: x in s ==> f(x) == 0
    ensures CountBy(s, f) == 0
  {
    if s != [] {
      AllZero(s[1..], f);
    }
  }

  ghost function CommitsListing(commits: seq<CommitRecord>, f: string): set<int> {
    set i | 0 <= i < |commits| && f in commits[i].filesChanged
  }

  ghost function SmallCommits(commits: seq<CommitRecord>): set<int> {
    set i | 0 <= i < |commits| && |commits[i].filesChanged| <= 100
  }

  /** Where no commit lists a file twice, that is the number of those commits. */
  lemma PairFrequencyOfTidy(commits: seq<CommitRecord>, f: string, g: string)
    requires f != g && StrLe(f, g) && forall c :: c in commits ==> Distinct(c.filesChanged)
    ensures PairFrequency(commits, (f, g))
      == |CommitsListing(commits, f) * CommitsListing(commits, g) * SmallCommits(commits)|
  {
    PairFrequencyIs(commits, f, g);
    forall i | 0 <= i < |commits|
      ensures Meetings(f, g)(commits[i])
        == if |commits[i].filesChanged| <= 100 && f in commits[i].filesChanged && g in commits[i].filesChanged then 1
           else 0
    {
      assert commits[i] in commits;
      DistinctMultiplicity(commits[i].filesChanged, f);
      DistinctMultiplicity(commits[i].filesChanged, g);
    }
    CountIsNumber(commits, Meetings(f, g));
    hide Meetings;
    assert Ones(commits, Meetings(f, g))
      == CommitsListing(commits, f) * CommitsListing(commits, g) * SmallCommits(commits);
  }

  // ---- _compute_cochange_pairs ----

  datatype CochangePair = CochangePair(fileA: string, fileB: string, frequency: nat)

  function FrequencyAt(k: Pair): CochangePair -> nat {
    (p: CochangePair) => if (p.fileA, p.fileB) == k then p.frequency else 0
  }

  function FrequencyOf(): CochangePair -> nat {
    (p: CochangePair) => p.frequency
  }

  /** What a list of pair rows says about `k` in all. */
  ghost function RowsFrequency(rows: seq<CochangePair>, k: Pair): nat {
    CountBy(rows, FrequencyAt(k))
  }

  lemma OneMoreFile(files: seq<string>, j: nat)
    requires j < |files|
    ensures forall f ::
      multiset(files[..j + 1])[f] == multiset(files[..j])[f] + if f == files[j] then 1 else 0
  {
    assert files[..j + 1] == files[..j] + [files[j]];
  }

  /** The innermost loop: one increment for each later file. */
  method CountPairsWith(fa: string, later: seq<string>, freq0: map<Pair, nat>) returns (freq: map<Pair, nat>)
    requires NoZeros(freq0)
    ensures NoZeros(freq)
    ensures forall k :: Get(freq, k) == Get(freq0, k) + (if fa == k.0 then multiset(later)[k.1] else 0)
    ensures MapTotal(freq) == MapTotal(freq0) + |later|
  {
    freq := freq0;
    var j := 0;
    while j < |later|
      invariant 0 <= j <= |later|
      invariant NoZeros(freq)
      invariant forall k :: Get(freq, k) == Get(freq0, k) + (if fa == k.0 then multiset(later[..j])[k.1] else 0)
      invariant MapTotal(freq) == MapTotal(freq0) + j
    {
      var key := (fa, later[j]);
      OneMoreFile(later, j);
      IncrementAdds(freq, key, 1);
      freq := Increment(freq, key, 1);
      j := j + 1;
    }
    assert later[..j] == later;
  }

  /** The pairs of one commit: every file with the files after it. */
  method CountPairs(files: seq<string>, freq0: map<Pair, nat>) returns (freq: map<Pair, nat>)
    requires NoZeros(freq0)
    ensures NoZeros(freq)
    ensures forall k :: Get(freq, k) == Get(freq0, k) + PairsIn(files, k)
    ensures MapTotal(freq) == MapTotal(freq0) + Choose2(|files|)
  {
    freq := freq0;
    var i := 0;
    while i < |files|
      invariant 0 <= i <= |files|
      invariant NoZeros(freq)
      invariant forall k :: Get(freq, k) + PairsIn(files[i..], k) == Get(freq0, k) + PairsIn(files, k)
      invariant MapTotal(freq) + Choose2(|files| - i) == MapTotal(freq0) + Choose2(|files|)
    {
      assert files[i..][0] == files[i] && files[i..][1..] == files[i + 1..];
      freq := CountPairsWith(files[i], files[i + 1..], freq);
      i := i + 1;
    }
  }

  /** The dictionary's items, in an arbitrary order. */
  method Items(freq: map<Pair, nat>) returns (rows: seq<CochangePair>)
    requires NoZeros(freq)
    ensures forall k :: RowsFrequency(rows, k) == Get(freq, k)
    ensures forall i :: 0 <= i < |rows| ==> rows[i].frequency > 0
    ensures CountBy(rows, FrequencyOf()) == MapTotal(freq)
  {
    hide RowsFrequency, CountBy, MapTotal;
    NoItems();
    rows := [];
    var unread := freq;
    while unread != map[]
      invariant NoZeros(unread)
      invariant forall k :: RowsFrequency(rows, k) + Get(unread, k) == Get(freq, k)
      invariant forall i :: 0 <= i < |rows| ==> rows[i].frequency > 0
      invariant CountBy(rows, FrequencyOf()) + MapTotal(unread) == MapTotal(freq)
      decreases |unread|
    {
      var key :| key in unread;
      var row := CochangePair(key.0, key.1, unread[key]);
      RowsFrequencyAppend(rows, row);
      MapTotalRemove(unread, key);
      rows := rows + [row];
      unread := unread - {key};
    }
  }

  lemma NoItems()
    ensures CountBy([], FrequencyOf()) == 0 && forall k :: RowsFrequency([], k) == 0
    ensures MapTotal<Pair>(map[]) == 0
  {
  }

  lemma RowsFrequencyAppend(rows: seq<CochangePair>, row: CochangePair)
    ensures forall k :: RowsFrequency(rows + [row], k) == RowsFrequency(rows, k) + FrequencyAt(k)(row)
    ensures CountBy(rows + [row], FrequencyOf()) == CountBy(rows, FrequencyOf()) + row.frequency
  {
    forall k ensures RowsFrequency(rows + [row], k) == RowsFrequency(rows, k) + FrequencyAt(k)(row) {
      CountAppend(rows, [row], FrequencyAt(k));
    }
    CountAppend(rows, [row], FrequencyOf());
  }

  /** What commit i adds, in terms of its sorted file list. */
  lemma FrequencyStep(commits: seq<CommitRecord>, i: nat)
    requires i < |commits|
    ensures
      var files := Sort(commits[i].filesChanged, StrLe);
      && |files| == |commits[i].filesChanged|
      && CountBy(commits[..i + 1], PairBudget()) == CountBy(commits[..i], PairBudget()) + PairBudget()(commits[i])
      && forall k :: PairFrequency(commits[..i + 1], k)
           == PairFrequency(commits[..i], k) + if |files| <= MAX_FILES_FOR_COCHANGE then PairsIn(files, k) else 0
  {
    var files := Sort(commits[i].filesChanged, StrLe);
    StrOrder();
    SortIsSortedPermutation(commits[i].filesChanged, StrLe);
    assert commits[..i + 1] == commits[..i] + [commits[i]];
    CountAppend(commits[..i], [commits[i]], PairBudget());
    forall k ensures PairFrequency(commits[..i + 1], k)
        == PairFrequency(commits[..i], k) + if |files| <= MAX_FILES_FOR_COCHANGE then PairsIn(files, k) else 0
    {
      CountAppend(commits[..i], [commits[i]], ContributionTo(k));
      PairsInSorted(files, k);
    }
  }

  method ComputeCochangePairs(commits: seq<CommitRecord>) returns (rows: seq<CochangePair>)
    ensures forall k :: RowsFrequency(rows, k) == PairFrequency(commits, k)
    ensures forall i :: 0 <= i < |rows| ==> rows[i].frequency > 0
    ensures CountBy(rows, FrequencyOf()) == CountBy(commits, PairBudget())
  {
    var freq: map<Pair, nat> := map[];
    var i := 0;
    while i < |commits|
      invariant 0 <= i <= |commits|
      invariant NoZeros(freq)
      invariant forall k :: Get(freq, k) == PairFrequency(commits[..i], k)
      invariant MapTotal(freq) == CountBy(commits[..i], PairBudget())
    {
      FrequencyStep(commits, i);
      var files := Sort(commits[i].filesChanged, StrLe);
      if |files| <= MAX_FILES_FOR_COCHANGE {
        freq := CountPairs(files, freq);
      }
      i := i + 1;
    }
    assert commits[..i] == commits;
    rows := Items(freq);
  }

  // ---- _compute_file_signals ----

  /** sorted(set(files)) */
  function SortedSet(files: seq<string>): seq<string> {
    Sort(FirstSeen(files, {}), StrLe)
  }

  lemma SortedSetMembers(files: seq<string>)
    ensures Distinct(SortedSet(files)) && SortedBy(StrLe, SortedSet(files))
    ensures forall f :: f in SortedSet(files) <==> f in files
    ensures forall f :: multiset(SortedSet(files))[f] == if f in files then 1 else 0
  {
    var members, sorted := FirstSeen(files, {}), SortedSet(files);
    StrOrder();
    SortIsSortedPermutation(members, StrLe);
    FirstSeenMembers(files, {});
    forall f ensures multiset(sorted)[f] == if f in files then 1 else 0 {
      DistinctMultiplicity(members, f);
    }
    forall f ensures f in sorted <==> f in files {
      assert f in sorted <==> multiset(sorted)[f] > 0;
    }
    OnceIsDistinct(sorted);
  }

  lemma OnceIsDistinct<T>(s: seq<T>)
    requires forall x :: multiset(s)[x] <= 1
    ensures Distinct(s)
  {
    forall i, j | 0 <= i < j < |s| ensures s[i] != s[j] {
      assert s == s[..i] + [s[i]] + s[i + 1..j] + [s[j]] + s[j + 1..];
      assert multiset(s)
        == multiset(s[..i]) + multiset{s[i]} + multiset(s[i + 1..j]) + multiset{s[j]} + multiset(s[j + 1..]);
      assert multiset(s)[s[i]] <= 1;
    }
  }

  function TouchedFiles(): CommitRecord -> seq<string> {
    (c: CommitRecord) => SortedSet(c.filesChanged)
  }

  function Touching(f: string): CommitRecord -> nat {
    (c: CommitRecord) => if f in c.filesChanged then 1 else 0
  }

  /** In how many commits the file was changed. */
  function Touches(commits: seq<CommitRecord>, f: string): nat {
    CountBy(commits, Touching(f))
  }

  /** The churn of a file is the number of commits that list it, once or repeatedly. */
  lemma TouchesAre(commits: seq<CommitRecord>, f: string)
    ensures Touches(commits, f) == |CommitsListing(commits, f)|
  {
    CountIsNumber(commits, Touching(f));
    assert Ones(commits, Touching(f)) == CommitsListing(commits, f);
  }

  /** The touched files, in the insertion order of the churn dictionary. */
  function TouchOrder(commits: seq<CommitRecord>): seq<string> {
    FirstSeen(Collect(commits, TouchedFiles()), {})
  }

  /** max(churn.values(), default=1); every entry is at least 1. */
  function Peak(files: seq<string>, commits: seq<CommitRecord>): nat {
    if files == [] then 1
    else
      var rest := Peak(files[1..], commits);
      if Touches(commits, files[0]) > rest then Touches(commits, files[0]) else rest
  }

  function ChurnScore(ln: real -> real, count: nat, peak: nat): real
    requires LnLaws(ln) && peak >= 1
  {
    LnPositive(ln, (1 + peak) as real);
    ln((1 + count) as real) / ln((1 + peak) as real)
  }

  lemma LnGrows(ln: real -> real, x: real, y: real)
    requires LnLaws(ln) && 0.0 < x < y
    ensures ln(x) < ln(y)
  {
    hide Times;
    QuotientTimes(x, y);
    QuotientBelowOne(x, y);
    assert Positives(y, x / y);
  }

  /** The score is ln(1 + count) on the scale of ln(1 + peak): above 0, at most 1, and 1 for the peak alone. */
  lemma ChurnScoreIs(ln: real -> real, count: nat, peak: nat)
    requires LnLaws(ln) && 1 <= count <= peak
    ensures Times(ChurnScore(ln, count, peak), ln(1.0 + peak as real)) == ln(1.0 + count as real)
    ensures 0.0 < ChurnScore(ln, count, peak) <= 1.0
    ensures ChurnScore(ln, count, peak) == 1.0 <==> count == peak
  {
    var low, high := 1.0 + count as real, 1.0 + peak as real;
    assert (1 + count) as real == low && (1 + peak) as real == high;
    LnPositive(ln, low);
    LnPositive(ln, high);
    QuotientTimes(ln(low), ln(high));
    if count < peak {
      LnGrows(ln, low, high);
    }
    QuotientBounds(ln(low), ln(high));
  }

  // The in-memory co-change counts of the reader itself.

  function Together(f: string, g: string): CommitRecord -> nat {
    (c: CommitRecord) =>
      if f != g && f in c.filesChanged && g in c.filesChanged && |SortedSet(c.filesChanged)| <= MAX_FILES_FOR_COCHANGE
      then 1 else 0
  }

  ghost function FilesOf(commits: seq<CommitRecord>): set<string> {
    set c, f | c in commits && f in c.filesChanged :: f
  }

  ghost function InMemoryPartners(commits: seq<CommitRecord>, f: string): Partners {
    map g | g in FilesOf(commits) && CountBy(commits, Together(f, g)) > 0 :: CountBy(commits, Together(f, g))
  }

  type PartnerFreq = map<string, Partners>

  function Row(p: PartnerFreq, f: string): Partners {
    if f in p then p[f] else map[]
  }

  /** setdefault followed by an increment */
  function Bump(p: PartnerFreq, f: string, g: string): PartnerFreq {
    p[f := Increment(Row(p, f), g, 1)]
  }

  ghost predicate NoZeroRows(p: PartnerFreq) {
    forall f :: NoZeros(Row(p, f))
  }

  lemma BumpAdds(p: PartnerFreq, f: string, g: string)
    requires NoZeroRows(p)
    ensures NoZeroRows(Bump(p, f, g))
    ensures forall x, y :: Get(Row(Bump(p, f, g), x), y) == Get(Row(p, x), y) + if (x, y) == (f, g) then 1 else 0
  {
    IncrementAdds(Row(p, f), g, 1);
    forall x ensures Row(Bump(p, f, g), x) == if x == f then Increment(Row(p, f), g, 1) else Row(p, x) {
    }
  }

  method CountPartners(files: seq<string>, partner0: PartnerFreq) returns (partner: PartnerFreq)
    requires NoZeroRows(partner0)
    ensures NoZeroRows(partner)
    ensures forall x, y ::
      Get(Row(partner, x), y) == Get(Row(partner0, x), y) + PairsIn(files, (x, y)) + PairsIn(files, (y, x))
  {
    partner := partner0;
    var i := 0;
    while i < |files|
      invariant 0 <= i <= |files|
      invariant NoZeroRows(partner)
      invariant forall x, y ::
        Get(Row(partner, x), y) + PairsIn(files[i..], (x, y)) + PairsIn(files[i..], (y, x))
        == Get(Row(partner0, x), y) + PairsIn(files, (x, y)) + PairsIn(files, (y, x))
    {
      assert files[i..][0] == files[i] && files[i..][1..] == files[i + 1..];
      partner := CountPartnersWith(files[i], files[i + 1..], partner);
      i := i + 1;
    }
  }

  /** What the files `later` than `fa` add to the entry of `y` in the row of `x`. */
  ghost function Mirrored(fa: string, later: multiset<string>, x: string, y: string): nat {
    (if x == fa then later[y] else 0) + (if y == fa then later[x] else 0)
  }

  lemma MirroredAdd(fa: string, later: seq<string>, j: nat)
    requires j < |later|
    ensures forall x, y ::
      Mirrored(fa, multiset(later[..j + 1]), x, y)
      == Mirrored(fa, multiset(later[..j]), x, y) + Mirrored(fa, multiset{later[j]}, x, y)
  {
    assert later[..j + 1] == later[..j] + [later[j]];
  }

  lemma BumpBoth(p: PartnerFreq, fa: string, fb: string)
    requires NoZeroRows(p)
    ensures
      var p' := Bump(Bump(p, fa, fb), fb, fa);
      NoZeroRows(p') && forall x, y :: Get(Row(p', x), y) == Get(Row(p, x), y) + Mirrored(fa, multiset{fb}, x, y)
  {
    BumpAdds(p, fa, fb);
    BumpAdds(Bump(p, fa, fb), fb, fa);
  }

  method CountPartnersWith(fa: string, later: seq<string>, partner0: PartnerFreq) returns (partner: PartnerFreq)
    requires NoZeroRows(partner0)
    ensures NoZeroRows(partner)
    ensures forall x, y ::
      Get(Row(partner, x), y) == Get(Row(partner0, x), y) + Mirrored(fa, multiset(later), x, y)
  {
    partner := partner0;
    var j := 0;
    while j < |later|
      invariant 0 <= j <= |later|
      invariant NoZeroRows(partner)
      invariant forall x, y ::
        Get(Row(partner, x), y) == Get(Row(partner0, x), y) + Mirrored(fa, multiset(later[..j]), x, y)
    {
      var fb := later[j];
      MirroredAdd(fa, later, j);
      BumpBoth(partner, fa, fb);
      partner := Bump(partner, fa, fb);
      partner := Bump(partner, fb, fa);
      j := j + 1;
    }
    assert later[..j] == later;
  }

  /** In a list without repetition two different files meet in exactly one pair of positions. */
  lemma PairsInDistinct(files: seq<string>, x: string, y: string)
    requires Distinct(files) && SortedBy(StrLe, files)
    ensures PairsIn(files, (x, y)) + PairsIn(files, (y, x)) == if x != y && x in files && y in files then 1 else 0
  {
    PairsInSorted(files, (x, y));
    PairsInSorted(files, (y, x));
    DistinctMultiplicity(files, x);
    DistinctMultiplicity(files, y);
    StrTotal(x, y);
    var m := multiset(files);
    assert Product(m[x], m[y]) == if x in files && y in files then 1 else 0;
    assert Product(m[y], m[x]) == Product(m[x], m[y]);
  }

  /** `keys` are the keys of the dictionary. */
  ghost predicate Lists(keys: seq<string>, m: map<string, nat>) {
    forall f :: f in keys <==> f in m
  }

  ghost function SetOf(keys: seq<string>): set<string> {
    set f | f in keys
  }

  lemma NextKey(keys: seq<string>, f: string, rest: seq<string>)
    ensures keys + FirstSeen([f] + rest, SetOf(keys))
      == if f in keys then keys + FirstSeen(rest, SetOf(keys)) else keys + [f] + FirstSeen(rest, SetOf(keys + [f]))
  {
    assert ([f] + rest)[1..] == rest;
    assert SetOf(keys + [f]) == SetOf(keys) + {f};
  }

  /** One commit's increments. A new key goes to the end of the dictionary's order. */
  method CountChurn(files: seq<string>, churn0: map<string, nat>, keys0: seq<string>)
    returns (churn: map<string, nat>, keys: seq<string>)
    requires NoZeros(churn0) && Lists(keys0, churn0)
    ensures NoZeros(churn) && Lists(keys, churn)
    ensures forall f :: Get(churn, f) == Get(churn0, f) + multiset(files)[f]
    ensures keys == keys0 + FirstSeen(files, SetOf(keys0))
  {
    hide FirstSeen, SetOf, Lists;
    churn, keys := churn0, keys0;
    var i := 0;
    assert files[0..] == files;
    while i < |files|
      invariant 0 <= i <= |files|
      invariant NoZeros(churn) && Lists(keys, churn)
      invariant forall f :: Get(churn, f) == Get(churn0, f) + multiset(files[..i])[f]
      invariant keys + FirstSeen(files[i..], SetOf(keys)) == keys0 + FirstSeen(files, SetOf(keys0))
    {
      assert files[..i + 1] == files[..i] + [files[i]];
      assert files[i..] == [files[i]] + files[i + 1..];
      IncrementAdds(churn, files[i], 1);
      NextKey(keys, files[i], files[i + 1..]);
      KeyListed(keys, churn, files[i]);
      if files[i] !in churn {
        keys := keys + [files[i]];
      }
      churn := Increment(churn, files[i], 1);
      i := i + 1;
    }
    assert files[..i] == files;
    NoKeysLeft(keys, files[i..]);
  }

  lemma KeyListed(keys: seq<string>, m: map<string, nat>, f: string)
    requires Lists(keys, m)
    ensures f in keys <==> f in m
    ensures Lists(if f in m then keys else keys + [f], Increment(m, f, 1))
  {
  }

  lemma NoKeysLeft(keys: seq<string>, files: seq<string>)
    requires files == []
    ensures keys + FirstSeen(files, SetOf(keys)) == keys
  {
  }

  /** What commit i adds to the order of first touch. */
  lemma TouchOrderStep(commits: seq<CommitRecord>, i: nat)
    requires i < |commits|
    ensures TouchOrder(commits[..i + 1])
      == TouchOrder(commits[..i]) + FirstSeen(SortedSet(commits[i].filesChanged), SetOf(TouchOrder(commits[..i])))
  {
    var before, files := Collect(commits[..i], TouchedFiles()), SortedSet(commits[i].filesChanged);
    CollectStep(commits, i, TouchedFiles());
    FirstSeenAppend(before, files, {});
    FirstSeenMembers(before, {});
    assert SetOf(TouchOrder(commits[..i])) == {} + set f | f in before;
  }

  /** What commit i adds to the counts. */
  lemma SignalStep(commits: seq<CommitRecord>, i: nat)
    requires i < |commits|
    ensures
      var files := SortedSet(commits[i].filesChanged);
      && (forall f :: Touches(commits[..i + 1], f) == Touches(commits[..i], f) + multiset(files)[f])
      && (forall f, g :: CountBy(commits[..i + 1], Together(f, g)) == CountBy(commits[..i], Together(f, g))
           + if |files| <= MAX_FILES_FOR_COCHANGE then PairsIn(files, (f, g)) + PairsIn(files, (g, f)) else 0)
  {
    var c := commits[i];
    var files := SortedSet(c.filesChanged);
    SortedSetMembers(c.filesChanged);
    assert commits[..i + 1] == commits[..i] + [c];
    forall f ensures Touches(commits[..i + 1], f) == Touches(commits[..i], f) + multiset(files)[f] {
      CountAppend(commits[..i], [c], Touching(f));
    }
    forall f, g ensures CountBy(commits[..i + 1], Together(f, g)) == CountBy(commits[..i], Together(f, g))
           + if |files| <= MAX_FILES_FOR_COCHANGE then PairsIn(files, (f, g)) + PairsIn(files, (g, f)) else 0
    {
      CountAppend(commits[..i], [c], Together(f, g));
      PairsInDistinct(files, f, g);
    }
  }

  /** The two dictionaries of the source after all commits, and the order of the keys of the first. */
  method CountSignals(commits: seq<CommitRecord>)
    returns (churn: map<string, nat>, keys: seq<string>, partner: PartnerFreq)
    ensures NoZeros(churn) && NoZeroRows(partner)
    ensures Lists(keys, churn) && keys == TouchOrder(commits)
    ensures forall f :: Get(churn, f) == Touches(commits, f)
    ensures forall f, g :: Get(Row(partner, f), g) == CountBy(commits, Together(f, g))
  {
    hide TouchOrder, Touches, Lists, Together;
    churn, keys, partner := map[], [], map[];
    var i := 0;
    NothingTouched();
    assert commits[..0] == [];
    while i < |commits|
      invariant 0 <= i <= |commits|
      invariant NoZeros(churn) && NoZeroRows(partner)
      invariant Lists(keys, churn) && keys == TouchOrder(commits[..i])
      invariant forall f :: Get(churn, f) == Touches(commits[..i], f)
      invariant forall f, g :: Get(Row(partner, f), g) == CountBy(commits[..i], Together(f, g))
    {
      SignalStep(commits, i);
      TouchOrderStep(commits, i);
      var files := SortedSet(commits[i].filesChanged);
      churn, keys := CountChurn(files, churn, keys);
      if |files| <= MAX_FILES_FOR_COCHANGE {
        partner := CountPartners(files, partner);
      }
      i := i + 1;
    }
    assert commits[..i] == commits;
  }

  lemma NothingTouched()
    ensures TouchOrder([]) == [] && Lists([], map[])
    ensures forall f :: Touches([], f) == 0
    ensures forall f, g :: CountBy([], Together(f, g)) == 0
  {
  }

  lemma {:induction false} TouchesPositive(commits: seq<CommitRecord>, f: string)
    ensures Touches(commits, f) > 0 <==> f in Collect(commits, TouchedFiles())
    ensures Touches(commits, f) > 0 <==> exists i :: 0 <= i < |commits| && f in commits[i].filesChanged
  {
    if commits == [] {
    } else {
      TouchesPositive(commits[1..], f);
      SortedSetMembers(commits[0].filesChanged);
      if i :| 0 <= i < |commits[1..]| && f in commits[1..][i].filesChanged {
        assert f in commits[i + 1].filesChanged;
      }
      if i :| 0 <= i < |commits| && f in commits[i].filesChanged {
        assert i > 0 ==> f in commits[1..][i - 1].filesChanged;
      }
    }
  }

  lemma {:induction false} TogetherInFiles(commits: seq<CommitRecord>, f: string, g: string)
    requires CountBy(commits, Together(f, g)) > 0
    ensures g in FilesOf(commits)
  {
    if Together(f, g)(commits[0]) == 0 {
      TogetherInFiles(commits[1..], f, g);
      var c :| c in commits[1..] && g in c.filesChanged;
      assert c in commits;
    } else {
      assert commits[0] in commits;
    }
  }

  lemma InMemoryPartnersAre(commits: seq<CommitRecord>, f: string, row: Partners)
    requires NoZeros(row) && forall g :: Get(row, g) == CountBy(commits, Together(f, g))
    ensures row == InMemoryPartners(commits, f)
  {
    var expected := InMemoryPartners(commits, f);
    forall g ensures Get(row, g) == Get(expected, g) {
      if CountBy(commits, Together(f, g)) > 0 {
        TogetherInFiles(commits, f, g);
      }
    }
    CountsDetermineMap(row, expected);
  }

  ghost predicate IsSignalOf(ln: real -> real, classify: Classifier, commits: seq<CommitRecord>, f: string,
                             s: FileSignal)
    requires LnLaws(ln)
  {
    && s.filePath == f
    && s.churnCount == Touches(commits, f)
    && s.churnScore == ChurnScore(ln, s.churnCount, PeakOf(commits))
    && s.cochangeEntropy == CochangeEntropy(ln, classify, f, InMemoryPartners(commits, f))
    && s.generatedKind == classify(f)
  }

  function PeakOf(commits: seq<CommitRecord>): (r: nat)
    ensures r >= 1
  {
    PeakAtLeastOne(TouchOrder(commits), commits);
    Peak(TouchOrder(commits), commits)
  }

  lemma {:induction false} PeakAtLeastOne(files: seq<string>, commits: seq<CommitRecord>)
    ensures Peak(files, commits) >= 1
    ensures forall f :: f in files ==> Touches(commits, f) <= Peak(files, commits)
  {
    if files == [] {
    } else {
      PeakAtLeastOne(files[1..], commits);
    }
  }

  /** max(churn.values(), default=1) */
  method LargestCount(churn: map<string, nat>, keys: seq<string>) returns (peak: nat)
    requires Lists(keys, churn)
    ensures keys == [] ==> peak == 1
    ensures keys != [] ==> exists i :: 0 <= i < |keys| && Get(churn, keys[i]) == peak
    ensures forall i :: 0 <= i < |keys| ==> Get(churn, keys[i]) <= peak
  {
    if keys == [] {
      return 1;
    }
    peak := churn[keys[0]];
    var i := 1;
    while i < |keys|
      invariant 1 <= i <= |keys|
      invariant exists k :: 0 <= k < i && Get(churn, keys[k]) == peak
      invariant forall k :: 0 <= k < i ==> Get(churn, keys[k]) <= peak
    {
      if churn[keys[i]] > peak {
        peak := churn[keys[i]];
        assert Get(churn, keys[i]) == peak;
      }
      i := i + 1;
    }
  }

  lemma {:induction false} PeakAttained(files: seq<string>, commits: seq<CommitRecord>)
    ensures Peak(files, commits) == 1
      || exists i :: 0 <= i < |files| && Touches(commits, files[i]) == Peak(files, commits)
  {
    if files != [] && Peak(files, commits) == Peak(files[1..], commits) {
      PeakAttained(files[1..], commits);
      if i :| 0 <= i < |files[1..]| && Touches(commits, files[1..][i]) == Peak(files[1..], commits) {
        assert files[i + 1] == files[1..][i];
      }
    }
  }

  /** The largest count is the peak. */
  lemma LargestIsPeak(commits: seq<CommitRecord>, peak: nat)
    requires
      var keys := TouchOrder(commits);
      && (keys == [] ==> peak == 1)
      && (keys != [] ==> exists i :: 0 <= i < |keys| && Touches(commits, keys[i]) == peak)
      && (forall i :: 0 <= i < |keys| ==> Touches(commits, keys[i]) <= peak)
    ensures peak == PeakOf(commits)
  {
    var keys := TouchOrder(commits);
    PeakAtLeastOne(keys, commits);
    PeakAttained(keys, commits);
    hide Touches, Peak;
    if keys != [] {
      TouchedPositive(commits, 0);
      var i :| 0 <= i < |keys| && Touches(commits, keys[i]) == peak;
      assert keys[i] in keys;
    }
  }

  lemma TouchedPositive(commits: seq<CommitRecord>, i: nat)
    requires i < |TouchOrder(commits)|
    ensures Touches(commits, TouchOrder(commits)[i]) > 0
  {
    FirstSeenMembers(Collect(commits, TouchedFiles()), {});
    TouchesPositive(commits, TouchOrder(commits)[i]);
    assert TouchOrder(commits)[i] in TouchOrder(commits);
  }

  /** One signal per touched file, in the order in which the files were first touched. */
  method ComputeFileSignals(ln: real -> real, classify: Classifier, commits: seq<CommitRecord>)
    returns (signals: seq<FileSignal>)
    requires LnLaws(ln)
    ensures |signals| == |TouchOrder(commits)|
    ensures forall i :: 0 <= i < |signals| ==> IsSignalOf(ln, classify, commits, TouchOrder(commits)[i], signals[i])
  {
    hide CochangeEntropy, InMemoryPartners, Touches, TouchOrder, PeakOf, ChurnScore, CountBy;
    var churn, keys, partner := CountSignals(commits);
    var peak := LargestCount(churn, keys);
    LargestIsPeak(commits, peak);
    signals := [];
    var i := 0;
    while i < |keys|
      invariant 0 <= i <= |keys| && |signals| == i
      invariant forall k :: 0 <= k < i ==> IsSignalOf(ln, classify, commits, keys[k], signals[k])
    {
      var f := keys[i];
      InMemoryPartnersAre(commits, f, Row(partner, f));
      var entropy := CochangeEntropyForFile(ln, classify, f, Row(partner, f));
      signals := signals + [FileSignal(f, churn[f], ChurnScore(ln, churn[f], peak), entropy, classify(f))];
      i := i + 1;
    }
  }

  lemma SingleTouchOrder(c: CommitRecord)
    ensures TouchOrder([c]) == SortedSet(c.filesChanged)
    ensures forall f :: f in TouchOrder([c]) ==> Touches([c], f) == 1
  {
    CollectSingle(c, TouchedFiles());
    DistinctSortedSet(c.filesChanged);
    FirstSeenOfDistinct(SortedSet(c.filesChanged), {});
    forall f | f in TouchOrder([c]) ensures Touches([c], f) == 1 {
      SortedSetMembers(c.filesChanged);
      CountSingle(c, Touching(f));
    }
  }

  lemma DistinctSortedSet(files: seq<string>)
    ensures Distinct(SortedSet(files))
  {
    SortedSetMembers(files);
  }

  lemma ScoreOfOne(ln: real -> real)
    requires LnLaws(ln)
    ensures ChurnScore(ln, 1, 1) == 1.0
  {
    LnPositive(ln, 2.0);
    QuotientBounds(ln(2.0), ln(2.0));
    assert (1 + 1) as real == 2.0;
  }

  /** For a single commit every touched file counts once and scores log 2 / log 2. */
  lemma SingleCommitSignals(ln: real -> real, c: CommitRecord)
    requires LnLaws(ln)
    ensures TouchOrder([c]) == SortedSet(c.filesChanged)
    ensures forall f :: f in TouchOrder([c]) ==>
      Touches([c], f) == 1 && ChurnScore(ln, Touches([c], f), PeakOf([c])) == 1.0
  {
    SingleTouchOrder(c);
    PeakOfOnes(TouchOrder([c]), [c]);
    ScoreOfOne(ln);
  }

  lemma {:induction false} PeakOfOnes(files: seq<string>, commits: seq<CommitRecord>)
    requires forall f :: f in files ==> Touches(commits, f) == 1
    ensures Peak(files, commits) == 1
  {
    if files == [] {
    } else {
      assert files[0] in files && forall f :: f in files[1..] ==> f in files;
      PeakOfOnes(files[1..], commits);
    }
  }
}
