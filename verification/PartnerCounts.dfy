/** The stored partner counts against the ones the reader keeps in memory: they count positions and sets. */
module PartnerCounts {
  import opened Sums
  import opened Sorting
  import opened Signals
  import opened GitReader
  import opened History

  /** The file lists on which counting pairs of positions and pairs of distinct files is the same. */
  ghost predicate Tidy(c: CommitRecord) {
    if |c.filesChanged| <= MAX_FILES_FOR_COCHANGE then Distinct(c.filesChanged)
    else |SortedSet(c.filesChanged)| > MAX_FILES_FOR_COCHANGE || |SortedSet(c.filesChanged)| <= 1
  }

  ghost function Stored(f: string, g: string): CommitRecord -> nat {
    ContributionTo(OrderedPair(f, g))
  }

  lemma {:induction false} FirstSeenShorter<T>(s: seq<T>, seen: set<T>)
    ensures |FirstSeen(s, seen)| <= |s|
  {
    if s == [] {
    } else {
      FirstSeenShorter(s[1..], seen);
      FirstSeenShorter(s[1..], seen + {s[0]});
    }
  }

  lemma SortedSetShorter(files: seq<string>)
    ensures |SortedSet(files)| <= |files|
  {
    StrOrder();
    FirstSeenShorter(files, {});
    SortIsSortedPermutation(FirstSeen(files, {}), StrLe);
  }

  lemma TidyCountsAlike(c: CommitRecord, f: string, g: string)
    requires Tidy(c)
    ensures Stored(f, g)(c) == Together(f, g)(c)
  {
    var files := c.filesChanged;
    var k := OrderedPair(f, g);
    SortedSetMembers(files);
    if |files| <= MAX_FILES_FOR_COCHANGE {
      SortedSetShorter(files);
      DistinctMultiplicity(files, k.0);
      DistinctMultiplicity(files, k.1);
      StrTotal(f, g);
      var m := multiset(files);
      assert Product(m[k.0], m[k.1]) == if k.0 in files && k.1 in files then 1 else 0;
    } else if |SortedSet(files)| <= 1 && f in files && g in files {
      assert f in SortedSet(files) && g in SortedSet(files);
    }
  }

  /** A short list that names a file twice pairs the file with itself. */
  lemma RepeatedFile(c: CommitRecord) returns (f: string)
    requires |c.filesChanged| <= MAX_FILES_FOR_COCHANGE && !Distinct(c.filesChanged)
    ensures Stored(f, f)(c) > 0
  {
    var files := c.filesChanged;
    var i, j :| 0 <= i < j < |files| && files[i] == files[j];
    f := files[i];
    assert files == files[..i] + [f] + files[i + 1..j] + [f] + files[j + 1..];
    assert multiset(files)[f] >= 2;
  }

  /** A long list with few distinct files is skipped by the one and counted by the other. */
  lemma SkippedPair(c: CommitRecord) returns (f: string, g: string)
    requires |c.filesChanged| > MAX_FILES_FOR_COCHANGE && !Tidy(c)
    ensures Stored(f, g)(c) == 0 && Together(f, g)(c) == 1 && f != g
  {
    var files := SortedSet(c.filesChanged);
    SortedSetMembers(c.filesChanged);
    f, g := files[0], files[1];
    assert f in files && g in files;
  }

  lemma {:induction false} SelfNeverTogether(log: seq<CommitRecord>, f: string)
    ensures CountBy(log, Together(f, f)) == 0
  {
    if log == [] {
    } else {
      SelfNeverTogether(log[1..], f);
    }
  }

  lemma {:induction false} CountAtMost(log: seq<CommitRecord>, f: string, g: string, i: nat)
    requires forall c :: c in log ==> Stored(f, g)(c) <= Together(f, g)(c)
    ensures CountBy(log, Stored(f, g)) <= CountBy(log, Together(f, g))
    ensures i < |log| && Stored(f, g)(log[i]) < Together(f, g)(log[i]) ==>
      CountBy(log, Stored(f, g)) < CountBy(log, Together(f, g))
  {
    if log == [] {
    } else {
      assert log[0] in log && forall c :: c in log[1..] ==> c in log;
      CountAtMost(log[1..], f, g, if i == 0 then 0 else i - 1);
      assert i > 0 && i < |log| ==> log[1..][i - 1] == log[i];
    }
  }

  lemma {:induction false} CountAtLeastOne(log: seq<CommitRecord>, f: string, g: string, i: nat)
    requires i < |log| && Stored(f, g)(log[i]) > 0
    ensures CountBy(log, Stored(f, g)) > 0
  {
    if i > 0 {
      assert log[1..][i - 1] == log[i];
      CountAtLeastOne(log[1..], f, g, i - 1);
    }
  }

  ghost predicate CountAlikeFor(log: seq<CommitRecord>, f: string) {
    forall g :: CountBy(log, Stored(f, g)) == CountBy(log, Together(f, g))
  }

  ghost predicate CountAlike(log: seq<CommitRecord>) {
    forall f :: CountAlikeFor(log, f)
  }

  lemma CountAlikeIffTidy(log: seq<CommitRecord>)
    ensures CountAlike(log) <==> forall i :: 0 <= i < |log| ==> Tidy(log[i])
  {
    if forall i :: 0 <= i < |log| ==> Tidy(log[i]) {
      forall f, g ensures CountBy(log, Stored(f, g)) == CountBy(log, Together(f, g)) {
        forall c | c in log ensures Stored(f, g)(c) == Together(f, g)(c) {
          TidyCountsAlike(c, f, g);
        }
        CountAgrees(log, Stored(f, g), Together(f, g));
      }
    } else if i :| 0 <= i < |log| && |log[i].filesChanged| <= MAX_FILES_FOR_COCHANGE && !Distinct(log[i].filesChanged) {
      var f := RepeatedFile(log[i]);
      CountAtLeastOne(log, f, f, i);
      SelfNeverTogether(log, f);
      assert CountBy(log, Stored(f, f)) != CountBy(log, Together(f, f));
      assert !CountAlikeFor(log, f);
    } else {
      var i :| 0 <= i < |log| && !Tidy(log[i]);
      var f, g := SkippedPair(log[i]);
      forall c | c in log ensures Stored(f, g)(c) <= Together(f, g)(c) {
        var j :| 0 <= j < |log| && log[j] == c;
        assert |log[j].filesChanged| <= MAX_FILES_FOR_COCHANGE ==> Tidy(c);
        if Tidy(c) {
          TidyCountsAlike(c, f, g);
        }
      }
      CountAtMost(log, f, g, i);
      assert CountBy(log, Stored(f, g)) != CountBy(log, Together(f, g));
      assert !CountAlikeFor(log, f);
    }
  }

  /** The stored partner frequencies are the in-memory ones exactly when every file list is tidy. */
  lemma InMemoryAgreesIff(pairs: map<Pair, nat>, log: seq<CommitRecord>)
    requires PairsReflect(pairs, log)
    ensures (forall f :: PartnersIn(pairs, f) == InMemoryPartners(log, f))
        <==> forall i :: 0 <= i < |log| ==> Tidy(log[i])
  {
    forall f ensures PartnersIn(pairs, f) == InMemoryPartners(log, f) <==> CountAlikeFor(log, f) {
      OneFileAgreesIff(pairs, log, f);
    }
    CountAlikeIffTidy(log);
  }

  lemma OneFileAgreesIff(pairs: map<Pair, nat>, log: seq<CommitRecord>, f: string)
    requires PairsReflect(pairs, log)
    ensures PartnersIn(pairs, f) == InMemoryPartners(log, f)
        <==> CountAlikeFor(log, f)
  {
    PartnersReflect(pairs, log, f);
    CouplingIs(log, f);
    var stored, kept := Coupling(log, f), InMemoryPartners(log, f);
    forall g ensures Get(kept, g) == CountBy(log, Together(f, g)) {
      if CountBy(log, Together(f, g)) > 0 {
        TogetherInFiles(log, f, g);
      }
    }
    if CountAlikeFor(log, f) {
      forall g ensures Get(stored, g) == Get(kept, g) {
        assert CountBy(log, Stored(f, g)) == CountBy(log, Together(f, g));
      }
      CountsDetermineMap(stored, kept);
    }
    if stored == kept {
      forall g ensures CountBy(log, Stored(f, g)) == CountBy(log, Together(f, g)) {
        assert Get(stored, g) == Get(kept, g);
      }
    }
  }
}
