/** src/chips/compiler/builder.py, governor.py and the memory branch of ranker.py: what learning may change
    in a brief, and what it may not. */
module Retrieval {
  import opened Signals
  import opened Sums
  import opened Sorting
  import opened Learning

  /** The fields of a memory dictionary that are read here. */
  datatype View = View(id: string, similarity: Option<real>, confidence: Option<real>, learned: Option<real>)

  class Memory {
    var id: string
    var similarity: Option<real>
    var confidence: Option<real>
    var learned: Option<real>

    constructor (id: string, similarity: Option<real>, confidence: Option<real>)
      ensures this.id == id && this.similarity == similarity && this.confidence == confidence && learned == None
    {
      this.id := id;
      this.similarity := similarity;
      this.confidence := confidence;
      learned := None;
    }

    function Now(): View
      reads this
    {
      View(id, similarity, confidence, learned)
    }
  }

  function Views(memories: seq<Memory>): (r: seq<View>)
    reads memories
    ensures |r| == |memories| && forall i :: 0 <= i < |r| ==> r[i] == memories[i].Now()
  {
    if memories == [] then [] else [memories[0].Now()] + Views(memories[1..])
  }

  function Or(o: Option<real>, default: real): real {
    match o case None => default case Some(x) => x
  }

  /** Similarity if there is one, else confidence. */
  function Semantic(v: View): real {
    if v.similarity.Some? then v.similarity.value else Or(v.confidence, 0.0)
  }

  // ---- ranker.py ----

  function MemoryScore(v: View): real {
    MinReal(MaxReal(Semantic(v) + Or(v.learned, 0.0), 0.0), 1.0)
  }

  datatype RankedSignal = RankedSignal(itemId: string, itemType: string, score: real)

  function RankedMemories(views: seq<View>): seq<RankedSignal> {
    if views == [] then []
    else [RankedSignal(views[0].id, "memory", MemoryScore(views[0]))] + RankedMemories(views[1..])
  }

  predicate ScoreGe(a: RankedSignal, b: RankedSignal) {
    a.score >= b.score
  }

  /** Memories first, then files and diffs as scored elsewhere; sorted with the highest score first. */
  function RankSignals(views: seq<View>, others: seq<RankedSignal>): seq<RankedSignal> {
    Sort(RankedMemories(views) + others, ScoreGe)
  }

  // ---- governor.py ----

  datatype GovernorDecision = GovernorDecision(triggered: bool, meanConfidence: real, itemCount: nat,
                                               skipped: seq<string>)

  function SemanticOf(): View -> real {
    (v: View) => Semantic(v)
  }

  function Mean(views: seq<View>): real
    requires views != []
  {
    SumBy(views, SemanticOf()) / |views| as real
  }

  function Evaluate(views: seq<View>, threshold: real, minItems: int): GovernorDecision {
    if views == [] then GovernorDecision(false, 0.0, 0, [])
    else
      var triggered := |views| >= minItems && Mean(views) >= threshold;
      GovernorDecision(triggered, Mean(views), |views|, if triggered then ["diffs", "file_signals"] else [])
  }

  // ---- builder.py ----

  /** Two views that differ at most in what was learned. */
  predicate SameBeforeLearning(a: View, b: View) {
    a.(learned := None) == b.(learned := None)
  }

  /** What is stored for the memory under the tenant. */
  function LearnedFor(scores: Scores, tenant: Option<string>, id: string): Option<real> {
    var key := (id, match tenant case None => "" case Some(t) => t);
    if key in scores then Some(scores[key].adjustment) else None
  }

  lemma LoadedFor(scores: Scores, tenant: Option<string>)
    ensures forall id ::
      var loaded := Adjustments(scores, TenantKey(tenant));
      (if id in loaded then loaded[id] else 0.0) == Or(LearnedFor(scores, tenant, id), 0.0)
  {
    forall id: string {
      AdjustmentAt(scores, TenantKey(tenant), id);
    }
  }

  method ApplyLearningAdjustments(memories: seq<Memory>, adjustments: map<string, real>)
    modifies memories
    ensures forall i :: 0 <= i < |memories| ==>
      && SameBeforeLearning(memories[i].Now(), old(memories[i].Now()))
      && memories[i].learned == Some(if memories[i].id in adjustments then adjustments[memories[i].id] else 0.0)
  {
    var i := 0;
    while i < |memories|
      invariant 0 <= i <= |memories|
      invariant forall j :: 0 <= j < |memories| ==> SameBeforeLearning(memories[j].Now(), old(memories[j].Now()))
      invariant forall j :: 0 <= j < i ==>
        memories[j].learned == Some(if memories[j].id in adjustments then adjustments[memories[j].id] else 0.0)
    {
      var m := memories[i];
      m.learned := Some(if m.id in adjustments then adjustments[m.id] else 0.0);
      i := i + 1;
    }
  }

  /** The retrieval stage: load the learned adjustments, attach them, let the governor decide.
      The decision is the one it would have taken without them, and no memory's score moves by more than a half. */
  method Retrieve(service: BriefLearningService, memories: seq<Memory>, tenant: Option<string>, threshold: real,
                  minItems: int)
    returns (decision: GovernorDecision)
    requires service.Valid()
    modifies memories
    ensures decision == Evaluate(old(Views(memories)), threshold, minItems)
    ensures forall i :: 0 <= i < |memories| ==>
      && SameBeforeLearning(memories[i].Now(), old(memories[i].Now()))
      && memories[i].learned == Some(Or(LearnedFor(service.scores, tenant, memories[i].id), 0.0))
      && -0.5 <= MemoryScore(memories[i].Now()) - MemoryScore(old(memories[i].Now()).(learned := None)) <= 0.5
  {
    var adjustments := service.LoadAdjustments(tenant);
    LoadedFor(service.scores, tenant);
    hide MemoryScore, LearnedFor, Or, Evaluate, Views, Adjustments, SameBeforeLearning, TenantKey;
    ghost var was := Views(memories);
    ApplyLearningAdjustments(memories, adjustments);
    ghost var now := Views(memories);
    assert forall i :: 0 <= i < |now| ==> SameBeforeLearning(was[i], now[i]);
    LearningNeverDecides(was, now, threshold, minItems);
    decision := Evaluate(Views(memories), threshold, minItems);
    forall i | 0 <= i < |memories|
      ensures -0.5 <= MemoryScore(memories[i].Now()) - MemoryScore(was[i].(learned := None)) <= 0.5
    {
      ScoreMoves(was[i], now[i]);
    }
  }

  lemma ScoreMoves(was: View, now: View)
    requires SameBeforeLearning(was, now) && now.learned.Some? && -0.5 <= now.learned.value <= 0.5
    ensures -0.5 <= MemoryScore(now) - MemoryScore(was.(learned := None)) <= 0.5
  {
    LearningMovesLittle(now, 0.5);
  }

  lemma {:induction false} SameSums(a: seq<View>, b: seq<View>)
    requires |a| == |b| && forall i :: 0 <= i < |a| ==> SameBeforeLearning(a[i], b[i])
    ensures SumBy(a, SemanticOf()) == SumBy(b, SemanticOf())
  {
    if a != [] {
      assert forall i :: 0 <= i < |a[1..]| ==> a[1..][i] == a[i + 1] && b[1..][i] == b[i + 1];
      assert SameBeforeLearning(a[0], b[0]);
      SameSums(a[1..], b[1..]);
    }
  }

  /** Whatever was learned, the governor decides the same. */
  lemma LearningNeverDecides(a: seq<View>, b: seq<View>, threshold: real, minItems: int)
    requires |a| == |b| && forall i :: 0 <= i < |a| ==> SameBeforeLearning(a[i], b[i])
    ensures Evaluate(a, threshold, minItems) == Evaluate(b, threshold, minItems)
  {
    SameSums(a, b);
  }

  /** An adjustment within a bound moves a score by no more than the bound. */
  lemma LearningMovesLittle(v: View, bound: real)
    requires -bound <= Or(v.learned, 0.0) <= bound
    ensures -bound <= MemoryScore(v) - MemoryScore(v.(learned := None)) <= bound
    ensures 0.0 <= MemoryScore(v) <= 1.0
    ensures 0.0 <= Semantic(v) <= 1.0 ==> MemoryScore(v.(learned := None)) == Semantic(v)
  {
  }

  /** Of two adjustments the higher gives the higher score, or an equal one at the ends of the scale. */
  lemma LearningOrders(a: View, b: View)
    requires SameBeforeLearning(a, b) && Or(a.learned, 0.0) <= Or(b.learned, 0.0)
    ensures MemoryScore(a) <= MemoryScore(b)
    ensures MemoryScore(a) == MemoryScore(b) <==>
      Or(a.learned, 0.0) == Or(b.learned, 0.0) || MemoryScore(b) == 0.0 || MemoryScore(a) == 1.0
  {
    assert Semantic(a) == Semantic(b);
  }

  /** A memory's grade before learning: its similarity, if it has none its confidence, and failing both 0. */
  function Grade(): View -> real {
    (v: View) =>
      match v.similarity
      case Some(s) => s
      case None => match v.confidence case Some(c) => c case None => 0.0
  }

  /** Every memory is ranked under its id with its grade and what was learned, brought between 0 and 1. */
  lemma {:induction false} MemoriesRanked(views: seq<View>)
    ensures |RankedMemories(views)| == |views|
    ensures forall i :: 0 <= i < |views| ==>
      var r := RankedMemories(views)[i];
      var sum := Grade()(views[i]) + match views[i].learned case Some(x) => x case None => 0.0;
      && r.itemId == views[i].id && r.itemType == "memory"
      && r.score == if sum < 0.0 then 0.0 else if sum > 1.0 then 1.0 else sum
  {
    if views != [] {
      MemoriesRanked(views[1..]);
    }
  }

  /** The governor reads the same grades: it triggers exactly when there are enough memories, at least one, and their
      mean grade is at or above the threshold; then both other sources are skipped, and otherwise none. */
  lemma GovernorReads(views: seq<View>, threshold: real, minItems: int)
    ensures
      var d := Evaluate(views, threshold, minItems);
      && d.itemCount == |views|
      && Times(d.meanConfidence, |views| as real) == SumBy(views, Grade()) && (views == [] ==> d.meanConfidence == 0.0)
      && (d.triggered <==> |views| >= 1 && |views| >= minItems && d.meanConfidence >= threshold)
      && (d.triggered ==> d.skipped == ["diffs", "file_signals"]) && (!d.triggered ==> d.skipped == [])
  {
    SumAgrees(views, SemanticOf(), Grade());
    if views != [] {
      QuotientTimes(SumBy(views, SemanticOf()), |views| as real);
      TimesCommutes(Mean(views), |views| as real);
      hide Times, SumBy;
      assert Mean(views) == SumBy(views, SemanticOf()) / |views| as real;
    }
  }

  lemma TimesCommutes(a: real, b: real)
    ensures Times(a, b) == Times(b, a)
  {
  }

  /** The governor triggers exactly with enough memories, at least one, whose similarities add up to the threshold
      for each; and only then are sources skipped. */
  lemma GovernorTriggersIff(views: seq<View>, threshold: real, minItems: int)
    ensures Evaluate(views, threshold, minItems).triggered <==>
      views != [] && |views| >= minItems && SumBy(views, SemanticOf()) >= Times(threshold, |views| as real)
    ensures Evaluate(views, threshold, minItems).triggered <==> Evaluate(views, threshold, minItems).skipped != []
  {
    if views != [] {
      MeanIff(views, threshold);
    }
  }

  /** The governor's verdict does not depend on the order of the memories. */
  lemma GovernorOrderFree(a: seq<View>, b: seq<View>, threshold: real, minItems: int)
    requires multiset(a) == multiset(b)
    ensures Evaluate(a, threshold, minItems) == Evaluate(b, threshold, minItems)
  {
    SumPermutation(a, b, SemanticOf());
    assert |multiset(a)| == |a| && |multiset(b)| == |b|;
  }

  /** Once triggered, one more memory leaves it triggered exactly when the new sum of similarities still
      reaches the threshold a memory; a memory at or above the threshold always does. */
  lemma OneMoreMemory(views: seq<View>, v: View, threshold: real, minItems: int)
    requires Evaluate(views, threshold, minItems).triggered
    ensures Evaluate(views + [v], threshold, minItems).triggered <==>
      Semantic(v) >= threshold - (SumBy(views, SemanticOf()) - Times(threshold, |views| as real))
    ensures Semantic(v) >= threshold ==> Evaluate(views + [v], threshold, minItems).triggered
  {
    hide Mean, Semantic, SumBy, Times;
    SumAppend(views, [v], SemanticOf());
    assert SumBy([v], SemanticOf()) == Semantic(v) by { OneSum(v); }
    MeanIff(views, threshold);
    MeanIff(views + [v], threshold);
    OneMore(threshold, |views|);
  }

  lemma OneSum(v: View)
    ensures SumBy([v], SemanticOf()) == Semantic(v)
  {
  }

  lemma OneMore(t: real, n: nat)
    ensures Times(t, (n + 1) as real) == Times(t, n as real) + t
  {
  }

  lemma MeanIff(views: seq<View>, threshold: real)
    requires views != []
    ensures Mean(views) >= threshold <==> SumBy(views, SemanticOf()) >= Times(threshold, |views| as real)
  {
    var sum, n := SumBy(views, SemanticOf()), |views| as real;
    assert sum == Mean(views) * n;
    if Mean(views) >= threshold {
      assert (Mean(views) - threshold) * n >= 0.0;
    } else {
      assert (threshold - Mean(views)) * n > 0.0;
    }
  }

  /** The ranking lists every memory and every other signal once, highest score first, equal scores in the
      order they came in. */
  lemma RankingIs(views: seq<View>, others: seq<RankedSignal>)
    ensures forall i, j :: 0 <= i < j < |RankSignals(views, others)| ==>
      RankSignals(views, others)[i].score >= RankSignals(views, others)[j].score
    ensures multiset(RankSignals(views, others)) == multiset(RankedMemories(views)) + multiset(others)
    ensures forall x: real ::
      Collect(RankSignals(views, others), Scoring(x)) == Collect(RankedMemories(views) + others, Scoring(x))
  {
    var all := RankedMemories(views) + others;
    SortIsSortedPermutation(all, ScoreGe);
    forall x: real ensures Collect(RankSignals(views, others), Scoring(x)) == Collect(all, Scoring(x)) {
      SortIsStable(all, x);
    }
  }

  /** Picks out the signals of one score. */
  function Scoring(x: real): RankedSignal -> seq<RankedSignal> {
    (s: RankedSignal) => if s.score == x then [s] else []
  }

  lemma {:induction false} InsertIsStable(s: RankedSignal, rest: seq<RankedSignal>, x: real)
    requires SortedBy(ScoreGe, rest)
    ensures Collect(InsertInOrder(s, rest, ScoreGe), Scoring(x)) == Scoring(x)(s) + Collect(rest, Scoring(x))
  {
    if rest == [] || ScoreGe(s, rest[0]) {
      assert ([s] + rest)[1..] == rest;
    } else {
      InsertIsStable(s, rest[1..], x);
      var out := InsertInOrder(s, rest[1..], ScoreGe);
      assert InsertInOrder(s, rest, ScoreGe) == [rest[0]] + out && ([rest[0]] + out)[1..] == out;
      if rest[0].score == x {
        assert Scoring(x)(s) == [];
      }
    }
  }

  lemma {:induction false} SortIsStable(all: seq<RankedSignal>, x: real)
    ensures Collect(Sort(all, ScoreGe), Scoring(x)) == Collect(all, Scoring(x))
  {
    if all != [] {
      SortIsStable(all[1..], x);
      SortIsSortedPermutation(all[1..], ScoreGe);
      InsertIsStable(all[0], Sort(all[1..], ScoreGe), x);
    }
  }
}
