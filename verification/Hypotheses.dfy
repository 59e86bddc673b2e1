/** src/chips/compiler/hypothesis.py: scoring and ranking of bug hypotheses against a brief's evidence. */
module Hypotheses {
  import opened Signals
  import opened Sorting
  import opened Sums
  import opened Constraints

  datatype EvidenceKind = Constraint | Memory | Diff | Finding | StructuralItem | Workflow | Rule | Span

  datatype EvidenceItem = EvidenceItem(
    evidenceId: string, kind: EvidenceKind, weight: real, constraintKind: Option<Kind>, target: map<string, string>)

  datatype EvidenceBundle = EvidenceBundle(constraints: seq<EvidenceItem>, evidence: seq<EvidenceItem>)

  datatype Hypothesis = Hypothesis(
    hypothesisId: string, cited: seq<string>, touchedPaths: seq<string>, touchedSymbols: seq<string>,
    declared: seq<string>, rankHint: Option<real>)

  datatype Weights = Weights(cov: real, con: real, div: real, prox: real)

  const DEFAULT_WEIGHTS := Weights(1.0, 2.0, 0.25, 0.0)

  datatype ViolationKind = UnknownEvidenceId | DeclaredViolationNotConstraint

  datatype Violation = Violation(hypothesisId: string, kind: ViolationKind, detail: string)

  datatype Scored = Scored(
    hypothesisId: string, score: real, coverage: real, contradiction: nat, corroboration: nat,
    proximity: real, uniqueKinds: nat, violations: seq<Violation>)

  // ---- models.py: lookups ----

  function FirstById(items: seq<EvidenceItem>, id: string): (r: Option<EvidenceItem>)
    ensures r.Some? ==> r.value in items && r.value.evidenceId == id
    ensures r.None? ==> forall i :: 0 <= i < |items| ==> items[i].evidenceId != id
  {
    if items == [] then None
    else if items[0].evidenceId == id then Some(items[0])
    else FirstById(items[1..], id)
  }

  function ById(b: EvidenceBundle, id: string): Option<EvidenceItem> {
    FirstById(b.constraints + b.evidence, id)
  }

  function ConstraintById(b: EvidenceBundle, id: string): Option<EvidenceItem> {
    FirstById(b.constraints, id)
  }

  /** A lookup finds the first item with the id, the constraints before the other evidence. */
  lemma {:induction false} FirstIsFound(items: seq<EvidenceItem>, i: nat)
    requires i < |items| && forall j :: 0 <= j < i ==> items[j].evidenceId != items[i].evidenceId
    ensures FirstById(items, items[i].evidenceId) == Some(items[i])
  {
    if i > 0 {
      assert forall j :: 0 <= j < i - 1 ==> items[1..][j] == items[j + 1];
      FirstIsFound(items[1..], i - 1);
    }
  }

  lemma LookupOrder(b: EvidenceBundle, id: string)
    ensures ConstraintById(b, id) != None ==> ById(b, id) == ConstraintById(b, id)
    ensures ConstraintById(b, id) == None ==> ById(b, id) == FirstById(b.evidence, id)
  {
    FirstOfBoth(b.constraints, b.evidence, id);
  }

  lemma {:induction false} FirstOfBoth(a: seq<EvidenceItem>, b: seq<EvidenceItem>, id: string)
    ensures FirstById(a + b, id) == if FirstById(a, id) != None then FirstById(a, id) else FirstById(b, id)
  {
    if a == [] {
      assert a + b == b;
    } else {
      assert (a + b)[1..] == a[1..] + b;
      FirstOfBoth(a[1..], b, id);
    }
  }

  // ---- The cited items ----

  function Resolve(b: EvidenceBundle): string -> seq<EvidenceItem> {
    id => match ById(b, id) case Some(item) => [item] case None => []
  }

  function UniqueItems(h: Hypothesis, b: EvidenceBundle): seq<EvidenceItem> {
    Collect(FirstSeen(h.cited, {}), Resolve(b))
  }

  method UniqueValidItems(h: Hypothesis, b: EvidenceBundle) returns (items: seq<EvidenceItem>)
    ensures items == UniqueItems(h, b)
  {
    var seen: map<string, EvidenceItem> := map[];
    items := [];
    var i := 0;
    while i < |h.cited|
      invariant 0 <= i <= |h.cited|
      invariant items == Collect(FirstSeen(h.cited[..i], {}), Resolve(b))
      invariant forall id :: id in seen <==> id in h.cited[..i] && ById(b, id).Some?
    {
      var id := h.cited[i];
      NextCited(h.cited, i, Resolve(b));
      if id !in seen {
        var item := ById(b, id);
        if item.Some? {
          seen := seen[id := item.value];
          items := items + [item.value];
        }
      }
      i := i + 1;
    }
    assert h.cited[..i] == h.cited;
  }

  lemma NextCited<R>(cited: seq<string>, i: nat, f: string -> seq<R>)
    requires i < |cited|
    ensures cited[..i + 1] == cited[..i] + [cited[i]]
    ensures Collect(FirstSeen(cited[..i + 1], {}), f)
      == Collect(FirstSeen(cited[..i], {}), f) + (if cited[i] in cited[..i] then [] else f(cited[i]))
  {
    assert cited[..i + 1] == cited[..i] + [cited[i]];
    FirstSeenAppend(cited[..i], [cited[i]], {});
    var seen := {} + set x | x in cited[..i];
    assert FirstSeen([cited[i]], seen) == if cited[i] in cited[..i] then [] else [cited[i]];
    CollectAppend(FirstSeen(cited[..i], {}), FirstSeen([cited[i]], seen), f);
    CollectSingle(cited[i], f);
    CollectNone(f);
  }

  // ---- Coverage, corroboration, contradiction ----

  function Weight(): EvidenceItem -> real {
    (item: EvidenceItem) => item.weight
  }

  function Coverage(h: Hypothesis, b: EvidenceBundle): real {
    SumBy(UniqueItems(h, b), Weight())
  }

  function Kinds(items: seq<EvidenceItem>): set<EvidenceKind> {
    set item | item in items :: item.kind
  }

  function Max(a: int, b: int): int {
    if a >= b then a else b
  }

  predicate Hits(c: EvidenceItem, key: string, touched: seq<string>) {
    key in c.target && c.target[key] != "" && c.target[key] in touched
  }

  predicate IsHard(c: EvidenceItem) {
    c.constraintKind == Some(Forbidden) || c.constraintKind == Some(Invariant)
  }

  predicate IsContradicted(h: Hypothesis, c: EvidenceItem) {
    IsHard(c) && (c.evidenceId in h.declared || Hits(c, "symbol", h.touchedSymbols) || Hits(c, "path", h.touchedPaths))
  }

  function Contradicted(h: Hypothesis): EvidenceItem -> nat {
    (c: EvidenceItem) => if IsContradicted(h, c) then 1 else 0
  }

  function Contradictions(h: Hypothesis, b: EvidenceBundle): nat {
    CountBy(b.constraints, Contradicted(h))
  }

  method Contradiction(h: Hypothesis, b: EvidenceBundle) returns (count: nat)
    ensures count == Contradictions(h, b)
  {
    count := 0;
    var i := 0;
    while i < |b.constraints|
      invariant 0 <= i <= |b.constraints|
      invariant count == CountBy(b.constraints[..i], Contradicted(h))
    {
      var c := b.constraints[i];
      assert b.constraints[..i + 1] == b.constraints[..i] + [c];
      CountAppend(b.constraints[..i], [c], Contradicted(h));
      CountSingle(c, Contradicted(h));
      i := i + 1;
      if !IsHard(c) {
        continue;
      }
      if c.evidenceId in h.declared || Hits(c, "symbol", h.touchedSymbols) || Hits(c, "path", h.touchedPaths) {
        count := count + 1;
      }
    }
    assert b.constraints[..i] == b.constraints;
  }

  /** The constraints a hypothesis contradicts: hard ones that it declares violated, or whose target path or symbol it
      touches. */
  ghost function ContradictedAt(h: Hypothesis, b: EvidenceBundle): set<int> {
    set i | 0 <= i < |b.constraints|
            && b.constraints[i].constraintKind in {Some(Forbidden), Some(Invariant)}
            && (|| b.constraints[i].evidenceId in h.declared
                || (exists p :: p in h.touchedPaths && Targets(b.constraints[i], "path", p))
                || (exists s :: s in h.touchedSymbols && Targets(b.constraints[i], "symbol", s)))
  }

  predicate Targets(c: EvidenceItem, key: string, name: string) {
    name != "" && key in c.target && c.target[key] == name
  }

  /** The contradiction is their number. */
  lemma ContradictionsAre(h: Hypothesis, b: EvidenceBundle)
    ensures Contradictions(h, b) == |ContradictedAt(h, b)|
  {
    CountIsNumber(b.constraints, Contradicted(h));
    forall i | 0 <= i < |b.constraints| ensures Contradicted(h)(b.constraints[i]) == 1 <==> i in ContradictedAt(h, b) {
      HitsIff(b.constraints[i], "path", h.touchedPaths);
      HitsIff(b.constraints[i], "symbol", h.touchedSymbols);
    }
    assert Ones(b.constraints, Contradicted(h)) == ContradictedAt(h, b);
  }

  lemma HitsIff(c: EvidenceItem, key: string, touched: seq<string>)
    ensures Hits(c, key, touched) <==> exists name :: name in touched && Targets(c, key, name)
  {
    if Hits(c, key, touched) {
      assert Targets(c, key, c.target[key]);
    }
  }

  /** A hard constraint on one path counts exactly when that path is touched; one on a symbol exactly when that symbol
      is; and a declared one always. */
  lemma OneConstraint(h: Hypothesis, c: EvidenceItem, evidence: seq<EvidenceItem>, name: string)
    requires c.constraintKind == Some(Forbidden) || c.constraintKind == Some(Invariant)
    ensures
      var count := Contradictions(h, EvidenceBundle([c], evidence));
      && (c.evidenceId in h.declared ==> count == 1)
      && (c.evidenceId !in h.declared && c.target == map["path" := name] && name != "" ==>
            count == if name in h.touchedPaths then 1 else 0)
      && (c.evidenceId !in h.declared && c.target == map["symbol" := name] && name != "" ==>
            count == if name in h.touchedSymbols then 1 else 0)
  {
    CountSingle(c, Contradicted(h));
  }

  // ---- Violations of the citation contract ----

  function Unknown(h: Hypothesis, b: EvidenceBundle): string -> seq<Violation> {
    id => if ById(b, id) == None then [Violation(h.hypothesisId, UnknownEvidenceId, id)] else []
  }

  function NotConstraint(h: Hypothesis, b: EvidenceBundle): string -> seq<Violation> {
    id => if ConstraintById(b, id) == None then [Violation(h.hypothesisId, DeclaredViolationNotConstraint, id)] else []
  }

  function Violations(h: Hypothesis, b: EvidenceBundle): seq<Violation> {
    Collect(FirstSeen(h.cited, {}), Unknown(h, b)) + Collect(FirstSeen(h.declared, {}), NotConstraint(h, b))
  }

  method ValidateHypothesis(h: Hypothesis, b: EvidenceBundle) returns (violations: seq<Violation>)
    ensures violations == Violations(h, b)
  {
    violations := [];
    var cited, declared := FirstSeen(h.cited, {}), FirstSeen(h.declared, {});
    var i := 0;
    while i < |cited|
      invariant 0 <= i <= |cited|
      invariant violations == Collect(cited[..i], Unknown(h, b))
    {
      CollectStep(cited, i, Unknown(h, b));
      if ById(b, cited[i]) == None {
        violations := violations + [Violation(h.hypothesisId, UnknownEvidenceId, cited[i])];
      }
      i := i + 1;
    }
    assert cited[..i] == cited;
    var j := 0;
    while j < |declared|
      invariant 0 <= j <= |declared|
      invariant violations == Collect(cited, Unknown(h, b)) + Collect(declared[..j], NotConstraint(h, b))
    {
      CollectStep(declared, j, NotConstraint(h, b));
      Extended(Collect(cited, Unknown(h, b)), Collect(declared[..j], NotConstraint(h, b)),
        NotConstraint(h, b)(declared[j]));
      if ConstraintById(b, declared[j]) == None {
        violations := violations + [Violation(h.hypothesisId, DeclaredViolationNotConstraint, declared[j])];
      } else {
        assert violations + [] == violations;
      }
      j := j + 1;
    }
    assert declared[..j] == declared;
  }

  /** What is listed as violated: cited ids that no item has, and declared ids that no constraint has, each once. */
  lemma ViolationsAre(h: Hypothesis, b: EvidenceBundle, v: Violation)
    ensures v in Violations(h, b) <==>
      && v.hypothesisId == h.hypothesisId
      && match v.kind
         case UnknownEvidenceId =>
           && v.detail in h.cited
           && (forall i :: 0 <= i < |b.constraints| ==> b.constraints[i].evidenceId != v.detail)
           && (forall i :: 0 <= i < |b.evidence| ==> b.evidence[i].evidenceId != v.detail)
         case DeclaredViolationNotConstraint =>
           && v.detail in h.declared
           && (forall i :: 0 <= i < |b.constraints| ==> b.constraints[i].evidenceId != v.detail)
    ensures multiset(Violations(h, b))[v] <= 1
  {
    hide FirstById, Collect, FirstSeen;
    var cited, declared := FirstSeen(h.cited, {}), FirstSeen(h.declared, {});
    FirstSeenMembers(h.cited, {});
    FirstSeenMembers(h.declared, {});
    ReportedOnce(cited, Unknown(h, b), v);
    ReportedOnce(declared, NotConstraint(h, b), v);
    FoundIff(b.constraints, v.detail);
    FoundIff(b.evidence, v.detail);
    FirstOfBoth(b.constraints, b.evidence, v.detail);
    assert v in Violations(h, b) <==> multiset(Violations(h, b))[v] > 0;
  }

  lemma {:induction false} FoundIff(items: seq<EvidenceItem>, id: string)
    ensures FirstById(items, id) == None <==> forall i :: 0 <= i < |items| ==> items[i].evidenceId != id
  {
    if items != [] {
      FoundIff(items[1..], id);
      assert forall i :: 0 < i < |items| ==> items[i] == items[1..][i - 1];
      assert forall i :: 0 <= i < |items| - 1 ==> items[1..][i] == items[i + 1];
    }
  }

  /** One report at most for each id, naming it. */
  lemma {:induction false} ReportedOnce(ids: seq<string>, f: string -> seq<Violation>, v: Violation)
    requires Distinct(ids)
    requires forall id :: |f(id)| <= 1 && forall x :: x in f(id) ==> x.detail == id
    ensures multiset(Collect(ids, f))[v] == if v.detail in ids && v in f(v.detail) then 1 else 0
  {
    if ids != [] {
      var rest := ids[1..];
      ReportedOnce(rest, f, v);
      assert ids == [ids[0]] + rest;
      DistinctMultiplicity(ids, ids[0]);
      OneReport(f(ids[0]), v);
    }
  }

  lemma OneReport(s: seq<Violation>, v: Violation)
    requires |s| <= 1
    ensures multiset(s)[v] == if v in s then 1 else 0
  {
  }

  // ---- The score ----

  function ScoreOf(w: Weights, coverage: real, contradiction: nat, corroboration: nat): real {
    Times(w.cov, coverage) - Times(w.con, contradiction as real) + Times(w.div, corroboration as real)
      + Times(w.prox, 0.0)
  }

  function Score(h: Hypothesis, b: EvidenceBundle, w: Weights): Scored {
    var kinds := |Kinds(UniqueItems(h, b))|;
    var corroboration := Max(0, kinds - 1);
    Scored(h.hypothesisId, ScoreOf(w, Coverage(h, b), Contradictions(h, b), corroboration), Coverage(h, b),
      Contradictions(h, b), corroboration, 0.0, kinds, Violations(h, b))
  }

  function ScoreAll(hs: seq<Hypothesis>, b: EvidenceBundle, w: Weights): (r: seq<Scored>)
    ensures |r| == |hs| && forall i :: 0 <= i < |hs| ==> r[i] == Score(hs[i], b, w)
  {
    if hs == [] then [] else [Score(hs[0], b, w)] + ScoreAll(hs[1..], b, w)
  }

  /** The five-part sort key, compared from the left. */
  predicate KeyLe(x: Scored, y: Scored) {
    if x.score != y.score then x.score > y.score
    else if x.coverage != y.coverage then x.coverage > y.coverage
    else if x.contradiction != y.contradiction then x.contradiction < y.contradiction
    else if x.uniqueKinds != y.uniqueKinds then x.uniqueKinds > y.uniqueKinds
    else StrLe(x.hypothesisId, y.hypothesisId)
  }

  function Rank(hs: seq<Hypothesis>, b: EvidenceBundle, w: Weights): seq<Scored> {
    Sort(ScoreAll(hs, b, w), KeyLe)
  }

  // ---- Citations are conserved ----

  function Ids(items: seq<EvidenceItem>): seq<string> {
    if items == [] then [] else [items[0].evidenceId] + Ids(items[1..])
  }

  function UnknownIds(violations: seq<Violation>): seq<string> {
    if violations == [] then []
    else (if violations[0].kind.UnknownEvidenceId? then [violations[0].detail] else []) + UnknownIds(violations[1..])
  }

  lemma {:induction false} UnknownAppend(a: seq<Violation>, b: seq<Violation>)
    ensures UnknownIds(a + b) == UnknownIds(a) + UnknownIds(b)
  {
    if a == [] {
      assert a + b == b;
    } else {
      assert (a + b)[1..] == a[1..] + b;
      UnknownAppend(a[1..], b);
    }
  }

  lemma {:induction false} DeclaredHasNoUnknown(h: Hypothesis, b: EvidenceBundle, ids: seq<string>)
    ensures UnknownIds(Collect(ids, NotConstraint(h, b))) == []
  {
    if ids != [] {
      UnknownAppend(NotConstraint(h, b)(ids[0]), Collect(ids[1..], NotConstraint(h, b)));
      DeclaredHasNoUnknown(h, b, ids[1..]);
    }
  }

  lemma IdsOfNext(items: seq<EvidenceItem>, more: seq<EvidenceItem>)
    requires |more| <= 1
    ensures Ids(more + items) == Ids(more) + Ids(items)
  {
    if more == [] {
      assert more + items == items;
    } else {
      assert (more + items)[1..] == items && more[1..] == [];
    }
  }

  lemma OneCited(h: Hypothesis, b: EvidenceBundle, id: string)
    ensures |Resolve(b)(id)| <= 1
    ensures multiset(Ids(Resolve(b)(id))) + multiset(UnknownIds(Unknown(h, b)(id))) == multiset{id}
  {
    match ById(b, id) {
      case Some(item) =>
        hide FirstById;
        OneId(item);
        NoneCited();
      case None =>
        hide FirstById;
        var v := Violation(h.hypothesisId, UnknownEvidenceId, id);
        assert Unknown(h, b)(id) == [v] && [v][1..] == [];
        assert UnknownIds([v]) == [id] + UnknownIds([]);
        NoneCited();
    }
  }

  lemma OneId(item: EvidenceItem)
    ensures Ids([item]) == [item.evidenceId]
  {
    assert [item][1..] == [];
  }

  lemma {:induction false} IdsSplit(h: Hypothesis, b: EvidenceBundle, ids: seq<string>)
    ensures multiset(Ids(Collect(ids, Resolve(b)))) + multiset(UnknownIds(Collect(ids, Unknown(h, b)))) == multiset(ids)
  {
    hide Ids, UnknownIds, Resolve, Unknown;
    if ids == [] {
      NoneCited();
    } else {
      IdsSplit(h, b, ids[1..]);
      assert ids == [ids[0]] + ids[1..];
      OneCited(h, b, ids[0]);
      IdsOfNext(Collect(ids[1..], Resolve(b)), Resolve(b)(ids[0]));
      UnknownAppend(Unknown(h, b)(ids[0]), Collect(ids[1..], Unknown(h, b)));
    }
  }

  lemma NoneCited()
    ensures Ids([]) == [] && UnknownIds([]) == []
  {
  }

  lemma OnlyUnknownCited(h: Hypothesis, b: EvidenceBundle)
    ensures UnknownIds(Violations(h, b)) == UnknownIds(Collect(FirstSeen(h.cited, {}), Unknown(h, b)))
  {
    hide UnknownIds, Unknown, NotConstraint, Collect;
    var declared := FirstSeen(h.declared, {});
    UnknownAppend(Collect(FirstSeen(h.cited, {}), Unknown(h, b)), Collect(declared, NotConstraint(h, b)));
    DeclaredHasNoUnknown(h, b, declared);
  }

  lemma FirstSeenIsSet(s: seq<string>)
    ensures multiset(FirstSeen(s, {})) == multiset(set x | x in s)
  {
    FirstSeenMembers(s, {});
    var all := set x | x in s;
    forall x ensures multiset(FirstSeen(s, {}))[x] == multiset(all)[x] {
      DistinctMultiplicity(FirstSeen(s, {}), x);
    }
  }

  lemma SizesAdd(a: seq<string>, b: seq<string>, all: set<string>)
    requires multiset(a) + multiset(b) == multiset(all)
    ensures |a| + |b| == |all|
  {
    assert |multiset(a) + multiset(b)| == |a| + |b|;
    assert |multiset(all)| == |all|;
  }

  /** Each distinct cited id is either the id of one scored item or the subject of one unknown-id violation,
      once, and nothing else is. */
  lemma CitationsConserved(h: Hypothesis, b: EvidenceBundle)
    ensures multiset(Ids(UniqueItems(h, b))) + multiset(UnknownIds(Violations(h, b)))
      == multiset(set id | id in h.cited)
    ensures |UniqueItems(h, b)| + |UnknownIds(Violations(h, b))| == |set id | id in h.cited|
  {
    hide Ids, UnknownIds, Violations, FirstSeen, Collect;
    IdsSplit(h, b, FirstSeen(h.cited, {}));
    OnlyUnknownCited(h, b);
    FirstSeenIsSet(h.cited);
    IdsLength(UniqueItems(h, b));
    SizesAdd(Ids(UniqueItems(h, b)), UnknownIds(Violations(h, b)), set id | id in h.cited);
  }

  lemma {:induction false} IdsLength(items: seq<EvidenceItem>)
    ensures |Ids(items)| == |items|
  {
    if items != [] {
      IdsLength(items[1..]);
    }
  }

  // ---- Only the sets matter ----

  ghost predicate SameSet(a: seq<string>, b: seq<string>) {
    forall x :: x in a <==> x in b
  }

  ghost predicate SameClaims(h: Hypothesis, g: Hypothesis) {
    && h.hypothesisId == g.hypothesisId
    && SameSet(h.cited, g.cited) && SameSet(h.declared, g.declared)
    && SameSet(h.touchedPaths, g.touchedPaths) && SameSet(h.touchedSymbols, g.touchedSymbols)
  }

  lemma SameFirstSeen(a: seq<string>, b: seq<string>)
    requires SameSet(a, b)
    ensures multiset(FirstSeen(a, {})) == multiset(FirstSeen(b, {}))
  {
    FirstSeenMembers(a, {});
    FirstSeenMembers(b, {});
    DistinctSameMembers(FirstSeen(a, {}), FirstSeen(b, {}));
  }

  lemma SameItems(a: seq<EvidenceItem>, b: seq<EvidenceItem>)
    requires multiset(a) == multiset(b)
    ensures Kinds(a) == Kinds(b) && SumBy(a, Weight()) == SumBy(b, Weight())
  {
    forall x ensures x in a <==> x in b {
      assert x in multiset(a) <==> x in multiset(b);
    }
    SumPermutation(a, b, Weight());
  }

  lemma SameViolations(h: Hypothesis, g: Hypothesis, b: EvidenceBundle)
    requires SameClaims(h, g)
    ensures multiset(Violations(h, b)) == multiset(Violations(g, b))
  {
    hide FirstSeen, Collect, ById, ConstraintById;
    SameFirstSeen(h.cited, g.cited);
    SameFirstSeen(h.declared, g.declared);
    var c, c' := FirstSeen(h.cited, {}), FirstSeen(g.cited, {});
    var d, d' := FirstSeen(h.declared, {}), FirstSeen(g.declared, {});
    CollectPermutation(c, c', Unknown(h, b));
    CollectAgrees(c', Unknown(h, b), Unknown(g, b));
    CollectPermutation(d, d', NotConstraint(h, b));
    CollectAgrees(d', NotConstraint(h, b), NotConstraint(g, b));
  }

  lemma SameUniqueItems(h: Hypothesis, g: Hypothesis, b: EvidenceBundle)
    requires SameClaims(h, g)
    ensures Kinds(UniqueItems(h, b)) == Kinds(UniqueItems(g, b)) && Coverage(h, b) == Coverage(g, b)
  {
    hide FirstSeen, Collect, ById, Kinds;
    SameFirstSeen(h.cited, g.cited);
    CollectPermutation(FirstSeen(h.cited, {}), FirstSeen(g.cited, {}), Resolve(b));
    SameItems(UniqueItems(h, b), UniqueItems(g, b));
  }

  lemma SameContradictions(h: Hypothesis, g: Hypothesis, b: EvidenceBundle)
    requires SameClaims(h, g)
    ensures Contradictions(h, b) == Contradictions(g, b)
  {
    CountAgrees(b.constraints, Contradicted(h), Contradicted(g));
  }

  /** The score and every part of it depend only on the sets of citations, touched paths, touched symbols and
      declared violations; the violations are the same up to order. The rank hint plays no part. */
  lemma OnlySetsMatter(h: Hypothesis, g: Hypothesis, b: EvidenceBundle, w: Weights)
    requires SameClaims(h, g)
    ensures Score(h, b, w).(violations := []) == Score(g, b, w).(violations := [])
    ensures multiset(Score(h, b, w).violations) == multiset(Score(g, b, w).violations)
  {
    hide UniqueItems, Coverage, Kinds, Contradictions, Violations, ScoreOf;
    SameUniqueItems(h, g, b);
    SameContradictions(h, g, b);
    SameViolations(h, g, b);
  }

  // ---- The ranking ----

  lemma KeyOrder()
    ensures TotalPreorder(KeyLe)
    ensures forall x, y :: KeyLe(x, y) && KeyLe(y, x) ==> x.hypothesisId == y.hypothesisId
  {
    StrOrder();
  }

  ghost predicate DistinctIds(hs: seq<Hypothesis>) {
    forall i, j :: 0 <= i < j < |hs| ==> hs[i].hypothesisId != hs[j].hypothesisId
  }

  lemma {:induction false} ScoreAllPermutation(hs: seq<Hypothesis>, gs: seq<Hypothesis>, b: EvidenceBundle, w: Weights)
    requires multiset(hs) == multiset(gs)
    ensures multiset(ScoreAll(hs, b, w)) == multiset(ScoreAll(gs, b, w))
  {
    ScoreAllIsCollect(hs, b, w);
    ScoreAllIsCollect(gs, b, w);
    CollectPermutation(hs, gs, ScoreOne(b, w));
  }

  function ScoreOne(b: EvidenceBundle, w: Weights): Hypothesis -> seq<Scored> {
    h => [Score(h, b, w)]
  }

  lemma {:induction false} ScoreAllIsCollect(hs: seq<Hypothesis>, b: EvidenceBundle, w: Weights)
    ensures ScoreAll(hs, b, w) == Collect(hs, ScoreOne(b, w))
  {
    if hs != [] {
      ScoreAllIsCollect(hs[1..], b, w);
    }
  }

  lemma ScoredApart(hs: seq<Hypothesis>, b: EvidenceBundle, w: Weights)
    requires DistinctIds(hs)
    ensures AntisymmetricOn(KeyLe, ScoreAll(hs, b, w))
  {
    hide KeyLe, Score;
    var s := ScoreAll(hs, b, w);
    KeyOrder();
    forall i | 0 <= i < |s| ensures s[i].hypothesisId == hs[i].hypothesisId {
      ScoredIds(hs[i], b, w);
    }
    forall x, y | x in s && y in s && KeyLe(x, y) && KeyLe(y, x) ensures x == y {
      var i :| 0 <= i < |s| && s[i] == x;
      var j :| 0 <= j < |s| && s[j] == y;
      assert hs[i].hypothesisId == hs[j].hypothesisId;
    }
  }

  /** Every hypothesis is ranked once, in key order. */
  lemma RankIsSortedPermutation(hs: seq<Hypothesis>, b: EvidenceBundle, w: Weights)
    ensures SortedBy(KeyLe, Rank(hs, b, w))
    ensures multiset(Rank(hs, b, w)) == multiset(ScoreAll(hs, b, w)) && |Rank(hs, b, w)| == |hs|
  {
    KeyOrder();
    SortIsSortedPermutation(ScoreAll(hs, b, w), KeyLe);
  }

  /** The score of the parts: the weighted sum, with the corroboration one less than the kinds and never negative. */
  lemma ScoreIs(h: Hypothesis, b: EvidenceBundle, w: Weights)
    ensures
      var s := Score(h, b, w);
      && s.hypothesisId == h.hypothesisId
      && s.contradiction == |ContradictedAt(h, b)|
      && (s.uniqueKinds == 0 ==> s.corroboration == 0) && (s.uniqueKinds > 0 ==> s.corroboration == s.uniqueKinds - 1)
      && s.score == Times(w.cov, s.coverage) - Times(w.con, s.contradiction as real)
                    + Times(w.div, s.corroboration as real) + Times(w.prox, s.proximity)
    ensures
      var s := Score(h, b, DEFAULT_WEIGHTS);
      s.score == s.coverage - 2.0 * s.contradiction as real + 0.25 * s.corroboration as real
  {
    hide Coverage, Violations, UniqueItems, ContradictedAt, Contradictions;
    ContradictionsAre(h, b);
  }

  /** A hypothesis that cites nothing and contradicts nothing has the score 0. */
  lemma NothingCited(h: Hypothesis, b: EvidenceBundle, w: Weights)
    requires h.cited == []
    ensures Score(h, b, w).coverage == 0.0 && Score(h, b, w).uniqueKinds == 0
    ensures ContradictedAt(h, b) == {} ==> Score(h, b, w).score == 0.0
  {
    ContradictionsAre(h, b);
    assert UniqueItems(h, b) == [];
    assert Kinds([]) == {};
  }

  /** Higher scores come first; then more coverage, fewer contradictions, more kinds, and the smaller id. */
  lemma RankOrder(hs: seq<Hypothesis>, b: EvidenceBundle, w: Weights, i: nat, j: nat)
    requires i < j < |Rank(hs, b, w)|
    ensures
      var x, y := Rank(hs, b, w)[i], Rank(hs, b, w)[j];
      && x.score >= y.score
      && (x.score == y.score ==> x.coverage >= y.coverage)
      && (x.score == y.score && x.coverage == y.coverage ==> x.contradiction <= y.contradiction)
      && (x.score == y.score && x.coverage == y.coverage && x.contradiction == y.contradiction ==>
            x.uniqueKinds >= y.uniqueKinds)
      && ((x.score, x.coverage, x.contradiction, x.uniqueKinds) == (y.score, y.coverage, y.contradiction, y.uniqueKinds)
          ==> StrLe(x.hypothesisId, y.hypothesisId))
  {
    RankIsSortedPermutation(hs, b, w);
  }

  /** With distinct ids the ranking does not depend on the order the hypotheses come in. */
  lemma RankPermutation(hs: seq<Hypothesis>, gs: seq<Hypothesis>, b: EvidenceBundle, w: Weights)
    requires multiset(hs) == multiset(gs) && DistinctIds(hs)
    ensures Rank(hs, b, w) == Rank(gs, b, w)
  {
    KeyOrder();
    ScoreAllPermutation(hs, gs, b, w);
    ScoredApart(hs, b, w);
    SortPermutationInvariant(ScoreAll(hs, b, w), ScoreAll(gs, b, w), KeyLe);
  }

  /** Counts what is ranked before x. */
  function Ahead(x: Scored): Scored -> nat {
    (y: Scored) => if KeyLe(y, x) && y.hypothesisId != x.hypothesisId then 1 else 0
  }

  ghost predicate ScoredDistinct(s: seq<Scored>) {
    forall i, j :: 0 <= i < j < |s| ==> s[i].hypothesisId != s[j].hypothesisId
  }

  lemma {:induction false} CountConstant<T>(s: seq<T>, f: T -> nat, n: nat)
    requires n <= 1 && forall i :: 0 <= i < |s| ==> f(s[i]) == n
    ensures CountBy(s, f) == if n == 0 then 0 else |s|
  {
    if s != [] {
      assert forall i :: 0 <= i < |s[1..]| ==> s[1..][i] == s[i + 1];
      CountConstant(s[1..], f, n);
    }
  }

  lemma AllAhead(s: seq<Scored>, i: nat)
    requires SortedBy(KeyLe, s) && ScoredDistinct(s) && i < |s|
    ensures CountBy(s[..i], Ahead(s[i])) == i
  {
    hide KeyLe, CountBy;
    var front := s[..i];
    forall k | 0 <= k < |front| ensures Ahead(s[i])(front[k]) == 1 {
      assert front[k] == s[k];
    }
    CountConstant(front, Ahead(s[i]), 1);
  }

  lemma NoneAhead(s: seq<Scored>, i: nat)
    requires SortedBy(KeyLe, s) && ScoredDistinct(s) && i < |s|
    ensures CountBy(s[i + 1..], Ahead(s[i])) == 0
  {
    hide KeyLe, CountBy;
    var behind := s[i + 1..];
    KeyOrder();
    forall k | 0 <= k < |behind| ensures Ahead(s[i])(behind[k]) == 0 {
      assert behind[k] == s[i + 1 + k];
    }
    CountConstant(behind, Ahead(s[i]), 0);
  }

  /** A position in the sorted list is the number of members ahead. */
  lemma PositionIsCount(s: seq<Scored>, i: nat)
    requires SortedBy(KeyLe, s) && ScoredDistinct(s) && i < |s|
    ensures CountBy(s, Ahead(s[i])) == i
  {
    hide KeyLe, CountBy, SortedBy, ScoredDistinct;
    var x := s[i];
    assert s == s[..i] + [x] + s[i + 1..];
    CountAround(s[..i], x, s[i + 1..], Ahead(x));
    CountAppend(s[..i], s[i + 1..], Ahead(x));
    AllAhead(s, i);
    NoneAhead(s, i);
  }

  lemma {:induction false} CountPointwise<T>(a: seq<T>, b: seq<T>, f: T -> nat, g: T -> nat)
    requires |a| == |b| && forall i :: 0 <= i < |a| ==> f(a[i]) <= g(b[i])
    ensures CountBy(a, f) <= CountBy(b, g)
  {
    if a != [] {
      assert forall i :: 0 <= i < |a[1..]| ==> a[1..][i] == a[i + 1] && b[1..][i] == b[i + 1];
      CountPointwise(a[1..], b[1..], f, g);
    }
  }

  lemma PermutedDistinct(s: seq<Scored>, r: seq<Scored>)
    requires ScoredDistinct(s) && multiset(s) == multiset(r)
    ensures ScoredDistinct(r)
  {
    forall i, j | 0 <= i < j < |r| ensures r[i].hypothesisId != r[j].hypothesisId {
      Placed(s, r, i);
      Placed(s, r, j);
      NotTwice(r, i, j);
    }
  }

  lemma Placed(s: seq<Scored>, r: seq<Scored>, i: nat)
    requires ScoredDistinct(s) && multiset(s) == multiset(r) && i < |r|
    ensures multiset(r)[r[i]] == 1 && exists k :: 0 <= k < |s| && s[k] == r[i]
  {
    forall k, l | 0 <= k < l < |s| ensures s[k] != s[l] {
      assert s[k].hypothesisId != s[l].hypothesisId;
    }
    assert r[i] in multiset(r);
    DistinctMultiplicity(s, r[i]);
  }

  lemma RankedDistinct(hs: seq<Hypothesis>, b: EvidenceBundle, w: Weights)
    requires DistinctIds(hs)
    ensures ScoredDistinct(Rank(hs, b, w))
  {
    hide Rank, ScoreAll;
    RankIsSortedPermutation(hs, b, w);
    assert ScoredDistinct(ScoreAll(hs, b, w));
    PermutedDistinct(ScoreAll(hs, b, w), Rank(hs, b, w));
  }

  lemma NotTwice<T>(s: seq<T>, i: nat, j: nat)
    requires i < j < |s| && multiset(s)[s[i]] == 1
    ensures s[i] != s[j]
  {
    assert s == s[..j] + [s[j]] + s[j + 1..];
    assert s[i] in s[..j];
  }

  // ---- Touching more never helps ----

  /** g claims everything h claims, cites the same, and may touch or declare more. */
  ghost predicate TouchesMore(h: Hypothesis, g: Hypothesis) {
    && g.hypothesisId == h.hypothesisId && g.cited == h.cited
    && (forall x :: x in h.touchedPaths ==> x in g.touchedPaths)
    && (forall x :: x in h.touchedSymbols ==> x in g.touchedSymbols)
    && (forall x :: x in h.declared ==> x in g.declared)
  }

  /** Touching or declaring more changes the score by the weight of the constraints newly contradicted,
      and nothing else but the violations. */
  lemma TouchingMore(h: Hypothesis, g: Hypothesis, b: EvidenceBundle, w: Weights)
    requires TouchesMore(h, g)
    ensures Contradictions(h, b) <= Contradictions(g, b)
    ensures Score(g, b, w).score == Score(h, b, w).score - w.con * (Contradictions(g, b) - Contradictions(h, b)) as real
    ensures Score(g, b, w).coverage == Score(h, b, w).coverage
    ensures Score(g, b, w).uniqueKinds == Score(h, b, w).uniqueKinds
    ensures Score(g, b, w).score <= Score(h, b, w).score
      <==> w.con >= 0.0 || Contradictions(g, b) == Contradictions(h, b)
  {
    hide UniqueItems, Violations, Kinds, CountBy, Times;
    CountPointwise(b.constraints, b.constraints, Contradicted(h), Contradicted(g));
    Distribute(w.con, Contradictions(h, b), Contradictions(g, b));
    assert UniqueItems(g, b) == UniqueItems(h, b) by { SameCited(h, g, b); }
  }

  lemma SameCited(h: Hypothesis, g: Hypothesis, b: EvidenceBundle)
    requires h.cited == g.cited
    ensures UniqueItems(g, b) == UniqueItems(h, b)
  {
  }

  lemma Distribute(w: real, m: nat, n: nat)
    requires m <= n
    ensures Times(w, n as real) == Times(w, m as real) + w * (n - m) as real
    ensures w * (n - m) as real >= 0.0 <==> w >= 0.0 || m == n
  {
  }

  lemma TouchingMoreKey(h: Hypothesis, g: Hypothesis, b: EvidenceBundle, w: Weights)
    requires TouchesMore(h, g) && w.con >= 0.0
    ensures KeyLe(Score(h, b, w), Score(g, b, w))
  {
    TouchingMore(h, g, b, w);
    StrOrder();
  }

  /** A hypothesis that touches or declares more is ranked no higher. */
  lemma TouchingMoreNeverHelps(hs: seq<Hypothesis>, k: nat, g: Hypothesis, b: EvidenceBundle, w: Weights, p: nat,
                               q: nat)
    requires DistinctIds(hs) && k < |hs| && TouchesMore(hs[k], g) && w.con >= 0.0
    requires p < |Rank(hs, b, w)| && Rank(hs, b, w)[p].hypothesisId == g.hypothesisId
    requires q < |Rank(hs[k := g], b, w)| && Rank(hs[k := g], b, w)[q].hypothesisId == g.hypothesisId
    ensures p <= q
  {
    hide Score, Rank, KeyLe, CountBy;
    var gs := hs[k := g];
    var x, y := Score(hs[k], b, w), Score(g, b, w);
    ScoredIds(hs[k], b, w);
    ScoredIds(g, b, w);
    TouchingMoreKey(hs[k], g, b, w);
    PositionOf(hs, k, b, w, p);
    PositionOf(gs, k, b, w, q);
    var s, t := ScoreAll(hs, b, w), ScoreAll(gs, b, w);
    KeyOrder();
    forall i | 0 <= i < |s| ensures Ahead(x)(s[i]) <= Ahead(y)(t[i]) {
      if i != k {
        assert t[i] == s[i];
      }
    }
    CountPointwise(s, t, Ahead(x), Ahead(y));
  }

  lemma ScoredIds(h: Hypothesis, b: EvidenceBundle, w: Weights)
    ensures Score(h, b, w).hypothesisId == h.hypothesisId
  {
  }

  /** Where a hypothesis is ranked: after as many as are ahead of it. */
  lemma PositionOf(hs: seq<Hypothesis>, k: nat, b: EvidenceBundle, w: Weights, p: nat)
    requires DistinctIds(hs) && k < |hs|
    requires p < |Rank(hs, b, w)| && Rank(hs, b, w)[p].hypothesisId == hs[k].hypothesisId
    ensures Rank(hs, b, w)[p] == Score(hs[k], b, w)
    ensures CountBy(ScoreAll(hs, b, w), Ahead(Score(hs[k], b, w))) == p
  {
    hide KeyLe, Score, Rank, Ahead, CountBy;
    var s, r := ScoreAll(hs, b, w), Rank(hs, b, w);
    forall i | 0 <= i < |s| ensures s[i].hypothesisId == hs[i].hypothesisId {
      ScoredIds(hs[i], b, w);
    }
    RankIsSortedPermutation(hs, b, w);
    RankedDistinct(hs, b, w);
    assert r[p] in multiset(r);
    var i :| 0 <= i < |s| && s[i] == r[p];
    assert i == k;
    PositionIsCount(r, p);
    CountPermutation(r, s, Ahead(r[p]));
  }

  // ---- What one more citation does ----

  function Citing(h: Hypothesis, id: string): Hypothesis {
    h.(cited := h.cited + [id])
  }

  lemma CitedItems(h: Hypothesis, b: EvidenceBundle, id: string)
    ensures UniqueItems(Citing(h, id), b) == UniqueItems(h, b) + (if id in h.cited then [] else Resolve(b)(id))
  {
    var n := |h.cited|;
    assert Citing(h, id).cited[..n] == h.cited && Citing(h, id).cited[..n + 1] == Citing(h, id).cited;
    NextCited(Citing(h, id).cited, n, Resolve(b));
  }

  lemma OneMoreKind(items: seq<EvidenceItem>, item: EvidenceItem)
    ensures Kinds(items + [item]) == Kinds(items) + {item.kind}
    ensures SumBy(items + [item], Weight()) == SumBy(items, Weight()) + item.weight
  {
    assert forall x :: x in items + [item] <==> x in items || x == item;
    SumAppend(items, [item], Weight());
    assert [item][1..] == [];
  }

  /** Citing one more known item adds its weight to the coverage and, when other kinds but not its own were cited,
      one to the corroboration; citing again, or citing an unknown id, changes no part of the score. */
  lemma CitingOneMore(h: Hypothesis, b: EvidenceBundle, w: Weights, id: string)
    ensures var x, y := Score(h, b, w), Score(Citing(h, id), b, w);
      && y.contradiction == x.contradiction
      && (if id in h.cited || ById(b, id) == None then y.(violations := []) == x.(violations := [])
          else
            var item, kinds := ById(b, id).value, Kinds(UniqueItems(h, b));
            var supported := kinds != {} && item.kind !in kinds;
            && y.coverage == x.coverage + item.weight
            && y.corroboration == x.corroboration + (if supported then 1 else 0)
            && y.score == x.score + w.cov * item.weight + if supported then w.div else 0.0)
  {
    hide UniqueItems, Kinds, Violations, CountBy, SumBy, ScoreOf, Contradictions;
    CitedItems(h, b, id);
    SameContradicted(h, id, b);
    var items := UniqueItems(h, b);
    assert items + [] == items;
    if id !in h.cited && ById(b, id).Some? {
      var item := ById(b, id).value;
      assert UniqueItems(Citing(h, id), b) == items + [item];
      OneMoreKind(items, item);
      OneMoreMember(Kinds(items), item.kind);
      ScoreSteps(w, Coverage(h, b), item.weight, Contradictions(h, b), Max(0, |Kinds(items)| - 1));
    }
  }

  lemma ScoreSteps(w: Weights, coverage: real, weight: real, contradiction: nat, corroboration: nat)
    ensures ScoreOf(w, coverage + weight, contradiction, corroboration)
      == ScoreOf(w, coverage, contradiction, corroboration) + w.cov * weight
    ensures ScoreOf(w, coverage + weight, contradiction, corroboration + 1)
      == ScoreOf(w, coverage, contradiction, corroboration) + w.cov * weight + w.div
  {
    hide Times;
    Spread(w.cov, coverage, weight);
    Spread(w.div, corroboration as real, 1.0);
    assert (corroboration + 1) as real == corroboration as real + 1.0;
  }

  lemma SameContradicted(h: Hypothesis, id: string, b: EvidenceBundle)
    ensures Contradictions(Citing(h, id), b) == Contradictions(h, b)
  {
    CountAgrees(b.constraints, Contradicted(Citing(h, id)), Contradicted(h));
  }

  lemma Spread(w: real, a: real, d: real)
    ensures Times(w, a + d) == Times(w, a) + w * d
  {
  }

  lemma OneMoreMember(kinds: set<EvidenceKind>, kind: EvidenceKind)
    ensures |kinds + {kind}| == |kinds| + (if kind in kinds then 0 else 1)
    ensures |kinds| == 0 <==> kinds == {}
  {
    if kind in kinds {
      assert kinds + {kind} == kinds;
    }
  }

  // ---- Known issues ----

  function HardOnly(items: seq<EvidenceItem>): seq<EvidenceItem> {
    if items == [] then []
    else (if items[0].constraintKind == Some(KnownIssue) then [] else [items[0]]) + HardOnly(items[1..])
  }

  /** The bundle without its known-issue constraints. */
  function Without(b: EvidenceBundle): EvidenceBundle {
    b.(constraints := HardOnly(b.constraints))
  }

  /** Known issues are never contradicted. */
  lemma {:induction false} KnownIssuesNeverContradict(h: Hypothesis, cs: seq<EvidenceItem>)
    ensures CountBy(cs, Contradicted(h)) == CountBy(HardOnly(cs), Contradicted(h))
  {
    if cs != [] {
      KnownIssuesNeverContradict(h, cs[1..]);
      CountAppend(if cs[0].constraintKind == Some(KnownIssue) then [] else [cs[0]], HardOnly(cs[1..]), Contradicted(h));
      CountSingle(cs[0], Contradicted(h));
    }
  }

  /** Known issues leave the contradiction alone; they leave the scored items alone exactly when every cited
      id finds the same item without them, and then the whole score up to violations is unchanged. */
  lemma KnownIssuesMatterIff(h: Hypothesis, b: EvidenceBundle, w: Weights)
    ensures Contradictions(h, b) == Contradictions(h, Without(b))
    ensures UniqueItems(h, b) == UniqueItems(h, Without(b))
      <==> forall id :: id in h.cited ==> ById(b, id) == ById(Without(b), id)
    ensures UniqueItems(h, b) == UniqueItems(h, Without(b)) ==>
      Score(h, b, w).(violations := []) == Score(h, Without(b), w).(violations := [])
  {
    hide FirstSeen, Collect, CountBy, Violations, Kinds, FirstById, HardOnly, ScoreOf;
    KnownIssuesNeverContradict(h, b.constraints);
    SameItemsIff(h, b, Without(b));
  }

  lemma SameItemsIff(h: Hypothesis, b: EvidenceBundle, b': EvidenceBundle)
    ensures UniqueItems(h, b) == UniqueItems(h, b') <==> forall id :: id in h.cited ==> ById(b, id) == ById(b', id)
  {
    hide FirstSeen, Collect, FirstById;
    var ids := FirstSeen(h.cited, {});
    FirstSeenMembers(h.cited, {});
    if forall id :: id in h.cited ==> ById(b, id) == ById(b', id) {
      CollectAgrees(ids, Resolve(b), Resolve(b'));
    } else {
      var id :| id in h.cited && ById(b, id) != ById(b', id);
      Resolved(ids, b, id);
      Resolved(ids, b', id);
    }
  }

  /** The scored items are those the cited ids find. */
  lemma {:induction false} Resolved(ids: seq<string>, b: EvidenceBundle, id: string)
    ensures forall item ::
      item in Collect(ids, Resolve(b)) && item.evidenceId == id <==> id in ids && ById(b, id) == Some(item)
  {
    if ids != [] {
      Resolved(ids[1..], b, id);
      assert ids == [ids[0]] + ids[1..];
      assert forall item :: item in Resolve(b)(ids[0]) <==> ById(b, ids[0]) == Some(item);
    }
  }

  ghost predicate IsKnownIssue(b: EvidenceBundle, item: EvidenceItem) {
    item in b.constraints && item.constraintKind == Some(KnownIssue)
  }

  /** No constraint shares its id with another constraint or with evidence; evidence may repeat ids. */
  ghost predicate OwnIds(constraints: seq<EvidenceItem>, evidence: seq<EvidenceItem>) {
    forall i, j :: 0 <= i < j < |constraints + evidence| && i < |constraints| ==>
      (constraints + evidence)[i].evidenceId != (constraints + evidence)[j].evidenceId
  }

  lemma OwnIdsOfRest(cs: seq<EvidenceItem>, more: seq<EvidenceItem>)
    requires cs != [] && OwnIds(cs, more)
    ensures OwnIds(cs[1..], more)
    ensures FirstById(cs[1..] + more, cs[0].evidenceId) == None
  {
    var all, rest := cs + more, cs[1..] + more;
    forall i | 0 <= i < |rest| ensures rest[i] == all[i + 1] && rest[i].evidenceId != cs[0].evidenceId {
      assert all[0].evidenceId != all[i + 1].evidenceId;
    }
    NotFound(rest, cs[0].evidenceId);
  }

  lemma NotFound(items: seq<EvidenceItem>, id: string)
    requires forall i :: 0 <= i < |items| ==> items[i].evidenceId != id
    ensures FirstById(items, id) == None
  {
  }

  lemma FirstOf(first: EvidenceItem, rest: seq<EvidenceItem>, id: string)
    ensures FirstById([first] + rest, id) == if first.evidenceId == id then Some(first) else FirstById(rest, id)
  {
  }

  lemma HardOnlyOf(c: EvidenceItem, rest: seq<EvidenceItem>, more: seq<EvidenceItem>)
    ensures [c] + rest + more == [c] + (rest + more)
    ensures HardOnly([c] + rest) + more
      == if c.constraintKind == Some(KnownIssue) then HardOnly(rest) + more else [c] + (HardOnly(rest) + more)
  {
  }

  lemma {:induction false} FoundInRest(cs: seq<EvidenceItem>, more: seq<EvidenceItem>, id: string)
    requires OwnIds(cs, more)
    ensures
      var found := FirstById(cs + more, id);
      FirstById(HardOnly(cs) + more, id)
      == if found.Some? && found.value in cs && found.value.constraintKind == Some(KnownIssue) then None else found
  {
    if cs == [] {
      assert cs + more == more && HardOnly(cs) + more == more;
    } else {
      var c, rest := cs[0], cs[1..];
      OwnIdsOfRest(cs, more);
      FoundInRest(rest, more, id);
      hide OwnIds, FirstById, HardOnly;
      HardOnlyOf(c, rest, more);
      FirstOf(c, rest + more, id);
      FirstOf(c, HardOnly(rest) + more, id);
      assert cs == [c] + rest;
    }
  }

  /** Without the known issues every other id finds what it found, and theirs find nothing. */
  lemma FoundWithout(b: EvidenceBundle, id: string)
    requires OwnIds(b.constraints, b.evidence)
    ensures ById(Without(b), id)
      == if ById(b, id).Some? && IsKnownIssue(b, ById(b, id).value) then None else ById(b, id)
  {
    FoundInRest(b.constraints, b.evidence, id);
  }

  /** The id finds a known issue. */
  ghost predicate NamesKnownIssue(b: EvidenceBundle, id: string) {
    ById(b, id).Some? && IsKnownIssue(b, ById(b, id).value)
  }

  /** Known issues have weight, as every constraint does. */
  ghost predicate KnownIssuesWeigh(b: EvidenceBundle) {
    forall item :: IsKnownIssue(b, item) ==> item.weight > 0.0
  }

  /** Dropping the known issues drops coverage exactly when one of them is cited, and adds no kind. */
  lemma {:induction false} CoverageFalls(b: EvidenceBundle, ids: seq<string>)
    requires OwnIds(b.constraints, b.evidence) && KnownIssuesWeigh(b)
    ensures var with, without := Collect(ids, Resolve(b)), Collect(ids, Resolve(Without(b)));
      && Kinds(without) <= Kinds(with)
      && SumBy(without, Weight()) <= SumBy(with, Weight())
      && (SumBy(without, Weight()) == SumBy(with, Weight())
        <==> forall i :: 0 <= i < |ids| ==> !NamesKnownIssue(b, ids[i]))
      && ((forall i :: 0 <= i < |ids| ==> !NamesKnownIssue(b, ids[i])) ==> without == with)
  {
    hide ById, Without, IsKnownIssue, Kinds, KnownIssuesWeigh, NamesKnownIssue, OwnIds, Resolve;
    if ids != [] {
      var rest := ids[1..];
      CoverageFalls(b, rest);
      FoundWithout(b, ids[0]);
      assert ids == [ids[0]] + rest;
      assert forall i :: 0 < i < |ids| ==> ids[i] == rest[i - 1];
      assert forall i :: 0 <= i < |rest| ==> rest[i] == ids[i + 1];
      SumAppend(Resolve(b)(ids[0]), Collect(rest, Resolve(b)), Weight());
      SumAppend(Resolve(Without(b))(ids[0]), Collect(rest, Resolve(Without(b))), Weight());
      KindsOfBoth(Resolve(b)(ids[0]), Collect(rest, Resolve(b)));
      KindsOfBoth(Resolve(Without(b))(ids[0]), Collect(rest, Resolve(Without(b))));
      FirstWeight(b, ids[0]);
    }
  }

  lemma KindsOfBoth(a: seq<EvidenceItem>, b: seq<EvidenceItem>)
    ensures Kinds(a + b) == Kinds(a) + Kinds(b)
    ensures Kinds([]) == {}
  {
    assert forall x :: x in a + b <==> x in a || x in b;
  }

  lemma FirstWeight(b: EvidenceBundle, id: string)
    requires OwnIds(b.constraints, b.evidence) && KnownIssuesWeigh(b)
    ensures var with, without := Resolve(b)(id), Resolve(Without(b))(id);
      && Kinds(without) <= Kinds(with)
      && (if NamesKnownIssue(b, id) then SumBy(without, Weight()) < SumBy(with, Weight()) else without == with)
  {
    FoundWithout(b, id);
    if NamesKnownIssue(b, id) {
      OneMoreKind([], ById(b, id).value);
      assert [] + [ById(b, id).value] == [ById(b, id).value];
      assert Kinds([]) == {};
    }
  }

  /** The known issues bear on a score, whatever the weights on contradiction and proximity, exactly when the hypothesis
      cites one of them; and then they raise it. */
  lemma KnownIssuesScoreIff(h: Hypothesis, b: EvidenceBundle, w: Weights)
    requires OwnIds(b.constraints, b.evidence) && KnownIssuesWeigh(b)
    requires w.cov > 0.0 && w.div >= 0.0
    ensures Score(h, Without(b), w).score <= Score(h, b, w).score
    ensures Score(h, b, w).score == Score(h, Without(b), w).score
      <==> forall id :: id in h.cited ==> !NamesKnownIssue(b, id)
  {
    hide FirstSeen, Collect, CountBy, Violations, Kinds, HardOnly, ScoreOf, NamesKnownIssue, KnownIssuesWeigh;
    var ids := FirstSeen(h.cited, {});
    FirstSeenMembers(h.cited, {});
    KnownIssuesNeverContradict(h, b.constraints);
    CoverageFalls(b, ids);
    var with, without := UniqueItems(h, b), UniqueItems(h, Without(b));
    FewerKinds(Kinds(without), Kinds(with));
    ScoreFalls(w, Coverage(h, Without(b)), Coverage(h, b), Contradictions(h, b),
               Max(0, |Kinds(without)| - 1), Max(0, |Kinds(with)| - 1));
    if forall id :: id in h.cited ==> !NamesKnownIssue(b, id) {
      assert forall i :: 0 <= i < |ids| ==> ids[i] in h.cited;
    } else {
      var id :| id in h.cited && NamesKnownIssue(b, id);
      assert id in ids;
    }
  }

  /** The scores without their lists of violations. */
  function Stripped(s: seq<Scored>): (r: seq<Scored>)
    ensures |r| == |s| && forall i :: 0 <= i < |s| ==> r[i] == s[i].(violations := [])
  {
    if s == [] then [] else [s[0].(violations := [])] + Stripped(s[1..])
  }

  lemma {:induction false} InsertStripped(x: Scored, s: seq<Scored>)
    ensures Stripped(InsertInOrder(x, s, KeyLe)) == InsertInOrder(x.(violations := []), Stripped(s), KeyLe)
  {
    hide KeyLe;
    if s != [] {
      KeyStripped(x, s[0]);
      InsertStripped(x, s[1..]);
    }
  }

  lemma KeyStripped(x: Scored, y: Scored)
    ensures KeyLe(x.(violations := []), y.(violations := [])) == KeyLe(x, y)
  {
  }

  lemma {:induction false} SortStripped(s: seq<Scored>)
    ensures Stripped(Sort(s, KeyLe)) == Sort(Stripped(s), KeyLe)
  {
    hide KeyLe;
    if s != [] {
      SortStripped(s[1..]);
      InsertStripped(s[0], Sort(s[1..], KeyLe));
    }
  }

  function StripOne(): Scored -> seq<Scored> {
    (x: Scored) => [x.(violations := [])]
  }

  lemma {:induction false} StrippedIsCollect(s: seq<Scored>)
    ensures Stripped(s) == Collect(s, StripOne())
  {
    if s != [] {
      StrippedIsCollect(s[1..]);
    }
  }

  /** The parts outside the key are settled by it, violations excepted. */
  lemma StrippedApart(hs: seq<Hypothesis>, b: EvidenceBundle, w: Weights)
    ensures AntisymmetricOn(KeyLe, Stripped(ScoreAll(hs, b, w)))
  {
    hide KeyLe, Score, Stripped, ScoreAll;
    var all := ScoreAll(hs, b, w);
    var s := Stripped(all);
    forall x, y | x in s && y in s && KeyLe(x, y) && KeyLe(y, x) ensures x == y {
      var i :| 0 <= i < |s| && s[i] == x;
      var j :| 0 <= j < |s| && s[j] == y;
      KeyStripped(all[i], all[j]);
      KeyStripped(all[j], all[i]);
      SameKey(hs[i], hs[j], b, w);
    }
  }

  lemma SameKey(h: Hypothesis, g: Hypothesis, b: EvidenceBundle, w: Weights)
    requires KeyLe(Score(h, b, w), Score(g, b, w)) && KeyLe(Score(g, b, w), Score(h, b, w))
    ensures Score(h, b, w).(violations := []) == Score(g, b, w).(violations := [])
  {
    hide Coverage, Contradictions, Violations, ScoreOf, UniqueItems;
    KeyOrder();
  }

  /** Up to the violations listed, the ranking never depends on the order the hypotheses come in. */
  lemma RankOrderFree(hs: seq<Hypothesis>, gs: seq<Hypothesis>, b: EvidenceBundle, w: Weights)
    requires multiset(hs) == multiset(gs)
    ensures Stripped(Rank(hs, b, w)) == Stripped(Rank(gs, b, w))
  {
    hide KeyLe, Score;
    var s, t := ScoreAll(hs, b, w), ScoreAll(gs, b, w);
    KeyOrder();
    ScoreAllPermutation(hs, gs, b, w);
    CollectPermutation(s, t, StripOne());
    StrippedIsCollect(s);
    StrippedIsCollect(t);
    StrippedApart(hs, b, w);
    SortPermutationInvariant(Stripped(s), Stripped(t), KeyLe);
    SortStripped(s);
    SortStripped(t);
  }

  /** When no hypothesis cites a known issue, dropping the known issues leaves the ranking as it was, up to the
      violations listed. */
  lemma UncitedIssuesNeverRank(hs: seq<Hypothesis>, b: EvidenceBundle, w: Weights)
    requires OwnIds(b.constraints, b.evidence)
    requires forall i, id :: 0 <= i < |hs| && id in hs[i].cited ==> !NamesKnownIssue(b, id)
    ensures Stripped(Rank(hs, b, w)) == Stripped(Rank(hs, Without(b), w))
  {
    hide Score, KeyLe, NamesKnownIssue;
    var s, t := ScoreAll(hs, b, w), ScoreAll(hs, Without(b), w);
    forall i | 0 <= i < |hs|
      ensures Score(hs[i], b, w).(violations := []) == Score(hs[i], Without(b), w).(violations := [])
    {
      UncitedIssuesNeverScore(hs[i], b, w);
    }
    assert Stripped(s) == Stripped(t);
    SortStripped(s);
    SortStripped(t);
  }

  lemma UncitedIssuesNeverScore(h: Hypothesis, b: EvidenceBundle, w: Weights)
    requires OwnIds(b.constraints, b.evidence)
    requires forall id :: id in h.cited ==> !NamesKnownIssue(b, id)
    ensures Score(h, b, w).(violations := []) == Score(h, Without(b), w).(violations := [])
  {
    hide Score, UniqueItems, OwnIds, ById;
    forall id | id in h.cited ensures ById(b, id) == ById(Without(b), id) {
      FoundWithout(b, id);
    }
    KnownIssuesMatterIff(h, b, w);
  }

  function CoverageOf(): Scored -> real {
    (s: Scored) => s.coverage
  }

  lemma {:induction false} StrippedCoverage(s: seq<Scored>)
    ensures SumBy(Stripped(s), CoverageOf()) == SumBy(s, CoverageOf())
  {
    if s != [] {
      StrippedCoverage(s[1..]);
    }
  }

  /** The coverages of a ranking add up to those of the hypotheses. */
  lemma RankedCoverage(hs: seq<Hypothesis>, b: EvidenceBundle, w: Weights)
    ensures SumBy(Stripped(Rank(hs, b, w)), CoverageOf()) == SumBy(ScoreAll(hs, b, w), CoverageOf())
  {
    RankIsSortedPermutation(hs, b, w);
    StrippedCoverage(Rank(hs, b, w));
    SumPermutation(Rank(hs, b, w), ScoreAll(hs, b, w), CoverageOf());
  }

  lemma OneCoverageFalls(h: Hypothesis, b: EvidenceBundle)
    requires OwnIds(b.constraints, b.evidence) && KnownIssuesWeigh(b)
    ensures Coverage(h, Without(b)) <= Coverage(h, b)
    ensures Coverage(h, Without(b)) == Coverage(h, b) ==> forall id :: id in h.cited ==> !NamesKnownIssue(b, id)
  {
    hide FirstSeen, Collect, Kinds, NamesKnownIssue, KnownIssuesWeigh, OwnIds;
    var ids := FirstSeen(h.cited, {});
    FirstSeenMembers(h.cited, {});
    CoverageFalls(b, ids);
    forall id | id in h.cited && NamesKnownIssue(b, id) ensures Coverage(h, Without(b)) != Coverage(h, b) {
      var i :| 0 <= i < |ids| && ids[i] == id;
    }
  }

  /** The total coverage falls as soon as one hypothesis cites a known issue. */
  lemma {:induction false} TotalCoverageFalls(hs: seq<Hypothesis>, b: EvidenceBundle, w: Weights)
    requires OwnIds(b.constraints, b.evidence) && KnownIssuesWeigh(b)
    ensures
      var with, without := SumBy(ScoreAll(hs, b, w), CoverageOf()), SumBy(ScoreAll(hs, Without(b), w), CoverageOf());
      && without <= with
      && (without == with ==> forall i, id :: 0 <= i < |hs| && id in hs[i].cited ==> !NamesKnownIssue(b, id))
  {
    hide Coverage, NamesKnownIssue, KnownIssuesWeigh, OwnIds, ScoreOf, Violations, Contradictions, Kinds;
    if hs != [] {
      OneCoverageFalls(hs[0], b);
      TotalCoverageFalls(hs[1..], b, w);
      assert forall i :: 0 < i < |hs| ==> hs[i] == hs[1..][i - 1];
    }
  }

  /** Dropping the known issues leaves the ranking as it was, up to the violations listed, exactly when no hypothesis
      cites one of them, whatever the weights. */
  lemma KnownIssuesRankIff(hs: seq<Hypothesis>, b: EvidenceBundle, w: Weights)
    requires OwnIds(b.constraints, b.evidence) && KnownIssuesWeigh(b)
    ensures Stripped(Rank(hs, b, w)) == Stripped(Rank(hs, Without(b), w))
      <==> forall i, id :: 0 <= i < |hs| && id in hs[i].cited ==> !NamesKnownIssue(b, id)
  {
    hide Rank, ScoreAll, NamesKnownIssue, KnownIssuesWeigh, OwnIds;
    if Stripped(Rank(hs, b, w)) == Stripped(Rank(hs, Without(b), w)) {
      RankedCoverage(hs, b, w);
      RankedCoverage(hs, Without(b), w);
      TotalCoverageFalls(hs, b, w);
    }
    if forall i, id :: 0 <= i < |hs| && id in hs[i].cited ==> !NamesKnownIssue(b, id) {
      UncitedIssuesNeverRank(hs, b, w);
    }
  }

  lemma FewerKinds(a: set<EvidenceKind>, b: set<EvidenceKind>)
    requires a <= b
    ensures |a| <= |b|
  {
    assert b == a + (b - a);
    assert |b| == |a| + |b - a|;
  }

  lemma ScoreFalls(w: Weights, low: real, high: real, contradiction: nat, few: nat, many: nat)
    requires w.cov > 0.0 && w.div >= 0.0 && low <= high && few <= many
    ensures ScoreOf(w, low, contradiction, few) <= ScoreOf(w, high, contradiction, many)
    ensures low < high ==> ScoreOf(w, low, contradiction, few) < ScoreOf(w, high, contradiction, many)
  {
    hide Times;
    TimesGrows(w.cov, low, high);
    TimesGrows(w.div, few as real, many as real);
  }

  lemma TimesGrows(w: real, a: real, b: real)
    requires w >= 0.0 && a <= b
    ensures Times(w, a) <= Times(w, b)
    ensures w > 0.0 && a < b ==> Times(w, a) < Times(w, b)
  {
    Spread(w, a, b - a);
    assert a + (b - a) == b;
    assert w * (b - a) >= 0.0;
    if w > 0.0 && a < b {
      assert w * (b - a) > 0.0;
    }
  }

  /** A cited known issue does count towards coverage, and can decide the order. */
  lemma CitedKnownIssueCounts()
    ensures var issue := EvidenceItem("constraint:1", Constraint, 1.0, Some(KnownIssue), map[]);
      var b := EvidenceBundle([issue], []);
      var h, g := Hypothesis("a", [], [], [], [], None), Hypothesis("b", ["constraint:1"], [], [], [], None);
      && !KeyLe(Score(h, b, DEFAULT_WEIGHTS), Score(g, b, DEFAULT_WEIGHTS))
      && KeyLe(Score(h, Without(b), DEFAULT_WEIGHTS), Score(g, Without(b), DEFAULT_WEIGHTS))
  {
    var issue := EvidenceItem("constraint:1", Constraint, 1.0, Some(KnownIssue), map[]);
    var b := EvidenceBundle([issue], []);
    var h, g := Hypothesis("a", [], [], [], [], None), Hypothesis("b", ["constraint:1"], [], [], [], None);
    assert UniqueItems(h, b) == [] && UniqueItems(h, Without(b)) == [];
    assert FirstSeen(g.cited, {}) == ["constraint:1"];
    assert ById(b, "constraint:1") == Some(issue);
    assert [issue][1..] == [];
    CollectSingle("constraint:1", Resolve(b));
    assert UniqueItems(g, b) == [issue];
    assert HardOnly([issue][1..]) == [];
    assert HardOnly([issue]) == [];
    assert Without(b).constraints + Without(b).evidence == [];
    CollectSingle("constraint:1", Resolve(Without(b)));
    assert UniqueItems(g, Without(b)) == [];
    assert Kinds([issue]) == {Constraint};
    assert Kinds([]) == {};
  }
}
