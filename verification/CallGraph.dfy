/** Reference notions for structural retrieval: distance in the call graph, the level-by-level order, and the
    longest prefix a token budget pays for. */
module CallGraph {
  import opened Sums

  datatype Symbol = Symbol(
    name: string, kind: string, filePath: string, startLine: nat,
    bodyText: string, signatureText: string, callees: seq<string>)

  type Graph = map<string, Symbol>

  function Members(s: seq<string>): set<string> {
    set x | x in s
  }

  predicate Apart(a: set<string>, b: set<string>) {
    forall x :: x in a ==> x !in b
  }

  /** The names of `s` that are defined. */
  function Known(g: Graph, s: seq<string>): seq<string> {
    if s == [] then [] else (if s[0] in g then [s[0]] else []) + Known(g, s[1..])
  }

  lemma {:induction false} KnownMembers(g: Graph, s: seq<string>)
    ensures forall x :: x in Known(g, s) <==> x in s && x in g
  {
    if s == [] {
    } else {
      KnownMembers(g, s[1..]);
    }
  }

  function CalleesOf(g: Graph): string -> seq<string> {
    n => if n in g then Known(g, g[n].callees) else []
  }

  // ---- Distance ----

  /** The defined names within n calls of the anchors. */
  ghost function Reach(g: Graph, anchors: seq<string>, n: nat): set<string> {
    if n == 0 then Members(Known(g, anchors))
    else Reach(g, anchors, n - 1) + Called(g, Reach(g, anchors, n - 1))
  }

  ghost function Called(g: Graph, names: set<string>): set<string> {
    set x, y | x in names && y in CalleesOf(g)(x) :: y
  }

  /** A chain of calls from an anchor. */
  ghost predicate Walk(g: Graph, anchors: seq<string>, w: seq<string>) {
    && w != [] && w[0] in anchors
    && (forall i :: 0 <= i < |w| ==> w[i] in g)
    && (forall i :: 0 <= i < |w| - 1 ==> w[i + 1] in g[w[i]].callees)
  }

  ghost predicate WalkTo(g: Graph, anchors: seq<string>, w: seq<string>, x: string, n: nat) {
    Walk(g, anchors, w) && |w| <= n + 1 && w[|w| - 1] == x
  }

  /** Being reached within n calls means that a chain of at most n calls ends there. */
  lemma {:induction false} ReachIffWalk(g: Graph, anchors: seq<string>, x: string, n: nat)
    ensures x in Reach(g, anchors, n) <==> exists w :: WalkTo(g, anchors, w, x, n)
  {
    KnownMembers(g, anchors);
    if x in Reach(g, anchors, n) {
      var w := ReachHasWalk(g, anchors, x, n);
    }
    if w :| WalkTo(g, anchors, w, x, n) {
      WalkReaches(g, anchors, w, x, n);
    }
  }

  lemma {:induction false} ReachHasWalk(g: Graph, anchors: seq<string>, x: string, n: nat) returns (w: seq<string>)
    requires x in Reach(g, anchors, n)
    ensures WalkTo(g, anchors, w, x, n)
    decreases n
  {
    hide WalkTo, Reach, CalleesOf;
    if n == 0 {
      AnchorWalk(g, anchors, x);
      w := [x];
    } else if x in Reach(g, anchors, n - 1) {
      w := ReachHasWalk(g, anchors, x, n - 1);
      WalkWeakens(g, anchors, w, x, n - 1);
    } else {
      var y := ReachedFrom(g, anchors, x, n);
      w := ReachHasWalk(g, anchors, y, n - 1);
      WalkExtends(g, anchors, w, y, x, n - 1);
      w := w + [x];
    }
  }

  lemma AnchorWalk(g: Graph, anchors: seq<string>, x: string)
    requires x in Reach(g, anchors, 0)
    ensures WalkTo(g, anchors, [x], x, 0)
  {
    KnownMembers(g, anchors);
  }

  lemma ReachedFrom(g: Graph, anchors: seq<string>, x: string, n: nat) returns (y: string)
    requires n > 0 && x in Reach(g, anchors, n) && x !in Reach(g, anchors, n - 1)
    ensures y in Reach(g, anchors, n - 1) && x in CalleesOf(g)(y)
  {
    assert x in Called(g, Reach(g, anchors, n - 1));
    y :| y in Reach(g, anchors, n - 1) && x in CalleesOf(g)(y);
  }

  lemma WalkWeakens(g: Graph, anchors: seq<string>, w: seq<string>, x: string, n: nat)
    requires WalkTo(g, anchors, w, x, n)
    ensures WalkTo(g, anchors, w, x, n + 1)
  {
  }

  lemma WalkExtends(g: Graph, anchors: seq<string>, w: seq<string>, y: string, x: string, n: nat)
    requires WalkTo(g, anchors, w, y, n) && x in CalleesOf(g)(y)
    ensures WalkTo(g, anchors, w + [x], x, n + 1)
  {
    KnownMembers(g, g[y].callees);
    var longer := w + [x];
    forall i | 0 <= i < |longer| - 1 ensures longer[i + 1] in g[longer[i]].callees {
    }
  }

  lemma WalkShortens(g: Graph, anchors: seq<string>, w: seq<string>, x: string, n: nat) returns (y: string)
    requires WalkTo(g, anchors, w, x, n) && |w| > 1
    ensures n > 0 && WalkTo(g, anchors, w[..|w| - 1], y, n - 1) && x in CalleesOf(g)(y)
  {
    y := w[|w| - 2];
    assert w[|w| - 2 + 1] in g[w[|w| - 2]].callees;
    KnownMembers(g, g[y].callees);
  }

  lemma {:induction false} WalkReaches(g: Graph, anchors: seq<string>, w: seq<string>, x: string, n: nat)
    requires WalkTo(g, anchors, w, x, n)
    ensures x in Reach(g, anchors, n)
    decreases |w|
  {
    if |w| == 1 {
      KnownMembers(g, anchors);
      ReachGrows(g, anchors, 0, n);
    } else {
      hide WalkTo;
      var y := WalkShortens(g, anchors, w, x, n);
      WalkReaches(g, anchors, w[..|w| - 1], y, n - 1);
      assert x in Called(g, Reach(g, anchors, n - 1));
    }
  }

  lemma {:induction false} ReachGrows(g: Graph, anchors: seq<string>, m: nat, n: nat)
    requires m <= n
    ensures Reach(g, anchors, m) <= Reach(g, anchors, n)
  {
    if m < n {
      ReachGrows(g, anchors, m, n - 1);
    }
  }

  /** `d` is the distance of `x` from the anchors. */
  ghost predicate IsDistance(g: Graph, anchors: seq<string>, x: string, d: nat) {
    x in Reach(g, anchors, d) && (d > 0 ==> x !in Reach(g, anchors, d - 1))
  }

  /** That is, the shortest chain of calls that leads from an anchor to `x` has d calls. */
  lemma DistanceIs(g: Graph, anchors: seq<string>, x: string, d: nat)
    ensures IsDistance(g, anchors, x, d) <==>
      && (exists w :: WalkTo(g, anchors, w, x, d) && |w| == d + 1)
      && (forall w :: Walk(g, anchors, w) && w[|w| - 1] == x ==> |w| >= d + 1)
  {
    ReachIffWalk(g, anchors, x, d);
    if d > 0 {
      ReachIffWalk(g, anchors, x, d - 1);
    }
    hide Reach;
    if IsDistance(g, anchors, x, d) {
      forall w | Walk(g, anchors, w) && w[|w| - 1] == x ensures |w| >= d + 1 {
        assert |w| <= d ==> WalkTo(g, anchors, w, x, d - 1);
      }
    }
  }

  // ---- Level by level ----

  /** A level, then the first occurrences of its unseen callees, and so on for `hops` more levels. */
  ghost function Levels(g: Graph, level: seq<string>, seen: set<string>, hops: nat): seq<string>
    decreases hops
  {
    if hops == 0 then level else
      var all := seen + Members(level);
      level + Levels(g, FirstSeen(Collect(level, CalleesOf(g)), all), all, hops - 1)
  }

  function Hops(hopDepth: int): nat {
    if hopDepth < 0 then 0 else hopDepth
  }

  ghost function LevelOrder(g: Graph, anchors: seq<string>, hopDepth: int): seq<string> {
    Levels(g, FirstSeen(Known(g, anchors), {}), {}, Hops(hopDepth))
  }

  ghost function ReachBefore(g: Graph, anchors: seq<string>, k: nat): set<string> {
    if k == 0 then {} else Reach(g, anchors, k - 1)
  }

  /** Every name further on is at least as far away. */
  ghost predicate NonDecreasing(g: Graph, anchors: seq<string>, order: seq<string>) {
    forall i, j, n: nat :: 0 <= i < j < |order| && order[j] in Reach(g, anchors, n) ==> order[i] in Reach(g, anchors, n)
  }

  lemma {:induction false} LevelsReach(g: Graph, anchors: seq<string>, level: seq<string>, seen: set<string>, k: nat,
                                       hops: nat)
    requires seen == ReachBefore(g, anchors, k) && seen + Members(level) == Reach(g, anchors, k)
    requires Distinct(level) && Apart(seen, Members(level))
    ensures Distinct(Levels(g, level, seen, hops))
    ensures forall x :: x in Levels(g, level, seen, hops) <==> x in Reach(g, anchors, k + hops) && x !in seen
    ensures NonDecreasing(g, anchors, Levels(g, level, seen, hops))
    decreases hops
  {
    hide Reach, Distinct, NonDecreasing;
    LevelIsFlat(g, anchors, level, k);
    FlatNonDecreasing(g, anchors, level, k);
    if hops == 0 {
      assert forall x :: x in level <==> x in Members(level);
    } else {
      var all := seen + Members(level);
      var next := FirstSeen(Collect(level, CalleesOf(g)), all);
      FirstSeenMembers(Collect(level, CalleesOf(g)), all);
      NextLevel(g, anchors, level, seen, k);
      LevelsReach(g, anchors, next, all, k + 1, hops - 1);
      ReachGrows(g, anchors, k, k + hops);
      LevelThenRest(g, anchors, level, Levels(g, next, all, hops - 1), k);
    }
  }

  /** The names of one level are equally far away. */
  lemma LevelIsFlat(g: Graph, anchors: seq<string>, level: seq<string>, k: nat)
    requires Apart(ReachBefore(g, anchors, k), Members(level)) && Members(level) <= Reach(g, anchors, k)
    ensures forall x, n: nat :: x in level ==> (x in Reach(g, anchors, n) <==> n >= k)
  {
    forall x, n: nat | x in level ensures x in Reach(g, anchors, n) <==> n >= k {
      LevelMember(g, anchors, level, k, x, n);
    }
  }

  lemma LevelMember(g: Graph, anchors: seq<string>, level: seq<string>, k: nat, x: string, n: nat)
    requires Apart(ReachBefore(g, anchors, k), Members(level)) && Members(level) <= Reach(g, anchors, k)
    requires x in level
    ensures x in Reach(g, anchors, n) <==> n >= k
  {
    hide Reach;
    assert x in Members(level);
    if n >= k {
      ReachGrows(g, anchors, k, n);
    } else {
      ReachGrows(g, anchors, n, k - 1);
    }
  }

  lemma {:induction false} CollectMembers(g: Graph, level: seq<string>, y: string)
    ensures y in Collect(level, CalleesOf(g)) <==> exists x :: x in level && y in CalleesOf(g)(x)
  {
    if level == [] {
    } else {
      CollectMembers(g, level[1..], y);
      assert level == [level[0]] + level[1..];
    }
  }

  lemma NextLevel(g: Graph, anchors: seq<string>, level: seq<string>, seen: set<string>, k: nat)
    requires seen == ReachBefore(g, anchors, k) && seen + Members(level) == Reach(g, anchors, k)
    ensures
      var all := seen + Members(level);
      var next := FirstSeen(Collect(level, CalleesOf(g)), all);
      Apart(all, Members(next)) && all + Members(next) == Reach(g, anchors, k + 1)
  {
    var all := seen + Members(level);
    var callees := Collect(level, CalleesOf(g));
    FirstSeenMembers(callees, all);
    forall y ensures y in all + Members(FirstSeen(callees, all)) <==> y in Reach(g, anchors, k + 1) {
      CollectMembers(g, level, y);
      if y in Called(g, Reach(g, anchors, k)) {
        var x :| x in Reach(g, anchors, k) && y in CalleesOf(g)(x);
        if x in seen {
          assert y in Called(g, Reach(g, anchors, k - 1));
        } else {
          assert x in level;
        }
      }
    }
  }

  lemma FlatNonDecreasing(g: Graph, anchors: seq<string>, level: seq<string>, k: nat)
    requires forall x, n: nat :: x in level ==> (x in Reach(g, anchors, n) <==> n >= k)
    ensures NonDecreasing(g, anchors, level)
  {
    hide Reach;
    forall i, j, n: nat | 0 <= i < j < |level| && level[j] in Reach(g, anchors, n)
      ensures level[i] in Reach(g, anchors, n)
    {
      assert level[i] in level && level[j] in level;
    }
  }

  lemma LevelThenRest(g: Graph, anchors: seq<string>, level: seq<string>, rest: seq<string>, k: nat)
    requires Distinct(level) && Distinct(rest) && NonDecreasing(g, anchors, rest)
    requires forall x, n: nat :: x in level ==> (x in Reach(g, anchors, n) <==> n >= k)
    requires forall x :: x in rest ==> x !in Reach(g, anchors, k)
    ensures Distinct(level + rest) && NonDecreasing(g, anchors, level + rest)
  {
    hide Reach;
    var order := level + rest;
    forall i, j | 0 <= i < j < |order| ensures order[i] != order[j] {
      if i < |level| && j >= |level| {
        assert order[i] in level && order[j] in rest;
      }
    }
    forall i, j, n: nat | 0 <= i < j < |order| && order[j] in Reach(g, anchors, n)
      ensures order[i] in Reach(g, anchors, n)
    {
      if i < |level| {
        assert order[i] in level;
        if j < |level| {
          assert order[j] in level;
        } else {
          assert order[j] in rest;
          if n < k {
            ReachGrows(g, anchors, n, k);
          }
        }
      }
    }
  }

  /** The level order lists the names within the hop limit, each once, nearest first. */
  lemma LevelOrderReaches(g: Graph, anchors: seq<string>, hopDepth: int)
    ensures Distinct(LevelOrder(g, anchors, hopDepth))
    ensures forall x :: x in LevelOrder(g, anchors, hopDepth) <==> x in Reach(g, anchors, Hops(hopDepth))
    ensures NonDecreasing(g, anchors, LevelOrder(g, anchors, hopDepth))
  {
    var known := Known(g, anchors);
    FirstSeenMembers(known, {});
    assert Members(FirstSeen(known, {})) == Members(known);
    LevelsReach(g, anchors, FirstSeen(known, {}), {}, 0, Hops(hopDepth));
  }

  // ---- The order of discovery ----

  lemma {:induction false} OneMoreLevel(g: Graph, level: seq<string>, seen: set<string>, hops: nat)
    ensures Levels(g, level, seen, hops + 1)
      == level + FirstSeen(Collect(Levels(g, level, seen, hops), CalleesOf(g)), seen + Members(level))
    decreases hops
  {
    hide CalleesOf;
    var all := seen + Members(level);
    var called := Collect(level, CalleesOf(g));
    var next := FirstSeen(called, all);
    if hops == 0 {
      assert Levels(g, next, all, 0) == next;
    } else {
      OneMoreLevel(g, next, all, hops - 1);
      var later := Levels(g, next, all, hops - 1);
      CollectAppend(level, later, CalleesOf(g));
      FirstSeenAppend(called, Collect(later, CalleesOf(g)), all);
      FirstSeenMembers(called, all);
      assert all + Members(next) == all + set x | x in called;
      Extended(level, next, FirstSeen(Collect(later, CalleesOf(g)), all + Members(next)));
    }
  }

  /** The order for one more hop lists the anchors and then everything called from the order so far, each name at its
      first mention. */
  lemma OneMoreHop(g: Graph, anchors: seq<string>, hops: nat)
    ensures LevelOrder(g, anchors, hops + 1)
      == FirstSeen(Known(g, anchors) + Collect(LevelOrder(g, anchors, hops), CalleesOf(g)), {})
  {
    hide CalleesOf, Known;
    var known := Known(g, anchors);
    var level := FirstSeen(known, {});
    OneMoreLevel(g, level, {}, hops);
    FirstSeenMembers(known, {});
    FirstSeenAppend(known, Collect(LevelOrder(g, anchors, hops), CalleesOf(g)), {});
    assert {} + Members(level) == {} + set x | x in known;
  }

  /** All names a symbol calls, defined or not. */
  function NamesCalled(g: Graph): string -> seq<string> {
    n => if n in g then g[n].callees else []
  }

  lemma {:induction false} KnownAppend(g: Graph, a: seq<string>, b: seq<string>)
    ensures Known(g, a + b) == Known(g, a) + Known(g, b)
  {
    if a == [] {
      assert a + b == b;
    } else {
      assert (a + b)[1..] == a[1..] + b;
      KnownAppend(g, a[1..], b);
    }
  }

  lemma {:induction false} CalleesAreKnown(g: Graph, names: seq<string>)
    ensures Collect(names, CalleesOf(g)) == Known(g, Collect(names, NamesCalled(g)))
  {
    if names != [] {
      CalleesAreKnown(g, names[1..]);
      KnownAppend(g, NamesCalled(g)(names[0]), Collect(names[1..], NamesCalled(g)));
    }
  }

  lemma {:induction false} KnownKeepsOrder(g: Graph, s: seq<string>, x: string, y: string)
    requires x in Known(g, s) && y in Known(g, s) && FirstAt(Known(g, s), x) < FirstAt(Known(g, s), y)
    ensures x in s && y in s && FirstAt(s, x) < FirstAt(s, y)
  {
    KnownMembers(g, s);
    if s[0] in g {
      var rest := Known(g, s[1..]);
      assert Known(g, s) == [s[0]] + rest && Known(g, s)[1..] == rest;
      FirstAtLater(Known(g, s), y);
      FirstAtLater(s, y);
      if x != s[0] {
        FirstAtLater(Known(g, s), x);
        FirstAtLater(s, x);
        KnownKeepsOrder(g, s[1..], x, y);
      }
    } else {
      assert Known(g, s) == Known(g, s[1..]);
      FirstAtLater(s, x);
      FirstAtLater(s, y);
      KnownKeepsOrder(g, s[1..], x, y);
    }
  }

  /** Names are taken up in the order in which the anchors and then the callees of what came before mention them. */
  lemma OrderOfDiscovery(g: Graph, anchors: seq<string>, hops: nat)
    ensures InOrder(anchors + Collect(LevelOrder(g, anchors, hops), NamesCalled(g)), LevelOrder(g, anchors, hops + 1))
  {
    hide LevelOrder, Known, CalleesOf, NamesCalled, FirstAt;
    var before, order := LevelOrder(g, anchors, hops), LevelOrder(g, anchors, hops + 1);
    var mentioned := anchors + Collect(before, NamesCalled(g));
    OneMoreHop(g, anchors, hops);
    CalleesAreKnown(g, before);
    KnownAppend(g, anchors, Collect(before, NamesCalled(g)));
    KnownMembers(g, mentioned);
    FirstSeenInOrder(Known(g, mentioned), {});
    forall i, j | 0 <= i < j < |order| ensures order[i] in mentioned && order[j] in mentioned
                                      ensures FirstAt(mentioned, order[i]) < FirstAt(mentioned, order[j])
    {
      KnownKeepsOrder(g, mentioned, order[i], order[j]);
    }
    forall i | 0 <= i < |order| ensures order[i] in mentioned {
      assert order[i] in Known(g, mentioned);
    }
  }

  // ---- Budgets ----

  /** Takes names while their cost fits; stops at the first that does not. */
  function Fitting(order: seq<string>, cost: string -> nat, budget: int, used: int): seq<string> {
    if order == [] || used + cost(order[0]) > budget then []
    else [order[0]] + Fitting(order[1..], cost, budget, used + cost(order[0]))
  }

  lemma {:induction false} FittingPrefix(order: seq<string>, cost: string -> nat, budget: int, used: int)
    ensures
      var taken := Fitting(order, cost, budget, used);
      && taken <= order
      && (taken != [] ==> used + CountBy(taken, cost) <= budget)
      && (|taken| < |order| ==> used + CountBy(order[..|taken| + 1], cost) > budget)
  {
    if order == [] || used + cost(order[0]) > budget {
      if order != [] {
        assert order[..1][1..] == [];
      }
    } else {
      var rest := Fitting(order[1..], cost, budget, used + cost(order[0]));
      FittingPrefix(order[1..], cost, budget, used + cost(order[0]));
      var taken := [order[0]] + rest;
      assert Fitting(order, cost, budget, used) == taken;
      hide Fitting, CountBy;
      assert order == [order[0]] + order[1..];
      CountCons(order[0], rest, cost);
      if |taken| < |order| {
        assert order[..|taken| + 1] == [order[0]] + order[1..][..|rest| + 1];
        CountCons(order[0], order[1..][..|rest| + 1], cost);
      }
    }
  }

  lemma {:induction false} CountPrefix(order: seq<string>, cost: string -> nat, m: nat, n: nat)
    requires m <= n <= |order|
    ensures CountBy(order[..m], cost) <= CountBy(order[..n], cost)
  {
    assert order[..n] == order[..m] + order[m..n];
    CountAppend(order[..m], order[m..n], cost);
  }

  /** The selection is the longest prefix whose total cost is within the budget. */
  lemma FittingIsLongest(order: seq<string>, cost: string -> nat, budget: int, n: nat)
    requires n <= |order|
    ensures Fitting(order, cost, budget, 0) <= order
    ensures 0 < n <= |Fitting(order, cost, budget, 0)| ==> CountBy(order[..n], cost) <= budget
    ensures n > |Fitting(order, cost, budget, 0)| ==> CountBy(order[..n], cost) > budget
  {
    var taken := Fitting(order, cost, budget, 0);
    FittingPrefix(order, cost, budget, 0);
    assert order[..|taken|] == taken;
    if n <= |taken| {
      CountPrefix(order, cost, n, |taken|);
    } else {
      CountPrefix(order, cost, |taken| + 1, n);
    }
  }

  /** A larger budget only extends the selection. */
  lemma FittingGrows(order: seq<string>, cost: string -> nat, small: int, large: int)
    requires small <= large
    ensures Fitting(order, cost, small, 0) <= Fitting(order, cost, large, 0)
  {
    CheaperFitsMore(order, cost, cost, small, large, 0, 0);
  }

  /** So do lower costs. */
  lemma {:induction false} CheaperFitsMore(order: seq<string>, dear: string -> nat, cheap: string -> nat,
                                           small: int, large: int, dearUsed: int, cheapUsed: int)
    requires forall x :: x in order ==> cheap(x) <= dear(x)
    requires small <= large && cheapUsed <= dearUsed
    ensures Fitting(order, dear, small, dearUsed) <= Fitting(order, cheap, large, cheapUsed)
  {
    if order == [] || dearUsed + dear(order[0]) > small {
    } else {
      assert order[0] in order && forall x :: x in order[1..] ==> x in order;
      CheaperFitsMore(order[1..], dear, cheap, small, large, dearUsed + dear(order[0]), cheapUsed + cheap(order[0]));
    }
  }

  /** Two renderings select the same names exactly when each prefix of the order is affordable in both or in neither. */
  lemma SameSelectionIff(order: seq<string>, a: string -> nat, b: string -> nat, budget: int)
    ensures Fitting(order, a, budget, 0) == Fitting(order, b, budget, 0)
      <==> forall n :: 0 < n <= |order| ==> (CountBy(order[..n], a) <= budget <==> CountBy(order[..n], b) <= budget)
  {
    hide Fitting, CountBy;
    var x, y := Fitting(order, a, budget, 0), Fitting(order, b, budget, 0);
    forall n | 0 < n <= |order|
      ensures x <= order && (CountBy(order[..n], a) <= budget <==> n <= |x|)
      ensures y <= order && (CountBy(order[..n], b) <= budget <==> n <= |y|)
    {
      FittingIsLongest(order, a, budget, n);
      FittingIsLongest(order, b, budget, n);
    }
    FittingIsLongest(order, a, budget, 0);
    FittingIsLongest(order, b, budget, 0);
    if |x| < |y| {
      assert CountBy(order[..|y|], a) > budget && CountBy(order[..|y|], b) <= budget;
    } else if |y| < |x| {
      assert CountBy(order[..|x|], b) > budget && CountBy(order[..|x|], a) <= budget;
    } else {
      assert x == order[..|x|] && y == order[..|y|];
    }
  }

  /** A budget for the whole order selects the whole order. */
  lemma EnoughBudget(order: seq<string>, cost: string -> nat, budget: int)
    requires CountBy(order, cost) <= budget
    ensures Fitting(order, cost, budget, 0) == order
  {
    FittingPrefix(order, cost, budget, 0);
    FittingIsLongest(order, cost, budget, |order|);
    assert order[..|order|] == order;
  }

  /** Given the budget, the selection is what a chain of at most `hopDepth` calls reaches, each name once, nearest
      first. */
  lemma EnoughBudgetReaches(g: Graph, anchors: seq<string>, hopDepth: int, cost: string -> nat, budget: int)
    requires CountBy(LevelOrder(g, anchors, hopDepth), cost) <= budget
    ensures
      var selection := Fitting(LevelOrder(g, anchors, hopDepth), cost, budget, 0);
      && Distinct(selection) && NonDecreasing(g, anchors, selection)
      && forall x :: x in selection <==> exists w :: WalkTo(g, anchors, w, x, Hops(hopDepth))
  {
    hide LevelOrder, Reach, WalkTo, Fitting, NonDecreasing, Distinct;
    EnoughBudget(LevelOrder(g, anchors, hopDepth), cost, budget);
    LevelOrderReaches(g, anchors, hopDepth);
    forall x ensures x in Reach(g, anchors, Hops(hopDepth)) <==> exists w :: WalkTo(g, anchors, w, x, Hops(hopDepth)) {
      ReachIffWalk(g, anchors, x, Hops(hopDepth));
    }
  }
}
