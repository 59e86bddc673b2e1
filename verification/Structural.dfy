/** src/chips/compiler/structural.py: the breadth-first retrieval of symbols under a hop limit and a token budget. */
module Structural {
  import opened Sums
  import opened CallGraph

  datatype Item = Item(name: string, kind: string, filePath: string, rendered: string, callees: seq<string>)

  /** One token per four characters, at least one. */
  function Tokens(text: string): nat {
    if |text| / 4 < 1 then 1 else |text| / 4
  }

  function Rendering(sym: Symbol, bodies: bool): string {
    if bodies then sym.bodyText else sym.signatureText
  }

  function Cost(g: Graph, bodies: bool): string -> nat {
    n => if n in g then Tokens(Rendering(g[n], bodies)) else 0
  }

  function ItemOf(g: Graph, bodies: bool): string -> seq<Item> {
    n => if n in g then [Item(n, g[n].kind, g[n].filePath, Rendering(g[n], bodies), g[n].callees)] else []
  }

  // ---- The dictionary of symbols: the last definition of a name wins, at the place of the first ----

  function Defined(symbols: seq<Symbol>): Graph {
    if symbols == [] then map[]
    else
      var earlier := Defined(symbols[..|symbols| - 1]);
      earlier[symbols[|symbols| - 1].name := symbols[|symbols| - 1]]
  }

  function NameOf(): Symbol -> seq<string> {
    (s: Symbol) => [s.name]
  }

  function DefinedNames(symbols: seq<Symbol>): seq<string> {
    FirstSeen(Collect(symbols, NameOf()), {})
  }

  /** anchor_names or list(all_symbols.keys())[:5] */
  function Anchors(symbols: seq<Symbol>, anchorNames: seq<string>): seq<string> {
    if anchorNames != [] then anchorNames
    else
      var names := DefinedNames(symbols);
      if |names| <= 5 then names else names[..5]
  }

  /** The names of the symbols, as they come. */
  function NamesOf(symbols: seq<Symbol>): seq<string> {
    seq(|symbols|, i requires 0 <= i < |symbols| => symbols[i].name)
  }

  lemma {:induction false} NamesAre(symbols: seq<Symbol>)
    ensures Collect(symbols, NameOf()) == NamesOf(symbols)
  {
    if symbols != [] {
      NamesAre(symbols[1..]);
      assert NamesOf(symbols) == [symbols[0].name] + NamesOf(symbols[1..]);
    }
  }

  /** The first n different names of a list, in the order of their first occurrences. */
  ghost predicate FirstNames(names: seq<string>, chosen: seq<string>, n: nat) {
    && |chosen| <= n
    && (forall i :: 0 <= i < |chosen| ==> chosen[i] in names)
    && (forall i, j :: 0 <= i < j < |chosen| ==> FirstAt(names, chosen[i]) < FirstAt(names, chosen[j]))
    && (forall x :: x in names && x !in chosen ==>
          |chosen| == n && forall i :: 0 <= i < |chosen| ==> FirstAt(names, chosen[i]) < FirstAt(names, x))
  }

  /** Anchors given are taken as they are; otherwise the first five names defined are. */
  lemma AnchorsAre(symbols: seq<Symbol>, anchorNames: seq<string>)
    ensures anchorNames != [] ==> Anchors(symbols, anchorNames) == anchorNames
    ensures anchorNames == [] ==> FirstNames(NamesOf(symbols), Anchors(symbols, anchorNames), 5)
  {
    NamesAre(symbols);
    FirstOfSeen(NamesOf(symbols), 5);
  }

  lemma FirstOfSeen(names: seq<string>, n: nat)
    ensures
      var all := FirstSeen(names, {});
      FirstNames(names, if |all| <= n then all else all[..n], n)
  {
    hide FirstSeen, FirstAt;
    var all := FirstSeen(names, {});
    FirstSeenInOrder(names, {});
    FirstSeenMembers(names, {});
    var chosen := if |all| <= n then all else all[..n];
    assert forall i :: 0 <= i < |chosen| ==> chosen[i] == all[i];
    forall x | x in names && x !in chosen
      ensures |chosen| == n && forall i :: 0 <= i < |chosen| ==> FirstAt(names, chosen[i]) < FirstAt(names, x)
    {
      var j :| 0 <= j < |all| && all[j] == x;
      assert j >= |chosen|;
      forall i | 0 <= i < |chosen| ensures FirstAt(names, chosen[i]) < FirstAt(names, x) {
        assert FirstAt(names, all[i]) < FirstAt(names, all[j]);
      }
    }
  }

  /** The place from which no later symbol has the name. */
  ghost predicate IsLast(symbols: seq<Symbol>, i: nat, n: string) {
    && i < |symbols| && symbols[i].name == n
    && forall j :: i < j < |symbols| ==> symbols[j].name != n
  }

  /** A name is defined exactly when some symbol has it, and its definition is the last symbol that does. */
  lemma {:induction false} LastDefinitionKept(symbols: seq<Symbol>, n: string)
    ensures n in Defined(symbols) <==> exists i :: 0 <= i < |symbols| && symbols[i].name == n
    ensures forall i: nat :: IsLast(symbols, i, n) ==> n in Defined(symbols) && Defined(symbols)[n] == symbols[i]
    ensures n in Defined(symbols) ==> exists i: nat :: IsLast(symbols, i, n)
  {
    if symbols != [] {
      var front, last := symbols[..|symbols| - 1], symbols[|symbols| - 1];
      assert symbols == front + [last];
      LastDefinitionKept(front, n);
      if last.name == n {
        assert IsLast(symbols, |symbols| - 1, n);
      } else {
        forall i: nat ensures IsLast(symbols, i, n) <==> IsLast(front, i, n) {
          assert forall j :: 0 <= j < |front| ==> symbols[j] == front[j];
        }
        assert forall i :: 0 <= i < |front| ==> symbols[i] == front[i];
      }
    }
  }

  method CollectSymbols(symbols: seq<Symbol>) returns (g: Graph)
    ensures g == Defined(symbols)
    ensures forall n :: n in g <==> exists i :: 0 <= i < |symbols| && symbols[i].name == n
    ensures forall n, i: nat :: IsLast(symbols, i, n) ==> n in g && g[n] == symbols[i]
  {
    g := map[];
    var i := 0;
    while i < |symbols|
      invariant 0 <= i <= |symbols|
      invariant g == Defined(symbols[..i])
    {
      assert symbols[..i + 1][..i] == symbols[..i];
      g := g[symbols[i].name := symbols[i]];
      i := i + 1;
    }
    assert symbols[..i] == symbols;
    forall n {
      LastDefinitionKept(symbols, n);
    }
  }

  // ---- The state of the search ----

  /** What the search will still visit: the rest of the level being popped, then the levels below it. */
  ghost function Remaining(g: Graph, hops: nat, k: nat, cur: seq<string>, next: seq<string>, visited: set<string>)
    : seq<string>
    requires k <= hops
  {
    var unseen := FirstSeen(cur, visited);
    if k == hops then unseen else
      var all := visited + Members(cur);
      unseen + Levels(g, FirstSeen(next + Collect(unseen, CalleesOf(g)), all), all, hops - k - 1)
  }

  /** Dropping a repeated name leaves what remains as it is. */
  lemma RemainingSkip(g: Graph, hops: nat, k: nat, cur: seq<string>, next: seq<string>, visited: set<string>)
    requires k <= hops && cur != [] && cur[0] in visited
    ensures Remaining(g, hops, k, cur[1..], next, visited) == Remaining(g, hops, k, cur, next, visited)
  {
    assert visited + Members(cur[1..]) == visited + Members(cur) by {
      assert cur == [cur[0]] + cur[1..];
    }
  }

  /** The callees a visit enqueues. */
  function Enqueued(g: Graph, callees: seq<string>, visited: set<string>): seq<string> {
    if callees == [] then []
    else (if callees[0] !in visited && callees[0] in g then [callees[0]] else []) + Enqueued(g, callees[1..], visited)
  }

  /** What visiting `n` in level k adds to the queue. */
  function EnqueuedAt(g: Graph, hops: nat, k: nat, n: string, visited: set<string>): seq<string>
    requires n in g
  {
    if k < hops then Enqueued(g, g[n].callees, visited + {n}) else []
  }

  lemma {:induction false} EnqueuedMembers(g: Graph, callees: seq<string>, visited: set<string>)
    ensures forall x :: x in Enqueued(g, callees, visited) <==> x in callees && x in g && x !in visited
  {
    if callees == [] {
    } else {
      EnqueuedMembers(g, callees[1..], visited);
    }
  }

  /** Names already seen may be left out of a list without changing its first occurrences. */
  lemma {:induction false} EnqueuedFirstSeen(g: Graph, callees: seq<string>, visited: set<string>, seen: set<string>)
    requires visited <= seen
    ensures FirstSeen(Enqueued(g, callees, visited), seen) == FirstSeen(Known(g, callees), seen)
    ensures seen + Members(Enqueued(g, callees, visited)) == seen + Members(Known(g, callees))
  {
    if callees == [] {
    } else {
      var c, rest := callees[0], callees[1..];
      ConsSeen(c, Known(g, rest), seen);
      ConsSeen(c, Enqueued(g, rest, visited), seen);
      EnqueuedFirstSeen(g, rest, visited, seen);
      EnqueuedFirstSeen(g, rest, visited, seen + {c});
      assert [] + Known(g, rest) == Known(g, rest);
      assert [] + Enqueued(g, rest, visited) == Enqueued(g, rest, visited);
    }
  }

  lemma ConsSeen(c: string, rest: seq<string>, seen: set<string>)
    ensures FirstSeen([c] + rest, seen)
         == if c in seen then FirstSeen(rest, seen) else [c] + FirstSeen(rest, seen + {c})
    ensures seen + Members([c] + rest) == seen + {c} + Members(rest)
  {
  }

  /** Visiting an unseen name emits it and hands its callees to the next level. */
  lemma RemainingVisit(g: Graph, hops: nat, k: nat, cur: seq<string>, next: seq<string>, visited: set<string>,
                       more: seq<string>)
    requires k <= hops && cur != [] && cur[0] !in visited && cur[0] in g
    requires k == hops ==> next == []
    requires more == EnqueuedAt(g, hops, k, cur[0], visited)
    ensures Remaining(g, hops, k, cur, next, visited)
         == [cur[0]] + Remaining(g, hops, k, cur[1..], next + more, visited + {cur[0]})
  {
    hide Levels, Collect, Enqueued, FirstSeen;
    var n, rest := cur[0], cur[1..];
    var after := visited + {n};
    assert cur == [n] + rest;
    ConsSeen(n, rest, visited);
    assert after + Members(rest) == visited + Members(cur);
    if k < hops {
      var all := visited + Members(cur);
      var unseen := FirstSeen(rest, after);
      CollectAppend([n], unseen, CalleesOf(g));
      CollectSingle(n, CalleesOf(g));
      HandedOn(g, next, g[n].callees, Collect(unseen, CalleesOf(g)), after, all);
      Extended([n], unseen, Levels(g, FirstSeen(next + Collect([n] + unseen, CalleesOf(g)), all), all, hops - k - 1));
    } else {
      assert next + [] == next;
    }
  }

  lemma HandedOn(g: Graph, next: seq<string>, callees: seq<string>, others: seq<string>, visited: set<string>,
                 all: set<string>)
    requires visited <= all
    ensures FirstSeen(next + (Known(g, callees) + others), all)
         == FirstSeen(next + Enqueued(g, callees, visited) + others, all)
  {
    var known, enqueued := Known(g, callees), Enqueued(g, callees, visited);
    var seen := all + Members(next);
    FirstSeenAppend(next, known + others, all);
    FirstSeenAppend(known, others, seen);
    FirstSeenAppend(next, enqueued + others, all);
    FirstSeenAppend(enqueued, others, seen);
    assert next + enqueued + others == next + (enqueued + others);
    EnqueuedFirstSeen(g, callees, visited, seen);
  }

  /** When a level is used up, the queue holds the next one. */
  lemma RemainingShift(g: Graph, hops: nat, k: nat, next: seq<string>, visited: set<string>)
    requires k < hops
    ensures Remaining(g, hops, k, [], next, visited) == Remaining(g, hops, k + 1, next, [], visited)
  {
    var unseen := FirstSeen(next, visited);
    assert visited + Members([]) == visited;
    assert next + Collect<string, string>([], CalleesOf(g)) == next;
    assert [] + Collect(unseen, CalleesOf(g)) == Collect(unseen, CalleesOf(g));
    FirstSeenMembers(next, visited);
    assert visited + Members(unseen) == visited + Members(next);
  }

  lemma NothingRemains(g: Graph, hops: nat, k: nat, visited: set<string>)
    requires k <= hops
    ensures Remaining(g, hops, k, [], [], visited) == []
  {
    if k < hops {
      assert [] + Collect<string, string>([], CalleesOf(g)) == [];
      NoLevels(g, visited + Members([]), hops - k - 1);
    }
  }

  lemma {:induction false} NoLevels(g: Graph, seen: set<string>, hops: nat)
    ensures Levels(g, [], seen, hops) == []
    decreases hops
  {
    if hops > 0 {
      NoLevels(g, seen + Members([]), hops - 1);
    }
  }

  // ---- Depths ----

  type Depths = map<string, nat>

  /** setdefault for every name of the list */
  function WithDefaults(depth: Depths, names: seq<string>, d: nat): Depths {
    map x | x in depth.Keys + Members(names) :: if x in depth then depth[x] else d
  }

  /** In the middle of level k: what is reached, what is queued, and the depth of both. */
  ghost predicate Frontier(g: Graph, anchors: seq<string>, hops: nat, k: nat, cur: seq<string>, next: seq<string>,
                           visited: set<string>, depth: Depths)
  {
    && k <= hops && (k == hops ==> next == [])
    && visited + Members(cur) == Reach(g, anchors, k)
    && Members(next) <= Reach(g, anchors, k + 1)
    && depth.Keys == visited + Members(cur) + Members(next)
    && (forall x :: x in depth ==> x in g && IsDistance(g, anchors, x, depth[x]))
    && (forall x :: x in cur && x !in visited ==> depth[x] == k)
    && (forall x :: x in next && x !in visited && x !in cur ==> depth[x] == k + 1)
    && (k < hops ==> Called(g, visited) <= depth.Keys)
  }

  lemma FrontierStart(g: Graph, anchors: seq<string>, hops: nat)
    ensures
      var queue := Known(g, anchors);
      Frontier(g, anchors, hops, 0, queue, [], {}, map x | x in queue :: 0)
  {
    KnownMembers(g, anchors);
  }

  lemma FrontierSkip(g: Graph, anchors: seq<string>, hops: nat, k: nat, cur: seq<string>, next: seq<string>,
                     visited: set<string>, depth: Depths)
    requires Frontier(g, anchors, hops, k, cur, next, visited, depth) && cur != [] && cur[0] in visited
    ensures Frontier(g, anchors, hops, k, cur[1..], next, visited, depth)
  {
    hide Reach, IsDistance, Called;
    assert cur == [cur[0]] + cur[1..];
    assert visited + Members(cur[1..]) == visited + Members(cur);
  }

  lemma FrontierVisit(g: Graph, anchors: seq<string>, hops: nat, k: nat, cur: seq<string>, next: seq<string>,
                      visited: set<string>, depth: Depths, more: seq<string>)
    requires Frontier(g, anchors, hops, k, cur, next, visited, depth) && cur != [] && cur[0] !in visited && cur[0] in g
    requires more == EnqueuedAt(g, hops, k, cur[0], visited)
    ensures Frontier(g, anchors, hops, k, cur[1..], next + more, visited + {cur[0]}, WithDefaults(depth, more, k + 1))
  {
    hide Reach, IsDistance, Called, Enqueued, CalleesOf;
    var n, rest := cur[0], cur[1..];
    var after := visited + {n};
    assert cur == [n] + rest;
    assert after + Members(rest) == visited + Members(cur);
    assert n in Members(cur);
    assert Members(next + more) == Members(next) + Members(more);
    if k < hops {
      NewCallees(g, anchors, k, n, after);
      CalledGrows(g, visited, n);
    }
  }

  lemma CalledGrows(g: Graph, visited: set<string>, n: string)
    ensures Called(g, visited + {n}) == Called(g, visited) + Members(CalleesOf(g)(n))
  {
  }

  /** The callees of a name at distance k that are not reached yet are at distance k + 1. */
  lemma NewCallees(g: Graph, anchors: seq<string>, k: nat, n: string, visited: set<string>)
    requires n in g && n in Reach(g, anchors, k)
    ensures
      var more := Enqueued(g, g[n].callees, visited);
      && Members(more) <= Reach(g, anchors, k + 1)
      && (forall x :: x in more ==> x in g)
      && (forall x :: x in more && x !in Reach(g, anchors, k) ==> IsDistance(g, anchors, x, k + 1))
      && Members(CalleesOf(g)(n)) <= visited + Members(more)
  {
    var more := Enqueued(g, g[n].callees, visited);
    EnqueuedMembers(g, g[n].callees, visited);
    KnownMembers(g, g[n].callees);
    forall x | x in more ensures x in Reach(g, anchors, k + 1) {
      assert x in CalleesOf(g)(n);
      assert x in Called(g, Reach(g, anchors, k));
    }
  }

  lemma FrontierShift(g: Graph, anchors: seq<string>, hops: nat, k: nat, next: seq<string>, visited: set<string>,
                      depth: Depths)
    requires Frontier(g, anchors, hops, k, [], next, visited, depth) && next != []
    ensures k < hops && Frontier(g, anchors, hops, k + 1, next, [], visited, depth)
  {
    assert visited == Reach(g, anchors, k);
    assert visited + Members(next) == Reach(g, anchors, k + 1);
  }

  // ---- The search ----

  lemma WithDefaultsCons(depth: Depths, c: string, rest: seq<string>, d: nat)
    ensures WithDefaults(depth, [c] + rest, d) == WithDefaults(if c in depth then depth else depth[c := d], rest, d)
  {
  }

  /** The enqueueing loop of one visit. */
  method EnqueueCallees(g: Graph, callees: seq<string>, visited: set<string>, d: nat, queue0: seq<string>,
                        depth0: Depths)
    returns (queue: seq<string>, depth: Depths)
    ensures queue == queue0 + Enqueued(g, callees, visited)
    ensures depth == WithDefaults(depth0, Enqueued(g, callees, visited), d)
  {
    hide Enqueued, WithDefaults;
    queue, depth := queue0, depth0;
    var i := 0;
    assert callees[0..] == callees;
    while i < |callees|
      invariant 0 <= i <= |callees|
      invariant queue + Enqueued(g, callees[i..], visited) == queue0 + Enqueued(g, callees, visited)
      invariant WithDefaults(depth, Enqueued(g, callees[i..], visited), d)
             == WithDefaults(depth0, Enqueued(g, callees, visited), d)
    {
      var callee := callees[i];
      ghost var rest := Enqueued(g, callees[i + 1..], visited);
      EnqueuedStep(g, callees, i, visited);
      if callee !in visited && callee in g {
        WithDefaultsCons(depth, callee, rest, d);
        Extended(queue, [callee], rest);
        if callee !in depth {
          depth := depth[callee := d];
        }
        queue := queue + [callee];
      }
      i := i + 1;
    }
    NothingEnqueued(g, callees[i..], visited);
    NoDefaults(depth, d);
    assert queue + [] == queue;
  }

  lemma EnqueuedStep(g: Graph, callees: seq<string>, i: nat, visited: set<string>)
    requires i < |callees|
    ensures Enqueued(g, callees[i..], visited)
         == if callees[i] !in visited && callees[i] in g then [callees[i]] + Enqueued(g, callees[i + 1..], visited)
            else Enqueued(g, callees[i + 1..], visited)
  {
  }

  lemma NothingEnqueued(g: Graph, callees: seq<string>, visited: set<string>)
    requires callees == []
    ensures Enqueued(g, callees, visited) == []
  {
  }

  /** One retrieval: the graph, where it starts, how far it goes and what it may spend. */
  datatype Task = Task(g: Graph, anchors: seq<string>, hopDepth: int, cost: string -> nat, budget: int)
  {
    function Limit(): nat { Hops(hopDepth) }

    ghost function Selection(): seq<string> {
      Fitting(LevelOrder(g, anchors, hopDepth), cost, budget, 0)
    }
  }

  /** The loop's state, with the queue divided into the rest of level k and the start of level k + 1. */
  datatype State = State(k: nat, cur: seq<string>, next: seq<string>, visited: set<string>, depth: Depths,
                         taken: seq<string>, used: int)

  /** The names taken so far, followed by what the budget still pays for, are the selection. */
  ghost predicate Searching(t: Task, s: State) {
    && Frontier(t.g, t.anchors, t.Limit(), s.k, s.cur, s.next, s.visited, s.depth)
    && s.taken + Fitting(Remaining(t.g, t.Limit(), s.k, s.cur, s.next, s.visited), t.cost, t.budget, s.used)
      == t.Selection()
  }

  ghost function Started(t: Task): State {
    var queue := Known(t.g, t.anchors);
    State(0, queue, [], {}, map x | x in queue :: 0, [], 0)
  }

  ghost function Shifted(s: State): State {
    if s.cur == [] && s.next != [] then s.(k := s.k + 1, cur := s.next, next := []) else s
  }

  ghost function Skipped(s: State): State
    requires s.cur != []
  {
    s.(cur := s.cur[1..])
  }

  ghost function Taken(t: Task, s: State): State
    requires s.cur != [] && s.cur[0] in t.g
  {
    var n := s.cur[0];
    var more := EnqueuedAt(t.g, t.Limit(), s.k, n, s.visited);
    State(s.k, s.cur[1..], s.next + more, s.visited + {n}, WithDefaults(s.depth, more, s.k + 1),
          s.taken + [n], s.used + t.cost(n))
  }

  /** The names taken so far have been visited. */
  ghost predicate TakenVisited(s: State) {
    forall x :: x in s.taken ==> x in s.visited
  }

  lemma TakenStart(t: Task)
    ensures TakenVisited(Started(t))
  {
  }

  lemma TakenMoves(s: State)
    requires TakenVisited(s)
    ensures TakenVisited(Shifted(s))
    ensures s.cur != [] ==> TakenVisited(Skipped(s))
  {
  }

  lemma TakenTake(t: Task, s: State)
    requires TakenVisited(s) && s.cur != [] && s.cur[0] in t.g
    ensures TakenVisited(Taken(t, s))
  {
  }

  /** The depth table has every name taken, and only distances. */
  lemma DepthsAre(t: Task, s: State)
    requires Searching(t, s) && TakenVisited(s)
    ensures forall x :: x in s.taken ==> x in s.depth
    ensures forall x :: x in s.depth ==> IsDistance(t.g, t.anchors, x, s.depth[x])
  {
  }

  lemma SearchStart(t: Task)
    ensures Searching(t, Started(t))
  {
    hide Frontier, Remaining, LevelOrder, Fitting;
    FrontierStart(t.g, t.anchors, t.Limit());
    RemainingStart(t.g, t.anchors, t.hopDepth);
    assert [] + t.Selection() == t.Selection();
  }

  lemma RemainingStart(g: Graph, anchors: seq<string>, hopDepth: int)
    ensures Remaining(g, Hops(hopDepth), 0, Known(g, anchors), [], {}) == LevelOrder(g, anchors, hopDepth)
  {
    var hops, known := Hops(hopDepth), Known(g, anchors);
    var level := FirstSeen(known, {});
    FirstSeenMembers(known, {});
    assert Members(level) == Members(known);
    assert {} + Members(known) == Members(known);
    assert [] + Collect(level, CalleesOf(g)) == Collect(level, CalleesOf(g));
  }

  lemma SearchFacts(t: Task, s: State)
    requires Searching(t, s)
    ensures s.k <= t.Limit() && s.visited <= t.g.Keys
    ensures s.cur != [] && s.cur[0] !in s.visited ==>
      s.cur[0] in t.g && s.cur[0] in s.depth && s.depth[s.cur[0]] == s.k
  {
    hide Fitting, LevelOrder;
    if s.cur != [] {
      assert s.cur[0] in Members(s.cur);
    }
  }

  /** An empty queue ends the search. */
  lemma SearchDone(t: Task, s: State)
    requires Searching(t, s)
    ensures s.cur == [] && s.next == [] ==> s.taken == t.Selection()
  {
    hide Fitting, LevelOrder;
    if s.cur == [] && s.next == [] {
      NothingRemains(t.g, t.Limit(), s.k, s.visited);
      NothingFits(t.cost, t.budget, s.used);
      assert s.taken + [] == s.taken;
    }
  }

  lemma NothingFits(cost: string -> nat, budget: int, used: int)
    ensures Fitting([], cost, budget, used) == []
  {
  }

  lemma SearchShift(t: Task, s: State)
    requires Searching(t, s)
    ensures Searching(t, Shifted(s))
  {
    hide Frontier, Remaining, Fitting, LevelOrder;
    if s.cur == [] && s.next != [] {
      FrontierShift(t.g, t.anchors, t.Limit(), s.k, s.next, s.visited, s.depth);
      RemainingShift(t.g, t.Limit(), s.k, s.next, s.visited);
    }
  }

  lemma SearchSkip(t: Task, s: State)
    requires Searching(t, s) && s.cur != [] && s.cur[0] in s.visited
    ensures Searching(t, Skipped(s))
  {
    FrontierLimit(t.g, t.anchors, t.Limit(), s.k, s.cur, s.next, s.visited, s.depth);
    hide Frontier, Remaining, Fitting, LevelOrder;
    FrontierSkip(t.g, t.anchors, t.Limit(), s.k, s.cur, s.next, s.visited, s.depth);
    RemainingSkip(t.g, t.Limit(), s.k, s.cur, s.next, s.visited);
  }

  /** The first name the budget cannot pay for ends the search. */
  lemma SearchStop(t: Task, s: State)
    requires Searching(t, s) && s.cur != [] && s.cur[0] !in s.visited && s.cur[0] in t.g
    requires s.used + t.cost(s.cur[0]) > t.budget
    ensures s.taken == t.Selection()
  {
    FrontierLimit(t.g, t.anchors, t.Limit(), s.k, s.cur, s.next, s.visited, s.depth);
    hide Frontier, Remaining, EnqueuedAt, LevelOrder, Fitting;
    var more := EnqueuedAt(t.g, t.Limit(), s.k, s.cur[0], s.visited);
    RemainingVisit(t.g, t.Limit(), s.k, s.cur, s.next, s.visited, more);
    FittingHead(s.cur[0], Remaining(t.g, t.Limit(), s.k, s.cur[1..], s.next + more, s.visited + {s.cur[0]}),
                t.cost, t.budget, s.used);
    assert s.taken + [] == s.taken;
  }

  /** Otherwise the name is taken and its callees join the queue. */
  lemma SearchTake(t: Task, s: State)
    requires Searching(t, s) && s.cur != [] && s.cur[0] !in s.visited && s.cur[0] in t.g
    requires s.used + t.cost(s.cur[0]) <= t.budget
    ensures Searching(t, Taken(t, s))
  {
    hide Searching, Frontier, Remaining, EnqueuedAt, WithDefaults, Fitting, LevelOrder;
    SearchParts(t, s);
    var more := EnqueuedAt(t.g, t.Limit(), s.k, s.cur[0], s.visited);
    FrontierVisit(t.g, t.anchors, t.Limit(), s.k, s.cur, s.next, s.visited, s.depth, more);
    SelectionTake(t.g, t.Limit(), s.k, s.cur, s.next, s.visited, s.taken, s.used, t.cost, t.budget, t.Selection(),
      more);
    SearchWhole(t, s.k, s.cur[1..], s.next + more, s.visited + {s.cur[0]}, WithDefaults(s.depth, more, s.k + 1),
                s.taken + [s.cur[0]], s.used + t.cost(s.cur[0]));
  }

  lemma SearchParts(t: Task, s: State)
    requires Searching(t, s)
    ensures Frontier(t.g, t.anchors, t.Limit(), s.k, s.cur, s.next, s.visited, s.depth)
    ensures s.k <= t.Limit() && (s.k == t.Limit() ==> s.next == [])
    ensures s.taken + Fitting(Remaining(t.g, t.Limit(), s.k, s.cur, s.next, s.visited), t.cost, t.budget, s.used)
      == t.Selection()
  {
  }

  lemma SearchWhole(t: Task, k: nat, cur: seq<string>, next: seq<string>, visited: set<string>, depth: Depths,
                    taken: seq<string>, used: int)
    requires Frontier(t.g, t.anchors, t.Limit(), k, cur, next, visited, depth) && k <= t.Limit()
    requires taken + Fitting(Remaining(t.g, t.Limit(), k, cur, next, visited), t.cost, t.budget, used) == t.Selection()
    ensures Searching(t, State(k, cur, next, visited, depth, taken, used))
  {
  }

  lemma SelectionTake(g: Graph, hops: nat, k: nat, cur: seq<string>, next: seq<string>, visited: set<string>,
                      taken: seq<string>, used: int, cost: string -> nat, budget: int, whole: seq<string>,
                      more: seq<string>)
    requires k <= hops && (k == hops ==> next == [])
    requires taken + Fitting(Remaining(g, hops, k, cur, next, visited), cost, budget, used) == whole
    requires cur != [] && cur[0] !in visited && cur[0] in g && used + cost(cur[0]) <= budget
    requires more == EnqueuedAt(g, hops, k, cur[0], visited)
    ensures whole == taken + [cur[0]]
      + Fitting(Remaining(g, hops, k, cur[1..], next + more, visited + {cur[0]}), cost, budget, used + cost(cur[0]))
  {
    hide Remaining, EnqueuedAt, Fitting;
    RemainingVisit(g, hops, k, cur, next, visited, more);
    TakeHead(taken, cur[0], Remaining(g, hops, k, cur[1..], next + more, visited + {cur[0]}), cost, budget, used);
  }

  lemma FittingHead(n: string, rest: seq<string>, cost: string -> nat, budget: int, used: int)
    ensures Fitting([n] + rest, cost, budget, used)
         == if used + cost(n) > budget then [] else [n] + Fitting(rest, cost, budget, used + cost(n))
  {
  }

  lemma TakeHead(taken: seq<string>, n: string, rest: seq<string>, cost: string -> nat, budget: int, used: int)
    requires used + cost(n) <= budget
    ensures taken + Fitting([n] + rest, cost, budget, used) == taken + [n] + Fitting(rest, cost, budget, used + cost(n))
  {
  }

  lemma FrontierLimit(g: Graph, anchors: seq<string>, hops: nat, k: nat, cur: seq<string>, next: seq<string>,
                      visited: set<string>, depth: Depths)
    requires Frontier(g, anchors, hops, k, cur, next, visited, depth)
    ensures k <= hops && (k == hops ==> next == [])
  {
  }

  lemma NoDefaults(depth: Depths, d: nat)
    ensures WithDefaults(depth, [], d) == depth
  {
  }

  lemma QueueHead(cur: seq<string>, next: seq<string>)
    requires cur != []
    ensures (cur + next)[0] == cur[0] && (cur + next)[1..] == cur[1..] + next
  {
  }

  lemma ItemAppend(g: Graph, bodies: bool, taken: seq<string>, name: string)
    ensures Collect(taken + [name], ItemOf(g, bodies)) == Collect(taken, ItemOf(g, bodies)) + ItemOf(g, bodies)(name)
  {
    CollectAppend(taken, [name], ItemOf(g, bodies));
    CollectSingle(name, ItemOf(g, bodies));
  }

  /** Callees are enqueued only within the hop limit. */
  method EnqueueIfNear(g: Graph, name: string, visited: set<string>, d: nat, hopDepth: int,
                       queue0: seq<string>, depth0: Depths)
    returns (queue: seq<string>, depth: Depths)
    requires name in g
    ensures queue == queue0 + EnqueuedAt(g, Hops(hopDepth), d, name, visited)
    ensures depth == WithDefaults(depth0, EnqueuedAt(g, Hops(hopDepth), d, name, visited), d + 1)
  {
    queue, depth := queue0, depth0;
    if d < hopDepth {
      queue, depth := EnqueueCallees(g, g[name].callees, visited + {name}, d + 1, queue0, depth0);
    } else {
      NoDefaults(depth, d + 1);
      assert queue0 + [] == queue0;
    }
  }

  /** The variables of the loop, in terms of its state. */
  ghost predicate Holds(s: State, queue: seq<string>, visited: set<string>, depth: Depths, used: int,
                        results: seq<Item>, items: string -> seq<Item>)
  {
    && queue == s.cur + s.next && visited == s.visited && depth == s.depth && used == s.used
    && results == Collect(s.taken, items)
  }

  lemma HeldStart(t: Task, bodies: bool)
    ensures
      var queue := Known(t.g, t.anchors);
      Holds(Started(t), queue, {}, map x | x in queue :: 0, 0, [], ItemOf(t.g, bodies))
  {
  }

  /** The next name is the head of the current level, once the levels are shifted. */
  lemma HeldHead(s: State, queue: seq<string>, visited: set<string>, depth: Depths, used: int,
                 results: seq<Item>, items: string -> seq<Item>)
    requires Holds(s, queue, visited, depth, used, results, items) && queue != []
    ensures Holds(Shifted(s), queue, visited, depth, used, results, items)
    ensures Shifted(s).cur != [] && Shifted(s).cur[0] == queue[0]
    ensures Shifted(s).visited == visited && Shifted(s).depth == depth && Shifted(s).used == used
  {
  }

  lemma HeldSkip(s: State, queue: seq<string>, visited: set<string>, depth: Depths, used: int,
                 results: seq<Item>, items: string -> seq<Item>)
    requires Holds(s, queue, visited, depth, used, results, items) && s.cur != []
    ensures queue != [] && Holds(Skipped(s), queue[1..], visited, depth, used, results, items)
  {
  }

  lemma HeldTake(t: Task, s: State, queue: seq<string>, visited: set<string>, depth: Depths, used: int,
                 results: seq<Item>, bodies: bool)
    requires Holds(s, queue, visited, depth, used, results, ItemOf(t.g, bodies))
    requires s.cur != [] && s.cur[0] in t.g
    ensures
      var n := s.cur[0];
      var more := EnqueuedAt(t.g, t.Limit(), s.k, n, visited);
      queue != [] && Holds(Taken(t, s), queue[1..] + more, visited + {n}, WithDefaults(depth, more, s.k + 1),
                           used + t.cost(n), results + ItemOf(t.g, bodies)(n), ItemOf(t.g, bodies))
  {
    hide EnqueuedAt, WithDefaults, Collect;
    QueueHead(s.cur, s.next);
    Extended(s.cur[1..], s.next, EnqueuedAt(t.g, t.Limit(), s.k, s.cur[0], visited));
    ItemAppend(t.g, bodies, s.taken, s.cur[0]);
  }

  lemma HeldEnd(s: State, queue: seq<string>, visited: set<string>, depth: Depths, used: int,
                results: seq<Item>, items: string -> seq<Item>)
    requires Holds(s, queue, visited, depth, used, results, items)
    ensures results == Collect(s.taken, items) && depth == s.depth && visited == s.visited
    ensures queue == [] ==> s.cur == [] && s.next == []
  {
  }

  /** The search proper: a first-in first-out queue that may hold a name several times, a visited set, and a depth
      table in which the first entry stands. */
  method Search(g: Graph, anchors: seq<string>, tokenBudget: int, hopDepth: int, bodies: bool)
    returns (results: seq<Item>, ghost depths: Depths)
    ensures results
      == Collect(Fitting(LevelOrder(g, anchors, hopDepth), Cost(g, bodies), tokenBudget, 0), ItemOf(g, bodies))
    ensures forall x :: x in Fitting(LevelOrder(g, anchors, hopDepth), Cost(g, bodies), tokenBudget, 0) ==> x in depths
    ensures forall x :: x in depths ==> IsDistance(g, anchors, x, depths[x])
  {
    hide TakenVisited, Searching, Holds, Shifted, Skipped, Taken, Started, LevelOrder, Collect, EnqueuedAt,
      WithDefaults, IsDistance, Fitting, Known, Hops;
    var visited: set<string> := {};
    var queue := Known(g, anchors);
    var depth: Depths := map x | x in queue :: 0;
    var tokensUsed := 0;
    results := [];
    ghost var t := Task(g, anchors, hopDepth, Cost(g, bodies), tokenBudget);
    ghost var s := Started(t);
    SearchStart(t);
    TakenStart(t);
    HeldStart(t, bodies);
    while queue != []
      invariant Searching(t, s) && TakenVisited(s)
      invariant Holds(s, queue, visited, depth, tokensUsed, results, ItemOf(g, bodies))
      decreases g.Keys - visited, |queue|
    {
      SearchShift(t, s);
      HeldHead(s, queue, visited, depth, tokensUsed, results, ItemOf(g, bodies));
      TakenMoves(s);
      s := Shifted(s);
      SearchFacts(t, s);
      var name := queue[0];
      if name in visited {
        SearchSkip(t, s);
        HeldSkip(s, queue, visited, depth, tokensUsed, results, ItemOf(g, bodies));
        TakenMoves(s);
        s := Skipped(s);
        queue := queue[1..];
        continue;
      }
      var cost := Tokens(Rendering(g[name], bodies));
      if tokensUsed + cost > tokenBudget {
        SearchStop(t, s);
        break;
      }
      SearchTake(t, s);
      TakenTake(t, s);
      HeldTake(t, s, queue, visited, depth, tokensUsed, results, bodies);
      s := Taken(t, s);
      results := results + ItemOf(g, bodies)(name);
      tokensUsed := tokensUsed + cost;
      queue, depth := EnqueueIfNear(g, name, visited, depth[name], hopDepth, queue[1..], depth);
      visited := visited + {name};
    }
    SearchDone(t, s);
    DepthsAre(t, s);
    HeldEnd(s, queue, visited, depth, tokensUsed, results, ItemOf(g, bodies));
    depths := depth;
  }

  /** retrieve_structural after parsing */
  method RetrieveStructural(symbols: seq<Symbol>, anchorNames: seq<string>, tokenBudget: int, hopDepth: int,
                            bodies: bool)
    returns (results: seq<Item>)
    ensures
      var g := Defined(symbols);
      var order := LevelOrder(g, Anchors(symbols, anchorNames), hopDepth);
      results == Collect(Fitting(order, Cost(g, bodies), tokenBudget, 0), ItemOf(g, bodies))
  {
    var g := CollectSymbols(symbols);
    ghost var depths;
    results, depths := Search(g, Anchors(symbols, anchorNames), tokenBudget, hopDepth, bodies);
  }

  // ---- What is returned, and what it costs ----

  /** Four characters to the token, and at least one token. */
  function TextTokens(): Item -> nat {
    (it: Item) => if |it.rendered| < 8 then 1 else |it.rendered| / 4
  }

  /** The results are the symbols selected, one for one, each with its body or its signature. */
  lemma {:induction false} ItemsAre(g: Graph, bodies: bool, names: seq<string>)
    requires forall i :: 0 <= i < |names| ==> names[i] in g
    ensures
      var results := Collect(names, ItemOf(g, bodies));
      && |results| == |names|
      && (forall i :: 0 <= i < |names| ==>
            var sym := g[names[i]];
            && results[i].name == names[i] && results[i].kind == sym.kind && results[i].filePath == sym.filePath
            && results[i].callees == sym.callees
            && (bodies ==> results[i].rendered == sym.bodyText)
            && (!bodies ==> results[i].rendered == sym.signatureText))
      && CountBy(results, TextTokens()) == CountBy(names, Cost(g, bodies))
  {
    if names != [] {
      ItemsAre(g, bodies, names[1..]);
      CollectStepDown(names, ItemOf(g, bodies));
    }
  }

  lemma CollectStepDown<T, R>(s: seq<T>, f: T -> seq<R>)
    requires s != [] && |f(s[0])| == 1
    ensures Collect(s, f)[1..] == Collect(s[1..], f)
  {
  }

  lemma OrderDefined(g: Graph, anchors: seq<string>, hopDepth: int)
    ensures forall x :: x in LevelOrder(g, anchors, hopDepth) ==> x in g
  {
    hide LevelOrder, Reach;
    LevelOrderReaches(g, anchors, hopDepth);
    forall x | x in LevelOrder(g, anchors, hopDepth) ensures x in g {
      ReachIffWalk(g, anchors, x, Hops(hopDepth));
      var w :| WalkTo(g, anchors, w, x, Hops(hopDepth));
    }
  }

  /** The texts returned stay within the budget, and the next symbol in order would not have. */
  lemma BudgetKept(g: Graph, anchors: seq<string>, budget: nat, hopDepth: int, bodies: bool)
    ensures
      var order := LevelOrder(g, anchors, hopDepth);
      var taken := Fitting(order, Cost(g, bodies), budget, 0);
      && CountBy(Collect(taken, ItemOf(g, bodies)), TextTokens()) <= budget
      && (|taken| < |order| ==>
            CountBy(Collect(order[..|taken| + 1], ItemOf(g, bodies)), TextTokens()) > budget)
  {
    hide LevelOrder, ItemOf, TextTokens, Cost;
    var order := LevelOrder(g, anchors, hopDepth);
    var taken := Fitting(order, Cost(g, bodies), budget, 0);
    OrderDefined(g, anchors, hopDepth);
    FittingPrefix(order, Cost(g, bodies), budget, 0);
    forall i | 0 <= i < |order| ensures order[i] in g {
      assert order[i] in order;
    }
    assert forall i :: 0 <= i < |taken| ==> taken[i] == order[i];
    ItemsAre(g, bodies, taken);
    if |taken| < |order| {
      ItemsAre(g, bodies, order[..|taken| + 1]);
    }
  }

  // ---- Bodies and signatures ----

  /** When no signature costs more than its body, the signatures selected extend the bodies selected. */
  lemma SignaturesExtendBodies(g: Graph, anchors: seq<string>, hopDepth: int, budget: int)
    requires forall n :: n in g ==> Tokens(g[n].signatureText) <= Tokens(g[n].bodyText)
    ensures Fitting(LevelOrder(g, anchors, hopDepth), Cost(g, true), budget, 0)
         <= Fitting(LevelOrder(g, anchors, hopDepth), Cost(g, false), budget, 0)
  {
    hide LevelOrder, Fitting;
    CheaperFitsMore(LevelOrder(g, anchors, hopDepth), Cost(g, true), Cost(g, false), budget, budget, 0, 0);
  }

  function Pair(): Graph {
    map["a" := Symbol("a", "function", "m.py", 1, "def a(): b()", "def a():", ["b"]),
        "b" := Symbol("b", "function", "m.py", 2, "def b(): pass", "def b():", [])]
  }

  /** The selection is not the same in general: four tokens pay for one body of three, and for two signatures of two. */
  lemma SelectionsDiffer()
    ensures Fitting(LevelOrder(Pair(), ["a"], 2), Cost(Pair(), true), 4, 0) == ["a"]
    ensures Fitting(LevelOrder(Pair(), ["a"], 2), Cost(Pair(), false), 4, 0) == ["a", "b"]
  {
    PairOrder();
    hide LevelOrder;
    var order := ["a", "b"];
    assert order[1..] == ["b"] && ["b"][1..] == [];
    assert Cost(Pair(), true)("a") == 3 && Cost(Pair(), true)("b") == 3;
    assert Cost(Pair(), false)("a") == 2 && Cost(Pair(), false)("b") == 2;
  }

  lemma PairOrder()
    ensures LevelOrder(Pair(), ["a"], 2) == ["a", "b"]
  {
    var g := Pair();
    assert Known(g, ["a"]) == ["a"] by { assert ["a"][1..] == []; }
    assert FirstSeen(["a"], {}) == ["a"] by { assert ["a"][1..] == []; }
    assert CalleesOf(g)("a") == ["b"] by { assert ["b"][1..] == []; }
    assert CalleesOf(g)("b") == [];
    CollectSingle("a", CalleesOf(g));
    CollectSingle("b", CalleesOf(g));
    assert FirstSeen(["b"], {} + Members(["a"])) == ["b"] by { assert ["b"][1..] == []; }
    NoLevels(g, {} + Members(["a"]) + Members(["b"]), 0);
    assert ["b"] + [] == ["b"] && ["a"] + ["b"] == ["a", "b"];
  }
}
