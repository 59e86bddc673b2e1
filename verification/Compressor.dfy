/** src/chips/compiler/compressor.py: the two-phase choice of soft items under three budgets. */
module Compressor {
  import opened Sums
  import opened Sorting
  import opened Numerals

  datatype SoftContextItem = SoftContextItem(itemId: string, category: string, text: string, score: real)

  /** The compressor's limits; `encode` counts the tokens of a text and is uninterpreted. */
  datatype Limits = Limits(softCharBudget: int, softTokenBudget: int, maxItems: int, encode: string -> nat)

  function CharCost(): SoftContextItem -> nat {
    (item: SoftContextItem) => |item.text| + 4
  }

  function TokenCost(l: Limits): SoftContextItem -> nat {
    (item: SoftContextItem) => if l.encode(item.text) < 1 then 1 else l.encode(item.text)
  }

  function Chars(kept: seq<SoftContextItem>): nat {
    CountBy(kept, CharCost())
  }

  function Tokens(l: Limits, kept: seq<SoftContextItem>): nat {
    CountBy(kept, TokenCost(l))
  }

  predicate ItemFits(l: Limits, item: SoftContextItem, charUsed: int, tokenUsed: int, itemCount: int) {
    && itemCount < l.maxItems
    && charUsed + CharCost()(item) <= l.softCharBudget
    && tokenUsed + TokenCost(l)(item) <= l.softTokenBudget
  }

  /** The item fits on top of what is kept. */
  predicate FitsOn(l: Limits, kept: seq<SoftContextItem>, item: SoftContextItem) {
    ItemFits(l, item, Chars(kept), Tokens(l, kept), |kept|)
  }

  /** The kept items respect the three budgets. */
  predicate Within(l: Limits, kept: seq<SoftContextItem>) {
    |kept| <= l.maxItems && Chars(kept) <= l.softCharBudget && Tokens(l, kept) <= l.softTokenBudget
  }

  /** Sort key (-score, item_id). */
  predicate ItemLe(a: SoftContextItem, b: SoftContextItem) {
    a.score > b.score || (a.score == b.score && StrLe(a.itemId, b.itemId))
  }

  function IdOf(): SoftContextItem -> seq<string> {
    (item: SoftContextItem) => [item.itemId]
  }

  function Ids(items: seq<SoftContextItem>): set<string> {
    set item | item in items :: item.itemId
  }

  // ---- The selection as a function ----

  /** The first item of every category, in order of first appearance. */
  function Heads(ordered: seq<SoftContextItem>, seen: set<string>): seq<SoftContextItem> {
    if ordered == [] then []
    else if ordered[0].category in seen then Heads(ordered[1..], seen)
    else [ordered[0]] + Heads(ordered[1..], seen + {ordered[0].category})
  }

  /** Takes what fits, one after the other. */
  function FirstPhase(l: Limits, heads: seq<SoftContextItem>, kept: seq<SoftContextItem>): seq<SoftContextItem>
    decreases |heads|
  {
    if heads == [] then kept
    else FirstPhase(l, heads[1..], if FitsOn(l, kept, heads[0]) then kept + [heads[0]] else kept)
  }

  /** The same, passing over ids already taken. */
  function SecondPhase(l: Limits, ordered: seq<SoftContextItem>, kept: seq<SoftContextItem>, seen: set<string>)
    : seq<SoftContextItem>
    decreases |ordered|
  {
    if ordered == [] then kept
    else if ordered[0].itemId in seen || !FitsOn(l, kept, ordered[0]) then SecondPhase(l, ordered[1..], kept, seen)
    else SecondPhase(l, ordered[1..], kept + [ordered[0]], seen + {ordered[0].itemId})
  }

  function Ordered(items: seq<SoftContextItem>): seq<SoftContextItem> {
    Sort(items, ItemLe)
  }

  function HeadsKept(l: Limits, items: seq<SoftContextItem>): seq<SoftContextItem> {
    FirstPhase(l, Heads(Ordered(items), {}), [])
  }

  /** Both phases, before the one-item fallback. */
  function Greedy(l: Limits, items: seq<SoftContextItem>): seq<SoftContextItem> {
    SecondPhase(l, Ordered(items), HeadsKept(l, items), Ids(HeadsKept(l, items)))
  }

  function Trim(l: Limits, items: seq<SoftContextItem>): seq<SoftContextItem> {
    if items == [] then []
    else if Greedy(l, items) == [] then
      OrderedItems(items);
      Ordered(items)[..1]
    else Greedy(l, items)
  }

  lemma ItemOrder()
    ensures TotalPreorder(ItemLe)
  {
    forall a, b ensures ItemLe(a, b) || ItemLe(b, a) {
      StrTotal(a.itemId, b.itemId);
    }
    forall a, b, c | ItemLe(a, b) && ItemLe(b, c) ensures ItemLe(a, c) {
      if StrLe(a.itemId, b.itemId) && StrLe(b.itemId, c.itemId) {
        StrTransitive(a.itemId, b.itemId, c.itemId);
      }
    }
  }

  lemma OrderedItems(items: seq<SoftContextItem>)
    ensures SortedBy(ItemLe, Ordered(items)) && multiset(Ordered(items)) == multiset(items)
    ensures |Ordered(items)| == |items| && forall x :: x in Ordered(items) <==> x in items
  {
    ItemOrder();
    SortIsSortedPermutation(items, ItemLe);
    forall x ensures x in Ordered(items) <==> x in items {
      assert x in Ordered(items) <==> x in multiset(items);
    }
  }

  // ---- The loops of the source ----

  lemma UsedBy(l: Limits, kept: seq<SoftContextItem>, item: SoftContextItem)
    ensures Chars(kept + [item]) == Chars(kept) + CharCost()(item)
    ensures Tokens(l, kept + [item]) == Tokens(l, kept) + TokenCost(l)(item)
    ensures Ids(kept + [item]) == Ids(kept) + {item.itemId}
  {
    CountAppend(kept, [item], CharCost());
    CountAppend(kept, [item], TokenCost(l));
    CountSingle(item, CharCost());
    CountSingle(item, TokenCost(l));
  }

  method CategoryHeads(ordered: seq<SoftContextItem>) returns (heads: seq<SoftContextItem>)
    ensures heads == Heads(ordered, {})
  {
    heads := [];
    var categories: set<string> := {};
    var i := 0;
    while i < |ordered|
      invariant 0 <= i <= |ordered|
      invariant heads + Heads(ordered[i..], categories) == Heads(ordered, {})
    {
      var item := ordered[i];
      assert ordered[i..][1..] == ordered[i + 1..];
      if item.category !in categories {
        Extended(heads, [item], Heads(ordered[i + 1..], categories + {item.category}));
        heads := heads + [item];
        categories := categories + {item.category};
      }
      i := i + 1;
    }
  }

  method TrimSoftItems(l: Limits, items: seq<SoftContextItem>) returns (kept: seq<SoftContextItem>)
    ensures kept == Trim(l, items)
  {
    if items == [] {
      return [];
    }
    hide Heads, Sort, CountBy, Ids;
    var ordered := Sort(items, ItemLe);
    var charUsed, tokenUsed := 0, 0;
    kept := [];
    var seenIds: set<string> := {};
    var heads := CategoryHeads(ordered);
    NothingUsed(l);
    var i := 0;
    while i < |heads|
      invariant 0 <= i <= |heads|
      invariant charUsed == Chars(kept) && tokenUsed == Tokens(l, kept) && seenIds == Ids(kept)
      invariant FirstPhase(l, heads[i..], kept) == FirstPhase(l, heads, [])
    {
      assert heads[i..][1..] == heads[i + 1..];
      if ItemFits(l, heads[i], charUsed, tokenUsed, |kept|) {
        UsedBy(l, kept, heads[i]);
        kept := kept + [heads[i]];
        seenIds := seenIds + {heads[i].itemId};
        charUsed := charUsed + |heads[i].text| + 4;
        tokenUsed := tokenUsed + TokenCost(l)(heads[i]);
      }
      i := i + 1;
    }
    var j := 0;
    while j < |ordered|
      invariant 0 <= j <= |ordered|
      invariant charUsed == Chars(kept) && tokenUsed == Tokens(l, kept)
      invariant SecondPhase(l, ordered[j..], kept, seenIds) == Greedy(l, items)
    {
      assert ordered[j..][1..] == ordered[j + 1..];
      if ordered[j].itemId in seenIds || !ItemFits(l, ordered[j], charUsed, tokenUsed, |kept|) {
        j := j + 1;
        continue;
      }
      UsedBy(l, kept, ordered[j]);
      kept := kept + [ordered[j]];
      seenIds := seenIds + {ordered[j].itemId};
      charUsed := charUsed + |ordered[j].text| + 4;
      tokenUsed := tokenUsed + TokenCost(l)(ordered[j]);
      j := j + 1;
    }
    if kept == [] {
      OrderedItems(items);
      kept := ordered[..1];
    }
  }

  lemma NothingUsed(l: Limits)
    ensures Chars([]) == 0 && Tokens(l, []) == 0 && Ids([]) == {}
  {
  }

  // ---- Order of the input ----

  ghost predicate DistinctIds(items: seq<SoftContextItem>) {
    forall i, j :: 0 <= i < j < |items| ==> items[i].itemId != items[j].itemId
  }

  lemma DistinctIdsOrdered(items: seq<SoftContextItem>)
    requires DistinctIds(items)
    ensures AntisymmetricOn(ItemLe, items)
  {
    forall a, b | a in items && b in items && ItemLe(a, b) && ItemLe(b, a) ensures a == b {
      StrTotal(a.itemId, b.itemId);
    }
  }

  /** The order of the input is irrelevant when items of equal rank are equal; they may be listed repeatedly. */
  lemma TrimPermutation(l: Limits, a: seq<SoftContextItem>, b: seq<SoftContextItem>)
    requires multiset(a) == multiset(b) && AntisymmetricOn(ItemLe, a)
    ensures Trim(l, a) == Trim(l, b)
  {
    ItemOrder();
    SortPermutationInvariant(a, b, ItemLe);
    assert |multiset(a)| == |a| && |multiset(b)| == |b|;
  }

  /** The ranking both passes go through is the same for every order of the input. */
  ghost predicate RankedAlike(a: seq<SoftContextItem>) {
    forall b :: multiset(b) == multiset(a) ==> Ordered(b) == Ordered(a)
  }

  /** That is so exactly when items of equal rank are equal. */
  lemma RankedAlikeIff(a: seq<SoftContextItem>)
    ensures RankedAlike(a) <==> AntisymmetricOn(ItemLe, a)
  {
    ItemOrder();
    if AntisymmetricOn(ItemLe, a) {
      forall b | multiset(b) == multiset(a) ensures Ordered(b) == Ordered(a) {
        SortPermutationInvariant(a, b, ItemLe);
      }
    }
    if RankedAlike(a) {
      forall x, y | x in a && y in a && ItemLe(x, y) && ItemLe(y, x) ensures x == y {
        EqualRankEqual(a, x, y);
      }
    }
  }

  /** Two items of equal rank can be exchanged in a sorted list, so they are equal if the ranking is determined. */
  lemma EqualRankEqual(a: seq<SoftContextItem>, x: SoftContextItem, y: SoftContextItem)
    requires RankedAlike(a) && x in a && y in a && ItemLe(x, y) && ItemLe(y, x)
    ensures x == y
  {
    var s := Ordered(a);
    OrderedItems(a);
    var i :| 0 <= i < |s| && s[i] == x;
    var j :| 0 <= j < |s| && s[j] == y;
    var swapped := s[i := y][j := x];
    if i != j {
      ExchangeSorted(s, i, j);
      ExchangePermutes(s, i, j);
      SortOfSorted(swapped, ItemLe);
      assert Ordered(swapped) == swapped;
      assert swapped[j] == x;
    }
  }

  lemma ExchangeSorted(s: seq<SoftContextItem>, i: nat, j: nat)
    requires SortedBy(ItemLe, s) && i < |s| && j < |s| && ItemLe(s[i], s[j]) && ItemLe(s[j], s[i])
    ensures SortedBy(ItemLe, s[i := s[j]][j := s[i]])
  {
    ItemOrder();
    var t := s[i := s[j]][j := s[i]];
    forall k | 0 <= k < |s| ensures ItemLe(t[k], s[k]) && ItemLe(s[k], t[k]) {
    }
    forall p, q | 0 <= p < q < |t| ensures ItemLe(t[p], t[q]) {
      assert ItemLe(t[p], s[p]) && ItemLe(s[p], s[q]) && ItemLe(s[q], t[q]);
    }
  }

  lemma ExchangePermutes<T>(s: seq<T>, i: nat, j: nat)
    requires i < |s| && j < |s|
    ensures multiset(s[i := s[j]][j := s[i]]) == multiset(s)
  {
  }

  /** Two dead-code findings of one object: the identity leaves the confidence out, the text does not. */
  function Finding(confidence: string): SoftContextItem {
    SoftContextItem("find:c0de", "finding", "Dead code: function 'f' in m.py (confidence " + confidence + "%)", 0.0)
  }

  function Roomy(): Limits {
    Limits(400, 400, 10, (text: string) => |text|)
  }

  /** Of the two the first in the input is kept, whichever it is. */
  lemma InputOrderShows()
    ensures Trim(Roomy(), [Finding("60"), Finding("90")]) == [Finding("60")]
    ensures Trim(Roomy(), [Finding("90"), Finding("60")]) == [Finding("90")]
  {
    FirstFindingKept(Finding("60"), Finding("90"));
    FirstFindingKept(Finding("90"), Finding("60"));
  }

  lemma FirstFindingKept(x: SoftContextItem, y: SoftContextItem)
    requires x.itemId == y.itemId && x.category == y.category && x.score == y.score
    requires FitsOn(Roomy(), [], x)
    ensures Trim(Roomy(), [x, y]) == [x]
  {
    StrTotal(x.itemId, y.itemId);
    SortOfSorted([x, y], ItemLe);
    var l, ordered := Roomy(), [x, y];
    assert Ordered(ordered) == ordered && ordered[1..] == [y] && [y][1..] == [] && [x][1..] == [];
    assert Heads([y], {} + {x.category}) == [];
    assert Heads(ordered, {}) == [x];
    assert FirstPhase(l, [x], []) == [x];
    assert Ids([x]) == {x.itemId};
    assert SecondPhase(l, [y], [x], {x.itemId}) == [x];
  }

  // ---- Budgets ----

  lemma {:induction false} FirstPhaseWithin(l: Limits, heads: seq<SoftContextItem>, kept: seq<SoftContextItem>)
    requires kept == [] || Within(l, kept)
    ensures FirstPhase(l, heads, kept) == [] || Within(l, FirstPhase(l, heads, kept))
    decreases |heads|
  {
    if heads == [] {
    } else {
      UsedBy(l, kept, heads[0]);
      FirstPhaseWithin(l, heads[1..], if FitsOn(l, kept, heads[0]) then kept + [heads[0]] else kept);
    }
  }

  lemma {:induction false} SecondPhaseWithin(l: Limits, ordered: seq<SoftContextItem>, kept: seq<SoftContextItem>,
                                             seen: set<string>)
    requires kept == [] || Within(l, kept)
    ensures SecondPhase(l, ordered, kept, seen) == [] || Within(l, SecondPhase(l, ordered, kept, seen))
    ensures kept <= SecondPhase(l, ordered, kept, seen)
    decreases |ordered|
  {
    if ordered == [] {
    } else {
      UsedBy(l, kept, ordered[0]);
      if ordered[0].itemId in seen || !FitsOn(l, kept, ordered[0]) {
        SecondPhaseWithin(l, ordered[1..], kept, seen);
      } else {
        SecondPhaseWithin(l, ordered[1..], kept + [ordered[0]], seen + {ordered[0].itemId});
      }
    }
  }

  /** A longer selection leaves less room. */
  lemma LessRoom(l: Limits, kept: seq<SoftContextItem>, more: seq<SoftContextItem>, item: SoftContextItem)
    requires kept <= more && FitsOn(l, more, item)
    ensures FitsOn(l, kept, item)
  {
    assert more == kept + more[|kept|..];
    CountAppend(kept, more[|kept|..], CharCost());
    CountAppend(kept, more[|kept|..], TokenCost(l));
  }

  /** No item passed over fits at the final totals. */
  lemma {:induction false} SecondPhaseMaximal(l: Limits, ordered: seq<SoftContextItem>, kept: seq<SoftContextItem>,
                                              seen: set<string>, item: SoftContextItem)
    requires kept == [] || Within(l, kept)
    requires Ids(kept) == seen && item in ordered && item.itemId !in Ids(SecondPhase(l, ordered, kept, seen))
    ensures !FitsOn(l, SecondPhase(l, ordered, kept, seen), item)
    decreases |ordered|
  {
    var final := SecondPhase(l, ordered, kept, seen);
    SecondPhaseWithin(l, ordered, kept, seen);
    UsedBy(l, kept, ordered[0]);
    if ordered[0].itemId in seen || !FitsOn(l, kept, ordered[0]) {
      if item == ordered[0] {
        IdsGrow(kept, final);
        if FitsOn(l, final, item) {
          LessRoom(l, kept, final, item);
        }
      } else {
        SecondPhaseMaximal(l, ordered[1..], kept, seen, item);
      }
    } else {
      SecondPhaseWithin(l, ordered[1..], kept + [ordered[0]], seen + {ordered[0].itemId});
      IdsGrow(kept + [ordered[0]], final);
      SecondPhaseMaximal(l, ordered[1..], kept + [ordered[0]], seen + {ordered[0].itemId}, item);
    }
  }

  lemma IdsGrow(a: seq<SoftContextItem>, b: seq<SoftContextItem>)
    requires a <= b
    ensures Ids(a) <= Ids(b)
  {
  }

  lemma GreedyWithin(l: Limits, items: seq<SoftContextItem>)
    ensures Greedy(l, items) == [] || Within(l, Greedy(l, items))
    ensures HeadsKept(l, items) <= Greedy(l, items)
  {
    FirstPhaseWithin(l, Heads(Ordered(items), {}), []);
    SecondPhaseWithin(l, Ordered(items), HeadsKept(l, items), Ids(HeadsKept(l, items)));
  }

  /** Some item fits by itself. */
  ghost predicate SomeFits(l: Limits, items: seq<SoftContextItem>) {
    exists i :: 0 <= i < |items| && FitsOn(l, [], items[i])
  }

  /** Nothing is kept, and the fallback is used, exactly when no single item fits. */
  lemma GreedyEmptyIff(l: Limits, items: seq<SoftContextItem>)
    ensures Greedy(l, items) != [] <==> SomeFits(l, items)
  {
    var kept := Greedy(l, items);
    OrderedItems(items);
    GreedyWithin(l, items);
    if kept == [] && SomeFits(l, items) {
      var i :| 0 <= i < |items| && FitsOn(l, [], items[i]);
      FirstPhaseWithin(l, Heads(Ordered(items), {}), []);
      SecondPhaseMaximal(l, Ordered(items), HeadsKept(l, items), Ids(HeadsKept(l, items)), items[i]);
    }
    if kept != [] {
      GreedyFromItems(l, items);
      assert kept[0] in kept && kept[0] in items;
      FirstFits(l, kept);
    }
  }

  lemma FirstFits(l: Limits, kept: seq<SoftContextItem>)
    requires kept != [] && Within(l, kept)
    ensures FitsOn(l, [], kept[0])
  {
  }

  // ---- The same with the costs written out ----

  /** A text costs its characters and four more. */
  function TextChars(): SoftContextItem -> nat {
    (x: SoftContextItem) => |x.text| + 4
  }

  /** And what the tokenizer says, but never less than one token. */
  function TextTokens(encode: string -> nat): SoftContextItem -> nat {
    (x: SoftContextItem) => if encode(x.text) < 1 then 1 else encode(x.text)
  }

  /** One item is allowed, and this one is within both budgets. */
  predicate FitsAlone(l: Limits, x: SoftContextItem) {
    && 1 <= l.maxItems
    && |x.text| + 4 <= l.softCharBudget
    && 1 <= l.softTokenBudget && l.encode(x.text) <= l.softTokenBudget
  }

  lemma FitsAloneIff(l: Limits, x: SoftContextItem)
    ensures FitsOn(l, [], x) <==> FitsAlone(l, x)
  {
    NothingUsed(l);
  }

  lemma WrittenOut(l: Limits, kept: seq<SoftContextItem>)
    ensures Chars(kept) == CountBy(kept, TextChars()) && Tokens(l, kept) == CountBy(kept, TextTokens(l.encode))
  {
    CountAgrees(kept, CharCost(), TextChars());
    CountAgrees(kept, TokenCost(l), TextTokens(l.encode));
  }

  ghost predicate SomeFitsAlone(l: Limits, items: seq<SoftContextItem>) {
    exists i :: 0 <= i < |items| && FitsAlone(l, items[i])
  }

  lemma SomeFitsIff(l: Limits, items: seq<SoftContextItem>)
    ensures SomeFits(l, items) <==> SomeFitsAlone(l, items)
  {
    forall i | 0 <= i < |items| ensures FitsOn(l, [], items[i]) <==> FitsAlone(l, items[i]) {
      FitsAloneIff(l, items[i]);
    }
  }

  /** If some item fits alone, the items kept respect the number of items, the characters and the tokens. Otherwise the
      one best item is kept. */
  lemma BudgetsKept(l: Limits, items: seq<SoftContextItem>)
    ensures
      var kept := Trim(l, items);
      if SomeFitsAlone(l, items) then
        && |kept| <= l.maxItems
        && CountBy(kept, TextChars()) <= l.softCharBudget
        && CountBy(kept, TextTokens(l.encode)) <= l.softTokenBudget
      else kept <= Ordered(items) && |kept| == if items == [] then 0 else 1
  {
    hide Greedy, Ordered;
    SomeFitsIff(l, items);
    GreedyEmptyIff(l, items);
    OrderedItems(items);
    if SomeFits(l, items) {
      TrimWithinIff(l, items);
      WrittenOut(l, Trim(l, items));
    }
  }

  /** And then every item whose id was not kept would break one of the three. */
  lemma BudgetsUsed(l: Limits, items: seq<SoftContextItem>, x: SoftContextItem)
    requires SomeFitsAlone(l, items) && x in items && x.itemId !in Ids(Trim(l, items))
    ensures
      var kept := Trim(l, items);
      || |kept| == l.maxItems
      || CountBy(kept, TextChars()) + |x.text| + 4 > l.softCharBudget
      || CountBy(kept, TextTokens(l.encode)) + 1 > l.softTokenBudget
      || CountBy(kept, TextTokens(l.encode)) + l.encode(x.text) > l.softTokenBudget
  {
    hide Trim;
    SomeFitsIff(l, items);
    TrimWithinIff(l, items);
    TrimMaximal(l, items, x);
    WrittenOut(l, Trim(l, items));
  }

  /** The order the items are taken in: higher scores first, and of one score the smaller id. */
  lemma OrderedIs(items: seq<SoftContextItem>)
    ensures multiset(Ordered(items)) == multiset(items)
    ensures forall i, j :: 0 <= i < j < |Ordered(items)| ==>
      var a, b := Ordered(items)[i], Ordered(items)[j];
      a.score > b.score || (a.score == b.score && StrLe(a.itemId, b.itemId))
  {
    OrderedItems(items);
  }

  lemma {:induction false} HeadsFromOrdered(ordered: seq<SoftContextItem>, seen: set<string>)
    ensures forall x :: x in Heads(ordered, seen) ==> x in ordered && x.category !in seen
  {
    if ordered == [] {
    } else {
      HeadsFromOrdered(ordered[1..], seen);
      HeadsFromOrdered(ordered[1..], seen + {ordered[0].category});
    }
  }

  lemma {:induction false} FirstPhaseFrom(l: Limits, heads: seq<SoftContextItem>, kept: seq<SoftContextItem>)
    ensures forall x :: x in FirstPhase(l, heads, kept) ==> x in kept || x in heads
    decreases |heads|
  {
    if heads == [] {
    } else {
      FirstPhaseFrom(l, heads[1..], if FitsOn(l, kept, heads[0]) then kept + [heads[0]] else kept);
    }
  }

  lemma {:induction false} SecondPhaseFrom(l: Limits, ordered: seq<SoftContextItem>, kept: seq<SoftContextItem>,
                                           seen: set<string>)
    ensures forall x :: x in SecondPhase(l, ordered, kept, seen) ==> x in kept || x in ordered
    decreases |ordered|
  {
    if ordered == [] {
    } else if ordered[0].itemId in seen || !FitsOn(l, kept, ordered[0]) {
      SecondPhaseFrom(l, ordered[1..], kept, seen);
    } else {
      SecondPhaseFrom(l, ordered[1..], kept + [ordered[0]], seen + {ordered[0].itemId});
    }
  }

  lemma GreedyFromItems(l: Limits, items: seq<SoftContextItem>)
    ensures forall x :: x in Greedy(l, items) ==> x in items
  {
    OrderedItems(items);
    HeadsFromOrdered(Ordered(items), {});
    FirstPhaseFrom(l, Heads(Ordered(items), {}), []);
    SecondPhaseFrom(l, Ordered(items), HeadsKept(l, items), Ids(HeadsKept(l, items)));
  }

  /** The result respects the three budgets exactly when some item does so by itself. */
  lemma TrimWithinIff(l: Limits, items: seq<SoftContextItem>)
    requires items != []
    ensures Within(l, Trim(l, items)) <==> SomeFits(l, items)
  {
    GreedyEmptyIff(l, items);
    GreedyWithin(l, items);
    if Greedy(l, items) == [] {
      OrderedItems(items);
      var first := Ordered(items)[0];
      assert Ordered(items)[..1] == [first] && first in items;
      CountSingle(first, CharCost());
      CountSingle(first, TokenCost(l));
      NothingUsed(l);
      var i :| 0 <= i < |items| && items[i] == first;
      assert !FitsOn(l, [], items[i]);
    }
  }

  /** And then it is maximal: nothing left out fits any more. */
  lemma TrimMaximal(l: Limits, items: seq<SoftContextItem>, item: SoftContextItem)
    requires SomeFits(l, items) && item in items && item.itemId !in Ids(Trim(l, items))
    ensures !FitsOn(l, Trim(l, items), item)
  {
    GreedyEmptyIff(l, items);
    OrderedItems(items);
    FirstPhaseWithin(l, Heads(Ordered(items), {}), []);
    SecondPhaseMaximal(l, Ordered(items), HeadsKept(l, items), Ids(HeadsKept(l, items)), item);
  }

  // ---- Category heads ----

  lemma {:induction false} FirstPhaseGrows(l: Limits, heads: seq<SoftContextItem>, kept: seq<SoftContextItem>)
    ensures kept <= FirstPhase(l, heads, kept)
    decreases |heads|
  {
    if heads == [] {
    } else {
      FirstPhaseGrows(l, heads[1..], if FitsOn(l, kept, heads[0]) then kept + [heads[0]] else kept);
    }
  }

  /** A head the first phase rejected does not fit at its end. */
  lemma {:induction false} RejectedHeadTooBig(l: Limits, heads: seq<SoftContextItem>, kept: seq<SoftContextItem>,
                                              head: SoftContextItem)
    requires head in heads && head !in FirstPhase(l, heads, kept)
    ensures !FitsOn(l, FirstPhase(l, heads, kept), head)
    decreases |heads|
  {
    var next := if FitsOn(l, kept, heads[0]) then kept + [heads[0]] else kept;
    FirstPhaseGrows(l, heads, kept);
    if head == heads[0] {
      HeadTaken(l, heads, kept);
      if FitsOn(l, FirstPhase(l, heads, kept), head) {
        LessRoom(l, kept, FirstPhase(l, heads, kept), head);
      }
    } else {
      RejectedHeadTooBig(l, heads[1..], next, head);
    }
  }

  lemma HeadTaken(l: Limits, heads: seq<SoftContextItem>, kept: seq<SoftContextItem>)
    requires heads != []
    ensures FitsOn(l, kept, heads[0]) ==> heads[0] in FirstPhase(l, heads, kept)
  {
    if FitsOn(l, kept, heads[0]) {
      FirstPhaseGrows(l, heads[1..], kept + [heads[0]]);
      assert (kept + [heads[0]])[|kept|] == FirstPhase(l, heads, kept)[|kept|];
    }
  }

  lemma {:induction false} TooBigStaysOut(l: Limits, ordered: seq<SoftContextItem>, kept: seq<SoftContextItem>,
                                          seen: set<string>, item: SoftContextItem)
    requires item !in kept && !FitsOn(l, kept, item)
    ensures item !in SecondPhase(l, ordered, kept, seen)
    decreases |ordered|
  {
    if ordered == [] {
    } else if ordered[0].itemId in seen || !FitsOn(l, kept, ordered[0]) {
      TooBigStaysOut(l, ordered[1..], kept, seen, item);
    } else {
      if FitsOn(l, kept + [ordered[0]], item) {
        LessRoom(l, kept, kept + [ordered[0]], item);
      }
      TooBigStaysOut(l, ordered[1..], kept + [ordered[0]], seen + {ordered[0].itemId}, item);
    }
  }

  /** A head rejected in the first phase is not picked up in the second. */
  lemma RejectedHeadStaysOut(l: Limits, items: seq<SoftContextItem>, head: SoftContextItem)
    requires head in Heads(Ordered(items), {}) && head !in HeadsKept(l, items)
    ensures head !in Greedy(l, items)
  {
    RejectedHeadTooBig(l, Heads(Ordered(items), {}), [], head);
    TooBigStaysOut(l, Ordered(items), HeadsKept(l, items), Ids(HeadsKept(l, items)), head);
  }

  /** Every category has at most one head. */
  lemma {:induction false} OneHeadEach(ordered: seq<SoftContextItem>, seen: set<string>)
    ensures forall i, j :: 0 <= i < j < |Heads(ordered, seen)| ==>
      Heads(ordered, seen)[i].category != Heads(ordered, seen)[j].category
  {
    if ordered == [] {
    } else if ordered[0].category in seen {
      OneHeadEach(ordered[1..], seen);
    } else {
      var later := Heads(ordered[1..], seen + {ordered[0].category});
      OneHeadEach(ordered[1..], seen + {ordered[0].category});
      HeadsFromOrdered(ordered[1..], seen + {ordered[0].category});
      assert forall j :: 0 <= j < |later| ==> later[j] in later;
    }
  }

  /** Every item has a head of its category that comes before it or is the item itself. */
  lemma {:induction false} HeadsAreBest(ordered: seq<SoftContextItem>, seen: set<string>, x: SoftContextItem)
    requires SortedBy(ItemLe, ordered) && x in ordered && x.category !in seen
    ensures HasHead(Heads(ordered, seen), x)
  {
    var x0, rest := ordered[0], ordered[1..];
    assert ordered == [x0] + rest;
    if x0.category in seen {
      HeadsAreBest(rest, seen, x);
    } else if x.category == x0.category {
      FirstIsLeast(ordered, x);
      assert Heads(ordered, seen)[0] == x0;
    } else {
      HeadsAreBest(rest, seen + {x0.category}, x);
      LaterHead(x0, Heads(rest, seen + {x0.category}), x);
    }
  }

  lemma FirstIsLeast(ordered: seq<SoftContextItem>, x: SoftContextItem)
    requires SortedBy(ItemLe, ordered) && x in ordered
    ensures ItemLe(ordered[0], x)
  {
    ItemOrder();
    SortedHead(ordered, x, ItemLe);
  }

  lemma LaterHead(first: SoftContextItem, later: seq<SoftContextItem>, x: SoftContextItem)
    requires HasHead(later, x)
    ensures HasHead([first] + later, x)
  {
    var i :| 0 <= i < |later| && later[i].category == x.category && ItemLe(later[i], x);
    assert ([first] + later)[i + 1] == later[i];
  }

  ghost predicate HasHead(heads: seq<SoftContextItem>, x: SoftContextItem) {
    exists i :: 0 <= i < |heads| && heads[i].category == x.category && ItemLe(heads[i], x)
  }

  lemma Fewer(l: Limits, kept: seq<SoftContextItem>, item: SoftContextItem, more: seq<SoftContextItem>)
    requires Within(l, kept + [item] + more)
    ensures FitsOn(l, kept, item)
  {
    CountAppend(kept + [item], more, CharCost());
    CountAppend(kept + [item], more, TokenCost(l));
    UsedBy(l, kept, item);
  }

  /** Items that fit together are all taken. */
  lemma {:induction false} FirstPhaseTakesAll(l: Limits, heads: seq<SoftContextItem>, kept: seq<SoftContextItem>)
    requires Within(l, kept + heads)
    ensures FirstPhase(l, heads, kept) == kept + heads
    decreases |heads|
  {
    if heads == [] {
      assert kept + heads == kept;
    } else {
      assert kept + heads == kept + [heads[0]] + heads[1..];
      Fewer(l, kept, heads[0], heads[1..]);
      FirstPhaseTakesAll(l, heads[1..], kept + [heads[0]]);
    }
  }

  /** When the heads fit together, every category is represented by its best item. */
  lemma EveryCategoryRepresented(l: Limits, items: seq<SoftContextItem>, item: SoftContextItem)
    requires Within(l, Heads(Ordered(items), {})) && item in items
    ensures HasHead(Trim(l, items), item)
  {
    hide Heads, Ordered, FirstPhase;
    var heads := Heads(Ordered(items), {});
    OrderedItems(items);
    HeadsAreBest(Ordered(items), {}, item);
    assert [] + heads == heads;
    FirstPhaseTakesAll(l, heads, []);
    GreedyWithin(l, items);
    HeadIn(heads, Trim(l, items), item);
  }

  lemma HeadIn(a: seq<SoftContextItem>, b: seq<SoftContextItem>, x: SoftContextItem)
    requires a <= b && HasHead(a, x)
    ensures HasHead(b, x)
  {
  }

  // ---- The kept and dropped ids ----

  function KeepIds(items: seq<SoftContextItem>): seq<string> {
    Collect(items, IdOf())
  }

  function IdUnless(kept: set<string>): SoftContextItem -> seq<string> {
    (item: SoftContextItem) => if item.itemId in kept then [] else [item.itemId]
  }

  method Trace(l: Limits, normalized: seq<SoftContextItem>) returns (keptIds: seq<string>, droppedIds: seq<string>)
    ensures keptIds == KeepIds(Trim(l, normalized))
    ensures droppedIds == Collect(normalized, IdUnless(Ids(Trim(l, normalized))))
  {
    var kept := TrimSoftItems(l, normalized);
    keptIds := Collect(kept, IdOf());
    droppedIds := Collect(normalized, IdUnless(Ids(kept)));
  }

  lemma TrimFromItems(l: Limits, items: seq<SoftContextItem>)
    ensures forall x :: x in Trim(l, items) ==> x in items
  {
    GreedyFromItems(l, items);
    OrderedItems(items);
    if items != [] {
      assert Ordered(items)[0] in Ordered(items);
    }
  }

  lemma {:induction false} SecondPhaseDistinct(l: Limits, ordered: seq<SoftContextItem>, kept: seq<SoftContextItem>,
                                               seen: set<string>)
    requires DistinctIds(kept) && seen == Ids(kept)
    ensures DistinctIds(SecondPhase(l, ordered, kept, seen))
    decreases |ordered|
  {
    if ordered == [] {
    } else if ordered[0].itemId in seen || !FitsOn(l, kept, ordered[0]) {
      SecondPhaseDistinct(l, ordered[1..], kept, seen);
    } else {
      UsedBy(l, kept, ordered[0]);
      assert forall i :: 0 <= i < |kept| ==> kept[i] in kept && kept[i].itemId in seen;
      SecondPhaseDistinct(l, ordered[1..], kept + [ordered[0]], seen + {ordered[0].itemId});
    }
  }

  lemma {:induction false} HeadsDistinct(ordered: seq<SoftContextItem>, seen: set<string>)
    requires DistinctIds(ordered)
    ensures DistinctIds(Heads(ordered, seen))
  {
    if ordered == [] {
    } else {
      HeadsDistinct(ordered[1..], seen);
      HeadsDistinct(ordered[1..], seen + {ordered[0].category});
      HeadsFromOrdered(ordered[1..], seen + {ordered[0].category});
      var later := Heads(ordered[1..], seen + {ordered[0].category});
      forall j | 0 <= j < |later| ensures later[j].itemId != ordered[0].itemId {
        assert later[j] in later;
        var i :| 0 <= i < |ordered[1..]| && ordered[1..][i] == later[j];
        assert ordered[i + 1].itemId != ordered[0].itemId;
      }
    }
  }

  lemma {:induction false} FirstPhaseDistinct(l: Limits, heads: seq<SoftContextItem>, kept: seq<SoftContextItem>)
    requires DistinctIds(kept + heads)
    ensures DistinctIds(FirstPhase(l, heads, kept))
    decreases |heads|
  {
    if heads == [] {
      assert kept + heads == kept;
    } else {
      var all := kept + heads;
      assert all == kept + [heads[0]] + heads[1..];
      var fewer := kept + heads[1..];
      forall i, j | 0 <= i < j < |fewer| ensures fewer[i].itemId != fewer[j].itemId {
        var i', j' := if i < |kept| then i else i + 1, if j < |kept| then j else j + 1;
        assert fewer[i] == all[i'] && fewer[j] == all[j'];
      }
      FirstPhaseDistinct(l, heads[1..], if FitsOn(l, kept, heads[0]) then kept + [heads[0]] else kept);
    }
  }

  lemma OrderedDistinct(items: seq<SoftContextItem>)
    requires DistinctIds(items)
    ensures DistinctIds(Ordered(items)) && Distinct(KeepIds(Ordered(items)))
  {
    OrderedItems(items);
    DistinctIdList(items);
    CollectPermutation(items, Ordered(items), IdOf());
    forall id ensures multiset(KeepIds(Ordered(items)))[id] <= 1 {
      DistinctMultiplicity(KeepIds(items), id);
    }
    IdListDistinct(Ordered(items));
  }

  lemma DistinctIdList(items: seq<SoftContextItem>)
    requires DistinctIds(items)
    ensures Distinct(KeepIds(items))
  {
    IdListIs(items);
  }

  lemma {:induction false} IdListIs(items: seq<SoftContextItem>)
    ensures |KeepIds(items)| == |items| && forall i :: 0 <= i < |items| ==> KeepIds(items)[i] == items[i].itemId
  {
    if items == [] {
    } else {
      IdListIs(items[1..]);
    }
  }

  lemma IdListDistinct(items: seq<SoftContextItem>)
    requires forall id :: multiset(KeepIds(items))[id] <= 1
    ensures DistinctIds(items) && Distinct(KeepIds(items))
  {
    IdListIs(items);
    var ids := KeepIds(items);
    forall i, j | 0 <= i < j < |ids| ensures ids[i] != ids[j] {
      assert ids == ids[..i] + [ids[i]] + ids[i + 1..j] + [ids[j]] + ids[j + 1..];
      assert multiset(ids)[ids[i]] <= 1;
    }
    forall i, j | 0 <= i < j < |items| ensures items[i].itemId != items[j].itemId {
      assert ids[i] != ids[j];
    }
  }

  lemma TrimDistinct(l: Limits, items: seq<SoftContextItem>)
    requires DistinctIds(items)
    ensures DistinctIds(Trim(l, items))
  {
    OrderedDistinct(items);
    HeadsDistinct(Ordered(items), {});
    var heads := Heads(Ordered(items), {});
    assert [] + heads == heads;
    FirstPhaseDistinct(l, heads, []);
    SecondPhaseDistinct(l, Ordered(items), HeadsKept(l, items), Ids(HeadsKept(l, items)));
  }

  /** Whatever the ids, every input id is kept or dropped, and none is both. */
  lemma TraceCovers(l: Limits, items: seq<SoftContextItem>, id: string)
    ensures
      var kept := Trim(l, items);
      var dropped := Collect(items, IdUnless(Ids(kept)));
      && (id in KeepIds(items) <==> id in KeepIds(kept) || id in dropped)
      && !(id in KeepIds(kept) && id in dropped)
  {
    var kept := Trim(l, items);
    TrimFromItems(l, items);
    ListedId(kept, id);
    ListedId(items, id);
    OtherIds(items, Ids(kept), id);
    assert Ids(kept) <= Ids(items);
  }

  lemma {:induction false} OtherIds(items: seq<SoftContextItem>, kept: set<string>, id: string)
    ensures multiset(Collect(items, IdUnless(kept)))[id] == if id in kept then 0 else multiset(KeepIds(items))[id]
    ensures id in Collect(items, IdUnless(kept)) <==> id in KeepIds(items) && id !in kept
  {
    if items == [] {
    } else {
      OtherIds(items[1..], kept, id);
    }
  }

  /** The ids of the kept items occur among the input as often as among the kept. */
  ghost predicate NoOthersOfKept(l: Limits, items: seq<SoftContextItem>) {
    forall id :: id in Ids(Trim(l, items)) ==> multiset(KeepIds(items))[id] == multiset(KeepIds(Trim(l, items)))[id]
  }

  /** The trace accounts for every occurrence of an id exactly when no kept id has occurrences that are not kept. */
  lemma TracePartitionsIff(l: Limits, items: seq<SoftContextItem>)
    ensures NoOthersOfKept(l, items) <==>
      (multiset(KeepIds(Trim(l, items))) + multiset(Collect(items, IdUnless(Ids(Trim(l, items)))))
       == multiset(KeepIds(items)))
  {
    hide Trim, Collect;
    var kept := Trim(l, items);
    var dropped := Collect(items, IdUnless(Ids(kept)));
    forall id ensures multiset(dropped)[id] == if id in Ids(kept) then 0 else multiset(KeepIds(items))[id]
              ensures id !in Ids(kept) ==> multiset(KeepIds(kept))[id] == 0
    {
      OtherIds(items, Ids(kept), id);
      ListedId(kept, id);
    }
    if multiset(KeepIds(kept)) + multiset(dropped) == multiset(KeepIds(items)) {
      forall id | id in Ids(kept) ensures multiset(KeepIds(items))[id] == multiset(KeepIds(kept))[id] {
        assert (multiset(KeepIds(kept)) + multiset(dropped))[id] == multiset(KeepIds(items))[id];
      }
    }
  }

  lemma ListedId(items: seq<SoftContextItem>, id: string)
    ensures id in KeepIds(items) <==> id in Ids(items)
  {
    IdListIs(items);
    if id in Ids(items) {
      var x :| x in items && x.itemId == id;
      var i :| 0 <= i < |items| && items[i] == x;
      assert KeepIds(items)[i] == id;
    }
    if id in KeepIds(items) {
      var i :| 0 <= i < |items| && KeepIds(items)[i] == id;
      assert items[i] in items;
    }
  }

  /** With distinct ids the trace accounts for every input id exactly once. */
  lemma TracePartitions(l: Limits, items: seq<SoftContextItem>)
    requires DistinctIds(items)
    ensures multiset(KeepIds(Trim(l, items))) + multiset(Collect(items, IdUnless(Ids(Trim(l, items)))))
         == multiset(KeepIds(items))
  {
    hide Trim, Collect;
    var kept := Trim(l, items);
    TrimDistinct(l, items);
    TrimFromItems(l, items);
    DistinctIdList(kept);
    DistinctIdList(items);
    forall id | id in Ids(kept) ensures multiset(KeepIds(items))[id] == multiset(KeepIds(kept))[id] {
      DistinctMultiplicity(KeepIds(kept), id);
      DistinctMultiplicity(KeepIds(items), id);
      ListedId(kept, id);
      ListedId(items, id);
    }
    TracePartitionsIff(l, items);
  }

  // ---- Trimming again ----

  /** The items whose ids are not yet seen. */
  function Unseen(seen: set<string>): SoftContextItem -> seq<SoftContextItem> {
    (item: SoftContextItem) => if item.itemId in seen then [] else [item]
  }

  /** When unseen ids are distinct, seeing one item's id does not affect the others. */
  lemma UnseenApart(item: SoftContextItem, rest: seq<SoftContextItem>, seen: set<string>)
    requires DistinctIds([item] + Collect(rest, Unseen(seen)))
    ensures Collect(rest, Unseen(seen)) == Collect(rest, Unseen(seen + {item.itemId}))
    ensures DistinctIds(Collect(rest, Unseen(seen)))
  {
    var more := Collect(rest, Unseen(seen));
    var all := [item] + more;
    forall i, j | 0 <= i < j < |more| ensures more[i].itemId != more[j].itemId {
      assert all[i + 1].itemId != all[j + 1].itemId;
    }
    forall x | x in rest ensures Unseen(seen)(x) == Unseen(seen + {item.itemId})(x) {
      if x.itemId !in seen {
        UnseenListed(rest, seen, x);
        var i :| 0 <= i < |more| && more[i] == x;
        assert all[i + 1].itemId != all[0].itemId;
      }
    }
    CollectAgrees(rest, Unseen(seen), Unseen(seen + {item.itemId}));
  }

  /** Items that fit together are all taken in the second phase, too, when the unseen ones have distinct ids. */
  lemma {:induction false} SecondPhaseTakesAll(l: Limits, ordered: seq<SoftContextItem>, kept: seq<SoftContextItem>,
                                               seen: set<string>)
    requires DistinctIds(Collect(ordered, Unseen(seen))) && Within(l, kept + Collect(ordered, Unseen(seen)))
    ensures SecondPhase(l, ordered, kept, seen) == kept + Collect(ordered, Unseen(seen))
    decreases |ordered|
  {
    hide DistinctIds, Within, FitsOn;
    if ordered == [] {
      assert kept + [] == kept;
    } else {
      var item, rest := ordered[0], ordered[1..];
      var more := Collect(rest, Unseen(seen));
      if item.itemId in seen {
        assert Collect(ordered, Unseen(seen)) == [] + more == more;
        SecondPhaseTakesAll(l, rest, kept, seen);
      } else {
        assert Collect(ordered, Unseen(seen)) == [item] + more;
        Extended(kept, [item], more);
        Fewer(l, kept, item, more);
        UnseenApart(item, rest, seen);
        SecondPhaseTakesAll(l, rest, kept + [item], seen + {item.itemId});
      }
    }
  }

  lemma UnseenListed(items: seq<SoftContextItem>, seen: set<string>, x: SoftContextItem)
    requires x in items && x.itemId !in seen
    ensures x in Collect(items, Unseen(seen))
  {
    UnseenCount(items, seen, x);
    assert multiset(items)[x] > 0;
  }

  lemma WithinPermutation(l: Limits, a: seq<SoftContextItem>, b: seq<SoftContextItem>)
    requires multiset(a) == multiset(b) && Within(l, a)
    ensures Within(l, b)
  {
    CountPermutation(a, b, CharCost());
    CountPermutation(a, b, TokenCost(l));
    assert |multiset(a)| == |a| && |multiset(b)| == |b|;
  }

  lemma WithinFewer(l: Limits, a: seq<SoftContextItem>, b: seq<SoftContextItem>)
    requires Within(l, a + b)
    ensures Within(l, a)
  {
    CountAppend(a, b, CharCost());
    CountAppend(a, b, TokenCost(l));
  }

  lemma {:induction false} UnseenCount(items: seq<SoftContextItem>, seen: set<string>, x: SoftContextItem)
    ensures multiset(Collect(items, Unseen(seen)))[x] == if x.itemId in seen then 0 else multiset(items)[x]
  {
    if items == [] {
    } else {
      UnseenCount(items[1..], seen, x);
      HeadAndRest(items);
    }
  }

  /** What both phases leave behind: the first n items head categories of their own and come before the others of
      their category, and every later item has an id of its own. */
  ghost predicate TwoPhased(kept: seq<SoftContextItem>, n: nat) {
    && n <= |kept|
    && (forall i, j :: 0 <= i < j < n ==> kept[i].category != kept[j].category)
    && (forall i, j :: 0 <= i < n && 0 <= j < |kept| && kept[i].category == kept[j].category ==>
      ItemLe(kept[i], kept[j]))
    && OwnIdsFrom(kept, n)
  }

  ghost predicate OwnIdsFrom(kept: seq<SoftContextItem>, n: nat) {
    forall i, j :: 0 <= i < j < |kept| && n <= j ==> kept[i].itemId != kept[j].itemId
  }

  lemma {:induction false} SecondPhaseOwnIds(l: Limits, ordered: seq<SoftContextItem>, kept: seq<SoftContextItem>,
                                             seen: set<string>, n: nat)
    requires OwnIdsFrom(kept, n) && seen == Ids(kept)
    ensures OwnIdsFrom(SecondPhase(l, ordered, kept, seen), n)
    decreases |ordered|
  {
    if ordered == [] {
    } else if ordered[0].itemId in seen || !FitsOn(l, kept, ordered[0]) {
      SecondPhaseOwnIds(l, ordered[1..], kept, seen, n);
    } else {
      UsedBy(l, kept, ordered[0]);
      assert forall i :: 0 <= i < |kept| ==> kept[i] in kept && kept[i].itemId in seen;
      SecondPhaseOwnIds(l, ordered[1..], kept + [ordered[0]], seen + {ordered[0].itemId}, n);
    }
  }

  ghost predicate OneOfEachCategory(items: seq<SoftContextItem>) {
    forall i, j :: 0 <= i < j < |items| ==> items[i].category != items[j].category
  }

  lemma {:induction false} FirstPhaseCategories(l: Limits, heads: seq<SoftContextItem>, kept: seq<SoftContextItem>)
    requires OneOfEachCategory(kept + heads)
    ensures OneOfEachCategory(FirstPhase(l, heads, kept))
    decreases |heads|
  {
    if heads == [] {
      assert kept + heads == kept;
    } else {
      var all, fewer := kept + heads, kept + heads[1..];
      assert all == kept + [heads[0]] + heads[1..];
      forall i, j | 0 <= i < j < |fewer| ensures fewer[i].category != fewer[j].category {
        var i', j' := if i < |kept| then i else i + 1, if j < |kept| then j else j + 1;
        assert fewer[i] == all[i'] && fewer[j] == all[j'];
      }
      FirstPhaseCategories(l, heads[1..], if FitsOn(l, kept, heads[0]) then kept + [heads[0]] else kept);
    }
  }

  /** A head comes before everything of its category. */
  lemma HeadFirst(ordered: seq<SoftContextItem>, head: SoftContextItem, x: SoftContextItem)
    requires SortedBy(ItemLe, ordered) && head in Heads(ordered, {}) && x in ordered && x.category == head.category
    ensures ItemLe(head, x)
  {
    var heads := Heads(ordered, {});
    HeadsAreBest(ordered, {}, x);
    OneHeadEach(ordered, {});
    var i :| 0 <= i < |heads| && heads[i].category == x.category && ItemLe(heads[i], x);
    var j :| 0 <= j < |heads| && heads[j] == head;
    assert i == j;
  }

  lemma GreedyTwoPhased(l: Limits, items: seq<SoftContextItem>)
    ensures TwoPhased(Greedy(l, items), |HeadsKept(l, items)|)
  {
    hide Heads, FirstPhase, SecondPhase, Ordered;
    var ordered, first, kept := Ordered(items), HeadsKept(l, items), Greedy(l, items);
    var heads := Heads(ordered, {});
    OrderedItems(items);
    GreedyWithin(l, items);
    OneHeadEach(ordered, {});
    assert [] + heads == heads;
    FirstPhaseCategories(l, heads, []);
    FirstPhaseFrom(l, heads, []);
    SecondPhaseOwnIds(l, ordered, first, Ids(first), |first|);
    GreedyFromItems(l, items);
    forall i, j | 0 <= i < |first| && 0 <= j < |kept| && kept[i].category == kept[j].category
      ensures ItemLe(kept[i], kept[j])
    {
      assert kept[i] == first[i] && first[i] in first && kept[j] in kept;
      HeadFirst(ordered, kept[i], kept[j]);
    }
  }

  /** The items kept as heads are heads again among what was kept. */
  lemma HeadsAgain(kept: seq<SoftContextItem>, n: nat, i: nat)
    requires TwoPhased(kept, n) && i < n
    ensures kept[i] in Heads(Ordered(kept), {})
  {
    hide Heads, Ordered;
    var ordered := Ordered(kept);
    var heads := Heads(ordered, {});
    OrderedItems(kept);
    assert kept[i] in kept;
    HeadsAreBest(ordered, {}, kept[i]);
    HeadsFromOrdered(ordered, {});
    var k :| 0 <= k < |heads| && heads[k].category == kept[i].category && ItemLe(heads[k], kept[i]);
    assert heads[k] in heads;
    var j :| 0 <= j < |kept| && kept[j] == heads[k];
    assert ItemLe(kept[i], kept[j]);
    StrTotal(kept[i].itemId, kept[j].itemId);
    assert j == i;
  }

  lemma KeptOnce(kept: seq<SoftContextItem>, n: nat, x: SoftContextItem)
    requires TwoPhased(kept, n)
    ensures multiset(kept)[x] == if x in kept then 1 else 0
  {
    assert Distinct(kept);
    DistinctMultiplicity(kept, x);
  }

  lemma OneHeadCount(ordered: seq<SoftContextItem>, x: SoftContextItem)
    ensures multiset(Heads(ordered, {}))[x] == if x in Heads(ordered, {}) then 1 else 0
  {
    OneHeadEach(ordered, {});
    assert Distinct(Heads(ordered, {}));
    DistinctMultiplicity(Heads(ordered, {}), x);
  }

  /** A kept item that shares its id with a head is a head. */
  lemma SharedIdHead(kept: seq<SoftContextItem>, n: nat, x: SoftContextItem)
    requires TwoPhased(kept, n) && x in kept && x.itemId in Ids(Heads(Ordered(kept), {}))
    ensures x in Heads(Ordered(kept), {})
  {
    hide Heads, Ordered;
    var heads := Heads(Ordered(kept), {});
    OrderedItems(kept);
    HeadsFromOrdered(Ordered(kept), {});
    var h :| h in heads && h.itemId == x.itemId;
    var i :| 0 <= i < |kept| && kept[i] == x;
    var j :| 0 <= j < |kept| && kept[j] == h;
    if i < n {
      HeadsAgain(kept, n, i);
    } else {
      assert i == j;
    }
  }

  /** The heads and the items with other ids make up the whole list, and those have distinct ids. */
  lemma HeadsAndOthers(kept: seq<SoftContextItem>, n: nat)
    requires TwoPhased(kept, n)
    ensures
      var heads := Heads(Ordered(kept), {});
      var others := Collect(Ordered(kept), Unseen(Ids(heads)));
      multiset(heads + others) == multiset(kept) && DistinctIds(others)
  {
    hide Heads, Ordered, Collect, TwoPhased, Ids;
    var ordered := Ordered(kept);
    var heads := Heads(ordered, {});
    var others := Collect(ordered, Unseen(Ids(heads)));
    OrderedItems(kept);
    HeadsFromOrdered(ordered, {});
    forall x: SoftContextItem
      ensures multiset(others)[x] == if x.itemId in Ids(heads) then 0 else multiset(kept)[x]
      ensures multiset(heads)[x] + multiset(others)[x] == multiset(kept)[x]
    {
      UnseenCount(ordered, Ids(heads), x);
      KeptOnce(kept, n, x);
      OneHeadCount(ordered, x);
      HeadsHaveIds(heads, x);
      if x in kept && x.itemId in Ids(heads) {
        SharedIdHead(kept, n, x);
      }
    }
    OthersDistinct(kept, n, heads, others);
  }

  lemma HeadsHaveIds(heads: seq<SoftContextItem>, x: SoftContextItem)
    ensures x in heads ==> x.itemId in Ids(heads)
  {
  }

  lemma OthersDistinct(kept: seq<SoftContextItem>, n: nat, heads: seq<SoftContextItem>, others: seq<SoftContextItem>)
    requires TwoPhased(kept, n) && heads == Heads(Ordered(kept), {})
    requires forall x: SoftContextItem :: multiset(others)[x] == if x.itemId in Ids(heads) then 0 else multiset(kept)[x]
    ensures DistinctIds(others)
  {
    hide Heads, Ordered;
    forall p, q | 0 <= p < q < |others| ensures others[p].itemId != others[q].itemId {
      if others[p].itemId == others[q].itemId {
        var i := AmongTheLater(kept, n, heads, others, p);
        var j := AmongTheLater(kept, n, heads, others, q);
        assert i == j;
        TwiceListed(others, p, q);
        KeptOnce(kept, n, others[p]);
      }
    }
  }

  lemma TwiceListed<T>(s: seq<T>, p: nat, q: nat)
    requires p < q < |s| && s[p] == s[q]
    ensures multiset(s)[s[p]] >= 2
  {
    assert s == s[..p] + [s[p]] + s[p + 1..q] + [s[q]] + s[q + 1..];
  }

  /** An item whose id no head has was kept by the second phase. */
  lemma AmongTheLater(kept: seq<SoftContextItem>, n: nat, heads: seq<SoftContextItem>, others: seq<SoftContextItem>,
                      p: nat)
    returns (i: nat)
    requires TwoPhased(kept, n) && heads == Heads(Ordered(kept), {}) && p < |others|
    requires forall x: SoftContextItem :: multiset(others)[x] == if x.itemId in Ids(heads) then 0 else multiset(kept)[x]
    ensures n <= i < |kept| && kept[i] == others[p]
  {
    hide Heads, Ordered;
    var x := others[p];
    assert x in multiset(others);
    assert x in multiset(kept);
    i :| 0 <= i < |kept| && kept[i] == x;
    if i < n {
      HeadsAgain(kept, n, i);
      HeadsHaveIds(heads, x);
    }
  }

  /** What both phases keep within the budgets survives a second trimming as a whole. */
  lemma KeptStays(l: Limits, kept: seq<SoftContextItem>, n: nat)
    requires kept != [] && TwoPhased(kept, n) && Within(l, kept)
    ensures multiset(Trim(l, kept)) == multiset(kept)
  {
    hide Heads, Ordered, TwoPhased, Within;
    var ordered := Ordered(kept);
    var heads := Heads(ordered, {});
    var others := Collect(ordered, Unseen(Ids(heads)));
    HeadsAndOthers(kept, n);
    WithinPermutation(l, kept, heads + others);
    WithinFewer(l, heads, others);
    assert [] + heads == heads;
    FirstPhaseTakesAll(l, heads, []);
    SecondPhaseTakesAll(l, ordered, heads, Ids(heads));
    assert |multiset(heads + others)| == |heads + others|;
    assert |multiset(kept)| == |kept|;
  }

  /** Trimming what was trimmed keeps it, up to order, for every list; repeated ids and the fallback included. */
  lemma TrimTwice(l: Limits, items: seq<SoftContextItem>)
    ensures multiset(Trim(l, Trim(l, items))) == multiset(Trim(l, items))
  {
    hide Greedy, Ordered;
    GreedyEmptyIff(l, items);
    if items == [] {
    } else if SomeFits(l, items) {
      GreedyWithin(l, items);
      GreedyTwoPhased(l, items);
      KeptStays(l, Trim(l, items), |HeadsKept(l, items)|);
    } else {
      FallbackStays(l, items);
    }
  }

  lemma FallbackStays(l: Limits, items: seq<SoftContextItem>)
    requires items != [] && !SomeFits(l, items)
    ensures Trim(l, Trim(l, items)) == Trim(l, items)
  {
    GreedyEmptyIff(l, items);
    OrderedItems(items);
    var kept := Trim(l, items);
    assert kept == [Ordered(items)[0]] && kept[0] in items;
    forall i | 0 <= i < |kept| ensures !FitsOn(l, [], kept[i]) {
      var j :| 0 <= j < |items| && items[j] == kept[0];
    }
    GreedyEmptyIff(l, kept);
    OrderedItems(kept);
    assert Ordered(kept)[0] in kept;
  }

  // ---- Plain strings ----

  datatype SoftItem = Plain(text: string) | Item(item: SoftContextItem)

  /** What the item at `index` of n becomes. */
  function Normalized(item: SoftItem, index: nat, n: nat): SoftContextItem {
    match item
    case Item(it) => it
    case Plain(text) => SoftContextItem("generic:" + Decimal(index), "generic", text, (n - index) as real)
  }

  method NormalizeItems(items: seq<SoftItem>) returns (normalized: seq<SoftContextItem>)
    ensures |normalized| == |items|
    ensures forall i :: 0 <= i < |items| ==> normalized[i] == Normalized(items[i], i, |items|)
    ensures forall i :: 0 <= i < |items| ==>
      match items[i]
      case Item(item) => normalized[i] == item
      case Plain(text) =>
        normalized[i] == SoftContextItem("generic:" + Decimal(i), "generic", text, (|items| - i) as real)
  {
    normalized := [];
    var index := 0;
    while index < |items|
      invariant 0 <= index <= |items| && |normalized| == index
      invariant forall i :: 0 <= i < index ==> normalized[i] == Normalized(items[i], i, |items|)
    {
      normalized := normalized + [Normalized(items[index], index, |items|)];
      index := index + 1;
    }
  }

  /** Plain strings get distinct ids and are ranked in the order in which they were given. */
  lemma PlainKeepOrder(items: seq<SoftItem>, normalized: seq<SoftContextItem>)
    requires |normalized| == |items| && forall i :: 0 <= i < |items| ==> items[i].Plain?
    requires forall i :: 0 <= i < |items| ==> normalized[i] == Normalized(items[i], i, |items|)
    ensures DistinctIds(normalized) && Ordered(normalized) == normalized
  {
    forall i, j | 0 <= i < j < |normalized| ensures normalized[i].itemId != normalized[j].itemId
                                            ensures ItemLe(normalized[i], normalized[j])
    {
      var a, b := normalized[i].itemId, normalized[j].itemId;
      if a == b {
        assert a[8..] == Decimal(i) && b[8..] == Decimal(j);
        DecimalInjective(i, j);
      }
    }
    SortOfSorted(normalized, ItemLe);
  }
}
