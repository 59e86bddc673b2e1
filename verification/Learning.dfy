/** src/chips/compiler/learning.py: memory scores recomputed from the outcomes of past briefs. */
module Learning {
  import opened Signals
  import opened Sums

  datatype Outcome = Accepted | Rejected | Ignored

  datatype Signal = Signal(itemId: string, itemType: string, score: Option<real>)

  /** A JSON column as the driver hands it over: NULL, text that parses or does not, or an already parsed list. */
  datatype Column<T> = Null | Text(parsed: Option<seq<T>>) | Parsed(items: seq<T>)

  /** An outcome joined with its brief. */
  datatype Feedback = Feedback(tenant: Option<string>, outcome: Outcome, memories: Column<string>,
                               signals: Column<Signal>)

  datatype Aggregate = Aggregate(adjustment: real, accepted: nat, rejected: nat, ignored: nat)

  /** cortex_memory_feedback_scores, by memory and tenant key. */
  type Scores = map<(string, string), Aggregate>

  /** json.loads(column or "[]"): what is not parsable text counts as empty, a list included. */
  function Load<T>(column: Column<T>): seq<T> {
    match column
    case Null => []
    case Text(None) => []
    case Text(Some(items)) => items
    case Parsed(_) => []
  }

  function TenantKey(tenant: Option<string>): string {
    match tenant case None => "" case Some(t) => t
  }

  predicate InScope(f: Feedback, tenant: Option<string>) {
    tenant == None || f.tenant == tenant
  }

  function ScopeOf(tenant: Option<string>): Feedback -> seq<Feedback> {
    (f: Feedback) => if InScope(f, tenant) then [f] else []
  }

  // ---- One brief ----

  function OutcomeWeight(outcome: Outcome): real {
    match outcome case Accepted => 0.05 case Rejected => -0.10 case Ignored => 0.0
  }

  /** The dictionary comprehension: the last signal of an id wins. */
  function MemoryScores(signals: seq<Signal>): map<string, real> {
    if signals == [] then map[]
    else
      var rest, s := MemoryScores(signals[..|signals| - 1]), signals[|signals| - 1];
      if s.itemType == "memory" then rest[s.itemId := match s.score case None => 0.0 case Some(x) => x] else rest
  }

  function MaxReal(a: real, b: real): real { if a >= b then a else b }

  function MinReal(a: real, b: real): real { if a <= b then a else b }

  function ScoreIn(scores: map<string, real>, id: string): (r: real)
    ensures r >= 0.1
  {
    MaxReal(if id in scores then scores[id] else 0.0, 0.1)
  }

  /** One memory named by one brief. */
  datatype Mention = Mention(id: string, outcome: Outcome, amount: real)

  function MentionOf(f: Feedback): string -> seq<Mention> {
    id => if id == "" then []
      else [Mention(id, f.outcome, Times(OutcomeWeight(f.outcome), ScoreIn(MemoryScores(Load(f.signals)), id)))]
  }

  function MentionsIn(): Feedback -> seq<Mention> {
    (f: Feedback) => Collect(Load(f.memories), MentionOf(f))
  }

  function Mentions(feedback: seq<Feedback>, tenant: Option<string>): seq<Mention> {
    Collect(Collect(feedback, ScopeOf(tenant)), MentionsIn())
  }

  // ---- What the aggregates mean ----

  function AmountFor(id: string): Mention -> real {
    (m: Mention) => if m.id == id then m.amount else 0.0
  }

  function Is(id: string, outcome: Outcome): Mention -> nat {
    (m: Mention) => if m.id == id && m.outcome == outcome then 1 else 0
  }

  function With(outcome: Outcome): Mention -> nat {
    (m: Mention) => if m.outcome == outcome then 1 else 0
  }

  function Summary(mentions: seq<Mention>, id: string): Aggregate {
    Aggregate(SumBy(mentions, AmountFor(id)), CountBy(mentions, Is(id, Accepted)),
      CountBy(mentions, Is(id, Rejected)), CountBy(mentions, Is(id, Ignored)))
  }

  function MentionedIds(mentions: seq<Mention>): set<string> {
    set m | m in mentions :: m.id
  }

  function Tally(mentions: seq<Mention>): map<string, Aggregate> {
    map id | id in MentionedIds(mentions) :: Summary(mentions, id)
  }

  function Bumped(a: Aggregate, m: Mention): Aggregate {
    match m.outcome
    case Accepted => Aggregate(a.adjustment + m.amount, a.accepted + 1, a.rejected, a.ignored)
    case Rejected => Aggregate(a.adjustment + m.amount, a.accepted, a.rejected + 1, a.ignored)
    case Ignored => Aggregate(a.adjustment + m.amount, a.accepted, a.rejected, a.ignored + 1)
  }

  function Fresh(): Aggregate { Aggregate(0.0, 0, 0, 0) }

  function Entry(t: map<string, Aggregate>, id: string): Aggregate {
    if id in t then t[id] else Fresh()
  }

  lemma SummaryStep(mentions: seq<Mention>, m: Mention, id: string)
    ensures Summary(mentions + [m], id)
      == if m.id == id then Bumped(Summary(mentions, id), m) else Summary(mentions, id)
  {
    SumAppend(mentions, [m], AmountFor(id));
    assert [m][1..] == [];
    forall outcome
      ensures CountBy(mentions + [m], Is(id, outcome)) == CountBy(mentions, Is(id, outcome)) + Is(id, outcome)(m)
    {
      CountAppend(mentions, [m], Is(id, outcome));
      CountSingle(m, Is(id, outcome));
    }
  }

  lemma {:induction false} UnmentionedIsFresh(mentions: seq<Mention>, id: string)
    requires id !in MentionedIds(mentions)
    ensures Summary(mentions, id) == Fresh()
  {
    if mentions != [] {
      var last := mentions[|mentions| - 1];
      assert mentions == mentions[..|mentions| - 1] + [last];
      assert last in mentions && forall m :: m in mentions[..|mentions| - 1] ==> m in mentions;
      UnmentionedIsFresh(mentions[..|mentions| - 1], id);
      SummaryStep(mentions[..|mentions| - 1], last, id);
    }
  }

  lemma TallyStep(mentions: seq<Mention>, m: Mention)
    ensures Tally(mentions + [m]) == Tally(mentions)[m.id := Bumped(Entry(Tally(mentions), m.id), m)]
  {
    hide Summary, Bumped, MentionedIds;
    MentionedStep(mentions, m);
    forall id
      ensures Summary(mentions + [m], id)
        == if m.id == id then Bumped(Summary(mentions, id), m) else Summary(mentions, id)
    {
      SummaryStep(mentions, m, id);
    }
    if m.id !in MentionedIds(mentions) {
      UnmentionedIsFresh(mentions, m.id);
    }
  }

  // ---- The table after a recompute ----

  function Clamp(a: real): real {
    MaxReal(MinReal(a, 0.5), -0.5)
  }

  function Stored(a: Aggregate): Aggregate {
    a.(adjustment := Clamp(a.adjustment))
  }

  function Deleted(scores: Scores, key: string): Scores {
    map k | k in scores && k.1 != key :: scores[k]
  }

  function Rebuilt(scores: Scores, key: string, tally: map<string, Aggregate>): Scores {
    map k | k in Deleted(scores, key).Keys + (set id | id in tally :: (id, key)) ::
      if k.1 == key && k.0 in tally then Stored(tally[k.0]) else if k in scores then scores[k] else Fresh()
  }

  /** What a recompute leaves under one key of the table. */
  lemma RebuiltAt(scores: Scores, key: string, tally: map<string, Aggregate>, k: (string, string))
    ensures k in Rebuilt(scores, key, tally) <==> if k.1 == key then k.0 in tally else k in scores
    ensures k in Rebuilt(scores, key, tally) ==>
      Rebuilt(scores, key, tally)[k]
        == if k.1 == key && k.0 in tally then Stored(tally[k.0]) else if k in scores then scores[k] else Fresh()
  {
  }

  lemma InsertRow(scores: Scores, key: string, tally: map<string, Aggregate>, id: string, a: Aggregate)
    ensures Rebuilt(scores, key, tally)[(id, key) := Stored(a)] == Rebuilt(scores, key, tally[id := a])
  {
    hide Rebuilt, Stored;
    var l, r := Rebuilt(scores, key, tally)[(id, key) := Stored(a)], Rebuilt(scores, key, tally[id := a]);
    forall k: (string, string) ensures (k in l <==> k in r) && (k in l ==> l[k] == r[k]) {
      RebuiltAt(scores, key, tally, k);
      RebuiltAt(scores, key, tally[id := a], k);
    }
  }

  lemma NoRows(scores: Scores, key: string)
    ensures Rebuilt(scores, key, map[]) == Deleted(scores, key)
  {
  }

  lemma PutBack(m: map<string, Aggregate>, todo: set<string>, id: string)
    requires id in todo && id in m
    ensures (m - todo)[id := m[id]] == m - (todo - {id})
  {
  }

  class BriefLearningService {
    var scores: Scores
    var lastRecompute: map<string, real>

    ghost predicate Valid()
      reads this
    {
      InRange(scores)
    }

    constructor ()
      ensures Valid() && scores == map[] && lastRecompute == map[]
    {
      scores := map[];
      lastRecompute := map[];
    }

    method Recompute(feedback: seq<Feedback>, tenant: Option<string>) returns (updated: nat)
      requires Valid()
      modifies this`scores
      ensures Valid()
      ensures scores == Rebuilt(old(scores), TenantKey(tenant), Tally(Mentions(feedback, tenant)))
      ensures updated == |Tally(Mentions(feedback, tenant))|
    {
      hide Rebuilt, Deleted, Tally, Stored, InRange, Collect;
      var rows := Collect(feedback, ScopeOf(tenant));
      var aggregates := Aggregates(rows);
      var key := TenantKey(tenant);
      scores := Deleted(scores, key);
      NoRows(old(scores), key);
      assert aggregates - aggregates.Keys == map[];
      var todo := aggregates.Keys;
      while todo != {}
        invariant todo <= aggregates.Keys
        invariant scores == Rebuilt(old(scores), key, aggregates - todo)
        decreases |todo|
      {
        var id :| id in todo;
        InsertRow(old(scores), key, aggregates - todo, id, aggregates[id]);
        PutBack(aggregates, todo, id);
        scores := scores[(id, key) := Stored(aggregates[id])];
        todo := todo - {id};
      }
      assert aggregates - {} == aggregates;
      RebuiltInRange(old(scores), key, aggregates);
      updated := |aggregates|;
    }

    /** The loops over briefs and their memories. */
    method Aggregates(rows: seq<Feedback>) returns (aggregates: map<string, Aggregate>)
      ensures aggregates == Tally(Collect(rows, MentionsIn()))
    {
      hide Tally, Collect, Bumped, MemoryScores, Load;
      aggregates := map[];
      ghost var mentions: seq<Mention> := [];
      NothingMentioned(rows);
      var i := 0;
      while i < |rows|
        invariant 0 <= i <= |rows|
        invariant mentions == Collect(rows[..i], MentionsIn())
        invariant aggregates == Tally(mentions)
      {
        CollectStep(rows, i, MentionsIn());
        var f := rows[i];
        var memories := Load(f.memories);
        var memoryScores := MemoryScores(Load(f.signals));
        ghost var before := mentions;
        CollectNone(MentionOf(f));
        assert memories[..0] == [] && before + [] == before;
        var j := 0;
        while j < |memories|
          invariant 0 <= j <= |memories|
          invariant mentions == before + Collect(memories[..j], MentionOf(f))
          invariant aggregates == Tally(mentions)
        {
          CollectStep(memories, j, MentionOf(f));
          var id := memories[j];
          Extended(before, Collect(memories[..j], MentionOf(f)), MentionOf(f)(id));
          j := j + 1;
          if id == "" {
            assert mentions + [] == mentions;
            continue;
          }
          var m := Mention(id, f.outcome, Times(OutcomeWeight(f.outcome), ScoreIn(memoryScores, id)));
          TallyStep(mentions, m);
          aggregates := aggregates[id := Bumped(Entry(aggregates, id), m)];
          mentions := mentions + [m];
        }
        assert memories[..j] == memories;
        i := i + 1;
      }
      assert rows[..i] == rows;
    }

    /** Skips the work when the last recompute of the tenant is less than `interval` old. */
    method MaybeRecompute(feedback: seq<Feedback>, tenant: Option<string>, now: real, interval: real)
      returns (updated: nat)
      requires Valid()
      modifies this
      ensures Valid()
      ensures var key := TenantKey(tenant);
        if key in old(lastRecompute) && now - old(lastRecompute)[key] < interval
        then scores == old(scores) && lastRecompute == old(lastRecompute) && updated == 0
        else
          && scores == Rebuilt(old(scores), key, Tally(Mentions(feedback, tenant)))
          && lastRecompute == old(lastRecompute)[key := now]
          && updated == |Tally(Mentions(feedback, tenant))|
    {
      var key := TenantKey(tenant);
      if key in lastRecompute && now - lastRecompute[key] < interval {
        return 0;
      }
      updated := Recompute(feedback, tenant);
      lastRecompute := lastRecompute[key := now];
    }

    method LoadAdjustments(tenant: Option<string>) returns (adjustments: map<string, real>)
      requires Valid()
      ensures adjustments == Adjustments(scores, TenantKey(tenant))
      ensures forall id :: id in adjustments ==> -0.5 <= adjustments[id] <= 0.5
    {
      adjustments := Adjustments(scores, TenantKey(tenant));
    }
  }

  lemma NothingMentioned(rows: seq<Feedback>)
    ensures Collect(rows[..0], MentionsIn()) == [] && Tally([]) == map[]
  {
  }

  function Adjustments(scores: Scores, key: string): map<string, real> {
    map id | id in (set k | k in scores && k.1 == key :: k.0) :: scores[(id, key)].adjustment
  }

  // ---- The adjustments stay in range ----

  ghost predicate InRange(scores: Scores) {
    forall k :: k in scores ==> -0.5 <= scores[k].adjustment <= 0.5
  }

  lemma RebuiltInRange(scores: Scores, key: string, tally: map<string, Aggregate>)
    requires InRange(scores)
    ensures InRange(Rebuilt(scores, key, tally))
  {
  }

  // ---- Order, repetition, tenants ----

  /** The tally does not depend on the order the outcomes are fetched in. */
  lemma RecomputeOrderFree(a: seq<Feedback>, b: seq<Feedback>, tenant: Option<string>)
    requires multiset(a) == multiset(b)
    ensures Tally(Mentions(a, tenant)) == Tally(Mentions(b, tenant))
  {
    hide Collect;
    CollectPermutation(a, b, ScopeOf(tenant));
    CollectPermutation(Collect(a, ScopeOf(tenant)), Collect(b, ScopeOf(tenant)), MentionsIn());
    SameTally(Mentions(a, tenant), Mentions(b, tenant));
  }

  lemma SameTally(a: seq<Mention>, b: seq<Mention>)
    requires multiset(a) == multiset(b)
    ensures Tally(a) == Tally(b)
  {
    assert forall m :: m in a <==> m in multiset(a);
    assert forall m :: m in b <==> m in multiset(b);
    assert MentionedIds(a) == MentionedIds(b);
    forall id ensures Summary(a, id) == Summary(b, id) {
      SumPermutation(a, b, AmountFor(id));
      CountPermutation(a, b, Is(id, Accepted));
      CountPermutation(a, b, Is(id, Rejected));
      CountPermutation(a, b, Is(id, Ignored));
    }
  }

  /** A recompute forgets what the tenant's rows were before: it depends on the outcomes and on the other
      tenants' rows alone. Running it twice is running it once. */
  lemma RecomputeForgets(s: Scores, t: Scores, key: string, tally: map<string, Aggregate>)
    requires Deleted(s, key) == Deleted(t, key)
    ensures Rebuilt(s, key, tally) == Rebuilt(t, key, tally)
    ensures Rebuilt(Rebuilt(s, key, tally), key, tally) == Rebuilt(s, key, tally)
  {
    hide Rebuilt, Stored, Deleted;
    var r, r' := Rebuilt(s, key, tally), Rebuilt(t, key, tally);
    var twice := Rebuilt(r, key, tally);
    forall k: (string, string)
      ensures (k in r <==> k in r') && (k in r <==> k in twice)
      ensures k in r ==> r[k] == r'[k] && twice[k] == r[k]
    {
      DeletedAt(s, key, k);
      DeletedAt(t, key, k);
      RebuiltAt(s, key, tally, k);
      RebuiltAt(t, key, tally, k);
      RebuiltAt(r, key, tally, k);
    }
  }

  lemma DeletedAt(s: Scores, key: string, k: (string, string))
    ensures k in Deleted(s, key) <==> k in s && k.1 != key
    ensures k in Deleted(s, key) ==> Deleted(s, key)[k] == s[k]
  {
  }

  /** Tenants share their rows exactly when they are equal, or one is missing and the other empty. */
  lemma SharedKeyIff(a: Option<string>, b: Option<string>)
    ensures TenantKey(a) == TenantKey(b) <==> a == b || {a, b} <= {None, Some("")}
  {
    assert {a, b} <= {None, Some("")} <==> a in {None, Some("")} && b in {None, Some("")};
  }

  /** A recompute for one tenant leaves another's adjustments alone, whatever they are, exactly when the two are not the
      same tenant and not the missing and the empty one; and then the two recomputes commute. */
  lemma TenantsApartIff(a: Option<string>, b: Option<string>)
    ensures (forall s, tally ::
              Adjustments(Rebuilt(s, TenantKey(a), tally), TenantKey(b)) == Adjustments(s, TenantKey(b)))
      <==> a != b && !({a, b} <= {None, Some("")})
    ensures a != b && !({a, b} <= {None, Some("")}) ==>
      forall s, x, y ::
        Rebuilt(Rebuilt(s, TenantKey(a), x), TenantKey(b), y) == Rebuilt(Rebuilt(s, TenantKey(b), y), TenantKey(a), x)
  {
    hide Rebuilt, Adjustments, TenantKey;
    SharedKeyIff(a, b);
    if TenantKey(a) == TenantKey(b) {
      RowLost(TenantKey(a));
    } else {
      forall s, tally
        ensures Adjustments(Rebuilt(s, TenantKey(a), tally), TenantKey(b)) == Adjustments(s, TenantKey(b))
      {
        KeysAreApart(s, TenantKey(a), tally, TenantKey(b), tally);
      }
      forall s, x, y
        ensures Rebuilt(Rebuilt(s, TenantKey(a), x), TenantKey(b), y)
          == Rebuilt(Rebuilt(s, TenantKey(b), y), TenantKey(a), x)
      {
        KeysAreApart(s, TenantKey(a), x, TenantKey(b), y);
      }
    }
  }

  lemma RowLost(key: string)
    ensures exists s, tally :: Adjustments(Rebuilt(s, key, tally), key) != Adjustments(s, key)
  {
    var s: Scores := map[("m", key) := Fresh()];
    NoRows(s, key);
    AdjustmentAt(s, key, "m");
    AdjustmentAt(Deleted(s, key), key, "m");
    assert "m" in Adjustments(s, key) && "m" !in Adjustments(Rebuilt(s, key, map[]), key);
  }

  lemma AdjustmentAt(s: Scores, key: string, id: string)
    ensures id in Adjustments(s, key) <==> (id, key) in s
  {
  }

  /** The same on the keys of the table. */
  lemma KeysAreApart(s: Scores, key: string, tally: map<string, Aggregate>, key': string,
                     tally': map<string, Aggregate>)
    requires key != key'
    ensures Adjustments(Rebuilt(s, key, tally), key') == Adjustments(s, key')
    ensures Rebuilt(Rebuilt(s, key, tally), key', tally') == Rebuilt(Rebuilt(s, key', tally'), key, tally)
  {
    hide Rebuilt, Stored, Adjustments;
    var r, r' := Rebuilt(s, key, tally), Rebuilt(s, key', tally');
    var both, both' := Rebuilt(r, key', tally'), Rebuilt(r', key, tally);
    forall k: (string, string)
      ensures (k in both <==> k in both') && (k in both ==> both[k] == both'[k])
      ensures k.1 == key' ==> (k in r <==> k in s) && (k in s ==> r[k] == s[k])
    {
      RebuiltAt(s, key, tally, k);
      RebuiltAt(s, key', tally', k);
      RebuiltAt(r, key', tally', k);
      RebuiltAt(r', key, tally, k);
    }
    SameAdjustments(r, s, key');
  }

  lemma SameAdjustments(r: Scores, s: Scores, key: string)
    requires forall k: (string, string) :: k.1 == key ==> (k in r <==> k in s) && (k in s ==> r[k] == s[k])
    ensures Adjustments(r, key) == Adjustments(s, key)
  {
  }

  // ---- The counts are conserved ----

  function Counts(mentions: seq<Mention>, outcome: Outcome): map<string, nat> {
    map id | id in MentionedIds(mentions) :: CountBy(mentions, Is(id, outcome))
  }

  lemma CountsStep(mentions: seq<Mention>, m: Mention, outcome: Outcome)
    ensures Counts(mentions + [m], outcome)
      == Counts(mentions, outcome)[m.id := Get(Counts(mentions, outcome), m.id) + With(outcome)(m)]
  {
    hide CountBy, MentionedIds, Is;
    MentionedStep(mentions, m);
    forall id
      ensures CountBy(mentions + [m], Is(id, outcome)) == CountBy(mentions, Is(id, outcome)) + Is(id, outcome)(m)
    {
      CountAppend(mentions, [m], Is(id, outcome));
      CountSingle(m, Is(id, outcome));
    }
    NotCounted(mentions, m.id, outcome);
    assert Is(m.id, outcome)(m) == With(outcome)(m) by { OwnId(m, outcome); }
    forall id | id != m.id ensures Is(id, outcome)(m) == 0 {
      OtherId(m, id, outcome);
    }
  }

  lemma OwnId(m: Mention, outcome: Outcome)
    ensures Is(m.id, outcome)(m) == With(outcome)(m)
  {
  }

  lemma OtherId(m: Mention, id: string, outcome: Outcome)
    requires id != m.id
    ensures Is(id, outcome)(m) == 0
  {
  }

  lemma MentionedStep(mentions: seq<Mention>, m: Mention)
    ensures MentionedIds(mentions + [m]) == MentionedIds(mentions) + {m.id}
  {
  }

  lemma NotCounted(mentions: seq<Mention>, id: string, outcome: Outcome)
    ensures id !in MentionedIds(mentions) ==> CountBy(mentions, Is(id, outcome)) == 0
  {
  }

  lemma NothingCounted(outcome: Outcome)
    ensures MapTotal(Counts([], outcome)) == 0 && CountBy([], With(outcome)) == 0
  {
  }

  /** Summed over the memories, each outcome's counts are the number of mentions with that outcome. */
  lemma {:induction false} CountsConserved(mentions: seq<Mention>, outcome: Outcome)
    ensures MapTotal(Counts(mentions, outcome)) == CountBy(mentions, With(outcome))
    decreases |mentions|
  {
    hide Counts, With, CountBy, MapTotal;
    if mentions == [] {
      NothingCounted(outcome);
    } else {
      var front, m := mentions[..|mentions| - 1], mentions[|mentions| - 1];
      assert mentions == front + [m];
      CountsConserved(front, outcome);
      CountsStep(front, m, outcome);
      MapTotalAdd(Counts(front, outcome), m.id, With(outcome)(m));
      CountAppend(front, [m], With(outcome));
      CountSingle(m, With(outcome));
    }
  }

  /** Every named memory of every brief in scope is counted once, under its brief's outcome. */
  lemma {:induction false} EveryOccurrenceCounts(mentions: seq<Mention>)
    ensures CountBy(mentions, With(Accepted)) + CountBy(mentions, With(Rejected)) + CountBy(mentions, With(Ignored))
      == |mentions|
  {
    if mentions != [] {
      EveryOccurrenceCounts(mentions[1..]);
    }
  }

  /** What a column holds, in whichever form the driver hands it over. */
  function Contents<T>(column: Column<T>): seq<T> {
    match column
    case Null => []
    case Text(None) => []
    case Text(Some(items)) => items
    case Parsed(items) => items
  }

  /** The memories with an id that a brief holds. */
  function Occurring(): Feedback -> nat {
    (f: Feedback) => CountBy(Contents(f.memories), HasId())
  }

  /** Those of them that a recompute reads. */
  function Reading(): Feedback -> nat {
    (f: Feedback) => CountBy(Load(f.memories), HasId())
  }

  function HasId(): string -> nat {
    id => if id == "" then 0 else 1
  }

  ghost predicate NamesMemory(ids: seq<string>) {
    exists i :: 0 <= i < |ids| && ids[i] != ""
  }

  lemma {:induction false} NoneNamedIff(ids: seq<string>)
    ensures CountBy(ids, HasId()) == 0 <==> !NamesMemory(ids)
  {
    if ids != [] {
      NoneNamedIff(ids[1..]);
      if NamesMemory(ids[1..]) {
        var i :| 0 <= i < |ids[1..]| && ids[1..][i] != "";
        assert ids[i + 1] != "";
      } else if ids[0] == "" {
        forall i | 0 <= i < |ids| ensures ids[i] == "" {
          assert i > 0 ==> ids[i] == ids[1..][i - 1];
        }
      }
    }
  }

  lemma {:induction false} MentionsOfIds(f: Feedback, ids: seq<string>)
    ensures |Collect(ids, MentionOf(f))| == CountBy(ids, HasId())
  {
    if ids != [] {
      MentionsOfIds(f, ids[1..]);
    }
  }

  lemma {:induction false} MentionsOfRows(rows: seq<Feedback>)
    ensures |Collect(rows, MentionsIn())| == CountBy(rows, Reading())
  {
    if rows != [] {
      MentionsOfIds(rows[0], Load(rows[0].memories));
      MentionsOfRows(rows[1..]);
    }
  }

  /** A brief loses memories exactly when its list comes parsed and names one. */
  predicate LosesMemories(f: Feedback) {
    f.memories.Parsed? && exists i :: 0 <= i < |f.memories.items| && f.memories.items[i] != ""
  }

  lemma LosesIff(f: Feedback)
    ensures Reading()(f) <= Occurring()(f)
    ensures Reading()(f) == Occurring()(f) <==> !LosesMemories(f)
  {
    if f.memories.Parsed? {
      NoneNamedIff(f.memories.items);
    }
  }

  lemma {:induction false} AllReadIff(rows: seq<Feedback>)
    ensures CountBy(rows, Reading()) <= CountBy(rows, Occurring())
    ensures CountBy(rows, Reading()) == CountBy(rows, Occurring())
      <==> forall i :: 0 <= i < |rows| ==> !LosesMemories(rows[i])
  {
    hide LosesMemories, Reading, Occurring;
    if rows != [] {
      LosesIff(rows[0]);
      AllReadIff(rows[1..]);
      assert forall i :: 0 < i < |rows| ==> rows[i] == rows[1..][i - 1];
      assert forall i :: 0 <= i < |rows| - 1 ==> rows[1..][i] == rows[i + 1];
    }
  }

  /** The counts a recompute stores under the tenant, summed over outcomes and memories. */
  ghost function StoredTotal(feedback: seq<Feedback>, tenant: Option<string>): nat {
    var mentions := Mentions(feedback, tenant);
    MapTotal(Counts(mentions, Accepted)) + MapTotal(Counts(mentions, Rejected)) + MapTotal(Counts(mentions, Ignored))
  }

  lemma StoredCounts(feedback: seq<Feedback>, tenant: Option<string>)
    ensures var mentions := Mentions(feedback, tenant);
      forall id :: id in Tally(mentions) ==>
        && Tally(mentions)[id].accepted == Get(Counts(mentions, Accepted), id)
        && Tally(mentions)[id].rejected == Get(Counts(mentions, Rejected), id)
        && Tally(mentions)[id].ignored == Get(Counts(mentions, Ignored), id)
    ensures StoredTotal(feedback, tenant) == CountBy(Collect(feedback, ScopeOf(tenant)), Reading())
  {
    hide MapTotal, CountBy, Collect;
    var mentions := Mentions(feedback, tenant);
    CountsConserved(mentions, Accepted);
    CountsConserved(mentions, Rejected);
    CountsConserved(mentions, Ignored);
    EveryOccurrenceCounts(mentions);
    MentionsOfRows(Collect(feedback, ScopeOf(tenant)));
  }

  /** The stored counts add up to the memories with an id that the briefs in scope hold exactly when no such brief
      has a list that comes parsed and names a memory; they never exceed them. */
  lemma OccurrencesCountedIff(feedback: seq<Feedback>, tenant: Option<string>)
    ensures var rows := Collect(feedback, ScopeOf(tenant));
      && StoredTotal(feedback, tenant) <= CountBy(rows, Occurring())
      && (StoredTotal(feedback, tenant) == CountBy(rows, Occurring())
          <==> forall i :: 0 <= i < |feedback| && InScope(feedback[i], tenant) ==> !LosesMemories(feedback[i]))
  {
    hide StoredTotal, CountBy, LosesMemories, InScope;
    StoredCounts(feedback, tenant);
    var rows := Collect(feedback, ScopeOf(tenant));
    AllReadIff(rows);
    InScopeMembers(feedback, tenant);
    if forall i :: 0 <= i < |feedback| && InScope(feedback[i], tenant) ==> !LosesMemories(feedback[i]) {
      forall i | 0 <= i < |rows| ensures !LosesMemories(rows[i]) {
        assert rows[i] in rows;
      }
    } else {
      var i :| 0 <= i < |feedback| && InScope(feedback[i], tenant) && LosesMemories(feedback[i]);
      assert feedback[i] in rows;
    }
  }

  lemma {:induction false} InScopeMembers(feedback: seq<Feedback>, tenant: Option<string>)
    ensures forall f :: f in Collect(feedback, ScopeOf(tenant)) <==> f in feedback && InScope(f, tenant)
  {
    hide InScope;
    if feedback != [] {
      InScopeMembers(feedback[1..], tenant);
      assert feedback == [feedback[0]] + feedback[1..];
    }
  }

  /** One accepted brief whose parsed list names "m": one memory occurs, none is counted. */
  lemma ParsedBriefLost()
    ensures var f := Feedback(None, Accepted, Parsed(["m"]), Null);
      && StoredTotal([f], None) == 0
      && CountBy(Collect([f], ScopeOf(None)), Occurring()) == 1
  {
    hide Collect, CountBy, StoredTotal, Mentions, Tally, Counts;
    var f := Feedback(None, Accepted, Parsed(["m"]), Null);
    CollectSingle(f, ScopeOf(None));
    StoredCounts([f], None);
    CountSingle(f, Reading());
    CountSingle(f, Occurring());
    CountSingle("m", HasId());
    NoneNamedIff([]);
  }

  // ---- What one more outcome does ----

  /** The adjustment the ranker is given for a memory. */
  function AdjustmentFor(feedback: seq<Feedback>, tenant: Option<string>, id: string): real {
    var tally := Tally(Mentions(feedback, tenant));
    if id in tally then Clamp(tally[id].adjustment) else 0.0
  }

  lemma AdjustmentIsSum(feedback: seq<Feedback>, tenant: Option<string>, id: string)
    ensures AdjustmentFor(feedback, tenant, id) == Clamp(SumBy(Mentions(feedback, tenant), AmountFor(id)))
  {
    var mentions := Mentions(feedback, tenant);
    if id !in MentionedIds(mentions) {
      UnmentionedIsFresh(mentions, id);
    }
  }

  lemma {:induction false} AmountSign(f: Feedback, ids: seq<string>, id: string)
    ensures var sum := SumBy(Collect(ids, MentionOf(f)), AmountFor(id));
      match f.outcome case Accepted => sum >= 0.0 case Rejected => sum <= 0.0 case Ignored => sum == 0.0
  {
    if ids != [] {
      AmountSign(f, ids[1..], id);
      SumAppend(MentionOf(f)(ids[0]), Collect(ids[1..], MentionOf(f)), AmountFor(id));
    }
  }

  /** The signal ranks the memory. */
  predicate Ranks(s: Signal, id: string) {
    s.itemType == "memory" && s.itemId == id
  }

  /** The score that a brief's signals give a memory: the last one that ranks it decides; no signal or no score is 0. */
  ghost predicate IsScoreOf(signals: seq<Signal>, id: string, x: real) {
    || (x == 0.0 && forall j :: 0 <= j < |signals| ==> !Ranks(signals[j], id))
    || exists i :: IsLastRank(signals, id, i) && x == match signals[i].score case None => 0.0 case Some(y) => y
  }

  ghost predicate IsLastRank(signals: seq<Signal>, id: string, i: int) {
    0 <= i < |signals| && Ranks(signals[i], id) && forall j :: i < j < |signals| ==> !Ranks(signals[j], id)
  }

  lemma {:induction false} ScoreFound(signals: seq<Signal>, id: string)
    ensures IsScoreOf(signals, id, if id in MemoryScores(signals) then MemoryScores(signals)[id] else 0.0)
    ensures forall x, y :: IsScoreOf(signals, id, x) && IsScoreOf(signals, id, y) ==> x == y
  {
    if signals != [] {
      var front, last := signals[..|signals| - 1], signals[|signals| - 1];
      ScoreFound(front, id);
      if Ranks(last, id) {
        assert IsLastRank(signals, id, |signals| - 1);
      } else {
        forall i ensures IsLastRank(signals, id, i) <==> IsLastRank(front, id, i) {
          assert forall j :: 0 <= j < |front| ==> signals[j] == front[j];
        }
        assert forall j :: 0 <= j < |front| ==> signals[j] == front[j];
      }
    }
  }

  /** What one brief does to a memory it names: a twentieth of the memory's score for an acceptance, a tenth off for a
      rejection, nothing when ignored; the score counts as a tenth at least, and the sum as a half at most. */
  lemma OneBrief(f: Feedback, id: string, x: real)
    requires f.memories == Text(Some([id])) && id != "" && IsScoreOf(Load(f.signals), id, x)
    ensures
      var score := if x < 0.1 then 0.1 else x;
      AdjustmentFor([f], None, id)
      == match f.outcome
         case Accepted => if score > 10.0 then 0.5 else 0.05 * score
         case Rejected => if score > 5.0 then -0.5 else -0.1 * score
         case Ignored => 0.0
  {
    ScoreFound(Load(f.signals), id);
    AdjustmentIsSum([f], None, id);
    MoreMentions([], f, None);
    assert [] + [f] == [f];
    CollectNone(ScopeOf(None));
    CollectNone(MentionsIn());
    CollectSingle(id, MentionOf(f));
    assert Mentions([f], None) == MentionOf(f)(id);
    var m := MentionOf(f)(id)[0];
    assert [m][1..] == [];
    assert SumBy([m], AmountFor(id)) == m.amount;
  }

  /** What is loaded after a recompute are those adjustments, and no memory without one is listed. */
  lemma RecomputeThenLoad(scores: Scores, feedback: seq<Feedback>, tenant: Option<string>, id: string)
    ensures
      var after := Rebuilt(scores, TenantKey(tenant), Tally(Mentions(feedback, tenant)));
      var loaded := Adjustments(after, TenantKey(tenant));
      AdjustmentFor(feedback, tenant, id) == if id in loaded then loaded[id] else 0.0
  {
    hide Tally, Mentions, TenantKey;
    var key, tally := TenantKey(tenant), Tally(Mentions(feedback, tenant));
    hide Rebuilt;
    RebuiltAt(scores, key, tally, (id, key));
    AdjustmentAt(Rebuilt(scores, key, tally), key, id);
  }

  /** One more accepted brief lowers no memory's adjustment, one more rejected brief raises none, one more
      ignored brief, or a brief of another tenant, changes none. */
  lemma OneMoreOutcome(feedback: seq<Feedback>, f: Feedback, tenant: Option<string>, id: string)
    ensures var was, now := AdjustmentFor(feedback, tenant, id), AdjustmentFor(feedback + [f], tenant, id);
      if tenant != None && f.tenant != tenant then now == was
      else match f.outcome case Accepted => now >= was case Rejected => now <= was case Ignored => now == was
  {
    hide Collect, SumBy;
    AdjustmentIsSum(feedback, tenant, id);
    AdjustmentIsSum(feedback + [f], tenant, id);
    MoreMentions(feedback, f, tenant);
    SumAppend(Mentions(feedback, tenant), if InScope(f, tenant) then MentionsIn()(f) else [], AmountFor(id));
    AmountSign(f, Load(f.memories), id);
    NoAmount(id);
  }

  lemma NoAmount(id: string)
    ensures SumBy([], AmountFor(id)) == 0.0
  {
  }

  lemma MoreMentions(feedback: seq<Feedback>, f: Feedback, tenant: Option<string>)
    ensures Mentions(feedback + [f], tenant)
      == Mentions(feedback, tenant) + if InScope(f, tenant) then MentionsIn()(f) else []
  {
    var s := ScopeOf(tenant);
    CollectAppend(feedback, [f], s);
    CollectSingle(f, s);
    CollectAppend(Collect(feedback, s), s(f), MentionsIn());
    CollectSingle(f, MentionsIn());
    CollectNone(MentionsIn());
  }

  /** The same brief with another outcome. */
  function As(f: Feedback, outcome: Outcome): Feedback {
    f.(outcome := outcome)
  }

  lemma {:induction false} Offset(f: Feedback, ids: seq<string>, id: string)
    ensures SumBy(Collect(ids, MentionOf(As(f, Rejected))), AmountFor(id))
      == -2.0 * SumBy(Collect(ids, MentionOf(As(f, Accepted))), AmountFor(id))
  {
    if ids != [] {
      Offset(f, ids[1..], id);
      SumAppend(MentionOf(As(f, Accepted))(ids[0]), Collect(ids[1..], MentionOf(As(f, Accepted))), AmountFor(id));
      SumAppend(MentionOf(As(f, Rejected))(ids[0]), Collect(ids[1..], MentionOf(As(f, Rejected))), AmountFor(id));
    }
  }

  lemma SumWithMore(feedback: seq<Feedback>, f: Feedback, tenant: Option<string>, id: string)
    ensures SumBy(Mentions(feedback + [f], tenant), AmountFor(id))
      == SumBy(Mentions(feedback, tenant), AmountFor(id))
        + if InScope(f, tenant) then SumBy(Collect(Load(f.memories), MentionOf(f)), AmountFor(id)) else 0.0
  {
    hide Collect, SumBy;
    MoreMentions(feedback, f, tenant);
    SumAppend(Mentions(feedback, tenant), if InScope(f, tenant) then MentionsIn()(f) else [], AmountFor(id));
    NoAmount(id);
  }

  /** One rejection weighs as much as two acceptances of the same brief: together they change no adjustment. */
  lemma RejectionOffsets(feedback: seq<Feedback>, f: Feedback, tenant: Option<string>, id: string)
    ensures AdjustmentFor(feedback + [As(f, Accepted)] + [As(f, Accepted)] + [As(f, Rejected)], tenant, id)
      == AdjustmentFor(feedback, tenant, id)
  {
    hide Collect, SumBy, Mentions;
    var one := feedback + [As(f, Accepted)];
    var two := one + [As(f, Accepted)];
    AdjustmentIsSum(feedback, tenant, id);
    AdjustmentIsSum(two + [As(f, Rejected)], tenant, id);
    SumWithMore(feedback, As(f, Accepted), tenant, id);
    SumWithMore(one, As(f, Accepted), tenant, id);
    SumWithMore(two, As(f, Rejected), tenant, id);
    Offset(f, Load(f.memories), id);
  }

  /** A recompute leaves the tenant without rows exactly when no brief in scope has a list that is readable text and
      names a memory; briefs whose lists come parsed are as good as absent. */
  lemma NothingLearnedIff(feedback: seq<Feedback>, tenant: Option<string>, scores: Scores)
    ensures Rebuilt(scores, TenantKey(tenant), Tally(Mentions(feedback, tenant))) == Deleted(scores, TenantKey(tenant))
      <==> forall i :: 0 <= i < |feedback| && (tenant == None || feedback[i].tenant == tenant) ==>
             !NamesMemory(Load(feedback[i].memories))
  {
    hide Collect, CountBy, Rebuilt, Deleted, NamesMemory, Load;
    var rows, mentions := Collect(feedback, ScopeOf(tenant)), Mentions(feedback, tenant);
    MentionsOfRows(rows);
    InScopeMembers(feedback, tenant);
    NothingReadIff(rows);
    EmptyTallyIff(scores, TenantKey(tenant), mentions);
    if forall i :: 0 <= i < |feedback| && InScope(feedback[i], tenant) ==> !NamesMemory(Load(feedback[i].memories)) {
      forall i | 0 <= i < |rows| ensures !NamesMemory(Load(rows[i].memories)) {
        assert rows[i] in rows;
      }
    } else {
      var i :| 0 <= i < |feedback| && InScope(feedback[i], tenant) && NamesMemory(Load(feedback[i].memories));
      assert feedback[i] in rows;
    }
  }

  lemma {:induction false} NothingReadIff(rows: seq<Feedback>)
    ensures CountBy(rows, Reading()) == 0 <==> forall i :: 0 <= i < |rows| ==> !NamesMemory(Load(rows[i].memories))
  {
    hide NamesMemory, Load;
    if rows != [] {
      NoneNamedIff(Load(rows[0].memories));
      NothingReadIff(rows[1..]);
      assert forall i :: 0 < i < |rows| ==> rows[i] == rows[1..][i - 1];
      assert forall i :: 0 <= i < |rows| - 1 ==> rows[1..][i] == rows[i + 1];
    }
  }

  lemma EmptyTallyIff(scores: Scores, key: string, mentions: seq<Mention>)
    ensures Rebuilt(scores, key, Tally(mentions)) == Deleted(scores, key) <==> mentions == []
  {
    hide Rebuilt, Deleted, Summary;
    if mentions == [] {
      assert Tally([]) == map[];
      NoRows(scores, key);
    } else {
      var k := (mentions[0].id, key);
      assert mentions[0] in mentions;
      RebuiltAt(scores, key, Tally(mentions), k);
      DeletedAt(scores, key, k);
    }
  }
}
