/** src/chips/harvester/issue_refs.py: the resumable queue of issue references. */
module IssueRefs {
  import opened Signals
  import opened Sorting
  import opened Sums
  import opened Text
  import opened Numerals

  datatype Status = Ok | NotFound | RateLimited | Failed | Skipped

  const STATUSES: set<Status> := {Ok, NotFound, RateLimited, Failed, Skipped}

  /** A body is None when it cannot be read as an issue: not JSON, or JSON of another shape. */
  datatype Reply = HttpError | Response(code: int, body: Option<string>)

  /** What the tracker answers for an issue number at the n-th fetch: anything at all. */
  type Remote = (nat, nat) -> Reply

  datatype Record = Record(ref: string, repo: string, status: Status, issueNumber: Option<nat>, body: Option<string>)

  /** cortex_issue_refs, by repository and reference. */
  type Table = map<(string, string), Record>

  // ---- One reference ----

  /** "#" and at least one digit, white space around it allowed. */
  function IssueNumber(ref: string): Option<nat> {
    var t := Strip(ref);
    if |t| >= 2 && t[0] == '#' then DigitsValue(t[1..], 0) else None
  }

  /** Exactly a "#" followed by digits and nothing else, white space around it aside, has a number. */
  lemma NumberedIff(ref: string)
    ensures
      var s := Strip(ref);
      IssueNumber(ref) != None <==> |s| >= 2 && s[0] == '#' && forall i :: 1 <= i < |s| ==> '0' <= s[i] <= '9'
  {
    var s := Strip(ref);
    if |s| >= 2 {
      DigitsIff(s[1..], 0);
      assert forall i :: 1 <= i < |s| ==> s[i] == s[1..][i - 1];
      assert forall i :: 0 <= i < |s| - 1 ==> s[1..][i] == s[i + 1];
    }
  }

  lemma {:induction false} DigitsIff(s: string, acc: nat)
    ensures DigitsValue(s, acc) != None <==> forall i :: 0 <= i < |s| ==> '0' <= s[i] <= '9'
  {
    if s != [] && '0' <= s[0] <= '9' {
      DigitsIff(s[1..], 10 * acc + (s[0] as int - '0' as int));
      assert forall i :: 0 < i < |s| ==> s[i] == s[1..][i - 1];
      assert forall i :: 0 <= i < |s| - 1 ==> s[1..][i] == s[i + 1];
    }
  }

  /** The number written after "#", with white space around it, is the number asked for. */
  lemma NumberedRef(before: string, n: nat, after: string)
    requires forall i :: 0 <= i < |before| ==> IsSpace(before[i])
    requires forall i :: 0 <= i < |after| ==> IsSpace(after[i])
    ensures IssueNumber(before + ("#" + Decimal(n)) + after) == Some(n)
  {
    DecimalRead(n);
    var ref := "#" + Decimal(n);
    assert ref[1..] == Decimal(n);
    DigitsAreNoSpace(Decimal(n), 0);
    StripAround(before, ref, after);
  }

  lemma {:induction false} DigitsAreNoSpace(s: string, acc: nat)
    requires DigitsValue(s, acc).Some?
    ensures forall i :: 0 <= i < |s| ==> !IsSpace(s[i])
  {
    if s != [] {
      DigitsAreNoSpace(s[1..], 10 * acc + (s[0] as int - '0' as int));
      assert forall i :: 0 < i < |s| ==> s[i] == s[1..][i - 1];
    }
  }

  function StatusOf(reply: Reply): Status {
    match reply
    case HttpError => Failed
    case Response(code, _) =>
      if code == 404 then NotFound
      else if code == 403 || code == 429 then RateLimited
      else if code != 200 then Failed
      else Ok
  }

  /** A success whose body cannot be read: reading it raises, and nothing catches that. */
  predicate Unreadable(reply: Reply) {
    reply.Response? && reply.code == 200 && reply.body == None
  }

  /** The record of one fetch; None when it raises. */
  function Fetch(repo: string, remote: Remote, ref: string, t: nat): Option<Record> {
    match IssueNumber(ref)
    case None => Some(Record(ref, repo, Skipped, None, None))
    case Some(n) =>
      var reply := remote(n, t);
      if Unreadable(reply) then None
      else Some(Record(ref, repo, StatusOf(reply), Some(n), if StatusOf(reply) == Ok then reply.body else None))
  }

  // ---- The queue ----

  /** No row yet, or only a rate-limited one. */
  predicate IsOpen(table: Table, repo: string, ref: string) {
    (repo, ref) in table ==> table[(repo, ref)].status == RateLimited
  }

  function KeepOpen(table: Table, repo: string): string -> seq<string> {
    ref => if IsOpen(table, repo, ref) then [ref] else []
  }

  function Itself(): seq<string> -> seq<string> {
    (refs: seq<string>) => refs
  }

  /** The references of the corpus, each once, in order. */
  function AllRefs(corpus: seq<seq<string>>): seq<string> {
    Sort(FirstSeen(Collect(corpus, Itself()), {}), StrLe)
  }

  function Queue(table: Table, corpus: seq<seq<string>>, repo: string): seq<string> {
    Collect(AllRefs(corpus), KeepOpen(table, repo))
  }

  function PendingRefs(table: Table, corpus: seq<seq<string>>, repo: string, limit: nat): seq<string> {
    var queue := Queue(table, corpus, repo);
    if limit <= |queue| then queue[..limit] else queue
  }

  // ---- One batch ----

  /** The records written: one a reference, up to and including the first rate limit, or up to the first fetch
      that raises. */
  function Processed(repo: string, remote: Remote, refs: seq<string>, t: nat): seq<Record> {
    if refs == [] then []
    else match Fetch(repo, remote, refs[0], t)
      case None => []
      case Some(record) =>
        [record] + if record.status == RateLimited then [] else Processed(repo, remote, refs[1..], t + 1)
  }

  /** The batch stops with an exception. */
  function Raises(repo: string, remote: Remote, refs: seq<string>, t: nat): bool {
    if refs == [] then false
    else match Fetch(repo, remote, refs[0], t)
      case None => true
      case Some(record) => record.status != RateLimited && Raises(repo, remote, refs[1..], t + 1)
  }

  /** INSERT ... ON CONFLICT (repo, ref) DO UPDATE */
  function Store(table: Table, record: Record): Table {
    table[(record.repo, record.ref) := record]
  }

  function StoreAll(table: Table, records: seq<Record>): Table
    decreases records
  {
    if records == [] then table else StoreAll(Store(table, records[0]), records[1..])
  }

  function HasStatus(s: Status): Record -> nat {
    (r: Record) => if r.status == s then 1 else 0
  }

  function CountsOf(records: seq<Record>): map<Status, nat> {
    map s | s in STATUSES :: CountBy(records, HasStatus(s))
  }

  function Batch(table: Table, corpus: seq<seq<string>>, repo: string, remote: Remote, t: nat, limit: nat)
    : seq<Record>
  {
    Processed(repo, remote, PendingRefs(table, corpus, repo, limit), t)
  }

  /** What a call comes to: the counts, or the exception. */
  datatype Outcome = Counts(counts: map<Status, nat>) | Raised

  class IssueRefStore {
    var table: Table

    constructor ()
      ensures table == map[]
    {
      table := map[];
    }

    method StoreIssueRef(record: Record)
      modifies this
      ensures table == Store(old(table), record)
    {
      table := table[(record.repo, record.ref) := record];
    }

    method HarvestIssueRefs(corpus: seq<seq<string>>, repo: string, remote: Remote, t: nat, limit: nat)
      returns (outcome: Outcome)
      modifies this
      ensures table == StoreAll(old(table), Batch(old(table), corpus, repo, remote, t, limit))
      ensures outcome == if Raises(repo, remote, PendingRefs(old(table), corpus, repo, limit), t) then Raised
        else Counts(CountsOf(Batch(old(table), corpus, repo, remote, t, limit)))
    {
      hide StoreAll, CountsOf, PendingRefs, Fetch, Processed, Raises;
      NothingDone(table);
      var counts := map[Ok := 0, NotFound := 0, RateLimited := 0, Failed := 0, Skipped := 0];
      var refs := PendingRefs(table, corpus, repo, limit);
      ghost var done: seq<Record> := [];
      var i := 0;
      assert refs[0..] == refs && [] + Processed(repo, remote, refs, t) == Processed(repo, remote, refs, t);
      while i < |refs|
        invariant 0 <= i <= |refs|
        invariant done + Processed(repo, remote, refs[i..], t + i) == Processed(repo, remote, refs, t)
        invariant Raises(repo, remote, refs[i..], t + i) == Raises(repo, remote, refs, t)
        invariant table == StoreAll(old(table), done)
        invariant counts == CountsOf(done) && counts.Keys == STATUSES
      {
        var fetched := Fetch(repo, remote, refs[i], t + i);
        ProcessedNext(repo, remote, refs, t, i);
        if fetched == None {
          assert done + [] == done;
          return Raised;
        }
        var record := fetched.value;
        NextRecord(old(table), done, record);
        Extended(done, [record],
                 if record.status == RateLimited then [] else Processed(repo, remote, refs[i + 1..], t + i + 1));
        done := done + [record];
        StoreIssueRef(record);
        EveryStatus(record.status);
        counts := counts[record.status := counts[record.status] + 1];
        i := i + 1;
        if record.status == RateLimited {
          assert done + [] == done;
          return Counts(counts);
        }
      }
      NoneLeft(repo, remote, refs, t + i);
      assert done + [] == done;
      outcome := Counts(counts);
    }
  }

  lemma NothingDone(table: Table)
    ensures StoreAll(table, []) == table
    ensures CountsOf([]) == map[Ok := 0, NotFound := 0, RateLimited := 0, Failed := 0, Skipped := 0]
  {
  }

  lemma NoneLeft(repo: string, remote: Remote, refs: seq<string>, t: nat)
    ensures Processed(repo, remote, refs[|refs|..], t) == [] && !Raises(repo, remote, refs[|refs|..], t)
  {
  }

  lemma ProcessedNext(repo: string, remote: Remote, refs: seq<string>, t: nat, i: nat)
    requires i < |refs|
    ensures match Fetch(repo, remote, refs[i], t + i)
      case None => Processed(repo, remote, refs[i..], t + i) == [] && Raises(repo, remote, refs[i..], t + i)
      case Some(record) =>
        && Processed(repo, remote, refs[i..], t + i)
             == [record]
               + (if record.status == RateLimited then [] else Processed(repo, remote, refs[i + 1..], t + i + 1))
        && Raises(repo, remote, refs[i..], t + i)
             == (record.status != RateLimited && Raises(repo, remote, refs[i + 1..], t + i + 1))
  {
  }

  lemma CountNext(done: seq<Record>, record: Record, s: Status)
    ensures CountBy(done + [record], HasStatus(s)) == CountBy(done, HasStatus(s)) + if record.status == s then 1 else 0
  {
    CountAppend(done, [record], HasStatus(s));
    CountSingle(record, HasStatus(s));
  }

  lemma NextRecord(table: Table, done: seq<Record>, record: Record)
    ensures StoreAll(table, done + [record]) == Store(StoreAll(table, done), record)
    ensures CountsOf(done + [record]) == CountsOf(done)[record.status := CountsOf(done)[record.status] + 1]
  {
    hide StoreAll, CountBy, Store, HasStatus, STATUSES;
    StoreAppend(table, done, record);
    EveryStatus(record.status);
    forall s
      ensures CountBy(done + [record], HasStatus(s))
        == CountBy(done, HasStatus(s)) + if record.status == s then 1 else 0
    {
      CountNext(done, record, s);
    }
  }

  lemma EveryStatus(s: Status)
    ensures s in STATUSES
  {
  }

  lemma {:induction false} StoreAppend(table: Table, done: seq<Record>, record: Record)
    ensures StoreAll(table, done + [record]) == Store(StoreAll(table, done), record)
    decreases done
  {
    if done == [] {
      assert done + [record] == [record] && [record][1..] == [];
    } else {
      assert (done + [record])[1..] == done[1..] + [record];
      StoreAppend(Store(table, done[0]), done[1..], record);
    }
  }

  // ---- What the queue holds ----

  lemma AllRefsAre(corpus: seq<seq<string>>)
    ensures SortedBy(StrLe, AllRefs(corpus)) && Distinct(AllRefs(corpus))
    ensures forall ref :: ref in AllRefs(corpus) <==> ref in Collect(corpus, Itself())
  {
    var seen := FirstSeen(Collect(corpus, Itself()), {});
    FirstSeenMembers(Collect(corpus, Itself()), {});
    StrOrder();
    SortIsSortedPermutation(seen, StrLe);
    SameElements(seen, AllRefs(corpus));
  }

  lemma SameElements(a: seq<string>, b: seq<string>)
    requires Distinct(a) && multiset(a) == multiset(b)
    ensures Distinct(b) && forall x :: x in a <==> x in b
  {
    forall x ensures x in a <==> x in b {
      assert x in multiset(a) <==> x in multiset(b);
    }
    forall i, j | 0 <= i < j < |b| ensures b[i] != b[j] {
      DistinctMultiplicity(a, b[i]);
      assert b == b[..j] + [b[j]] + b[j + 1..];
      assert b[i] in b[..j];
    }
  }

  lemma {:induction false} KeptIn(refs: seq<string>, table: Table, repo: string)
    requires Distinct(refs) && SortedBy(StrLe, refs)
    ensures forall ref :: ref in Collect(refs, KeepOpen(table, repo)) <==> ref in refs && IsOpen(table, repo, ref)
    ensures Distinct(Collect(refs, KeepOpen(table, repo))) && SortedBy(StrLe, Collect(refs, KeepOpen(table, repo)))
  {
    if refs != [] {
      KeptIn(refs[1..], table, repo);
      assert refs == [refs[0]] + refs[1..];
      var rest := Collect(refs[1..], KeepOpen(table, repo));
      forall i | 0 <= i < |rest| ensures rest[i] != refs[0] && StrLe(refs[0], rest[i]) {
        assert rest[i] in rest;
        DistinctMultiplicity(refs, refs[0]);
        SortedHead(refs, rest[i], StrLe);
      }
      assert Collect(refs, KeepOpen(table, repo)) == KeepOpen(table, repo)(refs[0]) + rest;
    }
  }

  /** The queue holds each reference of the corpus that is open, once, in order. */
  lemma QueueIs(table: Table, corpus: seq<seq<string>>, repo: string)
    ensures SortedBy(StrLe, Queue(table, corpus, repo)) && Distinct(Queue(table, corpus, repo))
    ensures forall ref ::
      ref in Queue(table, corpus, repo) <==> ref in Collect(corpus, Itself()) && IsOpen(table, repo, ref)
  {
    hide AllRefs, Collect, IsOpen, StrLe;
    AllRefsAre(corpus);
    KeptIn(AllRefs(corpus), table, repo);
  }

  // ---- What a batch does ----

  /** Records follow the references in order; a rate limit can only be the last; only a rate limit or a fetch that
      raises stops a batch early, and the batch raises exactly in the latter case. */
  lemma {:induction false} ProcessedIs(repo: string, remote: Remote, refs: seq<string>, t: nat)
    ensures var records := Processed(repo, remote, refs, t);
      && |records| <= |refs|
      && (forall i :: 0 <= i < |records| ==> Fetch(repo, remote, refs[i], t + i) == Some(records[i]))
      && (forall i :: 0 <= i < |records| - 1 ==> records[i].status != RateLimited)
      && (|records| < |refs| ==>
            || (records != [] && records[|records| - 1].status == RateLimited && !Raises(repo, remote, refs, t))
            || (Fetch(repo, remote, refs[|records|], t + |records|) == None && Raises(repo, remote, refs, t)
                && (records != [] ==> records[|records| - 1].status != RateLimited)))
      && (|records| == |refs| ==> !Raises(repo, remote, refs, t))
  {
    hide Fetch;
    if refs != [] {
      match Fetch(repo, remote, refs[0], t)
      case None =>
      case Some(record) =>
        var records, rest := Processed(repo, remote, refs, t), Processed(repo, remote, refs[1..], t + 1);
        ProcessedIs(repo, remote, refs[1..], t + 1);
        if record.status != RateLimited {
          assert records == [record] + rest;
          forall i | 0 < i < |records|
            ensures Fetch(repo, remote, refs[i], t + i) == Some(records[i])
            ensures i < |records| - 1 ==> records[i].status != RateLimited
          {
            assert records[i] == rest[i - 1] && refs[i] == refs[1..][i - 1];
          }
          assert |records| < |refs| ==> refs[|records|] == refs[1..][|rest|];
        }
    }
  }

  /** The references a batch settles for good. */
  function Settled(records: seq<Record>): nat {
    if records == [] then 0
    else if records[|records| - 1].status == RateLimited then |records| - 1
    else |records|
  }

  lemma FetchKeeps(repo: string, remote: Remote, ref: string, t: nat)
    ensures Fetch(repo, remote, ref, t).Some? ==>
      Fetch(repo, remote, ref, t).value.repo == repo && Fetch(repo, remote, ref, t).value.ref == ref
  {
  }

  /** The table after a batch, row by row: the records written, and every other row as it was. */
  lemma {:induction false} StoredRows(table: Table, records: seq<Record>, k: (string, string))
    requires forall i, j :: 0 <= i < j < |records| ==>
      (records[i].repo, records[i].ref) != (records[j].repo, records[j].ref)
    ensures forall i :: 0 <= i < |records| && (records[i].repo, records[i].ref) == k ==>
      k in StoreAll(table, records) && StoreAll(table, records)[k] == records[i]
    ensures (forall i :: 0 <= i < |records| ==> (records[i].repo, records[i].ref) != k) ==>
      (k in StoreAll(table, records) <==> k in table) && (k in table ==> StoreAll(table, records)[k] == table[k])
    decreases records
  {
    if records != [] {
      var rest := records[1..];
      assert forall i :: 0 <= i < |rest| ==> rest[i] == records[i + 1];
      StoredRows(Store(table, records[0]), rest, k);
    }
  }

  /** After a batch a reference is open exactly when it was and the batch did not settle it. */
  lemma OpenAfter(table: Table, repo: string, remote: Remote, refs: seq<string>, t: nat, ref: string)
    requires Distinct(refs) && forall i :: 0 <= i < |refs| ==> IsOpen(table, repo, refs[i])
    ensures var records := Processed(repo, remote, refs, t);
      && Settled(records) <= |refs|
      && (IsOpen(StoreAll(table, records), repo, ref) <==> IsOpen(table, repo, ref) && ref !in refs[..Settled(records)])
  {
    var records := Processed(repo, remote, refs, t);
    ProcessedIs(repo, remote, refs, t);
    forall i | 0 <= i < |records| ensures records[i].repo == repo && records[i].ref == refs[i] {
      FetchKeeps(repo, remote, refs[i], t + i);
    }
    StoredRows(table, records, (repo, ref));
    OpenAfterRecords(table, repo, refs, records, ref);
  }

  lemma OpenAfterRecords(table: Table, repo: string, refs: seq<string>, records: seq<Record>, ref: string)
    requires Distinct(refs) && |records| <= |refs| && forall i :: 0 <= i < |refs| ==> IsOpen(table, repo, refs[i])
    requires forall i :: 0 <= i < |records| ==> records[i].repo == repo && records[i].ref == refs[i]
    requires forall i :: 0 <= i < |records| - 1 ==> records[i].status != RateLimited
    requires var after := StoreAll(table, records);
      && (forall i :: 0 <= i < |records| && records[i].ref == ref ==>
        (repo, ref) in after && after[(repo, ref)] == records[i])
      && ((forall i :: 0 <= i < |records| ==> records[i].ref != ref) ==>
            ((repo, ref) in after <==> (repo, ref) in table)
              && ((repo, ref) in table ==> after[(repo, ref)] == table[(repo, ref)]))
    ensures IsOpen(StoreAll(table, records), repo, ref)
      <==> IsOpen(table, repo, ref) && ref !in refs[..Settled(records)]
  {
    hide StoreAll;
    if i :| 0 <= i < |records| && records[i].ref == ref {
      assert refs[i] == ref;
      if i < Settled(records) {
        assert refs[..Settled(records)][i] == ref;
      } else {
        assert forall j :: 0 <= j < Settled(records) ==> refs[j] != refs[i];
      }
    } else {
      assert forall j :: 0 <= j < Settled(records) ==> records[j].ref == refs[j];
    }
  }

  /** Keeps a reference or drops it. */
  ghost predicate IsFilter(f: string -> seq<string>) {
    forall ref :: f(ref) == [] || f(ref) == [ref]
  }

  /** g keeps what f keeps but the references among `cut`. */
  ghost predicate Cuts(refs: seq<string>, f: string -> seq<string>, g: string -> seq<string>, cut: seq<string>) {
    forall i :: 0 <= i < |refs| ==> g(refs[i]) == if refs[i] in cut then [] else f(refs[i])
  }

  /** Dropping a prefix of what is kept. */
  lemma {:induction false} KeptWithout(refs: seq<string>, f: string -> seq<string>, g: string -> seq<string>, d: nat)
    requires Distinct(refs) && IsFilter(f)
    requires d <= |Collect(refs, f)| && Cuts(refs, f, g, Collect(refs, f)[..d])
    ensures Collect(refs, g) == Collect(refs, f)[d..]
  {
    if refs != [] {
      var rest, kept := refs[1..], Collect(refs[1..], f);
      assert f(refs[0]) == [] || f(refs[0]) == [refs[0]];
      assert Collect(refs, f) == f(refs[0]) + kept;
      assert Distinct(rest) by { assert forall i :: 0 <= i < |rest| ==> rest[i] == refs[i + 1]; }
      var e := if f(refs[0]) == [] || d == 0 then d else d - 1;
      CutRest(refs, f, g, d, e);
      KeptWithout(rest, f, g, e);
      HeadKept(refs, f, g, d, e);
    }
  }

  lemma CutRest(refs: seq<string>, f: string -> seq<string>, g: string -> seq<string>, d: nat, e: nat)
    requires refs != [] && Distinct(refs) && IsFilter(f)
    requires d <= |Collect(refs, f)| && Cuts(refs, f, g, Collect(refs, f)[..d])
    requires e == if f(refs[0]) == [] || d == 0 then d else d - 1
    ensures e <= |Collect(refs[1..], f)| && Cuts(refs[1..], f, g, Collect(refs[1..], f)[..e])
  {
    hide Collect;
    var rest, kept := refs[1..], Collect(refs[1..], f);
    CollectHead(refs, f);
    assert f(refs[0]) == [] || f(refs[0]) == [refs[0]];
    var cut := Collect(refs, f)[..d];
    assert cut == (if f(refs[0]) == [] || d == 0 then [] else [refs[0]]) + kept[..e];
    forall i | 0 <= i < |rest| ensures g(rest[i]) == if rest[i] in kept[..e] then [] else f(rest[i]) {
      assert rest[i] == refs[i + 1] != refs[0];
      assert rest[i] in cut <==> rest[i] in kept[..e];
    }
  }

  lemma CollectHead(refs: seq<string>, f: string -> seq<string>)
    requires refs != []
    ensures Collect(refs, f) == f(refs[0]) + Collect(refs[1..], f)
  {
  }

  lemma HeadKept(refs: seq<string>, f: string -> seq<string>, g: string -> seq<string>, d: nat, e: nat)
    requires refs != [] && Distinct(refs) && IsFilter(f)
    requires d <= |Collect(refs, f)| && Cuts(refs, f, g, Collect(refs, f)[..d])
    requires e == if f(refs[0]) == [] || d == 0 then d else d - 1
    requires e <= |Collect(refs[1..], f)| && Collect(refs[1..], g) == Collect(refs[1..], f)[e..]
    ensures Collect(refs, g) == Collect(refs, f)[d..]
  {
    hide Collect;
    CollectHead(refs, f);
    CollectHead(refs, g);
    assert f(refs[0]) == [] || f(refs[0]) == [refs[0]];
    var cut := Collect(refs, f)[..d];
    assert g(refs[0]) == if refs[0] in cut then [] else f(refs[0]);
    if d > 0 && f(refs[0]) != [] {
      assert cut[0] == refs[0];
    }
  }

  lemma KeptForms(table: Table, repo: string, ref: string)
    ensures KeepOpen(table, repo)(ref) == if IsOpen(table, repo, ref) then [ref] else []
  {
  }

  /** A batch is the head of the queue. */
  lemma PendingIs(table: Table, corpus: seq<seq<string>>, repo: string, limit: nat)
    ensures PendingRefs(table, corpus, repo, limit) <= Queue(table, corpus, repo)
    ensures Distinct(PendingRefs(table, corpus, repo, limit))
    ensures forall i :: 0 <= i < |PendingRefs(table, corpus, repo, limit)| ==>
      IsOpen(table, repo, PendingRefs(table, corpus, repo, limit)[i])
  {
    hide Queue, IsOpen, Collect;
    var queue, refs := Queue(table, corpus, repo), PendingRefs(table, corpus, repo, limit);
    QueueIs(table, corpus, repo);
    assert forall i :: 0 <= i < |refs| ==> refs[i] == queue[i] && queue[i] in queue;
  }

  /** A batch takes exactly the references it settled off the front of the queue: all of them up to the limit,
      or those before the first rate limit or exception, whose reference stays at the head. */
  lemma QueueAfterBatch(table: Table, corpus: seq<seq<string>>, repo: string, remote: Remote, t: nat, limit: nat)
    ensures var records := Batch(table, corpus, repo, remote, t, limit);
      && Settled(records) <= |Queue(table, corpus, repo)|
      && Queue(StoreAll(table, records), corpus, repo) == Queue(table, corpus, repo)[Settled(records)..]
  {
    hide AllRefs, StoreAll, Processed, IsOpen, Settled, Collect;
    var queue, refs := Queue(table, corpus, repo), PendingRefs(table, corpus, repo, limit);
    PendingIs(table, corpus, repo, limit);
    var records := Batch(table, corpus, repo, remote, t, limit);
    var d := Settled(records);
    var f, g := KeepOpen(table, repo), KeepOpen(StoreAll(table, records), repo);
    AllRefsAre(corpus);
    OpenAfter(table, repo, remote, refs, t, "");
    assert refs[..d] == queue[..d];
    forall ref ensures (f(ref) == [] || f(ref) == [ref]) && g(ref) == if ref in queue[..d] then [] else f(ref) {
      OpenAfter(table, repo, remote, refs, t, ref);
      KeptForms(table, repo, ref);
      KeptForms(StoreAll(table, records), repo, ref);
    }
    KeptWithout(AllRefs(corpus), f, g, d);
  }

  /** What the row of a reference says after the tracker's answer: a reference without a number was skipped; 404 is not
      found, 403 and 429 are rate limits, 200 is stored with its body, and everything else failed. */
  predicate Tells(row: Record, number: Option<nat>, reply: Reply) {
    match number
    case None => row.status == Skipped && row.issueNumber == None && row.body == None
    case Some(n) =>
      && row.issueNumber == Some(n)
      && match reply
         case HttpError => row.status == Failed && row.body == None
         case Response(code, body) =>
           if code == 200 then row.status == Ok && row.body == body && body != None
           else
             && row.body == None
             && (row.status == NotFound <==> code == 404)
             && (row.status == RateLimited <==> code in {403, 429})
             && (row.status == Failed <==> code !in {403, 404, 429})
  }

  /** What the tracker is asked about a reference, and answers; without a number it is not asked. */
  function Answer(remote: Remote, number: Option<nat>, t: nat): Reply {
    match number case None => HttpError case Some(n) => remote(n, t)
  }

  /** The table after a batch: every reference it has a record of has the row its answer calls for, the i-th one by the
      i-th fetch, and every other row is as it was. */
  lemma RowAfterBatch(table: Table, corpus: seq<seq<string>>, repo: string, remote: Remote, t: nat, limit: nat,
                      key: (string, string))
    ensures
      var refs := PendingRefs(table, corpus, repo, limit);
      var n := |Batch(table, corpus, repo, remote, t, limit)|;
      var after := StoreAll(table, Batch(table, corpus, repo, remote, t, limit));
      && n <= |refs|
      && (forall i :: 0 <= i < n && key == (repo, refs[i]) ==>
            && key in after && (after[key].repo, after[key].ref) == key
            && Tells(after[key], IssueNumber(refs[i]), Answer(remote, IssueNumber(refs[i]), t + i)))
      && ((forall i :: 0 <= i < n ==> key != (repo, refs[i])) ==>
            (key in after <==> key in table) && (key in table ==> after[key] == table[key]))
  {
    hide StoreAll, Collect, Processed, PendingRefs, IssueNumber, Tells, Answer, IsOpen;
    var refs, records := PendingRefs(table, corpus, repo, limit), Batch(table, corpus, repo, remote, t, limit);
    PendingIs(table, corpus, repo, limit);
    ProcessedIs(repo, remote, refs, t);
    forall i | 0 <= i < |records|
      ensures records[i].repo == repo && records[i].ref == refs[i]
      ensures Tells(records[i], IssueNumber(refs[i]), Answer(remote, IssueNumber(refs[i]), t + i))
    {
      FetchKeeps(repo, remote, refs[i], t + i);
      FetchTells(repo, remote, refs[i], t + i);
    }
    StoredRows(table, records, key);
  }

  lemma FetchTells(repo: string, remote: Remote, ref: string, t: nat)
    requires Fetch(repo, remote, ref, t) != None
    ensures Tells(Fetch(repo, remote, ref, t).value, IssueNumber(ref), Answer(remote, IssueNumber(ref), t))
  {
    hide IssueNumber;
  }

  predicate Limiting(reply: Reply) {
    reply.Response? && (reply.code == 403 || reply.code == 429)
  }

  /** The fetch of the reference is answered by a success with a body that cannot be read. */
  predicate Breaks(remote: Remote, ref: string, t: nat) {
    IssueNumber(ref).Some? && remote(IssueNumber(ref).value, t) == Response(200, None)
  }

  /** Or by a rate limit. */
  predicate Blocked(remote: Remote, ref: string, t: nat) {
    Breaks(remote, ref, t) || (IssueNumber(ref).Some? && Limiting(remote(IssueNumber(ref).value, t)))
  }

  lemma BlockedIff(repo: string, remote: Remote, ref: string, t: nat)
    ensures Blocked(remote, ref, t)
      <==> match Fetch(repo, remote, ref, t) case None => true case Some(r) => r.status == RateLimited
    ensures Fetch(repo, remote, ref, t) == None <==> Breaks(remote, ref, t)
  {
    hide IssueNumber;
  }

  /** A batch settles the references before the first blocked one. */
  lemma {:induction false} SettledIs(repo: string, remote: Remote, refs: seq<string>, t: nat)
    ensures var d := Settled(Processed(repo, remote, refs, t));
      && d <= |refs|
      && (forall i :: 0 <= i < d ==> !Blocked(remote, refs[i], t + i))
      && (d < |refs| ==> Blocked(remote, refs[d], t + d))
  {
    hide Fetch, Blocked, Processed;
    var records := Processed(repo, remote, refs, t);
    ProcessedIs(repo, remote, refs, t);
    forall i | 0 <= i < |refs|
      ensures Blocked(remote, refs[i], t + i)
        <==> match Fetch(repo, remote, refs[i], t + i) case None => true case Some(r) => r.status == RateLimited
    {
      BlockedIff(repo, remote, refs[i], t + i);
    }
  }

  /** A batch raises exactly when, of the references it would fetch, the first that is blocked is blocked by an
      unreadable success. */
  lemma {:induction false} RaisesIff(repo: string, remote: Remote, refs: seq<string>, t: nat)
    ensures Raises(repo, remote, refs, t) <==>
      exists i :: 0 <= i < |refs| && Breaks(remote, refs[i], t + i)
        && forall j :: 0 <= j < i ==> !Blocked(remote, refs[j], t + j)
  {
    hide Fetch, Blocked, Processed, Raises, Breaks;
    var d := Settled(Processed(repo, remote, refs, t));
    SettledIs(repo, remote, refs, t);
    RaisesAtSettled(repo, remote, refs, t);
    if i :| 0 <= i < |refs| && Breaks(remote, refs[i], t + i)
            && forall j :: 0 <= j < i ==> !Blocked(remote, refs[j], t + j)
    {
      BlockedIff(repo, remote, refs[i], t + i);
      assert i == d;
    }
  }

  /** It raises exactly when the fetch after the settled ones does. */
  lemma RaisesAtSettled(repo: string, remote: Remote, refs: seq<string>, t: nat)
    ensures var d := Settled(Processed(repo, remote, refs, t));
      Raises(repo, remote, refs, t) <==> d < |refs| && Breaks(remote, refs[d], t + d)
  {
    hide Fetch, Blocked, Processed, Raises, Breaks;
    var records := Processed(repo, remote, refs, t);
    ProcessedIs(repo, remote, refs, t);
    if Settled(records) < |refs| {
      BlockedIff(repo, remote, refs[Settled(records)], t + Settled(records));
    }
  }

  /** Of the references a call takes up, those stay pending that come from the first blocked one on. */
  lemma StaysPendingIff(table: Table, corpus: seq<seq<string>>, repo: string, remote: Remote, t: nat, limit: nat,
                        i: nat)
    requires i < |PendingRefs(table, corpus, repo, limit)|
    ensures var refs := PendingRefs(table, corpus, repo, limit);
      (refs[i] in Queue(StoreAll(table, Batch(table, corpus, repo, remote, t, limit)), corpus, repo))
      <==> exists j :: 0 <= j <= i && Blocked(remote, refs[j], t + j)
  {
    hide Queue, StoreAll, Collect, Blocked, Processed, PendingRefs, Settled;
    var refs := PendingRefs(table, corpus, repo, limit);
    var records := Batch(table, corpus, repo, remote, t, limit);
    PendingIs(table, corpus, repo, limit);
    SettledIs(repo, remote, refs, t);
    QueueIs(table, corpus, repo);
    QueueIs(StoreAll(table, records), corpus, repo);
    OpenAfter(table, repo, remote, refs, t, refs[i]);
    assert refs[i] == Queue(table, corpus, repo)[i];
    FirstAt(refs, i, Settled(records));
  }

  lemma FirstAt(s: seq<string>, i: nat, d: nat)
    requires Distinct(s) && i < |s| && d <= |s|
    ensures s[i] in s[..d] <==> i < d
  {
    if i < d {
      assert s[..d][i] == s[i];
    } else {
      assert forall j :: 0 <= j < d ==> s[j] != s[i];
    }
  }

  // ---- Runs of batches ----

  /** One call: the corpus and limit it is made with, and the number of its first fetch. */
  datatype Call = Call(corpus: seq<seq<string>>, limit: nat, t: nat)

  function Fetched(table: Table, repo: string, remote: Remote, call: Call): seq<Record> {
    Batch(table, call.corpus, repo, remote, call.t, call.limit)
  }

  /** What a call may ask the tracker about: it goes through these in order until one is blocked. */
  function Asked(table: Table, repo: string, call: Call): seq<string> {
    PendingRefs(table, call.corpus, repo, call.limit)
  }

  /** The table before each call of a run, and after the last. */
  ghost predicate IsRun(run: seq<Table>, repo: string, remote: Remote, calls: seq<Call>) {
    && |run| == |calls| + 1
    && forall k :: 0 <= k < |calls| ==> run[k + 1] == StoreAll(run[k], Fetched(run[k], repo, remote, calls[k]))
  }

  predicate IsTerminal(table: Table, repo: string, ref: string) {
    (repo, ref) in table && table[(repo, ref)].status != RateLimited
  }

  /** A batch does not ask about a settled reference, and leaves its row alone. */
  lemma TerminalUntouched(table: Table, repo: string, remote: Remote, call: Call, ref: string)
    requires IsTerminal(table, repo, ref)
    ensures ref !in Asked(table, repo, call)
    ensures var after := StoreAll(table, Fetched(table, repo, remote, call));
      (repo, ref) in after && after[(repo, ref)] == table[(repo, ref)]
  {
    hide StoreAll, Fetch, Collect, AllRefs, Processed, PendingRefs;
    var refs, records := Asked(table, repo, call), Fetched(table, repo, remote, call);
    PendingIs(table, call.corpus, repo, call.limit);
    ProcessedIs(repo, remote, refs, call.t);
    forall i | 0 <= i < |records| ensures records[i].repo == repo && records[i].ref == refs[i] {
      FetchKeeps(repo, remote, refs[i], call.t + i);
    }
    StoredRows(table, records, (repo, ref));
  }

  /** Over any run, with any corpus, limit and answers: once a reference is settled its row never changes and it
      is never asked about again. */
  lemma {:induction false} SettledForGood(run: seq<Table>, repo: string, remote: Remote, calls: seq<Call>, ref: string,
                                          i: nat, j: nat)
    requires IsRun(run, repo, remote, calls) && i <= j < |run| && IsTerminal(run[i], repo, ref)
    ensures IsTerminal(run[j], repo, ref) && run[j][(repo, ref)] == run[i][(repo, ref)]
    ensures j < |calls| ==> ref !in Asked(run[j], repo, calls[j])
  {
    hide Batch, StoreAll, PendingRefs;
    if i < j {
      SettledForGood(run, repo, remote, calls, ref, i, j - 1);
      TerminalUntouched(run[j - 1], repo, remote, calls[j - 1], ref);
      assert run[(j - 1) + 1] == StoreAll(run[j - 1], Fetched(run[j - 1], repo, remote, calls[j - 1]));
    }
    if j < |calls| {
      TerminalUntouched(run[j], repo, remote, calls[j], ref);
    }
  }

  function Min(a: nat, b: nat): nat { if a <= b then a else b }

  /** The tracker neither limits nor answers unreadably. */
  ghost predicate NeverBlocks(remote: Remote) {
    forall n, t :: !Limiting(remote(n, t)) && !Unreadable(remote(n, t))
  }

  ghost predicate SameCorpus(calls: seq<Call>, corpus: seq<seq<string>>) {
    forall k :: 0 <= k < |calls| ==> calls[k].corpus == corpus
  }

  function LimitOf(): Call -> nat {
    (call: Call) => call.limit
  }

  /** How many references the first m calls may ask about. */
  function Allowed(calls: seq<Call>, m: nat): nat
    requires m <= |calls|
  {
    CountBy(calls[..m], LimitOf())
  }

  lemma AllowedStep(calls: seq<Call>, m: nat)
    requires m <= |calls|
    ensures m == 0 ==> Allowed(calls, m) == 0
    ensures m > 0 ==> Allowed(calls, m) == Allowed(calls, m - 1) + calls[m - 1].limit
  {
    if m > 0 {
      assert calls[..m] == calls[..m - 1] + [calls[m - 1]];
      CountAppend(calls[..m - 1], [calls[m - 1]], LimitOf());
      CountSingle(calls[m - 1], LimitOf());
    }
  }

  lemma SettlesAll(table: Table, corpus: seq<seq<string>>, repo: string, remote: Remote, t: nat, limit: nat)
    requires NeverBlocks(remote)
    ensures Settled(Batch(table, corpus, repo, remote, t, limit)) == Min(limit, |Queue(table, corpus, repo)|)
  {
    hide Queue, Settled, Processed;
    SettledIs(repo, remote, PendingRefs(table, corpus, repo, limit), t);
  }

  /** Unblocked, calls with limits l1, ..., lm settle the first l1 + ... + lm references, in order. */
  lemma {:induction false} Drains(run: seq<Table>, repo: string, remote: Remote, calls: seq<Call>,
                                  corpus: seq<seq<string>>, m: nat)
    requires IsRun(run, repo, remote, calls) && m < |run| && NeverBlocks(remote) && SameCorpus(calls, corpus)
    ensures
      var queue := Queue(run[0], corpus, repo);
      Queue(run[m], corpus, repo) == queue[Min(Allowed(calls, m), |queue|)..]
  {
    hide Queue, Settled, StoreAll, Batch, Allowed;
    var queue := Queue(run[0], corpus, repo);
    AllowedStep(calls, m);
    if m > 0 {
      Drains(run, repo, remote, calls, corpus, m - 1);
      var before, call := run[m - 1], calls[m - 1];
      assert run[(m - 1) + 1] == StoreAll(before, Fetched(before, repo, remote, call));
      SettlesAll(before, corpus, repo, remote, call.t, call.limit);
      QueueAfterBatch(before, corpus, repo, remote, call.t, call.limit);
      var d := Min(Allowed(calls, m - 1), |queue|);
      assert queue[d..][Min(call.limit, |queue| - d)..] == queue[d + Min(call.limit, |queue| - d)..];
    }
  }

  /** Unblocked, n pending references are drained exactly when the limits of the calls add up to n or more. */
  lemma DrainedIff(run: seq<Table>, repo: string, remote: Remote, calls: seq<Call>, corpus: seq<seq<string>>, m: nat)
    requires IsRun(run, repo, remote, calls) && m < |run| && NeverBlocks(remote) && SameCorpus(calls, corpus)
    ensures Queue(run[m], corpus, repo) == [] <==> Allowed(calls, m) >= |Queue(run[0], corpus, repo)|
  {
    hide Queue, Allowed;
    Drains(run, repo, remote, calls, corpus, m);
  }

  lemma {:induction false} EqualLimits(calls: seq<Call>, limit: nat, m: nat)
    requires m <= |calls| && forall k :: 0 <= k < |calls| ==> calls[k].limit == limit
    ensures Allowed(calls, m) == Product(m, limit)
  {
    AllowedStep(calls, m);
    ProductSteps(m, limit);
    if m > 0 {
      EqualLimits(calls, limit, m - 1);
    }
  }

  lemma ProductSteps(m: nat, limit: nat)
    ensures m == 0 ==> Product(m, limit) == 0
    ensures m > 0 ==> Product(m, limit) == Product(m - 1, limit) + limit
  {
  }

  /** With one positive limit for all calls, n pending references take ceil(n / limit) calls and not fewer. */
  lemma DrainedByCallsIff(run: seq<Table>, repo: string, remote: Remote, calls: seq<Call>, corpus: seq<seq<string>>,
                          limit: nat, m: nat)
    requires IsRun(run, repo, remote, calls) && m < |run| && NeverBlocks(remote) && SameCorpus(calls, corpus)
    requires limit > 0 && forall k :: 0 <= k < |calls| ==> calls[k].limit == limit
    ensures Queue(run[m], corpus, repo) == [] <==> m >= (|Queue(run[0], corpus, repo)| + limit - 1) / limit
  {
    hide Queue;
    DrainedIff(run, repo, remote, calls, corpus, m);
    EqualLimits(calls, limit, m);
    CeilingIff(|Queue(run[0], corpus, repo)|, m, limit);
  }

  lemma CeilingIff(n: nat, m: nat, limit: nat)
    requires limit > 0
    ensures Product(m, limit) >= n <==> m >= (n + limit - 1) / limit
  {
    var c := (n + limit - 1) / limit;
    assert Product(c, limit) <= n + limit - 1 < Product(c, limit) + limit;
    if m >= c {
      ProductGrows(c, m, limit);
    } else {
      ProductGrows(m, c - 1, limit);
      ProductSteps(c, limit);
    }
  }

  lemma ProductGrows(a: nat, b: nat, limit: nat)
    requires a <= b
    ensures Product(a, limit) <= Product(b, limit)
  {
  }

  /** A reference at the head of the queue that is blocked every time keeps the whole queue waiting, for ever. */
  lemma {:induction false} HeadBlocks(run: seq<Table>, repo: string, remote: Remote, calls: seq<Call>,
                                      corpus: seq<seq<string>>, m: nat)
    requires IsRun(run, repo, remote, calls) && m < |run| && SameCorpus(calls, corpus)
    requires Queue(run[0], corpus, repo) != [] && forall t :: Blocked(remote, Queue(run[0], corpus, repo)[0], t)
    ensures Queue(run[m], corpus, repo) == Queue(run[0], corpus, repo)
  {
    hide Queue, Settled, StoreAll, Processed, Blocked;
    if m > 0 {
      HeadBlocks(run, repo, remote, calls, corpus, m - 1);
      var before, call := run[m - 1], calls[m - 1];
      assert run[(m - 1) + 1] == StoreAll(before, Fetched(before, repo, remote, call));
      SettledIs(repo, remote, PendingRefs(before, corpus, repo, call.limit), call.t);
      assert Blocked(remote, Queue(run[0], corpus, repo)[0], call.t + 0);
      assert Settled(Batch(before, corpus, repo, remote, call.t, call.limit)) == 0;
      QueueAfterBatch(before, corpus, repo, remote, call.t, call.limit);
    }
  }

  /** The counts add up to the rows written. */
  lemma CountsAreRows(records: seq<Record>)
    ensures MapTotal(CountsOf(records)) == |records|
  {
    var keys := [Ok, NotFound, RateLimited, Failed, Skipped];
    assert forall s :: s in keys <==> s in STATUSES by {
      forall s ensures s in keys && s in STATUSES {
        EveryStatus(s);
        match s
        case Ok => assert keys[0] == s;
        case NotFound => assert keys[1] == s;
        case RateLimited => assert keys[2] == s;
        case Failed => assert keys[3] == s;
        case Skipped => assert keys[4] == s;
      }
    }
    MapTotalListing(CountsOf(records), keys);
    FiveCounts(CountsOf(records));
    EachOnce(records);
  }

  lemma FiveCounts(m: map<Status, nat>)
    ensures CountBy([Ok, NotFound, RateLimited, Failed, Skipped], Lookup(m))
      == Get(m, Ok) + Get(m, NotFound) + Get(m, RateLimited) + Get(m, Failed) + Get(m, Skipped)
  {
  }

  lemma {:induction false} EachOnce(records: seq<Record>)
    ensures CountBy(records, HasStatus(Ok)) + CountBy(records, HasStatus(NotFound))
      + CountBy(records, HasStatus(RateLimited))
      + CountBy(records, HasStatus(Failed)) + CountBy(records, HasStatus(Skipped)) == |records|
  {
    if records != [] {
      EachOnce(records[1..]);
    }
  }
}
