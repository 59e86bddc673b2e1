/** src/chips/compiler/constraint_repository.py over the table and partial unique index of migration 007. */
module ConstraintStore {
  import opened Signals
  import opened Sorting
  import opened Constraints

  datatype Status = Active | Superseded | Expired

  /** A draft and the identity computed for it. */
  datatype Request = Request(draft: Draft, dedup: Identity)

  datatype Row = Row(id: nat, request: Request, status: Status, createdAt: int)

  // ---- The statements ----

  predicate ActiveFor(row: Row, key: Identity) {
    row.status == Active && row.request.dedup == key
  }

  /** SELECT id ... WHERE dedup_hash = key AND status = 'active' */
  function FindActive(rows: seq<Row>, key: Identity): (found: Option<nat>)
    ensures found == None <==> forall i :: 0 <= i < |rows| ==> !ActiveFor(rows[i], key)
    ensures found.Some? ==> IsActive(rows, found.value, key)
  {
    if rows == [] then None
    else if ActiveFor(rows[0], key) then Some(rows[0].id)
    else
      var found := FindActive(rows[1..], key);
      assert forall i :: 0 < i < |rows| ==> rows[i] == rows[1..][i - 1];
      assert forall i :: 0 <= i < |rows| - 1 ==> rows[1..][i] == rows[i + 1];
      found
  }

  /** The partial unique index lets a row in. */
  predicate IndexAdmits(rows: seq<Row>, row: Row) {
    FindActive(rows, row.request.dedup) == None
  }

  predicate InTenant(row: Row, tenant: Option<string>) {
    tenant == None || row.request.draft.tenant == tenant
  }

  function Retire(row: Row, id: nat, tenant: Option<string>): Row {
    if row.id == id && InTenant(row, tenant) then row.(status := Superseded) else row
  }

  /** UPDATE ... SET status = 'superseded' WHERE id = id AND tenant */
  function RetireRows(rows: seq<Row>, id: nat, tenant: Option<string>): (r: seq<Row>)
    ensures |r| == |rows| && forall i :: 0 <= i < |r| ==> r[i] == Retire(rows[i], id, tenant)
  {
    seq(|rows|, i requires 0 <= i < |rows| => Retire(rows[i], id, tenant))
  }

  // ---- What the table keeps ----

  ghost predicate OneActive(rows: seq<Row>) {
    forall i, j :: 0 <= i < j < |rows| && rows[i].status == Active && rows[j].status == Active
      ==> rows[i].request.dedup != rows[j].request.dedup
  }

  ghost predicate DistinctIds(rows: seq<Row>) {
    forall i, j :: 0 <= i < j < |rows| ==> rows[i].id != rows[j].id
  }

  ghost predicate Sound(rows: seq<Row>) {
    OneActive(rows) && DistinctIds(rows)
  }

  /** The identity stored with every row is that of its draft. */
  ghost predicate Keyed(fold: char -> string, rows: seq<Row>) {
    forall i :: 0 <= i < |rows| ==> IsKeyed(fold, rows[i].request)
  }

  predicate IsKeyed(fold: char -> string, request: Request) {
    request.dedup == DedupKey(fold, request.draft)
  }

  predicate FreshId(rows: seq<Row>, id: nat) {
    forall i :: 0 <= i < |rows| ==> rows[i].id != id
  }

  ghost predicate IsActive(rows: seq<Row>, id: nat, key: Identity) {
    exists i :: 0 <= i < |rows| && rows[i].id == id && ActiveFor(rows[i], key)
  }

  /** Every row is still there with its contents, and none became active again. */
  ghost predicate Kept(before: seq<Row>, after: seq<Row>) {
    && |before| <= |after|
    && forall i :: 0 <= i < |before| ==>
         && after[i].(status := before[i].status) == before[i]
         && (after[i].status == Active ==> before[i].status == Active)
  }

  lemma KeptTransitive(a: seq<Row>, b: seq<Row>, c: seq<Row>)
    requires Kept(a, b) && Kept(b, c)
    ensures Kept(a, c)
  {
  }

  lemma RetireKeeps(rows: seq<Row>, id: nat, tenant: Option<string>)
    requires Sound(rows)
    ensures Sound(RetireRows(rows, id, tenant))
    ensures Kept(rows, RetireRows(rows, id, tenant))
  {
  }

  lemma RetireKeepsKeys(fold: char -> string, rows: seq<Row>, id: nat, tenant: Option<string>)
    requires Keyed(fold, rows)
    ensures Keyed(fold, RetireRows(rows, id, tenant))
  {
  }

  lemma InsertKeepsKeys(fold: char -> string, rows: seq<Row>, row: Row)
    requires Keyed(fold, rows) && IsKeyed(fold, row.request)
    ensures Keyed(fold, rows + [row])
  {
  }

  lemma InsertKeeps(rows: seq<Row>, row: Row)
    requires Sound(rows) && IndexAdmits(rows, row) && FreshId(rows, row.id)
    ensures Sound(rows + [row]) && Kept(rows, rows + [row])
  {
  }

  /** The one active row of an identity is the one found. */
  lemma FoundIsActive(rows: seq<Row>, id: nat, key: Identity)
    requires Sound(rows)
    ensures FindActive(rows, key) == Some(id) <==> IsActive(rows, id, key)
  {
  }

  // ---- for_scope ----

  predicate Listed(row: Row, scope: Option<string>, tenant: Option<string>) {
    && (row.request.draft.scope == "*" || scope == Some(row.request.draft.scope))
    && row.status == Active
    && InTenant(row, tenant)
  }

  function Recent(): (Row, Row) -> bool {
    (a: Row, b: Row) => a.createdAt > b.createdAt || (a.createdAt == b.createdAt && a.id <= b.id)
  }

  function Matching(rows: seq<Row>, scope: Option<string>, tenant: Option<string>): seq<Row> {
    if rows == [] then []
    else (if Listed(rows[0], scope, tenant) then [rows[0]] else []) + Matching(rows[1..], scope, tenant)
  }

  function ForScope(rows: seq<Row>, scope: Option<string>, tenant: Option<string>): seq<Row> {
    Sort(Matching(rows, scope, tenant), Recent())
  }

  lemma RecentIsOrder()
    ensures TotalPreorder(Recent())
  {
  }

  lemma {:induction false} MatchingCounts(rows: seq<Row>, scope: Option<string>, tenant: Option<string>, row: Row)
    ensures multiset(Matching(rows, scope, tenant))[row]
      == if Listed(row, scope, tenant) then multiset(rows)[row] else 0
  {
    if rows == [] {
    } else {
      MatchingCounts(rows[1..], scope, tenant, row);
      assert rows == [rows[0]] + rows[1..];
    }
  }

  lemma DistinctRows(rows: seq<Row>, i: nat)
    requires DistinctIds(rows) && i < |rows|
    ensures multiset(rows)[rows[i]] == 1
  {
    assert rows == rows[..i] + [rows[i]] + rows[i + 1..];
    assert rows[i] !in rows[..i] && rows[i] !in rows[i + 1..];
  }

  /** Exactly the active rows of the scope, each once, the most recent first. */
  lemma ForScopeIs(rows: seq<Row>, scope: Option<string>, tenant: Option<string>)
    requires Sound(rows)
    ensures SortedBy(Recent(), ForScope(rows, scope, tenant))
    ensures forall row ::
      multiset(ForScope(rows, scope, tenant))[row] == if row in rows && Listed(row, scope, tenant) then 1 else 0
    ensures forall i, j :: 0 <= i < j < |ForScope(rows, scope, tenant)| ==>
      ForScope(rows, scope, tenant)[i].request.dedup != ForScope(rows, scope, tenant)[j].request.dedup
  {
    var out := ForScope(rows, scope, tenant);
    RecentIsOrder();
    SortIsSortedPermutation(Matching(rows, scope, tenant), Recent());
    forall row ensures multiset(out)[row] == if row in rows && Listed(row, scope, tenant) then 1 else 0 {
      MatchingCounts(rows, scope, tenant, row);
      if row in rows {
        var i :| 0 <= i < |rows| && rows[i] == row;
        DistinctRows(rows, i);
      } else {
        assert row !in multiset(rows);
      }
    }
    forall i, j | 0 <= i < j < |out| ensures out[i].request.dedup != out[j].request.dedup {
      TwoListed(rows, out, i, j);
    }
  }

  lemma TwiceIn<T>(s: seq<T>, i: nat, j: nat)
    requires i < j < |s|
    ensures s[i] == s[j] ==> multiset(s)[s[i]] >= 2
  {
    assert s == s[..j] + [s[j]] + s[j + 1..];
    assert s[i] in s[..j];
  }

  lemma TwoListed(rows: seq<Row>, out: seq<Row>, i: nat, j: nat)
    requires OneActive(rows) && i < j < |out|
    requires forall row :: multiset(out)[row] <= 1
    requires forall row :: row in multiset(out) ==> row in rows && row.status == Active
    ensures out[i].request.dedup != out[j].request.dedup
  {
    var a, b := out[i], out[j];
    assert a in multiset(out) && b in multiset(out);
    TwiceIn(out, i, j);
    var k :| 0 <= k < |rows| && rows[k] == a;
    var l :| 0 <= l < |rows| && rows[l] == b;
  }

  // ---- Tenants, with the filters written out ----

  /** A tenant is given its own rows and no other's; nobody in particular is given all. */
  lemma ForScopeLists(rows: seq<Row>, scope: Option<string>, tenant: Option<string>, row: Row)
    requires Sound(rows)
    ensures row in ForScope(rows, scope, tenant) <==>
      && row in rows && row.status == Active
      && (row.request.draft.scope == "*" || scope == Some(row.request.draft.scope))
      && (tenant != None ==> row.request.draft.tenant == tenant)
  {
    ForScopeIs(rows, scope, tenant);
    assert row in ForScope(rows, scope, tenant) <==> multiset(ForScope(rows, scope, tenant))[row] > 0;
  }

  /** The newest come first, and those of one time by id. */
  lemma NewestFirst(rows: seq<Row>, scope: Option<string>, tenant: Option<string>, i: nat, j: nat)
    requires Sound(rows) && i < j < |ForScope(rows, scope, tenant)|
    ensures
      var a, b := ForScope(rows, scope, tenant)[i], ForScope(rows, scope, tenant)[j];
      a.createdAt > b.createdAt || (a.createdAt == b.createdAt && a.id <= b.id)
  {
    ForScopeIs(rows, scope, tenant);
  }

  /** No tenant's listing depends on what other tenants have stored. */
  lemma OthersUnseen(rows: seq<Row>, rows': seq<Row>, scope: Option<string>, t: string)
    requires Sound(rows) && Sound(rows')
    requires forall row: Row :: row.request.draft.tenant == Some(t) ==> (row in rows <==> row in rows')
    ensures ForScope(rows, scope, Some(t)) == ForScope(rows', scope, Some(t))
  {
    var a, b := ForScope(rows, scope, Some(t)), ForScope(rows', scope, Some(t));
    ForScopeIs(rows, scope, Some(t));
    ForScopeIs(rows', scope, Some(t));
    forall row ensures multiset(a)[row] == multiset(b)[row] {
      ForScopeLists(rows, scope, Some(t), row);
      ForScopeLists(rows', scope, Some(t), row);
    }
    ListedApart(rows, a);
    SortedUnique(a, b, Recent());
  }

  lemma ListedApart(rows: seq<Row>, out: seq<Row>)
    requires DistinctIds(rows) && forall row :: row in out ==> row in rows
    ensures AntisymmetricOn(Recent(), out)
  {
    forall x, y | x in out && y in out && Recent()(x, y) && Recent()(y, x) ensures x == y {
      var i :| 0 <= i < |rows| && rows[i] == x;
      var j :| 0 <= j < |rows| && rows[j] == y;
    }
  }

  /** A retire for one tenant leaves the rows of the others, and all rows with other ids, as they were; for nobody in
      particular it supersedes the row of that id whosever it is. */
  lemma RetireTouches(rows: seq<Row>, id: nat, tenant: Option<string>, i: nat)
    requires i < |rows|
    ensures RetireRows(rows, id, tenant)[i]
      == if rows[i].id == id && (tenant == None || rows[i].request.draft.tenant == tenant)
         then rows[i].(status := Superseded) else rows[i]
  {
  }

  /** So a retire for another tenant shows in no listing of this one. */
  lemma RetiredApart(rows: seq<Row>, id: nat, t: string, u: string, scope: Option<string>)
    requires Sound(rows) && t != u
    ensures ForScope(RetireRows(rows, id, Some(u)), scope, Some(t)) == ForScope(rows, scope, Some(t))
  {
    var after := RetireRows(rows, id, Some(u));
    RetireKeeps(rows, id, Some(u));
    forall row: Row | row.request.draft.tenant == Some(t) ensures row in rows <==> row in after {
      if row in rows {
        var i :| 0 <= i < |rows| && rows[i] == row;
        assert after[i] == row;
      }
      if row in after {
        var i :| 0 <= i < |after| && after[i] == row;
        assert rows[i] == row;
      }
    }
    OthersUnseen(after, rows, scope, t);
  }

  // ---- The repository, one client at a time ----

  datatype AddResult = Added(id: nat) | UniqueViolation

  /** What other clients commit before the n-th statement of a call; `id` is kept for the caller's own row. */
  type Others = (nat, seq<Row>) -> seq<Row>

  ghost predicate FairOthers(fold: char -> string, others: Others, id: nat) {
    forall n, rows :: Sound(rows) && Keyed(fold, rows) && FreshId(rows, id) ==>
      && Sound(others(n, rows)) && Keyed(fold, others(n, rows))
      && FreshId(others(n, rows), id) && Kept(rows, others(n, rows))
  }

  /** Nobody else is at work. */
  function Alone(): Others {
    (n, rows) => rows
  }

  lemma AloneIsFair(fold: char -> string, id: nat)
    ensures FairOthers(fold, Alone(), id)
  {
  }

  /** The atomic meaning of add. */
  function AddTo(rows: seq<Row>, request: Request, id: nat, now: int): (seq<Row>, nat) {
    match FindActive(rows, request.dedup)
    case Some(existing) => (rows, existing)
    case None => (rows + [Row(id, request, Active, now)], id)
  }

  class ConstraintRepository {
    const fold: char -> string
    var rows: seq<Row>

    ghost predicate Valid()
      reads this
    {
      Sound(rows) && Keyed(fold, rows)
    }

    constructor (fold: char -> string)
      ensures Valid() && rows == [] && this.fold == fold
    {
      this.fold := fold;
      rows := [];
    }

    /** INSERT under the unique index, then COMMIT. */
    method Insert(row: Row) returns (ok: bool)
      requires Valid() && FreshId(rows, row.id) && row.status == Active && IsKeyed(fold, row.request)
      modifies this
      ensures Valid()
      ensures ok <==> old(IndexAdmits(rows, row))
      ensures rows == if ok then old(rows) + [row] else old(rows)
    {
      ok := IndexAdmits(rows, row);
      if ok {
        InsertKeeps(rows, row);
        InsertKeepsKeys(fold, rows, row);
        rows := rows + [row];
      }
    }

    /** id and now are what the database generates for a new row. */
    method Add(draft: Draft, id: nat, now: int, others: Others) returns (result: AddResult)
      requires Valid() && FreshId(rows, id) && FairOthers(fold, others, id)
      modifies this
      ensures Valid() && Kept(old(rows), rows)
      ensures result.Added? ==> IsActive(rows, result.id, DedupKey(fold, draft))
      ensures result == UniqueViolation ==>
        FindActive(rows, DedupKey(fold, draft)) == None && FindActive(others(1, old(rows)), DedupKey(fold, draft)).Some?
      ensures others == Alone() ==>
        result.Added? && (rows, result.id) == AddTo(old(rows), Request(draft, DedupKey(fold, draft)), id, now)
    {
      var key := DedupKey(fold, draft);
      var existing := FindActive(rows, key);
      if existing.Some? {
        return Added(existing.value);
      }
      rows := others(1, rows);
      var row := Row(id, Request(draft, key), Active, now);
      var ok := Insert(row);
      if ok {
        assert rows[|rows| - 1] == row;
        return Added(id);
      }
      ghost var won := rows;
      rows := others(2, rows);
      KeptTransitive(old(rows), won, rows);
      existing := FindActive(rows, key);
      result := if existing == None then UniqueViolation else Added(existing.value);
    }

    /** A call while nobody else is at work is the atomic add; it never raises. */
    method AddAlone(draft: Draft, id: nat, now: int) returns (added: nat)
      requires Valid() && FreshId(rows, id)
      modifies this
      ensures Valid() && Kept(old(rows), rows) && IsActive(rows, added, DedupKey(fold, draft))
      ensures (rows, added) == AddTo(old(rows), Request(draft, DedupKey(fold, draft)), id, now)
    {
      AloneIsFair(fold, id);
      var result := Add(draft, id, now, Alone());
      added := result.id;
    }

    method RetireConstraint(id: nat, tenant: Option<string>) returns (done: bool)
      requires Valid()
      modifies this
      ensures done && Valid() && Kept(old(rows), rows)
      ensures |rows| == |old(rows)|
      ensures forall i :: 0 <= i < |rows| ==>
        rows[i] == if old(rows)[i].id == id && (tenant == None || old(rows)[i].request.draft.tenant == tenant)
                   then old(rows)[i].(status := Superseded) else old(rows)[i]
    {
      RetireKeeps(rows, id, tenant);
      RetireKeepsKeys(fold, rows, id, tenant);
      rows := RetireRows(rows, id, tenant);
      done := true;
    }
  }

  // ---- Calls in sequence ----

  /** Adding the same constraint again, however it is spelled, returns the same id and changes nothing. */
  lemma AddTwice(fold: char -> string, rows: seq<Row>, a: Draft, b: Draft, id: nat, now: int, id': nat, now': int)
    requires Sound(rows) && FreshId(rows, id)
    requires CaseFold(fold) && SameConstraint(fold, a, b)
    ensures var (after, first) := AddTo(rows, Request(a, DedupKey(fold, a)), id, now);
      AddTo(after, Request(b, DedupKey(fold, b)), id', now') == (after, first)
  {
    DedupKeyIff(fold, a, b);
    var request := Request(a, DedupKey(fold, a));
    if FindActive(rows, request.dedup) == None {
      var row := Row(id, request, Active, now);
      InsertKeeps(rows, row);
      assert (rows + [row])[|rows|] == row;
      FoundIsActive(rows + [row], id, request.dedup);
    }
  }

  /** Retiring what an add returned frees its identity exactly when the tenant given may see the row. */
  lemma RetireFrees(rows: seq<Row>, i: nat, tenant: Option<string>)
    requires Sound(rows) && i < |rows| && rows[i].status == Active
    ensures FindActive(RetireRows(rows, rows[i].id, tenant), rows[i].request.dedup) == None
      <==> InTenant(rows[i], tenant)
  {
    var after := RetireRows(rows, rows[i].id, tenant);
    if InTenant(rows[i], tenant) {
      forall j | 0 <= j < |after| ensures !ActiveFor(after[j], rows[i].request.dedup) {
      }
    } else {
      assert ActiveFor(after[i], rows[i].request.dedup);
    }
  }

  /** What add returned is listed for the scope and tenant it was added under, unless an untenanted row
      already stands for the same identity and the tenant given is the empty string. */
  lemma AddedIsListedIff(rows: seq<Row>, fold: char -> string, draft: Draft, id: nat, now: int, i: nat)
    requires Sound(rows) && FreshId(rows, id)
    requires Keyed(fold, rows)
    requires var (after, got) := AddTo(rows, Request(draft, DedupKey(fold, draft)), id, now);
      i < |after| && after[i].id == got
    ensures Listed(AddTo(rows, Request(draft, DedupKey(fold, draft)), id, now).0[i], Some(draft.scope), draft.tenant)
      <==> !(draft.tenant == Some("") && exists k :: 0 <= k < |rows| && ActiveFor(rows[k], DedupKey(fold, draft))
                                                && rows[k].request.draft.tenant == None)
  {
    var key := DedupKey(fold, draft);
    var found := FindActive(rows, key);
    if found == None {
      assert i == |rows|;
    } else {
      var j :| 0 <= j < |rows| && rows[j].id == found.value && ActiveFor(rows[j], key);
      assert i == j;
      assert rows[j].request.draft.scope == draft.scope;
      forall k | 0 <= k < |rows| && ActiveFor(rows[k], key) ensures k == j {
      }
    }
  }

  /** The exception at work: the call returns a constraint that for_scope then does not list. */
  lemma EmptyTenantHidden(fold: char -> string, d: Draft, id: nat, now: int)
    ensures var stored := d.(tenant := None);
      var asked := d.(tenant := Some(""));
      var rows := [Row(0, Request(stored, DedupKey(fold, stored)), Active, 0)];
      && AddTo(rows, Request(asked, DedupKey(fold, asked)), id, now) == (rows, 0)
      && ForScope(rows, Some(asked.scope), asked.tenant) == []
  {
    var stored := d.(tenant := None);
    var asked := d.(tenant := Some(""));
    var rows := [Row(0, Request(stored, DedupKey(fold, stored)), Active, 0)];
    assert rows[1..] == [];
    assert ActiveFor(rows[0], DedupKey(fold, asked));
    assert !Listed(rows[0], Some(asked.scope), asked.tenant);
    assert Matching(rows, Some(asked.scope), asked.tenant) == [];
  }
}
