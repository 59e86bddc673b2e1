/** src/chips/compiler/constraint_repository.py as interleaved clients: any number of concurrent adds and
    retires, one database statement at a time. */
module ConstraintRace {
  import opened Signals
  import opened Constraints
  import opened ConstraintStore

  /** Where one client is in its call to add. */
  datatype Phase =
    | Idle
    | Selecting(request: Request)
    | Inserting(request: Request)
    | Committing(request: Request, row: Row)
    | Reselecting(request: Request)
    | Returned(request: Request, id: nat)
    | Raised(request: Request)

  /** The committed rows, and the clients; an inserted row is seen by others only after its commit. */
  datatype State = State(rows: seq<Row>, clients: seq<Phase>)

  datatype Event =
    | Call(client: nat, draft: Draft)
    | Select(client: nat)
    | Insert(client: nat, id: nat, now: int)
    | Commit(client: nat)
    | Reselect(client: nat)
    | Leave(client: nat)
    | Withdraw(id: nat, tenant: Option<string>)

  function At(s: State, client: nat, phase: Phase): State
    requires client < |s.clients|
  {
    s.(clients := s.clients[client := phase])
  }

  /** Another client's uncommitted row makes an insert of the same identity wait. */
  predicate Blocked(s: State, client: nat, key: Identity) {
    exists c :: 0 <= c < |s.clients| && c != client && s.clients[c].Committing? && s.clients[c].row.request.dedup == key
  }

  predicate IdUnused(s: State, id: nat) {
    && FreshId(s.rows, id)
    && forall c :: 0 <= c < |s.clients| && s.clients[c].Committing? ==> s.clients[c].row.id != id
  }

  function Found(request: Request, found: Option<nat>, otherwise: Phase): Phase {
    match found case Some(id) => Returned(request, id) case None => otherwise
  }

  /** One step; None when the event cannot happen now. Leaving ends a call at any point, so it also stands
      for a client that fails: an uncommitted row is then rolled back. */
  function Step(fold: char -> string, s: State, e: Event): Option<State> {
    match e
    case Withdraw(id, tenant) => Some(s.(rows := RetireRows(s.rows, id, tenant)))
    case Call(c, draft) =>
      if c < |s.clients| && s.clients[c].Idle? then
        Some(At(s, c, Selecting(Request(draft, DedupKey(fold, draft)))))
      else None
    case Select(c) =>
      if c < |s.clients| && s.clients[c].Selecting? then
        var request := s.clients[c].request;
        Some(At(s, c, Found(request, FindActive(s.rows, request.dedup), Inserting(request))))
      else None
    case Insert(c, id, now) =>
      if c < |s.clients| && s.clients[c].Inserting? && IdUnused(s, id)
        && !Blocked(s, c, s.clients[c].request.dedup) then
        var request := s.clients[c].request;
        var row := Row(id, request, Active, now);
        Some(At(s, c, if IndexAdmits(s.rows, row) then Committing(request, row) else Reselecting(request)))
      else None
    case Commit(c) =>
      if c < |s.clients| && s.clients[c].Committing? then
        var row := s.clients[c].row;
        Some(At(s.(rows := s.rows + [row]), c, Returned(s.clients[c].request, row.id)))
      else None
    case Reselect(c) =>
      if c < |s.clients| && s.clients[c].Reselecting? then
        var request := s.clients[c].request;
        Some(At(s, c, Found(request, FindActive(s.rows, request.dedup), Raised(request))))
      else None
    case Leave(c) =>
      if c < |s.clients| then Some(At(s, c, Idle)) else None
  }

  function Client(s: State, c: nat): Phase {
    if c < |s.clients| then s.clients[c] else Idle
  }

  // ---- The invariant ----

  /** An uncommitted row has the request's identity, a new id, and no active rival. */
  ghost predicate PendingOk(rows: seq<Row>, p: Phase) {
    p.Committing? ==>
      && p.row.request == p.request && p.row.status == Active
      && FreshId(rows, p.row.id) && IndexAdmits(rows, p.row)
  }

  ghost predicate PendingApart(p: Phase, q: Phase) {
    p.Committing? && q.Committing? ==> p.row.id != q.row.id && p.row.request.dedup != q.row.request.dedup
  }

  /** A client works on the identity of the draft it was called with. */
  ghost predicate PhaseKeyed(fold: char -> string, p: Phase) {
    p.Idle? || IsKeyed(fold, p.request)
  }

  /** Rows and clients carry the identities of their drafts. */
  ghost predicate AllKeyed(fold: char -> string, s: State) {
    Keyed(fold, s.rows) && forall c :: 0 <= c < |s.clients| ==> PhaseKeyed(fold, s.clients[c])
  }

  /** Rows, pending ones included, have ids of their own and one active row an identity. */
  ghost predicate Unrivalled(s: State) {
    && Sound(s.rows)
    && (forall c :: 0 <= c < |s.clients| ==> PendingOk(s.rows, s.clients[c]))
    && (forall c, d :: 0 <= c < d < |s.clients| ==> PendingApart(s.clients[c], s.clients[d]))
  }

  ghost predicate Inv(fold: char -> string, s: State) {
    Unrivalled(s) && AllKeyed(fold, s)
  }

  ghost predicate Start(fold: char -> string, s: State) {
    Sound(s.rows) && Keyed(fold, s.rows) && forall c :: 0 <= c < |s.clients| ==> s.clients[c].Idle?
  }

  lemma MovedClient(fold: char -> string, s: State, client: nat, phase: Phase)
    requires Inv(fold, s) && client < |s.clients| && !phase.Committing? && PhaseKeyed(fold, phase)
    ensures Inv(fold, At(s, client, phase))
  {
  }

  lemma Committed(fold: char -> string, s: State, c: nat)
    requires Inv(fold, s) && c < |s.clients| && s.clients[c].Committing?
    ensures Inv(fold,
      At(s.(rows := s.rows + [s.clients[c].row]), c, Returned(s.clients[c].request, s.clients[c].row.id)))
    ensures Kept(s.rows, s.rows + [s.clients[c].row])
  {
    CommittedApart(s, c);
    hide Unrivalled, DedupKey;
    assert PhaseKeyed(fold, s.clients[c]);
    InsertKeepsKeys(fold, s.rows, s.clients[c].row);
  }

  lemma CommittedApart(s: State, c: nat)
    requires Unrivalled(s) && c < |s.clients| && s.clients[c].Committing?
    ensures Unrivalled(At(s.(rows := s.rows + [s.clients[c].row]), c,
      Returned(s.clients[c].request, s.clients[c].row.id)))
    ensures s.clients[c].row.request == s.clients[c].request
    ensures Kept(s.rows, s.rows + [s.clients[c].row])
  {
    InsertKeeps(s.rows, s.clients[c].row);
  }

  lemma RetiredStillAdmits(rows: seq<Row>, id: nat, tenant: Option<string>, p: Phase)
    requires PendingOk(rows, p)
    ensures PendingOk(RetireRows(rows, id, tenant), p)
  {
  }

  /** Every step keeps the invariant: one active row an identity, counting the rows about to be committed.
      No step deletes a row or makes one active again. */
  lemma StepKeeps(fold: char -> string, s: State, e: Event)
    requires Inv(fold, s) && Step(fold, s, e).Some?
    ensures Inv(fold, Step(fold, s, e).value) && Kept(s.rows, Step(fold, s, e).value.rows)
    ensures |Step(fold, s, e).value.clients| == |s.clients|
  {
    hide DedupKey, Keyed, FindActive;
    match e
    case Withdraw(id, tenant) =>
      RetireKeeps(s.rows, id, tenant);
      RetireKeepsKeys(fold, s.rows, id, tenant);
      forall c | 0 <= c < |s.clients| ensures PendingOk(RetireRows(s.rows, id, tenant), s.clients[c]) {
        RetiredStillAdmits(s.rows, id, tenant, s.clients[c]);
      }
    case Call(c, draft) => MovedClient(fold, s, c, Selecting(Request(draft, DedupKey(fold, draft))));
    case Select(c) => MovedClient(fold, s, c, Step(fold, s, e).value.clients[c]);
    case Insert(c, id, now) =>
      if FindActive(s.rows, s.clients[c].request.dedup).Some? {
        MovedClient(fold, s, c, Reselecting(s.clients[c].request));
      }
    case Commit(c) => Committed(fold, s, c);
    case Reselect(c) => MovedClient(fold, s, c, Step(fold, s, e).value.clients[c]);
    case Leave(c) => MovedClient(fold, s, c, Idle);
  }

  // ---- Runs ----

  /** The states of one run: any events in any order. */
  ghost predicate IsRun(fold: char -> string, run: seq<State>, events: seq<Event>) {
    && |run| == |events| + 1
    && Start(fold, run[0])
    && forall k :: 0 <= k < |events| ==> Step(fold, run[k], events[k]) == Some(run[k + 1])
  }

  lemma {:induction false} RunKeeps(fold: char -> string, run: seq<State>, events: seq<Event>, k: nat)
    requires IsRun(fold, run, events) && k < |run|
    ensures Inv(fold, run[k])
  {
    if k > 0 {
      RunKeeps(fold, run, events, k - 1);
      assert Step(fold, run[k - 1], events[k - 1]) == Some(run[(k - 1) + 1]);
      StepKeeps(fold, run[k - 1], events[k - 1]);
    }
  }

  /** The step into the k-th state. */
  lemma Into(fold: char -> string, run: seq<State>, events: seq<Event>, k: nat)
    requires IsRun(fold, run, events) && 0 < k < |run|
    ensures Inv(fold, run[k - 1]) && Step(fold, run[k - 1], events[k - 1]) == Some(run[k])
    ensures Kept(run[k - 1].rows, run[k].rows)
  {
    RunKeeps(fold, run, events, k - 1);
    assert Step(fold, run[k - 1], events[k - 1]) == Some(run[(k - 1) + 1]);
    StepKeeps(fold, run[k - 1], events[k - 1]);
  }

  lemma KeptItself(rows: seq<Row>)
    ensures Kept(rows, rows)
  {
  }

  lemma {:induction false} RunKeepsRows(fold: char -> string, run: seq<State>, events: seq<Event>, j: nat, k: nat)
    requires IsRun(fold, run, events) && j <= k < |run|
    ensures Kept(run[j].rows, run[k].rows)
  {
    hide Step, Inv, IsRun, Kept;
    if j == k {
      KeptItself(run[j].rows);
    } else {
      RunKeepsRows(fold, run, events, j, k - 1);
      Into(fold, run, events, k);
      KeptTransitive(run[j].rows, run[k - 1].rows, run[k].rows);
    }
  }

  /** In every reachable state at most one row of an identity is active, ids are distinct, every row carries the
      identity of its draft, and every earlier row is still there, never active again once it was not. */
  lemma EveryRunIsSafe(fold: char -> string, run: seq<State>, events: seq<Event>, j: nat, k: nat)
    requires IsRun(fold, run, events) && j <= k < |run|
    ensures OneActive(run[k].rows) && DistinctIds(run[k].rows) && Keyed(fold, run[k].rows)
      && Kept(run[j].rows, run[k].rows)
  {
    RunKeeps(fold, run, events, k);
    RunKeepsRows(fold, run, events, j, k);
  }

  // ---- What a call returns ----

  /** A client is answered only with a row that is active at that moment; its request never changes meanwhile. */
  lemma StepAnswers(fold: char -> string, s: State, e: Event, c: nat)
    requires Inv(fold, s) && Step(fold, s, e).Some?
    ensures var p, q := Client(s, c), Client(Step(fold, s, e).value, c);
      q.Returned? && p != q ==> IsActive(Step(fold, s, e).value.rows, q.id, q.request.dedup)
  {
    var s' := Step(fold, s, e).value;
    if e.Commit? && e.client == c {
      assert s'.rows[|s.rows|] == s.clients[c].row;
      assert ActiveFor(s'.rows[|s.rows|], s.clients[c].request.dedup);
    }
  }

  /** A step leaves the request of a call under way alone. */
  lemma StepKeepsRequest(fold: char -> string, s: State, e: Event, c: nat)
    requires Step(fold, s, e).Some?
    ensures var p, q := Client(s, c), Client(Step(fold, s, e).value, c);
      !p.Idle? && !q.Idle? ==> p.request == q.request
  {
  }

  /** The client is in one call from the i-th state to the j-th. */
  ghost predicate OneCall(run: seq<State>, c: nat, i: nat, j: nat) {
    i <= j < |run| && forall l :: i <= l <= j ==> !Client(run[l], c).Idle?
  }

  /** Within one call the request is the one of the call, and its identity is that of its draft. */
  lemma {:induction false} RequestStays(fold: char -> string, run: seq<State>, events: seq<Event>, c: nat, i: nat,
                                        j: nat)
    requires IsRun(fold, run, events) && OneCall(run, c, i, j)
    ensures Client(run[j], c).request == Client(run[i], c).request && IsKeyed(fold, Client(run[j], c).request)
  {
    hide Step;
    RunKeeps(fold, run, events, j);
    if i < j {
      assert !Client(run[j - 1], c).Idle?;
      RequestStays(fold, run, events, c, i, j - 1);
      Into(fold, run, events, j);
      StepKeepsRequest(fold, run[j - 1], events[j - 1], c);
    } else {
      assert PhaseKeyed(fold, run[j].clients[c]);
    }
  }

  /** Each id an add returns was active, under the identity asked for, at some moment after the call began
      and no later than the return. */
  lemma {:induction false} ReturnedWasActive(fold: char -> string, run: seq<State>, events: seq<Event>, c: nat, i: nat,
                                             j: nat)
    returns (k: nat)
    requires IsRun(fold, run, events) && i < j < |run|
    requires Client(run[i], c).Selecting? && Client(run[j], c).Returned?
    ensures i < k <= j && IsActive(run[k].rows, Client(run[j], c).id, Client(run[j], c).request.dedup)
    ensures OneCall(run, c, i, j) ==> Client(run[j], c).request == Client(run[i], c).request
    ensures OneCall(run, c, i, j) ==>
      IsActive(run[k].rows, Client(run[j], c).id, DedupKey(fold, Client(run[i], c).request.draft))
  {
    hide Step, Inv, Kept, DedupKey;
    if OneCall(run, c, i, j) {
      RequestStays(fold, run, events, c, i, j);
    }
    if Client(run[j - 1], c) == Client(run[j], c) {
      k := ReturnedWasActive(fold, run, events, c, i, j - 1);
    } else {
      Into(fold, run, events, j);
      StepAnswers(fold, run[j - 1], events[j - 1], c);
      k := j;
    }
  }

  /** A call that finds its identity active, at the first look or at the second, returns that row's id at once. */
  lemma ActiveIsAnswered(fold: char -> string, s: State, c: nat, id: nat)
    requires Inv(fold, s) && c < |s.clients|
    requires s.clients[c].Selecting? || s.clients[c].Reselecting?
    requires IsActive(s.rows, id, s.clients[c].request.dedup)
    ensures
      var e := if s.clients[c].Selecting? then Select(c) else Reselect(c);
      Step(fold, s, e) == Some(At(s, c, Returned(s.clients[c].request, id)))
  {
    FoundIsActive(s.rows, id, s.clients[c].request.dedup);
  }

  /** How a client comes to raise: the insert met an active row, the second select met none. */
  lemma StepRaises(fold: char -> string, s: State, e: Event, c: nat)
    requires Inv(fold, s) && Step(fold, s, e).Some?
    ensures var p, q, s' := Client(s, c), Client(Step(fold, s, e).value, c), Step(fold, s, e).value;
      && (q.Raised? && p != q ==>
            p == Reselecting(q.request) && s'.rows == s.rows && FindActive(s.rows, q.request.dedup) == None)
      && (q.Reselecting? && p != q ==>
            p == Inserting(q.request) && s'.rows == s.rows && FindActive(s.rows, q.request.dedup).Some?)
  {
  }

  lemma {:induction false} MetWinner(fold: char -> string, run: seq<State>, events: seq<Event>, c: nat, i: nat, j: nat)
    returns (k: nat, id: nat)
    requires IsRun(fold, run, events) && i < j < |run|
    requires Client(run[i], c).Selecting? && Client(run[j], c).Reselecting?
    ensures i < k <= j && IsActive(run[k].rows, id, Client(run[j], c).request.dedup)
  {
    hide Step, Inv, Kept;
    if Client(run[j - 1], c) == Client(run[j], c) {
      k, id := MetWinner(fold, run, events, c, i, j - 1);
    } else {
      Into(fold, run, events, j);
      StepRaises(fold, run[j - 1], events[j - 1], c);
      k := j;
      id := FindActive(run[j].rows, Client(run[j], c).request.dedup).value;
    }
  }

  /** An add raises only when the row that beat it was retired before it could look again: some row of the
      identity was active during the call and is active no more, in this state and in all later ones. */
  lemma {:induction false} RaisedLostItsWinner(fold: char -> string, run: seq<State>, events: seq<Event>, c: nat,
                                               i: nat, j: nat)
    returns (k: nat, id: nat)
    requires IsRun(fold, run, events) && i < j < |run|
    requires Client(run[i], c).Selecting? && Client(run[j], c).Raised?
    ensures i < k < j && IsActive(run[k].rows, id, Client(run[j], c).request.dedup)
    ensures forall l :: j <= l < |run| ==> !IsActive(run[l].rows, id, Client(run[j], c).request.dedup)
    ensures OneCall(run, c, i, j) ==> Client(run[j], c).request == Client(run[i], c).request
  {
    hide Step, Kept;
    if OneCall(run, c, i, j) {
      RequestStays(fold, run, events, c, i, j);
    }
    var key := Client(run[j], c).request.dedup;
    if Client(run[j - 1], c) == Client(run[j], c) {
      k, id := RaisedLostItsWinner(fold, run, events, c, i, j - 1);
    } else {
      Into(fold, run, events, j);
      StepRaises(fold, run[j - 1], events[j - 1], c);
      k, id := MetWinner(fold, run, events, c, i, j - 1);
      RunKeepsRows(fold, run, events, k, j);
      forall l | j <= l < |run| ensures !IsActive(run[l].rows, id, key) {
        RunKeepsRows(fold, run, events, j, l);
        RunKeeps(fold, run, events, l);
        StaysGone(run[k].rows, run[j].rows, run[l].rows, id, key);
      }
    }
  }

  lemma StaysGone(a: seq<Row>, b: seq<Row>, c: seq<Row>, id: nat, key: Identity)
    requires Kept(a, b) && Kept(b, c) && IsActive(a, id, key) && FindActive(b, key) == None && DistinctIds(c)
    ensures !IsActive(c, id, key)
  {
    var i :| 0 <= i < |a| && a[i].id == id && ActiveFor(a[i], key);
    assert b[i].(status := a[i].status) == a[i] && c[i].(status := b[i].status) == b[i];
    assert !ActiveFor(b[i], key);
    forall j | 0 <= j < |c| && c[j].id == id ensures !ActiveFor(c[j], key) {
      assert c[i].id == c[j].id;
    }
  }

  // ---- The interleaving refines calls made one at a time ----

  datatype Op = AddOp(request: Request, id: nat, now: int) | RetireOp(id: nat, tenant: Option<string>)

  /** The atomic operation that takes effect in a step. */
  function Effect(fold: char -> string, s: State, e: Event): seq<Op> {
    match e
    case Withdraw(id, tenant) => [RetireOp(id, tenant)]
    case Commit(c) =>
      if c < |s.clients| && s.clients[c].Committing? then
        [AddOp(s.clients[c].request, s.clients[c].row.id, s.clients[c].row.createdAt)]
      else []
    case Select(c) => Answer(s, c)
    case Reselect(c) => Answer(s, c)
    case Call(_, _) => []
    case Insert(_, _, _) => []
    case Leave(_) => []
  }

  function Answer(s: State, c: nat): seq<Op> {
    if c < |s.clients| && s.clients[c] != Idle then
      match FindActive(s.rows, s.clients[c].request.dedup)
      case Some(id) => [AddOp(s.clients[c].request, id, 0)]
      case None => []
    else []
  }

  function Effects(fold: char -> string, run: seq<State>, events: seq<Event>): seq<Op>
    requires |run| == |events| + 1
  {
    if events == [] then [] else Effect(fold, run[0], events[0]) + Effects(fold, run[1..], events[1..])
  }

  /** The operations one at a time: an add must return exactly what an add alone on the table returns. */
  ghost predicate Atomically(rows: seq<Row>, ops: seq<Op>, after: seq<Row>)
    decreases ops
  {
    if ops == [] then rows == after
    else match ops[0]
      case RetireOp(id, tenant) => Atomically(RetireRows(rows, id, tenant), ops[1..], after)
      case AddOp(request, id, now) =>
        AddTo(rows, request, id, now).1 == id && Atomically(AddTo(rows, request, id, now).0, ops[1..], after)
  }

  lemma StepIsAtomic(fold: char -> string, s: State, e: Event)
    requires Inv(fold, s) && Step(fold, s, e).Some?
    ensures Atomically(s.rows, Effect(fold, s, e), Step(fold, s, e).value.rows)
    ensures forall c :: 0 <= c < |s.clients| ==>
      var p, q := s.clients[c], Step(fold, s, e).value.clients[c];
      q.Returned? && p != q ==> exists now :: Effect(fold, s, e) == [AddOp(q.request, q.id, now)]
  {
    forall op: Op ensures [op][1..] == [] {
    }
  }

  lemma {:induction false} AtomicallyThen(a: seq<Row>, ops: seq<Op>, b: seq<Row>, more: seq<Op>, c: seq<Row>)
    requires Atomically(a, ops, b) && Atomically(b, more, c)
    ensures Atomically(a, ops + more, c)
    decreases ops
  {
    if ops == [] {
      assert ops + more == more;
    } else {
      assert (ops + more)[1..] == ops[1..] + more;
      var next := match ops[0]
        case RetireOp(id, tenant) => RetireRows(a, id, tenant)
        case AddOp(request, id, now) => AddTo(a, request, id, now).0;
      AtomicallyThen(next, ops[1..], b, more, c);
    }
  }

  /** Every interleaving ends in the table its effects leave when they are run one at a time, in the order
      they took effect; each add among them returns what its client was told. */
  lemma {:induction false} RunIsAtomic(fold: char -> string, run: seq<State>, events: seq<Event>)
    requires |run| == |events| + 1 && Inv(fold, run[0])
    requires forall k :: 0 <= k < |events| ==> Step(fold, run[k], events[k]) == Some(run[k + 1])
    ensures Atomically(run[0].rows, Effects(fold, run, events), run[|events|].rows)
  {
    if events != [] {
      assert Step(fold, run[0], events[0]) == Some(run[0 + 1]);
      StepKeeps(fold, run[0], events[0]);
      StepIsAtomic(fold, run[0], events[0]);
      var run', events' := run[1..], events[1..];
      forall k | 0 <= k < |events'| ensures Step(fold, run'[k], events'[k]) == Some(run'[k + 1]) {
        assert Step(fold, run[k + 1], events[k + 1]) == Some(run[k + 2]);
      }
      RunIsAtomic(fold, run', events');
      AtomicallyThen(run[0].rows, Effect(fold, run[0], events[0]), run[1].rows, Effects(fold, run', events'),
        run[|events|].rows);
    }
  }
}
