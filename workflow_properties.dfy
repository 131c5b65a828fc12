/**
 * What the workflow promises, stated over the controller's step functions: the effect of each
 * action, the answer of each failure, the status graph, and the invariants every sequence of
 * calls keeps from an empty table onward.
 */
module WorkflowProperties {
  import opened Wrappers
  import opened RefuelingRequest
  import opened Validation
  import StoreRequest = StoreRefuelingRequestRequest
  import UpdateRequest = UpdateRefuelingRequestRequest
  import opened RefuelingRequestController

  /** One call to the controller. */
  datatype Op =
    | StoreOp(actor: Option<User>, fields: FormFields, now: Time)
    | UpdateOp(actor: Option<User>, id: nat, payload: UpdateRequest.Payload, now: Time)
    | DestroyOp(user: User, id: nat)

  function Step(s: State, op: Op): (Outcome, State) {
    match op
    case StoreOp(actor, f, now) => StoreStep(s, actor, f, now)
    case UpdateOp(actor, id, p, now) => UpdateStep(s, actor, id, p, now)
    case DestroyOp(user, id) => DestroyStep(s, user, id)
  }

  /** The table after a sequence of calls, one after the other. */
  function Run(s: State, ops: seq<Op>): State
    decreases |ops|
  {
    if ops == [] then s else Run(Step(s, ops[0]).1, ops[1..])
  }

  /** The one row a call may change: the id a create assigns, or the id the call names. */
  function Target(s: State, op: Op): nat {
    match op
    case StoreOp(_, _, _) => s.nextId
    case UpdateOp(_, id, _, _) => id
    case DestroyOp(_, id) => id
  }

  /** The status graph: pending to approved or rejected, approved to completed. */
  predicate Edge(a: Status, b: Status) {
    a == b || (a == Pending && (b == Approved || b == Rejected)) || (a == Approved && b == Completed)
  }

  /** Paths in the status graph. */
  predicate Reachable(a: Status, b: Status) {
    Edge(a, b) || (a == Pending && b == Completed)
  }

  // ---------------------------------------------------------------- one call

  /** A call that does not succeed (403, 404, 400, 422) leaves the table as it was. */
  lemma FailureChangesNothing(s: State, op: Op)
    ensures Step(s, op).0 != Ok ==> Step(s, op).1 == s
  {
  }

  /** A call changes at most its target row, and only a create advances the next id. */
  lemma StepTouchesOnlyTarget(s: State, op: Op)
    ensures forall j :: j != Target(s, op) ==>
      (j in Step(s, op).1.rows <==> j in s.rows) && (j in s.rows ==> Step(s, op).1.rows[j] == s.rows[j])
    ensures Step(s, op).1.nextId == if op.StoreOp? && Step(s, op).0 == Ok then s.nextId + 1 else s.nextId
  {
  }

  lemma StepPreservesInv(s: State, op: Op)
    requires Inv(s)
    ensures Inv(Step(s, op).1)
  {
    match op
    case StoreOp(actor, f, now) => StoreStepPreservesInv(s, actor, f, now);
    case UpdateOp(actor, id, p, now) => UpdateStepPreservesInv(s, actor, id, p, now);
    case DestroyOp(user, id) => DestroyStepPreservesInv(s, user, id);
  }

  /** A row that survives a call moved along one edge of the status graph, and kept its creator
      and creation time. */
  lemma StepFollowsEdges(s: State, op: Op, id: nat)
    requires Inv(s) && id in s.rows && id in Step(s, op).1.rows
    ensures Edge(s.rows[id].status, Step(s, op).1.rows[id].status)
    ensures Step(s, op).1.rows[id].createdBy == s.rows[id].createdBy
    ensures Step(s, op).1.rows[id].createdAt == s.rows[id].createdAt
  {
    StepTouchesOnlyTarget(s, op);
    assert id < s.nextId;
    if Target(s, op) == id {
      match op
      case UpdateOp(actor, _, p, now) =>
        UpdateStepFollowsEdges(s, actor, id, p, now);
      case DestroyOp(user, _) =>
    }
  }

  lemma StatusUpdateStepFollowsEdges(s: State, user: User, id: nat, action: Option<string>, reason: Option<string>, now: Time)
    requires id in s.rows
    ensures var r' := StatusUpdateStep(s, user, id, action, reason, now).1.rows[id];
      Edge(s.rows[id].status, r'.status) && r'.createdBy == s.rows[id].createdBy && r'.createdAt == s.rows[id].createdAt
  {
  }

  lemma UpdateStepFollowsEdges(s: State, actor: Option<User>, id: nat, p: UpdateRequest.Payload, now: Time)
    requires id in s.rows
    ensures var r' := UpdateStep(s, actor, id, p, now).1.rows[id];
      Edge(s.rows[id].status, r'.status) && r'.createdBy == s.rows[id].createdBy && r'.createdAt == s.rows[id].createdAt
  {
    if UpdateRequest.Authorize(actor, s.rows[id], p) && UpdateRequest.Rules(p, s.rows, id) == [] && p.ActionPayload? {
      StatusUpdateStepFollowsEdges(s, actor.value, id, p.action, p.rejectionReason, now);
    }
  }

  /** A rejected or completed row is never changed nor deleted by any call. */
  lemma StepFreezesTerminal(s: State, op: Op, id: nat)
    requires Inv(s) && id in s.rows && Terminal(s.rows[id].status)
    ensures id in Step(s, op).1.rows && Step(s, op).1.rows[id] == s.rows[id]
  {
    StepTouchesOnlyTarget(s, op);
    if Target(s, op) == id {
      assert id < s.nextId;
      match op
      case UpdateOp(actor, _, p, now) =>
        UpdateRequest.AuthorizeCases(actor, s.rows[id], p);
        assert UpdateStep(s, actor, id, p, now) == (Forbidden, s);
      case DestroyOp(user, _) =>
        assert DestroyStep(s, user, id) == (Forbidden, s);
    }
  }

  /** A deleted id is never reused. */
  lemma StepKeepsDeletedGone(s: State, op: Op, id: nat)
    requires id < s.nextId && id !in s.rows
    ensures id < Step(s, op).1.nextId && id !in Step(s, op).1.rows
  {
  }

  // ---------------------------------------------------------------- sequences of calls

  /** From any table that satisfies the invariants (the empty one among them), every sequence of
      calls keeps them: unique delivery order numbers, a reason exactly when rejected, an
      approver and approval time exactly once reviewed, validated fields. */
  lemma {:induction false} RunPreservesInv(s: State, ops: seq<Op>)
    requires Inv(s)
    ensures Inv(Run(s, ops))
    decreases |ops|
  {
    if ops != [] {
      StepPreservesInv(s, ops[0]);
      RunPreservesInv(Step(s, ops[0]).1, ops[1..]);
    }
  }

  /** A terminal row stays exactly as it is, whatever calls follow. */
  lemma {:induction false} RunFreezesTerminal(s: State, ops: seq<Op>, id: nat)
    requires Inv(s) && id in s.rows && Terminal(s.rows[id].status)
    ensures id in Run(s, ops).rows && Run(s, ops).rows[id] == s.rows[id]
    decreases |ops|
  {
    if ops != [] {
      StepFreezesTerminal(s, ops[0], id);
      StepPreservesInv(s, ops[0]);
      RunFreezesTerminal(Step(s, ops[0]).1, ops[1..], id);
    }
  }

  lemma {:induction false} RunKeepsDeletedGone(s: State, ops: seq<Op>, id: nat)
    requires id < s.nextId && id !in s.rows
    ensures id !in Run(s, ops).rows
    decreases |ops|
  {
    if ops != [] {
      StepKeepsDeletedGone(s, ops[0], id);
      RunKeepsDeletedGone(Step(s, ops[0]).1, ops[1..], id);
    }
  }

  /** A row present before and after a sequence of calls went along a path of the status graph
      and kept its creator and creation time. */
  lemma {:induction false} RunFollowsPaths(s: State, ops: seq<Op>, id: nat)
    requires Inv(s) && id in s.rows && id in Run(s, ops).rows
    ensures Reachable(s.rows[id].status, Run(s, ops).rows[id].status)
    ensures Run(s, ops).rows[id].createdBy == s.rows[id].createdBy
    ensures Run(s, ops).rows[id].createdAt == s.rows[id].createdAt
    decreases |ops|
  {
    if ops != [] {
      var s1 := Step(s, ops[0]).1;
      StepPreservesInv(s, ops[0]);
      if id in s1.rows {
        StepFollowsEdges(s, ops[0], id);
        RunFollowsPaths(s1, ops[1..], id);
      } else {
        assert id < s.nextId;
        StepTouchesOnlyTarget(s, ops[0]);
        RunKeepsDeletedGone(s1, ops[1..], id);
        assert false;
      }
    }
  }

  // ---------------------------------------------------------------- create

  /** store: 403 exactly when the actor is not an authenticated distributor, 422 exactly when an
      authorized payload fails the rules, and otherwise one pending row created by the actor. */
  lemma CreateOutcomes(s: State, actor: Option<User>, f: FormFields, now: Time)
    ensures StoreStep(s, actor, f, now).0 == Forbidden <==> !(actor.Some? && actor.value.role == Distributor)
    ensures StoreRequest.Authorize(actor) && StoreRequest.Rules(f, s.rows) == [] ==> StoreStep(s, actor, f, now).0 == Ok
    ensures StoreStep(s, actor, f, now).0.Invalid? <==> StoreRequest.Authorize(actor) && StoreRequest.Rules(f, s.rows) != []
    ensures StoreStep(s, actor, f, now).0 != Ok ==> StoreStep(s, actor, f, now).1 == s
    ensures StoreStep(s, actor, f, now).0 == Ok ==>
      && actor.Some? && f.noDo.Some? && f.nopol.Some? && f.distributorName.Some?
      && StoreStep(s, actor, f, now).1 == State(
           s.rows[s.nextId := Request(f.noDo.value, f.nopol.value, f.distributorName.value, Pending,
                                      actor.value.id, None, None, None, now, now)],
           s.nextId + 1)
  {
  }

  /** With the invariants, a successful create adds one row and leaves every other row alone. */
  lemma CreateInsertsOne(s: State, actor: Option<User>, f: FormFields, now: Time)
    requires Inv(s) && StoreStep(s, actor, f, now).0 == Ok
    ensures s.nextId !in s.rows
    ensures StoreStep(s, actor, f, now).1.rows.Keys == s.rows.Keys + {s.nextId}
    ensures |StoreStep(s, actor, f, now).1.rows| == |s.rows| + 1
    ensures forall id :: id in s.rows ==> StoreStep(s, actor, f, now).1.rows[id] == s.rows[id]
  {
    var s' := StoreStep(s, actor, f, now).1;
    assert s.nextId !in s.rows;
    assert s'.rows.Keys == s.rows.Keys + {s.nextId};
    assert |s'.rows.Keys| == |s.rows.Keys| + 1;
  }

  /** A delivery order number already in the table is refused with the unique error; nothing
      is inserted. */
  lemma DuplicateCreateRefused(s: State, actor: Option<User>, f: FormFields, now: Time, other: nat)
    requires StoreRequest.Authorize(actor)
    requires Acceptable(f.noDo, FieldMax) && other in s.rows && s.rows[other].noDo == f.noDo.value
    ensures StoreStep(s, actor, f, now).0.Invalid?
    ensures FieldError(NoDo, Unique) in StoreStep(s, actor, f, now).0.errors
    ensures StoreStep(s, actor, f, now).1 == s
  {
    StoreRequest.DuplicateNoDoRefused(f, s.rows, other);
  }

  // ---------------------------------------------------------------- update

  /** update: 404 for an unknown id; 403 exactly when the form request's gate refuses (the
      controller's re-check never adds one); 422 exactly when an authorized payload fails the
      rules; never 400, since an unknown action is refused by the gate first; and a table
      unchanged by every answer but success. */
  lemma UpdateOutcomes(s: State, actor: Option<User>, id: nat, p: UpdateRequest.Payload, now: Time)
    ensures id !in s.rows ==> UpdateStep(s, actor, id, p, now) == (NotFound, s)
    ensures id in s.rows ==>
      (UpdateStep(s, actor, id, p, now).0 == Forbidden <==> !UpdateRequest.Authorize(actor, s.rows[id], p))
    ensures id in s.rows ==>
      (UpdateStep(s, actor, id, p, now).0.Invalid? <==>
         UpdateRequest.Authorize(actor, s.rows[id], p) && UpdateRequest.Rules(p, s.rows, id) != [])
    ensures UpdateStep(s, actor, id, p, now).0 != BadRequest
    ensures UpdateStep(s, actor, id, p, now).0 != Ok ==> UpdateStep(s, actor, id, p, now).1 == s
    ensures UpdateStep(s, actor, id, p, now).1.nextId == s.nextId
  {
    if id in s.rows && UpdateRequest.Authorize(actor, s.rows[id], p) && UpdateRequest.Rules(p, s.rows, id) == [] {
      UpdateRequest.AuthorizeCases(actor, s.rows[id], p);
    }
  }

  /** Approve by sales on a pending request: status approved, approver the actor, approval time
      now, no rejection reason; nothing else changes but the update stamp. */
  lemma ApproveEffect(s: State, user: User, id: nat, reason: Option<string>, now: Time)
    requires id in s.rows && user.role == Sales && s.rows[id].status == Pending
    ensures UpdateStep(s, Some(user), id, UpdateRequest.ActionPayload(Some("approve"), reason), now)
      == (Ok, s.(rows := s.rows[id := s.rows[id].(status := Approved, approvedBy := Some(user.id),
                                                  approvedAt := Some(now), rejectionReason := None,
                                                  updatedAt := now)]))
  {
  }

  /** Reject by sales on a pending request with an acceptable reason: status rejected, approver
      the actor, approval time now, the reason stored. */
  lemma RejectEffect(s: State, user: User, id: nat, reason: string, now: Time)
    requires id in s.rows && user.role == Sales && s.rows[id].status == Pending
    requires !Blank(reason) && |reason| <= ReasonMax
    ensures UpdateStep(s, Some(user), id, UpdateRequest.ActionPayload(Some("reject"), Some(reason)), now)
      == (Ok, s.(rows := s.rows[id := s.rows[id].(status := Rejected, approvedBy := Some(user.id),
                                                  approvedAt := Some(now), rejectionReason := Some(reason),
                                                  updatedAt := now)]))
  {
  }

  /** A rejection without a usable reason fails validation and changes nothing. */
  lemma RejectNeedsReason(s: State, user: User, id: nat, reason: Option<string>, now: Time)
    requires id in s.rows && user.role == Sales && s.rows[id].status == Pending
    requires !Acceptable(reason, ReasonMax)
    ensures UpdateStep(s, Some(user), id, UpdateRequest.ActionPayload(Some("reject"), reason), now).0.Invalid?
    ensures UpdateStep(s, Some(user), id, UpdateRequest.ActionPayload(Some("reject"), reason), now).1 == s
    ensures !Filled(reason) ==>
      UpdateStep(s, Some(user), id, UpdateRequest.ActionPayload(Some("reject"), reason), now).0
        == Invalid([FieldError(RejectionReason, Required)])
  {
  }

  /** Complete by shift on an approved request changes the status only; approver, approval time
      and rejection reason are untouched. */
  lemma CompleteEffect(s: State, user: User, id: nat, reason: Option<string>, now: Time)
    requires id in s.rows && user.role == Shift && s.rows[id].status == Approved
    ensures UpdateStep(s, Some(user), id, UpdateRequest.ActionPayload(Some("complete"), reason), now)
      == (Ok, s.(rows := s.rows[id := s.rows[id].(status := Completed, updatedAt := now)]))
  {
  }

  /** A plain edit by the creating distributor of a pending request, with valid fields, rewrites
      the three fields only (the update stamp moves only when one of them changed). */
  lemma EditEffect(s: State, user: User, id: nat, f: FormFields, now: Time)
    requires id in s.rows && user.role == Distributor && s.rows[id].createdBy == user.id && s.rows[id].status == Pending
    requires UpdateRequest.Rules(UpdateRequest.EditPayload(f), s.rows, id) == []
    ensures UpdateStep(s, Some(user), id, UpdateRequest.EditPayload(f), now).0 == Ok
    ensures var s' := UpdateStep(s, Some(user), id, UpdateRequest.EditPayload(f), now).1;
      && s'.nextId == s.nextId && s'.rows.Keys == s.rows.Keys
      && (forall j :: j in s.rows && j != id ==> s'.rows[j] == s.rows[j])
      && s'.rows[id].(updatedAt := s.rows[id].updatedAt)
           == s.rows[id].(noDo := f.noDo.value, nopol := f.nopol.value, distributorName := f.distributorName.value)
      && s'.rows[id].updatedAt ==
           if f.noDo.value == s.rows[id].noDo && f.nopol.value == s.rows[id].nopol
              && f.distributorName.value == s.rows[id].distributorName
           then s.rows[id].updatedAt else now
  {
  }

  // ---------------------------------------------------------------- destroy

  /** destroy removes the row exactly when the actor is a distributor, its creator, and the row
      is pending; otherwise 403 (or 404) and nothing changes. */
  lemma DestroyOutcomes(s: State, user: User, id: nat)
    ensures id !in s.rows ==> DestroyStep(s, user, id) == (NotFound, s)
    ensures id in s.rows ==>
      (DestroyStep(s, user, id).0 == Ok <==>
         user.role == Distributor && s.rows[id].createdBy == user.id && s.rows[id].status == Pending)
    ensures DestroyStep(s, user, id).0 == Ok ==>
      DestroyStep(s, user, id).1 == s.(rows := s.rows - {id}) && id !in DestroyStep(s, user, id).1.rows
    ensures DestroyStep(s, user, id).0 != Ok ==> DestroyStep(s, user, id).1 == s
    ensures DestroyStep(s, user, id).0 in {Ok, Forbidden, NotFound}
  {
  }

  // ---------------------------------------------------------------- the home list

  /** The role filter: a distributor sees exactly its own rows, sales every row not completed,
      shift exactly the approved and completed rows. */
  lemma ListFilterByRole(user: User, t: Table, id: nat)
    ensures user.role == Distributor ==> (id in VisibleRows(user, t) <==> id in t && t[id].createdBy == user.id)
    ensures user.role == Sales ==> (id in VisibleRows(user, t) <==> id in t && t[id].status != Completed)
    ensures user.role == Shift ==> (id in VisibleRows(user, t) <==> id in t && (t[id].status == Approved || t[id].status == Completed))
  {
  }

  /** Every request a user may act on is in that user's list. */
  lemma ActionableIsVisible(user: User, r: Request, p: UpdateRequest.Payload)
    requires UpdateRequest.Authorize(Some(user), r, p)
    ensures Visible(user.role, user.id, r)
  {
    UpdateRequest.AuthorizeCases(Some(user), r, p);
  }

  /** Paging loses nothing: entry i of a listing is entry i % 10 of page i / 10 + 1. */
  lemma PageCovers<T>(s: seq<T>, i: nat)
    requires i < |s|
    ensures i % PerPage < |Page(s, i / PerPage + 1)|
    ensures Page(s, i / PerPage + 1)[i % PerPage] == s[i]
  {
    var start := (i / PerPage) * PerPage;
    assert CurrentPage(i / PerPage + 1) - 1 == i / PerPage;
    assert start + i % PerPage == i;
  }

  /** Every visible row is on some page of the home list. */
  lemma IndexFindsEveryVisibleRow(user: User, t: Table, latest: seq<nat>, id: nat)
    requires NewestFirst(VisibleRows(user, t), latest)
    requires id in t && Visible(user.role, user.id, t[id])
    ensures exists i :: (0 <= i < |latest| && latest[i] == id
      && i % PerPage < |Index(Some(user), t, latest, i / PerPage + 1).value|
      && Index(Some(user), t, latest, i / PerPage + 1).value[i % PerPage] == id)
  {
    assert id in VisibleRows(user, t);
    var i :| 0 <= i < |latest| && latest[i] == id;
    PageCovers(latest, i);
  }

  // ---------------------------------------------------------------- scenarios

  /** One request in each status, created by distributor 1. */
  function Fixture(): Table {
    var r := Request("DO-1", "B 1 A", "PT A", Pending, 1, None, None, None, 0, 0);
    map[1 := r,
        2 := r.(noDo := "DO-2", status := Approved, approvedBy := Some(2), approvedAt := Some(0)),
        3 := r.(noDo := "DO-3", status := Rejected, approvedBy := Some(2), approvedAt := Some(0), rejectionReason := Some("x")),
        4 := r.(noDo := "DO-4", status := Completed, approvedBy := Some(2), approvedAt := Some(0))]
  }

  lemma VisibleKeys(user: User, t: Table, keys: set<nat>)
    requires forall id :: id in t ==> (id in keys <==> Visible(user.role, user.id, t[id]))
    requires keys <= t.Keys
    ensures VisibleRows(user, t).Keys == keys
  {
  }

  /** Over that fixture sales sees the three rows not completed, shift the approved and the
      completed one, the creating distributor all four and another distributor none. */
  lemma FixtureLists()
    ensures VisibleRows(User(2, Sales), Fixture()).Keys == {1, 2, 3}
    ensures VisibleRows(User(3, Shift), Fixture()).Keys == {2, 4}
    ensures VisibleRows(User(1, Distributor), Fixture()).Keys == {1, 2, 3, 4}
    ensures VisibleRows(User(5, Distributor), Fixture()).Keys == {}
  {
    var t := Fixture();
    assert t.Keys == {1, 2, 3, 4};
    assert t[1].status == Pending && t[2].status == Approved && t[3].status == Rejected && t[4].status == Completed;
    assert forall id :: id in t ==> t[id].createdBy == 1;
    VisibleKeys(User(2, Sales), t, {1, 2, 3});
    VisibleKeys(User(3, Shift), t, {2, 4});
    VisibleKeys(User(1, Distributor), t, {1, 2, 3, 4});
    VisibleKeys(User(5, Distributor), t, {});
  }

  /** A distributor creates DO-2024-001, sales approves it, shift completes it; a second create of
      the same number is refused with the unique error. */
  lemma EndToEnd()
    ensures var d, sa, sh := User(1, Distributor), User(2, Sales), User(3, Shift);
      var f := FormFields(Some("DO-2024-001"), Some("B 1234 ABC"), Some("PT Test Distribution"));
      var (o1, s1) := StoreStep(State(map[], 1), Some(d), f, 10);
      var (o2, s2) := UpdateStep(s1, Some(sa), 1, UpdateRequest.ActionPayload(Some("approve"), None), 20);
      var (o3, s3) := UpdateStep(s2, Some(sh), 1, UpdateRequest.ActionPayload(Some("complete"), None), 30);
      var (o4, s4) := StoreStep(s3, Some(d), f, 40);
      && o1 == Ok && s1.rows[1].status == Pending && s1.rows[1].createdBy == 1
      && o2 == Ok && s2.rows[1].status == Approved && s2.rows[1].approvedBy == Some(2)
      && s2.rows[1].approvedAt == Some(20) && s2.rows[1].rejectionReason == None
      && o3 == Ok && s3.rows[1].status == Completed && s3.rows[1].approvedBy == Some(2)
      && o4.Invalid? && FieldError(NoDo, Unique) in o4.errors && s4 == s3
  {
    var d, sa, sh := User(1, Distributor), User(2, Sales), User(3, Shift);
    var f := FormFields(Some("DO-2024-001"), Some("B 1234 ABC"), Some("PT Test Distribution"));
    assert !Trimmed("DO-2024-001"[0]) && !Trimmed("B 1234 ABC"[0]) && !Trimmed("PT Test Distribution"[0]);
    var (o1, s1) := StoreStep(State(map[], 1), Some(d), f, 10);
    assert o1 == Ok;
    var (o2, s2) := UpdateStep(s1, Some(sa), 1, UpdateRequest.ActionPayload(Some("approve"), None), 20);
    ApproveEffect(s1, sa, 1, None, 20);
    var (o3, s3) := UpdateStep(s2, Some(sh), 1, UpdateRequest.ActionPayload(Some("complete"), None), 30);
    CompleteEffect(s2, sh, 1, None, 30);
    DuplicateCreateRefused(s3, Some(d), f, 40, 1);
  }
}
