/**
 * The controller: create (store), plain edit and approve / reject / complete (update,
 * handleStatusUpdate), delete (destroy) and the role-filtered home list (index).
 *
 * Each action is first given as a function from the table before the call to the answer and
 * the table after it; the class Store then performs the same steps on its fields, and its
 * methods are proved to agree with those functions.
 */
module RefuelingRequestController {
  import opened Wrappers
  import opened RefuelingRequest
  import opened Validation
  import StoreRequest = StoreRefuelingRequestRequest
  import UpdateRequest = UpdateRefuelingRequestRequest

  /** The answer of a controller action. */
  datatype Outcome =
    | Ok                                // the change was made (redirect home)
    | Forbidden                         // 403: role, ownership or status gate
    | Invalid(errors: seq<FieldError>)  // 422: validation errors, field by field
    | BadRequest                        // 400: unknown action
    | NotFound                          // 404: no row with that id

  /** The table and the id the next insert receives. */
  datatype State = State(rows: Table, nextId: nat)

  // ---------------------------------------------------------------- invariants

  /** What every row created through the controller keeps: validated fields, a rejection
      reason exactly when rejected, and an approver and approval time exactly once reviewed. */
  ghost predicate WellFormed(r: Request) {
    && Acceptable(Some(r.noDo), FieldMax)
    && Acceptable(Some(r.nopol), FieldMax)
    && Acceptable(Some(r.distributorName), FieldMax)
    && (r.rejectionReason.Some? <==> r.status == Rejected)
    && (r.rejectionReason.Some? ==> Acceptable(r.rejectionReason, ReasonMax))
    && (r.approvedBy.Some? <==> r.status != Pending)
    && (r.approvedAt.Some? <==> r.status != Pending)
  }

  /** No two rows share a delivery order number. */
  ghost predicate UniqueNoDo(t: Table) {
    forall a, b :: a in t && b in t && a != b ==> t[a].noDo != t[b].noDo
  }

  ghost predicate Inv(s: State) {
    && (forall id :: id in s.rows ==> id < s.nextId && WellFormed(s.rows[id]))
    && UniqueNoDo(s.rows)
  }

  // ---------------------------------------------------------------- row effects

  /** The model's `update`: attributes are written, and updated_at stamped, only when some
      attribute changed. `after` is `before` with new attribute values. */
  function Saved(before: Request, after: Request, now: Time): (r: Request)
    ensures r.(updatedAt := after.updatedAt) == after
    ensures r.updatedAt == if after == before then before.updatedAt else now
  {
    if after == before then before else after.(updatedAt := now)
  }

  /** The row `store` inserts: the validated fields, status pending, created by the actor. */
  function Created(f: FormFields, creator: UserId, now: Time): Request
    requires f.noDo.Some? && f.nopol.Some? && f.distributorName.Some?
  {
    Request(f.noDo.value, f.nopol.value, f.distributorName.value, DefaultStatus, creator, None, None, None, now, now)
  }

  // ---------------------------------------------------------------- steps

  /** store: authorize, validate, then insert a pending row at the next id. */
  function StoreStep(s: State, actor: Option<User>, f: FormFields, now: Time): (r: (Outcome, State))
    ensures r.0 in {Ok, Forbidden} || r.0.Invalid?
    ensures r.0 != Ok ==> r.1 == s
    ensures r.0 == Ok ==> r.1.nextId == s.nextId + 1 && r.1.rows.Keys == s.rows.Keys + {s.nextId}
  {
    if !StoreRequest.Authorize(actor) then (Forbidden, s)
    else
      var errors := StoreRequest.Rules(f, s.rows);
      if errors != [] then (Invalid(errors), s)
      else (Ok, State(s.rows[s.nextId := Created(f, actor.value.id, now)], s.nextId + 1))
  }

  /** handleStatusUpdate: the controller re-checks role and guard, validates a rejection
      reason once more, and writes the status columns. */
  function StatusUpdateStep(s: State, user: User, id: nat, action: Option<string>, reason: Option<string>, now: Time): (r: (Outcome, State))
    requires id in s.rows
    ensures r.0 != Ok ==> r.1 == s
    ensures r.1.nextId == s.nextId && r.1.rows.Keys == s.rows.Keys
    ensures forall j :: j in s.rows && j != id ==> r.1.rows[j] == s.rows[j]
  {
    var r := s.rows[id];
    if action == Some(UpdateRequest.ApproveAction) then
      if user.role != Sales || !CanBeReviewed(r) then (Forbidden, s)
      else
        var after := r.(status := Approved, approvedBy := Some(user.id), approvedAt := Some(now), rejectionReason := None);
        (Ok, s.(rows := s.rows[id := Saved(r, after, now)]))
    else if action == Some(UpdateRequest.RejectAction) then
      if user.role != Sales || !CanBeReviewed(r) then (Forbidden, s)
      else
        var errors := RequiredMax(RejectionReason, reason, ReasonMax);
        if errors != [] then (Invalid(errors), s)
        else
          var after := r.(status := Rejected, approvedBy := Some(user.id), approvedAt := Some(now), rejectionReason := reason);
          (Ok, s.(rows := s.rows[id := Saved(r, after, now)]))
    else if action == Some(UpdateRequest.CompleteAction) then
      if user.role != Shift || !CanBeCompleted(r) then (Forbidden, s)
      else (Ok, s.(rows := s.rows[id := Saved(r, r.(status := Completed), now)]))
    else (BadRequest, s)
  }

  /** update: find the row, authorize, validate, then either run the action or write the
      three validated fields. */
  function UpdateStep(s: State, actor: Option<User>, id: nat, p: UpdateRequest.Payload, now: Time): (r: (Outcome, State))
    ensures r.0 != Ok ==> r.1 == s
    ensures r.1.nextId == s.nextId && r.1.rows.Keys == s.rows.Keys
    ensures forall j :: j in s.rows && j != id ==> r.1.rows[j] == s.rows[j]
  {
    if id !in s.rows then (NotFound, s)
    else if !UpdateRequest.Authorize(actor, s.rows[id], p) then (Forbidden, s)
    else
      var errors := UpdateRequest.Rules(p, s.rows, id);
      if errors != [] then (Invalid(errors), s)
      else match p
        case ActionPayload(action, reason) => StatusUpdateStep(s, actor.value, id, action, reason, now)
        case EditPayload(f) =>
          var r := s.rows[id];
          var after := r.(noDo := f.noDo.value, nopol := f.nopol.value, distributorName := f.distributorName.value);
          (Ok, s.(rows := s.rows[id := Saved(r, after, now)]))
  }

  /** destroy: only the distributor who created the row may delete it, and only while pending. */
  function DestroyStep(s: State, user: User, id: nat): (r: (Outcome, State))
    ensures r.0 in {Ok, Forbidden, NotFound}
    ensures r.0 != Ok ==> r.1 == s
    ensures r.0 == Ok ==> r.1 == s.(rows := s.rows - {id}) && id in s.rows
  {
    if id !in s.rows then (NotFound, s)
    else if user.role != Distributor || s.rows[id].createdBy != user.id || !CanBeEdited(s.rows[id]) then (Forbidden, s)
    else (Ok, s.(rows := s.rows - {id}))
  }

  // ---------------------------------------------------------------- invariant preservation

  lemma StoreStepPreservesInv(s: State, actor: Option<User>, f: FormFields, now: Time)
    requires Inv(s)
    ensures Inv(StoreStep(s, actor, f, now).1)
  {
    var (o, s') := StoreStep(s, actor, f, now);
    if o == Ok {
      assert s'.rows == s.rows[s.nextId := Created(f, actor.value.id, now)];
      assert s.nextId !in s.rows;
      assert WellFormed(s'.rows[s.nextId]);
      forall a, b | a in s'.rows && b in s'.rows && a != b ensures s'.rows[a].noDo != s'.rows[b].noDo {
        if a == s.nextId || b == s.nextId {
          assert StoreRequest.Rules(f, s.rows) == [];
        }
      }
    }
  }

  /** Replacing one row by a well-formed row whose delivery order number no other row holds
      keeps the invariants. */
  lemma ReplaceKeepsInv(s: State, id: nat, r: Request)
    requires Inv(s) && id in s.rows && WellFormed(r)
    requires forall other :: other in s.rows && other != id ==> s.rows[other].noDo != r.noDo
    ensures Inv(s.(rows := s.rows[id := r]))
  {
  }

  lemma StatusUpdateStepPreservesInv(s: State, user: User, id: nat, action: Option<string>, reason: Option<string>, now: Time)
    requires Inv(s) && id in s.rows
    ensures Inv(StatusUpdateStep(s, user, id, action, reason, now).1)
  {
    var r := s.rows[id];
    var s' := StatusUpdateStep(s, user, id, action, reason, now).1;
    if s' != s {
      assert id in s'.rows && s' == s.(rows := s.rows[id := s'.rows[id]]);
      var r' := s'.rows[id];
      assert r'.noDo == r.noDo && r'.nopol == r.nopol && r'.distributorName == r.distributorName;
      if action == Some(UpdateRequest.ApproveAction) {
        assert r'.status == Approved && r'.approvedBy.Some? && r'.approvedAt.Some? && r'.rejectionReason.None?;
      } else if action == Some(UpdateRequest.RejectAction) {
        assert r'.status == Rejected && r'.approvedBy.Some? && r'.approvedAt.Some? && r'.rejectionReason == reason;
        assert Acceptable(reason, ReasonMax);
      } else {
        assert r.status == Approved && r'.status == Completed;
        assert r'.approvedBy == r.approvedBy && r'.approvedAt == r.approvedAt && r'.rejectionReason == r.rejectionReason;
      }
      assert WellFormed(r');
      ReplaceKeepsInv(s, id, r');
    }
  }

  lemma UpdateStepPreservesInv(s: State, actor: Option<User>, id: nat, p: UpdateRequest.Payload, now: Time)
    requires Inv(s)
    ensures Inv(UpdateStep(s, actor, id, p, now).1)
  {
    if id in s.rows && UpdateRequest.Authorize(actor, s.rows[id], p) && UpdateRequest.Rules(p, s.rows, id) == [] {
      match p
      case ActionPayload(action, reason) =>
        StatusUpdateStepPreservesInv(s, actor.value, id, action, reason, now);
      case EditPayload(f) =>
        var r := s.rows[id];
        var r' := UpdateStep(s, actor, id, p, now).1.rows[id];
        assert r'.status == r.status && r'.approvedBy == r.approvedBy && r'.approvedAt == r.approvedAt;
        assert r'.rejectionReason == r.rejectionReason;
        assert WellFormed(r');
        ReplaceKeepsInv(s, id, r');
    }
  }

  lemma DestroyStepPreservesInv(s: State, user: User, id: nat)
    requires Inv(s)
    ensures Inv(DestroyStep(s, user, id).1)
  {
  }

  // ---------------------------------------------------------------- the controller

  class Store {
    var rows: Table
    var nextId: nat

    function Snapshot(): State
      reads this
    {
      State(rows, nextId)
    }

    ghost predicate Valid()
      reads this
    {
      Inv(Snapshot())
    }

    /** An empty table; the first insert receives id 1. */
    constructor ()
      ensures Snapshot() == State(map[], 1)
      ensures Valid()
    {
      rows := map[];
      nextId := 1;
    }

    method Create(actor: Option<User>, f: FormFields, now: Time) returns (outcome: Outcome)
      modifies this
      ensures (outcome, Snapshot()) == StoreStep(old(Snapshot()), actor, f, now)
      ensures old(Valid()) ==> Valid()
    {
      if Valid() {
        StoreStepPreservesInv(Snapshot(), actor, f, now);
      }
      if !StoreRequest.Authorize(actor) {
        return Forbidden;
      }
      var errors := StoreRequest.Rules(f, rows);
      if errors != [] {
        return Invalid(errors);
      }
      rows := rows[nextId := Created(f, actor.value.id, now)];
      nextId := nextId + 1;
      outcome := Ok;
    }

    method Update(actor: Option<User>, id: nat, p: UpdateRequest.Payload, now: Time) returns (outcome: Outcome)
      modifies this
      ensures (outcome, Snapshot()) == UpdateStep(old(Snapshot()), actor, id, p, now)
      ensures old(Valid()) ==> Valid()
    {
      if Valid() {
        UpdateStepPreservesInv(Snapshot(), actor, id, p, now);
      }
      if id !in rows {
        return NotFound;
      }
      if !UpdateRequest.Authorize(actor, rows[id], p) {
        return Forbidden;
      }
      var errors := UpdateRequest.Rules(p, rows, id);
      if errors != [] {
        return Invalid(errors);
      }
      if p.ActionPayload? {
        outcome := HandleStatusUpdate(actor.value, id, p.action, p.rejectionReason, now);
        return;
      }
      var r := rows[id];
      var f := p.fields;
      rows := rows[id := Saved(r, r.(noDo := f.noDo.value, nopol := f.nopol.value, distributorName := f.distributorName.value), now)];
      outcome := Ok;
    }

    method HandleStatusUpdate(user: User, id: nat, action: Option<string>, reason: Option<string>, now: Time) returns (outcome: Outcome)
      requires id in rows
      modifies this
      ensures (outcome, Snapshot()) == StatusUpdateStep(old(Snapshot()), user, id, action, reason, now)
      ensures old(Valid()) ==> Valid()
    {
      if Valid() {
        StatusUpdateStepPreservesInv(Snapshot(), user, id, action, reason, now);
      }
      var r := rows[id];
      if action == Some(UpdateRequest.ApproveAction) {
        if user.role != Sales || !CanBeReviewed(r) {
          return Forbidden;
        }
        rows := rows[id := Saved(r, r.(status := Approved, approvedBy := Some(user.id), approvedAt := Some(now), rejectionReason := None), now)];
        return Ok;
      } else if action == Some(UpdateRequest.RejectAction) {
        if user.role != Sales || !CanBeReviewed(r) {
          return Forbidden;
        }
        var errors := RequiredMax(RejectionReason, reason, ReasonMax);
        if errors != [] {
          return Invalid(errors);
        }
        rows := rows[id := Saved(r, r.(status := Rejected, approvedBy := Some(user.id), approvedAt := Some(now), rejectionReason := reason), now)];
        return Ok;
      } else if action == Some(UpdateRequest.CompleteAction) {
        if user.role != Shift || !CanBeCompleted(r) {
          return Forbidden;
        }
        rows := rows[id := Saved(r, r.(status := Completed), now)];
        return Ok;
      }
      outcome := BadRequest;
    }

    method Destroy(user: User, id: nat) returns (outcome: Outcome)
      modifies this
      ensures (outcome, Snapshot()) == DestroyStep(old(Snapshot()), user, id)
      ensures old(Valid()) ==> Valid()
    {
      if Valid() {
        DestroyStepPreservesInv(Snapshot(), user, id);
      }
      if id !in rows {
        return NotFound;
      }
      if user.role != Distributor || rows[id].createdBy != user.id || !CanBeEdited(rows[id]) {
        return Forbidden;
      }
      rows := rows - {id};
      outcome := Ok;
    }
  }

  // ---------------------------------------------------------------- the home list

  /** The role filter of the home list. */
  predicate Visible(role: Role, uid: UserId, r: Request) {
    match role
    case Distributor => r.createdBy == uid
    case Sales => r.status == Pending || r.status == Approved || r.status == Rejected
    case Shift => r.status == Approved || r.status == Completed
  }

  /** The filtered query, before ordering and paging. */
  function VisibleRows(user: User, t: Table): (v: Table)
    ensures forall id :: id in v <==> id in t && Visible(user.role, user.id, t[id])
    ensures forall id :: id in v ==> v[id] == t[id]
  {
    map id | id in t && Visible(user.role, user.id, t[id]) :: t[id]
  }

  const PerPage: nat := 10

  /** The page number actually served: anything below 1 is page 1. */
  function CurrentPage(page: int): (n: nat)
    ensures n >= 1
    ensures page >= 1 ==> n == page
    ensures page < 1 ==> n == 1
  {
    if page >= 1 then page else 1
  }

  /** `s` lists every row of `t` exactly once, newest created_at first. */
  ghost predicate NewestFirst(t: Table, s: seq<nat>) {
    && (forall i :: 0 <= i < |s| ==> s[i] in t)
    && (forall id :: id in t ==> id in s)
    && (forall i, j :: 0 <= i < j < |s| ==> s[i] != s[j] && t[s[i]].createdAt >= t[s[j]].createdAt)
  }

  /** One page of a listing: at most PerPage consecutive entries starting at the page's offset. */
  function Page<T>(s: seq<T>, page: int): (r: seq<T>)
    ensures |r| <= PerPage
    ensures forall k :: 0 <= k < |r| ==> (CurrentPage(page) - 1) * PerPage + k < |s| && r[k] == s[(CurrentPage(page) - 1) * PerPage + k]
  {
    var start := (CurrentPage(page) - 1) * PerPage;
    if start >= |s| then [] else s[start .. if start + PerPage <= |s| then start + PerPage else |s|]
  }

  /**
   * index: a guest gets no list; a signed-in user gets one page of the rows visible to them,
   * where `latest` is the database's newest-first ordering of the filtered query.
   */
  function Index(user: Option<User>, t: Table, latest: seq<nat>, page: int): (r: Option<seq<nat>>)
    requires user.Some? ==> NewestFirst(VisibleRows(user.value, t), latest)
    ensures r.None? <==> user.None?
    ensures r.Some? ==> |r.value| <= PerPage
    ensures r.Some? ==> forall k :: 0 <= k < |r.value| ==> r.value[k] in t && Visible(user.value.role, user.value.id, t[r.value[k]])
    ensures r.Some? ==> forall j, k :: 0 <= j < k < |r.value| ==> r.value[j] != r.value[k] && t[r.value[j]].createdAt >= t[r.value[k]].createdAt
  {
    if user.None? then None
    else
      var p := Page(latest, page);
      assert forall k :: 0 <= k < |p| ==> p[k] == latest[(CurrentPage(page) - 1) * PerPage + k];
      Some(p)
  }
}
