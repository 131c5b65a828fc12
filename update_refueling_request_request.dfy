/**
 * The form request guarding the update endpoint. A payload that carries an `action` key is an
 * approve / reject / complete request; any other payload is a plain edit of the three fields.
 */
module UpdateRefuelingRequestRequest {
  import opened Wrappers
  import opened RefuelingRequest
  import opened Validation

  const ApproveAction: string := "approve"
  const RejectAction: string := "reject"
  const CompleteAction: string := "complete"

  /** The update payload. `action` is None when the key is present but null. */
  datatype Payload =
    | ActionPayload(action: Option<string>, rejectionReason: Option<string>)
    | EditPayload(fields: FormFields)

  predicate KnownAction(a: Option<string>) {
    a == Some(ApproveAction) || a == Some(RejectAction) || a == Some(CompleteAction)
  }

  /**
   * The role / ownership / status gate: approve and reject need a sales user and a reviewable
   * request, complete a shift user and a completable request, any other action value is refused;
   * a plain edit needs the distributor who created the request while it can be edited.
   */
  predicate Authorize(user: Option<User>, r: Request, p: Payload) {
    if user.None? then false
    else match p
      case ActionPayload(action, _) =>
        if action == Some(ApproveAction) || action == Some(RejectAction) then
          user.value.role == Sales && CanBeReviewed(r)
        else if action == Some(CompleteAction) then
          user.value.role == Shift && CanBeCompleted(r)
        else
          false
      case EditPayload(_) =>
        user.value.role == Distributor && r.createdBy == user.value.id && CanBeEdited(r)
  }

  /** The gate, stated per action in terms of roles and statuses. */
  lemma AuthorizeCases(user: Option<User>, r: Request, p: Payload)
    ensures user.None? ==> !Authorize(user, r, p)
    ensures Authorize(user, r, p) ==> user.Some?
    ensures user.Some? && p.ActionPayload? && (p.action == Some(ApproveAction) || p.action == Some(RejectAction)) ==>
      (Authorize(user, r, p) <==> user.value.role == Sales && r.status == Pending)
    ensures user.Some? && p.ActionPayload? && p.action == Some(CompleteAction) ==>
      (Authorize(user, r, p) <==> user.value.role == Shift && r.status == Approved)
    ensures p.ActionPayload? && !KnownAction(p.action) ==> !Authorize(user, r, p)
    ensures user.Some? && p.EditPayload? ==>
      (Authorize(user, r, p) <==> user.value.role == Distributor && r.createdBy == user.value.id && r.status == Pending)
  {
  }

  /** Each of the three action names passes `required`. */
  lemma KnownActionFilled(a: Option<string>)
    ensures KnownAction(a) ==> Filled(a)
  {
    if KnownAction(a) {
      assert !Trimmed(a.value[0]);
    }
  }

  /** The action rules: `required|string|in:approve,reject,complete` on the action. */
  function ActionErrors(a: Option<string>): (e: seq<FieldError>)
    ensures e == [] <==> KnownAction(a)
    ensures !Filled(a) ==> e == [FieldError(Action, Required)]
    ensures Filled(a) && !KnownAction(a) ==> e == [FieldError(Action, In)]
  {
    KnownActionFilled(a);
    if !Filled(a) then [FieldError(Action, Required)]
    else if !KnownAction(a) then [FieldError(Action, In)]
    else []
  }

  /**
   * The update rules. An action payload checks the action, and a rejection also needs a reason
   * of at most 1000 characters; a plain edit checks the three fields, with the uniqueness of the
   * delivery order number ignoring the row being edited.
   */
  function Rules(p: Payload, t: Table, id: nat): (e: seq<FieldError>)
    ensures p.ActionPayload? ==>
      (e == [] <==> KnownAction(p.action) && (p.action == Some(RejectAction) ==> Acceptable(p.rejectionReason, ReasonMax)))
    ensures p.EditPayload? ==>
      (e == [] <==>
        && Acceptable(p.fields.noDo, FieldMax)
        && (forall other :: other in t && other != id ==> t[other].noDo != p.fields.noDo.value)
        && Acceptable(p.fields.nopol, FieldMax)
        && Acceptable(p.fields.distributorName, FieldMax))
  {
    match p
    case ActionPayload(action, reason) =>
      ActionErrors(action) + (if action == Some(RejectAction) then RequiredMax(RejectionReason, reason, ReasonMax) else [])
    case EditPayload(f) =>
      FieldRules(f, t, Some(id))
  }

  /** An edit to a delivery order number held by another row is refused with the unique message. */
  lemma DuplicateNoDoRefused(f: FormFields, t: Table, id: nat, other: nat)
    requires Acceptable(f.noDo, FieldMax) && other in t && other != id && t[other].noDo == f.noDo.value
    ensures Rules(EditPayload(f), t, id) != []
    ensures FieldError(NoDo, Unique) in Rules(EditPayload(f), t, id)
    ensures CustomMessage(FieldError(NoDo, Unique)) == Some("This Delivery Order Number already exists.")
  {
    assert Taken(t, f.noDo.value, Some(id));
  }

  /** Keeping the row's own delivery order number is never a uniqueness error. */
  lemma OwnNoDoAllowed(f: FormFields, t: Table, id: nat)
    requires id in t && f.noDo == Some(t[id].noDo) && Acceptable(f.noDo, FieldMax)
    requires forall a, b :: a in t && b in t && a != b ==> t[a].noDo != t[b].noDo
    ensures FieldError(NoDo, Unique) !in Rules(EditPayload(f), t, id)
  {
    assert !Taken(t, f.noDo.value, Some(id));
  }
}
