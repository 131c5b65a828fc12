/** The form request guarding the create endpoint: who may create, and what a create payload must hold. */
module StoreRefuelingRequestRequest {
  import opened Wrappers
  import opened RefuelingRequest
  import opened Validation

  /** Only an authenticated distributor may create a request. */
  predicate Authorize(user: Option<User>) {
    user.Some? && user.value.role == Distributor
  }

  /** The create rules: the three fields are required and at most 255 characters, and the
      delivery order number is held by no existing row. */
  function Rules(f: FormFields, t: Table): (e: seq<FieldError>)
    ensures e == [] <==>
      && Acceptable(f.noDo, FieldMax) && (forall id :: id in t ==> t[id].noDo != f.noDo.value)
      && Acceptable(f.nopol, FieldMax)
      && Acceptable(f.distributorName, FieldMax)
  {
    FieldRules(f, t, None)
  }

  /** A delivery order number already in the table is refused with the unique message. */
  lemma DuplicateNoDoRefused(f: FormFields, t: Table, other: nat)
    requires Acceptable(f.noDo, FieldMax) && other in t && t[other].noDo == f.noDo.value
    ensures Rules(f, t) != []
    ensures FieldError(NoDo, Unique) in Rules(f, t)
    ensures CustomMessage(FieldError(NoDo, Unique)) == Some("This Delivery Order Number already exists.")
  {
    assert Taken(t, f.noDo.value, None);
  }
}
