/**
 * The framework validation rules the two form requests use: `required`, `max:N`,
 * `unique:refueling_requests,no_do[,ignoreId]` and `in:...`, and the custom messages.
 * Every input value is a string or absent, so the `string` rule never fails and is not modelled.
 */
module Validation {
  import opened Wrappers
  import opened RefuelingRequest

  /** The input fields that carry rules. */
  datatype Field = NoDo | Nopol | DistributorName | Action | RejectionReason

  /** The rule that failed. */
  datatype Rule = Required | Max(limit: nat) | Unique | In

  datatype FieldError = FieldError(field: Field, rule: Rule)

  /** The field-length limit of the three request fields. */
  const FieldMax: nat := 255
  /** The length limit of a rejection reason. */
  const ReasonMax: nat := 1000

  /** The characters the `required` rule trims before testing for emptiness. */
  predicate Trimmed(c: char) {
    c == ' ' || c == '\t' || c == '\n' || c == '\r' || c == '\0' || c == '\U{000B}'
  }

  /** A string that is empty once trimmed. */
  predicate Blank(s: string) {
    forall i :: 0 <= i < |s| ==> Trimmed(s[i])
  }

  /** The `required` rule: the field is present, not null, and not blank. */
  predicate Filled(v: Option<string>) {
    v.Some? && !Blank(v.value)
  }

  /** A present, non-blank value of at most `limit` characters. */
  predicate Acceptable(v: Option<string>, limit: nat) {
    Filled(v) && |v.value| <= limit
  }

  /** Some row other than `except` already holds this delivery order number. */
  predicate Taken(t: Table, noDo: string, except: Option<nat>) {
    exists id | id in t.Keys :: except != Some(id) && t[id].noDo == noDo
  }

  /**
   * The errors of `required|string|max:limit` on one field, in rule order. When `required`
   * fails (an implicit rule), the remaining rules of the field are not run.
   */
  function RequiredMax(f: Field, v: Option<string>, limit: nat): (e: seq<FieldError>)
    ensures e == [] <==> Acceptable(v, limit)
    ensures !Filled(v) ==> e == [FieldError(f, Required)]
    ensures forall i :: 0 <= i < |e| ==> e[i].field == f
  {
    if !Filled(v) then [FieldError(f, Required)]
    else if |v.value| > limit then [FieldError(f, Max(limit))]
    else []
  }

  /**
   * The errors of `required|string|max:255|unique:refueling_requests,no_do[,except]`. A failed
   * `required` stops the field's rules, and `unique` (a database rule) is skipped once the field
   * already has an error, so at most one error is reported.
   */
  function NoDoErrors(v: Option<string>, t: Table, except: Option<nat>): (e: seq<FieldError>)
    ensures e == [] <==> Acceptable(v, FieldMax) && !Taken(t, v.value, except)
    ensures !Filled(v) ==> e == [FieldError(NoDo, Required)]
    ensures Filled(v) && |v.value| > FieldMax ==> e == [FieldError(NoDo, Max(FieldMax))]
    ensures Acceptable(v, FieldMax) && Taken(t, v.value, except) ==> e == [FieldError(NoDo, Unique)]
    ensures |e| <= 1
  {
    if !Filled(v) then [FieldError(NoDo, Required)]
    else if |v.value| > FieldMax then [FieldError(NoDo, Max(FieldMax))]
    else if Taken(t, v.value, except) then [FieldError(NoDo, Unique)]
    else []
  }

  /** The three request fields as they arrive in a create or edit payload. */
  datatype FormFields = FormFields(noDo: Option<string>, nopol: Option<string>, distributorName: Option<string>)

  /** The rules shared by create and plain edit; `except` is the id the uniqueness test ignores. */
  function FieldRules(f: FormFields, t: Table, except: Option<nat>): (e: seq<FieldError>)
    ensures e == [] <==>
      && Acceptable(f.noDo, FieldMax) && !Taken(t, f.noDo.value, except)
      && Acceptable(f.nopol, FieldMax)
      && Acceptable(f.distributorName, FieldMax)
  {
    NoDoErrors(f.noDo, t, except)
    + RequiredMax(Nopol, f.nopol, FieldMax)
    + RequiredMax(DistributorName, f.distributorName, FieldMax)
  }

  /** The custom messages both form requests declare; None means the framework's default text. */
  function CustomMessage(e: FieldError): (m: Option<string>)
    ensures m.Some? <==> (e.rule == Required && e.field in {NoDo, Nopol, DistributorName}) || e == FieldError(NoDo, Unique)
  {
    match e
    case FieldError(NoDo, Required) => Some("Delivery Order Number is required.")
    case FieldError(NoDo, Unique) => Some("This Delivery Order Number already exists.")
    case FieldError(Nopol, Required) => Some("Vehicle Registration Number is required.")
    case FieldError(DistributorName, Required) => Some("Distributor name is required.")
    case _ => None
  }
}
