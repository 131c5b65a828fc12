# Refueling-request workflow, modelled in Dafny

This project models the core of a small vehicle-refueling workflow application. The core is
one table of refueling requests. Each request has a delivery order number (`no_do`), a vehicle
plate (`nopol`), a distributor name, a status, its creator, and the approver, approval time and
rejection reason set by review. Three roles act on it. A distributor creates requests and may edit
or delete its own while they are pending. Sales approves or rejects pending requests. Shift marks
approved requests completed. The home list shows each role its own slice of the table, newest
first, ten per page.

Modules follow the source files:

- `RefuelingRequest` (`refueling_request.dfy`): the record and its fields, the four-value status
  enum with default `pending`, the three status guards and the four status scopes.
- `Validation` (`validation.dfy`): the framework rules the form requests use. These are
  `required` (present, not null, not only whitespace), `max:N`, `unique` (optionally ignoring one
  id) and `in`, plus the custom error messages.
- `StoreRefuelingRequestRequest` and `UpdateRefuelingRequestRequest`: the `authorize` gate and
  the `rules` of each form request, as pure functions.
- `RefuelingRequestController` (`refueling_request_controller.dfy`): the controller. Each action
  (`store`, `update`, `handleStatusUpdate`, `destroy`) is first a pure step function from the
  table before the call to the answer and the table after it. The class `Store` holds the table
  (`rows: map<nat, Request>`) and the next auto-increment id. Its methods make the same checks and
  field assignments and are proved to agree with the step functions. This module also holds the
  table invariant and the home-list filter `Visible`, the paging, and `Index`.
- `WorkflowProperties` (`workflow_properties.dfy`): lemmas about single calls and about any
  sequence of calls (`Run`). They cover the invariants, the status graph, frozen terminal rows,
  the effect of each action, and the list filter.

Each update call runs in the framework's order:

1. Route-model binding: an unknown id gives 404.
2. The form request's `authorize`: a refusal gives 403.
3. Its `rules`: a failure gives 422 with field errors.
4. The controller body, which repeats the role and guard checks and, for a rejection, the reason
   rule.

The model keeps the repeated checks. `UpdateOutcomes` proves they never fire, and also that the
controller's 400 branch for an unknown action cannot be reached.

The clock (`now()`) is a parameter of every call that writes a time. The authenticated user is a
parameter: `Option<User>` where the form request handles a missing user, and `User` for
`destroy`, which only the authentication middleware protects.

Points of the code that the model keeps as written:

- Review is a plain read-check-write. Two reviewers racing on one request get no conflict answer,
  and the model has none.
- Complete writes only the status; the approver and approval time from the review step stay.
- Destroy demands the distributor role as well as the creator and a pending row.
- Create's rules refuse values over 255 characters and values that are only whitespace, as well
  as missing and duplicate ones.

## Model

| member | source | states |
|---|---|---|
| RefuelingRequest.GuardsByStatus | app/Models/RefuelingRequest.php:131-150 | canBeEdited holds exactly for pending and canBeCompleted exactly for approved; canBeReviewed always agrees with canBeEdited; no status satisfies both review and complete; rejected and completed satisfy none of the three guards |
| RefuelingRequest.ScopePending | app/Models/RefuelingRequest.php:99-102 | selects exactly the rows whose status is pending, with their contents |
| RefuelingRequest.ScopeApproved | app/Models/RefuelingRequest.php:107-110 | selects exactly the rows whose status is approved, with their contents |
| RefuelingRequest.ScopeRejected | app/Models/RefuelingRequest.php:115-118 | selects exactly the rows whose status is rejected, with their contents |
| RefuelingRequest.ScopeCompleted | app/Models/RefuelingRequest.php:123-126 | selects exactly the rows whose status is completed, with their contents |
| RefuelingRequest.ScopesPartition | app/Models/RefuelingRequest.php:99-126 | over the four-value status enum the four scopes are pairwise disjoint, their union is the whole table, and their sizes add up to the table's size |
| RefuelingRequest.CanBeEdited | app/Models/RefuelingRequest.php:131-134 | the edit guard; `GuardsByStatus` proves it holds exactly for pending rows |
| RefuelingRequest.CanBeReviewed | app/Models/RefuelingRequest.php:139-142 | the review guard; `GuardsByStatus` proves it holds exactly for pending rows and agrees with the edit guard |
| RefuelingRequest.CanBeCompleted | app/Models/RefuelingRequest.php:147-150 | the completion guard; `GuardsByStatus` proves it holds exactly for approved rows and never together with the review guard |
| Validation.RequiredMax | app/Http/Requests/StoreRefuelingRequestRequest.php:26-27 | the rules required, string and max:N yield no error exactly when the value is present, not blank and at most N characters; a missing or blank value yields exactly the one `required` error |
| Validation.NoDoErrors | app/Http/Requests/StoreRefuelingRequestRequest.php:25 | the `no_do` rules yield no error exactly when the value is acceptable and no row other than the ignored id holds it; at most one error: `required` when missing or blank, else `max` when over 255 characters, else `unique` when taken, since the database rule is skipped once the field has an error |
| Validation.FieldRules | app/Http/Requests/UpdateRefuelingRequestRequest.php:61-65 | the three field rules yield no error exactly when all three fields are acceptable and the delivery order number is free |
| Validation.CustomMessage | app/Http/Requests/StoreRefuelingRequestRequest.php:36-44 | a custom message exists exactly for `required` on the three fields and `unique` on `no_do`; every other error uses the framework default |
| StoreRefuelingRequestRequest.Authorize | app/Http/Requests/StoreRefuelingRequestRequest.php:12-15 | only an authenticated distributor may create; `CreateOutcomes` proves a 403 exactly when this gate refuses |
| StoreRefuelingRequestRequest.Rules | app/Http/Requests/StoreRefuelingRequestRequest.php:22-29 | a create payload passes exactly when `no_do`, `nopol` and `distributor_name` are present, not blank and at most 255 characters, and no existing row holds the `no_do` |
| StoreRefuelingRequestRequest.DuplicateNoDoRefused | app/Http/Requests/StoreRefuelingRequestRequest.php:25-40 | a `no_do` already in the table fails with the `unique` error, whose message is "This Delivery Order Number already exists." |
| UpdateRefuelingRequestRequest.AuthorizeCases | app/Http/Requests/UpdateRefuelingRequestRequest.php:12-40 | with no user the gate refuses; approve and reject pass exactly for a sales user on a pending request; complete exactly for a shift user on an approved request; any other action value is refused; a plain edit passes exactly for the creating distributor while pending |
| UpdateRefuelingRequestRequest.ActionErrors | app/Http/Requests/UpdateRefuelingRequestRequest.php:51 | the action rule passes exactly for `approve`, `reject` or `complete`; a missing or blank action gets only the `required` error, any other value only the `in` error |
| UpdateRefuelingRequestRequest.Rules | app/Http/Requests/UpdateRefuelingRequestRequest.php:47-66 | an action payload passes exactly when the action is known and a rejection carries a non-blank reason of at most 1000 characters; an edit passes exactly when the three fields are acceptable and no other row holds the new `no_do` |
| UpdateRefuelingRequestRequest.DuplicateNoDoRefused | app/Http/Requests/UpdateRefuelingRequestRequest.php:62-77 | an edit to a `no_do` held by another row fails with the `unique` error and its message "This Delivery Order Number already exists." |
| UpdateRefuelingRequestRequest.OwnNoDoAllowed | app/Http/Requests/UpdateRefuelingRequestRequest.php:62 | keeping the row's own `no_do` is never a uniqueness error, since the rule ignores the row's own id |
| UpdateRefuelingRequestRequest.Authorize | app/Http/Requests/UpdateRefuelingRequestRequest.php:12-40 | the per-action gate; `AuthorizeCases` states it role by role and status by status |
| RefuelingRequestController.Saved | app/Http/Controllers/RefuelingRequestController.php:85 | the model's `update` always ends with the new attribute values; its update time is now exactly when some attribute changed, and the old stamp otherwise |
| RefuelingRequestController.StoreStep | app/Http/Controllers/RefuelingRequestController.php:49-59 | store answers Ok, 403 or 422; any failure leaves the table as it was; a success advances the next id and adds exactly that id; `CreateOutcomes` gives the exact answers and the new row |
| RefuelingRequestController.StatusUpdateStep | app/Http/Controllers/RefuelingRequestController.php:112-167 | handleStatusUpdate changes nothing unless it answers Ok, never inserts, deletes or touches another row, and keeps the next id; `ApproveEffect`, `RejectEffect`, `CompleteEffect` give the new row |
| RefuelingRequestController.UpdateStep | app/Http/Controllers/RefuelingRequestController.php:77-89 | update changes nothing unless it answers Ok, never inserts, deletes or touches another row, and keeps the next id; `UpdateOutcomes` gives the exact answers |
| RefuelingRequestController.DestroyStep | app/Http/Controllers/RefuelingRequestController.php:94-107 | destroy answers Ok, 403 or 404; a failure changes nothing and a success removes exactly the existing target row; `DestroyOutcomes` gives the exact condition |
| RefuelingRequestController.StoreStepPreservesInv | app/Http/Controllers/RefuelingRequestController.php:49-55 | a create keeps the table invariants: every id below the next id, unique `no_do`, validated fields, a reason exactly when rejected, an approver and approval time exactly when not pending |
| RefuelingRequestController.ReplaceKeepsInv | app/Http/Controllers/RefuelingRequestController.php:85 | rewriting one row with a well-formed row whose `no_do` no other row holds keeps the invariants |
| RefuelingRequestController.StatusUpdateStepPreservesInv | app/Http/Controllers/RefuelingRequestController.php:112-167 | approve, reject and complete keep the table invariants |
| RefuelingRequestController.UpdateStepPreservesInv | app/Http/Controllers/RefuelingRequestController.php:77-89 | every update call keeps the table invariants |
| RefuelingRequestController.DestroyStepPreservesInv | app/Http/Controllers/RefuelingRequestController.php:94-107 | a delete keeps the table invariants |
| RefuelingRequestController.Store.constructor | database/migrations/2024_01_01_000003_create_refueling_requests_table.php:14-15 | a new table is empty, satisfies the invariants, and will give the first row id 1 |
| RefuelingRequestController.Store.Create | app/Http/Controllers/RefuelingRequestController.php:49-59 | the answer and the new table are those of the create step function; the invariants are kept |
| RefuelingRequestController.Store.Update | app/Http/Controllers/RefuelingRequestController.php:77-89 | the answer and the new table are those of the update step function (404, then authorize, then rules, then the action or the plain edit); the invariants are kept |
| RefuelingRequestController.Store.HandleStatusUpdate | app/Http/Controllers/RefuelingRequestController.php:112-167 | the answer and the new table are those of the status-update step: re-check role and guard, re-validate a reason, write the status columns, 400 for any other action; the invariants are kept |
| RefuelingRequestController.Store.Destroy | app/Http/Controllers/RefuelingRequestController.php:94-107 | the answer and the new table are those of the delete step function; the invariants are kept |
| RefuelingRequestController.Visible | app/Http/Controllers/RefuelingRequestController.php:29-35 | the role filter of the home list; `ListFilterByRole` states it per role |
| RefuelingRequestController.VisibleRows | app/Http/Controllers/RefuelingRequestController.php:28-35 | the filtered query holds exactly the rows that pass the role filter, with their contents |
| RefuelingRequestController.CurrentPage | app/Http/Controllers/RefuelingRequestController.php:37 | the page served is the requested one when it is at least 1, and page 1 when the request is below 1 |
| RefuelingRequestController.Page | app/Http/Controllers/RefuelingRequestController.php:37 | a page holds at most 10 entries, namely the consecutive entries of the listing from the page's offset |
| RefuelingRequestController.Index | app/Http/Controllers/RefuelingRequestController.php:17-44 | a guest gets no list; a signed-in user gets at most 10 distinct ids, all visible to that user and ordered newest `created_at` first |
| WorkflowProperties.FailureChangesNothing | app/Http/Controllers/RefuelingRequestController.php:119-121 | any call answered with 403, 404, 400 or 422 leaves the table exactly as it was |
| WorkflowProperties.StepTouchesOnlyTarget | app/Http/Controllers/RefuelingRequestController.php:51-55 | a call changes, inserts or removes at most its one target row, and only a successful create advances the next id |
| WorkflowProperties.StepPreservesInv | app/Http/Controllers/RefuelingRequestController.php:49-107 | every single call keeps the table invariants |
| WorkflowProperties.StepFollowsEdges | app/Http/Controllers/RefuelingRequestController.php:118-159 | a row that survives a call took one edge of pending→approved, pending→rejected or approved→completed, or kept its status, and kept its creator and creation time |
| WorkflowProperties.UpdateStepFollowsEdges | app/Http/Controllers/RefuelingRequestController.php:77-89 | an update moves its row along at most one edge of the status graph and never changes its creator or creation time |
| WorkflowProperties.StatusUpdateStepFollowsEdges | app/Http/Controllers/RefuelingRequestController.php:118-159 | approve, reject and complete move their row along at most one edge and never change its creator or creation time |
| WorkflowProperties.StepFreezesTerminal | app/Http/Controllers/RefuelingRequestController.php:97-99 | a rejected or completed row is neither changed nor deleted by any call |
| WorkflowProperties.StepKeepsDeletedGone | app/Http/Controllers/RefuelingRequestController.php:103 | an id below the next id that is absent stays absent, since ids are never reused |
| WorkflowProperties.RunPreservesInv | app/Http/Controllers/RefuelingRequestController.php:51-55 | from any table satisfying the invariants, the empty one included, every sequence of calls keeps them: unique `no_do`, a reason exactly when rejected, approver and approval time exactly when reviewed |
| WorkflowProperties.RunFreezesTerminal | app/Http/Controllers/RefuelingRequestController.php:119-121 | a rejected or completed row stays exactly as it is whatever calls follow: both statuses are terminal |
| WorkflowProperties.RunKeepsDeletedGone | app/Http/Controllers/RefuelingRequestController.php:103 | a deleted id never reappears after any sequence of calls |
| WorkflowProperties.RunFollowsPaths | app/Http/Controllers/RefuelingRequestController.php:123-159 | a row present before and after any sequence of calls moved along a path of the status graph and kept its creator and creation time |
| WorkflowProperties.CreateOutcomes | app/Http/Requests/StoreRefuelingRequestRequest.php:12-15 | 403 exactly when the actor is not an authenticated distributor; 422 exactly when an authorized payload fails the rules; an authorized payload passing the rules answers Ok, and a success stores one row at the next id, with the three fields, status pending, created by the actor, no approver, approval time or reason |
| WorkflowProperties.CreateInsertsOne | app/Http/Controllers/RefuelingRequestController.php:49-55 | a successful create on a valid table adds exactly one new id and leaves every existing row unchanged |
| WorkflowProperties.DuplicateCreateRefused | app/Http/Controllers/RefuelingRequestController.php:49-55 | an authorized create whose `no_do` is taken is answered 422 with the `unique` error, and nothing is inserted |
| WorkflowProperties.UpdateOutcomes | app/Http/Controllers/RefuelingRequestController.php:164-165 | 404 for an unknown id; 403 exactly when the form request's gate refuses; 422 exactly when the rules fail; never 400; no change unless the answer is success; the next id never moves |
| WorkflowProperties.ApproveEffect | app/Http/Controllers/RefuelingRequestController.php:118-128 | approve by sales on a pending request sets status approved, approver the actor, approval time now and no rejection reason, stamps the update time, and changes nothing else |
| WorkflowProperties.RejectEffect | app/Http/Controllers/RefuelingRequestController.php:133-147 | reject by sales on a pending request with an acceptable reason sets status rejected, approver the actor, approval time now and the reason, and changes nothing else |
| WorkflowProperties.RejectNeedsReason | app/Http/Requests/UpdateRefuelingRequestRequest.php:53-55 | a rejection whose reason is missing, blank or over 1000 characters is answered 422 (with the `required` error when missing or blank) and changes nothing |
| WorkflowProperties.CompleteEffect | app/Http/Controllers/RefuelingRequestController.php:152-159 | complete by shift on an approved request changes only the status, to completed (and the update stamp); approver, approval time and reason are untouched |
| WorkflowProperties.EditEffect | app/Http/Controllers/RefuelingRequestController.php:85 | an authorized, valid plain edit answers Ok and rewrites only `no_do`, `nopol` and `distributor_name` of its row; the update time becomes now exactly when one of the three values differs, and is kept otherwise |
| WorkflowProperties.DestroyOutcomes | app/Http/Controllers/RefuelingRequestController.php:97-103 | a row is removed exactly when the actor is a distributor, its creator, and the row is pending; otherwise 403 (or 404) and the table is unchanged |
| WorkflowProperties.ListFilterByRole | app/Http/Controllers/RefuelingRequestController.php:29-35 | a distributor sees exactly its own rows, sales exactly the rows not completed, shift exactly the approved and completed rows |
| WorkflowProperties.ActionableIsVisible | app/Http/Requests/UpdateRefuelingRequestRequest.php:25-39 | every request a user is authorized to approve, reject, complete or edit is in that user's home list |
| WorkflowProperties.PageCovers | app/Http/Controllers/RefuelingRequestController.php:37 | entry i of a listing is entry i mod 10 of page i div 10 + 1, so paging loses no entry |
| WorkflowProperties.IndexFindsEveryVisibleRow | app/Http/Controllers/RefuelingRequestController.php:29-37 | every row visible to a user is on some page of that user's home list |
| WorkflowProperties.VisibleKeys | app/Http/Controllers/RefuelingRequestController.php:29-35 | a set of ids that matches the role filter row by row is exactly the filtered query's set of ids |
| WorkflowProperties.FixtureLists | tests/Feature/RefuelingRequestTest.php:112-150 | over one request per status, sales sees the three not completed, shift the approved and completed two, the creating distributor all four, another distributor none |
| WorkflowProperties.EndToEnd | tests/Feature/RefuelingRequestTest.php:39-72 | create DO-2024-001 as a distributor, approve as sales, complete as shift: pending, then approved with the approver and time, then completed keeping the approver; a second create of DO-2024-001 is refused with the `unique` error and changes nothing |

## Left out

- Rendering, redirects and flash messages are not modelled: a success is `Ok`, an `abort` is its status code. The `show` action and the eager loading of `creator` and `approver` are left out too.
- Authentication is not modelled. The user is a parameter. `destroy` takes a signed-in user, because there the authentication middleware, not the code, rules out a guest.
- The `User` model is not part of this model, so `Role` is closed to distributor, sales and shift. A user with some other role, whom `index` would show every row, is not modelled.
- The sorting in `latest()` is done by the database. `Index` takes that ordering as a parameter, constrained by `NewestFirst`. The order among rows with equal `created_at` is not modelled, nor is the paginator's metadata beyond the slice of at most 10.
- The database's unique index on `no_do` and the status enum appear only as the `UniqueNoDo` invariant and the `Status` datatype. Foreign keys, the other indexes and collation are left out; `no_do` values compare by exact string equality.
- Concurrency is left out. The code has no locking or conditional update, so two reviewers racing on one request cannot be modelled from it.
- Framework input handling is left out: input trimming, turning empty strings into null, and non-string values (for which the `string` rule would fail). An absent or null field is `None`, and a stored value is the string as given.
- Validation messages other than the four custom ones are the framework's defaults. `CustomMessage` gives `None` for them.
- Owner checks compare `created_by` with the user id as integers, as the strict comparisons in `authorize` and `destroy` assume.
- The routes, the React page, the factories, the seeders and the feature tests are not modelled. The tests serve only as the evidence cited above.
