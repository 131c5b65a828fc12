/**
 * The RefuelingRequest record: its columns, the four-value status enum,
 * the three status guards and the four status scopes.
 */
module RefuelingRequest {
  import opened Wrappers

  type UserId = nat
  /** An instant as returned by the framework clock; the clock itself is a parameter. */
  type Time = nat

  /** The status column is a closed enum whose default is `pending`. */
  datatype Status = Pending | Approved | Rejected | Completed

  const DefaultStatus: Status := Pending

  /** The three roles of the approval chain. */
  datatype Role = Distributor | Sales | Shift

  datatype User = User(id: UserId, role: Role)

  /** One row of the refueling_requests table (the id is the key of the table). */
  datatype Request = Request(
    noDo: string,                     // delivery order number, unique in the table
    nopol: string,                    // vehicle registration number
    distributorName: string,
    status: Status,
    createdBy: UserId,
    approvedBy: Option<UserId>,
    approvedAt: Option<Time>,
    rejectionReason: Option<string>,
    createdAt: Time,
    updatedAt: Time)

  /** The table, keyed by id. */
  type Table = map<nat, Request>

  predicate Terminal(s: Status) {
    s == Rejected || s == Completed
  }

  /** The plain edit (and delete) guard. */
  predicate CanBeEdited(r: Request) {
    r.status == Pending
  }

  /** The approve / reject guard. */
  predicate CanBeReviewed(r: Request) {
    r.status == Pending
  }

  /** The complete guard. */
  predicate CanBeCompleted(r: Request) {
    r.status == Approved
  }

  /** The guards as a table over the status: each is one status test, review and edit agree,
      no status is both reviewable and completable, and the terminal statuses pass none. */
  lemma GuardsByStatus(r: Request)
    ensures CanBeEdited(r) <==> r.status == Pending
    ensures CanBeReviewed(r) <==> CanBeEdited(r)
    ensures CanBeCompleted(r) <==> r.status == Approved
    ensures !(CanBeReviewed(r) && CanBeCompleted(r))
    ensures Terminal(r.status) <==> !CanBeEdited(r) && !CanBeReviewed(r) && !CanBeCompleted(r)
  {
  }

  /** The rows whose status is `s`, with their contents. */
  function WhereStatus(t: Table, s: Status): (w: Table)
    ensures forall id :: id in w <==> id in t && t[id].status == s
    ensures forall id :: id in w ==> w[id] == t[id]
  {
    map id | id in t && t[id].status == s :: t[id]
  }

  function ScopePending(t: Table): (w: Table)
    ensures forall id :: id in w <==> id in t && t[id].status == Pending
    ensures forall id :: id in w ==> w[id] == t[id]
  {
    WhereStatus(t, Pending)
  }

  function ScopeApproved(t: Table): (w: Table)
    ensures forall id :: id in w <==> id in t && t[id].status == Approved
    ensures forall id :: id in w ==> w[id] == t[id]
  {
    WhereStatus(t, Approved)
  }

  function ScopeRejected(t: Table): (w: Table)
    ensures forall id :: id in w <==> id in t && t[id].status == Rejected
    ensures forall id :: id in w ==> w[id] == t[id]
  {
    WhereStatus(t, Rejected)
  }

  function ScopeCompleted(t: Table): (w: Table)
    ensures forall id :: id in w <==> id in t && t[id].status == Completed
    ensures forall id :: id in w ==> w[id] == t[id]
  {
    WhereStatus(t, Completed)
  }

  /** The four scopes partition the table: they are pairwise disjoint, their union is the table,
      and together they hold as many rows as the table. */
  lemma ScopesPartition(t: Table)
    ensures ScopePending(t).Keys !! ScopeApproved(t).Keys
    ensures ScopePending(t).Keys !! ScopeRejected(t).Keys
    ensures ScopePending(t).Keys !! ScopeCompleted(t).Keys
    ensures ScopeApproved(t).Keys !! ScopeRejected(t).Keys
    ensures ScopeApproved(t).Keys !! ScopeCompleted(t).Keys
    ensures ScopeRejected(t).Keys !! ScopeCompleted(t).Keys
    ensures ScopePending(t).Keys + ScopeApproved(t).Keys + ScopeRejected(t).Keys + ScopeCompleted(t).Keys == t.Keys
    ensures |ScopePending(t)| + |ScopeApproved(t)| + |ScopeRejected(t)| + |ScopeCompleted(t)| == |t|
  {
    var p, a, r, c := ScopePending(t).Keys, ScopeApproved(t).Keys, ScopeRejected(t).Keys, ScopeCompleted(t).Keys;
    assert p + a + r + c == t.Keys by {
      forall id | id in t.Keys ensures id in p + a + r + c {
        match t[id].status
        case Pending =>
        case Approved =>
        case Rejected =>
        case Completed =>
      }
    }
    assert |p + a| == |p| + |a|;
    assert |p + a + r| == |p + a| + |r|;
    assert |p + a + r + c| == |p + a + r| + |c|;
    assert |t.Keys| == |t|;
  }
}
