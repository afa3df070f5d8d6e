/** The approvals table: one row per proposed field change, the query scopes
    over it, and the two review stamps that an entry can receive. */
module Approvals {
  import opened Values

  /** One row of the `approvals` table. `approvableType`/`approvableId` are the
      polymorphic reference to the owning record. A row with neither
      `approvedAt` nor `rejectedAt` set is pending. */
  datatype ApprovalRow = ApprovalRow(
    approvableType: string,
    approvableId: Option<int>,
    key: string,
    oldValue: Value,
    newValue: Value,
    userId: Option<UserId>,
    createdAt: Time,
    updatedAt: Time,
    approvedAt: Option<Time>,
    approvedBy: Option<UserId>,
    rejectedAt: Option<Time>,
    rejectedBy: Option<UserId>)

  predicate IsOpen(x: ApprovalRow)
  {
    x.approvedAt.None? && x.rejectedAt.None?
  }

  predicate IsAccepted(x: ApprovalRow)
  {
    x.approvedAt.Some?
  }

  predicate IsRejected(x: ApprovalRow)
  {
    x.rejectedAt.Some?
  }

  /** `r` holds exactly the rows of `rows` that satisfy `p`, each as many
      times as it occurs in `rows`. A SQL `where` promises no order, so this
      is all a filter promises. */
  ghost predicate Selects(r: seq<ApprovalRow>, rows: seq<ApprovalRow>, p: ApprovalRow -> bool)
  {
    forall x :: multiset(r)[x] == if p(x) then multiset(rows)[x] else 0
  }

  /** A `where` clause over the table, keeping the table's order. */
  function Where(rows: seq<ApprovalRow>, p: ApprovalRow -> bool): (r: seq<ApprovalRow>)
    ensures Selects(r, rows, p)
    ensures |r| <= |rows|
    ensures forall x :: x in r <==> x in rows && p(x)
  {
    if rows == [] then []
    else
      assert rows == [rows[0]] + rows[1..];
      if p(rows[0]) then [rows[0]] + Where(rows[1..], p) else Where(rows[1..], p)
  }

  /** Scope `open`: neither stamp set. */
  function Open(rows: seq<ApprovalRow>): (r: seq<ApprovalRow>)
    ensures Selects(r, rows, IsOpen)
  {
    Where(rows, IsOpen)
  }

  /** Scope `accepted`: `approved_at` is not null. */
  function Accepted(rows: seq<ApprovalRow>): (r: seq<ApprovalRow>)
    ensures Selects(r, rows, IsAccepted)
  {
    Where(rows, IsAccepted)
  }

  /** Scope `rejected`: `rejected_at` is not null. */
  function Rejected(rows: seq<ApprovalRow>): (r: seq<ApprovalRow>)
    ensures Selects(r, rows, IsRejected)
  {
    Where(rows, IsRejected)
  }

  /** Scope `ofClass`: rows owned by records of one morph type. */
  function OfClass(rows: seq<ApprovalRow>, morphType: string): (r: seq<ApprovalRow>)
    ensures Selects(r, rows, (x: ApprovalRow) => x.approvableType == morphType)
  {
    Where(rows, (x: ApprovalRow) => x.approvableType == morphType)
  }

  /** Scope `ofId`: rows owned by the record with this primary key
      (a null argument selects the rows whose id is null). */
  function OfId(rows: seq<ApprovalRow>, id: Option<int>): (r: seq<ApprovalRow>)
    ensures Selects(r, rows, (x: ApprovalRow) => x.approvableId == id)
  {
    Where(rows, (x: ApprovalRow) => x.approvableId == id)
  }

  /** Scope `byUser`: rows requested by this user (null selects anonymous requests). */
  function ByUser(rows: seq<ApprovalRow>, userId: Option<UserId>): (r: seq<ApprovalRow>)
    ensures Selects(r, rows, (x: ApprovalRow) => x.userId == userId)
  {
    Where(rows, (x: ApprovalRow) => x.userId == userId)
  }

  /** `where('key', …)`: rows that govern one field. */
  function OfKey(rows: seq<ApprovalRow>, key: string): (r: seq<ApprovalRow>)
    ensures Selects(r, rows, (x: ApprovalRow) => x.key == key)
  {
    Where(rows, (x: ApprovalRow) => x.key == key)
  }

  ghost predicate NewestFirst(rows: seq<ApprovalRow>)
  {
    forall i, j :: 0 <= i < j < |rows| ==> rows[i].createdAt >= rows[j].createdAt
  }

  function InsertByCreated(x: ApprovalRow, rows: seq<ApprovalRow>): (r: seq<ApprovalRow>)
    requires NewestFirst(rows)
    ensures NewestFirst(r)
    ensures multiset(r) == multiset(rows) + multiset{x}
    ensures |r| == |rows| + 1 && (r[0] == x || (rows != [] && r[0] == rows[0]))
  {
    if rows == [] || rows[0].createdAt <= x.createdAt then [x] + rows
    else
      assert rows == [rows[0]] + rows[1..];
      var rest := InsertByCreated(x, rows[1..]);
      assert rest[0].createdAt <= rows[0].createdAt;
      [rows[0]] + rest
  }

  /** Scope `latest`: the rows ordered by `created_at`, newest first. */
  function Latest(rows: seq<ApprovalRow>): (r: seq<ApprovalRow>)
    ensures NewestFirst(r)
    ensures multiset(r) == multiset(rows)
  {
    if rows == [] then []
    else
      assert rows == [rows[0]] + rows[1..];
      InsertByCreated(rows[0], Latest(rows[1..]))
  }

  /** What `accept` writes on the entry: the approval stamp, and the
      `updated_at` touch of saving it. */
  function StampApproved(x: ApprovalRow, reviewer: Option<UserId>, at: Time): (r: ApprovalRow)
    ensures IsAccepted(r) && r.approvedAt == Some(at) && r.approvedBy == reviewer
    ensures r.rejectedAt == x.rejectedAt && r.rejectedBy == x.rejectedBy
    ensures r.(approvedAt := x.approvedAt, approvedBy := x.approvedBy, updatedAt := x.updatedAt) == x
  {
    x.(approvedAt := Some(at), approvedBy := reviewer, updatedAt := at)
  }

  /** What `reject` writes on the entry: the rejection stamp, and the
      `updated_at` touch of saving it. */
  function StampRejected(x: ApprovalRow, reviewer: Option<UserId>, at: Time): (r: ApprovalRow)
    ensures IsRejected(r) && r.rejectedAt == Some(at) && r.rejectedBy == reviewer
    ensures r.approvedAt == x.approvedAt && r.approvedBy == x.approvedBy
    ensures r.(rejectedAt := x.rejectedAt, rejectedBy := x.rejectedBy, updatedAt := x.updatedAt) == x
  {
    x.(rejectedAt := Some(at), rejectedBy := reviewer, updatedAt := at)
  }

  /** No row carries both stamps. The source does not enforce this. */
  ghost predicate StampsExclusive(rows: seq<ApprovalRow>)
  {
    forall x :: x in rows ==> !(IsAccepted(x) && IsRejected(x))
  }

  /** When no row carries both stamps, every row is in exactly one of the
      scopes open, accepted and rejected. */
  lemma {:induction false} ScopesPartition(rows: seq<ApprovalRow>)
    requires StampsExclusive(rows)
    ensures |Open(rows)| + |Accepted(rows)| + |Rejected(rows)| == |rows|
  {
    if rows != [] {
      ScopesPartition(rows[1..]);
    }
  }

  /** Replacing one row changes the size of a filter by what the old and the
      new row contribute. */
  lemma {:induction false} WhereAfterUpdate(rows: seq<ApprovalRow>, i: nat, y: ApprovalRow, p: ApprovalRow -> bool)
    requires i < |rows|
    ensures |Where(rows[i := y], p)| + (if p(rows[i]) then 1 else 0)
         == |Where(rows, p)| + (if p(y) then 1 else 0)
  {
    var updated := rows[i := y];
    WhereSize(rows, p);
    WhereSize(updated, p);
    if i > 0 {
      assert updated[0] == rows[0];
      assert updated[1..] == rows[1..][i - 1 := y];
      WhereAfterUpdate(rows[1..], i - 1, y, p);
    } else {
      assert updated[0] == y;
      assert updated[1..] == rows[1..];
    }
  }

  /** One step of a filter's size. */
  lemma WhereSize(rows: seq<ApprovalRow>, p: ApprovalRow -> bool)
    requires rows != []
    ensures |Where(rows, p)| == (if p(rows[0]) then 1 else 0) + |Where(rows[1..], p)|
  {
  }

  /** Accepting an open row moves it from the open scope to the accepted
      scope and leaves the rejected scope as it was. */
  lemma AcceptMovesOpenRow(rows: seq<ApprovalRow>, i: nat, y: ApprovalRow)
    requires i < |rows| && IsOpen(rows[i])
    requires IsAccepted(y) && !IsRejected(y)
    ensures |Open(rows[i := y])| == |Open(rows)| - 1
    ensures |Accepted(rows[i := y])| == |Accepted(rows)| + 1
    ensures |Rejected(rows[i := y])| == |Rejected(rows)|
  {
    WhereAfterUpdate(rows, i, y, IsOpen);
    WhereAfterUpdate(rows, i, y, IsAccepted);
    WhereAfterUpdate(rows, i, y, IsRejected);
  }

  /** Rejecting an open row moves it from the open scope to the rejected
      scope and leaves the accepted scope as it was. */
  lemma RejectMovesOpenRow(rows: seq<ApprovalRow>, i: nat, y: ApprovalRow)
    requires i < |rows| && IsOpen(rows[i])
    requires IsRejected(y) && !IsAccepted(y)
    ensures |Open(rows[i := y])| == |Open(rows)| - 1
    ensures |Accepted(rows[i := y])| == |Accepted(rows)|
    ensures |Rejected(rows[i := y])| == |Rejected(rows)| + 1
  {
    WhereAfterUpdate(rows, i, y, IsOpen);
    WhereAfterUpdate(rows, i, y, IsAccepted);
    WhereAfterUpdate(rows, i, y, IsRejected);
  }

  /** Nothing stops a rejected row from being accepted afterwards: the result
      carries both stamps and sits in both the accepted and the rejected scope. */
  lemma AcceptAfterRejectKeepsBothStamps(x: ApprovalRow, reviewer: Option<UserId>, t1: Time, t2: Time)
    ensures var y := StampApproved(StampRejected(x, reviewer, t1), reviewer, t2);
            Accepted([y]) == [y] && Rejected([y]) == [y] && !StampsExclusive([y])
  {
  }

  /** The approvals table, which preSave appends to and the review stamps update. */
  class ApprovalTable {
    var rows: seq<ApprovalRow>

    constructor ()
      ensures rows == []
    {
      rows := [];
    }

    /** One batch insert. */
    method Insert(batch: seq<ApprovalRow>)
      modifies this
      ensures rows == old(rows) + batch
    {
      rows := rows + batch;
    }
  }
}
