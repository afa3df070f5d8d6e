/** One entry of the approvals table as an object: a reviewer accepts it,
    which replays its new value onto the owning record, or rejects it. */
module ApprovalEntry {
  import opened Values
  import opened Approvals
  import opened Approvable

  class Approval {
    /** The position of the entry's row in the table. */
    const id: nat
    const approvableType: string
    var approvableId: Option<int>
    const key: string
    const oldValue: Value
    const newValue: Value
    const userId: Option<UserId>
    const createdAt: Time
    var updatedAt: Time
    var approvedAt: Option<Time>
    var approvedBy: Option<UserId>
    var rejectedAt: Option<Time>
    var rejectedBy: Option<UserId>

    /** The entry's columns as a row. */
    function Row(): ApprovalRow
      reads this
    {
      ApprovalRow(approvableType, approvableId, key, oldValue, newValue, userId,
                  createdAt, updatedAt, approvedAt, approvedBy, rejectedAt, rejectedBy)
    }

    /** The table holds what the entry holds. */
    predicate Synced(table: ApprovalTable)
      reads this, table
    {
      id < |table.rows| && table.rows[id] == Row()
    }

    /** Loads the entry stored at position `id`. */
    constructor Load(table: ApprovalTable, id: nat)
      requires id < |table.rows|
      ensures this.id == id && Synced(table)
    {
      var x := table.rows[id];
      this.id := id;
      approvableType := x.approvableType;
      approvableId := x.approvableId;
      key := x.key;
      oldValue := x.oldValue;
      newValue := x.newValue;
      userId := x.userId;
      createdAt := x.createdAt;
      updatedAt := x.updatedAt;
      approvedAt := x.approvedAt;
      approvedBy := x.approvedBy;
      rejectedAt := x.rejectedAt;
      rejectedBy := x.rejectedBy;
    }

    /** Persists the entry, touching `updated_at`. */
    method Save(table: ApprovalTable, now: Time)
      requires id < |table.rows|
      modifies this`updatedAt, table
      ensures updatedAt == now && Synced(table)
      ensures table.rows == old(table.rows)[id := Row()]
    {
      updatedAt := now;
      table.rows := table.rows[id := Row()];
    }

    /** Accepts the change. The target is `overrideRecord` when one is given
        (and the entry is re-pointed at it), otherwise `owner`, the record
        the polymorphic reference resolves to (null when it resolves to
        nothing, which fails). */
    method Accept(overrideRecord: Record?, owner: Record?, actor: Option<UserId>, now: Time,
                  table: ApprovalTable)
      returns (ok: bool)
      requires Synced(table)
      requires owner != null ==> owner.morphClass == approvableType && Some(owner.id) == approvableId
      modifies this`approvableId, this`approvedAt, this`approvedBy, this`updatedAt, table
      modifies overrideRecord, owner
      ensures ok <==> overrideRecord != null || owner != null
      ensures !ok ==> unchanged(this) && table.rows == old(table.rows)
      ensures ok ==>
                var target := if overrideRecord != null then overrideRecord else owner;
                && target.attributes == old(target.attributes)[key := newValue]
                && target.original == target.attributes && target.existsInStore
                && !target.withoutApproval
                && approvableId == (if overrideRecord != null then Some(overrideRecord.id) else old(approvableId))
                && Row() == StampApproved(old(Row()), actor, now).(approvableId := approvableId)
                && Synced(table) && table.rows == old(table.rows)[id := Row()]
      ensures ok && old(IsOpen(Row())) ==>
                && |Open(table.rows)| == |Open(old(table.rows))| - 1
                && |Accepted(table.rows)| == |Accepted(old(table.rows))| + 1
                && |Rejected(table.rows)| == |Rejected(old(table.rows))|
      ensures overrideRecord != null && owner != null && owner != overrideRecord ==> unchanged(owner)
    {
      ghost var before := Row();
      var target: Record;
      if overrideRecord != null {
        target := overrideRecord;
        approvableId := Some(overrideRecord.id);
      } else if owner != null {
        target := owner;
      } else {
        return false;
      }
      ghost var pointed := approvableId;
      assert pointed == if overrideRecord != null then Some(overrideRecord.id) else old(approvableId);
      ReplayOnto(target, actor, now, table);
      approvedAt := Some(now);
      approvedBy := actor;
      Save(table, now);
      assert approvableId == pointed;
      assert Row() == StampApproved(before, actor, now).(approvableId := approvableId);
      ok := true;
      if IsOpen(old(table.rows)[id]) {
        AcceptMovesOpenRow(old(table.rows), id, Row());
      }
    }

    /** The record half of accept: writes the new value into the field and
        saves with approval switched off for that one save. */
    method ReplayOnto(target: Record, actor: Option<UserId>, now: Time, table: ApprovalTable)
      modifies target`attributes, target`original, target`existsInStore, target`withoutApproval, table
      ensures target.attributes == old(target.attributes)[key := newValue]
      ensures target.original == target.attributes && target.existsInStore
      ensures !target.withoutApproval && table.rows == old(table.rows)
    {
      target.WithoutApproval(true);
      target.SetAttribute(key, newValue);
      // With the bypass flag set, preSave neither consults the capability
      // hook nor touches the table, so the answer passed here is irrelevant.
      var _ := target.Save(false, actor, now, table);
      target.WithApproval();
    }

    /** Rejects the change: stamps the entry and touches no record. */
    method Reject(actor: Option<UserId>, now: Time, table: ApprovalTable)
      requires Synced(table)
      modifies this`rejectedAt, this`rejectedBy, this`updatedAt, table
      ensures Row() == StampRejected(old(Row()), actor, now)
      ensures Synced(table) && table.rows == old(table.rows)[id := Row()]
      ensures old(IsOpen(Row())) ==>
                && |Open(table.rows)| == |Open(old(table.rows))| - 1
                && |Accepted(table.rows)| == |Accepted(old(table.rows))|
                && |Rejected(table.rows)| == |Rejected(old(table.rows))| + 1
    {
      ghost var before := Row();
      rejectedAt := Some(now);
      rejectedBy := actor;
      Save(table, now);
      assert Row() == StampRejected(before, actor, now);
      if IsOpen(old(table.rows)[id]) {
        RejectMovesOpenRow(old(table.rows), id, Row());
      }
    }
  }
}
