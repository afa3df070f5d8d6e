# laravel-approvable: the change-approval engine in Dafny

This project models the core of the `Approvable` trait and the `Approval` model.

When a user who may not approve saves an existing record, the trait intercepts the save. It classifies each dirty field with the `approveOf` allow-list and the `dontApproveOf` deny-list. It resets every approvable field on the record to its original value, or removes the field when it had no original. It then appends one pending row per reset field to the `approvals` table. The save goes on and commits only what is left.

A reviewer later accepts a row or rejects it:

- Accepting a row writes its new value into the owning record and saves the record with approval switched off. It then stamps `approved_at`/`approved_by` on the row.
- Rejecting a row only stamps `rejected_at`/`rejected_by`.

The query scopes are plain filters over the table.

Files:

- `values.dfy` (module `Values`): nullable values (`Option`), attribute values (`Value`, with PHP's `null`), timestamps and user ids. `Isset` is PHP's `isset` on an array entry.
- `approvals.dfy` (module `Approvals`): the row type `ApprovalRow` and the table (class `ApprovalTable`). It also holds the scopes (`Open`, `Accepted`, `Rejected`, `OfClass`, `OfId`, `ByUser`, `Latest`), all built on one filter, `Where`, and the two review stamps.
- `approvable.dfy` (module `Approvable`): the field rule `IsApprovable`, and the specification functions of one intercepted write (`ApprovableChanges`, `RevertChanges`, the batch predicate `IsBatchFor`). It also holds the class `Record`: the trait's state (attributes, original, the bypass flag), `ChangedApprovableFields`, `PreSave`, the store's `Save`, and the pending queries.
- `approval_entry.dfy` (module `ApprovalEntry`): the class `Approval`, an entry loaded from the table, with `Accept` and `Reject`.
- `scenarios.dfy` (module `Scenarios`): the package's tests restated as methods, with the "Cool Post" / "Bad Post" edit. Their expected outcomes are postconditions that the verifier proves from the contracts; nothing is executed.

Collaborators become parameters:

- The answer of `currentUserCanApprove` is a boolean `canApprove`.
- `Auth::id()` is the `actor` argument (`Option<UserId>`).
- `new DateTime()` is the `now` argument.
- The record that `morphTo` resolves is the `owner` argument of `Accept`. It is null when nothing resolves.
- The store's dirty-field detection is `Dirty`: attributes that are new or differ from the original, compared with plain equality.
- Saving a record is `Record.Save`. It runs the saving hook (`PreSave`) and then persists, so `original` becomes the attributes. `original` therefore stands for what the store holds.

Where a natural reading of the package differs from its code, the model follows the code:

- The three states of an entry (pending, approved, rejected) read as mutually exclusive, but the code guards no transition. `accept` on a rejected row stamps it approved too, and the row then carries both stamps (`Approvals.AcceptAfterRejectKeepsBothStamps`).
- `accept` could be read as restoring the bypass flag it switched on. The code calls `withApproval()`, which sets the flag to false whatever it was before. `Accept` ensures the flag is false afterwards.

## Model

| member | source | states |
|---|---|---|
| `Approvable.IsApprovable` | src/Approvable.php:182-192 | A field needs approval iff it is on the allow-list, or there is no allow-list and it is not on the deny-list. So the allow-list beats the deny-list, and a field on neither list needs approval exactly when the allow-list is empty. |
| `Approvable.DeferredFieldsFollowLists` | src/Approvable.php:154-155 | The deferred fields are: all dirty fields when both lists are empty; the dirty fields on the allow-list when it is non-empty; the dirty fields not on the deny-list when the allow-list is empty. |
| `Approvable.Record.ChangedApprovableFields` | src/Approvable.php:149-174 | Returns exactly the approvable dirty fields, each with its old value (the original, or null) and its written value. Leaves the attributes with those fields reset to the original or removed, and every other attribute as written. |
| `Approvable.RevertRestoresOriginal` | src/Approvable.php:156-168 | For each recorded field: the new value is what was written; if the original is set, the field is back at the original and the old value is the original; otherwise the field is gone and the old value is null. Fields that were not recorded keep their written value. |
| `Approvable.SaveCommitsOnlyUnapprovable` | src/Approvable.php:154-171 | After the reset, the dirty fields left for the save are exactly the dirty fields that do not need approval, with the values the caller wrote. |
| `Approvable.SecondSaveDefersNothing` | src/Approvable.php:149-174 | Running the interception again on the reset attributes defers nothing: it is idempotent. |
| `Approvable.Record.PreSave` | src/Approvable.php:103-141 | Always returns true. With the bypass flag set, a user who may approve, or a record not yet stored, it changes neither the attributes nor the table. Otherwise it resets the approvable changes and appends exactly one pending row per change after the untouched old rows. Each row carries the morph type, the record key, the field, the old and new value, the actor and the time. |
| `Approvable.Record.ApprovalRows` | src/Approvable.php:121-133 | Builds exactly one pending row per recorded change, each field once. Each row carries this record's morph type and key, the field, the change's old and new value, the actor and the time, with no review stamp. |
| `Approvable.BatchCoversChanges` | src/Approvable.php:121-133 | A batch built for a set of changes governs exactly the changed fields, each in exactly one row. |
| `Approvable.ReplayBatchRestoresEdit` | src/Approvable.php:156-168 | Replaying the new value of every row of a batch onto the reset attributes, as repeated `accept` calls do, gives back exactly the attributes the caller wrote. Deferral loses no edit. |
| `Approvable.Record.Save` | src/Approvable.php:27-32 | The save fires preSave, is never aborted, and persists what is left: afterwards the record exists and the store holds its attributes. Attributes and table change only as preSave decides. |
| `Approvable.Record.constructor` | src/Approvable.php:13-20 | A record loaded from the store has its original equal to its attributes; a record not yet stored has an empty original. The bypass flag starts off. |
| `Approvable.Record.WithoutApproval` | src/Approvable.php:79-84 | Sets the bypass flag to the given value. |
| `Approvable.Record.WithApproval` | src/Approvable.php:91-96 | Clears the bypass flag. |
| `Approvable.Record.SetAttribute` | src/Approval.php:53 | Assigning a field changes that one attribute and nothing else. |
| `Approvable.Record.OwnRows` | src/Approvable.php:34-37 | The `approvals()` relation holds exactly the rows whose `approvable_type` is this record's morph class and whose `approvable_id` is its key. |
| `Approvable.Record.IsPendingApproval` | src/Approvable.php:46-55 | True iff the table has a row for this record's morph type and key with both stamps null, and, when a field is given, with that key. |
| `Approvable.Record.GetPendingApprovalAttributes` | src/Approvable.php:62-69 | A field is listed iff some open row of this record governs it. |
| `Approvable.Record.PendingAttributesAgree` | src/Approvable.php:46-69 | A field is listed as pending iff `IsPendingApproval` answers yes for that field. The record has something pending iff the list is non-empty. |
| `Approvable.Record.DeferredFieldsArePending` | src/Approvable.php:121-138 | Once a batch for some changes is appended to the table, every changed field of the record is pending. |
| `Approvals.ApprovalTable.Insert` | src/Approvable.php:135-138 | The batch insert appends the batch after the existing rows. |
| `Approvals.Where` | src/Approval.php:69-103 | A `where` keeps exactly the rows that satisfy the condition, each as many times as it occurs. |
| `Approvals.Open` | src/Approval.php:69-73 | Keeps exactly the rows with both `approved_at` and `rejected_at` null. |
| `Approvals.Rejected` | src/Approval.php:75-78 | Keeps exactly the rows whose `rejected_at` is set. |
| `Approvals.Accepted` | src/Approval.php:80-83 | Keeps exactly the rows whose `approved_at` is set. |
| `Approvals.OfClass` | src/Approval.php:85-88 | Keeps exactly the rows whose `approvable_type` is the argument. |
| `Approvals.OfId` | src/Approval.php:90-93 | Keeps exactly the rows whose `approvable_id` is the argument. |
| `Approvals.ByUser` | src/Approval.php:95-98 | Keeps exactly the rows whose `user_id` is the argument. |
| `Approvals.OfKey` | src/Approvable.php:49-51 | Keeps exactly the rows whose `key` is the argument. |
| `Approvals.Latest` | src/Approval.php:100-103 | Returns the same rows (as a multiset), ordered by `created_at` from newest to oldest. |
| `Approvals.InsertByCreated` | src/Approval.php:100-103 | Inserting one row into a newest-first list keeps it newest-first and adds exactly that row. |
| `Approvals.ScopesPartition` | src/Approval.php:69-83 | When no row carries both stamps, the sizes of the open, accepted and rejected scopes add up to the size of the table. |
| `Approvals.StampApproved` | src/Approval.php:57-59 | Accepting sets `approved_at` to now and `approved_by` to the actor. The rejection stamp is untouched, and nothing else changes but `updated_at`. |
| `Approvals.StampRejected` | src/Approval.php:62-66 | Rejecting sets `rejected_at` to now and `rejected_by` to the actor. The approval stamp is untouched, and nothing else changes but `updated_at`. |
| `Approvals.AcceptMovesOpenRow` | src/Approval.php:57-59 | Turning an open row into an accepted-only row moves it from the open scope to the accepted scope. The rejected scope keeps its size. |
| `Approvals.RejectMovesOpenRow` | src/Approval.php:64-66 | Turning an open row into a rejected-only row moves it from the open scope to the rejected scope. The accepted scope keeps its size. |
| `Approvals.WhereAfterUpdate` | src/Approval.php:69-83 | Replacing one row changes a filter's size by what the new row adds and the old row took away. |
| `Approvals.AcceptAfterRejectKeepsBothStamps` | src/Approval.php:43-67 | Nothing guards the transitions. A rejected row that is then accepted carries both stamps and sits in both the accepted and the rejected scope. |
| `ApprovalEntry.Approval.Load` | src/Approval.php:12-26 | An entry loaded from position `id` holds exactly the columns of that row. |
| `ApprovalEntry.Approval.Save` | src/Approval.php:59 | Saving the entry writes its columns back into its own row and touches `updated_at`. No other row changes. |
| `ApprovalEntry.Approval.Accept` | src/Approval.php:43-60 | Fails, changing nothing, only when there is no override record and the reference resolves to nothing. Otherwise the target (the override if given, else the owner) has field `key` set to `new_value` and stored, even though the target would otherwise intercept, and its bypass flag ends false. With an override, `approvable_id` becomes the override's id. The row gets the approval stamp, and `rejected_at` stays as it was. An open row leaves the open scope for the accepted scope. A distinct owner is untouched. |
| `ApprovalEntry.Approval.ReplayOnto` | src/Approval.php:52-55 | With approval switched off for the save, the target's field is set to the new value and stored. The table is untouched, and the flag ends off. |
| `ApprovalEntry.Approval.Reject` | src/Approval.php:62-67 | The row gets the rejection stamp, and `approved_at`/`approved_by` stay as they were. No record is touched. An open row leaves the open scope for the rejected scope. |
| `Scenarios.RetitledPost` | tests/ApprovalTest.php:62-64 | Retitling a stored "Cool Post" as a user who may not approve keeps "Cool Post" and appends one open row for `title` from "Cool Post" to "Bad Post". |
| `Scenarios.AcceptScenario` | tests/ApprovalTest.php:60-78 | The post keeps "Cool Post" after its save. Accepting the entry stores "Bad Post" and sets `approved_at` but not `rejected_at`. |
| `Scenarios.RejectScenario` | tests/ApprovalTest.php:80-95 | Rejecting the entry keeps "Cool Post" and sets `rejected_at` but not `approved_at`. |
| `Scenarios.ClassScenario` | tests/ApprovalTest.php:10-21 | After the save, the post's class scope returns every entry and another class's scope returns none. |
| `Scenarios.ApproverScenario` | src/Approvable.php:109-112 | When the user may approve, the edit is stored at once and no entry is created. |
| `Scenarios.ScopesOfOneRow` | tests/ApprovalTest.php:23-58 | A single open, accepted or rejected row is counted by exactly the matching scope. |

## Left out

- `scopeNewAndLinkedWith` (src/Approval.php:105-115) is not modelled. It filters on a `batch` column that preSave never writes. Approval of new records is explicitly unimplemented (src/Approvable.php:114-116).
- Eloquent event wiring and relations (`bootApprovable`, `morphMany`, `morphTo`) are not modelled as such. `Record.Save` stands for the saving event. The morph relation is the filter on `approvable_type`/`approvable_id`. The resolved owner is a parameter of `Accept`.
- The `Auth` facade and the `can('approve', …)` policy check are parameters (`canApprove`, `actor`).
- `DateTime` values are an abstract natural-number time supplied by the caller.
- PHP's loose `!=` and `in_array` comparisons, and Eloquent's attribute casts, are not modelled. Values compare with plain equality.
- `isset($this->approveOf)` on a list that is not an array is not modelled. Both lists are always sequences of field names.
- `Approvable.Record.PreSave`: the order of rows within one batch follows the attribute order in PHP. The model leaves that order unspecified and only promises one row per change.
- `Approvable.Record.GetPendingApprovalAttributes`: returns a set of field names rather than an ordered collection.
- `Approvable.Record.WithoutApproval`, `Approvable.Record.WithApproval`: the returned `$this` for chaining is not modelled.
- `Approvable.Record.Save`: assigning an id to a newly inserted record is not modelled. The id is fixed when the record is built and never changes.
- `ApprovalEntry.Approval.Accept`: an override record that is not yet stored has a null `id` in PHP, so `accept` writes `approvable_id = null` (src/Approval.php:47). The model gives every record an integer id and writes `Some(id)` there.
- `ApprovalEntry.Approval.Save`: Eloquent touches `updated_at` only when something changed. The model always sets it, which is what happens in `accept` and `reject`, since both always write a new timestamp.
- `ApprovalEntry.Approval.Save`: Eloquent's update writes only the changed columns, while the model writes the entry's whole row. The two agree only while the entry matches its row, which `Accept` and `Reject` require (`Synced`). With two in-memory copies of one row, PHP keeps both stamps, while a whole-row write would lose one.
- Concurrency (two reviewers racing on one row) is not modelled, and neither is the non-atomicity of the two writes in `accept`.
