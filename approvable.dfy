/** The approvable-record mixin: which dirty fields of a write need approval,
    how they are reverted on the record and rerouted into pending rows of the
    approvals table, and the queries for what is still pending. */
module Approvable {
  import opened Values
  import opened Approvals

  /** One deferred field change: the value before (null when the field was
      unset) and the value the caller wrote. */
  datatype Change = Change(oldValue: Value, newValue: Value)

  /** The approveOf / dontApproveOf rule for one field: the allow-list wins,
      then the deny-list, and a field on neither list needs approval exactly
      when there is no allow-list. */
  function IsApprovable(approveOf: seq<string>, dontApproveOf: seq<string>, key: string): (r: bool)
    ensures r <==> key in approveOf || (approveOf == [] && key !in dontApproveOf)
  {
    if key in approveOf then true
    else if key in dontApproveOf then false
    else approveOf == []
  }

  /** The store's dirty-field detection: attributes that are new or differ
      from the value loaded from the store. */
  function Dirty(attributes: map<string, Value>, original: map<string, Value>): map<string, Value>
  {
    map k | k in attributes && (k !in original || original[k] != attributes[k]) :: attributes[k]
  }

  /** The recorded old value: the original, or null when it is not set. */
  function OldValue(original: map<string, Value>, key: string): Value
  {
    if Isset(original, key) then original[key] else Null
  }

  /** The changes a write defers for approval: every dirty field the lists
      make approvable, with its old and its new value. */
  function ApprovableChanges(attributes: map<string, Value>, original: map<string, Value>,
                             approveOf: seq<string>, dontApproveOf: seq<string>): map<string, Change>
  {
    map k | k in Dirty(attributes, original) && IsApprovable(approveOf, dontApproveOf, k)
      :: Change(OldValue(original, k), attributes[k])
  }

  /** The attributes once the fields in `keys` are reset: back to their
      original value, or removed when they had none. */
  function RevertChanges(attributes: map<string, Value>, original: map<string, Value>,
                         keys: set<string>): map<string, Value>
  {
    map k | k in attributes.Keys + keys && (k !in keys || Isset(original, k))
      :: if k in keys then original[k] else attributes[k]
  }

  /** The row preSave writes for one deferred change. */
  function PendingRow(morphType: string, id: int, key: string, change: Change,
                      actor: Option<UserId>, now: Time): ApprovalRow
  {
    ApprovalRow(morphType, Some(id), key, change.oldValue, change.newValue, actor,
                now, now, None, None, None, None)
  }

  /** `batch` is one pending row per change, each field once. */
  ghost predicate IsBatchFor(batch: seq<ApprovalRow>, changes: map<string, Change>,
                             morphType: string, id: int, actor: Option<UserId>, now: Time)
  {
    && |batch| == |changes|
    && (forall i :: 0 <= i < |batch| ==>
          batch[i].key in changes
          && batch[i] == PendingRow(morphType, id, batch[i].key, changes[batch[i].key], actor, now))
    && (forall i, j :: 0 <= i < j < |batch| ==> batch[i].key != batch[j].key)
  }

  /** The fields a sequence of rows governs. */
  function RowKeys(rows: seq<ApprovalRow>): set<string>
  {
    set x | x in rows :: x.key
  }

  /** Accepting rows one after the other: each writes its new value into its field. */
  function Replay(attributes: map<string, Value>, rows: seq<ApprovalRow>): map<string, Value>
    decreases |rows|
  {
    if rows == [] then attributes
    else Replay(attributes[rows[0].key := rows[0].newValue], rows[1..])
  }

  /** Which fields are deferred, for the three ways of filling the lists. */
  lemma DeferredFieldsFollowLists(attributes: map<string, Value>, original: map<string, Value>,
                                  approveOf: seq<string>, dontApproveOf: seq<string>)
    ensures var deferred := ApprovableChanges(attributes, original, approveOf, dontApproveOf).Keys;
            var dirty := Dirty(attributes, original).Keys;
            && (approveOf == [] && dontApproveOf == [] ==> deferred == dirty)
            && (approveOf != [] ==> deferred == set k | k in dirty && k in approveOf)
            && (approveOf == [] ==> deferred == set k | k in dirty && k !in dontApproveOf)
  {
  }

  /** What the revert leaves behind: each deferred field is back at its
      original value or gone, its change records the original (or null) and
      the written value, and every other field keeps what was written. */
  lemma RevertRestoresOriginal(attributes: map<string, Value>, original: map<string, Value>,
                               approveOf: seq<string>, dontApproveOf: seq<string>)
    ensures var changes := ApprovableChanges(attributes, original, approveOf, dontApproveOf);
            var reverted := RevertChanges(attributes, original, changes.Keys);
            && (forall k :: k in changes ==>
                  && k in attributes
                  && changes[k].newValue == attributes[k]
                  && (Isset(original, k) ==> k in reverted && reverted[k] == original[k]
                                             && changes[k].oldValue == original[k])
                  && (!Isset(original, k) ==> k !in reverted && changes[k].oldValue == Null))
            && (forall k :: k in attributes && k !in changes ==> k in reverted && reverted[k] == attributes[k])
  {
  }

  /** After the revert, the save commits exactly the dirty fields that do not
      need approval, with the values the caller wrote. */
  lemma SaveCommitsOnlyUnapprovable(attributes: map<string, Value>, original: map<string, Value>,
                                      approveOf: seq<string>, dontApproveOf: seq<string>)
    ensures var changes := ApprovableChanges(attributes, original, approveOf, dontApproveOf);
            Dirty(RevertChanges(attributes, original, changes.Keys), original)
              == map k | k in Dirty(attributes, original) && !IsApprovable(approveOf, dontApproveOf, k) :: attributes[k]
  {
    var changes := ApprovableChanges(attributes, original, approveOf, dontApproveOf);
    var reverted := RevertChanges(attributes, original, changes.Keys);
    var left := Dirty(reverted, original);
    var expected := map k | k in Dirty(attributes, original) && !IsApprovable(approveOf, dontApproveOf, k) :: attributes[k];
    forall k | k in left ensures k in expected && left[k] == expected[k] {
      assert k !in changes;
    }
    forall k | k in expected ensures k in left {
      assert k !in changes;
    }
  }

  /** Saving again right after a save defers nothing more: preSave is idempotent. */
  lemma SecondSaveDefersNothing(attributes: map<string, Value>, original: map<string, Value>,
                                approveOf: seq<string>, dontApproveOf: seq<string>)
    ensures var changes := ApprovableChanges(attributes, original, approveOf, dontApproveOf);
            ApprovableChanges(RevertChanges(attributes, original, changes.Keys), original,
                              approveOf, dontApproveOf) == map[]
  {
    SaveCommitsOnlyUnapprovable(attributes, original, approveOf, dontApproveOf);
  }

  lemma {:induction false} DistinctKeysCount(rows: seq<ApprovalRow>)
    requires forall i, j :: 0 <= i < j < |rows| ==> rows[i].key != rows[j].key
    ensures |RowKeys(rows)| == |rows|
  {
    if rows != [] {
      DistinctKeysCount(rows[1..]);
      assert RowKeys(rows) == {rows[0].key} + RowKeys(rows[1..]);
      assert rows[0].key !in RowKeys(rows[1..]);
    }
  }

  /** A batch governs exactly the fields of its changes, each in one row. */
  lemma BatchCoversChanges(batch: seq<ApprovalRow>, changes: map<string, Change>,
                           morphType: string, id: int, actor: Option<UserId>, now: Time)
    requires IsBatchFor(batch, changes, morphType, id, actor, now)
    ensures RowKeys(batch) == changes.Keys
    ensures forall k :: k in changes ==> exists i :: 0 <= i < |batch| && batch[i].key == k
  {
    DistinctKeysCount(batch);
    var keys := RowKeys(batch);
    assert keys <= changes.Keys;
    assert |changes.Keys - keys| == |changes.Keys| - |keys|;
    assert changes.Keys - keys == {};
    forall k | k in changes ensures exists i :: 0 <= i < |batch| && batch[i].key == k {
      assert k in keys;
      var x :| x in batch && x.key == k;
      var i :| 0 <= i < |batch| && batch[i] == x;
    }
  }

  lemma WriteOneThenMore(m: map<string, Value>, key: string, keys: set<string>, written: map<string, Value>)
    requires key in written && keys <= written.Keys
    ensures m[key := written[key]] + (map k | k in keys :: written[k])
         == m + map k | k in {key} + keys :: written[k]
  {
  }

  lemma {:induction false} ReplayWritesValues(m: map<string, Value>, rows: seq<ApprovalRow>, written: map<string, Value>)
    requires forall x :: x in rows ==> x.key in written && x.newValue == written[x.key]
    ensures Replay(m, rows) == m + map k | k in RowKeys(rows) :: written[k]
    decreases |rows|
  {
    if rows != [] {
      var x := rows[0];
      ReplayWritesValues(m[x.key := x.newValue], rows[1..], written);
      assert RowKeys(rows) == {x.key} + RowKeys(rows[1..]);
      WriteOneThenMore(m, x.key, RowKeys(rows[1..]), written);
    }
  }

  /** Writing the reverted fields back with the values the caller wrote
      gives the attributes the caller wrote. */
  lemma WriteBackUndoesRevert(attributes: map<string, Value>, original: map<string, Value>, keys: set<string>)
    requires keys <= attributes.Keys
    ensures RevertChanges(attributes, original, keys) + (map k | k in keys :: attributes[k]) == attributes
  {
  }

  /** Every row of a batch carries, as its new value, what the caller wrote
      into its field. */
  lemma BatchCarriesWrittenValues(attributes: map<string, Value>, original: map<string, Value>,
                                  approveOf: seq<string>, dontApproveOf: seq<string>,
                                  batch: seq<ApprovalRow>, morphType: string, id: int,
                                  actor: Option<UserId>, now: Time)
    requires IsBatchFor(batch, ApprovableChanges(attributes, original, approveOf, dontApproveOf),
                        morphType, id, actor, now)
    ensures forall x :: x in batch ==> x.key in attributes && x.newValue == attributes[x.key]
  {
    var changes := ApprovableChanges(attributes, original, approveOf, dontApproveOf);
    forall x | x in batch ensures x.key in attributes && x.newValue == attributes[x.key] {
      var i :| 0 <= i < |batch| && batch[i] == x;
      assert x.key in changes && x.newValue == changes[x.key].newValue;
    }
  }

  /** Accepting every row of the batch a save produced, one after the other,
      puts back exactly what the caller wrote: deferral loses no edit. */
  lemma ReplayBatchRestoresEdit(attributes: map<string, Value>, original: map<string, Value>,
                                approveOf: seq<string>, dontApproveOf: seq<string>,
                                batch: seq<ApprovalRow>, morphType: string, id: int,
                                actor: Option<UserId>, now: Time)
    requires IsBatchFor(batch, ApprovableChanges(attributes, original, approveOf, dontApproveOf),
                        morphType, id, actor, now)
    ensures Replay(RevertChanges(attributes, original,
                                 ApprovableChanges(attributes, original, approveOf, dontApproveOf).Keys),
                   batch) == attributes
  {
    var changes := ApprovableChanges(attributes, original, approveOf, dontApproveOf);
    var reverted := RevertChanges(attributes, original, changes.Keys);
    BatchCoversChanges(batch, changes, morphType, id, actor, now);
    BatchCarriesWrittenValues(attributes, original, approveOf, dontApproveOf, batch, morphType, id, actor, now);
    ReplayWritesValues(reverted, batch, attributes);
    WriteBackUndoesRevert(attributes, original, changes.Keys);
  }

  /** The changes among a set of fields. */
  function Restrict(changes: map<string, Change>, keys: set<string>): map<string, Change>
  {
    map k | k in changes && k in keys :: changes[k]
  }

  lemma RestrictOneMore(changes: map<string, Change>, keys: set<string>, key: string)
    ensures Restrict(changes, keys + {key})
         == if key in changes then Restrict(changes, keys)[key := changes[key]] else Restrict(changes, keys)
  {
  }

  /** Resetting one more field extends the revert by that field. */
  lemma RevertOneMore(written: map<string, Value>, original: map<string, Value>, keys: set<string>, key: string)
    requires key in written && key !in keys
    ensures var before := RevertChanges(written, original, keys);
            (if Isset(original, key) then before[key := original[key]] else before - {key})
              == RevertChanges(written, original, keys + {key})
  {
  }

  /** A record that uses the mixin. `original` is what the store holds;
      `attributes` is what the caller has written. The primary key is fixed
      for the record's lifetime. */
  class Record {
    const morphClass: string
    const approveOf: seq<string>
    const dontApproveOf: seq<string>
    const id: int
    var existsInStore: bool
    var attributes: map<string, Value>
    var original: map<string, Value>
    var withoutApproval: bool

    constructor (morphClass: string, approveOf: seq<string>, dontApproveOf: seq<string>,
                 id: int, existsInStore: bool, attributes: map<string, Value>)
      ensures this.morphClass == morphClass && this.approveOf == approveOf
      ensures this.dontApproveOf == dontApproveOf && this.id == id
      ensures this.existsInStore == existsInStore
      ensures this.attributes == attributes
      ensures this.original == if existsInStore then attributes else map[]
      ensures !withoutApproval
    {
      this.morphClass := morphClass;
      this.approveOf := approveOf;
      this.dontApproveOf := dontApproveOf;
      this.id := id;
      this.existsInStore := existsInStore;
      this.attributes := attributes;
      // A loaded record starts in sync with the store; a new one has no original.
      this.original := if existsInStore then attributes else map[];
      this.withoutApproval := false;
    }

    /** Switches the bypass flag (on by default). */
    method WithoutApproval(flag: bool)
      modifies this`withoutApproval
      ensures withoutApproval == flag
    {
      withoutApproval := flag;
    }

    /** Clears the bypass flag. */
    method WithApproval()
      modifies this`withoutApproval
      ensures !withoutApproval
    {
      withoutApproval := false;
    }

    /** Assigning a field on the record. */
    method SetAttribute(key: string, value: Value)
      modifies this`attributes
      ensures attributes == old(attributes)[key := value]
    {
      attributes := attributes[key := value];
    }

    /** The three gates of preSave all let the write be intercepted. */
    predicate Intercepts(canApprove: bool)
      reads this
    {
      !withoutApproval && !canApprove && existsInStore
    }

    /** Collects the approvable dirty fields and resets each on the record. */
    method ChangedApprovableFields() returns (changes: map<string, Change>)
      modifies this`attributes
      ensures changes == ApprovableChanges(old(attributes), original, approveOf, dontApproveOf)
      ensures attributes == RevertChanges(old(attributes), original, changes.Keys)
    {
      ghost var written := attributes;
      ghost var wanted := ApprovableChanges(written, original, approveOf, dontApproveOf);
      var dirty := Dirty(attributes, original);
      changes := map[];
      var todo := dirty.Keys;
      ghost var done: set<string> := {};
      while todo != {}
        invariant todo <= dirty.Keys && done == dirty.Keys - todo
        invariant changes == Restrict(wanted, done)
        invariant attributes == RevertChanges(written, original, changes.Keys)
        decreases todo
      {
        var key :| key in todo;
        var value := dirty[key];
        assert key !in changes.Keys && key in written;
        assert attributes[key] == value;
        RestrictOneMore(wanted, done, key);
        if IsApprovable(approveOf, dontApproveOf, key) {
          assert key in wanted && wanted[key] == Change(OldValue(original, key), value);
          if !Isset(original, key) || original[key] != attributes[key] {
            ghost var recorded := changes.Keys;
            RevertOneMore(written, original, recorded, key);
            changes := changes[key := Change(OldValue(original, key), value)];
            if !Isset(original, key) {
              attributes := attributes - {key};
            } else {
              attributes := attributes[key := original[key]];
            }
            assert changes.Keys == recorded + {key};
          }
        } else {
          assert key !in wanted;
        }
        todo := todo - {key};
        done := done + {key};
      }
    }

    /** The saving hook. It never blocks the save. */
    method PreSave(canApprove: bool, actor: Option<UserId>, now: Time, table: ApprovalTable)
      returns (proceed: bool)
      modifies this`attributes, table
      ensures proceed
      ensures !old(Intercepts(canApprove)) ==>
                attributes == old(attributes) && table.rows == old(table.rows)
      ensures old(Intercepts(canApprove)) ==>
                var changes := ApprovableChanges(old(attributes), original, approveOf, dontApproveOf);
                && attributes == RevertChanges(old(attributes), original, changes.Keys)
                && |table.rows| == |old(table.rows)| + |changes|
                && table.rows[..|old(table.rows)|] == old(table.rows)
                && IsBatchFor(table.rows[|old(table.rows)|..], changes, morphClass, id, actor, now)
    {
      if withoutApproval {
        return true;
      }
      if canApprove {
        return true;
      }
      if !existsInStore {
        return true;
      }
      var changesToRecord := ChangedApprovableFields();
      var approvals := ApprovalRows(changesToRecord, actor, now);
      if |approvals| > 0 {
        table.Insert(approvals);
      }
      assert table.rows[|old(table.rows)|..] == approvals;
      return true;
    }

    /** Builds the rows preSave inserts: one pending row per change. */
    method ApprovalRows(changesToRecord: map<string, Change>, actor: Option<UserId>, now: Time)
      returns (approvals: seq<ApprovalRow>)
      ensures IsBatchFor(approvals, changesToRecord, morphClass, id, actor, now)
    {
      approvals := [];
      var todo := changesToRecord.Keys;
      while todo != {}
        invariant todo <= changesToRecord.Keys
        invariant |approvals| + |todo| == |changesToRecord|
        invariant forall i :: 0 <= i < |approvals| ==>
                    && approvals[i].key in changesToRecord && approvals[i].key !in todo
                    && approvals[i] == PendingRow(morphClass, id, approvals[i].key,
                                                  changesToRecord[approvals[i].key], actor, now)
        invariant forall i, j :: 0 <= i < j < |approvals| ==> approvals[i].key != approvals[j].key
        decreases todo
      {
        var key :| key in todo;
        approvals := approvals + [PendingRow(morphClass, id, key, changesToRecord[key], actor, now)];
        todo := todo - {key};
      }
    }

    /** The store's save: fires preSave, then persists what the record holds. */
    method Save(canApprove: bool, actor: Option<UserId>, now: Time, table: ApprovalTable)
      returns (saved: bool)
      modifies this`attributes, this`original, this`existsInStore, table
      ensures saved && existsInStore && original == attributes
      ensures !old(Intercepts(canApprove)) ==>
                attributes == old(attributes) && table.rows == old(table.rows)
      ensures old(Intercepts(canApprove)) ==>
                var changes := ApprovableChanges(old(attributes), old(original), approveOf, dontApproveOf);
                && attributes == RevertChanges(old(attributes), old(original), changes.Keys)
                && |table.rows| == |old(table.rows)| + |changes|
                && table.rows[..|old(table.rows)|] == old(table.rows)
                && IsBatchFor(table.rows[|old(table.rows)|..], changes, morphClass, id, actor, now)
    {
      saved := PreSave(canApprove, actor, now, table);
      if saved {
        original := attributes;
        existsInStore := true;
      }
    }

    /** The `approvals()` relation: the rows whose polymorphic reference
        points at this record. */
    function OwnRows(rows: seq<ApprovalRow>): (r: seq<ApprovalRow>)
      reads this
      ensures forall x :: x in r <==> x in rows && x.approvableType == morphClass && x.approvableId == Some(id)
    {
      OfId(OfClass(rows, morphClass), Some(id))
    }

    /** Whether this record has an open row, for `attribute` when one is given. */
    function IsPendingApproval(rows: seq<ApprovalRow>, attribute: Option<string>): (r: bool)
      reads this
      ensures r <==> exists x :: x in rows && x.approvableType == morphClass && x.approvableId == Some(id)
                                 && IsOpen(x) && (attribute.None? || x.key == attribute.value)
    {
      var own := OwnRows(rows);
      var asked := if attribute.Some? then OfKey(own, attribute.value) else own;
      var open := Open(asked);
      assert |open| > 0 ==> open[0] in open;
      |open| > 0
    }

    /** The distinct fields with an open row for this record. */
    function GetPendingApprovalAttributes(rows: seq<ApprovalRow>): (r: set<string>)
      reads this
      ensures forall k :: k in r <==> exists x :: x in rows && x.approvableType == morphClass
                                                && x.approvableId == Some(id) && IsOpen(x) && x.key == k
    {
      RowKeys(Open(OwnRows(rows)))
    }

    /** The two queries agree: a field is listed as pending exactly when
        asking about that field answers yes. */
    lemma PendingAttributesAgree(rows: seq<ApprovalRow>)
      ensures forall k :: k in GetPendingApprovalAttributes(rows) <==> IsPendingApproval(rows, Some(k))
      ensures IsPendingApproval(rows, None) <==> GetPendingApprovalAttributes(rows) != {}
    {
      var pending := GetPendingApprovalAttributes(rows);
      forall k ensures k in pending <==> IsPendingApproval(rows, Some(k)) {
        if IsPendingApproval(rows, Some(k)) {
          var x :| x in rows && x.approvableType == morphClass && x.approvableId == Some(id)
                   && IsOpen(x) && x.key == k;
          assert x.key in pending;
        }
        if k in pending {
          var x :| x in rows && x.approvableType == morphClass && x.approvableId == Some(id)
                   && IsOpen(x) && x.key == k;
          assert IsPendingApproval(rows, Some(k));
        }
      }
      if IsPendingApproval(rows, None) {
        var x :| x in rows && x.approvableType == morphClass && x.approvableId == Some(id) && IsOpen(x);
        assert x.key in pending;
      }
    }

    /** An open row of this record makes its field pending. */
    lemma OpenRowIsPending(rows: seq<ApprovalRow>, x: ApprovalRow)
      requires x in rows && x.approvableType == morphClass && x.approvableId == Some(id) && IsOpen(x)
      ensures IsPendingApproval(rows, Some(x.key)) && x.key in GetPendingApprovalAttributes(rows)
    {
    }

    /** After an intercepted save, every deferred field of this record is pending. */
    lemma DeferredFieldsArePending(before: seq<ApprovalRow>, batch: seq<ApprovalRow>,
                                   changes: map<string, Change>, actor: Option<UserId>, now: Time)
      requires IsBatchFor(batch, changes, morphClass, id, actor, now)
      ensures forall k :: k in changes ==> IsPendingApproval(before + batch, Some(k))
      ensures GetPendingApprovalAttributes(before + batch) >= changes.Keys
    {
      BatchCoversChanges(batch, changes, morphClass, id, actor, now);
      var rows := before + batch;
      forall k | k in changes ensures IsPendingApproval(rows, Some(k)) && k in GetPendingApprovalAttributes(rows) {
        var i :| 0 <= i < |batch| && batch[i].key == k;
        assert batch[i] in rows;
        OpenRowIsPending(rows, batch[i]);
      }
    }
  }
}
