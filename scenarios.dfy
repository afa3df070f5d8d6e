/** The package's own scenarios, restated as methods whose postconditions
    the verifier proves from the contracts of the model: a post titled
    "Cool Post" is retitled by a user who may not approve. */
module Scenarios {
  import opened Values
  import opened Approvals
  import opened Approvable
  import opened ApprovalEntry

  const CoolPost := Str("Cool Post")
  const BadPost := Str("Bad Post")

  /** A stored post with no allow- or deny-list, retitled and saved by a
      user who may not approve. */
  method RetitledPost(table: ApprovalTable) returns (post: Record)
    requires table.rows == []
    modifies table
    ensures fresh(post) && post.morphClass == "PostCannotBeApproved" && post.id == 1
    ensures post.attributes == map["title" := CoolPost] && post.original == post.attributes
    ensures table.rows == [PendingRow("PostCannotBeApproved", 1, "title", Change(CoolPost, BadPost), None, 1)]
  {
    post := new Record("PostCannotBeApproved", [], [], 1, true, map["title" := CoolPost]);
    post.SetAttribute("title", BadPost);
    var changes := ApprovableChanges(post.attributes, post.original, [], []);
    assert Dirty(post.attributes, post.original) == map["title" := BadPost];
    assert changes == map["title" := Change(CoolPost, BadPost)];
    var _ := post.Save(false, None, 1, table);
    assert post.attributes == map["title" := CoolPost];
    assert |table.rows| == 1 && table.rows[0].key in changes;
  }

  /** Saving keeps the title and leaves one open entry; accepting it (the
      store hands over a fresh copy of the post) commits "Bad Post" and
      stamps only the approval. */
  method AcceptScenario() returns (keptTitle: Value, storedTitle: Value, approved: bool, rejected: bool)
    ensures keptTitle == CoolPost && storedTitle == BadPost
    ensures approved && !rejected
  {
    var table := new ApprovalTable();
    var post := RetitledPost(table);
    keptTitle := post.attributes["title"];
    assert post.IsPendingApproval(table.rows, Some("title"));
    var entry := new Approval.Load(table, 0);
    var stored := new Record("PostCannotBeApproved", [], [], 1, true, post.original);
    var ok := entry.Accept(null, stored, Some(7), 2, table);
    storedTitle := stored.original["title"];
    approved := table.rows[0].approvedAt.Some?;
    rejected := table.rows[0].rejectedAt.Some?;
  }

  /** Rejecting instead keeps "Cool Post" and stamps only the rejection. */
  method RejectScenario() returns (storedTitle: Value, approved: bool, rejected: bool)
    ensures storedTitle == CoolPost
    ensures !approved && rejected
  {
    var table := new ApprovalTable();
    var post := RetitledPost(table);
    var entry := new Approval.Load(table, 0);
    entry.Reject(Some(7), 2, table);
    storedTitle := post.original["title"];
    approved := table.rows[0].approvedAt.Some?;
    rejected := table.rows[0].rejectedAt.Some?;
  }

  /** The entries of one post are all of its class and none of another. */
  method ClassScenario() returns (ofPost: seq<ApprovalRow>, ofOther: seq<ApprovalRow>, all: seq<ApprovalRow>)
    ensures ofPost == all && ofOther == [] && |all| == 1
  {
    var table := new ApprovalTable();
    var post := RetitledPost(table);
    all := table.rows;
    ofPost := OfClass(all, "PostCannotBeApproved");
    ofOther := OfClass(all, "PostCanBeApproved");
  }

  /** A user who may approve edits commits them at once and creates no entry. */
  method ApproverScenario() returns (storedTitle: Value, entries: nat)
    ensures storedTitle == BadPost && entries == 0
  {
    var table := new ApprovalTable();
    var post := new Record("Post", [], [], 1, true, map["title" := CoolPost]);
    post.SetAttribute("title", BadPost);
    var _ := post.Save(true, Some(7), 1, table);
    storedTitle := post.original["title"];
    entries := |table.rows|;
  }

  /** One row in each of the three states and what the scopes return for it. */
  lemma ScopesOfOneRow(x: ApprovalRow)
    ensures IsOpen(x) ==> |Open([x])| == 1 && |Accepted([x])| == 0 && |Rejected([x])| == 0
    ensures x.approvedAt.Some? && x.rejectedAt.None? ==>
              |Open([x])| == 0 && |Accepted([x])| == 1 && |Rejected([x])| == 0
    ensures x.approvedAt.None? && x.rejectedAt.Some? ==>
              |Open([x])| == 0 && |Accepted([x])| == 0 && |Rejected([x])| == 1
  {
  }
}
