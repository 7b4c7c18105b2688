/**
 * Comments recorded alongside commits to an identifier's file.  Saving a
 * comment is modelled as appending it to the log of saved comments.
 */
module Comments {
  import opened Common
  import opened Text

  datatype Comment = Comment(gitHash: string, userId: nat, identifierId: nat, publicationId: nat,
                             text: string, reason: string)

  /**
   * The comment an edit records: one with reason "commit", when the
   * submitted comment is present and not only whitespace; nothing otherwise.
   */
  function CommitComment(comment: Option<string>, gitHash: string, userId: nat, identifierId: nat,
                         publicationId: nat): (r: Option<Comment>)
    ensures r.None? <==> comment.None? || !HasContent(comment.value)
    ensures r.Some? ==> r.value == Comment(gitHash, userId, identifierId, publicationId, comment.value, "commit")
  {
    assert comment.Some? ==> (Strip(comment.value) != "" <==> HasContent(comment.value)) by {
      if comment.Some? { StripEmptyIffBlank(comment.value); }
    }
    if comment.Some? && Strip(comment.value) != "" then
      Some(Comment(gitHash, userId, identifierId, publicationId, comment.value, "commit"))
    else
      None
  }

  /** The comments table: `save` adds one row at the end. */
  class CommentLog {
    var comments: seq<Comment>

    constructor ()
      ensures comments == []
    {
      comments := [];
    }

    method Save(c: Comment)
      modifies this
      ensures comments == old(comments) + [c]
    {
      comments := comments + [c];
    }

    /** Saves the comment of an edit, if it records one. */
    method SaveCommitComment(comment: Option<string>, gitHash: string, userId: nat, identifierId: nat,
                             publicationId: nat)
      modifies this
      ensures var c := CommitComment(comment, gitHash, userId, identifierId, publicationId);
              comments == old(comments) + (if c.Some? then [c.value] else [])
    {
      var c := CommitComment(comment, gitHash, userId, identifierId, publicationId);
      if c.Some? {
        Save(c.value);
      }
    }
  }
}
