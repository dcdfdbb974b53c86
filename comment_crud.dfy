/**
 * backend/crud/comments.py: create, list and delete comments in the
 * `comments` collection, given here as a Table the callers pass in.
 */
module CommentCrud {
  import opened Outcomes
  import opened ObjectIds
  import opened Tables
  import opened CommentModels

  /** `comment.model_dump(by_alias=True, exclude_none=True)` of a comment without an id. */
  function DumpComment(c: Comment): CommentDoc
  {
    CommentDoc(c.ideaId, c.content, c.userId, c.createdAt)
  }

  /**
   * `Comment.validate(doc)` for a stored comment. Comment is not defined in
   * backend/models/comment.py; the model assumes it converts `_id` to a
   * string as Idea's PyObjectId does.
   */
  function ReadComment(id: ObjectId, d: CommentDoc): Comment
  {
    Comment(Some(ToString(id)), d.ideaId, d.content, d.userId, d.createdAt)
  }

  /** The filter `find(query)` applies: every supplied field equal to the stored one. */
  predicate CommentMatches(f: CommentFilter, d: CommentDoc)
  {
    && (f.ideaId.Some? ==> d.ideaId == f.ideaId.value)
    && (f.userId.Some? ==> d.userId == f.userId)
  }

  function CommentQuery(f: CommentFilter): CommentDoc -> bool
  {
    (d: CommentDoc) => CommentMatches(f, d)
  }

  /**
   * create_comment: the comment's `user_id` becomes the creator's id, the
   * non-None fields are stored under a new id, and the stored fields are
   * returned together with that id as a string.
   */
  method CreateComment(comments: Table<CommentDoc>, userId: string, comment: Comment, newId: ObjectId)
    returns (created: Comment)
    requires comments.Valid() && comment.id.None? && newId !in comments.docs
    modifies comments
    ensures comments.Valid()
    ensures comments.docs == old(comments.docs)[newId := CommentDoc(comment.ideaId, comment.content, Some(userId), comment.createdAt)]
    ensures comments.order == old(comments.order) + [newId]
    ensures created == comment.(id := Some(ToString(newId)), userId := Some(userId))
    ensures created == ReadComment(newId, comments.docs[newId])
  {
    var owned := comment.(userId := Some(userId));
    var doc := DumpComment(owned);
    comments.InsertOne(newId, doc);
    created := Comment(Some(ToString(newId)), doc.ideaId, doc.content, doc.userId, doc.createdAt);
  }

  /**
   * create_comment never sets `created_at`, so a comment created from one
   * without it never reads back as a CommentInDB.
   */
  lemma CreatedCommentIsNotInDB(userId: string, comment: Comment, newId: ObjectId)
    requires comment.createdAt.None?
    ensures ToCommentInDB(comment.(id := Some(ToString(newId)), userId := Some(userId))).None?
  {
  }

  /** get_comments: None for an empty filter; otherwise every matching comment, in natural order. */
  method GetComments(comments: Table<CommentDoc>, filters: CommentFilter) returns (r: Option<seq<Comment>>)
    requires comments.Valid()
    ensures filters.ideaId.None? && filters.userId.None? ==> r == None
    ensures filters.ideaId.Some? || filters.userId.Some? ==>
              var cursor := comments.Find(CommentQuery(filters));
              && r.Some? && |r.value| == |cursor|
              && forall i :: 0 <= i < |cursor| ==> r.value[i] == ReadComment(cursor[i].id, cursor[i].doc)
    ensures r.Some? ==> forall id :: id in comments.docs && CommentMatches(filters, comments.docs[id]) ==>
                          ReadComment(id, comments.docs[id]) in r.value
  {
    if filters.ideaId.None? && filters.userId.None? {
      return None;
    }
    var cursor := comments.Find(CommentQuery(filters));
    var result: seq<Comment> := [];
    var i := 0;
    while i < |cursor|
      invariant 0 <= i <= |cursor| && |result| == i
      invariant forall j :: 0 <= j < i ==> result[j] == ReadComment(cursor[j].id, cursor[j].doc)
    {
      result := result + [ReadComment(cursor[i].id, cursor[i].doc)];
      i := i + 1;
    }
    MatchesAreRead(comments, filters, result);
    r := Some(result);
  }

  /** A list that reads every row of the cursor in order holds every matching comment. */
  lemma MatchesAreRead(comments: Table<CommentDoc>, filters: CommentFilter, result: seq<Comment>)
    requires comments.Valid()
    requires var cursor := comments.Find(CommentQuery(filters));
             |result| == |cursor| && forall i :: 0 <= i < |cursor| ==> result[i] == ReadComment(cursor[i].id, cursor[i].doc)
    ensures forall id :: id in comments.docs && CommentMatches(filters, comments.docs[id]) ==>
              ReadComment(id, comments.docs[id]) in result
  {
    var cursor := comments.Find(CommentQuery(filters));
    forall id | id in comments.docs && CommentMatches(filters, comments.docs[id])
      ensures ReadComment(id, comments.docs[id]) in result
    {
      assert CommentQuery(filters)(comments.docs[id]);
      var k :| 0 <= k < |cursor| && cursor[k] == Row(id, comments.docs[id]);
      assert result[k] == ReadComment(id, comments.docs[id]);
    }
  }

  /** The rest of delete_comment's filter: the stored `user_id` is the caller's. */
  function OwnedBy(userId: string): CommentDoc -> bool
  {
    (d: CommentDoc) => d.userId == Some(userId)
  }

  /**
   * delete_comment as evidently intended, on the `comments` collection:
   * `ObjectId(comment_id)` raises InvalidId for a malformed id; otherwise the
   * comment is removed exactly when both its id and its `user_id` match, and
   * every other comment is left as it was.
   */
  method DeleteComment(comments: Table<CommentDoc>, commentId: string, userId: string) returns (r: Result<bool>)
    requires comments.Valid()
    modifies comments
    ensures comments.Valid()
    ensures !IsValid(commentId) ==>
              r == Err(InvalidId) && comments.docs == old(comments.docs) && comments.order == old(comments.order)
    ensures IsValid(commentId) ==>
              var id := Parse(commentId).value;
              var owned := id in old(comments.docs) && old(comments.docs)[id].userId == Some(userId);
              && r == Ok(owned)
              && comments.docs == (if owned then old(comments.docs) - {id} else old(comments.docs))
              && comments.order == (if owned then Without(old(comments.order), id) else old(comments.order))
  {
    var parsed := Parse(commentId);
    if parsed.None? {
      return Err(InvalidId);
    }
    var count := comments.DeleteOne(parsed.value, OwnedBy(userId));
    r := Ok(count == 1);
  }

  /**
   * delete_comment as written: `comments.collection` is the sub-collection
   * named "comments.collection", not `comments`, and nothing in the
   * repository writes to it. The delete runs against that empty collection,
   * so it never removes a comment, whatever the id and owner.
   */
  method DeleteCommentAsWritten(comments: Table<CommentDoc>, subCollection: Table<CommentDoc>,
                                commentId: string, userId: string) returns (r: Result<bool>)
    requires comments.Valid() && subCollection.Valid() && subCollection.docs == map[]
    modifies subCollection
    ensures r != Ok(true)
    ensures IsValid(commentId) ==> r == Ok(false)
    ensures comments != subCollection ==> comments.docs == old(comments.docs)
  {
    var parsed := Parse(commentId);
    if parsed.None? {
      return Err(InvalidId);
    }
    var count := subCollection.DeleteOne(parsed.value, OwnedBy(userId));
    r := Ok(count == 1);
  }

  /** A comment its owner asks to delete is removed by the intended delete and kept by the one as written. */
  method OwnerDeleteScenario(comments: Table<CommentDoc>, subCollection: Table<CommentDoc>,
                             userId: string, comment: Comment, newId: ObjectId)
    returns (asWritten: Result<bool>, intended: Result<bool>)
    requires comments.Valid() && subCollection.Valid() && subCollection.docs == map[]
    requires comments != subCollection && comment.id.None? && newId !in comments.docs
    modifies comments, subCollection
    ensures asWritten == Ok(false) && intended == Ok(true)
  {
    var created := CreateComment(comments, userId, comment, newId);
    ParseToString(newId);
    asWritten := DeleteCommentAsWritten(comments, subCollection, ToString(newId), userId);
    assert newId in comments.docs;
    intended := DeleteComment(comments, ToString(newId), userId);
  }
}
