/**
 * The pydantic models for comments (backend/models/comment.py), and the
 * Comment and CommentFilter models that backend/crud/comments.py imports
 * from it although the file does not define them.
 */
module CommentModels {
  import opened Outcomes

  const MaxContentLength: nat := 2000

  /** CommentBase: a required `idea_id` and a `content` of 1 to 2000 characters. */
  datatype CommentBase = CommentBase(ideaId: string, content: string)

  predicate ValidCommentBase(c: CommentBase)
  {
    1 <= |c.content| <= MaxContentLength
  }

  /** CommentCreate adds nothing to CommentBase. */
  type CommentCreate = CommentBase

  /** CommentInDB: CommentBase plus a required `_id`, `user_id` and `created_at`. */
  datatype CommentInDB = CommentInDB(id: string, userId: string, createdAt: int, base: CommentBase)

  predicate ValidCommentInDB(c: CommentInDB)
  {
    ValidCommentBase(c.base)
  }

  /**
   * Comment, as crud/comments.py uses it: CommentInDB's fields with `_id`,
   * `user_id` and `created_at` optional. It is not defined in any file of the
   * repository that is part of this model.
   */
  datatype Comment = Comment(
    id: Option<string>,
    ideaId: string,
    content: string,
    userId: Option<string>,
    createdAt: Option<int>)

  /** CommentFilter, also undefined: the router builds it from `idea_id`; `user_id` is the other field. */
  datatype CommentFilter = CommentFilter(ideaId: Option<string>, userId: Option<string>)

  /** A comment as the `comments` collection stores it; None fields are absent. */
  datatype CommentDoc = CommentDoc(ideaId: string, content: string, userId: Option<string>, createdAt: Option<int>)

  /** Reading a comment as CommentInDB: None where a required field is missing or the content is out of bounds. */
  function ToCommentInDB(c: Comment): (r: Option<CommentInDB>)
    ensures r.Some? <==> c.id.Some? && c.userId.Some? && c.createdAt.Some?
                         && ValidCommentBase(CommentBase(c.ideaId, c.content))
    ensures r.Some? ==> r.value.base == CommentBase(c.ideaId, c.content)
  {
    if c.id.Some? && c.userId.Some? && c.createdAt.Some? && ValidCommentBase(CommentBase(c.ideaId, c.content))
    then Some(CommentInDB(c.id.value, c.userId.value, c.createdAt.value, CommentBase(c.ideaId, c.content)))
    else None
  }
}
