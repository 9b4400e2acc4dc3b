/**
 * blogicum/blog/mixins.py: the ownership checks run before an edit or delete
 * view. Each is a decision over the store's tables, the acting user and the
 * URL's keyword arguments; being a function of those values it cannot
 * change the store, whatever it decides.
 */
module Mixins {
  import opened Wrappers
  import opened Query
  import opened Models
  import opened Storage

  /** The URL's keyword arguments; either may be absent. */
  datatype UrlKwargs = UrlKwargs(postId: Option<Id>, commentId: Option<Id>)

  /** What a guard decides: go on to the view, respond 404, or refuse with 403. */
  datatype Outcome = Proceed | NotFound | Forbidden

  /** A resolved route: the post detail page of post `id`. */
  datatype Route = PostDetailRoute(id: Id)

  /** Keyword arguments handed to `reverse`, by name. */
  type ReverseKwargs = map<string, Option<Id>>

  /**
   * `PostMixin.dispatch`: proceeds only if a post with key `post_id` exists
   * and `user` wrote it. Otherwise NotFound, which does not tell a missing
   * post from someone else's post; it never answers Forbidden.
   */
  function PostDispatch(db: Db, user: Id, kwargs: UrlKwargs): (o: Outcome)
    ensures o != Forbidden
    ensures o == Proceed <==>
              kwargs.postId.Some? && exists p :: p in db.posts && p.id == kwargs.postId.value && p.author == user
  {
    match kwargs.postId
    case None => NotFound
    case Some(id) =>
      match Get(db.posts, (p: Post) => p.id == id && p.author == user)
      case None => NotFound
      case Some(_) => Proceed
  }

  /** A missing post and another user's post get the same answer. */
  lemma PostDispatchHidesOwnership(db: Db, user: Id, missing: Id, p: Post)
    requires (forall q :: q in db.posts ==> q.id != missing)
    requires db.Valid() && p in db.posts && p.author != user
    ensures PostDispatch(db, user, UrlKwargs(Some(missing), None)) == NotFound
    ensures PostDispatch(db, user, UrlKwargs(Some(p.id), None)) == NotFound
  {
    forall q | q in db.posts && q.id == p.id ensures q.author != user {
      DistinctByKey(db.posts, PostKey, q, p);
    }
  }

  /**
   * `CommentMixin.dispatch`: NotFound if `comment_id` names no comment
   * (checked first, so a missing comment is never Forbidden); Forbidden if
   * it names a comment `user` did not write; otherwise Proceed.
   */
  function CommentDispatch(db: Db, user: Id, kwargs: UrlKwargs): (o: Outcome)
    ensures o == NotFound <==>
              kwargs.commentId.None? || forall c :: c in db.comments ==> c.id != kwargs.commentId.value
    ensures o == Forbidden ==>
              exists c :: c in db.comments && c.id == kwargs.commentId.value && c.author != user
    ensures o == Proceed ==>
              exists c :: c in db.comments && c.id == kwargs.commentId.value && c.author == user
  {
    match kwargs.commentId
    case None => NotFound
    case Some(id) =>
      match Get(db.comments, (c: Comment) => c.id == id)
      case None => NotFound
      case Some(c) => if user != c.author then Forbidden else Proceed
  }

  /** With unique keys, the comment guard's answer for an existing comment is decided by its author alone. */
  lemma CommentDispatchOfComment(db: Db, user: Id, kwargs: UrlKwargs, c: Comment)
    requires db.Valid() && c in db.comments && kwargs.commentId == Some(c.id)
    ensures CommentDispatch(db, user, kwargs) == if c.author == user then Proceed else Forbidden
  {
    var id := c.id;
    var found := Get(db.comments, (x: Comment) => x.id == id).value;
    DistinctByKey(db.comments, CommentKey, found, c);
  }

  /**
   * The comment guard does not look at `post_id`: its answer is the same
   * whichever post the URL names, including one the comment is not on.
   */
  lemma CommentDispatchIgnoresPost(db: Db, user: Id, commentId: Option<Id>, post1: Option<Id>, post2: Option<Id>)
    ensures CommentDispatch(db, user, UrlKwargs(post1, commentId))
         == CommentDispatch(db, user, UrlKwargs(post2, commentId))
  {
  }

  /**
   * Reversing `blog:post_detail`, whose pattern `posts/<int:id>/` has the one
   * parameter `id`: it resolves only when the keyword arguments name exactly
   * that parameter with an integer value (an absent value is rendered as
   * the text None, which the integer converter refuses); otherwise Django
   * raises NoReverseMatch, here `None`.
   */
  function ReversePostDetail(kwargs: ReverseKwargs): (r: Option<Route>)
    ensures r.Some? <==> kwargs.Keys == {"id"} && kwargs["id"].Some?
    ensures r.Some? ==> r.value.id == kwargs["id"].value
  {
    if kwargs.Keys == {"id"} && kwargs["id"].Some? then Some(PostDetailRoute(kwargs["id"].value)) else None
  }

  /** The keyword arguments `get_success_url` passes as written: `post_id` from the URL. */
  function SuccessUrlKwargsAsWritten(kwargs: UrlKwargs): (m: ReverseKwargs)
    ensures "post_id" in m && m["post_id"] == kwargs.postId
    ensures "id" !in m
  {
    map["post_id" := kwargs.postId]
  }

  /** As written, the success URL never resolves: the route has no parameter `post_id`. */
  lemma SuccessUrlAsWrittenNeverResolves(kwargs: UrlKwargs)
    ensures ReversePostDetail(SuccessUrlKwargsAsWritten(kwargs)) == None
  {
    assert "post_id" in SuccessUrlKwargsAsWritten(kwargs).Keys;
  }

  /**
   * `CommentMixin.get_success_url` with the argument named as the route
   * declares it: the detail page of the post named by the URL's `post_id`,
   * whatever the comment, and no route when the URL names no post.
   */
  function SuccessUrl(kwargs: UrlKwargs): (r: Option<Route>)
    ensures r.Some? <==> kwargs.postId.Some?
    ensures r.Some? ==> r.value == PostDetailRoute(kwargs.postId.value)
  {
    ReversePostDetail(map["id" := kwargs.postId])
  }
}
