/**
 * The entity store: the five tables as a value `Db`, the integrity the
 * database enforces (`Db.Valid`: primary keys, unique usernames and slugs,
 * references that resolve) and a `Store` object whose methods are the
 * inserts, form-driven updates and deletes, the deletes following each
 * reference's `on_delete` rule.
 */
module Storage {
  import opened Wrappers
  import opened Core
  import opened Query
  import opened Models
  import Forms

  /** The tables, each a sequence of rows in the order they were inserted. */
  datatype Db = Db(users: seq<User>, categories: seq<Category>, locations: seq<Location>,
                   posts: seq<Post>, comments: seq<Comment>)
  {
    ghost function UserIds(): set<Id> { KeySet(users, UserKey) }
    ghost function CategoryIds(): set<Id> { KeySet(categories, CategoryKey) }
    ghost function LocationIds(): set<Id> { KeySet(locations, LocationKey) }
    ghost function PostIds(): set<Id> { KeySet(posts, PostKey) }
    ghost function CommentIds(): set<Id> { KeySet(comments, CommentKey) }

    /** Every primary key in use, in any table. */
    ghost function AllKeys(): set<Id> { UserIds() + CategoryIds() + LocationIds() + PostIds() + CommentIds() }

    /** Every reference of `p` names an existing row. */
    ghost predicate PostRefsResolve(p: Post) {
      && p.author in UserIds()
      && (p.category.Some? ==> p.category.value in CategoryIds())
      && (p.location.Some? ==> p.location.value in LocationIds())
    }

    /** Every reference of `c` names an existing row. */
    ghost predicate CommentRefsResolve(c: Comment) {
      c.post in PostIds() && c.author in UserIds()
    }

    /** What the database guarantees of its tables. */
    ghost predicate Valid() {
      && DistinctBy(users, UserKey) && DistinctBy(users, UsernameKey)
      && DistinctBy(categories, CategoryKey) && DistinctBy(categories, SlugKey)
      && DistinctBy(locations, LocationKey)
      && DistinctBy(posts, PostKey)
      && DistinctBy(comments, CommentKey)
      && (forall p :: p in posts ==> PostRefsResolve(p))
      && (forall c :: c in comments ==> CommentRefsResolve(c))
    }

    // Deletes. Each follows the `on_delete` rule of every reference to the deleted row.

    /** Deletes post `id`; its comments go with it (CASCADE). */
    function DeletePost(id: Id): (d: Db)
      ensures d.users == users && d.categories == categories && d.locations == locations
      ensures forall p :: p in d.posts <==> p in posts && p.id != id
      ensures forall c :: c in d.comments <==> c in comments && c.post != id
    {
      this.(posts := Filter(posts, (p: Post) => p.id != id),
            comments := Filter(comments, (c: Comment) => c.post != id))
    }

    lemma DeletePostKeepsValid(id: Id)
      requires Valid()
      ensures DeletePost(id).Valid()
      ensures DeletePost(id).AllKeys() <= AllKeys()
    {
      FilterKeySet(posts, (p: Post) => p.id != id, PostKey);
      FilterKeySet(comments, (c: Comment) => c.post != id, CommentKey);
      var d := DeletePost(id);
      FilterDistinct(posts, (p: Post) => p.id != id, PostKey);
      FilterDistinct(comments, (c: Comment) => c.post != id, CommentKey);
      forall c | c in d.comments ensures d.CommentRefsResolve(c) {
        var p :| p in posts && p.id == c.post;
        assert p in d.posts;
      }
    }

    /**
     * Deletes user `id`; their posts and comments go with them (CASCADE),
     * and so do the comments on those posts (CASCADE from the post).
     */
    function DeleteUser(id: Id): (d: Db)
      ensures d.categories == categories && d.locations == locations
      ensures forall u :: u in d.users <==> u in users && u.id != id
      ensures forall p :: p in d.posts <==> p in posts && p.author != id
      ensures forall c :: c in d.comments <==>
                c in comments && c.author != id && c.post !in PostsAuthoredBy(posts, id)
    {
      var dead := PostsAuthoredBy(posts, id);
      this.(users := Filter(users, (u: User) => u.id != id),
            posts := Filter(posts, (p: Post) => p.author != id),
            comments := Filter(comments, (c: Comment) => c.author != id && c.post !in dead))
    }

    lemma DeleteUserKeepsValid(id: Id)
      requires Valid()
      ensures DeleteUser(id).Valid()
      ensures DeleteUser(id).AllKeys() <= AllKeys()
    {
      FilterKeySet(users, (u: User) => u.id != id, UserKey);
      FilterKeySet(posts, (p: Post) => p.author != id, PostKey);
      FilterKeySet(comments, (c: Comment) => c.author != id && c.post !in PostsAuthoredBy(posts, id), CommentKey);
      var d := DeleteUser(id);
      var dead := PostsAuthoredBy(posts, id);
      FilterDistinct(users, (u: User) => u.id != id, UserKey);
      FilterDistinct(users, (u: User) => u.id != id, UsernameKey);
      FilterDistinct(posts, (p: Post) => p.author != id, PostKey);
      FilterDistinct(comments, (c: Comment) => c.author != id && c.post !in dead, CommentKey);
      forall p | p in d.posts ensures d.PostRefsResolve(p) {
        var u :| u in users && u.id == p.author;
        assert u in d.users;
      }
      forall c | c in d.comments ensures d.CommentRefsResolve(c) {
        var u :| u in users && u.id == c.author;
        assert u in d.users;
        var p :| p in posts && p.id == c.post;
        assert p.author != id;
        assert p in d.posts;
      }
    }

    /** Deletes category `id`; posts that referenced it survive without a category (SET_NULL). */
    function DeleteCategory(id: Id): (d: Db)
      ensures d.users == users && d.locations == locations && d.comments == comments
      ensures forall c :: c in d.categories <==> c in categories && c.id != id
      ensures d.posts == NullCategory(posts, id)
    {
      this.(categories := Filter(categories, (c: Category) => c.id != id),
            posts := NullCategory(posts, id))
    }

    lemma DeleteCategoryKeepsValid(id: Id)
      requires Valid()
      ensures DeleteCategory(id).Valid()
      ensures DeleteCategory(id).AllKeys() <= AllKeys()
    {
      FilterKeySet(categories, (c: Category) => c.id != id, CategoryKey);
      var d := DeleteCategory(id);
      FilterDistinct(categories, (c: Category) => c.id != id, CategoryKey);
      FilterDistinct(categories, (c: Category) => c.id != id, SlugKey);
      SameKeys(posts, d.posts, PostKey);
      forall p | p in d.posts ensures d.PostRefsResolve(p) {
        var i :| 0 <= i < |d.posts| && d.posts[i] == p;
        assert posts[i] in posts;
        if p.category.Some? {
          var c :| c in categories && c.id == p.category.value;
          assert c in d.categories;
        }
      }
    }

    /** Deletes location `id`; posts that referenced it survive without a location (SET_NULL). */
    function DeleteLocation(id: Id): (d: Db)
      ensures d.users == users && d.categories == categories && d.comments == comments
      ensures forall l :: l in d.locations <==> l in locations && l.id != id
      ensures d.posts == NullLocation(posts, id)
    {
      this.(locations := Filter(locations, (l: Location) => l.id != id),
            posts := NullLocation(posts, id))
    }

    lemma DeleteLocationKeepsValid(id: Id)
      requires Valid()
      ensures DeleteLocation(id).Valid()
      ensures DeleteLocation(id).AllKeys() <= AllKeys()
    {
      FilterKeySet(locations, (l: Location) => l.id != id, LocationKey);
      var d := DeleteLocation(id);
      FilterDistinct(locations, (l: Location) => l.id != id, LocationKey);
      SameKeys(posts, d.posts, PostKey);
      forall p | p in d.posts ensures d.PostRefsResolve(p) {
        var i :| 0 <= i < |d.posts| && d.posts[i] == p;
        assert posts[i] in posts;
        if p.location.Some? {
          var l :| l in locations && l.id == p.location.value;
          assert l in d.locations;
        }
      }
    }

    /** Deletes comment `id`; nothing references a comment. */
    function DeleteComment(id: Id): (d: Db)
      ensures d.users == users && d.categories == categories && d.locations == locations
      ensures d.posts == posts
      ensures forall c :: c in d.comments <==> c in comments && c.id != id
    {
      this.(comments := Filter(comments, (c: Comment) => c.id != id))
    }

    lemma DeleteCommentKeepsValid(id: Id)
      requires Valid()
      ensures DeleteComment(id).Valid()
      ensures DeleteComment(id).AllKeys() <= AllKeys()
    {
      FilterKeySet(comments, (c: Comment) => c.id != id, CommentKey);
      FilterDistinct(comments, (c: Comment) => c.id != id, CommentKey);
    }

    /**
     * Deleting a user leaves no trace of them: none of their posts or
     * comments survive, nor any comment on one of their posts, while every
     * other comment stays.
     */
    lemma DeleteUserCascades(id: Id, c: Comment)
      requires c in comments
      ensures c in DeleteUser(id).comments <==>
                c.author != id && forall p :: p in posts && p.id == c.post ==> p.author != id
    {
      var dead := PostsAuthoredBy(posts, id);
      if c.post in dead {
        var p :| p in posts && p.author == id && p.id == c.post;
      }
    }

    /**
     * Deleting a category removes no post: each keeps its place and all its
     * other fields, and none refers to the deleted category any more.
     */
    lemma DeleteCategoryKeepsPosts(id: Id, p: Post)
      requires p in posts
      ensures forall q :: q in DeleteCategory(id).posts ==> q.category != Some(id)
      ensures (if p.category == Some(id) then p.(category := None) else p) in DeleteCategory(id).posts
    {
      var d := DeleteCategory(id);
      var i :| 0 <= i < |posts| && posts[i] == p;
      assert d.posts[i] in d.posts;
    }

    /**
     * Deleting a location removes no post: each keeps its place and all its
     * other fields, and none refers to the deleted location any more.
     */
    lemma DeleteLocationKeepsPosts(id: Id, p: Post)
      requires p in posts
      ensures forall q :: q in DeleteLocation(id).posts ==> q.location != Some(id)
      ensures (if p.location == Some(id) then p.(location := None) else p) in DeleteLocation(id).posts
    {
      var d := DeleteLocation(id);
      var i :| 0 <= i < |posts| && posts[i] == p;
      assert d.posts[i] in d.posts;
    }

    /** No two categories share a slug. */
    lemma SlugIdentifiesCategory(c1: Category, c2: Category)
      requires Valid() && c1 in categories && c2 in categories && c1.slug == c2.slug
      ensures c1 == c2
    {
      DistinctByKey(categories, SlugKey, c1, c2);
    }

    // Inserts, with the key `id` the store hands out. The database refuses a
    // duplicate unique value and a reference that does not resolve.

    /** Inserts user `id`; usernames are unique. */
    function InsertUser(id: Id, username: string): (r: Result<Db, IntegrityError>)
      ensures r.Err? <==> exists u :: u in users && u.username == username
      ensures r.Err? ==> r.error == DuplicateUsername
      ensures r.Ok? ==> r.value == this.(users := users + [User(id, username)])
    {
      if exists u :: u in users && u.username == username then Err(DuplicateUsername)
      else Ok(this.(users := users + [User(id, username)]))
    }

    lemma InsertUserKeepsValid(id: Id, username: string)
      requires Valid() && id !in UserIds()
      requires InsertUser(id, username).Ok?
      ensures InsertUser(id, username).value.Valid()
      ensures InsertUser(id, username).value.AllKeys() <= AllKeys() + {id}
    {
      AppendKeySet(users, User(id, username), UserKey);
      var d := InsertUser(id, username).value;
      var u := User(id, username);
      AppendDistinct(users, u, UserKey);
      AppendDistinct(users, u, UsernameKey);
      assert UserIds() <= d.UserIds();
    }

    /** Inserts category `id`, created at `now`; slugs are unique. */
    function InsertCategory(id: Id, title: string, description: string, slug: string,
                            isPublished: Option<bool>, now: Time): (r: Result<Db, IntegrityError>)
      ensures r.Err? <==> exists c :: c in categories && c.slug == slug
      ensures r.Err? ==> r.error == DuplicateSlug
      ensures r.Ok? ==> r.value == this.(categories := categories +
                                           [NewCategory(id, title, description, slug, isPublished, now)])
    {
      if exists c :: c in categories && c.slug == slug then Err(DuplicateSlug)
      else Ok(this.(categories := categories + [NewCategory(id, title, description, slug, isPublished, now)]))
    }

    lemma InsertCategoryKeepsValid(id: Id, title: string, description: string, slug: string,
                                   isPublished: Option<bool>, now: Time)
      requires Valid() && id !in CategoryIds()
      requires InsertCategory(id, title, description, slug, isPublished, now).Ok?
      ensures InsertCategory(id, title, description, slug, isPublished, now).value.Valid()
      ensures InsertCategory(id, title, description, slug, isPublished, now).value.AllKeys() <= AllKeys() + {id}
    {
      AppendKeySet(categories, NewCategory(id, title, description, slug, isPublished, now), CategoryKey);
      var d := InsertCategory(id, title, description, slug, isPublished, now).value;
      var c := NewCategory(id, title, description, slug, isPublished, now);
      AppendDistinct(categories, c, CategoryKey);
      AppendDistinct(categories, c, SlugKey);
      assert CategoryIds() <= d.CategoryIds();
    }

    /** Inserts location `id`, created at `now`; nothing can be refused. */
    function InsertLocation(id: Id, name: string, isPublished: Option<bool>, now: Time): (d: Db)
      ensures d == this.(locations := locations + [NewLocation(id, name, isPublished, now)])
    {
      this.(locations := locations + [NewLocation(id, name, isPublished, now)])
    }

    lemma InsertLocationKeepsValid(id: Id, name: string, isPublished: Option<bool>, now: Time)
      requires Valid() && id !in LocationIds()
      ensures InsertLocation(id, name, isPublished, now).Valid()
      ensures InsertLocation(id, name, isPublished, now).AllKeys() <= AllKeys() + {id}
    {
      AppendKeySet(locations, NewLocation(id, name, isPublished, now), LocationKey);
      var d := InsertLocation(id, name, isPublished, now);
      AppendDistinct(locations, NewLocation(id, name, isPublished, now), LocationKey);
      assert LocationIds() <= d.LocationIds();
    }

    /** Inserts post `id`, created at `now`; its author, category and location must exist. */
    function InsertPost(id: Id, title: string, text: string, pubDate: Time, author: Id,
                        location: Option<Id>, category: Option<Id>, image: string,
                        isPublished: Option<bool>, now: Time): (r: Result<Db, IntegrityError>)
      ensures r.Ok? <==> PostRefsResolve(NewPost(id, title, text, pubDate, author, location, category,
                                                 image, isPublished, now))
      ensures r.Err? && author !in UserIds() ==> r.error == UnknownAuthor
      ensures r.Ok? ==> r.value == this.(posts := posts + [NewPost(id, title, text, pubDate, author,
                                                                   location, category, image,
                                                                   isPublished, now)])
    {
      if !exists u :: u in users && u.id == author then Err(UnknownAuthor)
      else if category.Some? && !exists c :: c in categories && c.id == category.value then
        Err(UnknownCategory)
      else if location.Some? && !exists l :: l in locations && l.id == location.value then
        Err(UnknownLocation)
      else
        Ok(this.(posts := posts + [NewPost(id, title, text, pubDate, author, location, category,
                                           image, isPublished, now)]))
    }

    lemma InsertPostKeepsValid(id: Id, title: string, text: string, pubDate: Time, author: Id,
                               location: Option<Id>, category: Option<Id>, image: string,
                               isPublished: Option<bool>, now: Time)
      requires Valid() && id !in PostIds()
      requires InsertPost(id, title, text, pubDate, author, location, category, image, isPublished, now).Ok?
      ensures InsertPost(id, title, text, pubDate, author, location, category, image, isPublished, now)
                .value.Valid()
      ensures InsertPost(id, title, text, pubDate, author, location, category, image, isPublished, now)
                .value.AllKeys() <= AllKeys() + {id}
    {
      AppendKeySet(posts, NewPost(id, title, text, pubDate, author, location, category, image, isPublished, now), PostKey);
      var d := InsertPost(id, title, text, pubDate, author, location, category, image, isPublished, now).value;
      AppendDistinct(posts, NewPost(id, title, text, pubDate, author, location, category, image,
                                    isPublished, now), PostKey);
      assert PostIds() <= d.PostIds();
    }

    /** Inserts comment `id` on `post` by `author`, created at `now`; both must exist. */
    function InsertComment(id: Id, text: string, post: Id, author: Id, now: Time)
      : (r: Result<Db, IntegrityError>)
      ensures r.Ok? <==> post in PostIds() && author in UserIds()
      ensures r.Err? && post !in PostIds() ==> r.error == UnknownPost
      ensures r.Ok? ==> r.value == this.(comments := comments + [NewComment(id, text, post, author, now)])
    {
      if !exists p :: p in posts && p.id == post then Err(UnknownPost)
      else if !exists u :: u in users && u.id == author then Err(UnknownAuthor)
      else Ok(this.(comments := comments + [NewComment(id, text, post, author, now)]))
    }

    lemma InsertCommentKeepsValid(id: Id, text: string, post: Id, author: Id, now: Time)
      requires Valid() && id !in CommentIds()
      requires InsertComment(id, text, post, author, now).Ok?
      ensures InsertComment(id, text, post, author, now).value.Valid()
      ensures InsertComment(id, text, post, author, now).value.AllKeys() <= AllKeys() + {id}
    {
      AppendKeySet(comments, NewComment(id, text, post, author, now), CommentKey);
      AppendDistinct(comments, NewComment(id, text, post, author, now), CommentKey);
    }

    // Updates through the forms; the form decides which fields may change.

    /**
     * Saves PostForm `data` over post `id`: refused if there is no such post
     * or the form is invalid; otherwise only that row changes, and only in
     * the fields the form may set.
     */
    function UpdatePost(id: Id, data: Forms.PostFormData, maxLength: nat)
      : (r: Result<Db, UpdateError<set<Forms.PostFormError>>>)
      requires DistinctBy(posts, PostKey)
      ensures r == Err(NoSuchRow) <==> forall p :: p in posts ==> p.id != id
      ensures r.Err? && r.error.Invalid? ==>
                r.error.errors == Forms.PostFormErrors(data, categories, locations, maxLength)
                && r.error.errors != {}
      ensures r.Ok? <==>
                (exists p :: p in posts && p.id == id) && Forms.PostFormValid(data, categories, locations, maxLength)
      ensures r.Ok? ==> && r.value.users == users && r.value.categories == categories
                        && r.value.locations == locations && r.value.comments == comments
                        && |r.value.posts| == |posts|
      ensures r.Ok? ==> forall i :: 0 <= i < |posts| && posts[i].id != id ==> r.value.posts[i] == posts[i]
      ensures r.Ok? ==> forall i :: 0 <= i < |posts| && posts[i].id == id ==>
                Forms.ApplyPostForm(posts[i], data, categories, locations, maxLength) == Ok(r.value.posts[i])
      ensures r.Ok? ==> forall i :: 0 <= i < |posts| ==>
                && r.value.posts[i].id == posts[i].id && r.value.posts[i].author == posts[i].author
                && r.value.posts[i].base.createdAt == posts[i].base.createdAt
    {
      match Get(posts, (p: Post) => p.id == id)
      case None => Err(NoSuchRow)
      case Some(p) =>
        match Forms.ApplyPostForm(p, data, categories, locations, maxLength)
        case Err(errors) => Err(Invalid(errors))
        case Ok(q) =>
          assert forall i :: 0 <= i < |posts| && posts[i].id == id ==> posts[i] == p by {
            forall i | 0 <= i < |posts| && posts[i].id == id ensures posts[i] == p {
              DistinctByKey(posts, PostKey, posts[i], p);
            }
          }
          Ok(this.(posts := ReplacePost(posts, id, q)))
    }

    /** Replacing the posts table row by row, keys kept and references resolving, keeps the store valid. */
    lemma RewritePostsKeepsValid(newPosts: seq<Post>)
      requires Valid()
      requires |newPosts| == |posts| && forall i :: 0 <= i < |posts| ==> newPosts[i].id == posts[i].id
      requires forall i :: 0 <= i < |newPosts| ==> PostRefsResolve(newPosts[i])
      ensures this.(posts := newPosts).Valid()
      ensures this.(posts := newPosts).AllKeys() == AllKeys()
    {
      SameKeys(posts, newPosts, PostKey);
    }

    lemma UpdatePostKeepsValid(id: Id, data: Forms.PostFormData, maxLength: nat)
      requires Valid()
      requires UpdatePost(id, data, maxLength).Ok?
      ensures UpdatePost(id, data, maxLength).value.Valid()
      ensures UpdatePost(id, data, maxLength).value.AllKeys() == AllKeys()
    {
      var d := UpdatePost(id, data, maxLength).value;
      forall i | 0 <= i < |d.posts| ensures PostRefsResolve(d.posts[i]) {
        var before, after := posts[i], d.posts[i];
        assert before in posts;
        if before.id == id {
          assert Forms.ApplyPostForm(before, data, categories, locations, maxLength) == Ok(after);
          assert Forms.PostFormValid(data, categories, locations, maxLength);
          var c :| c in categories && c.id == after.category.value;
          if after.location.Some? {
            var l :| l in locations && l.id == after.location.value;
          }
        }
      }
      RewritePostsKeepsValid(d.posts);
      assert d == this.(posts := d.posts);
    }

    /**
     * Saves CommentForm `data` over comment `id`: refused if there is no such
     * comment, and refused as invalid exactly when the comment exists and
     * its stripped new text is empty or too long; otherwise only that
     * row's text changes, to the stripped text.
     */
    function UpdateComment(id: Id, data: Forms.CommentFormData)
      : (r: Result<Db, UpdateError<Forms.CommentFormError>>)
      requires DistinctBy(comments, CommentKey)
      ensures r == Err(NoSuchRow) <==> forall c :: c in comments ==> c.id != id
      ensures r.Err? && r.error.Invalid? <==>
                (exists c :: c in comments && c.id == id) && !(0 < |Forms.Strip(data.text)| <= CommentTextMaxLength)
      ensures r.Err? && r.error.Invalid? ==>
                r.error.errors == if Forms.Strip(data.text) == "" then Forms.CommentTextRequired
                                  else Forms.CommentTextTooLong
      ensures r.Ok? ==> && r.value.users == users && r.value.categories == categories
                        && r.value.locations == locations && r.value.posts == posts
                        && |r.value.comments| == |comments|
      ensures r.Ok? ==> forall i :: 0 <= i < |comments| ==>
                && r.value.comments[i].id == comments[i].id && r.value.comments[i].post == comments[i].post
                && r.value.comments[i].author == comments[i].author
                && r.value.comments[i].createdAt == comments[i].createdAt
                && r.value.comments[i].text == (if comments[i].id == id then Forms.Strip(data.text) else comments[i].text)
    {
      match Get(comments, (c: Comment) => c.id == id)
      case None => Err(NoSuchRow)
      case Some(c) =>
        match Forms.ApplyCommentForm(c, data)
        case Err(error) => Err(Invalid(error))
        case Ok(edited) =>
          assert forall i :: 0 <= i < |comments| && comments[i].id == id ==> comments[i] == c by {
            forall i | 0 <= i < |comments| && comments[i].id == id ensures comments[i] == c {
              DistinctByKey(comments, CommentKey, comments[i], c);
            }
          }
          Ok(this.(comments := ReplaceComment(comments, id, edited)))
    }

    lemma UpdateCommentKeepsValid(id: Id, data: Forms.CommentFormData)
      requires Valid()
      requires UpdateComment(id, data).Ok?
      ensures UpdateComment(id, data).value.Valid()
      ensures UpdateComment(id, data).value.AllKeys() == AllKeys()
    {
      var d := UpdateComment(id, data).value;
      RewriteCommentsKeepsValid(d.comments);
      assert d == this.(comments := d.comments);
    }

    /** Replacing the comments table row by row, keys and references kept, keeps the store valid. */
    lemma RewriteCommentsKeepsValid(newComments: seq<Comment>)
      requires Valid()
      requires |newComments| == |comments|
      requires forall i :: 0 <= i < |comments| ==>
                 && newComments[i].id == comments[i].id && newComments[i].post == comments[i].post
                 && newComments[i].author == comments[i].author
      ensures this.(comments := newComments).Valid()
      ensures this.(comments := newComments).AllKeys() == AllKeys()
    {
      SameKeys(comments, newComments, CommentKey);
      forall c | c in newComments ensures CommentRefsResolve(c) {
        var i :| 0 <= i < |newComments| && newComments[i] == c;
        assert comments[i] in comments;
      }
    }
  }

  /** The empty store satisfies the integrity rules. */
  lemma EmptyDbValid()
    ensures Db([], [], [], [], []).Valid()
  {
  }

  /** A database integrity error: a unique constraint or a reference that does not resolve. */
  datatype IntegrityError =
    | DuplicateUsername | DuplicateSlug
    | UnknownAuthor | UnknownPost | UnknownCategory | UnknownLocation

  /** Why a form-driven update was refused. */
  datatype UpdateError<E> = NoSuchRow | Invalid(errors: E)

  /** The keys of the posts `author` wrote: the posts a CASCADE from that user removes. */
  function PostsAuthoredBy(posts: seq<Post>, author: Id): (ids: set<Id>)
    ensures forall id :: id in ids <==> exists p :: p in posts && p.author == author && p.id == id
  {
    set p | p in posts && p.author == author :: p.id
  }

  /** The SET_NULL rule of `Post.category`: posts that referenced `category` lose the reference, nothing else changes. */
  function NullCategory(posts: seq<Post>, category: Id): (r: seq<Post>)
    ensures |r| == |posts|
    ensures forall i :: 0 <= i < |posts| ==>
              && r[i].(category := posts[i].category) == posts[i]
              && r[i].category == if posts[i].category == Some(category) then None else posts[i].category
  {
    seq(|posts|, i requires 0 <= i < |posts| =>
      if posts[i].category == Some(category) then posts[i].(category := None) else posts[i])
  }

  /** The SET_NULL rule of `Post.location`: posts that referenced `location` lose the reference, nothing else changes. */
  function NullLocation(posts: seq<Post>, location: Id): (r: seq<Post>)
    ensures |r| == |posts|
    ensures forall i :: 0 <= i < |posts| ==>
              && r[i].(location := posts[i].location) == posts[i]
              && r[i].location == if posts[i].location == Some(location) then None else posts[i].location
  {
    seq(|posts|, i requires 0 <= i < |posts| =>
      if posts[i].location == Some(location) then posts[i].(location := None) else posts[i])
  }

  /** An UPDATE by primary key: every row with key `id` becomes `p`. */
  function ReplacePost(posts: seq<Post>, id: Id, p: Post): (r: seq<Post>)
    ensures |r| == |posts|
    ensures forall i :: 0 <= i < |posts| ==> r[i] == if posts[i].id == id then p else posts[i]
  {
    seq(|posts|, i requires 0 <= i < |posts| => if posts[i].id == id then p else posts[i])
  }

  /** An UPDATE by primary key: every row with key `id` becomes `c`. */
  function ReplaceComment(comments: seq<Comment>, id: Id, c: Comment): (r: seq<Comment>)
    ensures |r| == |comments|
    ensures forall i :: 0 <= i < |comments| ==> r[i] == if comments[i].id == id then c else comments[i]
  {
    seq(|comments|, i requires 0 <= i < |comments| => if comments[i].id == id then c else comments[i])
  }

  /**
   * The store. Each method is one atomic operation on the tables; `nextId`
   * hands out primary keys.
   */
  class Store {
    var users: seq<User>
    var categories: seq<Category>
    var locations: seq<Location>
    var posts: seq<Post>
    var comments: seq<Comment>
    var nextId: nat

    /** The current contents of the tables. */
    function Snapshot(): Db
      reads this
    {
      Db(users, categories, locations, posts, comments)
    }

    /** Every key handed out so far is below `nextId`. */
    ghost predicate KeysBelowNext()
      reads this
    {
      forall k :: k in Snapshot().AllKeys() ==> k < nextId
    }

    ghost predicate Valid()
      reads this
    {
      Snapshot().Valid() && KeysBelowNext()
    }

    constructor ()
      ensures Valid()
      ensures Snapshot() == Db([], [], [], [], [])
    {
      users, categories, locations, posts, comments := [], [], [], [], [];
      nextId := 0;
    }

    /** Replaces the tables by `d`, a valid store whose keys are all below `next`. */
    method Commit(d: Db, next: nat)
      requires d.Valid() && forall k :: k in d.AllKeys() ==> k < next
      modifies this
      ensures Valid() && Snapshot() == d && nextId == next
    {
      users, categories, locations, posts, comments := d.users, d.categories, d.locations, d.posts, d.comments;
      nextId := next;
    }

    /** Keys below `nextId` are not yet in any table. */
    lemma NextIdIsFresh()
      requires KeysBelowNext()
      ensures nextId !in Snapshot().AllKeys()
      ensures nextId !in Snapshot().UserIds() && nextId !in Snapshot().CategoryIds()
      ensures nextId !in Snapshot().LocationIds() && nextId !in Snapshot().PostIds()
      ensures nextId !in Snapshot().CommentIds()
    {
    }

    method DeletePost(id: Id)
      requires Valid()
      modifies this
      ensures Valid()
      ensures Snapshot() == old(Snapshot()).DeletePost(id) && nextId == old(nextId)
    {
      Snapshot().DeletePostKeepsValid(id);
      Commit(Snapshot().DeletePost(id), nextId);
    }

    method DeleteUser(id: Id)
      requires Valid()
      modifies this
      ensures Valid()
      ensures Snapshot() == old(Snapshot()).DeleteUser(id) && nextId == old(nextId)
    {
      Snapshot().DeleteUserKeepsValid(id);
      Commit(Snapshot().DeleteUser(id), nextId);
    }

    method DeleteCategory(id: Id)
      requires Valid()
      modifies this
      ensures Valid()
      ensures Snapshot() == old(Snapshot()).DeleteCategory(id) && nextId == old(nextId)
    {
      Snapshot().DeleteCategoryKeepsValid(id);
      Commit(Snapshot().DeleteCategory(id), nextId);
    }

    method DeleteLocation(id: Id)
      requires Valid()
      modifies this
      ensures Valid()
      ensures Snapshot() == old(Snapshot()).DeleteLocation(id) && nextId == old(nextId)
    {
      Snapshot().DeleteLocationKeepsValid(id);
      Commit(Snapshot().DeleteLocation(id), nextId);
    }

    method DeleteComment(id: Id)
      requires Valid()
      modifies this
      ensures Valid()
      ensures Snapshot() == old(Snapshot()).DeleteComment(id) && nextId == old(nextId)
    {
      Snapshot().DeleteCommentKeepsValid(id);
      Commit(Snapshot().DeleteComment(id), nextId);
    }

    method AddUser(username: string) returns (r: Result<Id, IntegrityError>)
      requires Valid()
      modifies this
      ensures Valid()
      ensures match old(Snapshot()).InsertUser(old(nextId), username)
              case Err(e) => r == Err(e) && unchanged(this)
              case Ok(d) => r == Ok(old(nextId)) && Snapshot() == d && nextId == old(nextId) + 1
    {
      var id := nextId;
      NextIdIsFresh();
      match Snapshot().InsertUser(id, username)
      case Err(e) => r := Err(e);
      case Ok(d) =>
        Snapshot().InsertUserKeepsValid(id, username);
        Commit(d, id + 1);
        r := Ok(id);
    }

    method AddCategory(title: string, description: string, slug: string,
                       isPublished: Option<bool>, now: Time) returns (r: Result<Id, IntegrityError>)
      requires Valid()
      modifies this
      ensures Valid()
      ensures match old(Snapshot()).InsertCategory(old(nextId), title, description, slug, isPublished, now)
              case Err(e) => r == Err(e) && unchanged(this)
              case Ok(d) => r == Ok(old(nextId)) && Snapshot() == d && nextId == old(nextId) + 1
    {
      var id := nextId;
      NextIdIsFresh();
      match Snapshot().InsertCategory(id, title, description, slug, isPublished, now)
      case Err(e) => r := Err(e);
      case Ok(d) =>
        Snapshot().InsertCategoryKeepsValid(id, title, description, slug, isPublished, now);
        Commit(d, id + 1);
        r := Ok(id);
    }

    method AddLocation(name: string, isPublished: Option<bool>, now: Time) returns (id: Id)
      requires Valid()
      modifies this
      ensures Valid()
      ensures id == old(nextId) && nextId == old(nextId) + 1
      ensures Snapshot() == old(Snapshot()).InsertLocation(id, name, isPublished, now)
    {
      id := nextId;
      NextIdIsFresh();
      Snapshot().InsertLocationKeepsValid(id, name, isPublished, now);
      Commit(Snapshot().InsertLocation(id, name, isPublished, now), id + 1);
    }

    method AddPost(title: string, text: string, pubDate: Time, author: Id,
                   location: Option<Id>, category: Option<Id>, image: string,
                   isPublished: Option<bool>, now: Time) returns (r: Result<Id, IntegrityError>)
      requires Valid()
      modifies this
      ensures Valid()
      ensures match old(Snapshot()).InsertPost(old(nextId), title, text, pubDate, author, location,
                                                category, image, isPublished, now)
              case Err(e) => r == Err(e) && unchanged(this)
              case Ok(d) => r == Ok(old(nextId)) && Snapshot() == d && nextId == old(nextId) + 1
    {
      var id := nextId;
      NextIdIsFresh();
      match Snapshot().InsertPost(id, title, text, pubDate, author, location, category, image, isPublished, now)
      case Err(e) => r := Err(e);
      case Ok(d) =>
        Snapshot().InsertPostKeepsValid(id, title, text, pubDate, author, location, category, image,
                                        isPublished, now);
        Commit(d, id + 1);
        r := Ok(id);
    }

    method AddComment(text: string, post: Id, author: Id, now: Time) returns (r: Result<Id, IntegrityError>)
      requires Valid()
      modifies this
      ensures Valid()
      ensures match old(Snapshot()).InsertComment(old(nextId), text, post, author, now)
              case Err(e) => r == Err(e) && unchanged(this)
              case Ok(d) => r == Ok(old(nextId)) && Snapshot() == d && nextId == old(nextId) + 1
    {
      var id := nextId;
      NextIdIsFresh();
      match Snapshot().InsertComment(id, text, post, author, now)
      case Err(e) => r := Err(e);
      case Ok(d) =>
        Snapshot().InsertCommentKeepsValid(id, text, post, author, now);
        Commit(d, id + 1);
        r := Ok(id);
    }

    method EditPost(id: Id, data: Forms.PostFormData, maxLength: nat)
      returns (r: Result<(), UpdateError<set<Forms.PostFormError>>>)
      requires Valid()
      modifies this
      ensures Valid() && nextId == old(nextId)
      ensures match old(Snapshot()).UpdatePost(id, data, maxLength)
              case Err(e) => r == Err(e) && unchanged(this)
              case Ok(d) => r == Ok(()) && Snapshot() == d
    {
      match Snapshot().UpdatePost(id, data, maxLength)
      case Err(e) => r := Err(e);
      case Ok(d) =>
        Snapshot().UpdatePostKeepsValid(id, data, maxLength);
        Commit(d, nextId);
        r := Ok(());
    }

    method EditComment(id: Id, data: Forms.CommentFormData)
      returns (r: Result<(), UpdateError<Forms.CommentFormError>>)
      requires Valid()
      modifies this
      ensures Valid() && nextId == old(nextId)
      ensures match old(Snapshot()).UpdateComment(id, data)
              case Err(e) => r == Err(e) && unchanged(this)
              case Ok(d) => r == Ok(()) && Snapshot() == d
    {
      match Snapshot().UpdateComment(id, data)
      case Err(e) => r := Err(e);
      case Ok(d) =>
        Snapshot().UpdateCommentKeepsValid(id, data);
        Commit(d, nextId);
        r := Ok(());
    }
  }
}
