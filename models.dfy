/**
 * blogicum/blog/models.py: the records, their creation defaults, the default
 * orderings and the key selectors of their unique constraints.
 */
module Models {
  import opened Wrappers
  import opened Core
  import opened Query

  /** A primary key. */
  type Id = nat

  /** The framework's user model, reduced to what the blog uses: its key and unique username. */
  datatype User = User(id: Id, username: string)

  /** A category; `slug` is unique. Extends the abstract base. */
  datatype Category = Category(id: Id, title: string, description: string, slug: string,
                               base: PublishedAndCreated)

  /** A location. Extends the abstract base. */
  datatype Location = Location(id: Id, name: string, base: PublishedAndCreated)

  /**
   * A post. `author` is a required reference (CASCADE); `location` and
   * `category` are nullable references (SET_NULL); `image` is a file name,
   * empty when there is none. Extends the abstract base.
   */
  datatype Post = Post(id: Id, title: string, text: string, pubDate: Time, author: Id,
                       location: Option<Id>, category: Option<Id>, image: string,
                       base: PublishedAndCreated)

  /**
   * A comment. It does not extend the abstract base: it has its own
   * `created_at` and no publication flag. `post` and `author` are required
   * references (CASCADE).
   */
  datatype Comment = Comment(id: Id, text: string, post: Id, author: Id, createdAt: Time)

  /** The `max_length` of a comment's text. */
  const CommentTextMaxLength: nat := 140

  /** A category as first saved at `now`. */
  function NewCategory(id: Id, title: string, description: string, slug: string,
                       isPublished: Option<bool>, now: Time): (c: Category)
    ensures c.id == id && c.title == title && c.description == description && c.slug == slug
    ensures c.base.createdAt == now
    ensures c.base.isPublished <==> isPublished != Some(false)
  {
    Category(id, title, description, slug, Created(isPublished, now))
  }

  /** A location as first saved at `now`. */
  function NewLocation(id: Id, name: string, isPublished: Option<bool>, now: Time): (l: Location)
    ensures l.id == id && l.name == name
    ensures l.base.createdAt == now
    ensures l.base.isPublished <==> isPublished != Some(false)
  {
    Location(id, name, Created(isPublished, now))
  }

  /** A post as first saved at `now`. */
  function NewPost(id: Id, title: string, text: string, pubDate: Time, author: Id,
                   location: Option<Id>, category: Option<Id>, image: string,
                   isPublished: Option<bool>, now: Time): (p: Post)
    ensures p.id == id && p.title == title && p.text == text && p.pubDate == pubDate
    ensures p.author == author && p.location == location && p.category == category
    ensures p.image == image
    ensures p.base.createdAt == now
    ensures p.base.isPublished <==> isPublished != Some(false)
  {
    Post(id, title, text, pubDate, author, location, category, image, Created(isPublished, now))
  }

  /** A comment as first saved at `now`. */
  function NewComment(id: Id, text: string, post: Id, author: Id, now: Time): (c: Comment)
    ensures c.id == id && c.text == text && c.post == post && c.author == author
    ensures c.createdAt == now
  {
    Comment(id, text, post, author, now)
  }

  /** The sort key of the default post ordering `-pub_date`. */
  function NewestFirst(p: Post): int { -p.pubDate }

  /** The sort key of the default comment ordering `created_at`. */
  function OldestFirst(c: Comment): int { c.createdAt }

  /** Posts in descending order of publication date. */
  ghost predicate PostsNewestFirst(ps: seq<Post>) {
    forall i, j :: 0 <= i < j < |ps| ==> ps[i].pubDate >= ps[j].pubDate
  }

  /** Comments in ascending (chronological) order of creation. */
  ghost predicate CommentsOldestFirst(cs: seq<Comment>) {
    forall i, j :: 0 <= i < j < |cs| ==> cs[i].createdAt <= cs[j].createdAt
  }

  /** Posts in the default ordering: the same posts, newest publication date first. */
  function OrderPosts(ps: seq<Post>): (r: seq<Post>)
    ensures multiset(r) == multiset(ps)
    ensures forall p :: p in r <==> p in ps
    ensures PostsNewestFirst(r)
  {
    var r := SortBy(ps, NewestFirst);
    assert forall p :: p in r <==> p in multiset(r);
    r
  }

  /** Comments in the default ordering: the same comments, oldest first. */
  function OrderComments(cs: seq<Comment>): (r: seq<Comment>)
    ensures multiset(r) == multiset(cs)
    ensures forall c :: c in r <==> c in cs
    ensures CommentsOldestFirst(r)
  {
    var r := SortBy(cs, OldestFirst);
    assert forall c :: c in r <==> c in multiset(r);
    r
  }

  /** Filtering posts that are newest first keeps them newest first. */
  lemma FilterKeepsPostOrder(ps: seq<Post>, keep: Post -> bool)
    ensures PostsNewestFirst(ps) ==> PostsNewestFirst(Filter(ps, keep))
  {
    if PostsNewestFirst(ps) {
      assert SortedBy(ps, NewestFirst);
      FilterSorted(ps, keep, NewestFirst);
    }
  }

  // Key selectors of the unique constraints (primary keys, username, slug).

  function UserKey(u: User): Id { u.id }
  function UsernameKey(u: User): string { u.username }
  function CategoryKey(c: Category): Id { c.id }
  function SlugKey(c: Category): string { c.slug }
  function LocationKey(l: Location): Id { l.id }
  function PostKey(p: Post): Id { p.id }
  function CommentKey(c: Comment): Id { c.id }
}
