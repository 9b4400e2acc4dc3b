/**
 * blogicum/blog/views.py: the publication filter and the read-only views.
 * Each view is a function of the store's tables and the current time; what
 * it would render is its result, and `get_object_or_404` failing is
 * `NotFound`.
 */
module Views {
  import opened Wrappers
  import opened Core
  import opened Query
  import opened Models
  import opened Storage

  /** What a view hands to its template, or the not-found response. */
  datatype Response<T> = Found(value: T) | NotFound

  /** The category page's context: the category and its listed posts. */
  datatype CategoryPage = CategoryPage(category: Category, posts: seq<Post>)

  /** Why `profile_view` fails: `User.objects.get` raises DoesNotExist (not turned into a 404). */
  datatype ProfileError = UserDoesNotExist

  /**
   * The three publication conditions: the post is published, its
   * category is set and (joined by key) published, and its publication
   * date is not in the future.
   */
  predicate IsVisible(p: Post, categories: seq<Category>, now: Time) {
    && p.base.isPublished
    && p.category.Some?
    && (exists c :: c in categories && c.id == p.category.value && c.base.isPublished)
    && p.pubDate <= now
  }

  /** `filter_posts`: exactly the posts meeting the three publication conditions, in their given order. */
  function FilterPosts(posts: seq<Post>, categories: seq<Category>, now: Time): (r: seq<Post>)
    ensures forall p :: p in r <==>
              && p in posts && p.base.isPublished && p.pubDate <= now
              && p.category.Some?
              && exists c :: c in categories && c.id == p.category.value && c.base.isPublished
    ensures forall p :: multiset(r)[p] == if IsVisible(p, categories, now) then multiset(posts)[p] else 0
    ensures |r| <= |posts|
    ensures PostsNewestFirst(posts) ==> PostsNewestFirst(r)
  {
    FilterCounts(posts, (p: Post) => IsVisible(p, categories, now));
    FilterKeepsPostOrder(posts, (p: Post) => IsVisible(p, categories, now));
    Filter(posts, (p: Post) => IsVisible(p, categories, now))
  }

  /** Filtering the filtered posts again changes nothing. */
  lemma FilterPostsIdempotent(posts: seq<Post>, categories: seq<Category>, now: Time)
    ensures FilterPosts(FilterPosts(posts, categories, now), categories, now)
         == FilterPosts(posts, categories, now)
  {
    FilterIdempotent(posts, (p: Post) => IsVisible(p, categories, now));
  }

  /** A post without a category is never listed. */
  lemma UncategorisedPostsHidden(posts: seq<Post>, categories: seq<Category>, now: Time, p: Post)
    requires p.category.None?
    ensures p !in FilterPosts(posts, categories, now)
  {
  }

  /** The visible posts in the default ordering, newest first. */
  function VisiblePosts(db: Db, now: Time): (r: seq<Post>)
    ensures forall p :: p in r <==> p in db.posts && IsVisible(p, db.categories, now)
    ensures PostsNewestFirst(r)
    ensures |r| == |FilterPosts(db.posts, db.categories, now)|
  {
    var ordered := OrderPosts(db.posts);
    FilterKeepsPostOrder(ordered, (p: Post) => IsVisible(p, db.categories, now));
    FilterPermutation(ordered, db.posts, (p: Post) => IsVisible(p, db.categories, now));
    FilterPosts(ordered, db.categories, now)
  }

  /** In a newest-first listing, a post beyond a prefix is no newer than any post in it. */
  lemma BeyondPrefixIsOlder(s: seq<Post>, n: nat, q: Post)
    requires PostsNewestFirst(s) && q in s && q !in Take(s, n)
    ensures forall p :: p in Take(s, n) ==> p.pubDate >= q.pubDate
  {
    var k :| 0 <= k < |s| && s[k] == q;
    var r := Take(s, n);
    assert k >= |r|;
    forall p | p in r ensures p.pubDate >= q.pubDate {
      var i :| 0 <= i < |r| && r[i] == p;
      assert s[i] == p;
    }
  }

  /**
   * `index`: the first `maxVisible` visible posts in the default ordering:
   * at most `maxVisible` posts, all visible, newest first, and a prefix of
   * the whole visible listing.
   */
  function Index(db: Db, now: Time, maxVisible: nat): (r: seq<Post>)
    ensures |r| == if maxVisible < |FilterPosts(db.posts, db.categories, now)| then maxVisible
                   else |FilterPosts(db.posts, db.categories, now)|
    ensures forall p :: p in r ==> p in db.posts && IsVisible(p, db.categories, now)
    ensures PostsNewestFirst(r)
    ensures r == VisiblePosts(db, now)[..|r|]
  {
    Take(VisiblePosts(db, now), maxVisible)
  }

  /** `index` shows the newest posts: a visible post it leaves out is no newer than any it shows. */
  lemma IndexShowsNewest(db: Db, now: Time, maxVisible: nat, q: Post)
    requires q in db.posts && IsVisible(q, db.categories, now) && q !in Index(db, now, maxVisible)
    ensures forall p :: p in Index(db, now, maxVisible) ==> p.pubDate >= q.pubDate
  {
    BeyondPrefixIsOlder(VisiblePosts(db, now), maxVisible, q);
  }

  /** When `index` shows fewer than `maxVisible` posts, it shows every visible post. */
  lemma IndexShowsAllWhenFew(db: Db, now: Time, maxVisible: nat, q: Post)
    requires |Index(db, now, maxVisible)| < maxVisible
    requires q in db.posts && IsVisible(q, db.categories, now)
    ensures q in Index(db, now, maxVisible)
  {
    var visible := VisiblePosts(db, now);
    assert Index(db, now, maxVisible) == visible;
  }

  /**
   * `post_detail`: the post with key `id` if it passes the publication
   * filter, otherwise NotFound. Nothing depends on who is asking, so the
   * author of a hidden post gets NotFound too.
   */
  function PostDetail(db: Db, now: Time, id: Id): (r: Response<Post>)
    ensures r.Found? ==> r.value in db.posts && r.value.id == id && IsVisible(r.value, db.categories, now)
    ensures r.NotFound? <==> forall p :: p in db.posts && p.id == id ==> !IsVisible(p, db.categories, now)
  {
    match Get(FilterPosts(db.posts, db.categories, now), (p: Post) => p.id == id)
    case None => NotFound
    case Some(p) => Found(p)
  }

  /** With unique keys, `post_detail` finds post `p` exactly when `p` is visible. */
  lemma PostDetailOfPost(db: Db, now: Time, p: Post)
    requires db.Valid() && p in db.posts
    ensures PostDetail(db, now, p.id) == if IsVisible(p, db.categories, now) then Found(p) else NotFound
  {
    var r := PostDetail(db, now, p.id);
    if r.Found? {
      DistinctByKey(db.posts, PostKey, r.value, p);
    }
  }

  /**
   * `category_posts`: NotFound unless a published category has this slug;
   * otherwise that category and exactly the visible posts in it, each as
   * often as it is stored (once, with unique keys), newest first.
   */
  function CategoryPosts(db: Db, now: Time, slug: string): (r: Response<CategoryPage>)
    ensures r.NotFound? <==> forall c :: c in db.categories && c.slug == slug ==> !c.base.isPublished
    ensures r.Found? ==> var page := r.value;
              && page.category in db.categories && page.category.slug == slug
              && page.category.base.isPublished
              && (forall p :: p in page.posts <==>
                    p in db.posts && p.category == Some(page.category.id) && IsVisible(p, db.categories, now))
              && (forall p :: multiset(page.posts)[p] ==
                    if p.category == Some(page.category.id) && IsVisible(p, db.categories, now)
                    then multiset(db.posts)[p] else 0)
              && PostsNewestFirst(page.posts)
  {
    match Get(db.categories, (c: Category) => c.slug == slug && c.base.isPublished)
    case None => NotFound
    case Some(c) =>
      FilterCounts(db.posts, (p: Post) => p.category == Some(c.id));
      var inCategory := OrderPosts(Filter(db.posts, (p: Post) => p.category == Some(c.id)));
      FilterKeepsPostOrder(inCategory, (p: Post) => IsVisible(p, db.categories, now));
      Found(CategoryPage(c, FilterPosts(inCategory, db.categories, now)))
  }

  /**
   * With unique slugs: an unpublished category's page is NotFound, and a
   * published one's page is about that very category.
   */
  lemma CategoryPostsOfCategory(db: Db, now: Time, c: Category)
    requires db.Valid() && c in db.categories
    ensures CategoryPosts(db, now, c.slug).NotFound? <==> !c.base.isPublished
    ensures CategoryPosts(db, now, c.slug).Found? ==> CategoryPosts(db, now, c.slug).value.category == c
  {
    var r := CategoryPosts(db, now, c.slug);
    if r.Found? {
      DistinctByKey(db.categories, SlugKey, r.value.category, c);
    }
  }

  /** `profile_view` (the lookup only): the user with this username, or DoesNotExist. */
  function ProfileView(db: Db, username: string): (r: Result<User, ProfileError>)
    ensures r.Err? <==> forall u :: u in db.users ==> u.username != username
    ensures r.Ok? ==> r.value in db.users && r.value.username == username
  {
    match Get(db.users, (u: User) => u.username == username)
    case None => Err(UserDoesNotExist)
    case Some(u) => Ok(u)
  }

  /** With unique usernames, `profile_view` yields the one user who has the name. */
  lemma ProfileViewOfUser(db: Db, u: User)
    requires db.Valid() && u in db.users
    ensures ProfileView(db, u.username) == Ok(u)
  {
    DistinctByKey(db.users, UsernameKey, ProfileView(db, u.username).value, u);
  }
}
