# blogicum, modelled in Dafny

blogicum is a small Django blog. Users publish posts. Each post has an
author, optionally a category and a location, and a publication date, which
may lie in the future. Other users comment on posts. This project models
the blog's core:

- the publication filter and the read-only views: the front page, a post's
  page, a category's page and the profile lookup;
- the two ownership checks run before an edit or delete;
- the records and the rules the database enforces: primary keys, unique
  usernames and slugs, references that resolve, and what happens to
  dependent rows when a row is deleted (CASCADE or SET_NULL);
- the default orderings;
- the defaults of the abstract base model: published unless told otherwise,
  creation time stamped once;
- the two model forms: which fields each lets a user set, and how each
  validates.

Layout:

- `wrappers.dfy`: `Option` and `Result`.
- `query.dfy`: the parts of the query API the views use, on sequences of
  rows: `filter`, `get`/`get_object_or_404` (the first match), slicing, and a
  stable sort for `Meta.ordering`. It also holds lemmas on key uniqueness and
  key sets.
- `core.dfy`: the abstract base `PublishedAndCreatedModel`. It has no table
  of its own, so it is a value (`PublishedAndCreated`) embedded as the `base`
  field of Category, Location and Post. Comment does not extend it: it has
  its own `createdAt` and no publication flag.
- `models.dfy`: the records, the way each record is built on first save,
  and the orderings.
- `forms.dfy`: `PostForm` and `CommentForm`. Each form's data type holds only
  the fields the form lets a user submit.
- `storage.dfy`: two layers.
  - The tables as a value `Db`, with the integrity rules it keeps
    (`Db.Valid`). Each insert, delete and form-driven update is a pure
    function on `Db`, and a lemma proves that it keeps the rules.
  - A `Store` class whose methods apply those functions to its table fields.
    `nextId` hands out fresh primary keys.
- `views.dfy`: `filter_posts`, `index`, `post_detail`, `category_posts` and
  the user lookup of `profile_view`.
- `mixins.dfy`: `PostMixin.dispatch`, `CommentMixin.dispatch` and
  `CommentMixin.get_success_url`. The two guards are functions of the
  tables, the acting user and the URL's keyword arguments, so they cannot
  change the store.

Conventions:

- The clock is a parameter `now` of every operation that reads it.
- The unshown constants `MAX_VISIBLE_POSTS` and `MAX_LENGTH_CHARFIELD` are
  parameters: `maxVisible` and `maxLength`.
- A table is a sequence of rows in the order they were inserted. A lookup by a unique
  field returns the first match. `Db.Valid`'s uniqueness rules make that the
  only match, so Django's MultipleObjectsReturned cannot arise.
- The form fields built from Post's title and text and from Comment's text
  strip surrounding whitespace (Python's `str.strip`) before the required
  and length checks, and save the stripped value, as Django's text form
  fields do by default.
- `get_object_or_404` failing is `NotFound`. `PermissionDenied` is
  `Forbidden`. `profile_view` uses `User.objects.get`, which raises
  DoesNotExist rather than returning a 404, so its failure is
  `Err(UserDoesNotExist)`.

The project's own description of the blog has two behaviours the code does
not: an author override on the post page, and a redirect in the post guard.
The model follows the code:

- `post_detail` applies the publication filter to everyone, the post's
  author included.
- `PostMixin.dispatch` answers NotFound, never a redirect, for a post the
  user did not write.

## Model

| member | source | states |
|---|---|---|
| Core.Created | blogicum/core/models.py:7-12 | a record saved for the first time is published unless an explicit false is given, keeps an explicit value, and has `created_at` equal to the save time |
| Models.NewCategory | blogicum/blog/models.py:11-21 | a new category carries the given title, description and slug, is stamped with the save time, and is published unless told otherwise |
| Models.NewLocation | blogicum/blog/models.py:31-32 | a new location carries its name, is stamped with the save time, and is published unless told otherwise |
| Models.NewPost | blogicum/blog/models.py:42-73 | a new post carries every given field, is stamped with the save time, and is published unless told otherwise |
| Models.NewComment | blogicum/blog/models.py:84-97 | a new comment carries its text, post and author, and its own `created_at` is the save time |
| Models.OrderPosts | blogicum/blog/models.py:78 | the default post ordering is a permutation of the posts (same multiset and members) with publication dates non-increasing |
| Models.OrderComments | blogicum/blog/models.py:100 | the default comment ordering is a permutation of the comments with creation times non-decreasing |
| Models.FilterKeepsPostOrder | blogicum/blog/models.py:78 | filtering a newest-first listing keeps it newest first |
| Query.Filter | blogicum/blog/views.py:9-10 | a filter keeps exactly the rows meeting its condition and is no longer than its input |
| Query.FilterCounts | blogicum/blog/views.py:9-10 | a filter keeps every copy of a row it keeps and none of a row it drops, so its result is a sub-multiset of its input |
| Query.FilterIdempotent | blogicum/blog/views.py:9-10 | filtering twice by the same condition equals filtering once |
| Query.FilterPermutation | blogicum/blog/models.py:78 | filtering two orderings of the same rows gives two orderings of the same result |
| Query.Get | blogicum/blog/views.py:23-26 | a lookup fails exactly when no row matches; a hit is a matching row of the table |
| Query.Take | blogicum/blog/views.py:16 | slicing `[:n]` gives the first min(n, length) rows |
| Query.SortBy | blogicum/blog/models.py:78 | the ordering is sorted by its key and is a permutation of its input |
| Query.FilterSorted | blogicum/blog/models.py:78 | filtering a sorted listing keeps it sorted |
| Query.FilterDistinct | blogicum/blog/models.py:14-16 | filtering a table whose rows have distinct keys keeps them distinct |
| Forms.LeadingSpacesRun | blogicum/blog/forms.py:6-21 | the leading count covers exactly the whitespace run that starts a string: every character before it is whitespace, and the next one is not |
| Forms.TrailingSpacesRun | blogicum/blog/forms.py:6-21 | the trailing count covers exactly the whitespace run that ends a string |
| Forms.StripSlice | blogicum/blog/forms.py:6-21 | the stripping a form text field applies keeps one slice of the input and drops only whitespace before and after it |
| Forms.StripEnds | blogicum/blog/forms.py:6-21 | what stripping keeps neither starts nor ends with whitespace |
| Forms.StripEmpty | blogicum/blog/forms.py:6-21 | a field strips to nothing exactly when it is all whitespace |
| Forms.StripIdempotent | blogicum/blog/forms.py:6-21 | stripping twice is stripping once |
| Forms.PostFormValid | blogicum/blog/forms.py:6-9 | the field rules PostForm takes from the model: stripped title non-empty and within the length limit, stripped text non-empty, a date, a category that exists, and a location that exists if one is given |
| Forms.CleanImage | blogicum/blog/models.py:73 | the optional image field keeps the current image, clears it, or takes the uploaded one |
| Forms.PostFormErrors | blogicum/blog/forms.py:6-15 | a submission collects no error exactly when it is valid; on the stripped title, TitleRequired is present exactly when it is empty and TitleTooLong exactly when it is over the limit; TextRequired is present exactly when the stripped text is empty; PubDateRequired exactly when no date is given; CategoryRequired exactly when no category is chosen and UnknownCategory exactly when the chosen one does not exist; UnknownLocation exactly when a location is chosen that does not exist |
| Forms.ApplyPostForm | blogicum/blog/forms.py:6-9 | the form succeeds exactly when its data is valid, and on failure reports every field error; on success every form field is taken from the data, title and text stripped, while key, author and creation stamp are kept |
| Forms.ApplyPostFormIdempotent | blogicum/blog/forms.py:6-15 | submitting the same PostForm data again to the edited post changes nothing |
| Forms.ApplyCommentForm | blogicum/blog/forms.py:18-21 | the comment form succeeds exactly when the stripped text is non-empty and at most 140 characters; blank text is refused as required and longer text as too long; on success only the text changes, to the stripped text |
| Storage.Db.Valid | blogicum/blog/models.py:14-96 | the database's integrity rules: unique primary keys in every table, unique usernames and slugs, and every author, category, location and post reference of a post or comment naming an existing row |
| Storage.Db.DeletePost | blogicum/blog/models.py:86-90 | deleting a post removes exactly that post and exactly the comments on it; other tables are unchanged |
| Storage.Db.DeletePostKeepsValid | blogicum/blog/models.py:86-90 | deleting a post keeps keys unique and every reference resolving, and introduces no key |
| Storage.Db.DeleteUser | blogicum/blog/models.py:52-57 | deleting a user removes exactly that user, exactly their posts, and exactly the comments they wrote or that were on their posts |
| Storage.Db.DeleteUserKeepsValid | blogicum/blog/models.py:52-57 | deleting a user keeps the integrity rules and introduces no key |
| Storage.Db.DeleteUserCascades | blogicum/blog/models.py:91-96 | a comment survives deleting a user exactly when neither it nor the post it is on was written by that user |
| Storage.Db.DeleteCategory | blogicum/blog/models.py:65-71 | deleting a category removes exactly it, and every post that referenced it loses its category with every other field unchanged |
| Storage.Db.DeleteCategoryKeepsValid | blogicum/blog/models.py:65-71 | deleting a category keeps the integrity rules and introduces no key |
| Storage.Db.DeleteCategoryKeepsPosts | blogicum/blog/models.py:65-71 | after deleting a category no post refers to it, and each post survives, its category cleared if it was that one |
| Storage.Db.DeleteLocation | blogicum/blog/models.py:58-64 | deleting a location removes exactly it, and every post that referenced it loses its location with every other field unchanged |
| Storage.Db.DeleteLocationKeepsValid | blogicum/blog/models.py:58-64 | deleting a location keeps the integrity rules and introduces no key |
| Storage.Db.DeleteLocationKeepsPosts | blogicum/blog/models.py:58-64 | after deleting a location no post refers to it, and no post is removed |
| Storage.Db.DeleteComment | blogicum/blog/models.py:84-90 | deleting a comment removes exactly that comment and nothing else |
| Storage.Db.DeleteCommentKeepsValid | blogicum/blog/models.py:84-90 | deleting a comment keeps the integrity rules and introduces no key |
| Storage.Db.SlugIdentifiesCategory | blogicum/blog/models.py:14-16 | in a valid store, two categories with the same slug are the same category |
| Storage.Db.InsertUser | blogicum/blog/models.py:8 | inserting a user is refused with DuplicateUsername exactly when the username is taken; otherwise only the new row is appended |
| Storage.Db.InsertUserKeepsValid | blogicum/blog/models.py:8 | an accepted user insert with a fresh key keeps the integrity rules and adds only that key |
| Storage.Db.InsertCategory | blogicum/blog/models.py:14-16 | inserting a category is refused with DuplicateSlug exactly when the slug is taken; otherwise only the new row is appended |
| Storage.Db.InsertCategoryKeepsValid | blogicum/blog/models.py:14-16 | an accepted category insert with a fresh key keeps slugs and keys unique and adds only that key |
| Storage.Db.InsertLocation | blogicum/blog/models.py:31-32 | inserting a location appends only the new row |
| Storage.Db.InsertLocationKeepsValid | blogicum/blog/models.py:31-32 | a location insert with a fresh key keeps the integrity rules and adds only that key |
| Storage.Db.InsertPost | blogicum/blog/models.py:52-71 | inserting a post succeeds exactly when its author, category and location references resolve; a missing author is UnknownAuthor |
| Storage.Db.InsertPostKeepsValid | blogicum/blog/models.py:52-71 | an accepted post insert with a fresh key keeps the integrity rules and adds only that key |
| Storage.Db.InsertComment | blogicum/blog/models.py:86-96 | inserting a comment succeeds exactly when its post and author exist; a missing post is UnknownPost |
| Storage.Db.InsertCommentKeepsValid | blogicum/blog/models.py:86-96 | an accepted comment insert with a fresh key keeps the integrity rules and adds only that key |
| Storage.Db.UpdatePost | blogicum/blog/forms.py:6-9 | saving PostForm over a post is refused with NoSuchRow exactly when no post has the key, with the form's errors (never none) when invalid, and accepted exactly when the post exists and the form is valid; when accepted only that row changes, as the form dictates, and every row keeps its key, author and creation stamp |
| Storage.Db.RewritePostsKeepsValid | blogicum/blog/forms.py:6-9 | rewriting the posts row by row with keys kept and references resolving keeps the integrity rules and the key set |
| Storage.Db.UpdatePostKeepsValid | blogicum/blog/forms.py:6-9 | an accepted PostForm save keeps the integrity rules and the key set |
| Storage.Db.UpdateComment | blogicum/blog/forms.py:18-21 | saving CommentForm over a comment is refused with NoSuchRow exactly when no comment has the key, and as invalid exactly when the comment exists and the stripped text is empty or over 140 characters, the reason being "required" for empty text and "too long" otherwise; when accepted only that comment's text changes, to the stripped text |
| Storage.Db.RewriteCommentsKeepsValid | blogicum/blog/forms.py:18-21 | rewriting the comments row by row with keys, posts and authors kept keeps the integrity rules and the key set |
| Storage.Db.UpdateCommentKeepsValid | blogicum/blog/forms.py:18-21 | an accepted CommentForm save keeps the integrity rules and the key set |
| Storage.EmptyDbValid | blogicum/blog/models.py:11-103 | the empty store meets the integrity rules |
| Storage.NullCategory | blogicum/blog/models.py:65-71 | SET_NULL on `Post.category`: a row keeps its place and every other field, and loses the category exactly when it was the deleted one |
| Storage.NullLocation | blogicum/blog/models.py:58-64 | SET_NULL on `Post.location`: a row keeps its place and every other field, and loses the location exactly when it was the deleted one |
| Storage.Store.Commit | blogicum/blog/models.py:11-103 | the store takes on the given valid tables and key counter |
| Storage.Store.NextIdIsFresh | blogicum/blog/models.py:11-103 | the next key to be handed out is not in use in any table |
| Storage.Store.DeletePost | blogicum/blog/models.py:86-90 | the tables become `Db.DeletePost` of the old tables, and the store stays valid |
| Storage.Store.DeleteUser | blogicum/blog/models.py:52-57 | the tables become `Db.DeleteUser` of the old tables, and the store stays valid |
| Storage.Store.DeleteCategory | blogicum/blog/models.py:65-71 | the tables become `Db.DeleteCategory` of the old tables, and the store stays valid |
| Storage.Store.DeleteLocation | blogicum/blog/models.py:58-64 | the tables become `Db.DeleteLocation` of the old tables, and the store stays valid |
| Storage.Store.DeleteComment | blogicum/blog/models.py:84-90 | the tables become `Db.DeleteComment` of the old tables, and the store stays valid |
| Storage.Store.AddUser | blogicum/blog/models.py:8 | a refused insert changes nothing and returns the error; an accepted one appends the user under the next key, returns it and advances the counter |
| Storage.Store.AddCategory | blogicum/blog/models.py:14-16 | a refused insert changes nothing and returns the error; an accepted one appends the category under the next key, returns it and advances the counter |
| Storage.Store.AddLocation | blogicum/blog/models.py:31-32 | appends the location under the next key, returns it and advances the counter |
| Storage.Store.AddPost | blogicum/blog/models.py:52-71 | a refused insert changes nothing and returns the error; an accepted one appends the post under the next key, returns it and advances the counter |
| Storage.Store.AddComment | blogicum/blog/models.py:86-96 | a refused insert changes nothing and returns the error; an accepted one appends the comment under the next key, returns it and advances the counter |
| Storage.Store.EditPost | blogicum/blog/forms.py:6-9 | a refused PostForm save changes nothing and returns the reason; an accepted one replaces the tables by `Db.UpdatePost`'s result |
| Storage.Store.EditComment | blogicum/blog/forms.py:18-21 | a refused CommentForm save changes nothing and returns the reason, which `Db.UpdateComment` makes Invalid exactly for blank or over-long text, naming which; an accepted one replaces the tables by `Db.UpdateComment`'s result |
| Views.IsVisible | blogicum/blog/views.py:10 | the three publication conditions: the post is published, its category is set and names a published category, and its date is not after now |
| Views.FilterPosts | blogicum/blog/views.py:8-11 | exactly the posts that are published, have a category that exists and is published, and are dated no later than now, each kept as often as it occurs; a newest-first list stays newest first |
| Views.FilterPostsIdempotent | blogicum/blog/views.py:8-11 | filtering the filtered posts again changes nothing |
| Views.UncategorisedPostsHidden | blogicum/blog/views.py:10 | a post without a category is never listed |
| Views.VisiblePosts | blogicum/blog/views.py:16 | exactly the visible posts, newest first, as many as the filter keeps |
| Views.BeyondPrefixIsOlder | blogicum/blog/views.py:16 | in a newest-first listing, a post beyond the first n is no newer than any of the first n |
| Views.Index | blogicum/blog/views.py:14-18 | the front page shows min(maxVisible, number visible) posts, all visible, newest first, forming a prefix of the visible listing |
| Views.IndexShowsNewest | blogicum/blog/views.py:16 | a visible post the front page leaves out is no newer than any post it shows |
| Views.IndexShowsAllWhenFew | blogicum/blog/views.py:16 | when the front page shows fewer than maxVisible posts, it shows every visible post |
| Views.PostDetail | blogicum/blog/views.py:21-28 | a post's page is NotFound exactly when no post with that key passes the filter, whoever asks; a hit is that visible post |
| Views.PostDetailOfPost | blogicum/blog/views.py:23-26 | in a valid store, the page of an existing post shows it exactly when it is visible, and is NotFound otherwise |
| Views.CategoryPosts | blogicum/blog/views.py:31-36 | a category page is NotFound exactly when no published category has the slug; otherwise it shows that published category and exactly the visible posts in it, each as many times as it is stored and no other, newest first |
| Views.CategoryPostsOfCategory | blogicum/blog/views.py:33 | in a valid store, a category's page is NotFound exactly when the category is unpublished, and otherwise is about that very category |
| Views.ProfileView | blogicum/blog/views.py:39-43 | the lookup fails exactly when no user has the username; a hit is a user with that name |
| Views.ProfileViewOfUser | blogicum/blog/views.py:41 | in a valid store, looking up a user's name yields that user |
| Mixins.PostDispatch | blogicum/blog/mixins.py:9-11 | the post guard never answers Forbidden, and proceeds exactly when the URL names a post the acting user wrote |
| Mixins.PostDispatchHidesOwnership | blogicum/blog/mixins.py:10 | a missing post and another user's post both get NotFound |
| Mixins.CommentDispatch | blogicum/blog/mixins.py:15-19 | the comment guard answers NotFound exactly when the URL names no existing comment, so a missing comment is never Forbidden; Forbidden means the comment exists and the user did not write it; Proceed means the user did |
| Mixins.CommentDispatchOfComment | blogicum/blog/mixins.py:16-19 | in a valid store, for an existing comment the guard proceeds exactly when the acting user wrote it and is Forbidden otherwise |
| Mixins.CommentDispatchIgnoresPost | blogicum/blog/mixins.py:16-19 | the comment guard's answer does not depend on the URL's `post_id` |
| Mixins.ReversePostDetail | blogicum/blog/urls.py:10 | reversing the post detail route resolves exactly when the arguments are just `id` with an integer value, and then names that post |
| Mixins.SuccessUrlKwargsAsWritten | blogicum/blog/mixins.py:23 | the arguments as written carry the URL's `post_id` under the name `post_id` and have no `id` |
| Mixins.SuccessUrlAsWrittenNeverResolves | blogicum/blog/mixins.py:21-24 | with the arguments as written, the reverse never resolves |
| Mixins.SuccessUrl | blogicum/blog/mixins.py:21-24 | with the argument named as the route declares it, the success URL is the detail page of the URL's `post_id` exactly when one is given |

## Left out

- URL routing is not modelled. Only the one pattern `get_success_url`
  reverses is modelled, in `Mixins.ReversePostDetail`.
- The admin is not modelled: it only configures display.
- The static pages and their error handlers are not modelled.
- Template rendering, request objects, sessions and authentication are not
  modelled. The acting user is a key parameter.
- `super().dispatch` is not modelled: the guards stop at their decision.
- `select_related` is not modelled. It only changes how rows are fetched,
  not which rows.
- The rest of `profile_view` is not modelled. It only looks up the user.
- Image files are not modelled: no storage and no file validation. An image
  is its stored name, and the empty name means no image. A submission that
  both uploads a file and ticks the "clear" box, which Django refuses,
  cannot be expressed: `ImageInput` offers one choice at a time.
- Slug character validation (letters, digits, hyphen, underscore) is not
  modelled. It is a form and admin check on a field no core form edits.
- The length limits on a category's title, a location's name and a
  category's slug (a `SlugField`, 50 characters by default) are not
  modelled. Admin forms enforce them. Whether the database refuses an
  over-long value depends on the backend, which is not part of this model:
  SQLite does not check a `varchar` length, PostgreSQL does.
- `Storage.Db.InsertPost`: accepts a title longer than `maxLength`. Only
  `PostForm` checks that limit; the database case is the backend-dependent
  one above.
- `Storage.Db.InsertComment`: does not check the 140-character limit. A
  `TextField`'s `max_length` is enforced by the form, not the database, so
  only `Forms.ApplyCommentForm` checks it.
- `Query.SortBy`: breaks ties in publication date or creation time by
  table order. The database leaves such ties unspecified, and the listing
  lemmas use only the key order.
- Key order is not an invariant of `Db.Valid`. `Store` appends rows with
  increasing keys, but `Store.Commit` accepts any valid tables, so a table
  is not proved to be in primary-key order. Nothing in the views relies on
  that order: listings are sorted by date.
- One key counter numbers the rows of all five tables, where the database
  numbers each table separately. Keys stay unique within each table either
  way, and no rule compares keys across tables.
- Django's form text fields also refuse the NUL character. That validator
  is not modelled.
- Concurrency and transactions across requests are not modelled. Each
  store method is one atomic step.
- Time zones, and the clock itself, are not modelled. Time is an integer
  and the current time is a parameter.

## Findings

| source | as written | input that shows it | evidently intended | confidence | as-written member | corrected member |
|---|---|---|---|---|---|---|
| blogicum/blog/mixins.py:23 | `get_success_url` reverses `blog:post_detail` with the keyword `post_id`, but that route's only parameter is `id` (blogicum/blog/urls.py:10), so the reverse raises NoReverseMatch | any URL keyword arguments, e.g. `post_id = 1`: the arguments `{post_id: 1}` do not match the pattern's parameter set `{id}` | pass the post key under the route's own parameter name `id`, giving the detail page of post 1 | high (not executed) | Mixins.SuccessUrlAsWrittenNeverResolves | Mixins.SuccessUrl |
