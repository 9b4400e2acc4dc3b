/**
 * blogicum/blog/forms.py: the two model forms. Each form has a data type
 * holding only the fields the form lets a user submit, so a value the form
 * does not list (a post's author, a comment's post or author) cannot come
 * from form input. Applying a form to an instance either yields the updated
 * instance or the validation errors, leaving the instance as it was.
 */
module Forms {
  import opened Wrappers
  import opened Core
  import opened Models

  /**
   * The characters Python's `str.isspace` accepts: the ASCII whitespace and
   * separator controls, and the Unicode spaces and line and paragraph
   * separators.
   */
  predicate IsSpace(c: char) {
    var n := c as int;
    || (9 <= n <= 13) || (28 <= n <= 32) || n == 0x85 || n == 0xa0 || n == 0x1680
    || (0x2000 <= n <= 0x200a) || n == 0x2028 || n == 0x2029 || n == 0x202f || n == 0x205f || n == 0x3000
  }

  /** How many whitespace characters `s` starts with. */
  function LeadingSpaces(s: string): (n: nat)
    ensures n <= |s|
  {
    if s != [] && IsSpace(s[0]) then 1 + LeadingSpaces(s[1..]) else 0
  }

  /** How many whitespace characters `s` ends with. */
  function TrailingSpaces(s: string): (n: nat)
    ensures n <= |s|
  {
    if s != [] && IsSpace(s[|s| - 1]) then 1 + TrailingSpaces(s[..|s| - 1]) else 0
  }

  /** `LeadingSpaces` counts exactly the run of whitespace that starts `s`. */
  lemma {:induction false} LeadingSpacesRun(s: string)
    ensures forall k :: 0 <= k < LeadingSpaces(s) ==> IsSpace(s[k])
    ensures LeadingSpaces(s) < |s| ==> !IsSpace(s[LeadingSpaces(s)])
  {
    if s != [] && IsSpace(s[0]) {
      LeadingSpacesRun(s[1..]);
      forall k | 0 < k < LeadingSpaces(s) ensures IsSpace(s[k]) {
        assert s[k] == s[1..][k - 1];
      }
    }
  }

  /** `TrailingSpaces` counts exactly the run of whitespace that ends `s`. */
  lemma {:induction false} TrailingSpacesRun(s: string)
    ensures forall k :: |s| - TrailingSpaces(s) <= k < |s| ==> IsSpace(s[k])
    ensures TrailingSpaces(s) < |s| ==> !IsSpace(s[|s| - TrailingSpaces(s) - 1])
  {
    if s != [] && IsSpace(s[|s| - 1]) {
      var t := s[..|s| - 1];
      TrailingSpacesRun(t);
      forall k | |s| - TrailingSpaces(s) <= k < |s| - 1 ensures IsSpace(s[k]) {
        assert s[k] == t[k];
      }
      if TrailingSpaces(s) < |s| {
        assert s[|s| - TrailingSpaces(s) - 1] == t[|t| - TrailingSpaces(t) - 1];
      }
    }
  }

  /**
   * `str.strip()`, which a form's text field applies before validating and
   * saving: `s` without the whitespace it starts with, then without the
   * whitespace that is left at its end.
   */
  function Strip(s: string): (r: string)
    ensures |r| <= |s|
  {
    var lead := s[LeadingSpaces(s)..];
    lead[..|lead| - TrailingSpaces(lead)]
  }

  /**
   * What `Strip` keeps is one slice of `s`, after its leading whitespace,
   * and everything around the slice is whitespace.
   */
  lemma StripSlice(s: string)
    ensures LeadingSpaces(s) + |Strip(s)| <= |s|
    ensures Strip(s) == s[LeadingSpaces(s)..LeadingSpaces(s) + |Strip(s)|]
    ensures forall k :: 0 <= k < LeadingSpaces(s) ==> IsSpace(s[k])
    ensures forall k :: LeadingSpaces(s) + |Strip(s)| <= k < |s| ==> IsSpace(s[k])
  {
    var n := LeadingSpaces(s);
    var lead := s[n..];
    var r := Strip(s);
    LeadingSpacesRun(s);
    TrailingSpacesRun(lead);
    forall k | n + |r| <= k < |s| ensures IsSpace(s[k]) {
      assert s[k] == lead[k - n];
    }
  }

  /** What `Strip` keeps neither starts nor ends with whitespace. */
  lemma StripEnds(s: string)
    ensures Strip(s) != [] ==> !IsSpace(Strip(s)[0]) && !IsSpace(Strip(s)[|Strip(s)| - 1])
  {
    var n := LeadingSpaces(s);
    var lead := s[n..];
    var r := Strip(s);
    if r != [] {
      LeadingSpacesRun(s);
      TrailingSpacesRun(lead);
      assert r[0] == s[n];
      assert r[|r| - 1] == lead[|lead| - TrailingSpaces(lead) - 1];
    }
  }

  /** Only a string of whitespace strips to nothing. */
  lemma StripEmpty(s: string)
    ensures Strip(s) == [] <==> forall k :: 0 <= k < |s| ==> IsSpace(s[k])
  {
    StripSlice(s);
    var n := LeadingSpaces(s);
    LeadingSpacesRun(s);
    assert Strip(s) == [] ==> n == |s|;
  }

  /** Stripping twice is stripping once. */
  lemma StripIdempotent(s: string)
    ensures Strip(Strip(s)) == Strip(s)
  {
    var r := Strip(s);
    StripEnds(s);
    assert LeadingSpaces(r) == 0;
    assert TrailingSpaces(r) == 0;
    assert r[0..] == r;
  }

  /** What the image widget submits: nothing new, the "clear" box, or a new file. */
  datatype ImageInput = KeepImage | ClearImage | Upload(name: string)

  /**
   * The fields of PostForm: every editable field of Post except `author`
   * (`created_at` is set on creation and is not editable). A missing
   * date is `None`; an unticked checkbox submits false.
   */
  datatype PostFormData = PostFormData(title: string, text: string, pubDate: Option<Time>,
                                       location: Option<Id>, category: Option<Id>,
                                       image: ImageInput, isPublished: bool)

  /** The ways a PostForm submission can fail field validation. */
  datatype PostFormError =
    | TitleRequired | TitleTooLong | TextRequired | PubDateRequired
    | CategoryRequired | UnknownCategory | UnknownLocation

  /**
   * The field rules PostForm derives from the model, judged on the stripped
   * title and text: both are required and the title has at most
   * `maxLength` characters; the date is
   * required; the category is required (nullable, but not blank) and must
   * name an existing category; the location may be empty, but if given
   * must name an existing location.
   */
  predicate PostFormValid(data: PostFormData, categories: seq<Category>, locations: seq<Location>,
                          maxLength: nat)
  {
    && Strip(data.title) != "" && |Strip(data.title)| <= maxLength
    && Strip(data.text) != ""
    && data.pubDate.Some?
    && data.category.Some? && (exists c :: c in categories && c.id == data.category.value)
    && (data.location.Some? ==> exists l :: l in locations && l.id == data.location.value)
  }

  /** Every field error of a submission, one per failing field. */
  function PostFormErrors(data: PostFormData, categories: seq<Category>, locations: seq<Location>,
                          maxLength: nat): (errors: set<PostFormError>)
    ensures errors == {} <==> PostFormValid(data, categories, locations, maxLength)
    ensures TitleTooLong in errors <==> |Strip(data.title)| > maxLength
    ensures TitleRequired in errors <==> Strip(data.title) == ""
    ensures TextRequired in errors <==> Strip(data.text) == ""
    ensures UnknownCategory in errors <==>
              data.category.Some? && forall c :: c in categories ==> c.id != data.category.value
    ensures PubDateRequired in errors <==> data.pubDate.None?
    ensures CategoryRequired in errors <==> data.category.None?
    ensures UnknownLocation in errors <==>
              data.location.Some? && forall l :: l in locations ==> l.id != data.location.value
  {
    var t, x := Strip(data.title), Strip(data.text);
    var title := if t == "" then {TitleRequired} else if |t| > maxLength then {TitleTooLong} else {};
    var text := if x == "" then {TextRequired} else {};
    var date := if data.pubDate.None? then {PubDateRequired} else {};
    var category := match data.category
                    case None => {CategoryRequired}
                    case Some(id) => if exists c :: c in categories && c.id == id then {} else {UnknownCategory};
    var location := match data.location
                    case None => {}
                    case Some(id) => if exists l :: l in locations && l.id == id then {} else {UnknownLocation};
    title + text + date + category + location
  }

  /** The image after the widget's input. */
  function CleanImage(current: string, input: ImageInput): string {
    match input
    case KeepImage => current
    case ClearImage => ""
    case Upload(name) => name
  }

  /**
   * PostForm bound to instance `p` and submitted with `data`: on success the
   * post with every form field taken from `data` (title and text stripped),
   * and its key, author and
   * creation stamp kept; otherwise all field errors.
   */
  function ApplyPostForm(p: Post, data: PostFormData, categories: seq<Category>,
                         locations: seq<Location>, maxLength: nat): (r: Result<Post, set<PostFormError>>)
    ensures r.Ok? <==> PostFormValid(data, categories, locations, maxLength)
    ensures r.Err? ==> r.error != {} && r.error == PostFormErrors(data, categories, locations, maxLength)
    ensures r.Ok? ==> r.value.id == p.id && r.value.author == p.author
                      && r.value.base.createdAt == p.base.createdAt
    ensures r.Ok? ==> && r.value.title == Strip(data.title) && r.value.text == Strip(data.text)
                      && Some(r.value.pubDate) == data.pubDate
                      && r.value.location == data.location && r.value.category == data.category
                      && r.value.image == CleanImage(p.image, data.image)
                      && r.value.base.isPublished == data.isPublished
  {
    var errors := PostFormErrors(data, categories, locations, maxLength);
    if errors != {} then Err(errors)
    else
      Ok(p.(title := Strip(data.title), text := Strip(data.text), pubDate := data.pubDate.value,
            location := data.location, category := data.category,
            image := CleanImage(p.image, data.image),
            base := p.base.(isPublished := data.isPublished)))
  }

  /** Submitting the same PostForm data twice changes nothing the second time. */
  lemma ApplyPostFormIdempotent(p: Post, data: PostFormData, categories: seq<Category>,
                                locations: seq<Location>, maxLength: nat)
    requires ApplyPostForm(p, data, categories, locations, maxLength).Ok?
    ensures var q := ApplyPostForm(p, data, categories, locations, maxLength).value;
            ApplyPostForm(q, data, categories, locations, maxLength) == Ok(q)
  {
  }

  /** The one field of CommentForm. */
  datatype CommentFormData = CommentFormData(text: string)

  /** The ways a CommentForm submission can fail: the stripped text is empty, or longer than the model allows. */
  datatype CommentFormError = CommentTextRequired | CommentTextTooLong

  /**
   * CommentForm bound to instance `c` and submitted with `data`: the text,
   * stripped, must be non-empty and at most the model's `max_length` (140)
   * characters long; on success only the text changes, to the stripped text.
   */
  function ApplyCommentForm(c: Comment, data: CommentFormData): (r: Result<Comment, CommentFormError>)
    ensures r.Ok? <==> 0 < |Strip(data.text)| <= CommentTextMaxLength
    ensures Strip(data.text) == "" ==> r == Err(CommentTextRequired)
    ensures |Strip(data.text)| > CommentTextMaxLength ==> r == Err(CommentTextTooLong)
    ensures r.Ok? ==> && r.value.text == Strip(data.text)
                      && r.value.id == c.id && r.value.post == c.post
                      && r.value.author == c.author && r.value.createdAt == c.createdAt
  {
    var text := Strip(data.text);
    if text == "" then Err(CommentTextRequired)
    else if |text| > CommentTextMaxLength then Err(CommentTextTooLong)
    else Ok(c.(text := text))
  }
}
