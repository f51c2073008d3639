/** The post routes of backend/routes/posts.js over a store of post
    documents: listing with filters and pages, reading by slug, and the
    administrator's create, update and delete. */
module PostRoutes {
  import opened Common
  import opened Text
  import opened Ordering
  import opened PostModel
  import CategoryModel

  // ---------------------------------------------------------------- store invariant

  /** What every stored post satisfies: it passed the validators, and the
      excerpt hook has filled its excerpt. */
  predicate Stored(p: Post)
  {
    SchemaValid(p) && p.excerpt != []
  }

  predicate AllStored(posts: map<PostId, Post>, bound: nat)
  {
    forall id :: id in posts ==> id < bound && Stored(posts[id])
  }

  /** The unique index on `slug`. */
  predicate SlugsUnique(posts: map<PostId, Post>)
  {
    forall a, b :: a in posts && b in posts && a != b ==> posts[a].slug != posts[b].slug
  }

  /** Titles are unique too, although no index says so: both create and update
      look for an existing post with the requested title first. */
  predicate TitlesUnique(posts: map<PostId, Post>)
  {
    forall a, b :: a in posts && b in posts && a != b ==> posts[a].title != posts[b].title
  }

  /** Some stored post has exactly this title (`Post.findOne({ title })`). */
  predicate TitleTaken(posts: map<PostId, Post>, title: string)
  {
    exists k | k in posts :: posts[k].title == title
  }

  predicate TitleFree(posts: map<PostId, Post>, self: PostId, title: string)
  {
    forall k | k in posts && k != self :: posts[k].title != title
  }

  lemma StoreKeepsStored(posts: map<PostId, Post>, bound: nat, id: PostId, p: Post)
    requires AllStored(posts, bound)
    requires id < bound && Stored(p)
    ensures AllStored(posts[id := p], bound)
  {
  }

  /** A write whose slug and title no other post holds keeps both unique. */
  lemma WriteKeepsUnique(posts: map<PostId, Post>, id: PostId, p: Post)
    requires SlugsUnique(posts) && TitlesUnique(posts)
    requires SlugFree(posts, id, p.slug) && TitleFree(posts, id, p.title)
    ensures SlugsUnique(posts[id := p]) && TitlesUnique(posts[id := p])
  {
  }

  /** In a store with unique slugs, the slug of a stored post is free for it. */
  lemma OwnSlugFree(posts: map<PostId, Post>, id: PostId)
    requires SlugsUnique(posts) && id in posts
    ensures SlugFree(posts, id, posts[id].slug)
  {
  }

  // ---------------------------------------------------------------- listing

  datatype SortField = CreatedAt | UpdatedAt | Views

  function SortKey(p: Post, f: SortField): int
  {
    match f
    case CreatedAt => p.createdAt
    case UpdatedAt => p.updatedAt
    case Views => p.views
  }

  /** The sort key of a stored post, looked up by id. */
  function KeyOf(posts: map<PostId, Post>, f: SortField): PostId -> int
  {
    id => if id in posts then SortKey(posts[id], f) else 0
  }

  /** The query string of `GET /`; an absent parameter is None. */
  datatype ListQuery = ListQuery(
    page: Option<Pos>,
    limit: Option<Pos>,
    search: Option<string>,
    category: Option<string>,
    status: Option<string>,
    sortBy: Option<SortField>,
    sortOrder: Option<string>)

  function PageOf(q: ListQuery): Pos { OrElse(q.page, 1) }
  function LimitOf(q: ListQuery): Pos { OrElse(q.limit, 10) }
  function FieldOf(q: ListQuery): SortField { OrElse(q.sortBy, CreatedAt) }
  predicate Descending(q: ListQuery) { OrElse(q.sortOrder, "desc") == "desc" }

  /** The status filter: `published` by default, none for `all` or an empty
      value, and otherwise the literal name (a name outside the enum matches nothing). */
  predicate StatusSelects(p: Post, q: ListQuery)
  {
    var s := OrElse(q.status, "published");
    s == [] || s == "all" || StatusName(p.status) == s
  }

  /** The search filter: title, content or any tag contains the search text,
      ignoring case. */
  predicate SearchSelects(p: Post, q: ListQuery)
  {
    !Truthy(q.search)
    || ContainsIgnoreCase(p.title, q.search.value)
    || ContainsIgnoreCase(p.content, q.search.value)
    || exists i | 0 <= i < |p.tags| :: ContainsIgnoreCase(p.tags[i], q.search.value)
  }

  /** Some category carries this slug (`Category.findOne({ slug })`, whose
      value goes through the slug field's lowercase setter). */
  predicate CategorySlugExists(categories: map<CategoryId, CategoryModel.Category>, slug: string)
  {
    exists k | k in categories :: categories[k].slug == Lower(slug)
  }

  /** The category filter: it applies only when some category has the slug. */
  predicate CategorySelects(p: Post, q: ListQuery, categories: map<CategoryId, CategoryModel.Category>)
  {
    !Truthy(q.category)
    || !CategorySlugExists(categories, q.category.value)
    || (p.category in categories && categories[p.category].slug == Lower(q.category.value))
  }

  predicate Selected(p: Post, q: ListQuery, categories: map<CategoryId, CategoryModel.Category>)
  {
    StatusSelects(p, q) && SearchSelects(p, q) && CategorySelects(p, q, categories)
  }

  /** By default drafts are not listed. */
  lemma DefaultListsPublished(p: Post, q: ListQuery, categories: map<CategoryId, CategoryModel.Category>)
    requires q.status.None? && Selected(p, q, categories)
    ensures p.status == Published
  {
  }

  /** `status=all` (or an empty status) applies no status filter. */
  lemma AllStatusesListed(p: Post, q: ListQuery)
    requires q.status == Some("all") || q.status == Some([])
    requires !Truthy(q.search) && !Truthy(q.category)
    ensures forall categories :: Selected(p, q, categories)
  {
  }

  /** A category slug that no category carries filters nothing out. */
  lemma UnknownCategoryIgnored(p: Post, q: ListQuery, categories: map<CategoryId, CategoryModel.Category>)
    requires Truthy(q.category) && !CategorySlugExists(categories, q.category.value)
    ensures CategorySelects(p, q, categories)
  {
  }

  /** A known category slug keeps exactly the posts of that category. */
  lemma KnownCategoryFilters(p: Post, q: ListQuery, categories: map<CategoryId, CategoryModel.Category>, c: CategoryId)
    requires CategoryModel.SlugsUnique(categories)
    requires Truthy(q.category) && c in categories && categories[c].slug == Lower(q.category.value)
    ensures CategorySelects(p, q, categories) <==> p.category == c
  {
  }

  /** A title that contains the search text verbatim matches the search. */
  lemma VerbatimTitleMatches(p: Post, q: ListQuery)
    requires Truthy(q.search) && Contains(p.title, q.search.value)
    ensures SearchSelects(p, q)
  {
    ContainsImpliesIgnoreCase(p.title, q.search.value);
  }

  // ---------------------------------------------------------------- create and update inputs

  /** A `category` field of a request body. */
  datatype CategoryField = Omitted | Blank | Ref(id: CategoryId)

  /** The body of `POST /`; a missing string field is the empty string. */
  datatype PostInput = PostInput(
    title: string,
    content: string,
    excerpt: string,
    category: CategoryField,
    tags: string,
    status: string,
    featuredImage: string)

  /** `tags ? tags.split(',').map(tag => tag.trim()) : []`. */
  function TagsOf(raw: string): (tags: seq<string>)
    ensures raw == [] ==> tags == []
    ensures raw != [] ==> tags == ParseTags(raw)
    ensures forall i :: 0 <= i < |tags| ==> Trimmed(tags[i])
  {
    if raw == [] then [] else ParseTags(raw)
  }

  /** `status || 'draft'`, then the enum: None for a name outside it. */
  function StatusOf(raw: string): (st: Option<PostStatus>)
    ensures raw == [] ==> st == Some(Draft)
    ensures raw != [] ==> st == ParseStatus(raw)
  {
    if raw == [] then Some(Draft) else ParseStatus(raw)
  }

  /** The document `new Post({...})` builds for a create request, before the
      hooks run: the schema defaults with the request's fields; None when the
      status is outside the enum. */
  function NewDocument(input: PostInput, category: CategoryId, author: UserId, now: nat): (p: Option<Post>)
    ensures p.Some? <==> StatusOf(input.status).Some?
    ensures p.Some? ==>
              && p.value.title == Trim(input.title) && p.value.content == input.content
              && p.value.excerpt == input.excerpt && p.value.slug == []
              && p.value.author == author && p.value.category == category
              && p.value.tags == TagsOf(input.tags) && p.value.status == StatusOf(input.status).value
              && p.value.featuredImage == input.featuredImage && p.value.views == 0
              && p.value.createdAt == now && p.value.updatedAt == now
  {
    match StatusOf(input.status)
    case None => None
    case Some(st) =>
      Some(NewPost(input.title, input.content, author, category, now)
             .(excerpt := input.excerpt, tags := TagsOf(input.tags), status := st,
               featuredImage := input.featuredImage))
  }

  /** What the validators demand of a create request whose required fields
      are present: a trimmed title of 1 to 200 characters, an excerpt of at
      most 300 and a status from the enum. */
  predicate Acceptable(input: PostInput)
  {
    && Trim(input.title) != [] && |Trim(input.title)| <= TitleMaxLength
    && |input.excerpt| <= ExcerptMaxLength
    && StatusOf(input.status).Some?
  }

  /** The validators accept the new document exactly when the request is Acceptable. */
  lemma NewDocumentValid(input: PostInput, category: CategoryId, author: UserId, now: nat)
    requires input.content != []
    ensures (NewDocument(input, category, author, now).Some? && SchemaValid(NewDocument(input, category, author, now).value))
            <==> Acceptable(input)
  {
  }

  /** The first reason a create request fails, in the order of the route
      (backend/routes/posts.js:100-140), or None when the post is inserted. */
  function CreateRejection(actor: Actor, input: PostInput, posts: map<PostId, Post>, categories: set<CategoryId>): (e: Option<Error>)
    ensures AdminGate(actor).Some? ==> e == AdminGate(actor)
    ensures e.None? <==>
              && AdminGate(actor).None?
              && input.title != [] && input.content != [] && input.category.Ref?
              && input.category.id in categories
              && !TitleTaken(posts, Trim(input.title))
              && Acceptable(input)
    ensures e.Some? ==> e.value in {Unauthenticated, Forbidden, ValidationFailed, InvalidCategory, Conflict}
  {
    if AdminGate(actor).Some? then AdminGate(actor)
    else if input.title == [] || input.content == [] || !input.category.Ref? then Some(ValidationFailed)
    else if input.category.id !in categories then Some(InvalidCategory)
    else if TitleTaken(posts, Trim(input.title)) then Some(Conflict)
    else if !Acceptable(input) then Some(ValidationFailed)
    else None
  }

  /** A title held by any post, draft or published, blocks a create. */
  lemma CreateRejectsTakenTitle(actor: Actor, input: PostInput, posts: map<PostId, Post>, categories: set<CategoryId>, k: PostId)
    requires actor.User? && actor.role == Admin
    requires input.title != [] && input.content != [] && input.category.Ref? && input.category.id in categories
    requires k in posts && posts[k].title == Trim(input.title)
    ensures CreateRejection(actor, input, posts, categories) == Some(Conflict)
  {
  }

  /** Only an administrator can create, and the required fields are checked
      before the category, which is checked before the title. */
  lemma CreateCheckOrder(actor: Actor, input: PostInput, posts: map<PostId, Post>, categories: set<CategoryId>)
    ensures CreateRejection(actor, input, posts, categories) == None ==>
              && actor.User? && actor.role == Admin
              && input.title != [] && input.content != [] && input.category.Ref?
              && input.category.id in categories
              && !TitleTaken(posts, Trim(input.title))
    ensures AdminGate(actor).None? && (input.title == [] || input.content == []) ==>
              CreateRejection(actor, input, posts, categories) == Some(ValidationFailed)
  {
  }

  /** The body of `PUT /:id`; an absent field is None. */
  datatype PostPatch = PostPatch(
    title: Option<string>,
    content: Option<string>,
    excerpt: Option<string>,
    category: CategoryField,
    tags: Option<string>,
    status: Option<string>,
    featuredImage: Option<string>)

  /** `optional().notEmpty()`: a field that is present but empty fails. */
  predicate BlankField(patch: PostPatch)
  {
    patch.title == Some([]) || patch.content == Some([]) || patch.category.Blank?
  }

  /** `status || post.status`, then the enum. */
  function PatchedStatus(p: Post, patch: PostPatch): Option<PostStatus>
  {
    if Truthy(patch.status) then ParseStatus(patch.status.value) else Some(p.status)
  }

  /** The assignments of backend/routes/posts.js:188-194, through the title's
      trim setter. */
  function Merge(p: Post, patch: PostPatch, st: PostStatus): (m: Post)
    ensures Truthy(patch.title) ==> m.title == Trim(patch.title.value)
    ensures Truthy(patch.content) ==> m.content == patch.content.value
    ensures Truthy(patch.excerpt) ==> m.excerpt == patch.excerpt.value
    ensures Truthy(patch.tags) ==> m.tags == ParseTags(patch.tags.value)
    ensures patch.category.Ref? ==> m.category == patch.category.id
    ensures patch.featuredImage.Some? ==> m.featuredImage == patch.featuredImage.value
    ensures m.status == st
    ensures m.author == p.author && m.views == p.views && m.slug == p.slug
    ensures m.createdAt == p.createdAt && m.updatedAt == p.updatedAt
  {
    p.(title := if Truthy(patch.title) then Trim(patch.title.value) else p.title,
       content := if Truthy(patch.content) then patch.content.value else p.content,
       excerpt := if Truthy(patch.excerpt) then patch.excerpt.value else p.excerpt,
       category := if patch.category.Ref? then patch.category.id else p.category,
       tags := if Truthy(patch.tags) then ParseTags(patch.tags.value) else p.tags,
       status := st,
       featuredImage := if patch.featuredImage.Some? then patch.featuredImage.value else p.featuredImage)
  }

  /** Falsy values keep the old field; `featuredImage` is taken whenever it is
      present, even empty; author, views, slug and timestamps are never assigned. */
  lemma MergeRules(p: Post, patch: PostPatch, st: PostStatus)
    ensures !Truthy(patch.title) ==> Merge(p, patch, st).title == p.title
    ensures !Truthy(patch.content) ==> Merge(p, patch, st).content == p.content
    ensures !Truthy(patch.excerpt) ==> Merge(p, patch, st).excerpt == p.excerpt
    ensures !Truthy(patch.tags) ==> Merge(p, patch, st).tags == p.tags
    ensures patch.category.Omitted? ==> Merge(p, patch, st).category == p.category
    ensures patch.featuredImage == Some([]) ==> Merge(p, patch, st).featuredImage == []
    ensures var m := Merge(p, patch, st);
      m.author == p.author && m.views == p.views && m.slug == p.slug
      && m.createdAt == p.createdAt && m.updatedAt == p.updatedAt
  {
  }

  /** A merged stored post still has an excerpt, so the excerpt hook never
      fires on update: changing the content leaves the old excerpt. */
  lemma MergeKeepsExcerpt(p: Post, patch: PostPatch, st: PostStatus)
    requires Stored(p)
    ensures Merge(p, patch, st).excerpt != []
    ensures !Truthy(patch.excerpt) ==> Merge(p, patch, st).excerpt == p.excerpt
  {
  }

  /** The first reason an update fails, in the order of the route
      (backend/routes/posts.js:154-196), or None when the post is saved. */
  function UpdateRejection(actor: Actor, id: PostId, patch: PostPatch, posts: map<PostId, Post>, categories: set<CategoryId>): (e: Option<Error>)
    ensures AdminGate(actor).Some? ==> e == AdminGate(actor)
    ensures e.None? <==>
              && AdminGate(actor).None? && !BlankField(patch) && id in posts
              && (patch.category.Ref? ==> patch.category.id in categories)
              && !(Truthy(patch.title) && patch.title.value != posts[id].title && TitleTaken(posts, Trim(patch.title.value)))
              && PatchedStatus(posts[id], patch).Some?
              && SchemaValid(Merge(posts[id], patch, PatchedStatus(posts[id], patch).value))
    ensures e.Some? ==> e.value in {Unauthenticated, Forbidden, ValidationFailed, NotFound(PostEntity), InvalidCategory, Conflict}
  {
    if AdminGate(actor).Some? then AdminGate(actor)
    else if BlankField(patch) then Some(ValidationFailed)
    else if id !in posts then Some(NotFound(PostEntity))
    else if patch.category.Ref? && patch.category.id !in categories then Some(InvalidCategory)
    else if Truthy(patch.title) && patch.title.value != posts[id].title && TitleTaken(posts, Trim(patch.title.value))
    then Some(Conflict)
    else
      var st := PatchedStatus(posts[id], patch);
      if st.None? || !SchemaValid(Merge(posts[id], patch, st.value)) then Some(ValidationFailed) else None
  }

  /** An administrator's edit of only the content of a stored post, to any
      non-empty text, is saved. */
  lemma UpdateContentAccepted(actor: Actor, id: PostId, posts: map<PostId, Post>, categories: set<CategoryId>, content: string)
    requires actor.User? && actor.role == Admin
    requires id in posts && Stored(posts[id]) && content != []
    ensures UpdateRejection(actor, id, PostPatch(None, Some(content), None, Omitted, None, None, None), posts, categories) == None
  {
  }

  /** Renaming a post to the title of another post is rejected. */
  lemma UpdateRejectsOtherTitle(actor: Actor, id: PostId, patch: PostPatch, posts: map<PostId, Post>, categories: set<CategoryId>, k: PostId)
    requires actor.User? && actor.role == Admin && !BlankField(patch)
    requires id in posts && (patch.category.Ref? ==> patch.category.id in categories)
    requires Truthy(patch.title) && k in posts && k != id && posts[k].title == Trim(patch.title.value)
    requires TitlesUnique(posts) && Stored(posts[id])
    ensures UpdateRejection(actor, id, patch, posts, categories) == Some(Conflict)
  {
    TrimOfTrimmed(posts[id].title);
    assert patch.title.value != posts[id].title;
  }

  /** The comparison with the old title is on the raw request value while the
      lookup sees it trimmed: resubmitting a post's own title with white space
      in front finds the post itself and is rejected. */
  lemma UpdateRejectsOwnPaddedTitle(actor: Actor, id: PostId, patch: PostPatch, posts: map<PostId, Post>,
                                    categories: set<CategoryId>, pad: string)
    requires actor.User? && actor.role == Admin && !BlankField(patch)
    requires id in posts && Stored(posts[id])
    requires patch.category.Ref? ==> patch.category.id in categories
    requires pad != [] && forall i :: 0 <= i < |pad| ==> IsSpace(pad[i])
    requires patch.title == Some(pad + posts[id].title)
    ensures UpdateRejection(actor, id, patch, posts, categories) == Some(Conflict)
  {
    var title := posts[id].title;
    TrimLeadingSpace(pad, title);
    assert |pad + title| > |title|;
    assert TitleTaken(posts, Trim(patch.title.value));
  }

  // ---------------------------------------------------------------- the store

  /** The answer of `GET /category/:slug`: the category found by its slug, with
      its id, and one page of its published posts. */
  datatype CategoryPage = CategoryPage(category: CategoryId, document: CategoryModel.Category, listing: Listing<PostId>)

  /** The posts collection. `clock` stands for `Date.now`: every save stamps
      the next value. */
  class PostStore {
    var posts: map<PostId, Post>
    var nextId: PostId
    var clock: nat

    ghost predicate Valid()
      reads this
    {
      && AllStored(posts, nextId)
      && SlugsUnique(posts)
      && TitlesUnique(posts)
    }

    constructor ()
      ensures Valid() && posts == map[]
    {
      posts := map[];
      nextId := 0;
      clock := 0;
    }

    /** `GET /`: the matching posts in the requested order, and one page of them. */
    method List(q: ListQuery, categories: map<CategoryId, CategoryModel.Category>) returns (ordered: seq<PostId>, listing: Listing<PostId>)
      requires CategoryModel.SlugsUnique(categories)
      ensures forall id :: id in ordered <==> id in posts && Selected(posts[id], q, categories)
      ensures Distinct(ordered)
      ensures SortedBy(ordered, KeyOf(posts, FieldOf(q)), Descending(q))
      ensures listing == ListingOf(ordered, PageOf(q), LimitOf(q))
    {
      var status := OrElse(q.status, "published");
      var statusFilter: Option<string> := None;
      if status != [] && status != "all" {
        statusFilter := Some(status);
      }
      var categoryFilter: Option<CategoryId> := None;
      if Truthy(q.category) && CategorySlugExists(categories, q.category.value) {
        var c :| c in categories && categories[c].slug == Lower(q.category.value);
        categoryFilter := Some(c);
      }
      var matching := set id | id in posts
        && (statusFilter.None? || StatusName(posts[id].status) == statusFilter.value)
        && SearchSelects(posts[id], q)
        && (categoryFilter.None? || posts[id].category == categoryFilter.value);
      assert forall id :: id in matching <==> id in posts && Selected(posts[id], q, categories) by {
        forall id | id in posts
          ensures CategorySelects(posts[id], q, categories) <==>
                  (categoryFilter.None? || posts[id].category == categoryFilter.value)
        {
          if categoryFilter.Some? {
            KnownCategoryFilters(posts[id], q, categories, categoryFilter.value);
          }
        }
      }
      ordered := Sort(matching, KeyOf(posts, FieldOf(q)), Descending(q));
      listing := ListingOf(ordered, PageOf(q), LimitOf(q));
    }

    /** `GET /category/:slug`: the published posts of one category, newest first. */
    method ListByCategory(slug: string, page: Pos, limit: Pos, categories: map<CategoryId, CategoryModel.Category>)
      returns (ordered: seq<PostId>, r: Result<CategoryPage>)
      requires CategoryModel.SlugsUnique(categories)
      ensures r.Err? <==> !CategorySlugExists(categories, slug)
      ensures r.Err? ==> r.error == NotFound(CategoryEntity)
      ensures r.Ok? ==>
                && r.value.category in categories && categories[r.value.category].slug == Lower(slug)
                && r.value.document == categories[r.value.category]
                && (forall id :: id in ordered <==>
                      id in posts && posts[id].status == Published
                      && posts[id].category in categories && categories[posts[id].category].slug == Lower(slug))
                && Distinct(ordered)
                && SortedBy(ordered, KeyOf(posts, CreatedAt), true)
                && r.value.listing == ListingOf(ordered, page, limit)
    {
      if !CategorySlugExists(categories, slug) {
        ordered := [];
        r := Err(NotFound(CategoryEntity));
        return;
      }
      var c :| c in categories && categories[c].slug == Lower(slug);
      var matching := set id | id in posts && posts[id].category == c && posts[id].status == Published;
      ordered := Sort(matching, KeyOf(posts, CreatedAt), true);
      r := Ok(CategoryPage(c, categories[c], ListingOf(ordered, page, limit)));
    }

    /** `new Post({...}).save()` for a document that passed the validators:
        the hooks run with `isNew` set and the result is inserted under a fresh id. */
    method Insert(doc: Post) returns (id: PostId)
      requires Valid()
      requires SchemaValid(doc) && !TitleTaken(posts, doc.title)
      modifies this
      ensures Valid()
      ensures id !in old(posts) && id in posts && posts == old(posts)[id := posts[id]]
      ensures clock == old(clock) + 1
      ensures posts[id] == doc.(slug := posts[id].slug, updatedAt := clock, excerpt := posts[id].excerpt)
      ensures FirstFreeCandidate(old(posts), id, BaseSlug(doc.title), posts[id].slug)
      ensures posts[id].excerpt == if doc.excerpt == [] then Excerpt(doc.content) else doc.excerpt
    {
      clock := clock + 1;
      id := nextId;
      var saved := PreSave(posts, id, doc, true, false, clock);
      ExcerptFitsSchema(doc.content);
      StoreKeepsStored(posts, nextId + 1, id, saved);
      WriteKeepsUnique(posts, id, saved);
      posts := posts[id := saved];
      nextId := nextId + 1;
    }

    /** `post.save()` for the stored post `id` with its fields reassigned to
        those of `doc`; `titleModified` is Mongoose's `isModified('title')`. */
    method Save(id: PostId, doc: Post, titleModified: bool)
      requires Valid()
      requires id in posts && Stored(doc) && doc.slug == posts[id].slug
      requires TitleFree(posts, id, doc.title)
      modifies this
      ensures Valid()
      ensures id in posts && posts == old(posts)[id := posts[id]] && nextId == old(nextId)
      ensures clock == old(clock) + 1
      ensures posts[id] == doc.(slug := posts[id].slug, updatedAt := clock)
      ensures NeedsSlug(doc, false, titleModified) ==> FirstFreeCandidate(old(posts), id, BaseSlug(doc.title), posts[id].slug)
      ensures !NeedsSlug(doc, false, titleModified) ==> posts[id].slug == doc.slug
    {
      clock := clock + 1;
      OwnSlugFree(posts, id);
      var saved := PreSave(posts, id, doc, false, titleModified, clock);
      StoreKeepsStored(posts, nextId, id, saved);
      WriteKeepsUnique(posts, id, saved);
      posts := posts[id := saved];
    }

    /** `GET /:slug`: the post with the slug, after its view counter has been
        raised and the document saved. An empty slug does not reach this route. */
    method GetBySlug(slug: string) returns (r: Result<Post>)
      requires Valid()
      requires slug != []
      modifies this
      ensures Valid()
      ensures r.Err? <==> forall id :: id in old(posts) ==> old(posts)[id].slug != Lower(slug)
      ensures r.Err? ==> r.error == NotFound(PostEntity) && posts == old(posts)
      ensures r.Ok? ==> exists id :: (id in old(posts) && old(posts)[id].slug == Lower(slug)
                && r.value == old(posts)[id].(views := old(posts)[id].views + 1, updatedAt := clock)
                && posts == old(posts)[id := r.value])
      ensures nextId == old(nextId)
    {
      var key := Lower(slug);
      if !exists id | id in posts :: posts[id].slug == key {
        r := Err(NotFound(PostEntity));
        return;
      }
      var id :| id in posts && posts[id].slug == key;
      var doc := posts[id].(views := posts[id].views + 1);
      Save(id, doc, false);
      r := Ok(posts[id]);
    }

    /** `POST /`: inserts a new post for an administrator. */
    method Create(actor: Actor, input: PostInput, categories: set<CategoryId>) returns (r: Result<PostId>)
      requires Valid()
      modifies this
      ensures Valid()
      ensures r.Err? <==> CreateRejection(actor, input, old(posts), categories).Some?
      ensures r.Err? ==> Some(r.error) == CreateRejection(actor, input, old(posts), categories) && posts == old(posts)
      ensures r.Ok? ==>
                && r.value !in old(posts)
                && r.value in posts
                && posts == old(posts)[r.value := posts[r.value]]
                && NewDocument(input, input.category.id, actor.id, clock)
                   == Some(posts[r.value].(slug := [], excerpt := input.excerpt))
                && FirstFreeCandidate(old(posts), r.value, BaseSlug(Trim(input.title)), posts[r.value].slug)
                && posts[r.value].excerpt == (if input.excerpt == [] then Excerpt(input.content) else input.excerpt)
    {
      var gate := AdminGate(actor);
      if gate.Some? {
        r := Err(gate.value);
        return;
      }
      if input.title == [] || input.content == [] || !input.category.Ref? {
        r := Err(ValidationFailed);
        return;
      }
      if input.category.id !in categories {
        r := Err(InvalidCategory);
        return;
      }
      if TitleTaken(posts, Trim(input.title)) {
        r := Err(Conflict);
        return;
      }
      var doc := NewDocument(input, input.category.id, actor.id, clock + 1);
      NewDocumentValid(input, input.category.id, actor.id, clock + 1);
      if doc.None? || !SchemaValid(doc.value) {
        r := Err(ValidationFailed);
        return;
      }
      var id := Insert(doc.value);
      assert posts[id].(slug := [], excerpt := input.excerpt) == doc.value;
      r := Ok(id);
    }

    /** `PUT /:id`: merges the given fields into the post and saves it. */
    method Update(actor: Actor, id: PostId, patch: PostPatch, categories: set<CategoryId>) returns (r: Result<PostId>)
      requires Valid()
      modifies this
      ensures Valid()
      ensures r.Err? <==> UpdateRejection(actor, id, patch, old(posts), categories).Some?
      ensures r.Err? ==> Some(r.error) == UpdateRejection(actor, id, patch, old(posts), categories) && posts == old(posts)
      ensures r.Ok? ==>
                && r.value == id && id in old(posts) && id in posts
                && posts == old(posts)[id := posts[id]]
                && PatchedStatus(old(posts)[id], patch).Some?
                && var merged := Merge(old(posts)[id], patch, PatchedStatus(old(posts)[id], patch).value);
                   && posts[id] == merged.(slug := posts[id].slug, updatedAt := clock)
                   && var reslug := NeedsSlug(old(posts)[id], false, merged.title != old(posts)[id].title);
                   && (reslug ==> FirstFreeCandidate(old(posts), id, BaseSlug(merged.title), posts[id].slug))
                   && (!reslug ==> posts[id].slug == old(posts)[id].slug)
    {
      var gate := AdminGate(actor);
      if gate.Some? {
        r := Err(gate.value);
        return;
      }
      if BlankField(patch) {
        r := Err(ValidationFailed);
        return;
      }
      if id !in posts {
        r := Err(NotFound(PostEntity));
        return;
      }
      var post := posts[id];
      if patch.category.Ref? && patch.category.id !in categories {
        r := Err(InvalidCategory);
        return;
      }
      if Truthy(patch.title) && patch.title.value != post.title && TitleTaken(posts, Trim(patch.title.value)) {
        r := Err(Conflict);
        return;
      }
      var st := PatchedStatus(post, patch);
      if st.None? {
        r := Err(ValidationFailed);
        return;
      }
      var doc := Merge(post, patch, st.value);
      if !SchemaValid(doc) {
        r := Err(ValidationFailed);
        return;
      }
      MergeKeepsExcerpt(post, patch, st.value);
      assert TitleFree(posts, id, doc.title) by {
        if Truthy(patch.title) && patch.title.value == post.title {
          TrimOfTrimmed(post.title);
        }
      }
      Save(id, doc, doc.title != post.title);
      r := Ok(id);
    }

    /** `DELETE /:id`: removes the post; its comments stay. */
    method Delete(actor: Actor, id: PostId) returns (r: Result<PostId>)
      requires Valid()
      modifies this
      ensures Valid()
      ensures AdminGate(actor).Some? ==> r == Err(AdminGate(actor).value)
      ensures AdminGate(actor).None? && id !in old(posts) ==> r == Err(NotFound(PostEntity))
      ensures r.Err? ==> posts == old(posts)
      ensures r.Ok? <==> AdminGate(actor).None? && id in old(posts)
      ensures r.Ok? ==> r.value == id && posts == old(posts) - {id}
    {
      var gate := AdminGate(actor);
      if gate.Some? {
        r := Err(gate.value);
        return;
      }
      if id !in posts {
        r := Err(NotFound(PostEntity));
        return;
      }
      posts := posts - {id};
      r := Ok(id);
    }
  }
}
