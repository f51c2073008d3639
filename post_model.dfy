/** The Post schema of backend/models/Post.js: its fields and defaults, the
    schema validation, and the two pre-save hooks (slug and excerpt). */
module PostModel {
  import opened Common
  import opened Text
  import opened Slugs

  datatype PostStatus = Draft | Published

  /** The status enum `['draft', 'published']`, read from a request string. */
  function ParseStatus(s: string): (r: Option<PostStatus>)
    ensures r == Some(Draft) <==> s == "draft"
    ensures r == Some(Published) <==> s == "published"
  {
    if s == "draft" then Some(Draft)
    else if s == "published" then Some(Published)
    else None
  }

  function StatusName(st: PostStatus): (s: string)
    ensures ParseStatus(s) == Some(st)
  {
    match st
    case Draft => "draft"
    case Published => "published"
  }

  /** A post document. An absent excerpt is the empty string, which the
      hook treats exactly like `undefined`. */
  datatype Post = Post(
    title: string,
    content: string,
    excerpt: string,
    slug: string,
    author: UserId,
    category: CategoryId,
    tags: seq<string>,
    status: PostStatus,
    featuredImage: string,
    views: nat,
    createdAt: nat,
    updatedAt: nat)

  const TitleMaxLength := 200
  const ExcerptMaxLength := 300
  const ExcerptSourceLength := 150

  /** What the schema validators accept: a required trimmed title of at most
      200 characters, required content, an excerpt of at most 300 characters
      and trimmed tags. */
  predicate SchemaValid(p: Post)
  {
    && Trimmed(p.title) && p.title != [] && |p.title| <= TitleMaxLength
    && p.content != []
    && |p.excerpt| <= ExcerptMaxLength
    && forall i :: 0 <= i < |p.tags| ==> Trimmed(p.tags[i])
  }

  /** A new document with the schema defaults: status `draft`, no featured
      image, zero views, both timestamps `now`; no slug and no excerpt yet. */
  function NewPost(title: string, content: string, author: UserId, category: CategoryId, now: nat): (p: Post)
    ensures p.status == Draft && p.featuredImage == [] && p.views == 0
    ensures p.tags == [] && p.slug == [] && p.excerpt == []
    ensures p.createdAt == now && p.updatedAt == now
    ensures p.title == Trim(title) && p.content == content
    ensures p.author == author && p.category == category
  {
    Post(Trim(title), content, [], [], author, category, [], Draft, [], 0, now, now)
  }

  /** The `tags` field of a request: split on commas and trim each piece. */
  function ParseTags(raw: string): (tags: seq<string>)
    ensures |tags| == |Split(raw, ',')|
    ensures forall i :: 0 <= i < |tags| ==> tags[i] == Trim(Split(raw, ',')[i]) && Trimmed(tags[i])
  {
    var parts := Split(raw, ',');
    seq(|parts|, i requires 0 <= i < |parts| => Trim(parts[i]))
  }

  // ---------------------------------------------------------------- base slug

  /** The base slug of a title (backend/models/Post.js:64): it contains only
      `[a-z0-9-]`, never `--`, and no hyphen at an end. */
  function BaseSlug(title: string): (slug: string)
    ensures CleanSlug(slug)
  {
    var q := Squeeze(Lower(title), NonAlnum);
    SqueezeSlugChars(Lower(title), NonAlnum);
    SqueezeNoDoubleHyphen(Lower(title), NonAlnum);
    StripHyphensClean(q);
    StripHyphens(q)
  }

  /** A clean slug is its own base slug. */
  lemma BaseSlugOfClean(s: string)
    requires CleanSlug(s)
    ensures BaseSlug(s) == s
  {
    LowerNoUpper(s);
    SqueezeFixed(s, NonAlnum);
    StripHyphensOfClean(s);
  }

  /** Two words separated by any run of characters outside `[a-z0-9]` (after
      lowercasing) give the lowercased words joined by one hyphen. */
  lemma BaseSlugJoinsWords(a: string, sep: string, b: string)
    requires IsWord(Lower(a)) && IsWord(Lower(b))
    requires sep != [] && forall i :: 0 <= i < |sep| ==> !IsLowerAlnum(ToLower(sep[i]))
    ensures BaseSlug(a + sep + b) == Lower(a) + "-" + Lower(b)
  {
    LowerAppend3(a, sep, b);
    SqueezeJoins(Lower(a), Lower(sep), Lower(b), NonAlnum);
    WordsJoinedClean(Lower(a), Lower(b));
    StripHyphensOfClean(Lower(a) + "-" + Lower(b));
  }

  /** The title "don't" gives the base slug `don-t`. */
  lemma BaseSlugApostrophe(title: string)
    requires title == "don't"
    ensures BaseSlug(title) == "don-t"
  {
    DontWords();
    assert title == "don" + "'" + "t";
    BaseSlugJoinsWords("don", "'", "t");
  }

  /** The title "Food & Recipes" gives the base slug `food-recipes`. */
  lemma BaseSlugAmpersand(title: string)
    requires title == "Food & Recipes"
    ensures BaseSlug(title) == "food-recipes"
  {
    FoodRecipesWords();
    assert title == "Food" + " & " + "Recipes";
    BaseSlugJoinsWords("Food", " & ", "Recipes");
  }

  /** Deriving the base slug of a base slug changes nothing. */
  lemma BaseSlugIdempotent(title: string)
    ensures BaseSlug(BaseSlug(title)) == BaseSlug(title)
  {
    BaseSlugOfClean(BaseSlug(title));
  }

  // ---------------------------------------------------------------- collision suffix

  /** The `k`-th candidate the suffix loop tries: `base`, then `base-1`, `base-2`, … */
  function Candidate(base: string, k: nat): string
  {
    if k == 0 then base else base + "-" + NatToString(k)
  }

  /** Different counters give different candidates. */
  lemma CandidateInjective(base: string, i: nat, j: nat)
    requires Candidate(base, i) == Candidate(base, j)
    ensures i == j
  {
    if i != 0 && j != 0 {
      var a := Candidate(base, i);
      assert a[|base| + 1..] == NatToString(i);
      assert Candidate(base, j)[|base| + 1..] == NatToString(j);
      NatToStringInjective(i, j);
    } else {
      assert |Candidate(base, i)| == |base| <==> i == 0;
      assert |Candidate(base, j)| == |base| <==> j == 0;
    }
  }

  /** No post other than `self` holds `slug`. */
  predicate SlugFree(posts: map<PostId, Post>, self: PostId, slug: string)
  {
    forall id | id in posts && id != self :: posts[id].slug != slug
  }

  /** The slugs of the posts other than `self`. */
  ghost function OtherSlugs(posts: map<PostId, Post>, self: PostId): set<string>
  {
    set id | id in posts && id != self :: posts[id].slug
  }

  /** `slug` is the first free candidate: the loop stops at counter `k`, having
      found every earlier candidate taken. */
  ghost predicate FirstFreeCandidate(posts: map<PostId, Post>, self: PostId, base: string, slug: string)
  {
    && SlugFree(posts, self, slug)
    && exists k: nat :: slug == Candidate(base, k)
         && forall j: nat :: j < k ==> !SlugFree(posts, self, Candidate(base, j))
  }

  /** The suffix loop of backend/models/Post.js:65-72. */
  method ResolveSlug(posts: map<PostId, Post>, self: PostId, base: string) returns (slug: string)
    ensures SlugFree(posts, self, slug)
    ensures SlugFree(posts, self, base) ==> slug == base
    ensures !SlugFree(posts, self, base) ==>
              exists k: nat :: k >= 1 && slug == base + "-" + NatToString(k)
                && forall j: nat :: j < k ==> !SlugFree(posts, self, Candidate(base, j))
    ensures FirstFreeCandidate(posts, self, base, slug)
  {
    ghost var taken := OtherSlugs(posts, self);
    ghost var tried: set<string> := {};
    slug := base;
    var counter: nat := 1;
    while !SlugFree(posts, self, slug)
      invariant slug == Candidate(base, counter - 1)
      invariant forall j: nat :: j < counter - 1 ==> !SlugFree(posts, self, Candidate(base, j))
      invariant tried <= taken
      invariant forall t :: t in tried ==> exists j: nat :: j < counter - 1 && t == Candidate(base, j)
      decreases taken - tried
    {
      assert slug in taken;
      if slug in tried {
        var j: nat :| j < counter - 1 && slug == Candidate(base, j);
        CandidateInjective(base, j, counter - 1);
      }
      tried := tried + {slug};
      slug := base + "-" + NatToString(counter);
      counter := counter + 1;
    }
    assert slug == Candidate(base, counter - 1);
  }

  /** The first free candidate is unique: the loop's answer is determined. */
  lemma FirstFreeUnique(posts: map<PostId, Post>, self: PostId, base: string, a: string, b: string)
    requires FirstFreeCandidate(posts, self, base, a)
    requires FirstFreeCandidate(posts, self, base, b)
    ensures a == b
  {
    var i: nat :| a == Candidate(base, i) && forall j: nat :: j < i ==> !SlugFree(posts, self, Candidate(base, j));
    var k: nat :| b == Candidate(base, k) && forall j: nat :: j < k ==> !SlugFree(posts, self, Candidate(base, j));
    assert !(i < k) && !(k < i);
  }

  // ---------------------------------------------------------------- excerpt

  /** The derived excerpt: the first 150 characters of the content and "...". */
  function Excerpt(content: string): (e: string)
    ensures 3 <= |e| <= ExcerptSourceLength + 3
    ensures e[..|e| - 3] == content[..Min(ExcerptSourceLength, |content|)]
    ensures e[|e| - 3..] == "..."
  {
    var prefix := content[..if |content| <= ExcerptSourceLength then |content| else ExcerptSourceLength];
    assert (prefix + "...")[..|prefix|] == prefix;
    prefix + "..."
  }

  /** A derived excerpt always fits the schema's excerpt bound, although the
      validators never see it (they run before the hooks). */
  lemma ExcerptFitsSchema(content: string)
    ensures |Excerpt(content)| <= ExcerptMaxLength
  {
  }

  // ---------------------------------------------------------------- pre-save hooks

  /** Whether the slug hook re-derives the slug (backend/models/Post.js:63). */
  predicate NeedsSlug(doc: Post, isNew: bool, titleModified: bool)
  {
    titleModified || isNew || doc.slug == []
  }

  /** Both pre-save hooks of backend/models/Post.js, run on `doc` (stored or
      to be stored under `self`) against the collection `posts`, at time `now`. */
  method PreSave(posts: map<PostId, Post>, self: PostId, doc: Post, isNew: bool, titleModified: bool, now: nat)
    returns (saved: Post)
    ensures NeedsSlug(doc, isNew, titleModified) ==> FirstFreeCandidate(posts, self, BaseSlug(doc.title), saved.slug)
    ensures !NeedsSlug(doc, isNew, titleModified) ==> saved.slug == doc.slug
    ensures SlugFree(posts, self, doc.slug) ==> SlugFree(posts, self, saved.slug)
    ensures saved.updatedAt == now
    ensures doc.excerpt == [] && doc.content != [] ==> saved.excerpt == Excerpt(doc.content)
    ensures doc.excerpt != [] || doc.content == [] ==> saved.excerpt == doc.excerpt
    ensures saved == doc.(slug := saved.slug, updatedAt := now, excerpt := saved.excerpt)
  {
    saved := doc;
    if NeedsSlug(doc, isNew, titleModified) {
      var slug := ResolveSlug(posts, self, BaseSlug(doc.title));
      saved := saved.(slug := slug);
    }
    saved := saved.(updatedAt := now);
    if saved.excerpt == [] && saved.content != [] {
      saved := saved.(excerpt := Excerpt(saved.content));
    }
  }
}
